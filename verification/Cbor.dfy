/** The CBOR items the protocol uses, as minicbor writes and reads them: preferred
    serialization on the way out (section 4.1 of RFC 8949), any definite-length head on the way in. */
module Cbor {
  import opened Prelude
  import opened Messages

  const UINT := 0
  const BYTES := 2
  const TEXT := 3
  const ARRAY := 4
  const MAP := 5
  const NULL: Byte := 0xf6

  type Major = m: int | 0 <= m < 8

  /** What a reader yields: a value and the unread rest. */
  type Parsed<T> = Option<(T, Bytes)>

  function Head(major: Major, n: U64): Bytes {
    if n < 24 then [Lead(major, n)]
    else if n < 0x100 then [Lead(major, 24), n]
    else if n < 0x1_0000 then [Lead(major, 25), n / 0x100, n % 0x100]
    else if n < 0x1_0000_0000 then [Lead(major, 26)] + Be32(n)
    else [Lead(major, 27)] + Be32(n / 0x1_0000_0000) + Be32(n % 0x1_0000_0000)
  }

  function Lead(major: Major, info: nat): Byte
    requires info < 32
  {
    32 * (major as int) + info
  }

  function ReadHead(major: Major, b: Bytes): Parsed<U64> {
    if |b| == 0 || b[0] / 32 != major then None
    else
      var info := b[0] % 32;
      if info < 24 then Some((info, b[1..]))
      else if info == 24 && |b| >= 2 then Some((b[1], b[2..]))
      else if info == 25 && |b| >= 3 then Some((b[1] as int * 256 + b[2] as int, b[3..]))
      else if info == 26 && |b| >= 5 then Some((FromBe32(b[1..5]), b[5..]))
      else if info == 27 && |b| >= 9 then
        Some((FromBe32(b[1..5]) as int * 0x1_0000_0000 + FromBe32(b[5..9]) as int, b[9..]))
      else None
  }

  lemma HeadReads(major: Major, n: U64, rest: Bytes)
    ensures ReadHead(major, Head(major, n) + rest) == Some((n, rest))
  {
    var head := Head(major, n);
    var b := head + rest;
    assert b[|head|..] == rest;
    assert b[0] == head[0];
    if n < 24 {
    } else if n < 0x100 {
    } else if n < 0x1_0000 {
      assert b[1] == n / 0x100 && b[2] == n % 0x100;
    } else if n < 0x1_0000_0000 {
      assert b[1..5] == Be32(n);
      Be32RoundTrip(n);
    } else {
      assert b[1..5] == Be32(n / 0x1_0000_0000) && b[5..9] == Be32(n % 0x1_0000_0000);
      Be32RoundTrip(n / 0x1_0000_0000);
      Be32RoundTrip(n % 0x1_0000_0000);
    }
  }

  /** A byte or text string. */
  function Str(major: Major, s: Bytes): Bytes
    requires |s| < 0x1_0000_0000_0000_0000
  {
    Head(major, |s|) + s
  }

  function ReadStr(major: Major, b: Bytes): Parsed<Bytes> {
    match ReadHead(major, b)
    case Some((n, rest)) => if n <= |rest| then Some((rest[..n], rest[n..])) else None
    case None => None
  }

  lemma StrReads(major: Major, s: Bytes, rest: Bytes)
    requires |s| < 0x1_0000_0000_0000_0000
    ensures ReadStr(major, Str(major, s) + rest) == Some((s, rest))
  {
    assert Str(major, s) + rest == Head(major, |s|) + (s + rest);
    HeadReads(major, |s|, s + rest);
    assert (s + rest)[..|s|] == s && (s + rest)[|s|..] == rest;
  }

  function Bool(v: bool): Bytes { if v then [0xf5] else [0xf4] }

  function ReadBool(b: Bytes): Parsed<bool> {
    if |b| == 0 then None
    else if b[0] == 0xf5 then Some((true, b[1..]))
    else if b[0] == 0xf4 then Some((false, b[1..]))
    else None
  }

  lemma BoolReads(v: bool, rest: Bytes)
    ensures ReadBool(Bool(v) + rest) == Some((v, rest))
  {
    assert (Bool(v) + rest)[1..] == rest;
  }

  /** A text, or null for none. */
  function OptText(t: Option<Bytes>): Bytes
    requires t.Some? ==> |t.value| < 0x1_0000_0000_0000_0000
  {
    if t.Some? then Str(TEXT, t.value) else [NULL]
  }

  function ReadOptText(b: Bytes): Parsed<Option<Bytes>> {
    if |b| == 0 then None
    else if b[0] == NULL then Some((None, b[1..]))
    else
      match ReadStr(TEXT, b)
      case Some((t, rest)) => Some((Some(t), rest))
      case None => None
  }

  lemma OptTextReads(t: Option<Bytes>, rest: Bytes)
    requires t.Some? ==> |t.value| < 0x1_0000_0000_0000_0000
    ensures ReadOptText(OptText(t) + rest) == Some((t, rest))
  {
    if t.Some? {
      StrReads(TEXT, t.value, rest);
      assert OptText(t)[0] / 32 == 3;
    } else {
      assert (OptText(t) + rest)[1..] == rest;
    }
  }
}
