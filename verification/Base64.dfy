/** The two base64 engines the gateway uses, both strict decoders:
    standard with canonical padding (section 4 of RFC 4648) and
    URL-safe without padding (section 5 of RFC 4648). */
module Base64 {
  import opened Prelude

  type Sextet = s: int | 0 <= s < 64

  datatype Engine = Standard | UrlSafe

  function CharOf(e: Engine, s: Sextet): char {
    if s < 26 then ('A' as int + s) as char
    else if s < 52 then ('a' as int + s - 26) as char
    else if s < 62 then ('0' as int + s - 52) as char
    else if s == 62 then (if e == Standard then '+' else '-')
    else (if e == Standard then '/' else '_')
  }

  function SextetOf(e: Engine, c: char): Option<Sextet> {
    if 'A' <= c <= 'Z' then Some(c as int - 'A' as int)
    else if 'a' <= c <= 'z' then Some(c as int - 'a' as int + 26)
    else if '0' <= c <= '9' then Some(c as int - '0' as int + 52)
    else if c == (if e == Standard then '+' else '-') then Some(62)
    else if c == (if e == Standard then '/' else '_') then Some(63)
    else None
  }

  lemma CharSextet(e: Engine, c: char, s: Sextet)
    ensures SextetOf(e, c) == Some(s) <==> CharOf(e, s) == c
    ensures CharOf(e, s) != '='
  {
  }

  /** Regroup bytes into six-bit digits; a final short group is zero-filled. */
  function Digits(b: Bytes): seq<Sextet> {
    if |b| == 0 then []
    else if |b| == 1 then [b[0] / 4, b[0] % 4 * 16]
    else if |b| == 2 then [b[0] / 4, b[0] % 4 * 16 + b[1] / 16, b[1] % 16 * 4]
    else [b[0] / 4, b[0] % 4 * 16 + b[1] / 16, b[1] % 16 * 4 + b[2] / 64, b[2] % 64] + Digits(b[3..])
  }

  function Byte0(s0: int, s1: int): int { s0 * 4 + s1 / 16 }

  function Byte1(s1: int, s2: int): int { s1 % 16 * 16 + s2 / 4 }

  function Byte2(s2: int, s3: int): int { s2 % 4 * 64 + s3 }

  /** The inverse regrouping; left-over bits must be zero. */
  function Undigits(s: seq<Sextet>): Option<Bytes> {
    if |s| == 0 then Some([])
    else if |s| == 1 then None
    else if |s| == 2 then (if s[1] % 16 == 0 then Some([Byte0(s[0], s[1])]) else None)
    else if |s| == 3 then
      if s[2] % 4 == 0 then Some([Byte0(s[0], s[1]), Byte1(s[1], s[2])]) else None
    else
      match Undigits(s[4..])
      case None => None
      case Some(rest) => Some([Byte0(s[0], s[1]), Byte1(s[1], s[2]), Byte2(s[2], s[3])] + rest)
  }

  lemma {:induction false} UndigitsDigits(b: Bytes)
    ensures Undigits(Digits(b)) == Some(b)
  {
    if |b| >= 3 {
      UndigitsDigits(b[3..]);
      var s := Digits(b);
      assert s[4..] == Digits(b[3..]);
      assert Byte0(s[0], s[1]) == b[0] && Byte1(s[1], s[2]) == b[1] && Byte2(s[2], s[3]) == b[2];
      assert b == [b[0], b[1], b[2]] + b[3..];
    } else if |b| > 0 {
      var s := Digits(b);
      assert Byte0(s[0], s[1]) == b[0];
      assert |b| == 1 ==> b == [b[0]];
      assert |b| == 2 ==> Byte1(s[1], s[2]) == b[1] && b == [b[0], b[1]];
    }
  }

  /** Taking four digits apart again after they were packed into three bytes. */
  lemma GroupDigits(s0: Sextet, s1: Sextet, s2: Sextet, s3: Sextet)
    ensures Byte0(s0, s1) / 4 == s0 && Byte0(s0, s1) % 4 * 16 + Byte1(s1, s2) / 16 == s1
    ensures Byte1(s1, s2) % 16 * 4 + Byte2(s2, s3) / 64 == s2 && Byte2(s2, s3) % 64 == s3
    ensures s1 % 16 == 0 ==> Byte0(s0, s1) % 4 * 16 == s1
    ensures s2 % 4 == 0 ==> Byte1(s1, s2) % 16 * 4 == s2
  {
  }

  lemma {:induction false} DigitsUndigits(s: seq<Sextet>)
    requires Undigits(s).Some?
    ensures Digits(Undigits(s).value) == s
  {
    var b := Undigits(s).value;
    if |s| >= 4 {
      DigitsUndigits(s[4..]);
      GroupDigits(s[0], s[1], s[2], s[3]);
      assert b[3..] == Undigits(s[4..]).value;
      assert Digits(b)[..4] == s[..4];
      assert s == s[..4] + s[4..];
    } else if |s| >= 2 {
      GroupDigits(s[0], s[1], if |s| == 3 then s[2] else 0, 0);
    }
  }

  lemma {:induction false} DigitCount(b: Bytes)
    ensures |Digits(b)| % 4 == (if |b| % 3 == 0 then 0 else |b| % 3 + 1)
  {
    if |b| >= 3 {
      DigitCount(b[3..]);
    }
  }

  function Letters(e: Engine, s: seq<Sextet>): (t: string)
    ensures |t| == |s|
  {
    seq(|s|, i requires 0 <= i < |s| => CharOf(e, s[i]))
  }

  function Unletters(e: Engine, t: string): (r: Option<seq<Sextet>>)
    ensures r.Some? ==> |r.value| == |t|
  {
    if |t| == 0 then Some([])
    else
      match (SextetOf(e, t[0]), Unletters(e, t[1..]))
      case (Some(d), Some(rest)) => Some([d] + rest)
      case _ => None
  }

  lemma {:induction false} UnlettersIff(e: Engine, t: string, s: seq<Sextet>)
    ensures Unletters(e, t) == Some(s) <==> Letters(e, s) == t
  {
    if |t| == 0 || |s| == 0 {
    } else {
      UnlettersIff(e, t[1..], s[1..]);
      CharSextet(e, t[0], s[0]);
      assert Letters(e, s) == [CharOf(e, s[0])] + Letters(e, s[1..]);
      assert t == [t[0]] + t[1..];
      assert s == [s[0]] + s[1..];
      if Unletters(e, t).Some? {
        CharSextet(e, t[0], SextetOf(e, t[0]).value);
      }
    }
  }

  function Padding(e: Engine, digits: nat): string {
    if e == UrlSafe then "" else if digits % 4 == 2 then "==" else if digits % 4 == 3 then "=" else ""
  }

  function Encode(e: Engine, b: Bytes): string {
    Letters(e, Digits(b)) + Padding(e, |Digits(b)|)
  }

  /** How many trailing characters of `t` are padding. */
  function PadCount(t: string): (n: nat)
    ensures n <= |t|
  {
    if |t| >= 2 && t[|t| - 1] == '=' && t[|t| - 2] == '=' then 2
    else if |t| >= 1 && t[|t| - 1] == '=' then 1
    else 0
  }

  function Decode(e: Engine, t: string): Option<Bytes> {
    if e == Standard && |t| % 4 != 0 then None
    else
      var body := if e == Standard then t[..|t| - PadCount(t)] else t;
      match Unletters(e, body)
      case None => None
      case Some(digits) => Undigits(digits)
  }

  lemma LettersUnpadded(e: Engine, s: seq<Sextet>)
    ensures '=' !in Letters(e, s)
  {
    forall i | 0 <= i < |s| ensures CharOf(e, s[i]) != '=' {
      CharSextet(e, '=', s[i]);
    }
  }

  lemma PaddingRecognized(letters: string, digits: nat)
    requires '=' !in letters && |letters| == digits && digits % 4 != 1
    ensures var t := letters + Padding(Standard, digits);
      |t| % 4 == 0 && t[..|t| - PadCount(t)] == letters
  {
    var t := letters + Padding(Standard, digits);
    assert |letters| > 0 ==> letters[|letters| - 1] != '=';
    assert PadCount(t) == |Padding(Standard, digits)|;
  }

  lemma DecodeEncode(e: Engine, b: Bytes)
    ensures Decode(e, Encode(e, b)) == Some(b)
  {
    var digits := Digits(b);
    var letters := Letters(e, digits);
    UndigitsDigits(b);
    LettersUnpadded(e, digits);
    UnlettersIff(e, letters, digits);
    if e == Standard {
      DigitCount(b);
      PaddingRecognized(letters, |digits|);
    } else {
      assert Encode(e, b) == letters;
    }
  }

  lemma PadSplit(t: string)
    ensures t == t[..|t| - PadCount(t)] + seq(PadCount(t), _ => '=')
  {
  }

  lemma EncodeDecode(e: Engine, t: string)
    requires Decode(e, t).Some?
    ensures Encode(e, Decode(e, t).value) == t
  {
    var n := if e == Standard then PadCount(t) else 0;
    var body := t[..|t| - n];
    assert e == UrlSafe ==> body == t;
    var digits := Unletters(e, body).value;
    UnlettersIff(e, body, digits);
    DigitsUndigits(digits);
    if e == Standard {
      PadSplit(t);
      StandardTail(|t|, n, |digits|, Undigits(digits).value, digits);
    }
  }

  /** The number of digits fixes the padding. */
  lemma StandardTail(length: nat, n: nat, count: nat, b: Bytes, digits: seq<Sextet>)
    requires length % 4 == 0 && n <= 2 && count + n == length && digits == Digits(b) && |digits| == count
    ensures Padding(Standard, count) == seq(n, _ => '=')
  {
    DigitCount(b);
    assert count % 4 == (4 - n) % 4;
  }

  /** Both decoders invert exactly their own encoder. */
  lemma DecodeIff(e: Engine, t: string, b: Bytes)
    ensures Decode(e, t) == Some(b) <==> Encode(e, b) == t
  {
    DecodeEncode(e, b);
    if Decode(e, t).Some? {
      EncodeDecode(e, t);
    }
  }

  /** Only the empty key has an empty spelling. */
  lemma SpellingNotEmpty(e: Engine, b: Bytes)
    requires b != []
    ensures Encode(e, b) != ""
  {
    DecodeEncode(e, b);
    assert Decode(e, "") == Some([]);
  }

  lemma {:induction false} UnlettersAgree(t: string)
    ensures Unletters(Standard, t).Some? && Unletters(UrlSafe, t).Some? ==>
      Unletters(Standard, t) == Unletters(UrlSafe, t)
  {
    if |t| > 0 {
      UnlettersAgree(t[1..]);
    }
  }

  /** A text both engines accept means the same bytes to both. */
  lemma EnginesAgree(t: string)
    requires Decode(Standard, t).Some? && Decode(UrlSafe, t).Some?
    ensures Decode(Standard, t) == Decode(UrlSafe, t)
  {
    var digits := Unletters(UrlSafe, t).value;
    UnlettersIff(UrlSafe, t, digits);
    LettersUnpadded(UrlSafe, digits);
    assert PadCount(t) == 0;
    assert t[..|t|] == t;
    UnlettersAgree(t);
  }
}
