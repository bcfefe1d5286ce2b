/** The firmware's packet builders: bytes appended to a fixed buffer, then the length prefix. */
module FirmwareSend {
  import opened Prelude
  import opened Messages
  import opened Cbor
  import opened Codec
  import opened Framing

  /** A text cut to the 63 bytes that fit a 64-byte field with its terminator. */
  function Cut(s: Bytes): (r: Bytes)
    ensures r <= s && |r| < 64
  {
    if |s| >= 64 then s[..63] else s
  }

  /** What `strlen` measures: the bytes up to the first zero. */
  function CString(s: Bytes): (r: Bytes)
    ensures r <= s && 0 !in r && (r == s || s[|r|] == 0)
    ensures r == s <==> 0 !in s
  {
    if s == [] || s[0] == 0 then []
    else
      var r := [s[0]] + CString(s[1..]);
      assert r <= s by {
        assert s == [s[0]] + s[1..];
      }
      r
  }

  /** A text as it is sent: cut at its first zero, then to 63 bytes. */
  function Shown(s: Bytes): (r: Bytes)
    ensures r <= s && |r| < 64
  {
    Cut(CString(s))
  }

  /** It is the longest prefix without a zero that has less than 64 bytes. */
  lemma ShownIff(s: Bytes, p: Bytes)
    ensures p <= Shown(s) <==> p <= s && 0 !in p && |p| < 64
  {
    var c := CString(s);
    if p <= Shown(s) {
      forall i | 0 <= i < |p|
        ensures p[i] != 0
      {
        assert p[i] == c[i] && c[i] in c;
      }
    }
  }

  /** An empty error text is sent as no error. */
  function ShownError(e: Option<Bytes>): (r: Option<Bytes>)
    ensures r.Some? ==> 0 < |r.value| < 64
  {
    if e.None? || Shown(e.value) == [] then None else Some(Shown(e.value))
  }

  /** The source's own texts hold no zero and are sent whole. */
  lemma PlainText(s: string)
    requires 0 < |s| < 64 && forall i :: 0 <= i < |s| ==> Low(s[i]) != 0
    ensures ShownError(Some(Ascii(s))) == Some(Ascii(s))
  {
    assert 0 !in Ascii(s);
  }

  /** Writes `s` at `off`. */
  method Put(buf: array<Byte>, off: nat, s: Bytes) returns (next: nat)
    requires 4 <= off && off + |s| <= buf.Length
    modifies buf
    ensures next == off + |s|
    ensures buf[4..next] == old(buf[4..off]) + s
  {
    forall i | 0 <= i < |s| {
      buf[off + i] := s[i];
    }
    assert buf[4..off] == old(buf[4..off]);
    assert buf[off..off + |s|] == s;
    assert buf[4..off + |s|] == buf[4..off] + buf[off..off + |s|];
    return off + |s|;
  }

  /** Writes the big-endian payload length in front. */
  method Seal(buf: array<Byte>, off: nat) returns (packet: Bytes)
    requires 4 <= off <= buf.Length && off < 0x1_0000_0000
    modifies buf
    ensures packet == Frame(old(buf[4..off]))
  {
    var prefix := Be32(off - 4);
    buf[0], buf[1], buf[2], buf[3] := prefix[0], prefix[1], prefix[2], prefix[3];
    assert buf[..off] == buf[..4] + buf[4..off];
    assert buf[..4] == prefix;
    return buf[..off];
  }

  /** A text shorter than 64 bytes, with a one-byte or two-byte head. */
  method PutText(buf: array<Byte>, off: nat, s: Bytes) returns (next: nat)
    requires 4 <= off && |s| < 64 && off + |s| + (if |s| <= 23 then 1 else 2) <= buf.Length
    modifies buf
    ensures next == off + |Str(TEXT, s)|
    ensures buf[4..next] == old(buf[4..off]) + Str(TEXT, s)
  {
    ghost var before := buf[4..off];
    if |s| <= 23 {
      next := Put(buf, off, [0x60 + |s|]);
    } else {
      next := Put(buf, off, [0x78, |s|]);
    }
    assert buf[4..next] == before + Head(TEXT, |s|);
    next := Put(buf, next, s);
    assert before + Head(TEXT, |s|) + s == before + Str(TEXT, s);
  }

  method PutError(buf: array<Byte>, off: nat, error: Option<Bytes>) returns (next: nat)
    requires 4 <= off && off + 65 <= buf.Length
    modifies buf
    ensures next == off + |OptText(ShownError(error))| <= off + 65
    ensures buf[4..next] == old(buf[4..off]) + OptText(ShownError(error))
  {
    var text := if error.Some? then Shown(error.value) else [];
    if |text| == 0 {
      next := Put(buf, off, [0xf6]);
    } else {
      next := PutText(buf, off, text);
    }
  }

  method SendDeployAck(appId: Bytes, success: bool, error: Option<Bytes>) returns (packet: Bytes)
    ensures packet == Frame(EncodeClient(DeployAck(Shown(appId), success, ShownError(error))))
    ensures |packet| <= 137
  {
    var buf := new Byte[4 + 64 + 96];
    var id := Shown(appId);
    var off := Put(buf, 4, [0x84, 0x05]);
    off := PutText(buf, off, id);
    off := Put(buf, off, Bool(success));
    off := PutError(buf, off, error);
    AckLayout(id, success, ShownError(error));
    packet := Seal(buf, off);
  }

  lemma Regroup(x: Byte, y: Byte, a: Bytes, b: Bytes, c: Bytes)
    ensures [] + [x, y] + a + b + c == [x] + ([y] + (a + (b + c)))
  {
  }

  lemma AckLayout(id: Bytes, success: bool, error: Option<Bytes>)
    requires |id| < 64 && (error.Some? ==> |error.value| < 64)
    ensures [] + [0x84, 0x05] + Str(TEXT, id) + Bool(success) + OptText(error)
      == EncodeClient(DeployAck(id, success, error))
  {
    Regroup(0x84, 0x05, Str(TEXT, id), Bool(success), OptText(error));
  }

  method SendApplicationStatus(appId: Bytes, status: Byte) returns (packet: Bytes)
    requires status <= 4
    ensures packet == Frame(EncodeClient(ApplicationStatus(Shown(appId), status, None, None)))
    ensures |packet| <= 74 && (|packet| == 74 <==> |CString(appId)| >= 63)
  {
    var buf := new Byte[4 + 2 + 1 + 64 + 1 + 1 + 1];
    var id := Shown(appId);
    var off := Put(buf, 4, [0x85, 0x04]);
    off := PutText(buf, off, id);
    off := Put(buf, off, [status]);
    off := Put(buf, off, [0xf6, 0xf6]);
    StatusLayout(id, status);
    packet := Seal(buf, off);
  }

  lemma StatusLayout(id: Bytes, status: Byte)
    requires |id| < 64 && status <= 4
    ensures [] + [0x85, 0x04] + Str(TEXT, id) + [status] + [0xf6, 0xf6]
      == EncodeClient(ApplicationStatus(id, status, None, None))
  {
    Regroup(0x85, 0x04, Str(TEXT, id), [status], [0xf6, 0xf6]);
    assert [0xf6] + [NULL] == [0xf6, 0xf6];
    assert Head(UINT, status) == [status];
  }

  /** A framed client message: the prefix is the payload length, and the payload decodes to the message. */
  lemma PacketDecodes(m: ClientMessage)
    requires ClientFits(m) && |EncodeClient(m)| < 0x1_0000_0000
    ensures var packet := Frame(EncodeClient(m));
      && FromBe32(packet[..4]) == |packet| - 4
      && DecodeClient(packet[4..]) == Some(m)
  {
    var packet := Frame(EncodeClient(m));
    Be32RoundTrip(|EncodeClient(m)|);
    ClientRoundTrip(m);
    assert packet[..4] == Be32(|EncodeClient(m)|) && packet[4..] == EncodeClient(m);
  }
}
