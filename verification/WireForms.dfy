/** The forms on the wire, byte by byte: the base64 alphabets and bits (RFC 4648), the heads of CBOR items
    (section 3 of RFC 8949), and the leading bytes and field order of the messages. */
module WireForms {
  import opened Prelude
  import B = Base64
  import opened Messages
  import opened Cbor
  import opened Codec

  // ---------------------------------------------------------------- base64

  /** The alphabets of sections 4 and 5 of RFC 4648: A to Z, a to z, 0 to 9, and the two that differ. */
  lemma Alphabets(e: B.Engine, s: nat)
    ensures B.CharOf(e, 0) == 'A' && B.CharOf(e, 26) == 'a' && B.CharOf(e, 52) == '0'
    ensures s < 61 && s != 25 && s != 51 ==> B.CharOf(e, s + 1) as int == B.CharOf(e, s) as int + 1
    ensures B.CharOf(B.Standard, 62) == '+' && B.CharOf(B.Standard, 63) == '/'
    ensures B.CharOf(B.UrlSafe, 62) == '-' && B.CharOf(B.UrlSafe, 63) == '_'
  {
  }

  /** Four digits hold the 24 bits of three bytes; a short group is filled with zero bits. */
  lemma DigitsHoldBits(b: Bytes)
    ensures var d := B.Digits(b);
      && (|b| == 1 ==> |d| == 2 && d[0] as int * 64 + d[1] == b[0] as int * 16)
      && (|b| == 2 ==> |d| == 3 && d[0] as int * 4096 + d[1] as int * 64 + d[2] == (b[0] as int * 256 + b[1]) * 4)
      && (|b| >= 3 ==>
            && |d| >= 4 && d[4..] == B.Digits(b[3..])
            && d[0] as int * 262144 + d[1] as int * 4096 + d[2] as int * 64 + d[3]
               == b[0] as int * 65536 + b[1] as int * 256 + b[2])
  {
  }

  lemma {:induction false} DigitsLength(b: Bytes)
    ensures |B.Digits(b)| == (4 * |b| + 2) / 3
  {
    if |b| >= 3 {
      DigitsLength(b[3..]);
    }
  }

  /** The standard form is padded to a multiple of four characters, the URL-safe one never. */
  lemma PaddedLengths(b: Bytes)
    ensures |B.Encode(B.Standard, b)| == (|b| + 2) / 3 * 4 && |B.Encode(B.UrlSafe, b)| == (4 * |b| + 2) / 3
  {
    DigitsLength(b);
    PaddedCount(|b|, |b| / 3, |b| % 3, |B.Digits(b)|);
  }

  lemma PaddedCount(k: nat, n: nat, r: nat, d: nat)
    requires k == 3 * n + r && r < 3 && d == (4 * k + 2) / 3
    ensures d == 4 * n + (if r == 0 then 0 else r + 1)
    ensures (k + 2) / 3 * 4 == d + (if d % 4 == 2 then 2 else if d % 4 == 3 then 1 else 0)
  {
    assert (k + 2) / 3 == if r == 0 then n else n + 1;
  }

  // ---------------------------------------------------------------- heads

  /** The big-endian number in the bytes. */
  function Value(b: Bytes): nat { if |b| == 0 then 0 else Value(b[..|b| - 1]) * 256 + b[|b| - 1] }

  lemma Value2(x: Byte, y: Byte)
    ensures Value([x, y]) == x as int * 256 + y
  {
    assert [x, y][..1] == [x] && [x][..0] == [];
    assert Value([x]) == x;
  }

  lemma ValueBe32(b: Bytes, n: Word)
    ensures Value(b + Be32(n)) == Value(b) * WRAP + n
  {
    var w := Be32(n);
    Be32RoundTrip(n);
    var b0, b1, b2, b3 := b + [w[0]], b + [w[0], w[1]], b + [w[0], w[1], w[2]], b + w;
    assert b3[..|b| + 3] == b2 && b2[..|b| + 2] == b1 && b1[..|b| + 1] == b0 && b0[..|b|] == b;
    assert Value(b0) == Value(b) * 256 + w[0];
    assert Value(b1) == Value(b0) * 256 + w[1];
    assert Value(b2) == Value(b1) * 256 + w[2];
    assert Value(b3) == Value(b2) * 256 + w[3];
  }

  /** Major type in the upper three bits; the value in the lower five, or 24 to 27 and then the value in
      the least of one, two, four or eight bytes. */
  lemma HeadForm(major: Major, n: U64)
    ensures var h := Head(major, n);
      && |h| > 0 && h[0] / 32 == major
      && (if n < 24 then |h| == 1 && h[0] % 32 == n
          else
            && Value(h[1..]) == n
            && h[0] % 32 ==
                 (if n < 0x100 then 24 else if n < 0x1_0000 then 25 else if n < 0x1_0000_0000 then 26 else 27)
            && |h| == (if n < 0x100 then 2 else if n < 0x1_0000 then 3 else if n < 0x1_0000_0000 then 5 else 9))
  {
    var h := Head(major, n);
    if 24 <= n < 0x100 {
      assert h[1..] == [n] && [n][..0] == [];
    } else if 0x100 <= n < 0x1_0000 {
      assert h[1..] == [n / 0x100, n % 0x100];
      Value2(n / 0x100, n % 0x100);
    } else if 0x1_0000 <= n < 0x1_0000_0000 {
      assert h[1..] == [] + Be32(n);
      ValueBe32([], n);
    } else if 0x1_0000_0000 <= n {
      assert h[1..] == ([] + Be32(n / WRAP)) + Be32(n % WRAP);
      ValueBe32([], n / WRAP);
      ValueBe32([] + Be32(n / WRAP), n % WRAP);
    }
  }

  /** The bytes are the head of `n`, in any of the five lengths. */
  ghost predicate IsHead(c: Bytes, major: Major, n: nat) {
    && |c| > 0 && c[0] / 32 == major
    && (|| (|c| == 1 && c[0] % 32 == n < 24)
        || (Value(c[1..]) == n
            && ((|c| == 2 && c[0] % 32 == 24) || (|c| == 3 && c[0] % 32 == 25)
                || (|c| == 5 && c[0] % 32 == 26) || (|c| == 9 && c[0] % 32 == 27))))
  }

  lemma ValueOf(c: Bytes)
    ensures |c| == 1 ==> Value(c) == c[0]
    ensures |c| == 2 ==> Value(c) == c[0] as int * 256 + c[1]
    ensures |c| == 4 ==> Value(c) == FromBe32(c)
    ensures |c| == 8 ==> Value(c) == FromBe32(c[..4]) as int * WRAP + FromBe32(c[4..])
  {
    if |c| == 1 {
      assert c[..0] == [];
    } else if |c| == 2 {
      assert c == [c[0], c[1]];
      Value2(c[0], c[1]);
    } else if |c| == 4 {
      Value4(c);
    } else if |c| == 8 {
      Value8(c);
    }
  }

  lemma Value4(c: Bytes)
    requires |c| == 4
    ensures Value(c) == FromBe32(c)
  {
    assert c[..3][..2] == c[..2] && c[..2][..1] == c[..1] && c[..1][..0] == [];
    assert Value(c[..1]) == c[0];
    assert Value(c[..2]) == c[0] as int * 256 + c[1];
    assert Value(c[..3]) == (c[0] as int * 256 + c[1]) * 256 + c[2];
  }

  lemma {:induction false} ValueJoins(a: Bytes, c: Bytes)
    requires |c| == 4
    ensures Value(a + c) == Value(a) * WRAP + Value(c)
  {
    var s1, s2, s3 := a + c[..1], a + c[..2], a + c[..3];
    assert (a + c)[..|a| + 3] == s3 && s3[..|a| + 2] == s2 && s2[..|a| + 1] == s1 && s1[..|a|] == a;
    assert Value(s1) == Value(a) * 256 + c[0];
    assert Value(s2) == Value(s1) * 256 + c[1];
    assert Value(s3) == Value(s2) * 256 + c[2];
    assert Value(a + c) == Value(s3) * 256 + c[3];
    Value4(c);
  }

  lemma Value8(c: Bytes)
    requires |c| == 8
    ensures Value(c) == FromBe32(c[..4]) as int * WRAP + FromBe32(c[4..])
  {
    assert c == c[..4] + c[4..];
    ValueJoins(c[..4], c[4..]);
    Value4(c[..4]);
    Value4(c[4..]);
  }

  lemma NineBytes(b: Bytes, c: Bytes)
    requires |b| >= 9 && c == b[..9]
    ensures c[1..][..4] == b[1..5] && c[1..][4..] == b[5..9]
  {
    var d := c[1..];
    assert forall i :: 0 <= i < 8 ==> d[i] == b[i + 1];
    assert d[..4] == b[1..5];
    assert d[4..] == b[5..9];
  }

  /** The reader takes exactly the heads of its major type, in any of the five lengths, and nothing else. */
  lemma HeadReadIff(major: Major, b: Bytes, n: U64, k: nat)
    requires k <= |b|
    ensures ReadHead(major, b) == Some((n, b[k..])) <==> IsHead(b[..k], major, n)
  {
    if 0 < k {
      ValueOf(b[..k][1..]);
      assert b[..k][0] == b[0];
      if k == 5 {
        assert b[..k][1..] == b[1..5];
      } else if k == 9 {
        NineBytes(b, b[..k]);
      }
    }
    var r := ReadHead(major, b);
    assert r.Some? ==> |r.value.1| < |b|;
  }

  // ---------------------------------------------------------------- messages

  lemma ServerBodyTagged(tag: U64, len: U64, b: Bytes, m: ServerMessage)
    requires DecodeServerBody(tag, len, b) == Some(m)
    ensures ServerTag(m) == (len, tag) && (m.DeviceUuid? ==> |m.uuid| == 16)
  {
  }

  /** What is decoded was tagged so: array length and tag are those of the message. */
  lemma ServerDecodedAs(b: Bytes, m: ServerMessage)
    requires DecodeServer(b) == Some(m)
    ensures ReadHead(ARRAY, b).Some? && ReadHead(ARRAY, b).value.0 == ServerTag(m).0
    ensures var rest := ReadHead(ARRAY, b).value.1;
      ReadHead(UINT, rest).Some? && ReadHead(UINT, rest).value.0 == ServerTag(m).1
    ensures m.DeviceUuid? ==> |m.uuid| == 16
  {
    var (len, r1) := ReadHead(ARRAY, b).value;
    var (tag, r2) := ReadHead(UINT, r1).value;
    ServerBodyTagged(tag, len, r2, m);
  }

  lemma ClientBodyTagged(tag: U64, len: U64, b: Bytes, m: ClientMessage)
    requires DecodeClientBody(tag, len, b) == Some(m)
    ensures ClientTag(m) == (len, tag) && (m.ApplicationStatus? ==> m.status <= 4)
  {
  }

  lemma ClientDecodedAs(b: Bytes, m: ClientMessage)
    requires DecodeClient(b) == Some(m)
    ensures ReadHead(ARRAY, b).Some? && ReadHead(ARRAY, b).value.0 == ClientTag(m).0
    ensures var rest := ReadHead(ARRAY, b).value.1;
      ReadHead(UINT, rest).Some? && ReadHead(UINT, rest).value.0 == ClientTag(m).1
    ensures m.ApplicationStatus? ==> m.status <= 4
  {
    var (len, r1) := ReadHead(ARRAY, b).value;
    var (tag, r2) := ReadHead(UINT, r1).value;
    ClientBodyTagged(tag, len, r2, m);
  }

  /** A status from 4 on is read as 4. */
  lemma UnknownStatus(appId: Bytes, status: Word, error: Option<Bytes>)
    requires |appId| < LIMIT && OptFits(error) && status >= 4
    ensures ReadStatus(Str(TEXT, appId) + (Head(UINT, status) + (OptText(error) + [NULL])))
      == Some(ApplicationStatus(appId, 4, error, None))
  {
    StrReads(TEXT, appId, Head(UINT, status) + (OptText(error) + [NULL]));
    HeadReads(UINT, status, OptText(error) + [NULL]);
    OptTextReads(error, [NULL]);
  }

  /** The two bytes each server message starts with. */
  lemma ServerStarts(m: ServerMessage)
    requires ServerFits(m)
    ensures |EncodeServer(m)| >= 2
    ensures var b := EncodeServer(m)[..2];
      && (m.HeartbeatAck? <==> b == [0x81, 0x00]) && (m.EnrollmentAccepted? <==> b == [0x81, 0x01])
      && (m.EnrollmentRejected? <==> b == [0x82, 0x02]) && (m.DeviceUuid? <==> b == [0x82, 0x03])
      && (m.EnrollmentCompleted? <==> b == [0x81, 0x04]) && (m.DeployApplication? <==> b == [0x86, 0x05])
      && (m.StopApplication? <==> b == [0x82, 0x06]) && (m.RequestDeviceInfo? <==> b == [0x81, 0x07])
      && (m.RequestApplicationStatus? <==> b == [0x82, 0x08]) && (m.Challenge? <==> b == [0x82, 0x09])
  {
    ServerLead(m);
    var b := EncodeServer(m)[..2];
    assert b == [0x80 + ServerTag(m).0 as int, ServerTag(m).1];
    ServerTagTable(m, ServerTag(m).0, ServerTag(m).1);
  }

  lemma ServerTagTable(m: ServerMessage, len: U64, tag: U64)
    requires (len, tag) == ServerTag(m)
    ensures len == (if m.DeployApplication? then 6
                    else if m.HeartbeatAck? || m.EnrollmentAccepted? || m.EnrollmentCompleted? || m.RequestDeviceInfo?
                    then 1 else 2)
    ensures (m.HeartbeatAck? <==> tag == 0) && (m.EnrollmentAccepted? <==> tag == 1)
    ensures (m.EnrollmentRejected? <==> tag == 2) && (m.DeviceUuid? <==> tag == 3)
    ensures (m.EnrollmentCompleted? <==> tag == 4) && (m.DeployApplication? <==> tag == 5)
    ensures (m.StopApplication? <==> tag == 6) && (m.RequestDeviceInfo? <==> tag == 7)
    ensures (m.RequestApplicationStatus? <==> tag == 8) && (m.Challenge? <==> tag == 9)
  {
  }

  lemma ClientLead(m: ClientMessage)
    requires ClientFits(m)
    ensures var b := EncodeClient(m);
      |b| >= 2 && b[0] == 0x80 + ClientTag(m).0 as int && b[1] == ClientTag(m).1
  {
  }

  lemma ClientTagTable(m: ClientMessage, len: U64, tag: U64)
    requires (len, tag) == ClientTag(m)
    ensures len == (if m.ApplicationStatus? || m.DeviceInfo? then 5 else if m.DeployAck? || m.StopAck? then 4
                    else if m.PublicKey? || m.ChallengeResponse? then 2 else 1)
    ensures (m.Heartbeat? <==> tag == 0) && (m.EnrollmentRequest? <==> tag == 1) && (m.PublicKey? <==> tag == 2)
    ensures (m.EnrollmentAcknowledgment? <==> tag == 3) && (m.ApplicationStatus? <==> tag == 4)
    ensures (m.DeployAck? <==> tag == 5) && (m.StopAck? <==> tag == 6) && (m.DeviceInfo? <==> tag == 7)
    ensures m.ChallengeResponse? <==> tag == 8
  {
  }

  /** The two bytes each client message starts with. */
  lemma ClientStarts(m: ClientMessage)
    requires ClientFits(m)
    ensures |EncodeClient(m)| >= 2
    ensures var b := EncodeClient(m)[..2];
      && (m.Heartbeat? <==> b == [0x81, 0x00]) && (m.EnrollmentRequest? <==> b == [0x81, 0x01])
      && (m.PublicKey? <==> b == [0x82, 0x02]) && (m.EnrollmentAcknowledgment? <==> b == [0x81, 0x03])
      && (m.ApplicationStatus? <==> b == [0x85, 0x04]) && (m.DeployAck? <==> b == [0x84, 0x05])
      && (m.StopAck? <==> b == [0x84, 0x06]) && (m.DeviceInfo? <==> b == [0x85, 0x07])
      && (m.ChallengeResponse? <==> b == [0x82, 0x08])
  {
    ClientLead(m);
    var b := EncodeClient(m)[..2];
    assert b == [0x80 + ClientTag(m).0 as int, ClientTag(m).1];
    ClientTagTable(m, ClientTag(m).0, ClientTag(m).1);
  }

  /** A text of less than 24 bytes. */
  function Short(t: Bytes): Bytes
    requires |t| < 24
  {
    [0x60 + |t|] + t
  }

  lemma ShortText(t: Bytes)
    requires |t| < 24
    ensures Str(TEXT, t) == Short(t)
  {
  }

  lemma ShortTexts(ts: seq<Bytes>)
    requires 0 < |ts| <= 2 && forall t :: t in ts ==> |t| < 24
    ensures |ts[0]| < 24 && |ts[|ts| - 1]| < 24
    ensures Texts(ts) == if |ts| == 1 then Short(ts[0]) else Short(ts[0]) + Short(ts[1])
  {
    assert ts[0] in ts && ts[|ts| - 1] in ts;
    ShortText(ts[0]);
    ShortText(ts[|ts| - 1]);
    if |ts| == 1 {
      assert Texts(ts[1..]) == [];
    } else {
      assert |ts[1..][1..]| == 0 && ts[1..][0] == ts[1];
      assert Texts(ts[1..]) == Short(ts[1]) + [];
    }
  }

  /** The order of the fields that the firmware neither writes nor reads: of metrics, */
  lemma MetricsOrder(memory: Byte, cpu: Bytes, uptime: Byte, calls: Byte)
    requires memory < 24 && |cpu| == 4 && uptime < 24 && calls < 24
    ensures EncodeMetrics(Metrics(memory, cpu, uptime, calls)) == [memory] + ([0xfa] + cpu + ([uptime] + [calls]))
  {
  }

  /** of device information, */
  lemma DeviceInfoOrder(memory: Byte, arch: Bytes, feature: Bytes, max: Byte)
    requires memory < 24 && |arch| < 24 && |feature| < 24 && max < 24
    ensures ClientBody(DeviceInfo(memory, arch, [feature], max)) ==
      [memory] + (Short(arch) + ([0x81] + (Short(feature) + [max])))
  {
    ShortText(arch);
    ShortTexts([feature]);
  }

  /** and of an application's configuration. */
  lemma ConfigOrder(memory: Byte, cpu: Byte, name: Bytes, value: Bytes, arg: Bytes)
    requires memory < 24 && cpu < 24 && |name| < 24 && |value| < 24 && |arg| < 24
    ensures var c := Config(memory, cpu, [(name, value)], [arg]);
      && ConfigFits(c)
      && EncodeConfig(c) == [memory] + ([cpu] + ([0xa1] + (Short(name) + Short(value) + ([0x81] + Short(arg)))))
  {
    var env := [(name, value)];
    assert Flat(env) == [name, value] by {
      assert env[1..] == [];
    }
    ShortTexts([name, value]);
    ShortTexts([arg]);
    assert EncodeLists(env, [arg]) == [0xa1] + (Short(name) + Short(value) + ([0x81] + Short(arg)));
  }
}
