/** The message codec of both ends of the Rust protocol crate. */
module Codec {
  import opened Prelude
  import opened Messages
  import opened Cbor

  const LIMIT := 0x1_0000_0000_0000_0000

  // ---------------------------------------------------------------- sequences of texts

  predicate TextsFit(ts: seq<Bytes>) {
    |ts| < LIMIT && forall t :: t in ts ==> |t| < LIMIT
  }

  function Texts(ts: seq<Bytes>): Bytes
    requires forall t :: t in ts ==> |t| < LIMIT
  {
    if |ts| == 0 then [] else Str(TEXT, ts[0]) + Texts(ts[1..])
  }

  function ReadTexts(n: nat, b: Bytes): Parsed<seq<Bytes>> {
    if n == 0 then Some(([], b))
    else
      var (t, rest) :- ReadStr(TEXT, b);
      var (ts, end) :- ReadTexts(n - 1, rest);
      Some(([t] + ts, end))
  }

  lemma OneMoreText(t: Bytes, ts: seq<Bytes>, tail: Bytes, rest: Bytes)
    requires |t| < LIMIT && ReadTexts(|ts|, tail) == Some((ts, rest))
    ensures ReadTexts(|ts| + 1, Str(TEXT, t) + tail) == Some(([t] + ts, rest))
  {
    StrReads(TEXT, t, tail);
  }

  lemma {:induction false} TextsRead(ts: seq<Bytes>, rest: Bytes)
    requires forall t :: t in ts ==> |t| < LIMIT
    ensures ReadTexts(|ts|, Texts(ts) + rest) == Some((ts, rest))
  {
    if |ts| == 0 {
      assert Texts(ts) + rest == rest;
    } else {
      var tail := Texts(ts[1..]) + rest;
      TextsRead(ts[1..], rest);
      OneMoreText(ts[0], ts[1..], tail, rest);
      Associates(Str(TEXT, ts[0]), Texts(ts[1..]), rest);
      assert [ts[0]] + ts[1..] == ts;
    }
  }

  lemma Associates(a: Bytes, b: Bytes, c: Bytes)
    ensures (a + b) + c == a + (b + c)
  {
  }

  /** Environment pairs are written key, value, key, value. */
  function Flat(env: seq<(Bytes, Bytes)>): (ts: seq<Bytes>)
    ensures |ts| == 2 * |env|
  {
    if |env| == 0 then [] else [env[0].0, env[0].1] + Flat(env[1..])
  }

  function Pairs(ts: seq<Bytes>): seq<(Bytes, Bytes)>
    requires |ts| % 2 == 0
  {
    if |ts| == 0 then [] else [(ts[0], ts[1])] + Pairs(ts[2..])
  }

  lemma {:induction false} PairsFlat(env: seq<(Bytes, Bytes)>)
    ensures Pairs(Flat(env)) == env
  {
    if |env| > 0 {
      PairsFlat(env[1..]);
      assert Flat(env)[2..] == Flat(env[1..]);
      assert [env[0]] + env[1..] == env;
    }
  }

  // ---------------------------------------------------------------- optional records

  predicate ConfigFits(c: Config) {
    |c.env| < LIMIT && TextsFit(c.args) && forall t :: t in Flat(c.env) ==> |t| < LIMIT
  }

  /** The environment as a map, then the arguments as an array. */
  function EncodeLists(env: seq<(Bytes, Bytes)>, args: seq<Bytes>): Bytes
    requires |env| < LIMIT && TextsFit(args) && forall t :: t in Flat(env) ==> |t| < LIMIT
  {
    Head(MAP, |env|) + (Texts(Flat(env)) + (Head(ARRAY, |args|) + Texts(args)))
  }

  function ReadLists(b: Bytes): Parsed<(seq<Bytes>, seq<Bytes>)> {
    var (pairs, r1) :- ReadHead(MAP, b);
    var (env, r2) :- ReadTexts(2 * (pairs as int), r1);
    var (count, r3) :- ReadHead(ARRAY, r2);
    var (args, r4) :- ReadTexts(count, r3);
    Some(((env, args), r4))
  }

  lemma ListsRead(env: seq<(Bytes, Bytes)>, args: seq<Bytes>)
    requires |env| < LIMIT && TextsFit(args) && forall t :: t in Flat(env) ==> |t| < LIMIT
    ensures ReadLists(EncodeLists(env, args)) == Some(((Flat(env), args), []))
  {
    var b3 := Texts(args);
    var b2 := Head(ARRAY, |args|) + b3;
    HeadReads(MAP, |env|, Texts(Flat(env)) + b2);
    TextsRead(Flat(env), b2);
    HeadReads(ARRAY, |args|, b3);
    TextsRead(args, []);
    assert b3 + [] == b3;
  }

  function EncodeConfig(c: Config): Bytes
    requires ConfigFits(c)
  {
    Head(UINT, c.memoryLimit) + (Head(UINT, c.cpuTimeLimit) + EncodeLists(c.env, c.args))
  }

  function ReadConfig(b: Bytes): Parsed<Config> {
    var (memory, r1) :- ReadHead(UINT, b);
    var (cpu, r2) :- ReadHead(UINT, r1);
    var (lists, r3) :- ReadLists(r2);
    if |lists.0| % 2 == 0 then Some((Config(memory, cpu, Pairs(lists.0), lists.1), r3)) else None
  }

  lemma ConfigReads(c: Config)
    requires ConfigFits(c)
    ensures ReadConfig(EncodeConfig(c)) == Some((c, []))
  {
    var lists := EncodeLists(c.env, c.args);
    var limits := Head(UINT, c.cpuTimeLimit) + lists;
    HeadReads(UINT, c.memoryLimit, limits);
    HeadReads(UINT, c.cpuTimeLimit, lists);
    ListsRead(c.env, c.args);
    ConfigParts(Head(UINT, c.memoryLimit) + limits, limits, lists, c);
  }

  lemma ConfigParts(b: Bytes, r1: Bytes, r2: Bytes, c: Config)
    requires ReadHead(UINT, b) == Some((c.memoryLimit, r1)) && ReadHead(UINT, r1) == Some((c.cpuTimeLimit, r2))
    requires ReadLists(r2) == Some(((Flat(c.env), c.args), []))
    ensures ReadConfig(b) == Some((c, []))
  {
    PairsFlat(c.env);
  }

  predicate MetricsFit(m: Metrics) { |m.cpuUsage| == 4 }

  function EncodeMetrics(m: Metrics): Bytes {
    Head(UINT, m.memoryUsage) + ([0xfa] + m.cpuUsage + (Head(UINT, m.uptime) + Head(UINT, m.functionCalls)))
  }

  function ReadFloat(b: Bytes): Parsed<Bytes> {
    if |b| >= 5 && b[0] == 0xfa then Some((b[1..5], b[5..])) else None
  }

  function ReadMetrics(b: Bytes): Parsed<Metrics> {
    var (memory, r1) :- ReadHead(UINT, b);
    var (cpu, r2) :- ReadFloat(r1);
    var (uptime, r3) :- ReadHead(UINT, r2);
    var (calls, r4) :- ReadHead(UINT, r3);
    Some((Metrics(memory, cpu, uptime, calls), r4))
  }

  lemma MetricsRead(m: Metrics, rest: Bytes)
    requires MetricsFit(m)
    ensures ReadMetrics(EncodeMetrics(m) + rest) == Some((m, rest))
  {
    var b3 := Head(UINT, m.functionCalls) + rest;
    var b2 := Head(UINT, m.uptime) + b3;
    var b1 := [0xfa] + m.cpuUsage + b2;
    assert EncodeMetrics(m) + rest == Head(UINT, m.memoryUsage) + b1;
    HeadReads(UINT, m.memoryUsage, b1);
    assert b1[1..5] == m.cpuUsage && b1[5..] == b2;
    HeadReads(UINT, m.uptime, b3);
    HeadReads(UINT, m.functionCalls, rest);
  }

  // ---------------------------------------------------------------- client messages

  predicate OptFits(t: Option<Bytes>) { t.Some? ==> |t.value| < LIMIT }

  predicate ClientFits(m: ClientMessage) {
    match m
    case PublicKey(key) => |key| < LIMIT
    case ChallengeResponse(signature) => |signature| < LIMIT
    case ApplicationStatus(appId, status, error, metrics) =>
      |appId| < LIMIT && status <= 4 && OptFits(error) && (metrics.Some? ==> MetricsFit(metrics.value))
    case DeployAck(appId, _, error) => |appId| < LIMIT && OptFits(error)
    case StopAck(appId, _, error) => |appId| < LIMIT && OptFits(error)
    case DeviceInfo(_, arch, features, _) => |arch| < LIMIT && TextsFit(features)
    case _ => true
  }

  function ClientTag(m: ClientMessage): (U64, U64) {
    match m
    case Heartbeat => (1, 0)
    case EnrollmentRequest => (1, 1)
    case PublicKey(_) => (2, 2)
    case EnrollmentAcknowledgment => (1, 3)
    case ApplicationStatus(_, _, _, _) => (5, 4)
    case DeployAck(_, _, _) => (4, 5)
    case StopAck(_, _, _) => (4, 6)
    case DeviceInfo(_, _, _, _) => (5, 7)
    case ChallengeResponse(_) => (2, 8)
  }

  function ClientBody(m: ClientMessage): Bytes
    requires ClientFits(m)
  {
    match m
    case PublicKey(key) => Str(BYTES, key)
    case ChallengeResponse(signature) => Str(BYTES, signature)
    case ApplicationStatus(appId, status, error, metrics) =>
      Str(TEXT, appId) + (Head(UINT, status) + (OptText(error)
        + (if metrics.Some? then EncodeMetrics(metrics.value) else [NULL])))
    case DeployAck(appId, success, error) => Str(TEXT, appId) + (Bool(success) + OptText(error))
    case StopAck(appId, success, error) => Str(TEXT, appId) + (Bool(success) + OptText(error))
    case DeviceInfo(memory, arch, features, maxAppSize) =>
      Head(UINT, memory) + (Str(TEXT, arch) + (Head(ARRAY, |features|) + (Texts(features) + Head(UINT, maxAppSize))))
    case _ => []
  }

  /** An array head, the message's tag, then its fields. */
  function EncodeClient(m: ClientMessage): Bytes
    requires ClientFits(m)
  {
    Head(ARRAY, ClientTag(m).0) + (Head(UINT, ClientTag(m).1) + ClientBody(m))
  }

  function ReadAck(b: Bytes): Parsed<(Bytes, bool, Option<Bytes>)> {
    var (appId, r1) :- ReadStr(TEXT, b);
    var (success, r2) :- ReadBool(r1);
    var (error, r3) :- ReadOptText(r2);
    Some(((appId, success, error), r3))
  }

  function ReadStatus(b: Bytes): (r: Option<ClientMessage>)
    ensures r.Some? ==> r.value.ApplicationStatus? && r.value.status <= 4
  {
    var (appId, r1) :- ReadStr(TEXT, b);
    var (status, r2) :- ReadHead(UINT, r1);
    var (error, r3) :- ReadOptText(r2);
    var known := if status <= 4 then status else 4;
    if |r3| == 0 || status >= 0x1_0000_0000 then None
    else if r3[0] == NULL then Some(ApplicationStatus(appId, known, error, None))
    else
      var (metrics, _) :- ReadMetrics(r3);
      Some(ApplicationStatus(appId, known, error, Some(metrics)))
  }

  function ReadDeviceInfo(b: Bytes): (r: Option<ClientMessage>)
    ensures r.Some? ==> r.value.DeviceInfo?
  {
    var (memory, r1) :- ReadHead(UINT, b);
    var (arch, r2) :- ReadStr(TEXT, r1);
    var (count, r3) :- ReadHead(ARRAY, r2);
    var (features, r4) :- ReadTexts(count, r3);
    var (maxAppSize, _) :- ReadHead(UINT, r4);
    Some(DeviceInfo(memory, arch, features, maxAppSize))
  }

  function DecodeClientBody(tag: U64, len: U64, b: Bytes): Option<ClientMessage> {
    if tag == 0 && len == 1 then Some(Heartbeat)
    else if tag == 1 && len == 1 then Some(EnrollmentRequest)
    else if tag == 2 && len == 2 then var (key, _) :- ReadStr(BYTES, b); Some(PublicKey(key))
    else if tag == 3 && len == 1 then Some(EnrollmentAcknowledgment)
    else if tag == 4 && len == 5 then ReadStatus(b)
    else if tag == 5 && len == 4 then var (ack, _) :- ReadAck(b); Some(DeployAck(ack.0, ack.1, ack.2))
    else if tag == 6 && len == 4 then var (ack, _) :- ReadAck(b); Some(StopAck(ack.0, ack.1, ack.2))
    else if tag == 7 && len == 5 then ReadDeviceInfo(b)
    else if tag == 8 && len == 2 then var (signature, _) :- ReadStr(BYTES, b); Some(ChallengeResponse(signature))
    else None
  }

  /** Decoding stops after the last field; trailing bytes are not looked at. */
  function DecodeClient(b: Bytes): Option<ClientMessage> {
    var (len, r1) :- ReadHead(ARRAY, b);
    var (tag, r2) :- ReadHead(UINT, r1);
    DecodeClientBody(tag, len, r2)
  }

  lemma AckReads(appId: Bytes, success: bool, error: Option<Bytes>)
    requires |appId| < LIMIT && OptFits(error)
    ensures ReadAck(Str(TEXT, appId) + (Bool(success) + OptText(error))) == Some(((appId, success, error), []))
  {
    StrReads(TEXT, appId, Bool(success) + OptText(error));
    BoolReads(success, OptText(error));
    OptTextReads(error, []);
    assert OptText(error) + [] == OptText(error);
  }

  lemma StatusParts(m: ClientMessage, b: Bytes, r1: Bytes, r2: Bytes, r3: Bytes)
    requires m.ApplicationStatus? && m.status <= 4
    requires ReadStr(TEXT, b) == Some((m.appId, r1)) && ReadHead(UINT, r1) == Some((m.status, r2))
    requires ReadOptText(r2) == Some((m.error, r3)) && |r3| > 0
    requires if m.metrics.None? then r3[0] == NULL else r3[0] != NULL && ReadMetrics(r3) == Some((m.metrics.value, []))
    ensures ReadStatus(b) == Some(m)
  {
  }

  lemma StatusReads(m: ClientMessage)
    requires m.ApplicationStatus? && ClientFits(m)
    ensures ReadStatus(ClientBody(m)) == Some(m)
  {
    var tail := if m.metrics.Some? then EncodeMetrics(m.metrics.value) else [NULL];
    var r2 := OptText(m.error) + tail;
    var r1 := Head(UINT, m.status) + r2;
    StrReads(TEXT, m.appId, r1);
    HeadReads(UINT, m.status, r2);
    OptTextReads(m.error, tail);
    if m.metrics.Some? {
      MetricsRead(m.metrics.value, []);
      assert tail + [] == tail;
      assert tail[0] == Head(UINT, m.metrics.value.memoryUsage)[0];
    }
    StatusParts(m, ClientBody(m), r1, r2, tail);
  }

  lemma DeviceInfoReads(m: ClientMessage)
    requires m.DeviceInfo? && ClientFits(m)
    ensures ReadDeviceInfo(ClientBody(m)) == Some(m)
  {
    var b4 := Head(UINT, m.maxAppSize);
    var b3 := Texts(m.features) + b4;
    var b2 := Head(ARRAY, |m.features|) + b3;
    HeadReads(UINT, m.memory, Str(TEXT, m.arch) + b2);
    StrReads(TEXT, m.arch, b2);
    HeadReads(ARRAY, |m.features|, b3);
    TextsRead(m.features, b4);
    HeadReads(UINT, m.maxAppSize, []);
    assert b4 + [] == b4;
  }

  lemma ByteStringReads(s: Bytes)
    requires |s| < LIMIT
    ensures ReadStr(BYTES, Str(BYTES, s)) == Some((s, []))
  {
    StrReads(BYTES, s, []);
    assert Str(BYTES, s) + [] == Str(BYTES, s);
  }

  /** What the field reader of each kind must yield for the message to be decoded. */
  ghost predicate ClientRead(m: ClientMessage, b: Bytes) {
    match m
    case PublicKey(key) => ReadStr(BYTES, b) == Some((key, []))
    case ChallengeResponse(signature) => ReadStr(BYTES, b) == Some((signature, []))
    case ApplicationStatus(_, _, _, _) => ReadStatus(b) == Some(m)
    case DeployAck(appId, success, error) => ReadAck(b) == Some(((appId, success, error), []))
    case StopAck(appId, success, error) => ReadAck(b) == Some(((appId, success, error), []))
    case DeviceInfo(_, _, _, _) => ReadDeviceInfo(b) == Some(m)
    case _ => true
  }

  lemma ClientDecodes(m: ClientMessage, b: Bytes)
    requires ClientRead(m, b)
    ensures DecodeClientBody(ClientTag(m).1, ClientTag(m).0, b) == Some(m)
  {
  }

  lemma ClientBodyReads(m: ClientMessage)
    requires ClientFits(m)
    ensures ClientRead(m, ClientBody(m))
  {
    match m
    case PublicKey(key) => ByteStringReads(key);
    case ChallengeResponse(signature) => ByteStringReads(signature);
    case ApplicationStatus(_, _, _, _) => StatusReads(m);
    case DeployAck(appId, success, error) => AckReads(appId, success, error);
    case StopAck(appId, success, error) => AckReads(appId, success, error);
    case DeviceInfo(_, _, _, _) => DeviceInfoReads(m);
    case _ =>
  }

  /** Every client message survives the wire. */
  lemma ClientRoundTrip(m: ClientMessage)
    requires ClientFits(m)
    ensures DecodeClient(EncodeClient(m)) == Some(m)
  {
    var (len, tag) := ClientTag(m);
    HeadReads(ARRAY, len, Head(UINT, tag) + ClientBody(m));
    HeadReads(UINT, tag, ClientBody(m));
    ClientBodyReads(m);
    ClientDecodes(m, ClientBody(m));
  }

  // ---------------------------------------------------------------- server messages

  predicate ServerFits(m: ServerMessage) {
    match m
    case EnrollmentRejected(reason) => |reason| < LIMIT
    case DeviceUuid(uuid) => |uuid| == 16
    case Challenge(nonce) => |nonce| < LIMIT
    case DeployApplication(appId, name, hash, wasm, config) =>
      && |appId| < LIMIT && |name| < LIMIT && |hash| < LIMIT && |wasm| < LIMIT
      && (config.Some? ==> ConfigFits(config.value))
    case StopApplication(appId) => |appId| < LIMIT
    case RequestApplicationStatus(which) => OptFits(which)
    case _ => true
  }

  function ServerTag(m: ServerMessage): (U64, U64) {
    match m
    case HeartbeatAck => (1, 0)
    case EnrollmentAccepted => (1, 1)
    case EnrollmentRejected(_) => (2, 2)
    case DeviceUuid(_) => (2, 3)
    case EnrollmentCompleted => (1, 4)
    case DeployApplication(_, _, _, _, _) => (6, 5)
    case StopApplication(_) => (2, 6)
    case RequestDeviceInfo => (1, 7)
    case RequestApplicationStatus(_) => (2, 8)
    case Challenge(_) => (2, 9)
  }

  function DeployTail(config: Option<Config>): Bytes
    requires config.Some? ==> ConfigFits(config.value)
  {
    if config.Some? then EncodeConfig(config.value) else [NULL]
  }

  function ServerBody(m: ServerMessage): Bytes
    requires ServerFits(m)
  {
    match m
    case EnrollmentRejected(reason) => Str(BYTES, reason)
    case DeviceUuid(uuid) => Str(BYTES, uuid)
    case Challenge(nonce) => Str(BYTES, nonce)
    case DeployApplication(appId, name, hash, wasm, config) =>
      Str(TEXT, appId) + (Str(TEXT, name) + (Str(BYTES, hash) + (Str(BYTES, wasm) + DeployTail(config))))
    case StopApplication(appId) => Str(TEXT, appId)
    case RequestApplicationStatus(which) => OptText(which)
    case _ => []
  }

  function EncodeServer(m: ServerMessage): Bytes
    requires ServerFits(m)
  {
    Head(ARRAY, ServerTag(m).0) + (Head(UINT, ServerTag(m).1) + ServerBody(m))
  }

  function ReadTwo(major: Major, b: Bytes): Parsed<(Bytes, Bytes)> {
    var (x, r1) :- ReadStr(major, b);
    var (y, r2) :- ReadStr(major, r1);
    Some(((x, y), r2))
  }

  function ReadDeployTail(b: Bytes): Option<Option<Config>> {
    if |b| == 0 then None
    else if b[0] == NULL then Some(None)
    else
      var (config, _) :- ReadConfig(b);
      Some(Some(config))
  }

  function ReadDeploy(b: Bytes): (r: Option<ServerMessage>)
    ensures r.Some? ==> r.value.DeployApplication?
  {
    var (names, r1) :- ReadTwo(TEXT, b);
    var (code, r2) :- ReadTwo(BYTES, r1);
    var config :- ReadDeployTail(r2);
    Some(DeployApplication(names.0, names.1, code.0, code.1, config))
  }

  function DecodeServerBody(tag: U64, len: U64, b: Bytes): Option<ServerMessage> {
    if tag == 0 && len == 1 then Some(HeartbeatAck)
    else if tag == 1 && len == 1 then Some(EnrollmentAccepted)
    else if tag == 2 && len == 2 then var (reason, _) :- ReadStr(BYTES, b); Some(EnrollmentRejected(reason))
    else if tag == 3 && len == 2 then
      var (uuid, _) :- ReadStr(BYTES, b); if |uuid| == 16 then Some(DeviceUuid(uuid)) else None
    else if tag == 4 && len == 1 then Some(EnrollmentCompleted)
    else if tag == 5 && len == 6 then ReadDeploy(b)
    else if tag == 6 && len == 2 then var (appId, _) :- ReadStr(TEXT, b); Some(StopApplication(appId))
    else if tag == 7 && len == 1 then Some(RequestDeviceInfo)
    else if tag == 8 && len == 2 then var (which, _) :- ReadOptText(b); Some(RequestApplicationStatus(which))
    else if tag == 9 && len == 2 then var (nonce, _) :- ReadStr(BYTES, b); Some(Challenge(nonce))
    else None
  }

  function DecodeServer(b: Bytes): Option<ServerMessage> {
    var (len, r1) :- ReadHead(ARRAY, b);
    var (tag, r2) :- ReadHead(UINT, r1);
    DecodeServerBody(tag, len, r2)
  }

  lemma TwoRead(major: Major, x: Bytes, y: Bytes, rest: Bytes)
    requires |x| < LIMIT && |y| < LIMIT
    ensures ReadTwo(major, Str(major, x) + (Str(major, y) + rest)) == Some(((x, y), rest))
  {
    StrReads(major, x, Str(major, y) + rest);
    StrReads(major, y, rest);
  }

  lemma DeployTailReads(config: Option<Config>)
    requires config.Some? ==> ConfigFits(config.value)
    ensures ReadDeployTail(DeployTail(config)) == Some(config)
  {
    if config.Some? {
      ConfigReads(config.value);
      assert DeployTail(config)[0] == Head(UINT, config.value.memoryLimit)[0];
    }
  }

  lemma DeployReads(m: ServerMessage)
    requires m.DeployApplication? && ServerFits(m)
    ensures ReadDeploy(ServerBody(m)) == Some(m)
  {
    var tail := DeployTail(m.config);
    var code := Str(BYTES, m.moduleHash) + (Str(BYTES, m.wasm) + tail);
    TwoRead(TEXT, m.appId, m.name, code);
    TwoRead(BYTES, m.moduleHash, m.wasm, tail);
    DeployTailReads(m.config);
  }

  ghost predicate ServerRead(m: ServerMessage, b: Bytes) {
    match m
    case EnrollmentRejected(reason) => ReadStr(BYTES, b) == Some((reason, []))
    case DeviceUuid(uuid) => |uuid| == 16 && ReadStr(BYTES, b) == Some((uuid, []))
    case Challenge(nonce) => ReadStr(BYTES, b) == Some((nonce, []))
    case DeployApplication(_, _, _, _, _) => ReadDeploy(b) == Some(m)
    case StopApplication(appId) => ReadStr(TEXT, b) == Some((appId, []))
    case RequestApplicationStatus(which) => ReadOptText(b) == Some((which, []))
    case _ => true
  }

  lemma PlainServerDecodes(b: Bytes)
    ensures DecodeServerBody(0, 1, b) == Some(HeartbeatAck) && DecodeServerBody(1, 1, b) == Some(EnrollmentAccepted)
    ensures DecodeServerBody(4, 1, b) == Some(EnrollmentCompleted)
    ensures DecodeServerBody(7, 1, b) == Some(RequestDeviceInfo)
  {
  }

  lemma RejectionDecodes(reason: Bytes, b: Bytes)
    requires ReadStr(BYTES, b) == Some((reason, []))
    ensures DecodeServerBody(2, 2, b) == Some(EnrollmentRejected(reason))
  {
  }

  lemma UuidDecodes(uuid: Bytes, b: Bytes)
    requires |uuid| == 16 && ReadStr(BYTES, b) == Some((uuid, []))
    ensures DecodeServerBody(3, 2, b) == Some(DeviceUuid(uuid))
  {
  }

  lemma DeployDecodes(m: ServerMessage, b: Bytes)
    requires m.DeployApplication? && ReadDeploy(b) == Some(m)
    ensures DecodeServerBody(5, 6, b) == Some(m)
  {
  }

  lemma StopDecodes(appId: Bytes, b: Bytes)
    requires ReadStr(TEXT, b) == Some((appId, []))
    ensures DecodeServerBody(6, 2, b) == Some(StopApplication(appId))
  {
  }

  lemma StatusRequestDecodes(which: Option<Bytes>, b: Bytes)
    requires ReadOptText(b) == Some((which, []))
    ensures DecodeServerBody(8, 2, b) == Some(RequestApplicationStatus(which))
  {
  }

  lemma ChallengeDecodes(nonce: Bytes, b: Bytes)
    requires ReadStr(BYTES, b) == Some((nonce, []))
    ensures DecodeServerBody(9, 2, b) == Some(Challenge(nonce))
  {
  }

  lemma ServerDecodes(m: ServerMessage, b: Bytes)
    requires ServerRead(m, b)
    ensures DecodeServerBody(ServerTag(m).1, ServerTag(m).0, b) == Some(m)
  {
    match m
    case EnrollmentRejected(reason) => RejectionDecodes(reason, b);
    case DeviceUuid(uuid) => UuidDecodes(uuid, b);
    case DeployApplication(_, _, _, _, _) => DeployDecodes(m, b);
    case StopApplication(appId) => StopDecodes(appId, b);
    case RequestApplicationStatus(which) => StatusRequestDecodes(which, b);
    case Challenge(nonce) => ChallengeDecodes(nonce, b);
    case _ => PlainServerDecodes(b);
  }

  lemma ServerBodyReads(m: ServerMessage)
    requires ServerFits(m)
    ensures ServerRead(m, ServerBody(m))
  {
    var b := ServerBody(m);
    match m
    case EnrollmentRejected(reason) => ByteStringReads(reason);
    case DeviceUuid(uuid) => ByteStringReads(uuid);
    case Challenge(nonce) => ByteStringReads(nonce);
    case DeployApplication(_, _, _, _, _) => DeployReads(m);
    case StopApplication(appId) =>
      StrReads(TEXT, appId, []);
      assert b + [] == b;
    case RequestApplicationStatus(which) =>
      OptTextReads(which, []);
      assert b + [] == b;
    case _ =>
  }

  /** Every server message survives the wire. */
  lemma ServerRoundTrip(m: ServerMessage)
    requires ServerFits(m)
    ensures DecodeServer(EncodeServer(m)) == Some(m)
  {
    var (len, tag) := ServerTag(m);
    HeadReads(ARRAY, len, Head(UINT, tag) + ServerBody(m));
    HeadReads(UINT, tag, ServerBody(m));
    ServerBodyReads(m);
    ServerDecodes(m, ServerBody(m));
  }

  /** The first two bytes of an encoded server message tell the message kind. */
  lemma ServerLead(m: ServerMessage)
    requires ServerFits(m)
    ensures var b := EncodeServer(m);
      |b| >= 2 && b[0] == 0x80 + ServerTag(m).0 as int && b[1] == ServerTag(m).1
  {
  }

  lemma ServerRest(m: ServerMessage)
    requires ServerFits(m)
    ensures EncodeServer(m)[2..] == ServerBody(m)
  {
    SmallTag(m);
    DropTwo(Head(ARRAY, ServerTag(m).0), Head(UINT, ServerTag(m).1), ServerBody(m));
  }

  lemma SmallTag(m: ServerMessage)
    ensures |Head(ARRAY, ServerTag(m).0)| == 1 && |Head(UINT, ServerTag(m).1)| == 1
  {
  }

  lemma DropTwo(x: Bytes, y: Bytes, z: Bytes)
    requires |x| == 1 && |y| == 1
    ensures (x + (y + z))[2..] == z
  {
  }

  /** The encodings of a series of server messages. */
  function Payloads(ms: seq<ServerMessage>): (ps: seq<Bytes>)
    requires forall m :: m in ms ==> ServerFits(m)
    ensures |ps| == |ms| && forall i :: 0 <= i < |ms| ==> ps[i] == EncodeServer(ms[i])
  {
    seq(|ms|, i requires 0 <= i < |ms| => assert ms[i] in ms; EncodeServer(ms[i]))
  }
}
