/** The Linux edge client: its event loop over framed server messages and the registry of modules it runs. */
module EdgeClient {
  import opened Prelude
  import R = Registers
  import opened Messages
  import opened Codec
  import opened Framing

  const MAX_FRAME := 65_536

  const MAX_APP_SIZE: U64 := 0x100_0000

  const MAGIC: Bytes := [0x00, 0x61, 0x73, 0x6d]

  /** The digest function, and what the client reports of its machine. */
  datatype Host = Host(digest: Bytes -> Bytes, memory: U64, arch: Bytes)

  predicate ValidMagic(wasm: Bytes) { MAGIC <= wasm }

  lemma MagicFirst(wasm: Bytes)
    ensures ValidMagic(wasm) <==> |wasm| >= 4 && wasm[..4] == MAGIC
  {
  }

  lemma Replaced(m: map<Bytes, nat>, k: Bytes, v: nat)
    ensures (m - {k})[k := v] == m[k := v]
  {
  }

  function NotFound(appId: Bytes): Bytes { Ascii("Application '") + appId + Ascii("' not found") }

  // ---------------------------------------------------------------- the runner

  /** Every task started and not aborted is registered. */
  ghost predicate Accounted(handles: map<Bytes, nat>, started: nat, aborted: set<nat>) {
    forall t: nat :: t < started && t !in aborted ==> exists id :: id in handles && handles[id] == t
  }

  lemma StillAccounted(handles: map<Bytes, nat>, started: nat, aborted: set<nat>, appId: Bytes)
    requires Accounted(handles, started, aborted) && appId in handles
    ensures Accounted(handles - {appId}, started, aborted + {handles[appId]})
  {
    var after := handles - {appId};
    forall t: nat | t < started && t !in aborted + {handles[appId]}
      ensures exists id :: id in after && after[id] == t
    {
      var id :| id in handles && handles[id] == t;
      assert id in after && after[id] == t;
    }
  }

  lemma AccountedNew(handles: map<Bytes, nat>, started: nat, aborted: set<nat>, appId: Bytes)
    requires Accounted(handles, started, aborted) && appId !in handles
    ensures Accounted(handles[appId := started], started + 1, aborted)
  {
    var after := handles[appId := started];
    forall t: nat | t < started + 1 && t !in aborted
      ensures exists id :: id in after && after[id] == t
    {
      if t == started {
        assert after[appId] == t;
      } else {
        var id :| id in handles && handles[id] == t;
        assert id in after && after[id] == t;
      }
    }
  }

  /** Registered applications with their tasks. `started` counts the tasks spawned so far, which
      are numbered from zero. */
  class WasmRunner {
    var handles: map<Bytes, nat>
    var started: nat
    ghost var aborted: set<nat>

    /** Every task ever started is either aborted or registered under exactly one application. */
    ghost predicate Valid()
      reads this
    {
      && (forall id :: id in handles ==> handles[id] < started && handles[id] !in aborted)
      && (forall a, b :: a in handles && b in handles && handles[a] == handles[b] ==> a == b)
      && (forall t :: t in aborted ==> t < started)
      && Accounted(handles, started, aborted)
    }

    constructor ()
      ensures Valid() && handles == map[] && started == 0
    {
      handles, started, aborted := map[], 0, {};
    }

    method Stop(appId: Bytes) returns (error: Option<Bytes>)
      requires Valid()
      modifies this
      ensures Valid() && started == old(started) && handles == old(handles) - {appId}
      ensures error == (if appId in old(handles) then None else Some(NotFound(appId)))
      ensures aborted == old(aborted) + (if appId in old(handles) then {old(handles)[appId]} else {})
    {
      if appId !in handles {
        return Some(NotFound(appId));
      }
      ghost var was := handles;
      aborted := aborted + {handles[appId]};
      handles := handles - {appId};
      assert Accounted(handles, started, aborted) by {
        StillAccounted(was, started, old(aborted), appId);
      }
      return None;
    }

    /** A module with bad magic still stops the application it was to replace. */
    method Deploy(appId: Bytes, wasm: Bytes) returns (error: Option<Bytes>)
      requires Valid()
      modifies this
      ensures Valid()
      ensures error == (if ValidMagic(wasm) then None else Some(Ascii("Not a valid WASM module (missing magic bytes)")))
      ensures ValidMagic(wasm) ==> handles == old(handles)[appId := old(started)] && started == old(started) + 1
      ensures !ValidMagic(wasm) ==> handles == old(handles) - {appId} && started == old(started)
      ensures appId in old(handles) ==> old(handles)[appId] in aborted
    {
      MagicFirst(wasm);
      var _ := Stop(appId);
      if |wasm| < 4 || wasm[..4] != MAGIC {
        return Some(Ascii("Not a valid WASM module (missing magic bytes)"));
      }
      Replaced(old(handles), appId, started);
      Spawn(appId);
      return None;
    }

    method Spawn(appId: Bytes)
      requires Valid() && appId !in handles
      modifies this
      ensures Valid() && aborted == old(aborted)
      ensures handles == old(handles)[appId := old(started)] && started == old(started) + 1
    {
      ghost var was := handles;
      handles := handles[appId := started];
      started := started + 1;
      assert Accounted(handles, started, aborted) by {
        AccountedNew(was, started - 1, aborted, appId);
      }
    }

    method IsRunning(appId: Bytes) returns (running: bool)
      ensures running <==> appId in handles
    {
      return appId in handles;
    }

    /** Every registered application once, in no particular order. */
    method RunningAppIds() returns (ids: seq<Bytes>)
      ensures forall id :: id in ids <==> id in handles
      ensures forall i, j :: 0 <= i < j < |ids| ==> ids[i] != ids[j]
    {
      ids := [];
      var left := handles.Keys;
      while left != {}
        invariant left <= handles.Keys
        invariant forall id :: id in ids <==> id in handles && id !in left
        invariant forall i, j :: 0 <= i < j < |ids| ==> ids[i] != ids[j]
        decreases left
      {
        var id :| id in left;
        ids := ids + [id];
        left := left - {id};
      }
    }
  }

  // ---------------------------------------------------------------- what each message means

  /** What a message does to one application's registration. */
  function Effect(h: Host, m: Option<ServerMessage>, appId: Bytes): R.Op<()> {
    match m
    case Some(DeployApplication(id, _, hash, wasm, _)) =>
      if id != appId || h.digest(wasm) != hash then R.Keep
      else if ValidMagic(wasm) then R.Put(())
      else R.Clear
    case Some(StopApplication(id)) => if id == appId then R.Clear else R.Keep
    case _ => R.Keep
  }

  /** The registered applications after a message. */
  function Registered(h: Host, s: set<Bytes>, m: Option<ServerMessage>): set<Bytes> {
    match m
    case Some(DeployApplication(id, _, hash, wasm, _)) =>
      if h.digest(wasm) != hash then s else if ValidMagic(wasm) then s + {id} else s - {id}
    case Some(StopApplication(id)) => s - {id}
    case _ => s
  }

  function RegisteredAfter(h: Host, ms: seq<Option<ServerMessage>>): set<Bytes> {
    if |ms| == 0 then {} else Registered(h, RegisteredAfter(h, ms[..|ms| - 1]), ms[|ms| - 1])
  }

  predicate IsCommand(m: Option<ServerMessage>) {
    m.Some? && (m.value.DeployApplication? || m.value.StopApplication?)
  }

  /** The acknowledgment of a command. */
  function AckOf(h: Host, s: set<Bytes>, m: Option<ServerMessage>): ClientMessage
    requires IsCommand(m)
  {
    match m.value
    case DeployApplication(id, _, hash, wasm, _) =>
      if h.digest(wasm) != hash then DeployAck(id, false, Some(Ascii("module hash mismatch")))
      else if ValidMagic(wasm) then DeployAck(id, true, None)
      else DeployAck(id, false, Some(Ascii("Not a valid WASM module (missing magic bytes)")))
    case StopApplication(id) =>
      StopAck(id, id in s, if id in s then None else Some(NotFound(id)))
  }

  function StatusOf(s: set<Bytes>, id: Bytes): ClientMessage {
    ApplicationStatus(id, if id in s then RUNNING else STOPPED, None, None)
  }

  /** `out` answers a listing of all applications: one Running status for each, in some order. */
  ghost predicate ListsAll(s: set<Bytes>, out: seq<ClientMessage>) {
    && (forall i :: 0 <= i < |out| ==>
          out[i].ApplicationStatus? && out[i].appId in s && out[i] == StatusOf(s, out[i].appId))
    && (forall i, j :: 0 <= i < j < |out| ==> out[i] != out[j])
    && (forall id :: id in s ==> StatusOf(s, id) in out)
  }

  /** `out` is what the client sends for message `m` with the applications `s` registered. */
  ghost predicate Answers(h: Host, s: set<Bytes>, m: Option<ServerMessage>, out: seq<ClientMessage>) {
    if IsCommand(m) then out == [AckOf(h, s, m)]
    else if m == Some(RequestDeviceInfo) then
      out == [DeviceInfo(h.memory, h.arch, [Ascii("wasi_preview1"), Ascii("wasmtime")], MAX_APP_SIZE)]
    else if m.Some? && m.value.RequestApplicationStatus? then
      if m.value.which.Some? then out == [StatusOf(s, m.value.which.value)] else ListsAll(s, out)
    else out == []
  }

  ghost predicate AllAnswered(h: Host, ms: seq<Option<ServerMessage>>, chunks: seq<seq<ClientMessage>>) {
    && |chunks| == |ms|
    && forall i :: 0 <= i < |ms| ==> Answers(h, RegisteredAfter(h, ms[..i]), ms[i], chunks[i])
  }

  lemma AnsweredAt(h: Host, ms: seq<Option<ServerMessage>>, chunks: seq<seq<ClientMessage>>, i: nat)
    requires AllAnswered(h, ms, chunks) && i < |ms|
    ensures Answers(h, RegisteredAfter(h, ms[..i]), ms[i], chunks[i])
  {
  }

  function Joined(chunks: seq<seq<ClientMessage>>): seq<ClientMessage> {
    if |chunks| == 0 then [] else Joined(chunks[..|chunks| - 1]) + chunks[|chunks| - 1]
  }

  // ---------------------------------------------------------------- handling one message

  method ListAll(runner: WasmRunner) returns (out: seq<ClientMessage>)
    ensures ListsAll(runner.handles.Keys, out)
  {
    var ids := runner.RunningAppIds();
    ghost var s := runner.handles.Keys;
    out := [];
    for i := 0 to |ids|
      invariant |out| == i
      invariant forall j :: 0 <= j < i ==> out[j] == StatusOf(s, ids[j])
    {
      var running := runner.IsRunning(ids[i]);
      out := out + [ApplicationStatus(ids[i], if running then RUNNING else STOPPED, None, None)];
    }
    forall id | id in s
      ensures StatusOf(s, id) in out
    {
      assert id in ids;
      var j :| 0 <= j < |ids| && ids[j] == id;
      assert out[j] == StatusOf(s, id);
    }
  }

  method HandleMessage(runner: WasmRunner, h: Host, m: Option<ServerMessage>) returns (out: seq<ClientMessage>)
    requires runner.Valid()
    modifies runner
    ensures runner.Valid()
    ensures runner.handles.Keys == Registered(h, old(runner.handles).Keys, m)
    ensures Answers(h, old(runner.handles).Keys, m, out)
  {
    out := [];
    match m {
      case Some(DeployApplication(id, _, hash, wasm, _)) =>
        if h.digest(wasm) != hash {
          out := [DeployAck(id, false, Some(Ascii("module hash mismatch")))];
        } else {
          var error := runner.Deploy(id, wasm);
          out := [DeployAck(id, error.None?, error)];
        }
      case Some(StopApplication(id)) =>
        var error := runner.Stop(id);
        out := [StopAck(id, error.None?, error)];
      case Some(RequestDeviceInfo) =>
        out := [DeviceInfo(h.memory, h.arch, [Ascii("wasi_preview1"), Ascii("wasmtime")], MAX_APP_SIZE)];
      case Some(RequestApplicationStatus(Some(id))) =>
        var running := runner.IsRunning(id);
        out := [ApplicationStatus(id, if running then RUNNING else STOPPED, None, None)];
      case Some(RequestApplicationStatus(None)) =>
        out := ListAll(runner);
      case _ =>
    }
  }

  // ---------------------------------------------------------------- the stream and the loop

  /** The frame at the front of the stream and what follows it; `None` ends the connection. */
  function ReadFrame(stream: Bytes): (r: Option<(Bytes, Bytes)>)
    ensures r.Some? ==> |r.value.1| < |stream| && 0 < |r.value.0| <= MAX_FRAME && stream == Frame(r.value.0) + r.value.1
  {
    if |stream| < 4 then None
    else
      var n := FromBe32(stream[..4]);
      if n == 0 || n > MAX_FRAME || |stream| < 4 + n then None
      else
        FrameBytes(stream, n);
        Some((stream[4..4 + n], stream[4 + n..]))
  }

  lemma FrameBytes(stream: Bytes, n: nat)
    requires |stream| >= 4 + n && FromBe32(stream[..4]) == n
    ensures stream == Frame(stream[4..4 + n]) + stream[4 + n..]
  {
    Be32Inverse(stream[..4]);
    assert stream == stream[..4] + (stream[4..4 + n] + stream[4 + n..]);
  }

  lemma Digit(q: nat, r: Byte)
    ensures (q * 256 + r) / 256 == q && (q * 256 + r) % 256 == r
  {
  }

  lemma Be32Inverse(b: Bytes)
    requires |b| == 4
    ensures Be32(FromBe32(b)) == b
  {
    var q1: nat := b[0] as int * 256 + b[1];
    var q2: nat := q1 * 256 + b[2];
    var n: nat := q2 * 256 + b[3];
    assert n == FromBe32(b);
    Digit(b[0], b[1]);
    Digit(q1, b[2]);
    Digit(q2, b[3]);
    assert n / 0x1_0000 == n / 256 / 256;
    assert n / 0x100_0000 == n / 0x1_0000 / 256;
    assert Be32(n) == [b[0], b[1], b[2], b[3]];
  }

  /** The messages of a stream: what each frame decodes to, `None` for one that does not. */
  function Incoming(stream: Bytes): seq<Option<ServerMessage>>
    decreases |stream|
  {
    match ReadFrame(stream)
    case None => []
    case Some((payload, rest)) => [DecodeServer(payload)] + Incoming(rest)
  }

  /** Sends one message after another until the channel, open for `open` sends in all, is closed. */
  method SendAll(sent: seq<ClientMessage>, out: seq<ClientMessage>, open: nat)
    returns (after: seq<ClientMessage>, closed: bool)
    requires |sent| <= open
    ensures |after| <= open && sent <= after <= sent + out
    ensures if closed then |after| == open < |sent + out| else after == sent + out
  {
    after := sent;
    for k := 0 to |out|
      invariant after == sent + out[..k] && |after| <= open
    {
      if |after| == open {
        assert sent + out == after + out[k..];
        return after, true;
      }
      after := after + [out[k]];
    }
    return after, false;
  }

  /** The loop's progress: `chunks` answer the first messages, `rest` holds the others. */
  ghost predicate Serving(
    h: Host, ms: seq<Option<ServerMessage>>, rest: Bytes, chunks: seq<seq<ClientMessage>>, apps: set<Bytes>)
  {
    && |chunks| <= |ms| && Incoming(rest) == ms[|chunks|..]
    && apps == RegisteredAfter(h, ms[..|chunks|])
    && AllAnswered(h, ms[..|chunks|], chunks)
  }

  lemma ServingNext(
    h: Host, ms: seq<Option<ServerMessage>>, rest: Bytes, chunks: seq<seq<ClientMessage>>, apps: set<Bytes>,
    out: seq<ClientMessage>)
    requires Serving(h, ms, rest, chunks, apps) && ReadFrame(rest).Some?
    requires Answers(h, apps, DecodeServer(ReadFrame(rest).value.0), out)
    ensures var m := DecodeServer(ReadFrame(rest).value.0);
      Serving(h, ms, ReadFrame(rest).value.1, chunks + [out], Registered(h, apps, m))
  {
    var (payload, tail) := ReadFrame(rest).value;
    assert Incoming(rest) == [DecodeServer(payload)] + Incoming(tail);
    ServedNext(h, ms, chunks, apps, out, DecodeServer(payload), Incoming(tail));
  }

  lemma ServedNext(
    h: Host, ms: seq<Option<ServerMessage>>, chunks: seq<seq<ClientMessage>>, apps: set<Bytes>,
    out: seq<ClientMessage>, m: Option<ServerMessage>, later: seq<Option<ServerMessage>>)
    requires |chunks| <= |ms| && [m] + later == ms[|chunks|..] && apps == RegisteredAfter(h, ms[..|chunks|])
    requires AllAnswered(h, ms[..|chunks|], chunks) && Answers(h, apps, m, out)
    ensures |chunks| < |ms| && later == ms[|chunks| + 1..]
    ensures Registered(h, apps, m) == RegisteredAfter(h, ms[..|chunks| + 1])
    ensures AllAnswered(h, ms[..|chunks| + 1], chunks + [out])
  {
    var n := |chunks|;
    assert m == ms[n..][0] == ms[n] && later == ms[n..][1..];
    assert ms[..n + 1][..n] == ms[..n];
    AnsweredNext(h, ms, chunks, out);
  }

  lemma JoinedNext(chunks: seq<seq<ClientMessage>>, out: seq<ClientMessage>)
    ensures Joined(chunks + [out]) == Joined(chunks) + out
  {
    assert (chunks + [out])[..|chunks|] == chunks;
  }

  /** Serves the stream until it ends or the outgoing channel closes, which it does after `open` sends. */
  method EventLoop(stream: Bytes, open: nat, h: Host)
    returns (sent: seq<ClientMessage>, ghost chunks: seq<seq<ClientMessage>>)
    ensures |chunks| <= |Incoming(stream)| && AllAnswered(h, Incoming(stream)[..|chunks|], chunks)
    ensures |sent| <= open && sent <= Joined(chunks)
    ensures (sent == Joined(chunks) && |chunks| == |Incoming(stream)|) || |sent| == open < |Joined(chunks)|
  {
    var runner := new WasmRunner();
    var rest := stream;
    ghost var ms := Incoming(stream);
    sent, chunks := [], [];
    while true
      invariant runner.Valid() && fresh(runner)
      invariant Serving(h, ms, rest, chunks, runner.handles.Keys)
      invariant sent == Joined(chunks) && |sent| <= open
      decreases |rest|
    {
      var frame := ReadFrame(rest);
      if frame.None? {
        break;
      }
      ghost var apps := runner.handles.Keys;
      var out := HandleMessage(runner, h, DecodeServer(frame.value.0));
      ServingNext(h, ms, rest, chunks, apps, out);
      JoinedNext(chunks, out);
      rest := frame.value.1;
      chunks := chunks + [out];
      var closed;
      sent, closed := SendAll(sent, out, open);
      if closed {
        return;
      }
    }
    assert ms[..|chunks|] == ms;
  }

  lemma AnsweredNext(h: Host, ms: seq<Option<ServerMessage>>, chunks: seq<seq<ClientMessage>>, out: seq<ClientMessage>)
    requires |chunks| < |ms| && AllAnswered(h, ms[..|chunks|], chunks)
    requires Answers(h, RegisteredAfter(h, ms[..|chunks|]), ms[|chunks|], out)
    ensures AllAnswered(h, ms[..|chunks| + 1], chunks + [out])
  {
    var n := |chunks|;
    forall i | 0 <= i <= n
      ensures Answers(h, RegisteredAfter(h, ms[..n + 1][..i]), ms[..n + 1][i], (chunks + [out])[i])
    {
      assert ms[..n + 1][..i] == ms[..i];
      if i < n {
        assert ms[..n][..i] == ms[..i];
        AnsweredAt(h, ms[..n], chunks, i);
      }
    }
  }

  // ---------------------------------------------------------------- acknowledgments in order

  function Acks(out: seq<ClientMessage>): seq<ClientMessage> {
    if |out| == 0 then []
    else
      var last := out[|out| - 1];
      Acks(out[..|out| - 1]) + (if last.DeployAck? || last.StopAck? then [last] else [])
  }

  /** One acknowledgment per command, judged by the registrations at that point. */
  function AckTrace(h: Host, ms: seq<Option<ServerMessage>>): seq<ClientMessage> {
    if |ms| == 0 then []
    else
      var n := |ms| - 1;
      AckTrace(h, ms[..n]) + (if IsCommand(ms[n]) then [AckOf(h, RegisteredAfter(h, ms[..n]), ms[n])] else [])
  }

  lemma {:induction false} AcksJoin(a: seq<ClientMessage>, b: seq<ClientMessage>)
    ensures Acks(a + b) == Acks(a) + Acks(b)
  {
    if |b| == 0 {
      assert a + b == a;
    } else {
      var n := |b| - 1;
      AcksJoin(a, b[..n]);
      assert (a + b)[..|a| + n] == a + b[..n];
    }
  }

  lemma {:induction false} NoAcks(out: seq<ClientMessage>)
    requires forall i :: 0 <= i < |out| ==> !out[i].DeployAck? && !out[i].StopAck?
    ensures Acks(out) == []
  {
    if |out| > 0 {
      NoAcks(out[..|out| - 1]);
    }
  }

  lemma ChunkAcks(h: Host, s: set<Bytes>, m: Option<ServerMessage>, out: seq<ClientMessage>)
    requires Answers(h, s, m, out)
    ensures Acks(out) == if IsCommand(m) then [AckOf(h, s, m)] else []
  {
    if IsCommand(m) {
      assert out[..0] == [];
    } else {
      NoAcks(out);
    }
  }

  /** Whatever else is sent, the acknowledgments are exactly one per Deploy or Stop, in order. */
  lemma {:induction false} AcksInOrder(h: Host, ms: seq<Option<ServerMessage>>, chunks: seq<seq<ClientMessage>>)
    requires AllAnswered(h, ms, chunks)
    ensures Acks(Joined(chunks)) == AckTrace(h, ms)
  {
    if |ms| > 0 {
      var n := |ms| - 1;
      assert AllAnswered(h, ms[..n], chunks[..n]) by {
        forall i | 0 <= i < n
          ensures Answers(h, RegisteredAfter(h, ms[..n][..i]), ms[..n][i], chunks[..n][i])
        {
          assert ms[..n][..i] == ms[..i];
        }
      }
      AcksInOrder(h, ms[..n], chunks[..n]);
      AcksJoin(Joined(chunks[..n]), chunks[n]);
      assert Answers(h, RegisteredAfter(h, ms[..n]), ms[n], chunks[n]);
      ChunkAcks(h, RegisteredAfter(h, ms[..n]), ms[n], chunks[n]);
    }
  }

  /** When the channel closes early, the acknowledgments sent are the first of them. */
  lemma AcksPrefix(h: Host, ms: seq<Option<ServerMessage>>, chunks: seq<seq<ClientMessage>>, sent: seq<ClientMessage>)
    requires AllAnswered(h, ms, chunks) && sent <= Joined(chunks)
    ensures Acks(sent) <= AckTrace(h, ms)
  {
    AcksInOrder(h, ms, chunks);
    var rest := Joined(chunks)[|sent|..];
    assert Joined(chunks) == sent + rest;
    AcksJoin(sent, rest);
  }

  // ---------------------------------------------------------------- who is registered

  function Effects(h: Host, ms: seq<Option<ServerMessage>>, appId: Bytes): (ops: seq<R.Op<()>>)
    ensures |ops| == |ms| && forall i :: 0 <= i < |ms| ==> ops[i] == Effect(h, ms[i], appId)
  {
    seq(|ms|, i requires 0 <= i < |ms| => Effect(h, ms[i], appId))
  }

  lemma {:induction false} RegisteredHolds(h: Host, ms: seq<Option<ServerMessage>>, appId: Bytes)
    ensures appId in RegisteredAfter(h, ms) <==> R.Holds(Effects(h, ms, appId), ())
  {
    if |ms| > 0 {
      var n := |ms| - 1;
      RegisteredHolds(h, ms[..n], appId);
      assert Effects(h, ms, appId) == Effects(h, ms[..n], appId) + [Effect(h, ms[n], appId)];
      R.HoldsStep(Effects(h, ms[..n], appId), Effect(h, ms[n], appId), ());
    }
  }

  ghost predicate Deploys(h: Host, m: Option<ServerMessage>, appId: Bytes) {
    m.Some? && m.value.DeployApplication? && m.value.appId == appId && h.digest(m.value.wasm) == m.value.moduleHash
  }

  /** Message `j` deployed the application past both checks, and no later one stopped it or
      deployed it again with a matching digest. */
  ghost predicate RegistersLast(h: Host, ms: seq<Option<ServerMessage>>, appId: Bytes, j: nat) {
    && j < |ms| && Deploys(h, ms[j], appId) && ValidMagic(ms[j].value.wasm)
    && forall k :: j < k < |ms| ==> !Deploys(h, ms[k], appId) && ms[k] != Some(StopApplication(appId))
  }

  lemma RegisteredIff(h: Host, ms: seq<Option<ServerMessage>>, appId: Bytes)
    ensures appId in RegisteredAfter(h, ms) <==> exists j: nat :: RegistersLast(h, ms, appId, j)
  {
    RegisteredHolds(h, ms, appId);
    var ops := Effects(h, ms, appId);
    if R.Holds(ops, ()) {
      var j: nat :| R.LastWrite(ops, j, ());
      forall k | j < k < |ms|
        ensures !Deploys(h, ms[k], appId) && ms[k] != Some(StopApplication(appId))
      {
        assert ops[k].Keep?;
      }
      assert RegistersLast(h, ms, appId, j);
    }
    forall j: nat | RegistersLast(h, ms, appId, j)
      ensures R.LastWrite(ops, j, ())
    {
    }
  }

  // ---------------------------------------------------------------- the answers over every run

  /** A deployment succeeds exactly when the digest matches and the module starts with the four magic bytes. */
  lemma DeployAnswer(h: Host, ms: seq<Option<ServerMessage>>, chunks: seq<seq<ClientMessage>>, i: nat,
                     m: ServerMessage)
    requires AllAnswered(h, ms, chunks) && i < |ms| && ms[i] == Some(m) && m.DeployApplication?
    ensures var match4 := |m.wasm| >= 4 && m.wasm[..4] == [0x00, 0x61, 0x73, 0x6d];
      var out, good := chunks[i], h.digest(m.wasm) == m.moduleHash;
      && (out == [DeployAck(m.appId, true, None)] <==> good && match4)
      && (out == [DeployAck(m.appId, false, Some(Ascii("module hash mismatch")))] <==> !good)
      && (out == [DeployAck(m.appId, false, Some(Ascii("Not a valid WASM module (missing magic bytes)")))] <==>
            good && !match4)
  {
    AnsweredAt(h, ms, chunks, i);
    MagicFirst(m.wasm);
    assert |Ascii("module hash mismatch")| == 20;
    assert |Ascii("Not a valid WASM module (missing magic bytes)")| == 45;
  }

  /** A stop succeeds exactly when the application is registered by the messages before. */
  lemma StopAnswer(h: Host, ms: seq<Option<ServerMessage>>, chunks: seq<seq<ClientMessage>>, i: nat, id: Bytes)
    requires AllAnswered(h, ms, chunks) && i < |ms| && ms[i] == Some(StopApplication(id))
    ensures chunks[i] == [StopAck(id, true, None)] <==> exists j: nat :: RegistersLast(h, ms[..i], id, j)
    ensures chunks[i] == [StopAck(id, false, Some(Ascii("Application '") + id + Ascii("' not found")))] <==>
      !exists j: nat :: RegistersLast(h, ms[..i], id, j)
  {
    AnsweredAt(h, ms, chunks, i);
    RegisteredIff(h, ms[..i], id);
  }

  /** A status is Running (1) exactly for a registered application, otherwise Stopped (2). */
  lemma StatusAnswer(h: Host, ms: seq<Option<ServerMessage>>, chunks: seq<seq<ClientMessage>>, i: nat, id: Bytes)
    requires AllAnswered(h, ms, chunks) && i < |ms| && ms[i] == Some(RequestApplicationStatus(Some(id)))
    ensures chunks[i] == [ApplicationStatus(id, 1, None, None)] <==> exists j: nat :: RegistersLast(h, ms[..i], id, j)
    ensures chunks[i] == [ApplicationStatus(id, 2, None, None)] <==>
      !exists j: nat :: RegistersLast(h, ms[..i], id, j)
  {
    AnsweredAt(h, ms, chunks, i);
    RegisteredIff(h, ms[..i], id);
  }

  /** A listing holds one Running status for each registered application and nothing else. */
  lemma ListAnswer(h: Host, ms: seq<Option<ServerMessage>>, chunks: seq<seq<ClientMessage>>, i: nat, id: Bytes)
    requires AllAnswered(h, ms, chunks) && i < |ms| && ms[i] == Some(RequestApplicationStatus(None))
    ensures ApplicationStatus(id, 1, None, None) in chunks[i] <==> exists j: nat :: RegistersLast(h, ms[..i], id, j)
    ensures forall m :: m in chunks[i] ==> m.ApplicationStatus? && m == ApplicationStatus(m.appId, 1, None, None)
    ensures forall j, k :: 0 <= j < k < |chunks[i]| ==> chunks[i][j] != chunks[i][k]
  {
    AnsweredAt(h, ms, chunks, i);
    RegisteredIff(h, ms[..i], id);
    var s := RegisteredAfter(h, ms[..i]);
    forall m | m in chunks[i]
      ensures m.ApplicationStatus? && m.appId in s && m == ApplicationStatus(m.appId, 1, None, None)
    {
      var k :| 0 <= k < |chunks[i]| && chunks[i][k] == m;
    }
    assert id in s ==> StatusOf(s, id) in chunks[i];
  }

  predicate Unanswered(m: ServerMessage) {
    || m.HeartbeatAck? || m.Challenge? || m.EnrollmentAccepted? || m.EnrollmentRejected? || m.DeviceUuid?
    || m.EnrollmentCompleted?
  }

  /** Device information names memory, architecture, two features and 16 MiB; enrollment messages,
      heartbeat acknowledgments and frames that do not decode draw no answer. */
  lemma OtherAnswers(h: Host, ms: seq<Option<ServerMessage>>, chunks: seq<seq<ClientMessage>>, i: nat)
    requires AllAnswered(h, ms, chunks) && i < |ms|
    ensures var info := DeviceInfo(h.memory, h.arch, [Ascii("wasi_preview1"), Ascii("wasmtime")], 16 * 1024 * 1024);
      ms[i] == Some(RequestDeviceInfo) ==> chunks[i] == [info]
    ensures ms[i].None? || Unanswered(ms[i].value) ==> chunks[i] == []
  {
    AnsweredAt(h, ms, chunks, i);
  }

  // ---------------------------------------------------------------- from the gateway's encoder

  function Wrap(ms: seq<ServerMessage>): (r: seq<Option<ServerMessage>>)
    ensures |r| == |ms| && forall i :: 0 <= i < |ms| ==> r[i] == Some(ms[i])
  {
    seq(|ms|, i requires 0 <= i < |ms| => Some(ms[i]))
  }

  predicate Short(ps: seq<Bytes>) { forall p :: p in ps ==> 0 < |p| <= MAX_FRAME }

  lemma ReadsFront(p: Bytes, rest: Bytes)
    requires |p| < 0x1_0000_0000 - 4
    ensures ReadFrame(Frame(p) + rest) == if 0 < |p| <= MAX_FRAME then Some((p, rest)) else None
  {
    FrameAtFront(p, rest);
    var stream := Frame(p) + rest;
    Be32RoundTrip(|p|);
    assert stream[..4] == Be32(|p|);
  }

  lemma {:induction false} IncomingWire(ps: seq<Bytes>)
    requires Short(ps)
    ensures |Incoming(Wire(ps))| == |ps|
    ensures forall i :: 0 <= i < |ps| ==> Incoming(Wire(ps))[i] == DecodeServer(ps[i])
  {
    if |ps| > 0 {
      assert ps[0] in ps;
      IncomingWire(ps[1..]);
      ReadsFront(ps[0], Wire(ps[1..]));
    }
  }

  /** The messages a gateway encodes, framed back to back, are the messages the loop serves. */
  lemma ServesWhatWasSent(ms: seq<ServerMessage>)
    requires forall m :: m in ms ==> ServerFits(m)
    requires Short(Payloads(ms))
    ensures Incoming(Wire(Payloads(ms))) == Wrap(ms)
  {
    var ps := Payloads(ms);
    IncomingWire(ps);
    forall i | 0 <= i < |ms|
      ensures Incoming(Wire(ps))[i] == Wrap(ms)[i]
    {
      assert ms[i] in ms;
      ServerRoundTrip(ms[i]);
    }
  }

  /** A frame of more than 65536 bytes ends the connection, although the client announces that it
      takes modules of 16 MiB. */
  lemma OversizedEndsLoop(m: ServerMessage, rest: Bytes)
    requires m.DeployApplication? && ServerFits(m) && |EncodeServer(m)| < 0x1_0000_0000 - 4
    requires |EncodeServer(m)| > 65_536
    ensures Incoming(Frame(EncodeServer(m)) + rest) == []
  {
    ReadsFront(EncodeServer(m), rest);
  }
}
