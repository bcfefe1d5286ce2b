/** A board handling deploy messages: parse, digest check, runtime reset, load, acknowledge. */
module Deploy {
  import opened Prelude
  import R = Registers
  import opened Messages
  import opened Codec
  import opened Framing
  import opened FirmwareParse
  import opened FirmwareSend
  import opened Wamr

  /** What a deployment meets: the digest function (`None` when hashing fails), the runtime's
      answers to init, load, instantiate and create-environment, and the clock. */
  datatype Environment = Environment(
    digest: Bytes -> Option<Bytes>, initOk: bool, loaded: Handle, made: Handle, env: Handle, now: Word)

  /** How handling of a parsed module ends. */
  datatype Verdict = Refused | InitFailed | LoadFailed | Started

  function Judge(w: Environment, hash: Bytes, wasm: Bytes): Verdict {
    if |wasm| == 0 || |wasm| > MAX_WASM_SIZE || w.digest(wasm) != Some(hash) then Refused
    else if !w.initOk then InitFailed
    else if w.loaded == 0 || w.made == 0 || w.env == 0 then LoadFailed
    else Started
  }

  /** The DeployApplication in a received frame, if it is one. */
  function DeployIn(data: Bytes): Option<DeployFields>
    requires LengthSane(data)
  {
    if |data| < 4 then None
    else
      var n := FromBe32(data[..4]) as int;
      if |data| >= 4 + n && n >= 2 && data[4] == 0x86 && data[5] == 0x05
      then Some(ParseDeploy(data, 6, 4 + n)) else None
  }

  /** How long the reader waits for the rest of a message, in ms. */
  const MESSAGE_TIMEOUT := 5000

  /** The frame a read hands on, if it has any bytes. A frame whose length wrapped is shorter than its
      header, so no delivered frame has a length that wraps. */
  function FrameOf(stream: Bytes, r: Read): (data: Option<Bytes>)
    requires r.frame.Some? ==> 4 <= |stream| && r.frame.value == FrameLength(stream) <= |stream|
    ensures data.Some? ==> data.value != [] && LengthSane(data.value)
  {
    if r.frame.None? || r.frame.value == 0 then None
    else
      assert r.frame.value >= 4 ==> stream[..r.frame.value][..4] == stream[..4];
      Some(stream[..r.frame.value])
  }

  // ---------------------------------------------------------------- the application state as a value

  /** The id buffer, the deployed flag, the id of the module last started, and whether the current
      instance is still in the registry. */
  datatype App = App(buffer: Bytes, deployed: bool, running: Bytes, alive: bool)

  const NO_APP := App([], false, [], false)

  function Advance(a: App, f: DeployFields, v: Verdict): App {
    match f
    case BadAppId => a
    case Fields(appId, _, _) =>
      (match v
       case Refused => a.(buffer := appId)
       case InitFailed => a.(buffer := appId, alive := false)
       case LoadFailed => a.(buffer := appId, deployed := false, alive := false)
       case Started => App(appId, true, appId, true))
    case _ => a.(buffer := f.appId)
  }

  /** What a board with application state `a` does about a frame, if one came: its new state and the
      acknowledgment it sends. */
  function Reaction(a: App, data: Option<Bytes>, w: Environment): (App, Option<Bytes>)
    requires data.Some? ==> LengthSane(data.value)
  {
    if data.None? || DeployIn(data.value).None? then (a, None)
    else
      var f := DeployIn(data.value).value;
      var v := if f.Fields? then Judge(w, f.hash, f.wasm) else Refused;
      (Advance(a, f, v), Some(AckFor(f, v == Started)))
  }

  // ---------------------------------------------------------------- a reset registry

  lemma SingleLoad(st: State, w: Environment, size: nat)
    requires Idle(st) && st.initialized && |st.modules| == SLOTS && |st.instances| == SLOTS && size > 0
    ensures var l := Loaded(st, size, w.loaded);
      && LoadExit(st, size, w.loaded) == (if w.loaded == 0 then RuntimeRefused else Done)
      && (w.loaded != 0 ==> l.modules == st.modules[0 := ModuleEntry(st.nextModule, w.loaded, true)])
      && l.instances == st.instances && l.initialized
  {
  }

  lemma SingleInstance(st: State, w: Environment, id: Word)
    requires st.initialized && |st.modules| == SLOTS && |st.instances| == SLOTS
    requires st.modules[0].inUse && st.modules[0].id == id
    requires forall i :: 0 <= i < SLOTS ==> !st.instances[i].inUse
    ensures var l := Instantiated(st, id, w.made, w.env);
      && InstantiateExit(st, id, w.made, w.env) == (if w.made == 0 || w.env == 0 then RuntimeRefused else Done)
      && (w.made != 0 && w.env != 0 ==>
            l.instances == st.instances[0 := InstanceEntry(st.nextInstance, w.made, w.env, true)])
      && l.modules == st.modules
  {
  }

  /** Only the first slot of each kind is ever in use. */
  ghost predicate FirstSlotOnly(st: State) {
    && (forall i :: 0 < i < |st.modules| ==> !st.modules[i].inUse)
    && (forall i :: 0 < i < |st.instances| ==> !st.instances[i].inUse)
  }

  ghost predicate Resolves(st: State, id: Word) {
    exists i :: 0 <= i < |st.instances| && st.instances[i].inUse && st.instances[i].id == id
  }

  /** Tears the runtime down and brings it up again: nothing is left in use. */
  method ResetRuntime(registry: Registry, initOk: bool) returns (status: int)
    requires Sound(registry.View())
    modifies registry, registry.modules, registry.instances
    ensures Sound(registry.View()) && Idle(registry.View())
    ensures registry.books.modules == {} && registry.books.instances == {} && registry.books.envs == {}
    ensures registry.initialized == initOk && status == (if initOk then 0 else -1)
  {
    CallOwned(registry.View(), Cleanup);
    CallNumbered(registry.View(), Cleanup);
    registry.WamrCleanup();
    CallOwned(registry.View(), Init(initOk));
    CallNumbered(registry.View(), Init(initOk));
    status := registry.WamrInit(initOk);
    HoldsNothing(ModuleColumn(registry.modules[..]), registry.books.modules);
    HoldsNothing(InstanceColumn(registry.instances[..]), registry.books.instances);
    HoldsNothing(EnvColumn(registry.instances[..]), registry.books.envs);
  }

  /** Loads and instantiates one module in a reset registry. */
  method StartModule(registry: Registry, size: nat, w: Environment)
    returns (id: Option<Word>, ghost searched: seq<Exit>)
    requires Sound(registry.View()) && Idle(registry.View()) && registry.initialized && size > 0
    requires registry.books.modules == {} && registry.books.instances == {} && registry.books.envs == {}
    modifies registry, registry.modules, registry.instances
    ensures Sound(registry.View()) && FirstSlotOnly(registry.View())
    ensures NoFreeSlot !in searched
    ensures id.Some? <==> w.loaded != 0 && w.made != 0 && w.env != 0
    ensures id.Some? ==> Resolves(registry.View(), id.value)
  {
    SingleLoad(registry.View(), w, size);
    var exit, moduleId := registry.WamrLoadModule(size, w.loaded);
    searched := [exit];
    if exit != Done {
      return None, searched;
    }
    SingleInstance(registry.View(), w, moduleId);
    var instanceId;
    exit, instanceId := registry.WamrInstantiate(moduleId, w.made, w.env);
    searched := searched + [exit];
    if exit != Done {
      return None, searched;
    }
    assert registry.View().instances[0].inUse && registry.View().instances[0].id == instanceId;
    return Some(instanceId), searched;
  }

  /** Why a delivery was not started. */
  function Reason(f: DeployFields): string {
    match f
    case BadAppId => "parse app_id"
    case BadName(_) => "parse name"
    case BadHash(_) => "parse module_hash"
    case BadWasm(_) => "parse wasm_bytes"
    case Fields(_, _, _) => "hash or load/instantiate failed"
  }

  lemma ReasonShown(f: DeployFields)
    ensures ShownError(Some(Ascii(Reason(f)))) == Some(Ascii(Reason(f)))
  {
    match f
    case BadAppId => PlainText("parse app_id");
    case BadName(_) => PlainText("parse name");
    case BadHash(_) => PlainText("parse module_hash");
    case BadWasm(_) => PlainText("parse wasm_bytes");
    case Fields(_, _, _) => PlainText("hash or load/instantiate failed");
  }

  class Board {
    const registry: Registry
    var ready: bool
    var connected: bool
    var appId: Bytes
    var currentInstance: Word
    var appDeployed: bool
    var lastStatus: Word
    ghost var running: Bytes

    ghost predicate Valid()
      reads this, registry, registry.modules, registry.instances
    {
      && Sound(registry.View()) && FirstSlotOnly(registry.View())
      && (appDeployed && registry.initialized ==> Resolves(registry.View(), currentInstance))
    }

    ghost function Summary(): App
      reads this, registry, registry.modules, registry.instances
    {
      App(appId, appDeployed, running, appDeployed && Resolves(registry.View(), currentInstance))
    }

    constructor (registry: Registry)
      requires registry.View() == Boot()
      ensures Valid() && Summary() == NO_APP && this.registry == registry && !ready && !connected
    {
      this.registry := registry;
      ready, connected, appId, currentInstance, appDeployed, lastStatus, running := false, false, [], 0, false, 0, [];
      new;
      RunSound([]);
    }

    /** Checks the module against its digest, resets the runtime, loads and starts the module. The
        search for a free slot always succeeds. */
    method HandleDeployApplication(hash: Bytes, wasm: Bytes, w: Environment)
      returns (status: int, ghost searched: seq<Exit>)
      requires Valid()
      modifies this, registry, registry.modules, registry.instances
      ensures Valid() && appId == old(appId) && ready == old(ready) && connected == old(connected)
      ensures status == (if Judge(w, hash, wasm) == Started then 0 else -1)
      ensures NoFreeSlot !in searched
      ensures Judge(w, hash, wasm) == Refused ==>
        registry.View() == old(registry.View()) && appDeployed == old(appDeployed)
        && currentInstance == old(currentInstance) && running == old(running)
      ensures Judge(w, hash, wasm) == InitFailed ==>
        Idle(registry.View()) && !registry.initialized && appDeployed == old(appDeployed) && running == old(running)
      ensures Judge(w, hash, wasm) == LoadFailed ==>
        !appDeployed && currentInstance == 0 && running == old(running)
      ensures Judge(w, hash, wasm) == Started ==>
        appDeployed && Resolves(registry.View(), currentInstance) && running == old(appId) && lastStatus == w.now
    {
      searched := [];
      if |wasm| == 0 || |wasm| > MAX_WASM_SIZE {
        return -1, [];
      }
      var actual := w.digest(wasm);
      if actual != Some(hash) {
        return -1, [];
      }
      status, searched := Restart(|wasm|, w);
    }

    /** Resets the runtime and starts the module that passed its checks. */
    method Restart(size: nat, w: Environment) returns (status: int, ghost searched: seq<Exit>)
      requires Valid() && size > 0
      modifies this, registry, registry.modules, registry.instances
      ensures Valid() && appId == old(appId) && ready == old(ready) && connected == old(connected)
      ensures NoFreeSlot !in searched
      ensures !w.initOk ==>
        && status == -1 && Idle(registry.View()) && !registry.initialized
        && appDeployed == old(appDeployed) && running == old(running)
      ensures w.initOk && (w.loaded == 0 || w.made == 0 || w.env == 0) ==>
        status == -1 && !appDeployed && currentInstance == 0 && running == old(running)
      ensures w.initOk && w.loaded != 0 && w.made != 0 && w.env != 0 ==>
        && status == 0 && appDeployed && Resolves(registry.View(), currentInstance)
        && running == old(appId) && lastStatus == w.now
    {
      var up := ResetRuntime(registry, w.initOk);
      if up != 0 {
        return -1, [];
      }
      appDeployed, currentInstance := false, 0;
      status, searched := Launch(size, w);
    }

    /** Starts the module in the runtime that was just reset. */
    method Launch(size: nat, w: Environment) returns (status: int, ghost searched: seq<Exit>)
      requires Sound(registry.View()) && Idle(registry.View()) && registry.initialized && size > 0
      requires registry.books.modules == {} && registry.books.instances == {} && registry.books.envs == {}
      requires !appDeployed && currentInstance == 0
      modifies this, registry, registry.modules, registry.instances
      ensures Valid() && appId == old(appId) && ready == old(ready) && connected == old(connected)
      ensures NoFreeSlot !in searched
      ensures w.loaded == 0 || w.made == 0 || w.env == 0 ==>
        status == -1 && !appDeployed && currentInstance == 0 && running == old(running)
      ensures w.loaded != 0 && w.made != 0 && w.env != 0 ==>
        && status == 0 && appDeployed && Resolves(registry.View(), currentInstance)
        && running == old(appId) && lastStatus == w.now
    {
      var instanceId;
      instanceId, searched := StartModule(registry, size, w);
      if instanceId.None? {
        return -1, searched;
      }
      currentInstance, appDeployed, lastStatus, running := instanceId.value, true, w.now, appId;
      return 0, searched;
    }

    /** Handles one received frame; yields the acknowledgment to send, if any. */
    method HandleMessage(data: Bytes, w: Environment) returns (status: int, ack: Option<Bytes>)
      requires Valid() && LengthSane(data)
      modifies this, registry, registry.modules, registry.instances
      ensures Valid() && ready == old(ready) && connected == old(connected)
      ensures status == (if old(ready) && data != [] then 0 else -1)
      ensures (Summary(), ack) == if old(ready) then Reaction(old(Summary()), Some(data), w) else (old(Summary()), None)
    {
      if !ready || data == [] {
        return -1, None;
      }
      var found := DeployIn(data);
      if found.None? {
        return 0, None;
      }
      var packet := Answer(found.value, w);
      return 0, Some(packet);
    }

    /** Acts on the parsed fields and builds the acknowledgment. */
    method Answer(f: DeployFields, w: Environment) returns (packet: Bytes)
      requires Valid()
      modifies this, registry, registry.modules, registry.instances
      ensures Valid() && ready == old(ready) && connected == old(connected)
      ensures var v := if f.Fields? then Judge(w, f.hash, f.wasm) else Refused;
        Summary() == Advance(old(Summary()), f, v) && packet == AckFor(f, v == Started)
    {
      var ok := Act(f, w);
      packet := Acknowledge(f, ok);
    }

    method Act(f: DeployFields, w: Environment) returns (ok: bool)
      requires Valid()
      modifies this, registry, registry.modules, registry.instances
      ensures Valid() && ready == old(ready) && connected == old(connected)
      ensures var v := if f.Fields? then Judge(w, f.hash, f.wasm) else Refused;
        Summary() == Advance(old(Summary()), f, v) && ok == (v == Started)
    {
      ok := false;
      if !f.BadAppId? {
        appId := f.appId;
      }
      if f.Fields? {
        var done, _ := HandleDeployApplication(f.hash, f.wasm, w);
        ok := done == 0;
      }
    }

    /** Reads one frame; nothing that the buffer held before is used. */
    method ReceiveMessage(socket: Socket) returns (data: Option<Bytes>)
      modifies socket
      ensures var r := ReadBy(old(socket.stream), FRAME_BUFFER, old(socket.plan), old(socket.now), MESSAGE_TIMEOUT);
        && data == FrameOf(old(socket.stream), r)
        && socket.stream == old(socket.stream)[r.got..] && socket.plan == r.plan && socket.now == r.now
    {
      var buffer := new Byte[FRAME_BUFFER];
      var ret, total := RecvFrame(socket, buffer, MESSAGE_TIMEOUT);
      return if ret < 0 || total == 0 then None else Some(buffer[..total]);
    }

    /** Polls for a message, reads one frame and handles it; a broken read ends the connection. */
    method RecvAndHandle(socket: Socket, poll: int, w: Environment) returns (status: int, ack: Option<Bytes>)
      requires Valid()
      modifies this, socket, registry, registry.modules, registry.instances
      ensures Valid() && ready == old(ready)
      ensures !old(ready) || !old(connected) || poll <= 0 ==>
        && ack.None? && unchanged(socket) && Summary() == old(Summary())
        && status == (if old(ready) && old(connected) && poll == 0 then 1 else -1)
        && connected == (old(connected) && (poll >= 0 || !old(ready)))
      ensures old(ready) && old(connected) && poll > 0 ==>
        var r := ReadBy(old(socket.stream), FRAME_BUFFER, old(socket.plan), old(socket.now), MESSAGE_TIMEOUT);
        var data := FrameOf(old(socket.stream), r);
        && socket.stream == old(socket.stream)[r.got..] && socket.plan == r.plan && socket.now == r.now
        && connected == data.Some? && status == (if data.Some? then 0 else -1)
        && (Summary(), ack) == Reaction(old(Summary()), data, w)
    {
      if !ready || !connected {
        return -1, None;
      }
      if poll < 0 {
        connected := false;
        return -1, None;
      }
      if poll == 0 {
        return 1, None;
      }
      var data := ReceiveMessage(socket);
      if data.None? {
        connected := false;
        return -1, None;
      }
      status, ack := HandleMessage(data.value, w);
    }
  }

  /** The acknowledgment of a delivery; the id is the one just read into the buffer. */
  method Acknowledge(f: DeployFields, ok: bool) returns (packet: Bytes)
    requires ok ==> f.Fields?
    ensures packet == AckFor(f, ok)
  {
    var id := if f.BadAppId? then [] else f.appId;
    if ok {
      packet := SendDeployAck(id, true, None);
    } else {
      ReasonShown(f);
      packet := SendDeployAck(id, false, Some(Ascii(Reason(f))));
    }
  }

  function AckMessage(f: DeployFields, ok: bool): ClientMessage {
    DeployAck(if f.BadAppId? then [] else Shown(f.appId), ok, if ok then None else Some(Ascii(Reason(f))))
  }

  function AckFor(f: DeployFields, ok: bool): Bytes {
    ReasonShown(f);
    Frame(EncodeClient(AckMessage(f, ok)))
  }

  /** A success acknowledgment is sent exactly for a complete message whose module has 1 to 16384
      bytes, matches its digest and is accepted by the runtime; the ack names the application. */
  lemma SuccessAckIff(f: DeployFields, w: Environment)
    ensures var v := if f.Fields? then Judge(w, f.hash, f.wasm) else Refused;
      AckMessage(f, v == Started).success <==>
        && f.Fields? && 0 < |f.wasm| <= 16384 && w.digest(f.wasm) == Some(f.hash)
        && w.initOk && w.loaded != 0 && w.made != 0 && w.env != 0
  {
  }

  // ---------------------------------------------------------------- encoded messages, end to end

  /** The frame of a message that the gateway can send. */
  predicate Framable(m: ServerMessage) { ServerFits(m) && |EncodeServer(m)| + 4 < 0x1_0000_0000 }

  lemma FramedMessage(m: ServerMessage, data: Bytes)
    requires Framable(m) && data == Frame(EncodeServer(m))
    ensures LengthSane(data) && |data| >= 6 && FromBe32(data[..4]) + 4 == |data|
    ensures data[4] == 0x80 + ServerTag(m).0 as int && data[5] == ServerTag(m).1
    ensures Left(data, 6, |data|, ServerBody(m))
  {
    ServerLead(m);
    FramedBytes(EncodeServer(m), data);
    ServerRest(m);
  }

  lemma FramedBytes(p: Bytes, data: Bytes)
    requires 2 <= |p| < 0x1_0000_0000 - 4 && data == Frame(p)
    ensures LengthSane(data) && |data| >= 6 && FromBe32(data[..4]) + 4 == |data|
    ensures data[4] == p[0] && data[5] == p[1] && data[6..|data|] == p[2..]
  {
    Be32RoundTrip(|p|);
    assert data[..4] == Be32(|p|);
  }

  lemma DeployTagIff(m: ServerMessage)
    ensures ServerTag(m).0 == 6 && ServerTag(m).1 == 5 <==> m.DeployApplication?
  {
  }

  lemma DeployInData(m: ServerMessage, data: Bytes)
    requires Framable(m) && data == Frame(EncodeServer(m)) && LengthSane(data)
    ensures DeployIn(data) == if m.DeployApplication? then Some(ParseDeploy(data, 6, |data|)) else None
  {
    FramedMessage(m, data);
    DeployTagIff(m);
    TagBytes(data, data[4] == 0x86 && data[5] == 0x05);
  }

  lemma TagBytes(data: Bytes, deploys: bool)
    requires |data| >= 6 && LengthSane(data) && FromBe32(data[..4]) + 4 == |data|
    requires deploys <==> data[4] == 0x86 && data[5] == 0x05
    ensures DeployIn(data) == if deploys then Some(ParseDeploy(data, 6, |data|)) else None
  {
  }

  /** A frame is taken as a deployment exactly when one was encoded. */
  lemma DeployInIff(m: ServerMessage)
    requires Framable(m)
    ensures LengthSane(Frame(EncodeServer(m)))
    ensures DeployIn(Frame(EncodeServer(m))).Some? <==> m.DeployApplication?
    ensures m.DeployApplication? ==>
      var data := Frame(EncodeServer(m)); DeployIn(data) == Some(ParseDeploy(data, 6, |data|))
  {
    FramedMessage(m, Frame(EncodeServer(m)));
    DeployInData(m, Frame(EncodeServer(m)));
  }

  /** It is read back whole exactly for these sizes. */
  lemma DeployReadIff(m: ServerMessage)
    requires Framable(m) && m.DeployApplication?
    ensures LengthSane(Frame(EncodeServer(m)))
    ensures DeployIn(Frame(EncodeServer(m))) == Some(Fields(m.appId, m.moduleHash, m.wasm))
      <==> |m.appId| < 64 && |m.name| < 0x1_0000 && |m.moduleHash| == 32 && |m.wasm| < 0x1_0000
  {
    var data := Frame(EncodeServer(m));
    FramedMessage(m, data);
    DeployInIff(m);
    DeployParseIff(m, data, 6, |data|);
  }

  /** A message that fits the buffer and whose bytes come in time is delivered whole, whatever follows it. */
  lemma Delivers(m: ServerMessage, rest: Bytes, plan: seq<Arrival>, now: int)
    requires Framable(m) && |EncodeServer(m)| + 4 <= 16512
    requires Handed(plan, |EncodeServer(m)| + 4, 5000).Some?
    ensures var stream := Frame(EncodeServer(m)) + rest;
      FrameOf(stream, ReadBy(stream, FRAME_BUFFER, plan, now, MESSAGE_TIMEOUT)) == Some(Frame(EncodeServer(m)))
  {
    var stream := Frame(EncodeServer(m)) + rest;
    FrameAtFront(EncodeServer(m), rest);
    InTimeRead(stream, FRAME_BUFFER, plan, now, MESSAGE_TIMEOUT);
    assert stream[..|EncodeServer(m)| + 4] == Frame(EncodeServer(m));
  }

  /** The gateway reads `message` in the packet. */
  ghost predicate Says(packet: Option<Bytes>, message: ClientMessage) {
    packet.Some? && |packet.value| >= 4 && FromBe32(packet.value[..4]) + 4 == |packet.value|
    && DecodeClient(packet.value[4..]) == Some(message)
  }

  lemma AckSays(f: DeployFields, ok: bool)
    ensures Says(Some(AckFor(f, ok)), AckMessage(f, ok))
  {
    ReasonShown(f);
    PacketDecodes(AckMessage(f, ok));
  }

  /** The module of a deployment is the one its digest names, of an accepted size, and the runtime takes it. */
  predicate Startable(m: ServerMessage, w: Environment)
    requires m.DeployApplication?
  {
    && 0 < |m.wasm| <= 16384 && w.digest(m.wasm) == Some(m.moduleHash)
    && w.initOk && w.loaded != 0 && w.made != 0 && w.env != 0
  }

  /** What the board makes of the frame of a message. */
  function ReactionTo(a: App, m: ServerMessage, w: Environment): (App, Option<Bytes>)
    requires Framable(m)
  {
    FramedMessage(m, Frame(EncodeServer(m)));
    Reaction(a, Some(Frame(EncodeServer(m))), w)
  }

  /** So it does with one at the front of any stream that comes in time and fits its buffer. */
  lemma DeliveredReaction(a: App, m: ServerMessage, rest: Bytes, plan: seq<Arrival>, now: int, w: Environment)
    requires Framable(m) && |EncodeServer(m)| + 4 <= 16512
    requires Handed(plan, |EncodeServer(m)| + 4, 5000).Some?
    ensures var stream := Frame(EncodeServer(m)) + rest;
      Reaction(a, FrameOf(stream, ReadBy(stream, FRAME_BUFFER, plan, now, MESSAGE_TIMEOUT)), w) == ReactionTo(a, m, w)
  {
    Delivers(m, rest, plan, now);
  }

  /** Messages that are no deployment change nothing and are not acknowledged. */
  lemma OthersIgnored(a: App, m: ServerMessage, w: Environment)
    requires Framable(m) && !m.DeployApplication?
    ensures ReactionTo(a, m, w) == (a, None)
  {
    DeployInIff(m);
  }

  /** A deployment is acknowledged as a success exactly when its digest has 32 bytes and the module can be
      started; then it runs. Otherwise the acknowledgment says why, and what ran before goes on unless the
      runtime was reset. */
  lemma DeploymentAnswered(a: App, m: ServerMessage, w: Environment)
    requires Framable(m) && m.DeployApplication? && |m.appId| < 64 && |m.name| < 0x1_0000 && |m.wasm| < 0x1_0000
    ensures var (after, ack) := ReactionTo(a, m, w); var id := CString(m.appId);
      && (Says(ack, DeployAck(id, true, None)) <==> |m.moduleHash| == 32 && Startable(m, w))
      && (Says(ack, DeployAck(id, false, Some(Ascii("parse module_hash")))) <==> |m.moduleHash| != 32)
      && (Says(ack, DeployAck(id, false, Some(Ascii("hash or load/instantiate failed")))) <==>
            |m.moduleHash| == 32 && !Startable(m, w))
      && (|m.moduleHash| == 32 && Startable(m, w) ==> after == App(m.appId, true, m.appId, true))
      && after.buffer == m.appId
  {
    var data := Frame(EncodeServer(m));
    FramedMessage(m, data);
    var f, ok := ShortReaction(a, m, w, data, ReactionTo(a, m, w));
    AnswerTold(f, ok, ReactionTo(a, m, w).1, CString(m.appId));
  }

  lemma StartableIff(m: ServerMessage, w: Environment)
    requires m.DeployApplication?
    ensures Startable(m, w) <==> Judge(w, m.moduleHash, m.wasm) == Started
  {
  }

  lemma ShortReaction(a: App, m: ServerMessage, w: Environment, data: Bytes, r: (App, Option<Bytes>))
    returns (f: DeployFields, ok: bool)
    requires Framable(m) && m.DeployApplication? && |m.appId| < 64 && |m.name| < 0x1_0000 && |m.wasm| < 0x1_0000
    requires data == Frame(EncodeServer(m)) && LengthSane(data) && r == Reaction(a, Some(data), w)
    ensures f == if |m.moduleHash| != 32 then BadHash(m.appId) else Fields(m.appId, m.moduleHash, m.wasm)
    ensures ok <==> |m.moduleHash| == 32 && Startable(m, w)
    ensures Says(r.1, AckMessage(f, ok)) && r.0.buffer == m.appId && (ok ==> r.0 == App(m.appId, true, m.appId, true))
  {
    f := ShortFields(m, data);
    ok := |m.moduleHash| == 32 && Startable(m, w);
    StartableIff(m, w);
    ReadReaction(a, data, f, w, ok, r);
  }

  lemma ShortFields(m: ServerMessage, data: Bytes) returns (f: DeployFields)
    requires Framable(m) && m.DeployApplication? && |m.appId| < 64 && |m.name| < 0x1_0000 && |m.wasm| < 0x1_0000
    requires data == Frame(EncodeServer(m))
    ensures f == if |m.moduleHash| != 32 then BadHash(m.appId) else Fields(m.appId, m.moduleHash, m.wasm)
    ensures LengthSane(data) && DeployIn(data) == Some(f)
  {
    FramedMessage(m, data);
    ShortIdParse(m, data, 6, |data|);
    DeployInData(m, data);
    f := ParseDeploy(data, 6, |data|);
  }

  lemma ReadReaction(a: App, data: Bytes, f: DeployFields, w: Environment, ok: bool, r: (App, Option<Bytes>))
    requires LengthSane(data) && DeployIn(data) == Some(f) && r == Reaction(a, Some(data), w)
    requires ok <==> f.Fields? && Judge(w, f.hash, f.wasm) == Started
    ensures Says(r.1, AckMessage(f, ok)) && (f.Fields? ==> r.0 == Advance(a, f, Judge(w, f.hash, f.wasm)))
    ensures !f.Fields? ==> r.0 == Advance(a, f, Refused)
  {
    AckSays(f, ok);
  }

  /** A packet says one thing. */
  lemma SaysOne(packet: Option<Bytes>, said: ClientMessage, other: ClientMessage)
    requires Says(packet, said)
    ensures Says(packet, other) <==> other == said
  {
  }

  /** The three acknowledgments of a message whose id and name are read. */
  lemma AnswerTold(f: DeployFields, ok: bool, ack: Option<Bytes>, id: Bytes)
    requires (f.Fields? || (f.BadHash? && !ok)) && |f.appId| < 64 && id == CString(f.appId)
    requires Says(ack, AckMessage(f, ok))
    ensures Says(ack, DeployAck(id, true, None)) <==> ok
    ensures Says(ack, DeployAck(id, false, Some(Ascii("parse module_hash")))) <==> f.BadHash?
    ensures Says(ack, DeployAck(id, false, Some(Ascii("hash or load/instantiate failed")))) <==> f.Fields? && !ok
  {
    ReasonsDiffer();
    var said := AckMessage(f, ok);
    SaysOne(ack, said, DeployAck(id, true, None));
    SaysOne(ack, said, DeployAck(id, false, Some(Ascii("parse module_hash"))));
    SaysOne(ack, said, DeployAck(id, false, Some(Ascii("hash or load/instantiate failed"))));
  }

  lemma ReasonsDiffer()
    ensures |Ascii("parse module_hash")| == 17 && |Ascii("hash or load/instantiate failed")| == 31
  {
  }

  /** An id of 64 bytes or more is acknowledged by its first 63 bytes, and refused unless the byte after
      them reads as the head of a text. */
  lemma LongIdAnswered(a: App, m: ServerMessage, w: Environment)
    requires Framable(m) && m.DeployApplication? && 64 <= |m.appId| < 0x1_0000
    ensures ReactionTo(a, m, w).0.buffer == m.appId[..63]
    ensures !(0x60 <= m.appId[63] <= 0x79) ==>
      && Says(ReactionTo(a, m, w).1, DeployAck(CString(m.appId[..63]), false, Some(Ascii("parse name"))))
      && ReactionTo(a, m, w).0 == a.(buffer := m.appId[..63])
  {
    DeployInIff(m);
    var data := Frame(EncodeServer(m));
    FramedMessage(m, data);
    LongIdParse(m, data, 6, |data|);
    AckSays(BadName(m.appId[..63]), false);
  }

  // ---------------------------------------------------------------- runs of deploy messages

  datatype Delivery = Delivery(fields: DeployFields, verdict: Verdict)

  function RunApp(ds: seq<Delivery>): App {
    if |ds| == 0 then NO_APP
    else var n := |ds| - 1; Advance(RunApp(ds[..n]), ds[n].fields, ds[n].verdict)
  }

  /** What a delivery does to the id buffer. */
  function BufferOp(d: Delivery): R.Op<Bytes> {
    if d.fields.BadAppId? then R.Keep else R.Put(d.fields.appId)
  }

  /** What a delivery does to the running application. */
  function RunningOp(d: Delivery): R.Op<Bytes> {
    if !d.fields.Fields? then R.Keep
    else if d.verdict == Started then R.Put(d.fields.appId)
    else if d.verdict == LoadFailed then R.Clear
    else R.Keep
  }

  /** What a delivery does to the current instance. */
  function InstanceOp(d: Delivery): R.Op<Bytes> {
    if !d.fields.Fields? || d.verdict == Refused then R.Keep
    else if d.verdict == Started then R.Put(d.fields.appId)
    else R.Clear
  }

  function OpsBy(ds: seq<Delivery>, f: Delivery -> R.Op<Bytes>): (ops: seq<R.Op<Bytes>>)
    ensures |ops| == |ds| && forall i :: 0 <= i < |ds| ==> ops[i] == f(ds[i])
  {
    seq(|ds|, i requires 0 <= i < |ds| => f(ds[i]))
  }

  lemma OpsByStep(ds: seq<Delivery>, f: Delivery -> R.Op<Bytes>, v: Bytes)
    requires |ds| > 0
    ensures var n := |ds| - 1;
      R.Holds(OpsBy(ds, f), v) <==> f(ds[n]) == R.Put(v) || (f(ds[n]).Keep? && R.Holds(OpsBy(ds[..n], f), v))
  {
    var n := |ds| - 1;
    assert OpsBy(ds, f) == OpsBy(ds[..n], f) + [f(ds[n])];
    R.HoldsStep(OpsBy(ds[..n], f), f(ds[n]), v);
  }

  lemma {:induction false} AppTrace(ds: seq<Delivery>, id: Bytes)
    ensures var a := RunApp(ds);
      && (a.deployed && a.running == id <==> R.Holds(OpsBy(ds, RunningOp), id))
      && (R.Holds(OpsBy(ds, BufferOp), id) ==> a.buffer == id)
      && (a.buffer == id ==> R.Holds(OpsBy(ds, BufferOp), id) || id == [])
      && (a.deployed && a.alive && a.running == id <==> R.Holds(OpsBy(ds, InstanceOp), id))
      && (a.alive ==> a.deployed)
  {
    if |ds| > 0 {
      AppTrace(ds[..|ds| - 1], id);
      OpsByStep(ds, RunningOp, id);
      OpsByStep(ds, BufferOp, id);
      OpsByStep(ds, InstanceOp, id);
    }
  }

  predicate Starts(d: Delivery) { d.fields.Fields? && d.verdict == Started }

  /** Delivery `i` started its module and no later one started or tore down another. */
  ghost predicate StartedLast(ds: seq<Delivery>, i: nat) {
    i < |ds| && Starts(ds[i]) && forall k :: i < k < |ds| ==> RunningOp(ds[k]).Keep?
  }

  /** Delivery `j` carried the last readable application id. */
  ghost predicate NamedLast(ds: seq<Delivery>, j: nat) {
    j < |ds| && !ds[j].fields.BadAppId? && forall k :: j < k < |ds| ==> ds[k].fields.BadAppId?
  }

  lemma LastStart(ds: seq<Delivery>)
    ensures RunApp(ds).deployed <==> exists i: nat :: StartedLast(ds, i)
    ensures forall i: nat :: StartedLast(ds, i) ==> RunApp(ds).running == ds[i].fields.appId
  {
    var ops := OpsBy(ds, RunningOp);
    AppTrace(ds, RunApp(ds).running);
    if RunApp(ds).deployed {
      var i: nat :| R.LastWrite(ops, i, RunApp(ds).running);
      assert StartedLast(ds, i);
    }
    forall i: nat | StartedLast(ds, i)
      ensures RunApp(ds).deployed && RunApp(ds).running == ds[i].fields.appId
    {
      AppTrace(ds, ds[i].fields.appId);
      assert R.LastWrite(ops, i, ds[i].fields.appId);
    }
  }

  lemma LastName(ds: seq<Delivery>, j: nat)
    requires NamedLast(ds, j)
    ensures RunApp(ds).buffer == ds[j].fields.appId
  {
    AppTrace(ds, ds[j].fields.appId);
    assert R.LastWrite(OpsBy(ds, BufferOp), j, ds[j].fields.appId);
  }

  lemma {:induction false} SomeNamedLast(ds: seq<Delivery>, i: nat) returns (j: nat)
    requires i < |ds| && !ds[i].fields.BadAppId?
    ensures i <= j && NamedLast(ds, j)
    decreases |ds| - i
  {
    if k :| i < k < |ds| && !ds[k].fields.BadAppId? {
      j := SomeNamedLast(ds, k);
    } else {
      j := i;
    }
  }

  /** The periodic status reports the id buffer, up to its first zero, as running. It names another
      application than the one started last exactly when a later delivery, refused or unparsable,
      left an id there that reads differently. */
  lemma MisreportIff(ds: seq<Delivery>)
    ensures var a := RunApp(ds);
      a.deployed && Shown(a.buffer) != Shown(a.running) <==>
        exists i: nat, j: nat ::
          i < j && StartedLast(ds, i) && NamedLast(ds, j) && Shown(ds[i].fields.appId) != Shown(ds[j].fields.appId)
  {
    var a := RunApp(ds);
    LastStart(ds);
    if a.deployed {
      var i: nat :| StartedLast(ds, i);
      var j := SomeNamedLast(ds, i);
      LastName(ds, j);
    }
    forall i: nat, j: nat | StartedLast(ds, i) && NamedLast(ds, j)
      ensures a.running == ds[i].fields.appId && a.buffer == ds[j].fields.appId
    {
      LastName(ds, j);
    }
  }

  /** The board keeps reporting an application whose instance is gone exactly when, since the last
      start, a runtime reset failed to come up. */
  lemma DeadReportIff(ds: seq<Delivery>)
    ensures var a := RunApp(ds);
      a.deployed && !a.alive <==>
        exists i: nat, j: nat ::
          i < j < |ds| && StartedLast(ds, i) && ds[j].fields.Fields? && ds[j].verdict == InitFailed
  {
    var a := RunApp(ds);
    LastStart(ds);
    AppTrace(ds, a.running);
    var ops := OpsBy(ds, InstanceOp);
    if a.deployed {
      var i: nat :| StartedLast(ds, i);
      if !a.alive {
        assert !R.LastWrite(ops, i, a.running);
        var m :| i < m < |ds| && !ops[m].Keep?;
        assert RunningOp(ds[m]).Keep?;
      }
      if a.alive {
        var w: nat :| R.LastWrite(ops, w, a.running);
        forall i: nat, j: nat | i < j < |ds| && StartedLast(ds, i)
          ensures !(ds[j].fields.Fields? && ds[j].verdict == InitFailed)
        {
          assert ops[i].Put?;
          assert RunningOp(ds[i]).Put?;
          assert !(i < w);
          assert ops[j].Keep?;
        }
      }
    }
  }

  /** After one module started, a deployment of another id that is refused makes the report wrong,
      and one whose runtime reset fails makes it report a module that no longer exists. */
  lemma WrongReports(first: DeployFields, second: DeployFields)
    requires first.Fields? && second.Fields? && Shown(first.appId) != Shown(second.appId)
    ensures var a := RunApp([Delivery(first, Started), Delivery(second, Refused)]);
      a.deployed && a.alive && Shown(a.running) == Shown(first.appId) != Shown(a.buffer)
    ensures var a := RunApp([Delivery(first, Started), Delivery(second, InitFailed)]);
      a.deployed && !a.alive && a.buffer == second.appId
  {
    var start := Delivery(first, Started);
    assert RunApp([start]) == App(first.appId, true, first.appId, true) by {
      assert [start][..0] == [];
    }
    assert [start, Delivery(second, Refused)][..1] == [start];
    assert [start, Delivery(second, InitFailed)][..1] == [start];
  }
}
