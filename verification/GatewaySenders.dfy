/** What the key index and the devices' senders hold over whole runs, read off the events. */
module GatewaySenders {
  import opened Prelude
  import opened Messages
  import opened Registers
  import opened Base64
  import opened KeyIndex
  import opened GatewayTables
  import opened Gateway
  import opened GatewayRuns

  // ---------------------------------------------------------------- the key index

  /** The text under which event `e` files a device, if it files one. */
  ghost function Files(s: Settings, t: Tables, e: Event): Option<(string, DeviceId)> {
    match e
    case Connecting(tlsKey, w) =>
      if w.listing.Some? && Find(w.listing.value, tlsKey).Some? && w.patched
      then Some((Encode(UrlSafe, tlsKey), Find(w.listing.value, tlsKey).value.name)) else None
    case HttpRegister(device, _) => Some((device.publicKey, device.name))
    case _ =>
      match Binds(s, t, e)
      case None => None
      case Some(Binding(_, id, ByEnrollment(key))) => Some((Encode(Standard, key), id))
      case Some(Binding(_, id, ByDeployment)) =>
        if e.DeployBind? && e.storedKey.Some? then Some((e.storedKey.value, id)) else None
  }

  /** The device event `e` files for the key that `text` spells. */
  ghost function FilesFor(s: Settings, t: Tables, e: Event, text: string): Op<DeviceId> {
    AnswerOf(Files(s, t, e), text)
  }

  ghost function AnswerOf(f: Option<(string, DeviceId)>, text: string): Op<DeviceId> {
    if f.Some? && NameOf(f.value.0) == NameOf(text) then Put(f.value.1) else Keep
  }

  /** The index once `f` is filed. */
  ghost function WithFiled(index: Index, f: Option<(string, DeviceId)>): Index {
    if f.Some? then Insert(index, f.value.0, f.value.1) else index
  }

  lemma ConnectedIndex(s: Settings, t: Tables, e: Event)
    requires e.Connecting?
    ensures OnConnect(s, t, e.tlsKey, e.w).0.index == WithFiled(t.index, Files(s, t, e))
  {
  }

  lemma AdoptedIndex(s: Settings, t: Tables, e: Event)
    requires e.DeployBind?
    ensures Adopted(t, e.id, e.storedKey, e.w.now).index == WithFiled(t.index, Files(s, t, e))
  {
    var conn := Adoptable(t, e.id, e.storedKey);
    if conn.Some? {
      assert Files(s, t, e) == Some((e.storedKey.value, e.id));
    } else {
      assert Files(s, t, e) == None;
    }
  }

  lemma FiledIndex(s: Settings, t: Tables, e: Event)
    requires !e.Received?
    ensures Step(s, t, e).tables.index == WithFiled(t.index, Files(s, t, e))
  {
    match e
    case Connecting(_, _) => ConnectedIndex(s, t, e);
    case Ready(conn, tlsKey, w) => assert Step(s, t, e).tables == OnReady(t, conn, tlsKey, w);
    case Disconnected(conn) => assert Step(s, t, e).tables == Removed(t, conn);
    case HttpRegister(_, _) =>
    case DeployBind(_, _, _) => AdoptedIndex(s, t, e);
  }

  lemma LookupFiled(index: Index, f: Option<(string, DeviceId)>, query: string)
    ensures Get(WithFiled(index, f), query) == Apply(Get(index, query), AnswerOf(f, query))
    ensures Get(WithFiled(WithFiled(index, f), f), query) == Apply(Get(index, query), AnswerOf(f, query))
  {
    if f.Some? {
      InsertLookup(index, f.value.0, f.value.1, query);
      InsertLookup(Insert(index, f.value.0, f.value.1), f.value.0, f.value.1, query);
    }
  }

  /** An enrollment files its key twice. */
  lemma ReceivedFiles(s: Settings, t: Tables, e: Event)
    requires e.Received?
    ensures Step(s, t, e).tables.index == WithFiled(WithFiled(t.index, Files(s, t, e)), Files(s, t, e))
  {
    ReceivedIndex(s, t, e);
  }

  lemma IndexStep(s: Settings, t: Tables, e: Event, text: string)
    ensures Get(Step(s, t, e).tables.index, text) == Apply(Get(t.index, text), FilesFor(s, t, e, text))
  {
    var index, f := Step(s, t, e).tables.index, Files(s, t, e);
    assert index == WithFiled(t.index, f) || index == WithFiled(WithFiled(t.index, f), f) by {
      if e.Received? {
        ReceivedFiles(s, t, e);
      } else {
        FiledIndex(s, t, e);
      }
    }
    LookupFiled(t.index, f, text);
  }

  ghost predicate FilesAt(s: Settings, es: seq<Event>, m: nat, text: string)
    requires m < |es|
  {
    FilesFor(s, After(s, es[..m]), es[m], text).Put?
  }

  /** Event `j` filed `device` for the key of `text`, and no later event filed that key again. */
  ghost predicate FiledLast(s: Settings, es: seq<Event>, j: nat, text: string, device: DeviceId) {
    && j < |es| && FilesFor(s, After(s, es[..j]), es[j], text) == Put(device)
    && forall m {:trigger FilesAt(s, es, m, text)} :: j < m < |es| ==> !FilesAt(s, es, m, text)
  }

  ghost function FileOps(s: Settings, es: seq<Event>, text: string): (ops: seq<Op<DeviceId>>)
    ensures |ops| == |es|
  {
    Ops(s, es, (t, e) => FilesFor(s, t, e, text))
  }

  lemma FileOpsAt(s: Settings, es: seq<Event>, text: string, i: nat)
    requires i < |es|
    ensures FileOps(s, es, text)[i] == FilesFor(s, After(s, es[..i]), es[i], text)
  {
    OpsOfRun(s, es, (t, e) => FilesFor(s, t, e, text), i);
  }

  lemma {:induction false} IndexTrace(s: Settings, es: seq<Event>, text: string, device: DeviceId)
    ensures Get(After(s, es).index, text) == Some(device) <==> Holds(FileOps(s, es, text), device)
  {
    if |es| > 0 {
      var n := |es| - 1;
      IndexTrace(s, es[..n], text, device);
      IndexStep(s, After(s, es[..n]), es[n], text);
      HoldsStep(FileOps(s, es[..n], text), FilesFor(s, After(s, es[..n]), es[n], text), device);
    }
  }

  lemma FiledLastIff(s: Settings, es: seq<Event>, j: nat, text: string, device: DeviceId)
    ensures LastWrite(FileOps(s, es, text), j, device) <==> FiledLast(s, es, j, text, device)
  {
    var ops := FileOps(s, es, text);
    forall m | 0 <= m < |es|
      ensures ops[m] == FilesFor(s, After(s, es[..m]), es[m], text) && (ops[m].Keep? <==> !FilesAt(s, es, m, text))
    {
      FileOpsAt(s, es, text, m);
    }
  }

  /** Over every run: a text leads to a device exactly when the last event that filed its key, under
      whatever spelling, filed that device. */
  lemma IndexIff(s: Settings, es: seq<Event>, text: string, device: DeviceId)
    ensures Get(After(s, es).index, text) == Some(device) <==> exists j: nat :: FiledLast(s, es, j, text, device)
  {
    IndexTrace(s, es, text, device);
    forall j: nat
      ensures LastWrite(FileOps(s, es, text), j, device) <==> FiledLast(s, es, j, text, device)
    {
      FiledLastIff(s, es, j, text, device);
    }
  }

  // ---------------------------------------------------------------- the devices' senders

  ghost function SenderOf(t: Tables, device: DeviceId): Option<Sender> {
    if device in t.devices then t.devices[device].tlsSender else None
  }

  /** What event `e` does to the device's sender. */
  ghost function SenderOp(s: Settings, t: Tables, e: Event, device: DeviceId): Op<Sender> {
    match e
    case Ready(conn, tlsKey, _) =>
      if tlsKey != [] && device in t.devices && Get(t.index, Encode(Standard, tlsKey)) == Some(device)
      then Put(Sender(conn)) else Keep
    case Disconnected(conn) => if Get(t.bound, conn) == Some(device) then Clear else Keep
    case _ =>
      match Binds(s, t, e)
      case Some(Binding(conn, id, origin)) =>
        if id == device && conn in t.pending && (origin.ByEnrollment? || device in t.devices)
        then Put(t.pending[conn]) else Keep
      case None => Keep
  }

  lemma ReadySender(t: Tables, conn: ConnId, tlsKey: Bytes, w: World, device: DeviceId)
    requires SpellingBlind(t.index)
    ensures SenderOf(OnReady(t, conn, tlsKey, w), device) ==
      if tlsKey != [] && device in t.devices && Get(t.index, Encode(Standard, tlsKey)) == Some(device)
      then Some(Sender(conn)) else SenderOf(t, device)
  {
    var texts := [Encode(Standard, tlsKey), Encode(UrlSafe, tlsKey)];
    SpellingsShareName(tlsKey);
    FirstKnownBlind(t.index, texts, Encode(Standard, tlsKey));
  }

  lemma ActivatedSender(t: Tables, conn: ConnId, id: DeviceId, key: string, now: Millis, device: DeviceId)
    ensures SenderOf(Activated(t, conn, id, key, now), device) ==
      if id == device && conn in t.pending && device in t.devices then Some(t.pending[conn]) else SenderOf(t, device)
  {
  }

  lemma RegisteredSender(t: Tables, id: DeviceId, key: string, now: Millis, device: DeviceId)
    ensures SenderOf(Registered(t, id, key, now), device) == SenderOf(t, device)
    ensures id in Registered(t, id, key, now).devices
  {
  }

  lemma ResponseSender(s: Settings, t: Tables, conn: ConnId, signature: Bytes, w: World, device: DeviceId)
    ensures SenderOf(OnResponse(s, t, conn, signature, w).tables, device) ==
      match ProvenKey(s, t, conn, signature, w.now) {
        case None => SenderOf(t, device)
        case Some(key) =>
          if Enrollee(w, key) == Some(device) && conn in t.pending then Some(t.pending[conn]) else SenderOf(t, device)
      }
  {
    var taken := t.(challenges := t.challenges - {conn});
    var key := ProvenKey(s, t, conn, signature, w.now);
    if key.Some? && Enrollee(w, key.value).Some? {
      var id, text := Enrollee(w, key.value).value, Encode(Standard, key.value);
      RegisteredSender(taken, id, text, w.now, device);
      ActivatedSender(Registered(taken, id, text, w.now), conn, id, text, w.now, device);
    }
  }

  ghost predicate SameSenders(t: Tables, r: Tables) {
    && r.devices.Keys == t.devices.Keys
    && forall d :: d in t.devices ==> r.devices[d].tlsSender == t.devices[d].tlsSender
  }

  lemma QuietReply(s: Settings, t: Tables, conn: ConnId, tlsKey: Bytes, msg: ClientMessage, w: World)
    requires !msg.ChallengeResponse?
    ensures SameSenders(t, OnMessage(s, t, conn, tlsKey, msg, w).tables)
  {
    if !msg.Heartbeat? {
      assert OnMessage(s, t, conn, tlsKey, msg, w).tables.devices == t.devices;
    }
  }

  lemma QuietMessage(s: Settings, t: Tables, e: Event)
    requires e.Received? && !(e.msg.Some? && e.msg.value.ChallengeResponse?)
    ensures Binds(s, t, e) == None
    ensures SameSenders(t, Step(s, t, e).tables)
  {
    if e.msg.Some? {
      QuietReply(s, t, e.conn, e.tlsKey, e.msg.value, e.w);
    }
  }

  lemma ResponseBinds(s: Settings, t: Tables, e: Event)
    requires e.Received? && e.msg.Some? && e.msg.value.ChallengeResponse?
    ensures Step(s, t, e) == OnResponse(s, t, e.conn, e.msg.value.signature, e.w)
    ensures Binds(s, t, e) ==
      match ProvenKey(s, t, e.conn, e.msg.value.signature, e.w.now) {
        case None => None
        case Some(key) =>
          if Enrollee(e.w, key).Some? then Some(Binding(e.conn, Enrollee(e.w, key).value, ByEnrollment(key))) else None
      }
  {
  }

  lemma ReceivedSender(s: Settings, t: Tables, e: Event, device: DeviceId)
    requires e.Received?
    ensures SenderOf(Step(s, t, e).tables, device) == Apply(SenderOf(t, device), SenderOp(s, t, e, device))
  {
    if e.msg.Some? && e.msg.value.ChallengeResponse? {
      ResponseBinds(s, t, e);
      ResponseSender(s, t, e.conn, e.msg.value.signature, e.w, device);
    } else {
      QuietMessage(s, t, e);
    }
  }

  lemma AdoptedSender(s: Settings, t: Tables, e: Event, device: DeviceId)
    requires e.DeployBind?
    ensures SenderOf(Step(s, t, e).tables, device) == Apply(SenderOf(t, device), SenderOp(s, t, e, device))
  {
    if Adoptable(t, e.id, e.storedKey).Some? {
      ActivatedSender(t, Adoptable(t, e.id, e.storedKey).value, e.id, e.storedKey.value, e.w.now, device);
    }
  }

  lemma ConnectedSender(s: Settings, t: Tables, tlsKey: Bytes, w: World, device: DeviceId)
    ensures SenderOf(OnConnect(s, t, tlsKey, w).0, device) == SenderOf(t, device)
  {
    if w.listing.Some? && Find(w.listing.value, tlsKey).Some? {
      RegisteredSender(t, Find(w.listing.value, tlsKey).value.name, Encode(UrlSafe, tlsKey), w.now, device);
    }
  }

  lemma RemovedSender(s: Settings, t: Tables, e: Event, device: DeviceId)
    requires e.Disconnected?
    ensures SenderOf(Step(s, t, e).tables, device) == Apply(SenderOf(t, device), SenderOp(s, t, e, device))
  {
    assert Step(s, t, e).tables == Removed(t, e.conn);
  }

  lemma SenderStep(s: Settings, t: Tables, e: Event, device: DeviceId)
    requires SpellingBlind(t.index)
    ensures SenderOf(Step(s, t, e).tables, device) == Apply(SenderOf(t, device), SenderOp(s, t, e, device))
  {
    match e
    case Connecting(tlsKey, w) => ConnectedSender(s, t, tlsKey, w, device);
    case Ready(conn, tlsKey, w) => ReadySender(t, conn, tlsKey, w, device);
    case Received(_, _, _, _) => ReceivedSender(s, t, e, device);
    case Disconnected(conn) => RemovedSender(s, t, e, device);
    case HttpRegister(d, w) => RegisteredSender(t, d.name, d.publicKey, w.now, device);
    case DeployBind(_, _, _) => AdoptedSender(s, t, e, device);
  }

  ghost predicate Rewires(s: Settings, es: seq<Event>, m: nat, device: DeviceId)
    requires m < |es|
  {
    !SenderOp(s, After(s, es[..m]), es[m], device).Keep?
  }

  /** Event `j` gave `conn`'s sender to the device, and no later event replaced or cleared it. */
  ghost predicate WiredLast(s: Settings, es: seq<Event>, j: nat, device: DeviceId, conn: ConnId) {
    && j < |es| && SenderOp(s, After(s, es[..j]), es[j], device) == Put(Sender(conn))
    && forall m {:trigger Rewires(s, es, m, device)} :: j < m < |es| ==> !Rewires(s, es, m, device)
  }

  ghost function SenderOps(s: Settings, es: seq<Event>, device: DeviceId): (ops: seq<Op<Sender>>)
    ensures |ops| == |es|
  {
    Ops(s, es, (t, e) => SenderOp(s, t, e, device))
  }

  lemma SenderOpsAt(s: Settings, es: seq<Event>, device: DeviceId, i: nat)
    requires i < |es|
    ensures SenderOps(s, es, device)[i] == SenderOp(s, After(s, es[..i]), es[i], device)
  {
    OpsOfRun(s, es, (t, e) => SenderOp(s, t, e, device), i);
  }

  lemma {:induction false} SenderTrace(s: Settings, es: seq<Event>, device: DeviceId, sender: Sender)
    ensures SenderOf(After(s, es), device) == Some(sender) <==> Holds(SenderOps(s, es, device), sender)
  {
    if |es| > 0 {
      var n := |es| - 1;
      SenderTrace(s, es[..n], device, sender);
      AlwaysWired(s, es[..n]);
      SenderStep(s, After(s, es[..n]), es[n], device);
      HoldsStep(SenderOps(s, es[..n], device), SenderOp(s, After(s, es[..n]), es[n], device), sender);
    }
  }

  lemma WiredLastIff(s: Settings, es: seq<Event>, j: nat, device: DeviceId, conn: ConnId)
    ensures LastWrite(SenderOps(s, es, device), j, Sender(conn)) <==> WiredLast(s, es, j, device, conn)
  {
    var ops := SenderOps(s, es, device);
    forall m | 0 <= m < |es|
      ensures ops[m] == SenderOp(s, After(s, es[..m]), es[m], device) && (ops[m].Keep? <==> !Rewires(s, es, m, device))
    {
      SenderOpsAt(s, es, device, m);
    }
  }

  /** Over every run: a device has a connection's sender exactly when an event wired it, by
      certificate, enrollment or adoption, and none replaced it or closed a connection bound to the
      device since. */
  lemma SenderIff(s: Settings, es: seq<Event>, device: DeviceId, conn: ConnId)
    ensures Sends(After(s, es), device, conn) <==> exists j: nat :: WiredLast(s, es, j, device, conn)
  {
    SenderTrace(s, es, device, Sender(conn));
    forall j: nat
      ensures LastWrite(SenderOps(s, es, device), j, Sender(conn)) <==> WiredLast(s, es, j, device, conn)
    {
      WiredLastIff(s, es, j, device, conn);
    }
  }

  // ---------------------------------------------------------------- closed connections

  lemma NoRewiring(s: Settings, es: seq<Event>, device: DeviceId, conn: ConnId)
    requires |es| > 0
    requires var n := |es| - 1; Forgotten(After(s, es[..n]), conn) && !Mentions(es[n], conn)
    ensures var n := |es| - 1; SenderOp(s, After(s, es[..n]), es[n], device) != Put(Sender(conn))
  {
    var n := |es| - 1;
    var t := After(s, es[..n]);
    if Binds(s, t, es[n]).Some? {
      PendingTrace(s, es[..n], Binds(s, t, es[n]).value.conn);
    }
  }

  /** Over every run: after its close at event `i`, a connection that is not heard of again keeps its
      sender on a device exactly when the device had it, was not the one the connection was bound to,
      and no later event rewires the device. */
  lemma {:induction false} ClosedSenderIff(s: Settings, es: seq<Event>, i: nat, device: DeviceId, conn: ConnId)
    requires i < |es| && es[i] == Disconnected(conn)
    requires forall m :: i < m < |es| ==> !Mentions(es[m], conn)
    ensures Sends(After(s, es), device, conn) <==>
      && Sends(After(s, es[..i]), device, conn) && Get(After(s, es[..i]).bound, conn) != Some(device)
      && forall m {:trigger Rewires(s, es, m, device)} :: i < m < |es| ==> !Rewires(s, es, m, device)
  {
    var n := |es| - 1;
    if i == n {
      CloseKeepsIff(s, es, n, device, conn);
    } else {
      ClosedSenderIff(s, es[..n], i, device, conn);
      assert Sends(After(s, es), device, conn) <==>
        Sends(After(s, es[..n]), device, conn) && !Rewires(s, es, n, device) by {
        ClosedStep(s, es, i, n, device, conn);
      }
      RewiresPrefix(s, es, n, device);
      assert es[..n][..i] == es[..i];
    }
  }

  lemma ClosedStep(s: Settings, es: seq<Event>, i: nat, n: nat, device: DeviceId, conn: ConnId)
    requires i < n && |es| == n + 1 && es[i] == Disconnected(conn)
    requires forall m :: i < m < |es| ==> !Mentions(es[m], conn)
    ensures Sends(After(s, es), device, conn) <==>
      Sends(After(s, es[..n]), device, conn) && !Rewires(s, es, n, device)
  {
    var t, r := After(s, es[..n]), After(s, es);
    var op := SenderOp(s, t, es[n], device);
    assert SenderOf(r, device) == Apply(SenderOf(t, device), op) by {
      AlwaysWired(s, es[..n]);
      SenderStep(s, t, es[n], device);
    }
    assert op != Put(Sender(conn)) by {
      DisconnectedIsForgotten(s, es[..n], i, conn);
      NoRewiring(s, es, device, conn);
    }
    assert Rewires(s, es, n, device) <==> !op.Keep?;
  }

  lemma CloseKeepsIff(s: Settings, es: seq<Event>, n: nat, device: DeviceId, conn: ConnId)
    requires |es| == n + 1 && es[n] == Disconnected(conn)
    ensures Sends(After(s, es), device, conn) <==>
      Sends(After(s, es[..n]), device, conn) && Get(After(s, es[..n]).bound, conn) != Some(device)
  {
    AlwaysWired(s, es[..n]);
    SenderStep(s, After(s, es[..n]), es[n], device);
  }

  lemma RewiresPrefix(s: Settings, es: seq<Event>, n: nat, device: DeviceId)
    requires n <= |es|
    ensures forall m :: 0 <= m < n ==> (Rewires(s, es[..n], m, device) <==> Rewires(s, es, m, device))
  {
    forall m | 0 <= m < n
      ensures Rewires(s, es[..n], m, device) <==> Rewires(s, es, m, device)
    {
      assert es[..n][..m] == es[..m];
    }
  }

  // ---------------------------------------------------------------- registered devices

  /** Event `e` registers `device`. */
  ghost predicate Admits(s: Settings, t: Tables, e: Event, device: DeviceId) {
    Files(s, t, e).Some? && Files(s, t, e).value.1 == device && !e.DeployBind?
  }

  lemma ResponseKeepsDevices(s: Settings, t: Tables, conn: ConnId, signature: Bytes, w: World, device: DeviceId)
    requires
      || device in t.devices
      || (ProvenKey(s, t, conn, signature, w.now).Some?
          && Enrollee(w, ProvenKey(s, t, conn, signature, w.now).value) == Some(device))
    ensures device in OnResponse(s, t, conn, signature, w).tables.devices
  {
  }

  lemma StepKeepsDevices(s: Settings, t: Tables, e: Event, device: DeviceId)
    requires device in t.devices || Admits(s, t, e, device)
    ensures device in Step(s, t, e).tables.devices
  {
    match e
    case Connecting(tlsKey, w) => assert Step(s, t, e).tables == OnConnect(s, t, tlsKey, w).0;
    case Ready(conn, tlsKey, w) => assert Step(s, t, e).tables == OnReady(t, conn, tlsKey, w);
    case Received(conn, _, msg, w) =>
      if msg.Some? && msg.value.ChallengeResponse? {
        ResponseBinds(s, t, e);
        ResponseKeepsDevices(s, t, conn, msg.value.signature, w, device);
      } else {
        QuietMessage(s, t, e);
      }
    case Disconnected(conn) => assert Step(s, t, e).tables == Removed(t, conn);
    case HttpRegister(d, w) => assert Step(s, t, e).tables == Registered(t, d.name, d.publicKey, w.now);
    case DeployBind(id, storedKey, w) => assert Step(s, t, e).tables == Adopted(t, id, storedKey, w.now);
  }

  ghost predicate KeptBy(s: Settings, p: Tables -> bool, t: Tables, e: Event) { p(t) ==> p(Step(s, t, e).tables) }

  /** What every step keeps, a run keeps. */
  lemma {:induction false} KeptAlong(s: Settings, es: seq<Event>, from: nat, p: Tables -> bool)
    requires forall t, e :: KeptBy(s, p, t, e)
    requires from <= |es| && p(After(s, es[..from]))
    ensures p(After(s, es))
  {
    if from == |es| {
      assert es[..from] == es;
    } else {
      var n := |es| - 1;
      assert es[..n][..from] == es[..from];
      KeptAlong(s, es[..n], from, p);
      assert KeptBy(s, p, After(s, es[..n]), es[n]);
    }
  }

  lemma DeviceStays(s: Settings, es: seq<Event>, i: nat, device: DeviceId)
    requires i < |es| && Admits(s, After(s, es[..i]), es[i], device)
    ensures device in After(s, es).devices
  {
    StepKeepsDevices(s, After(s, es[..i]), es[i], device);
    AfterNext(s, es, i);
    var known := (t: Tables) => device in t.devices;
    forall t: Tables, e
      ensures KeptBy(s, known, t, e)
    {
      if device in t.devices {
        StepKeepsDevices(s, t, e, device);
      }
    }
    KeptAlong(s, es, i + 1, known);
  }

  /** Over every run: a device that was registered at event `i`, and was the last filed for a key at
      event `j`, gets the sender of every connection that becomes ready with that key. */
  lemma RegisteredIsFound(s: Settings, es: seq<Event>, i: nat, j: nat, key: Bytes, device: DeviceId,
                          conn: ConnId, w: World)
    requires i < |es| && Admits(s, After(s, es[..i]), es[i], device)
    requires FiledLast(s, es, j, Encode(Standard, key), device) && key != []
    ensures Sends(After(s, es + [Ready(conn, key, w)]), device, conn)
  {
    DeviceStays(s, es, i, device);
    IndexIff(s, es, Encode(Standard, key), device);
    AlwaysWired(s, es);
    assert (es + [Ready(conn, key, w)])[..|es|] == es;
    ReadySender(After(s, es), conn, key, w, device);
  }
}
