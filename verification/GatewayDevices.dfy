/** What the gateway's device entries hold over whole runs: the key text, the last heartbeat and the
    time of the connection, each read off the events. */
module GatewayDevices {
  import opened Prelude
  import opened Registers
  import opened Base64
  import opened KeyIndex
  import opened Messages
  import opened GatewayTables
  import opened Gateway
  import opened GatewayRuns
  import opened GatewaySenders

  // ---------------------------------------------------------------- entries

  /** Three fields of an entry. */
  datatype Info = Info(key: string, beat: Millis, since: Millis)

  ghost function InfoOf(t: Tables, d: DeviceId): Option<Info> {
    if d in t.devices
    then Some(Info(t.devices[d].publicKey, t.devices[d].lastHeartbeat, t.devices[d].connectedSince))
    else None
  }

  /** An entry once the device is registered. */
  function Entered(was: Option<Info>, key: string, now: Millis): Info {
    Info(key, now, if was.Some? then was.value.since else now)
  }

  lemma RegisteredInfo(t: Tables, id: DeviceId, key: string, now: Millis, d: DeviceId)
    ensures InfoOf(Registered(t, id, key, now), d) ==
      if d == id then Some(Entered(InfoOf(t, d), key, now)) else InfoOf(t, d)
  {
  }

  lemma SenderInfo(t: Tables, id: DeviceId, sender: Sender, now: Millis, d: DeviceId)
    ensures InfoOf(WithSender(t, id, sender, now), d) ==
      if d == id && d in t.devices then Some(InfoOf(t, d).value.(since := now)) else InfoOf(t, d)
  {
  }

  lemma ActivatedInfo(t: Tables, conn: ConnId, id: DeviceId, key: string, now: Millis, d: DeviceId)
    ensures InfoOf(Activated(t, conn, id, key, now), d) ==
      if d == id && d in t.devices && conn in t.pending then Some(InfoOf(t, d).value.(since := now)) else InfoOf(t, d)
  {
    var moved := t.(
      pending := t.pending - {conn}, bound := t.bound[conn := id], index := Insert(t.index, key, id));
    if conn in t.pending {
      SenderInfo(moved, id, t.pending[conn], now, d);
    }
  }

  // ---------------------------------------------------------------- what an event does

  /** Event `e` is a heartbeat of `d`: its connection is bound to `d`, or not bound while its
      certificate's key leads to `d`. */
  ghost predicate BeatsFor(t: Tables, e: Event, d: DeviceId) {
    && e.Received? && e.msg.Some? && e.msg.value.Heartbeat? && d in t.devices
    && if e.conn in t.bound then t.bound[e.conn] == d
       else e.tlsKey != [] && Get(t.index, Encode(Standard, e.tlsKey)) == Some(d)
  }

  ghost function KeyOp(s: Settings, t: Tables, e: Event, d: DeviceId): Op<string> {
    if Admits(s, t, e, d) then Put(Files(s, t, e).value.0) else Keep
  }

  ghost function BeatOp(s: Settings, t: Tables, e: Event, d: DeviceId): Op<Millis> {
    if !e.Disconnected? && (Admits(s, t, e, d) || BeatsFor(t, e, d)) then Put(e.w.now) else Keep
  }

  ghost function SinceOp(s: Settings, t: Tables, e: Event, d: DeviceId): Op<Millis> {
    if !e.Disconnected? && (SenderOp(s, t, e, d).Put? || (Admits(s, t, e, d) && d !in t.devices)) then Put(e.w.now)
    else Keep
  }

  ghost predicate MovesInfo(s: Settings, t: Tables, e: Event, d: DeviceId, r: Tables) {
    var was, now := InfoOf(t, d), InfoOf(r, d);
    && (now.Some? <==> was.Some? || Admits(s, t, e, d))
    && (now.Some? ==> Apply(if was.Some? then Some(was.value.key) else None, KeyOp(s, t, e, d)) == Some(now.value.key))
    && (now.Some? ==>
          Apply(if was.Some? then Some(was.value.beat) else None, BeatOp(s, t, e, d)) == Some(now.value.beat))
    && (now.Some? ==>
          Apply(if was.Some? then Some(was.value.since) else None, SinceOp(s, t, e, d)) == Some(now.value.since))
  }

  lemma ConnectInfo(s: Settings, t: Tables, e: Event, d: DeviceId)
    requires e.Connecting?
    ensures MovesInfo(s, t, e, d, OnConnect(s, t, e.tlsKey, e.w).0)
  {
    var f := Files(s, t, e);
    ConnectOps(s, t, e, d);
    if f.Some? {
      RegisteredInfo(t, f.value.1, f.value.0, e.w.now, d);
    }
    assert OnConnect(s, t, e.tlsKey, e.w).0 == if f.Some? then Registered(t, f.value.1, f.value.0, e.w.now) else t;
  }

  lemma ConnectOps(s: Settings, t: Tables, e: Event, d: DeviceId)
    requires e.Connecting?
    ensures var f := Files(s, t, e);
      && (Admits(s, t, e, d) <==> f.Some? && f.value.1 == d)
      && KeyOp(s, t, e, d) == (if f.Some? && f.value.1 == d then Put(f.value.0) else Keep)
      && BeatOp(s, t, e, d) == (if f.Some? && f.value.1 == d then Put(e.w.now) else Keep)
      && SinceOp(s, t, e, d) == (if f.Some? && f.value.1 == d && d !in t.devices then Put(e.w.now) else Keep)
  {
    assert Binds(s, t, e) == None;
  }

  lemma ReadyInfo(s: Settings, t: Tables, e: Event, d: DeviceId)
    requires e.Ready? && SpellingBlind(t.index)
    ensures MovesInfo(s, t, e, d, OnReady(t, e.conn, e.tlsKey, e.w))
  {
    var parked := t.(pending := t.pending[e.conn := Sender(e.conn)]);
    var texts := [Encode(Standard, e.tlsKey), Encode(UrlSafe, e.tlsKey)];
    SpellingsShareName(e.tlsKey);
    FirstKnownBlind(t.index, texts, Encode(Standard, e.tlsKey));
    if e.tlsKey != [] && FirstKnown(t.index, texts).Some? {
      SenderInfo(parked, FirstKnown(t.index, texts).value, Sender(e.conn), e.w.now, d);
    }
    ReadyOps(s, t, e, d);
  }

  lemma ReadyOps(s: Settings, t: Tables, e: Event, d: DeviceId)
    requires e.Ready?
    ensures !Admits(s, t, e, d) && KeyOp(s, t, e, d).Keep? && BeatOp(s, t, e, d).Keep?
    ensures SinceOp(s, t, e, d) ==
      if e.tlsKey != [] && d in t.devices && Get(t.index, Encode(Standard, e.tlsKey)) == Some(d) then Put(e.w.now)
      else Keep
  {
    assert Binds(s, t, e) == None;
  }

  lemma AdoptOps(s: Settings, t: Tables, e: Event, d: DeviceId)
    requires e.DeployBind?
    ensures !Admits(s, t, e, d) && KeyOp(s, t, e, d).Keep? && BeatOp(s, t, e, d).Keep?
    ensures var conn := Adoptable(t, e.id, e.storedKey);
      SinceOp(s, t, e, d) ==
        if conn.Some? && e.id == d && conn.value in t.pending && d in t.devices then Put(e.w.now) else Keep
  {
  }

  lemma AdoptInfo(s: Settings, t: Tables, e: Event, d: DeviceId)
    requires e.DeployBind?
    ensures MovesInfo(s, t, e, d, Adopted(t, e.id, e.storedKey, e.w.now))
  {
    if Adoptable(t, e.id, e.storedKey).Some? {
      ActivatedInfo(t, Adoptable(t, e.id, e.storedKey).value, e.id, e.storedKey.value, e.w.now, d);
    }
    AdoptOps(s, t, e, d);
  }

  lemma EnrolledInfo(t: Tables, conn: ConnId, id: DeviceId, key: Bytes, now: Millis, d: DeviceId)
    ensures InfoOf(Enrolled(t, conn, id, key, now), d) ==
      if d != id then InfoOf(t, d)
      else
        var entered := Entered(InfoOf(t, d), Encode(Standard, key), now);
        Some(if conn in t.pending then entered.(since := now) else entered)
  {
    var text := Encode(Standard, key);
    RegisteredInfo(t, id, text, now, d);
    ActivatedInfo(Registered(t, id, text, now), conn, id, text, now, d);
  }

  lemma ResponseInfo(s: Settings, t: Tables, e: Event, d: DeviceId)
    requires e.Received? && e.msg.Some? && e.msg.value.ChallengeResponse?
    ensures MovesInfo(s, t, e, d, Step(s, t, e).tables)
  {
    ResponseBinds(s, t, e);
    var taken := t.(challenges := t.challenges - {e.conn});
    var key := ProvenKey(s, t, e.conn, e.msg.value.signature, e.w.now);
    if key.Some? && Enrollee(e.w, key.value).Some? {
      var id := Enrollee(e.w, key.value).value;
      EnrolledInfo(taken, e.conn, id, key.value, e.w.now, d);
      ResponseOps(s, t, e, key.value, id, d);
      assert Step(s, t, e).tables == Enrolled(taken, e.conn, id, key.value, e.w.now);
    } else {
      assert Step(s, t, e).tables == taken;
    }
  }

  lemma ResponseOps(s: Settings, t: Tables, e: Event, key: Bytes, id: DeviceId, d: DeviceId)
    requires e.Received? && e.msg.Some? && e.msg.value.ChallengeResponse?
    requires Binds(s, t, e) == Some(Binding(e.conn, id, ByEnrollment(key)))
    ensures KeyOp(s, t, e, d) == (if d == id then Put(Encode(Standard, key)) else Keep)
    ensures BeatOp(s, t, e, d) == (if d == id then Put(e.w.now) else Keep)
    ensures SinceOp(s, t, e, d) ==
      if d == id && (e.conn in t.pending || d !in t.devices) then Put(e.w.now) else Keep
    ensures Admits(s, t, e, d) <==> d == id
  {
  }

  lemma HeartbeatOps(s: Settings, t: Tables, e: Event, d: DeviceId)
    requires e.Received? && e.msg.Some? && e.msg.value.Heartbeat?
    ensures !Admits(s, t, e, d) && KeyOp(s, t, e, d).Keep? && SinceOp(s, t, e, d).Keep?
    ensures BeatOp(s, t, e, d) == if BeatsFor(t, e, d) then Put(e.w.now) else Keep
  {
    assert Binds(s, t, e) == None;
  }

  /** A heartbeat reaches the device of its connection, or else the one its key leads to. */
  lemma ResolvedIff(t: Tables, e: Event, d: DeviceId)
    requires e.Received? && e.msg.Some? && e.msg.value.Heartbeat? && SpellingBlind(t.index)
    ensures Resolve(t, e.conn, Encode(Standard, e.tlsKey)) == Some(d) && d in t.devices <==> BeatsFor(t, e, d)
  {
    var text := Encode(Standard, e.tlsKey);
    EmptyText(e.tlsKey);
    VariantsShareName(text);
    FirstKnownBlind(t.index, Variants(text), text);
  }

  lemma BeatInfo(t: Tables, id: Option<DeviceId>, now: Millis, d: DeviceId)
    ensures InfoOf(if id.Some? then Beat(t, id.value, now) else t, d) ==
      if id == Some(d) && d in t.devices then Some(InfoOf(t, d).value.(beat := now)) else InfoOf(t, d)
  {
  }

  lemma HeartbeatInfo(s: Settings, t: Tables, e: Event, d: DeviceId)
    requires e.Received? && e.msg.Some? && e.msg.value.Heartbeat? && SpellingBlind(t.index)
    ensures MovesInfo(s, t, e, d, Step(s, t, e).tables)
  {
    var id := Resolve(t, e.conn, Encode(Standard, e.tlsKey));
    assert Step(s, t, e).tables == if id.Some? then Beat(t, id.value, e.w.now) else t;
    ResolvedIff(t, e, d);
    BeatInfo(t, id, e.w.now, d);
    HeartbeatOps(s, t, e, d);
  }

  lemma EmptyText(key: Bytes)
    ensures Encode(Standard, key) == "" <==> key == []
  {
  }

  lemma VariantsShareName(text: string)
    ensures text in Variants(text)
    ensures forall t :: t in Variants(text) ==> NameOf(t) == NameOf(text)
  {
    VariantsAreSpellings(text, text);
    forall t | t in Variants(text)
      ensures NameOf(t) == NameOf(text)
    {
      VariantsAreSpellings(text, t);
    }
  }

  lemma OtherInfo(s: Settings, t: Tables, e: Event, d: DeviceId)
    requires e.Received? && (e.msg.None? || (!e.msg.value.Heartbeat? && !e.msg.value.ChallengeResponse?))
    ensures MovesInfo(s, t, e, d, Step(s, t, e).tables)
  {
    assert Step(s, t, e).tables.devices == t.devices;
  }

  lemma InfoStep(s: Settings, t: Tables, e: Event, d: DeviceId)
    requires SpellingBlind(t.index)
    ensures MovesInfo(s, t, e, d, Step(s, t, e).tables)
  {
    match e
    case Connecting(_, _) => ConnectInfo(s, t, e, d);
    case Ready(_, _, _) => ReadyInfo(s, t, e, d);
    case Received(_, _, msg, _) =>
      if msg.Some? && msg.value.ChallengeResponse? {
        ResponseInfo(s, t, e, d);
      } else if msg.Some? && msg.value.Heartbeat? {
        HeartbeatInfo(s, t, e, d);
      } else {
        OtherInfo(s, t, e, d);
      }
    case Disconnected(conn) => RemovedInfo(s, t, e, d);
    case HttpRegister(device, w) => RegisteredInfo(t, device.name, device.publicKey, w.now, d);
    case DeployBind(_, _, _) => AdoptInfo(s, t, e, d);
  }

  lemma RemovedInfo(s: Settings, t: Tables, e: Event, d: DeviceId)
    requires e.Disconnected?
    ensures MovesInfo(s, t, e, d, Removed(t, e.conn))
  {
  }

  // ---------------------------------------------------------------- over every run

  ghost function KeyOps(s: Settings, es: seq<Event>, d: DeviceId): seq<Op<string>> {
    Ops(s, es, (t, e) => KeyOp(s, t, e, d))
  }

  ghost function BeatOps(s: Settings, es: seq<Event>, d: DeviceId): seq<Op<Millis>> {
    Ops(s, es, (t, e) => BeatOp(s, t, e, d))
  }

  ghost function SinceOps(s: Settings, es: seq<Event>, d: DeviceId): seq<Op<Millis>> {
    Ops(s, es, (t, e) => SinceOp(s, t, e, d))
  }

  /** The device's key text is the one it was last registered or enrolled under. */
  lemma {:induction false} KeyTextIff(s: Settings, es: seq<Event>, d: DeviceId, text: string)
    ensures var i := InfoOf(After(s, es), d); i.Some? && i.value.key == text <==> Holds(KeyOps(s, es, d), text)
  {
    if |es| > 0 {
      var n := |es| - 1;
      KeyTextIff(s, es[..n], d, text);
      AlwaysWired(s, es[..n]);
      InfoStep(s, After(s, es[..n]), es[n], d);
      HoldsStep(KeyOps(s, es[..n], d), KeyOp(s, After(s, es[..n]), es[n], d), text);
    }
  }

  /** Its last heartbeat is the time of the last registration, enrollment or heartbeat message of it. */
  lemma {:induction false} LastHeartbeatIff(s: Settings, es: seq<Event>, d: DeviceId, time: Millis)
    ensures var i := InfoOf(After(s, es), d); i.Some? && i.value.beat == time <==> Holds(BeatOps(s, es, d), time)
  {
    if |es| > 0 {
      var n := |es| - 1;
      LastHeartbeatIff(s, es[..n], d, time);
      AlwaysWired(s, es[..n]);
      InfoStep(s, After(s, es[..n]), es[n], d);
      HoldsStep(BeatOps(s, es[..n], d), BeatOp(s, After(s, es[..n]), es[n], d), time);
    }
  }

  /** Its connection time is that of the last event that gave it a sender, or else of its first registration. */
  lemma {:induction false} ConnectedSinceIff(s: Settings, es: seq<Event>, d: DeviceId, time: Millis)
    ensures var i := InfoOf(After(s, es), d); i.Some? && i.value.since == time <==> Holds(SinceOps(s, es, d), time)
  {
    if |es| > 0 {
      var n := |es| - 1;
      ConnectedSinceIff(s, es[..n], d, time);
      AlwaysWired(s, es[..n]);
      InfoStep(s, After(s, es[..n]), es[n], d);
      HoldsStep(SinceOps(s, es[..n], d), SinceOp(s, After(s, es[..n]), es[n], d), time);
    }
  }
}
