/** What each call of the device status builder stores, with the texts written out, alone and in chains. */
module StatusCalls {
  import opened Prelude
  import opened Registers
  import opened DevicePhases
  import opened StatusPatch

  // ---------------------------------------------------------------- one call

  /** The stored status after a patch of one call. */
  function Stored(doc: Json, c: Call): map<string, Json> { StatusOf(Applied(doc, Chained([c]))) }

  /** A field is as before. */
  ghost predicate Same(doc: Json, c: Call, key: string) { Get(Stored(doc, c), key) == Get(StatusOf(doc), key) }

  /** So is every field that the builder does not know. */
  ghost predicate OthersSame(doc: Json, c: Call) {
    forall k :: k !in {"phase", "gateway", "connected_since", "last_heartbeat"} ==> Same(doc, c, k)
  }

  lemma OneCall(c: Call)
    ensures Chained([c]) == Called(NOTHING, c)
  {
    assert [c][..0] == [];
  }

  lemma OthersStay(doc: Json, c: Call)
    ensures OthersSame(doc, c)
  {
    OneCall(c);
    forall k | k !in {"phase", "gateway", "connected_since", "last_heartbeat"}
      ensures Same(doc, c, k)
    {
      PatchIsFieldwise(doc, Chained([c]), k);
    }
  }

  function TextAfter(was: Option<Json>, edit: Option<Option<Time>>): Option<Json> {
    if edit.None? then was else if edit.value.None? then None else Some(Text(edit.value.value))
  }

  /** The stored fields by the update `u` that the call makes. */
  lemma UpdateStores(doc: Json, c: Call, u: Update)
    requires u == Called(NOTHING, c)
    ensures u.phase.None? ==> Same(doc, c, "phase")
    ensures u.phase.Some? ==> Get(Stored(doc, c), "phase") == Some(Text(PhaseText(u.phase.value)))
    ensures Get(Stored(doc, c), "connected_since") == TextAfter(Get(StatusOf(doc), "connected_since"), u.connectedSince)
    ensures Get(Stored(doc, c), "last_heartbeat") == TextAfter(Get(StatusOf(doc), "last_heartbeat"), u.lastHeartbeat)
    ensures OthersSame(doc, c)
  {
    OneCall(c);
    FieldMeaning(doc, u);
    OthersStay(doc, c);
  }

  lemma UpdateRefers(doc: Json, c: Call, u: Update)
    requires u == Called(NOTHING, c)
    ensures u.gateway.None? ==> Same(doc, c, "gateway")
    ensures u.gateway == Some(None) ==> Get(Stored(doc, c), "gateway") == None
    ensures u.gateway.Some? && u.gateway.value.Some? ==>
      Refers(Get(StatusOf(doc), "gateway"), Get(Stored(doc, c), "gateway"), u.gateway.value.value)
  {
    OneCall(c);
    GatewayMeaning(doc, u);
    if u.gateway.Some? && u.gateway.value.Some? {
      RefStored(Get(StatusOf(doc), "gateway"), u.gateway.value.value);
    }
  }

  /** The gateway field refers to `g` and keeps what the reference does not write. */
  ghost predicate Refers(was: Option<Json>, now: Option<Json>, g: GatewayRef) {
    && now.Some? && now.value.Obj?
    && Get(now.value.fields, "name") == Some(Text(g.name))
    && Get(now.value.fields, "endpoint") == Some(Text(g.endpoint))
    && Get(now.value.fields, "connectedAt") ==
         (if g.connectedAt.Some? then Some(Text(g.connectedAt.value)) else Get(FieldsOf(was), "connectedAt"))
    && forall k :: k !in {"name", "endpoint", "connectedAt"} ==>
         Get(now.value.fields, k) == Get(FieldsOf(was), k)
  }

  lemma RefStored(was: Option<Json>, g: GatewayRef)
    ensures Refers(was, Some(Obj(FieldsOf(was) + RefFields(g))), g)
  {
  }

  lemma SetPhaseStores(doc: Json, p: DevicePhase)
    ensures Get(Stored(doc, SetPhase(p)), "phase") == Some(Text(
      if p.Pending? then "Pending" else if p.Enrolling? then "Enrolling" else if p.Enrolled? then "Enrolled"
      else if p.Connected? then "Connected" else if p.Disconnected? then "Disconnected" else "Unreachable"))
    ensures Same(doc, SetPhase(p), "gateway") && Same(doc, SetPhase(p), "connected_since")
    ensures OthersSame(doc, SetPhase(p))
    ensures Same(doc, SetPhase(p), "last_heartbeat")
  {
    UpdateStores(doc, SetPhase(p), Update(Some(p), None, None, None));
    UpdateRefers(doc, SetPhase(p), Update(Some(p), None, None, None));
  }

  lemma SetGatewayStores(doc: Json, g: Option<GatewayRef>)
    ensures var was, now := Get(StatusOf(doc), "gateway"), Get(Stored(doc, SetGateway(g)), "gateway");
      if g.Some? then Refers(was, now, g.value) else now == None
    ensures Same(doc, SetGateway(g), "phase") && Same(doc, SetGateway(g), "connected_since")
    ensures OthersSame(doc, SetGateway(g))
    ensures Same(doc, SetGateway(g), "last_heartbeat")
  {
    UpdateStores(doc, SetGateway(g), Update(None, Some(g), None, None));
    UpdateRefers(doc, SetGateway(g), Update(None, Some(g), None, None));
  }

  lemma SetConnectedSinceStores(doc: Json, t: Option<Time>)
    ensures Get(Stored(doc, SetConnectedSince(t)), "connected_since") == if t.Some? then Some(Text(t.value)) else None
    ensures Same(doc, SetConnectedSince(t), "phase") && OthersSame(doc, SetConnectedSince(t))
    ensures Same(doc, SetConnectedSince(t), "gateway") && Same(doc, SetConnectedSince(t), "last_heartbeat")
  {
    UpdateStores(doc, SetConnectedSince(t), Update(None, None, Some(t), None));
    UpdateRefers(doc, SetConnectedSince(t), Update(None, None, Some(t), None));
  }

  lemma SetLastHeartbeatStores(doc: Json, t: Option<Time>)
    ensures Get(Stored(doc, SetLastHeartbeat(t)), "last_heartbeat") == if t.Some? then Some(Text(t.value)) else None
    ensures Same(doc, SetLastHeartbeat(t), "phase") && OthersSame(doc, SetLastHeartbeat(t))
    ensures Same(doc, SetLastHeartbeat(t), "gateway") && Same(doc, SetLastHeartbeat(t), "connected_since")
  {
    UpdateStores(doc, SetLastHeartbeat(t), Update(None, None, None, Some(t)));
    UpdateRefers(doc, SetLastHeartbeat(t), Update(None, None, None, Some(t)));
  }

  /** Connected: phase, gateway and connection time; the heartbeat stays. */
  lemma MarkConnectedStores(doc: Json, g: GatewayRef, now: Time)
    ensures var c := MarkConnected(g, now); var s := Stored(doc, c);
      && Get(s, "phase") == Some(Text("Connected")) && Get(s, "connected_since") == Some(Text(now))
      && Refers(Get(StatusOf(doc), "gateway"), Get(s, "gateway"), g)
      && Same(doc, c, "last_heartbeat") && OthersSame(doc, c)
  {
    var c, u := MarkConnected(g, now), Update(Some(Connected), Some(Some(g)), Some(Some(now)), None);
    UpdateStores(doc, c, u);
    UpdateRefers(doc, c, u);
  }

  lemma MarkEnrollingStores(doc: Json)
    ensures Get(Stored(doc, MarkEnrolling), "phase") == Some(Text("Enrolling"))
    ensures Same(doc, MarkEnrolling, "gateway") && Same(doc, MarkEnrolling, "connected_since")
    ensures OthersSame(doc, MarkEnrolling)
    ensures Same(doc, MarkEnrolling, "last_heartbeat")
  {
    UpdateStores(doc, MarkEnrolling, Update(Some(Enrolling), None, None, None));
    UpdateRefers(doc, MarkEnrolling, Update(Some(Enrolling), None, None, None));
  }

  lemma MarkEnrolledStores(doc: Json)
    ensures Get(Stored(doc, MarkEnrolled), "phase") == Some(Text("Enrolled"))
    ensures Same(doc, MarkEnrolled, "gateway") && Same(doc, MarkEnrolled, "connected_since")
    ensures OthersSame(doc, MarkEnrolled)
    ensures Same(doc, MarkEnrolled, "last_heartbeat")
  {
    UpdateStores(doc, MarkEnrolled, Update(Some(Enrolled), None, None, None));
    UpdateRefers(doc, MarkEnrolled, Update(Some(Enrolled), None, None, None));
  }

  /** Disconnected: the gateway and the connection time are gone; the heartbeat stays. */
  lemma MarkDisconnectedStores(doc: Json)
    ensures var s := Stored(doc, MarkDisconnected);
      Get(s, "phase") == Some(Text("Disconnected")) && Get(s, "gateway") == None && Get(s, "connected_since") == None
    ensures Same(doc, MarkDisconnected, "last_heartbeat") && OthersSame(doc, MarkDisconnected)
  {
    UpdateStores(doc, MarkDisconnected, Update(Some(Disconnected), Some(None), Some(None), None));
    UpdateRefers(doc, MarkDisconnected, Update(Some(Disconnected), Some(None), Some(None), None));
  }

  /** Unreachable: the gateway is gone; connection time and heartbeat stay. */
  lemma MarkUnreachableStores(doc: Json)
    ensures var s := Stored(doc, MarkUnreachable);
      Get(s, "phase") == Some(Text("Unreachable")) && Get(s, "gateway") == None
    ensures Same(doc, MarkUnreachable, "connected_since") && Same(doc, MarkUnreachable, "last_heartbeat")
    ensures OthersSame(doc, MarkUnreachable)
  {
    UpdateStores(doc, MarkUnreachable, Update(Some(Unreachable), Some(None), None, None));
    UpdateRefers(doc, MarkUnreachable, Update(Some(Unreachable), Some(None), None, None));
  }

  lemma UpdateHeartbeatStores(doc: Json, now: Time)
    ensures Get(Stored(doc, UpdateHeartbeat(now)), "last_heartbeat") == Some(Text(now))
    ensures Same(doc, UpdateHeartbeat(now), "phase") && Same(doc, UpdateHeartbeat(now), "gateway")
    ensures OthersSame(doc, UpdateHeartbeat(now))
    ensures Same(doc, UpdateHeartbeat(now), "connected_since")
  {
    UpdateStores(doc, UpdateHeartbeat(now), Update(None, None, None, Some(Some(now))));
    UpdateRefers(doc, UpdateHeartbeat(now), Update(None, None, None, Some(Some(now))));
  }

  // ---------------------------------------------------------------- chains

  function AsEdit(op: Op<string>): Option<Json> {
    match op
    case Put(t) => Some(Text(t))
    case Clear => Some(Null)
    case Keep => None
  }

  function AsOp(was: Option<Json>): Op<string> { if was.Some? && was.value.Text? then Put(was.value.text) else Clear }

  /** What the calls of a chain do to a field, after what was stored. */
  function FieldOps(was: Option<Json>, cs: seq<Call>, op: Call -> Op<string>): seq<Op<string>> {
    if |cs| == 0 then [AsOp(was)] else FieldOps(was, cs[..|cs| - 1], op) + [op(cs[|cs| - 1])]
  }

  lemma {:induction false} LastTextIff(
    was: Option<Json>, cs: seq<Call>, key: string, op: Call -> Op<string>, text: string)
    requires forall c :: Edit(Called(NOTHING, c), key) == AsEdit(op(c))
    ensures Edited(was, Last(EditsOf(cs, key))) == Some(Text(text)) <==> Holds(FieldOps(was, cs, op), text)
  {
    if |cs| == 0 {
      assert LastWrite([AsOp(was)], 0, text) <==> AsOp(was) == Put(text);
    } else {
      var n := |cs| - 1;
      LastTextIff(was, cs[..n], key, op, text);
      HoldsStep(FieldOps(was, cs[..n], op), op(cs[n]), text);
      assert EditsOf(cs, key)[..n] == EditsOf(cs[..n], key);
    }
  }

  function PhaseOp(c: Call): Op<string> {
    if c == SetPhase(Pending) then Put("Pending")
    else if c.MarkEnrolling? || c == SetPhase(Enrolling) then Put("Enrolling")
    else if c.MarkEnrolled? || c == SetPhase(Enrolled) then Put("Enrolled")
    else if c.MarkConnected? || c == SetPhase(Connected) then Put("Connected")
    else if c.MarkDisconnected? || c == SetPhase(Disconnected) then Put("Disconnected")
    else if c.MarkUnreachable? || c == SetPhase(Unreachable) then Put("Unreachable")
    else Keep
  }

  function SinceOp(c: Call): Op<string> {
    if c.MarkConnected? then Put(c.now)
    else if c.SetConnectedSince? && c.since.Some? then Put(c.since.value)
    else if c.MarkDisconnected? || c.SetConnectedSince? then Clear
    else Keep
  }

  function BeatOp(c: Call): Op<string> {
    if c.UpdateHeartbeat? then Put(c.now)
    else if c.SetLastHeartbeat? && c.beat.Some? then Put(c.beat.value)
    else if c.SetLastHeartbeat? then Clear
    else Keep
  }

  /** The phase stored by a chain is the text of the last call that sets one. */
  lemma LastPhase(doc: Json, cs: seq<Call>, text: string)
    ensures Get(StatusOf(Applied(doc, Chained(cs))), "phase") == Some(Text(text)) <==>
      Holds(FieldOps(Get(StatusOf(doc), "phase"), cs, PhaseOp), text)
  {
    forall c
      ensures Edit(Called(NOTHING, c), "phase") == AsEdit(PhaseOp(c))
    {
      PhaseEdit(c);
    }
    OnceField(doc, cs, "phase");
    LastTextIff(Get(StatusOf(doc), "phase"), cs, "phase", PhaseOp, text);
  }

  lemma PhaseEdit(c: Call)
    ensures Edit(Called(NOTHING, c), "phase") == AsEdit(PhaseOp(c))
  {
  }

  lemma SinceEdit(c: Call)
    ensures Edit(Called(NOTHING, c), "connected_since") == AsEdit(SinceOp(c))
  {
  }

  lemma BeatEdit(c: Call)
    ensures Edit(Called(NOTHING, c), "last_heartbeat") == AsEdit(BeatOp(c))
  {
  }

  /** The connection time is that of the last call that sets or clears it. */
  lemma LastSince(doc: Json, cs: seq<Call>, text: string)
    ensures Get(StatusOf(Applied(doc, Chained(cs))), "connected_since") == Some(Text(text)) <==>
      Holds(FieldOps(Get(StatusOf(doc), "connected_since"), cs, SinceOp), text)
  {
    forall c
      ensures Edit(Called(NOTHING, c), "connected_since") == AsEdit(SinceOp(c))
    {
      SinceEdit(c);
    }
    OnceField(doc, cs, "connected_since");
    LastTextIff(Get(StatusOf(doc), "connected_since"), cs, "connected_since", SinceOp, text);
  }

  /** So is the last heartbeat. */
  lemma LastBeat(doc: Json, cs: seq<Call>, text: string)
    ensures Get(StatusOf(Applied(doc, Chained(cs))), "last_heartbeat") == Some(Text(text)) <==>
      Holds(FieldOps(Get(StatusOf(doc), "last_heartbeat"), cs, BeatOp), text)
  {
    forall c
      ensures Edit(Called(NOTHING, c), "last_heartbeat") == AsEdit(BeatOp(c))
    {
      BeatEdit(c);
    }
    OnceField(doc, cs, "last_heartbeat");
    LastTextIff(Get(StatusOf(doc), "last_heartbeat"), cs, "last_heartbeat", BeatOp, text);
  }
}
