/** The phases of a Device resource. */
module DevicePhases {
  datatype DevicePhase = Pending | Enrolling | Enrolled | Connected | Disconnected | Unreachable
}

/** The device status builder and the JSON merge patch it sends. */
module StatusPatch {
  import opened Prelude
  import opened DevicePhases

  datatype Json =
    | Null
    | Bool(truth: bool)
    | Num(number: int)
    | Text(text: string)
    | Arr(items: seq<Json>)
    | Obj(fields: map<string, Json>)

  function FieldsOf(j: Option<Json>): map<string, Json> {
    if j.Some? && j.value.Obj? then j.value.fields else map[]
  }

  /** The algorithm of section 2 of RFC 7396. */
  function MergePatch(target: Option<Json>, patch: Json): Json
    decreases patch
  {
    if !patch.Obj? then patch
    else
      var base := FieldsOf(target);
      Obj(map k | k in base.Keys + patch.fields.Keys && !(k in patch.fields && patch.fields[k] == Null) ::
        if k in patch.fields then MergePatch(Get(base, k), patch.fields[k]) else base[k])
  }

  // ---------------------------------------------------------------- the builder

  /** RFC 3339 texts. */
  type Time = string

  datatype GatewayRef = GatewayRef(name: string, endpoint: string, connectedAt: Option<string>)

  /** `None` leaves a field alone, `Some(None)` clears it, `Some(Some(v))` sets it. */
  datatype Update = Update(
    phase: Option<DevicePhase>, gateway: Option<Option<GatewayRef>>,
    connectedSince: Option<Option<Time>>, lastHeartbeat: Option<Option<Time>>)

  const NOTHING := Update(None, None, None, None)

  datatype Call =
    | SetPhase(phase: DevicePhase)
    | SetGateway(gateway: Option<GatewayRef>)
    | SetConnectedSince(since: Option<Time>)
    | SetLastHeartbeat(beat: Option<Time>)
    | MarkConnected(reference: GatewayRef, now: Time)
    | MarkEnrolling
    | MarkEnrolled
    | MarkDisconnected
    | MarkUnreachable
    | UpdateHeartbeat(now: Time)

  function WithPhase(u: Update, p: DevicePhase): Update { u.(phase := Some(p)) }

  function WithGateway(u: Update, g: Option<GatewayRef>): Update { u.(gateway := Some(g)) }

  function WithConnectedSince(u: Update, t: Option<Time>): Update { u.(connectedSince := Some(t)) }

  function WithLastHeartbeat(u: Update, t: Option<Time>): Update { u.(lastHeartbeat := Some(t)) }

  /** One builder call; the `mark` calls are chains of the setters. */
  function Called(u: Update, c: Call): Update {
    match c
    case SetPhase(p) => WithPhase(u, p)
    case SetGateway(g) => WithGateway(u, g)
    case SetConnectedSince(t) => WithConnectedSince(u, t)
    case SetLastHeartbeat(t) => WithLastHeartbeat(u, t)
    case MarkConnected(g, now) => WithConnectedSince(WithGateway(WithPhase(u, Connected), Some(g)), Some(now))
    case MarkEnrolling => WithPhase(u, Enrolling)
    case MarkEnrolled => WithPhase(u, Enrolled)
    case MarkDisconnected => WithConnectedSince(WithGateway(WithPhase(u, Disconnected), None), None)
    case MarkUnreachable => WithGateway(WithPhase(u, Unreachable), None)
    case UpdateHeartbeat(now) => WithLastHeartbeat(u, Some(now))
  }

  function Chained(cs: seq<Call>): Update {
    if |cs| == 0 then NOTHING else Called(Chained(cs[..|cs| - 1]), cs[|cs| - 1])
  }

  // ---------------------------------------------------------------- the patch

  function PhaseText(p: DevicePhase): string {
    match p
    case Pending => "Pending"
    case Enrolling => "Enrolling"
    case Enrolled => "Enrolled"
    case Connected => "Connected"
    case Disconnected => "Disconnected"
    case Unreachable => "Unreachable"
  }

  function OptText(t: Option<string>): Json { if t.Some? then Text(t.value) else Null }

  /** A gateway reference leaves `connectedAt` out when it has none. */
  function RefFields(g: GatewayRef): map<string, Json> {
    var two := map["name" := Text(g.name), "endpoint" := Text(g.endpoint)];
    if g.connectedAt.Some? then two["connectedAt" := Text(g.connectedAt.value)] else two
  }

  function OptRef(g: Option<GatewayRef>): Json { if g.Some? then Obj(RefFields(g.value)) else Null }

  /** What an update says about one status field: nothing, or the JSON value to merge. */
  function Edit(u: Update, key: string): Option<Json> {
    if key == "phase" && u.phase.Some? then Some(Text(PhaseText(u.phase.value)))
    else if key == "gateway" && u.gateway.Some? then Some(OptRef(u.gateway.value))
    else if key == "connected_since" && u.connectedSince.Some? then Some(OptText(u.connectedSince.value))
    else if key == "last_heartbeat" && u.lastHeartbeat.Some? then Some(OptText(u.lastHeartbeat.value))
    else None
  }

  function One(key: string, value: Option<Json>): map<string, Json> {
    if value.Some? then map[key := value.value] else map[]
  }

  function StatusFields(u: Update): map<string, Json> {
    One("phase", Edit(u, "phase")) + One("gateway", Edit(u, "gateway"))
    + One("connected_since", Edit(u, "connected_since")) + One("last_heartbeat", Edit(u, "last_heartbeat"))
  }

  function Patch(u: Update): Json { Wrapped(StatusFields(u)) }

  function Wrapped(status: map<string, Json>): Json { Obj(map["status" := Obj(status)]) }

  /** Fills the status object field by field. */
  method BuildPatch(u: Update) returns (patch: Json)
    ensures patch == Patch(u)
  {
    var fields: map<string, Json> := map[];
    if u.phase.Some? {
      fields := fields["phase" := Text(PhaseText(u.phase.value))];
    }
    ghost var f1 := One("phase", Edit(u, "phase"));
    assert fields == f1;
    if u.gateway.Some? {
      fields := fields["gateway" := OptRef(u.gateway.value)];
    }
    ghost var f2 := f1 + One("gateway", Edit(u, "gateway"));
    assert fields == f2;
    if u.connectedSince.Some? {
      fields := fields["connected_since" := OptText(u.connectedSince.value)];
    }
    ghost var f3 := f2 + One("connected_since", Edit(u, "connected_since"));
    assert fields == f3;
    if u.lastHeartbeat.Some? {
      fields := fields["last_heartbeat" := OptText(u.lastHeartbeat.value)];
    }
    assert fields == f3 + One("last_heartbeat", Edit(u, "last_heartbeat"));
    patch := Obj(map["status" := Obj(fields)]);
  }

  /** The stored resource after the patch. */
  function Applied(doc: Json, u: Update): Json { MergePatch(Some(doc), Patch(u)) }

  function StatusOf(doc: Json): map<string, Json> { FieldsOf(Get(FieldsOf(Some(doc)), "status")) }

  /** One field after one edit. */
  function Edited(was: Option<Json>, edit: Option<Json>): Option<Json> {
    match edit
    case None => was
    case Some(Null) => None
    case Some(v) => Some(MergePatch(was, v))
  }

  lemma StatusEdit(u: Update, key: string)
    ensures Get(StatusFields(u), key) == Edit(u, key)
  {
  }

  /** Only the status differs. */
  ghost predicate Shaped(doc: Json, now: Json) {
    now == Obj(FieldsOf(Some(doc))["status" := Obj(StatusOf(now))])
  }

  lemma WrappedStatus(doc: Json, edits: map<string, Json>)
    ensures MergePatch(Some(doc), Wrapped(edits)) ==
      Obj(FieldsOf(Some(doc))["status" := MergePatch(Get(FieldsOf(Some(doc)), "status"), Obj(edits))])
  {
    var base := FieldsOf(Some(doc));
    var merged := MergePatch(Get(base, "status"), Obj(edits));
    assert MergePatch(Some(doc), Wrapped(edits)).fields == base["status" := merged];
  }

  lemma MergedField(was: Option<Json>, edits: map<string, Json>, key: string)
    ensures MergePatch(was, Obj(edits)).Obj?
    ensures Get(MergePatch(was, Obj(edits)).fields, key) == Edited(Get(FieldsOf(was), key), Get(edits, key))
  {
  }

  lemma WrappedShape(doc: Json, edits: map<string, Json>)
    ensures Shaped(doc, MergePatch(Some(doc), Wrapped(edits)))
  {
    WrappedStatus(doc, edits);
  }

  lemma WrappedField(doc: Json, edits: map<string, Json>, key: string)
    ensures Get(StatusOf(MergePatch(Some(doc), Wrapped(edits))), key)
      == Edited(Get(StatusOf(doc), key), Get(edits, key))
  {
    WrappedStatus(doc, edits);
    MergedField(Get(FieldsOf(Some(doc)), "status"), edits, key);
  }

  /** A patch edits the status field by field and leaves the rest of the resource alone. */
  lemma PatchIsFieldwise(doc: Json, u: Update, key: string)
    ensures Shaped(doc, Applied(doc, u))
    ensures Get(StatusOf(Applied(doc, u)), key) == Edited(Get(StatusOf(doc), key), Edit(u, key))
  {
    WrappedShape(doc, StatusFields(u));
    WrappedField(doc, StatusFields(u), key);
    StatusEdit(u, key);
  }

  /** An unset field keeps its stored value, `Some(None)` removes it, `Some(Some(v))` sets it. */
  lemma FieldMeaning(doc: Json, u: Update)
    ensures var was, now := StatusOf(doc), StatusOf(Applied(doc, u));
      && Get(now, "phase") == (if u.phase.Some? then Some(Text(PhaseText(u.phase.value))) else Get(was, "phase"))
      && Get(now, "connected_since") == After(Get(was, "connected_since"), u.connectedSince)
      && Get(now, "last_heartbeat") == After(Get(was, "last_heartbeat"), u.lastHeartbeat)
  {
    PatchIsFieldwise(doc, u, "phase");
    PatchIsFieldwise(doc, u, "connected_since");
    PatchIsFieldwise(doc, u, "last_heartbeat");
  }

  /** The same for the gateway, except that one which is set keeps the stored keys that the new
      reference does not write. */
  lemma GatewayMeaning(doc: Json, u: Update)
    ensures var was, now := Get(StatusOf(doc), "gateway"), Get(StatusOf(Applied(doc, u)), "gateway");
      && (u.gateway.None? ==> now == was)
      && (u.gateway == Some(None) ==> now == None)
      && (u.gateway.Some? && u.gateway.value.Some? ==>
            now == Some(Obj(FieldsOf(was) + RefFields(u.gateway.value.value))))
  {
    PatchIsFieldwise(doc, u, "gateway");
    if u.gateway.Some? && u.gateway.value.Some? {
      RefMerges(Get(StatusOf(doc), "gateway"), u.gateway.value.value);
    }
  }

  function After(was: Option<Json>, edit: Option<Option<Time>>): Option<Json> {
    match edit
    case None => was
    case Some(None) => None
    case Some(Some(t)) => Some(Text(t))
  }

  lemma RefMerges(was: Option<Json>, g: GatewayRef)
    ensures MergePatch(was, Obj(RefFields(g))) == Obj(FieldsOf(was) + RefFields(g))
  {
    var patch := RefFields(g);
    assert forall k :: k in patch ==> patch[k].Text?;
    assert MergePatch(was, Obj(patch)).fields == FieldsOf(was) + patch;
  }

  // ---------------------------------------------------------------- chains of calls

  function Through(doc: Json, cs: seq<Call>, step: (Json, Call) -> Json): Json {
    if |cs| == 0 then doc else step(Through(doc, cs[..|cs| - 1], step), cs[|cs| - 1])
  }

  function ApplyOne(doc: Json, c: Call): Json { Applied(doc, Called(NOTHING, c)) }

  /** One patch per call. */
  function InTurn(doc: Json, cs: seq<Call>): Json { Through(doc, cs, ApplyOne) }

  function EditsOf(cs: seq<Call>, key: string): (es: seq<Option<Json>>)
    ensures |es| == |cs| && forall i :: 0 <= i < |cs| ==> es[i] == Edit(Called(NOTHING, cs[i]), key)
  {
    seq(|cs|, i requires 0 <= i < |cs| => Edit(Called(NOTHING, cs[i]), key))
  }

  function Fold(was: Option<Json>, es: seq<Option<Json>>): Option<Json> {
    if |es| == 0 then was else Edited(Fold(was, es[..|es| - 1]), es[|es| - 1])
  }

  function Last<T>(es: seq<Option<T>>): Option<T> {
    if |es| == 0 then None else if es[|es| - 1].Some? then es[|es| - 1] else Last(es[..|es| - 1])
  }

  lemma CallOverrides(u: Update, c: Call, key: string)
    ensures Edit(Called(u, c), key) ==
      if Edit(Called(NOTHING, c), key).Some? then Edit(Called(NOTHING, c), key) else Edit(u, key)
  {
  }

  lemma {:induction false} ChainedEdit(cs: seq<Call>, key: string)
    ensures Edit(Chained(cs), key) == Last(EditsOf(cs, key))
  {
    if |cs| > 0 {
      var n := |cs| - 1;
      ChainedEdit(cs[..n], key);
      CallOverrides(Chained(cs[..n]), cs[n], key);
      assert EditsOf(cs, key)[..n] == EditsOf(cs[..n], key);
    }
  }

  lemma {:induction false} ThroughField(doc: Json, cs: seq<Call>, step: (Json, Call) -> Json, key: string)
    requires forall d, c ::
      Get(StatusOf(step(d, c)), key) == Edited(Get(StatusOf(d), key), Edit(Called(NOTHING, c), key))
    ensures Get(StatusOf(Through(doc, cs, step)), key) == Fold(Get(StatusOf(doc), key), EditsOf(cs, key))
  {
    if |cs| > 0 {
      var n := |cs| - 1;
      ThroughField(doc, cs[..n], step, key);
      assert EditsOf(cs, key)[..n] == EditsOf(cs[..n], key);
    }
  }

  lemma InTurnField(doc: Json, cs: seq<Call>, key: string)
    ensures Get(StatusOf(InTurn(doc, cs)), key) == Fold(Get(StatusOf(doc), key), EditsOf(cs, key))
  {
    forall d, c
      ensures Get(StatusOf(ApplyOne(d, c)), key) == Edited(Get(StatusOf(d), key), Edit(Called(NOTHING, c), key))
    {
      PatchIsFieldwise(d, Called(NOTHING, c), key);
    }
    ThroughField(doc, cs, ApplyOne, key);
  }

  lemma {:induction false} ThroughShape(doc: Json, cs: seq<Call>, step: (Json, Call) -> Json)
    requires |cs| > 0 && forall d, c :: Shaped(d, step(d, c))
    ensures Shaped(doc, Through(doc, cs, step))
  {
    var n := |cs| - 1;
    var before := Through(doc, cs[..n], step);
    assert Shaped(before, step(before, cs[n]));
    if n > 0 {
      ThroughShape(doc, cs[..n], step);
    } else {
      assert before == doc;
    }
  }

  lemma InTurnShape(doc: Json, cs: seq<Call>)
    requires |cs| > 0
    ensures Shaped(doc, InTurn(doc, cs))
  {
    forall d, c
      ensures Shaped(d, ApplyOne(d, c))
    {
      WrappedShape(d, StatusFields(Called(NOTHING, c)));
    }
    ThroughShape(doc, cs, ApplyOne);
  }

  lemma OnceField(doc: Json, cs: seq<Call>, key: string)
    ensures Get(StatusOf(Applied(doc, Chained(cs))), key) == Edited(Get(StatusOf(doc), key), Last(EditsOf(cs, key)))
  {
    PatchIsFieldwise(doc, Chained(cs), key);
    ChainedEdit(cs, key);
  }

  /** Values that are not objects replace what they are merged into, so the last edit wins. */
  lemma {:induction false} LastEditWins(was: Option<Json>, es: seq<Option<Json>>)
    requires forall e :: e in es ==> e.None? || !e.value.Obj?
    ensures Fold(was, es) == Edited(was, Last(es))
  {
    if |es| > 0 {
      LastEditWins(was, es[..|es| - 1]);
      assert es[|es| - 1] in es;
    }
  }

  // ---------------------------------------------------------------- the gateway field

  function GatewayEdits(cs: seq<Call>): (gs: seq<Option<Option<GatewayRef>>>)
    ensures |gs| == |cs| && forall i :: 0 <= i < |cs| ==> gs[i] == Called(NOTHING, cs[i]).gateway
  {
    seq(|cs|, i requires 0 <= i < |cs| => Called(NOTHING, cs[i]).gateway)
  }

  function AsEdits(gs: seq<Option<Option<GatewayRef>>>): (es: seq<Option<Json>>)
    ensures |es| == |gs|
    ensures forall i :: 0 <= i < |gs| ==> es[i] == if gs[i].Some? then Some(OptRef(gs[i].value)) else None
  {
    seq(|gs|, i requires 0 <= i < |gs| => if gs[i].Some? then Some(OptRef(gs[i].value)) else None)
  }

  /** The stored gateway's fields that a reference does not always write. */
  function Residue(j: Option<Json>): map<string, Json> { FieldsOf(j) - {"name", "endpoint"} }

  /** What a series of gateway updates leaves of them. */
  function Trail(r: map<string, Json>, gs: seq<Option<Option<GatewayRef>>>): map<string, Json> {
    if |gs| == 0 then r
    else
      var before := Trail(r, gs[..|gs| - 1]);
      match gs[|gs| - 1]
      case None => before
      case Some(None) => map[]
      case Some(Some(g)) => if g.connectedAt.Some? then before["connectedAt" := Text(g.connectedAt.value)] else before
  }

  lemma ResidueEdit(was: Option<Json>, g: GatewayRef)
    ensures Residue(Edited(was, Some(OptRef(Some(g))))) ==
      if g.connectedAt.Some? then Residue(was)["connectedAt" := Text(g.connectedAt.value)] else Residue(was)
  {
    RefMerges(was, g);
  }

  lemma {:induction false} ResidueFold(was: Option<Json>, gs: seq<Option<Option<GatewayRef>>>)
    ensures Residue(Fold(was, AsEdits(gs))) == Trail(Residue(was), gs)
  {
    if |gs| > 0 {
      var n := |gs| - 1;
      var before := Fold(was, AsEdits(gs[..n]));
      ResidueFold(was, gs[..n]);
      assert AsEdits(gs)[..n] == AsEdits(gs[..n]);
      if gs[n].Some? && gs[n].value.Some? {
        ResidueEdit(before, gs[n].value.value);
      }
    }
  }

  /** Two gateways set to the same reference agree exactly when they left the same residue. */
  lemma SameResidue(p: Option<Json>, q: Option<Json>, g: GatewayRef)
    ensures var e := Some(OptRef(Some(g)));
      Edited(p, e) == Edited(q, e) <==> Residue(Edited(p, e)) == Residue(Edited(q, e))
  {
    RefMerges(p, g);
    RefMerges(q, g);
    var a, b, f := FieldsOf(p), FieldsOf(q), RefFields(g);
    if (a + f) - {"name", "endpoint"} == (b + f) - {"name", "endpoint"} {
      forall k
        ensures Get(a + f, k) == Get(b + f, k)
      {
        if k != "name" && k != "endpoint" {
          assert Get(a + f, k) == Get((a + f) - {"name", "endpoint"}, k);
          assert Get(b + f, k) == Get((b + f) - {"name", "endpoint"}, k);
        }
      }
      SameMap(a + f, b + f);
    }
  }

  lemma SameMap(a: map<string, Json>, b: map<string, Json>)
    requires forall k :: Get(a, k) == Get(b, k)
    ensures a == b
  {
    forall k
      ensures k in a <==> k in b
      ensures k in a ==> a[k] == b[k]
    {
      assert Get(a, k) == Get(b, k);
    }
  }

  predicate Clears(gs: seq<Option<Option<GatewayRef>>>) { Some(None) in gs }

  /** The connection time that the updates set last, if none cleared the gateway after it. */
  function SetTime(gs: seq<Option<Option<GatewayRef>>>): Option<string> {
    if |gs| == 0 then None
    else
      match gs[|gs| - 1]
      case Some(None) => None
      case Some(Some(g)) => if g.connectedAt.Some? then g.connectedAt else SetTime(gs[..|gs| - 1])
      case None => SetTime(gs[..|gs| - 1])
  }

  /** The stored connection time after the updates. */
  function TimeAfter(stored: Option<Json>, gs: seq<Option<Option<GatewayRef>>>): Option<Json> {
    if SetTime(gs).Some? then Some(Text(SetTime(gs).value)) else if Clears(gs) then None else stored
  }

  /** One field of the residue after the updates. */
  lemma {:induction false} TrailField(r: map<string, Json>, gs: seq<Option<Option<GatewayRef>>>, k: string)
    ensures Get(Trail(r, gs), k) ==
      if k == "connectedAt" then TimeAfter(Get(r, k), gs) else if Clears(gs) then None else Get(r, k)
  {
    if |gs| > 0 {
      var n := |gs| - 1;
      TrailField(r, gs[..n], k);
      assert gs == gs[..n] + [gs[n]];
    }
  }

  /** The last gateway update sets a reference, and either the updates clear the gateway over stored
      keys the reference does not know, or it leaves the connection time to what they changed. */
  predicate Remembers(was: Option<Json>, gs: seq<Option<Option<GatewayRef>>>) {
    && Last(gs).Some? && Last(gs).value.Some?
    && var stored := Get(Residue(was), "connectedAt");
      || (Clears(gs) && Residue(was) - {"connectedAt"} != map[])
      || (Last(gs).value.value.connectedAt.None? && TimeAfter(stored, gs) != stored)
  }

  lemma {:induction false} LastTime(gs: seq<Option<Option<GatewayRef>>>)
    requires Last(gs).Some? && Last(gs).value.Some? && Last(gs).value.value.connectedAt.Some?
    ensures SetTime(gs) == Last(gs).value.value.connectedAt
  {
    if gs[|gs| - 1].None? {
      LastTime(gs[..|gs| - 1]);
    }
  }

  lemma OneTrail(r: map<string, Json>, g: GatewayRef, k: string)
    ensures Get(Trail(r, [Some(Some(g))]), k) ==
      if k == "connectedAt" && g.connectedAt.Some? then Some(Text(g.connectedAt.value)) else Get(r, k)
  {
    var one := [Some(Some(g))];
    assert one[..0] == [];
    TrailField(r, one, k);
    assert !Clears(one);
  }

  lemma TrailsDifferIff(was: Option<Json>, gs: seq<Option<Option<GatewayRef>>>)
    requires Last(gs).Some? && Last(gs).value.Some?
    ensures Trail(Residue(was), gs) != Trail(Residue(was), [Last(gs)]) <==> Remembers(was, gs)
  {
    var r, g := Residue(was), Last(gs).value.value;
    var all, one := Trail(r, gs), Trail(r, [Last(gs)]);
    if g.connectedAt.Some? {
      LastTime(gs);
    }
    forall k
      ensures Get(all, k) ==
        if k == "connectedAt" then TimeAfter(Get(r, k), gs) else if Clears(gs) then None else Get(r, k)
      ensures Get(one, k) == if k == "connectedAt" && g.connectedAt.Some? then SetTimeJson(g) else Get(r, k)
    {
      TrailField(r, gs, k);
      OneTrail(r, g, k);
    }
    if !Remembers(was, gs) {
      forall k
        ensures Get(all, k) == Get(one, k)
      {
        if k != "connectedAt" && Clears(gs) {
          assert k !in r - {"connectedAt"};
        }
      }
      SameMap(all, one);
    } else if Clears(gs) && r - {"connectedAt"} != map[] {
      var k :| k in r - {"connectedAt"};
      assert Get(all, k) == None && Get(one, k) == Some(r[k]);
    } else {
      assert Get(all, "connectedAt") != Get(one, "connectedAt");
    }
  }

  function SetTimeJson(g: GatewayRef): Option<Json>
    requires g.connectedAt.Some?
  {
    Some(Text(g.connectedAt.value))
  }

  lemma {:induction false} GatewayFoldIff(was: Option<Json>, gs: seq<Option<Option<GatewayRef>>>)
    ensures Fold(was, AsEdits(gs)) == Edited(was, Last(AsEdits(gs))) <==>
      !(Last(gs).Some? && Last(gs).value.Some? && Trail(Residue(was), gs) != Trail(Residue(was), [Last(gs)]))
  {
    if |gs| > 0 {
      var n := |gs| - 1;
      assert AsEdits(gs)[..n] == AsEdits(gs[..n]);
      if gs[n].None? {
        GatewayFoldIff(was, gs[..n]);
      } else if gs[n].value.Some? {
        var g := gs[n].value.value;
        SameResidue(Fold(was, AsEdits(gs[..n])), was, g);
        ResidueFold(was, gs);
        ResidueEdit(was, g);
        assert [gs[n]][..0] == [];
        assert Trail(Residue(was), [gs[n]]) == Residue(Edited(was, Some(OptRef(Some(g)))));
      }
    }
  }

  lemma GatewayAgreesIff(was: Option<Json>, gs: seq<Option<Option<GatewayRef>>>)
    ensures Fold(was, AsEdits(gs)) == Edited(was, Last(AsEdits(gs))) <==> !Remembers(was, gs)
  {
    GatewayFoldIff(was, gs);
    if Last(gs).Some? && Last(gs).value.Some? {
      TrailsDifferIff(was, gs);
    }
  }

  // ---------------------------------------------------------------- once or in turn

  lemma NotAnObject(u: Update, key: string)
    requires key != "gateway" && Edit(u, key).Some?
    ensures !Edit(u, key).value.Obj?
  {
  }

  lemma OtherFields(doc: Json, cs: seq<Call>, key: string)
    requires |cs| > 0 && key != "gateway"
    ensures Get(StatusOf(InTurn(doc, cs)), key) == Get(StatusOf(Applied(doc, Chained(cs))), key)
  {
    InTurnField(doc, cs, key);
    OnceField(doc, cs, key);
    forall i | 0 <= i < |cs| && EditsOf(cs, key)[i].Some?
      ensures !EditsOf(cs, key)[i].value.Obj?
    {
      NotAnObject(Called(NOTHING, cs[i]), key);
    }
    LastEditWins(Get(StatusOf(doc), key), EditsOf(cs, key));
  }

  function GatewayOf(doc: Json): Option<Json> { Get(StatusOf(doc), "gateway") }

  lemma InTurnGateway(doc: Json, cs: seq<Call>)
    ensures GatewayOf(InTurn(doc, cs)) == Fold(GatewayOf(doc), AsEdits(GatewayEdits(cs)))
  {
    InTurnField(doc, cs, "gateway");
    assert EditsOf(cs, "gateway") == AsEdits(GatewayEdits(cs));
  }

  lemma OnceGateway(doc: Json, cs: seq<Call>)
    ensures GatewayOf(Applied(doc, Chained(cs))) == Edited(GatewayOf(doc), Last(AsEdits(GatewayEdits(cs))))
  {
    OnceField(doc, cs, "gateway");
    assert EditsOf(cs, "gateway") == AsEdits(GatewayEdits(cs));
  }

  lemma GatewayField(doc: Json, cs: seq<Call>)
    ensures GatewayOf(InTurn(doc, cs)) == GatewayOf(Applied(doc, Chained(cs)))
      <==> !Remembers(GatewayOf(doc), GatewayEdits(cs))
  {
    InTurnGateway(doc, cs);
    OnceGateway(doc, cs);
    GatewayAgreesIff(GatewayOf(doc), GatewayEdits(cs));
  }

  lemma SameStatus(doc: Json, p: Json, q: Json)
    requires Shaped(doc, p) && Shaped(doc, q)
    requires forall k :: k != "gateway" ==> Get(StatusOf(p), k) == Get(StatusOf(q), k)
    ensures p == q <==> GatewayOf(p) == GatewayOf(q)
  {
    if GatewayOf(p) == GatewayOf(q) {
      SameMap(StatusOf(p), StatusOf(q));
    }
  }

  /** One patch for the whole chain leaves the resource as one patch per call does. */
  ghost predicate Agree(doc: Json, cs: seq<Call>) { Applied(doc, Chained(cs)) == InTurn(doc, cs) }

  /** A chain of builder calls applied as one patch leaves the same resource as one patch per call,
      except when `Remembers` says so. */
  lemma OnceIsInTurnIff(doc: Json, cs: seq<Call>)
    requires |cs| > 0
    ensures Agree(doc, cs) <==> !Remembers(GatewayOf(doc), GatewayEdits(cs))
  {
    forall k | k != "gateway"
      ensures Get(StatusOf(Applied(doc, Chained(cs))), k) == Get(StatusOf(InTurn(doc, cs)), k)
    {
      OtherFields(doc, cs, k);
    }
    WrappedShape(doc, StatusFields(Chained(cs)));
    InTurnShape(doc, cs);
    SameStatus(doc, Applied(doc, Chained(cs)), InTurn(doc, cs));
    GatewayField(doc, cs);
  }

  // ---------------------------------------------------------------- references without a connection time

  /** No reference carries a connection time, as those the gateway makes. */
  ghost predicate Plain(gs: seq<Option<Option<GatewayRef>>>) {
    forall i :: 0 <= i < |gs| && gs[i].Some? && gs[i].value.Some? ==> gs[i].value.value.connectedAt.None?
  }

  predicate ClearsThenSets(gs: seq<Option<Option<GatewayRef>>>) {
    Clears(gs) && Last(gs).Some? && Last(gs).value.Some?
  }

  lemma {:induction false} PlainTrail(r: map<string, Json>, gs: seq<Option<Option<GatewayRef>>>)
    requires Plain(gs)
    ensures Trail(r, gs) == if Clears(gs) then map[] else r
  {
    if |gs| > 0 {
      var n := |gs| - 1;
      PlainTrail(r, gs[..n]);
      assert gs == gs[..n] + [gs[n]];
    }
  }

  lemma {:induction false} LastIsIn(gs: seq<Option<Option<GatewayRef>>>)
    requires Last(gs).Some?
    ensures Last(gs) in gs
  {
    if gs[|gs| - 1].None? {
      LastIsIn(gs[..|gs| - 1]);
    }
  }

  lemma {:induction false} PlainSetsNoTime(gs: seq<Option<Option<GatewayRef>>>)
    requires Plain(gs)
    ensures SetTime(gs) == None
  {
    if |gs| > 0 {
      PlainSetsNoTime(gs[..|gs| - 1]);
    }
  }

  lemma PlainRemembersIff(was: Option<Json>, gs: seq<Option<Option<GatewayRef>>>)
    requires Plain(gs)
    ensures Remembers(was, gs) <==> ClearsThenSets(gs) && Residue(was) != map[]
  {
    PlainSetsNoTime(gs);
    var r := Residue(was);
    if Last(gs).Some? && Last(gs).value.Some? {
      LastIsIn(gs);
      if "connectedAt" !in r {
        assert r - {"connectedAt"} == r;
      }
    }
  }

  /** With such references the two differ exactly when the chain clears the gateway, sets it again,
      and the stored gateway holds something beside name and endpoint. */
  lemma PlainChainIff(doc: Json, cs: seq<Call>)
    requires |cs| > 0 && Plain(GatewayEdits(cs))
    ensures Agree(doc, cs) <==> !(ClearsThenSets(GatewayEdits(cs)) && Residue(GatewayOf(doc)) != map[])
  {
    OnceIsInTurnIff(doc, cs);
    PlainRemembersIff(GatewayOf(doc), GatewayEdits(cs));
  }

  ghost predicate KeepsTimeOnce(doc: Json, cs: seq<Call>) {
    && Get(FieldsOf(GatewayOf(Applied(doc, Chained(cs)))), "connectedAt")
       == Get(FieldsOf(GatewayOf(doc)), "connectedAt")
    && Get(FieldsOf(GatewayOf(InTurn(doc, cs))), "connectedAt") == None
  }

  lemma ClearedThenSet(doc: Json, cs: seq<Call>, g: GatewayRef)
    requires g.connectedAt.None? && GatewayEdits(cs) == [Some(None), Some(Some(g))]
    ensures KeepsTimeOnce(doc, cs)
  {
    OnceGateway(doc, cs);
    InTurnGateway(doc, cs);
    TwoUpdates(GatewayOf(doc), g);
  }

  /** A device marked unreachable and connected again in one chain keeps the stored connection time
      of its last session; marked by two patches it loses it. */
  lemma StaleConnectionTime(doc: Json, g: GatewayRef, now: Time)
    requires g.connectedAt.None?
    ensures KeepsTimeOnce(doc, [MarkUnreachable, MarkConnected(g, now)])
  {
    var cs := [MarkUnreachable, MarkConnected(g, now)];
    assert GatewayEdits(cs) == [Some(None), Some(Some(g))] by {
      assert GatewayEdits(cs)[0] == Some(None) && GatewayEdits(cs)[1] == Some(Some(g));
    }
    ClearedThenSet(doc, cs, g);
  }

  lemma TwoUpdates(was: Option<Json>, g: GatewayRef)
    requires g.connectedAt.None?
    ensures var es := AsEdits([Some(None), Some(Some(g))]);
      && FieldsOf(Edited(was, Last(es))) == FieldsOf(was) + RefFields(g)
      && FieldsOf(Fold(was, es)) == RefFields(g)
  {
    var es := AsEdits([Some(None), Some(Some(g))]);
    assert es == [Some(Null), Some(OptRef(Some(g)))];
    assert es[..1] == [Some(Null)] && es[..1][..0] == [];
    assert Fold(was, es[..1]) == None;
    RefMerges(was, g);
    RefMerges(None, g);
    assert map[] + RefFields(g) == RefFields(g);
  }

  lemma PlainResidue(was: Option<Json>, gs: seq<Option<Option<GatewayRef>>>)
    requires Plain(gs) && Residue(was) == map[]
    ensures Residue(Fold(was, AsEdits(gs))) == map[]
  {
    ResidueFold(was, gs);
    PlainTrail(map[], gs);
  }

  /** A resource whose gateway holds name and endpoint only stays so under such updates, and every
      chain then applies as one patch. */
  lemma PlainStaysPlain(doc: Json, cs: seq<Call>)
    requires |cs| > 0 && Plain(GatewayEdits(cs)) && Residue(GatewayOf(doc)) == map[]
    ensures Agree(doc, cs)
    ensures Residue(GatewayOf(InTurn(doc, cs))) == map[]
  {
    PlainChainIff(doc, cs);
    InTurnGateway(doc, cs);
    PlainResidue(GatewayOf(doc), GatewayEdits(cs));
  }
}
