/** Safety of the gateway over whole runs. A run is a list of events in the order the
    gateway handles them; every statement reads the events, not the tables. */
module GatewayRuns {
  import opened Prelude
  import opened Registers
  import opened Base64
  import opened KeyIndex
  import opened Messages
  import opened GatewayTables
  import opened Gateway

  /** The tables after a run that starts from an empty gateway. */
  ghost function After(s: Settings, es: seq<Event>): Tables {
    if |es| == 0 then EMPTY else Step(s, After(s, es[..|es| - 1]), es[|es| - 1]).tables
  }

  lemma AfterNext(s: Settings, es: seq<Event>, i: nat)
    requires i < |es|
    ensures After(s, es[..i + 1]) == Step(s, After(s, es[..i]), es[i]).tables
  {
    assert es[..i + 1][..i] == es[..i];
  }

  // ---------------------------------------------------------------- enrollment

  /** `e` announces `key` on `conn` and the announcement is accepted. */
  predicate Announces(s: Settings, e: Event, conn: ConnId, key: Bytes) {
    e.Received? && e.conn == conn && e.msg == Some(PublicKey(key)) && Accepts(s, e.tlsKey, key)
  }

  predicate Responds(e: Event, conn: ConnId) {
    e.Received? && e.conn == conn && e.msg.Some? && e.msg.value.ChallengeResponse?
  }

  /** `e` replaces, consumes or drops whatever challenge `conn` had. */
  predicate Disturbs(s: Settings, e: Event, conn: ConnId) {
    || Responds(e, conn)
    || e == Disconnected(conn)
    || (e.Received? && e.msg.Some? && e.msg.value.PublicKey? && Announces(s, e, conn, e.msg.value.key))
  }

  /** The enrollment that event `e` completes in tables `t`: connection and key. */
  ghost function Completes(s: Settings, t: Tables, e: Event): Option<(ConnId, Bytes)> {
    if !e.Received? || e.msg.None? || !e.msg.value.ChallengeResponse? then None
    else
      match ProvenKey(s, t, e.conn, e.msg.value.signature, e.w.now)
      case None => None
      case Some(key) => Some((e.conn, key))
  }

  /** Event `j` is the latest accepted announcement on `conn` before event `i`, it named `key`,
      its challenge was not used, replaced or dropped since, it is at most 30 s old at `i`, and
      the signature of `i` verifies over its nonce and `key`. */
  ghost predicate Justifies(s: Settings, es: seq<Event>, j: nat, i: nat, conn: ConnId, key: Bytes)
    requires i < |es| && Responds(es[i], conn)
  {
    && j < i
    && Announces(s, es[j], conn, key)
    && (forall m :: j < m < i ==> !Disturbs(s, es[m], conn))
    && es[i].w.now - es[j].w.now <= CHALLENGE_TTL
    && s.verify(key, Transcript(es[j].w.nonce, key), es[i].msg.value.signature)
  }

  function ChallengeOp(s: Settings, e: Event, conn: ConnId): Op<PendingChallenge> {
    if e.Received? && e.msg.Some? && e.msg.value.PublicKey? && Announces(s, e, conn, e.msg.value.key)
    then Put(PendingChallenge(e.w.nonce, e.msg.value.key, e.w.now))
    else if Disturbs(s, e, conn) then Clear
    else Keep
  }

  function ChallengeOps(s: Settings, es: seq<Event>, conn: ConnId): (ops: seq<Op<PendingChallenge>>)
    ensures |ops| == |es|
    ensures forall i :: 0 <= i < |es| ==> ops[i] == ChallengeOp(s, es[i], conn)
  {
    seq(|es|, i requires 0 <= i < |es| => ChallengeOp(s, es[i], conn))
  }

  /** What the events other than messages do to the per-connection tables. */
  ghost predicate QuietEffect(t: Tables, e: Event, r: Tables) {
    match e
    case Ready(conn, _, _) => SameSessions(t.(pending := t.pending[conn := Sender(conn)]), r)
    case Disconnected(conn) =>
      r.pending == t.pending - {conn} && r.bound == t.bound - {conn} && r.challenges == t.challenges - {conn}
    case DeployBind(id, storedKey, _) =>
      (match Adoptable(t, id, storedKey)
       case None => SameSessions(t, r)
       case Some(conn) =>
         r.pending == t.pending - {conn} && r.bound == t.bound[conn := id] && r.challenges == t.challenges)
    case _ => SameSessions(t, r)
  }

  /** What messages do to the per-connection tables. */
  ghost predicate MessageEffect(s: Settings, t: Tables, e: Event, r: Tables)
    requires e.Received? && e.msg.Some?
  {
    match e.msg.value
    case PublicKey(key) =>
      if Accepts(s, e.tlsKey, key)
      then SameSessions(t.(challenges := t.challenges[e.conn := PendingChallenge(e.w.nonce, key, e.w.now)]), r)
      else SameSessions(t, r)
    case ChallengeResponse(signature) =>
      var key := ProvenKey(s, t, e.conn, signature, e.w.now);
      && r.challenges == t.challenges - {e.conn}
      && (if key.Some? && Enrollee(e.w, key.value).Some?
          then r.pending == t.pending - {e.conn} && r.bound == t.bound[e.conn := Enrollee(e.w, key.value).value]
          else r.pending == t.pending && r.bound == t.bound)
    case _ => SameSessions(t, r)
  }

  ghost predicate Effect(s: Settings, t: Tables, e: Event, r: Tables) {
    if e.Received? && e.msg.Some? then MessageEffect(s, t, e, r) else QuietEffect(t, e, r)
  }

  lemma StepEffect(s: Settings, t: Tables, e: Event)
    ensures Effect(s, t, e, Step(s, t, e).tables)
  {
    if e.Received? && e.msg.Some? {
      MessageStepEffect(s, t, e, Step(s, t, e).tables);
    } else {
      QuietStepEffect(s, t, e, Step(s, t, e).tables);
    }
  }

  lemma MessageStepEffect(s: Settings, t: Tables, e: Event, r: Tables)
    requires e.Received? && e.msg.Some? && r == OnMessage(s, t, e.conn, e.tlsKey, e.msg.value, e.w).tables
    ensures MessageEffect(s, t, e, r)
  {
    match e.msg.value
    case ChallengeResponse(signature) => ResponseEffect(s, t, e.conn, signature, e.w);
    case _ =>
  }

  lemma ResponseEffect(s: Settings, t: Tables, conn: ConnId, signature: Bytes, w: World)
    ensures var r := OnResponse(s, t, conn, signature, w).tables;
      var key := ProvenKey(s, t, conn, signature, w.now);
      && r.challenges == t.challenges - {conn}
      && (if key.Some? && Enrollee(w, key.value).Some?
          then r.pending == t.pending - {conn} && r.bound == t.bound[conn := Enrollee(w, key.value).value]
          else r.pending == t.pending && r.bound == t.bound)
  {
  }

  lemma QuietStepEffect(s: Settings, t: Tables, e: Event, r: Tables)
    requires !(e.Received? && e.msg.Some?) && r == Step(s, t, e).tables
    ensures QuietEffect(t, e, r)
  {
    match e
    case Connecting(tlsKey, w) => assert r == OnConnect(s, t, tlsKey, w).0;
    case Ready(conn, tlsKey, w) => assert r == OnReady(t, conn, tlsKey, w);
    case Received(_, _, _, _) =>
    case Disconnected(conn) => assert r == Removed(t, conn);
    case HttpRegister(device, w) => assert r == Registered(t, device.name, device.publicKey, w.now);
    case DeployBind(id, storedKey, w) => assert r == Adopted(t, id, storedKey, w.now);
  }

  lemma ChallengeStep(s: Settings, t: Tables, e: Event, conn: ConnId, r: Tables)
    requires Effect(s, t, e, r)
    ensures Get(r.challenges, conn) == Apply(Get(t.challenges, conn), ChallengeOp(s, e, conn))
  {
  }

  lemma {:induction false} ChallengeTrace(s: Settings, es: seq<Event>, conn: ConnId, c: PendingChallenge)
    ensures Get(After(s, es).challenges, conn) == Some(c) <==> Holds(ChallengeOps(s, es, conn), c)
  {
    if |es| > 0 {
      var init, last := es[..|es| - 1], es[|es| - 1];
      ChallengeTrace(s, init, conn, c);
      StepEffect(s, After(s, init), last);
      ChallengeStep(s, After(s, init), last, conn, After(s, es));
      HoldsStep(ChallengeOps(s, init, conn), ChallengeOp(s, last, conn), c);
      assert ChallengeOps(s, es, conn) == ChallengeOps(s, init, conn) + [ChallengeOp(s, last, conn)];
    }
  }

  /** Event `i` of a run completes an enrollment exactly when the earlier events justify it. */
  lemma CompletionIff(s: Settings, es: seq<Event>, i: nat, conn: ConnId, key: Bytes)
    requires i < |es| && Responds(es[i], conn)
    ensures Completes(s, After(s, es[..i]), es[i]) == Some((conn, key))
      <==> exists j: nat :: Justifies(s, es, j, i, conn, key)
  {
    var t := After(s, es[..i]);
    var ops := ChallengeOps(s, es[..i], conn);
    if Completes(s, t, es[i]) == Some((conn, key)) {
      var c := t.challenges[conn];
      ChallengeTrace(s, es[..i], conn, c);
      var j: nat :| LastWrite(ops, j, c);
      assert es[..i][j] == es[j];
      forall m | j < m < i ensures !Disturbs(s, es[m], conn) {
        assert ops[m].Keep? && es[..i][m] == es[m];
      }
      assert Justifies(s, es, j, i, conn, key);
    }
    if exists j: nat :: Justifies(s, es, j, i, conn, key) {
      var j: nat :| Justifies(s, es, j, i, conn, key);
      var c := PendingChallenge(es[j].w.nonce, key, es[j].w.now);
      assert es[..i][j] == es[j];
      assert ops[j] == Put(c);
      forall m | j < m < i ensures ops[m].Keep? {
        assert es[..i][m] == es[m];
      }
      assert LastWrite(ops, j, c);
      ChallengeTrace(s, es[..i], conn, c);
    }
  }

  /** No challenge is ever answered twice: two completions never share an announcement. */
  lemma ChallengeSingleUse(s: Settings, es: seq<Event>, i: nat, i': nat, j: nat, j': nat,
                           conn: ConnId, conn': ConnId, key: Bytes, key': Bytes)
    requires i < i' < |es| && Responds(es[i], conn) && Responds(es[i'], conn')
    requires Justifies(s, es, j, i, conn, key) && Justifies(s, es, j', i', conn', key')
    ensures j != j'
  {
    if conn == conn' {
      assert Disturbs(s, es[i], conn);
    }
  }

  // ---------------------------------------------------------------- bindings

  /** Why a connection was bound to a device. */
  datatype Origin = ByEnrollment(key: Bytes) | ByDeployment

  datatype Binding = Binding(conn: ConnId, device: DeviceId, origin: Origin)

  /** The binding that event `e` makes in tables `t`, if any. */
  ghost function Binds(s: Settings, t: Tables, e: Event): Option<Binding> {
    if e.DeployBind? then
      match Adoptable(t, e.id, e.storedKey)
      case None => None
      case Some(conn) => Some(Binding(conn, e.id, ByDeployment))
    else
      match Completes(s, t, e)
      case None => None
      case Some((conn, key)) =>
        match Enrollee(e.w, key)
        case None => None
        case Some(id) => Some(Binding(conn, id, ByEnrollment(key)))
  }

  ghost function BoundOp(s: Settings, t: Tables, e: Event, conn: ConnId): Op<DeviceId> {
    var b := Binds(s, t, e);
    if b.Some? && b.value.conn == conn then Put(b.value.device)
    else if e == Disconnected(conn) then Clear
    else Keep
  }

  ghost function PendingOp(s: Settings, t: Tables, e: Event, conn: ConnId): Op<Sender> {
    var b := Binds(s, t, e);
    if e.Ready? && e.conn == conn then Put(Sender(conn))
    else if (b.Some? && b.value.conn == conn) || e == Disconnected(conn) then Clear
    else Keep
  }

  /** Both sides of what a step does to a connection's binding and its parked sender. */
  ghost predicate MovesAs(s: Settings, t: Tables, e: Event, conn: ConnId, r: Tables) {
    && Get(r.bound, conn) == Apply(Get(t.bound, conn), BoundOp(s, t, e, conn))
    && Get(r.pending, conn) == Apply(Get(t.pending, conn), PendingOp(s, t, e, conn))
  }

  lemma MessageMoves(s: Settings, t: Tables, e: Event, conn: ConnId, r: Tables)
    requires e.Received? && e.msg.Some? && MessageEffect(s, t, e, r)
    ensures MovesAs(s, t, e, conn, r)
  {
  }

  lemma QuietMoves(s: Settings, t: Tables, e: Event, conn: ConnId, r: Tables)
    requires !(e.Received? && e.msg.Some?) && QuietEffect(t, e, r)
    ensures MovesAs(s, t, e, conn, r)
  {
  }

  lemma BindingStep(s: Settings, t: Tables, e: Event, conn: ConnId, r: Tables)
    requires Effect(s, t, e, r)
    ensures Get(r.bound, conn) == Apply(Get(t.bound, conn), BoundOp(s, t, e, conn))
    ensures Get(r.pending, conn) == Apply(Get(t.pending, conn), PendingOp(s, t, e, conn))
  {
    if e.Received? && e.msg.Some? {
      MessageMoves(s, t, e, conn, r);
    } else {
      QuietMoves(s, t, e, conn, r);
    }
  }

  /** What each event of a run does to a cell, as told by `f` from the tables it meets. */
  ghost function Ops<V>(s: Settings, es: seq<Event>, f: (Tables, Event) -> Op<V>): (ops: seq<Op<V>>)
    ensures |ops| == |es|
  {
    if |es| == 0 then []
    else
      var n := |es| - 1;
      Ops(s, es[..n], f) + [f(After(s, es[..n]), es[n])]
  }

  lemma {:induction false} OpsOfRun<V>(s: Settings, es: seq<Event>, f: (Tables, Event) -> Op<V>, i: nat)
    requires i < |es|
    ensures Ops(s, es, f)[i] == f(After(s, es[..i]), es[i])
  {
    var n := |es| - 1;
    if i < n {
      OpsOfRun(s, es[..n], f, i);
      assert es[..n][..i] == es[..i];
    }
  }

  ghost function BoundOps(s: Settings, es: seq<Event>, conn: ConnId): (ops: seq<Op<DeviceId>>)
    ensures |ops| == |es|
  {
    Ops(s, es, (t, e) => BoundOp(s, t, e, conn))
  }

  ghost function PendingOps(s: Settings, es: seq<Event>, conn: ConnId): (ops: seq<Op<Sender>>)
    ensures |ops| == |es|
  {
    Ops(s, es, (t, e) => PendingOp(s, t, e, conn))
  }

  lemma OpsAt(s: Settings, es: seq<Event>, conn: ConnId, i: nat)
    requires i < |es|
    ensures BoundOps(s, es, conn)[i] == BoundOp(s, After(s, es[..i]), es[i], conn)
    ensures PendingOps(s, es, conn)[i] == PendingOp(s, After(s, es[..i]), es[i], conn)
  {
    OpsOfRun(s, es, (t, e) => BoundOp(s, t, e, conn), i);
    OpsOfRun(s, es, (t, e) => PendingOp(s, t, e, conn), i);
  }

  /** A connection is bound to `device` exactly when the last event that bound or dropped it bound it there. */
  lemma {:induction false} BoundTrace(s: Settings, es: seq<Event>, conn: ConnId, device: DeviceId)
    ensures Get(After(s, es).bound, conn) == Some(device) <==> Holds(BoundOps(s, es, conn), device)
  {
    if |es| > 0 {
      var init, last := es[..|es| - 1], es[|es| - 1];
      BoundTrace(s, init, conn, device);
      StepEffect(s, After(s, init), last);
      BindingStep(s, After(s, init), last, conn, After(s, es));
      HoldsStep(BoundOps(s, init, conn), BoundOp(s, After(s, init), last, conn), device);
    }
  }

  lemma {:induction false} PendingTrace(s: Settings, es: seq<Event>, conn: ConnId)
    ensures Get(After(s, es).pending, conn) == Some(Sender(conn)) <==> Holds(PendingOps(s, es, conn), Sender(conn))
    ensures conn in After(s, es).pending ==> After(s, es).pending[conn] == Sender(conn)
  {
    if |es| > 0 {
      var init, last := es[..|es| - 1], es[|es| - 1];
      PendingTrace(s, init, conn);
      StepEffect(s, After(s, init), last);
      BindingStep(s, After(s, init), last, conn, After(s, es));
      HoldsStep(PendingOps(s, init, conn), PendingOp(s, After(s, init), last, conn), Sender(conn));
    }
  }

  ghost predicate BindsConn(s: Settings, t: Tables, e: Event, conn: ConnId) {
    Binds(s, t, e).Some? && Binds(s, t, e).value.conn == conn
  }

  /** Event `m` binds or drops `conn`. */
  ghost predicate Moves(s: Settings, es: seq<Event>, m: nat, conn: ConnId)
    requires m < |es|
  {
    BindsConn(s, After(s, es[..m]), es[m], conn) || es[m] == Disconnected(conn)
  }

  /** No event from `from` on binds or drops `conn`. */
  ghost predicate Settled(s: Settings, es: seq<Event>, from: nat, conn: ConnId) {
    forall m {:trigger Moves(s, es, m, conn)} :: from <= m < |es| ==> !Moves(s, es, m, conn)
  }

  /** Event `j` is a justified enrollment on `conn` of a key that belongs to `device`. */
  ghost predicate EnrollsTo(s: Settings, es: seq<Event>, j: nat, conn: ConnId, device: DeviceId, key: Bytes) {
    && j < |es| && Responds(es[j], conn)
    && Enrollee(es[j].w, key) == Some(device)
    && exists a: nat :: Justifies(s, es, a, j, conn, key)
  }

  /** Event `j` deploys to `device`, which has a stored key and no sender, while `conn` is the
      only connection waiting. */
  ghost predicate DeploysTo(s: Settings, es: seq<Event>, j: nat, conn: ConnId, device: DeviceId) {
    && j < |es| && es[j].DeployBind? && es[j].id == device
    && After(s, es[..j]).pending.Keys == {conn} && Unattached(After(s, es[..j]), device)
    && es[j].storedKey.Some? && es[j].storedKey.value != ""
  }

  /** Event `j` bound `conn` to `device`, by enrollment or by deployment, and nothing undid it since. */
  ghost predicate Explains(s: Settings, es: seq<Event>, j: nat, conn: ConnId, device: DeviceId) {
    && j < |es|
    && Settled(s, es, j + 1, conn)
    && (DeploysTo(s, es, j, conn, device) || exists key :: EnrollsTo(s, es, j, conn, device, key))
  }

  ghost predicate BindsTo(s: Settings, es: seq<Event>, j: nat, conn: ConnId, device: DeviceId) {
    && j < |es|
    && BindsConn(s, After(s, es[..j]), es[j], conn)
    && Binds(s, After(s, es[..j]), es[j]).value.device == device
  }

  /** Event `j` binds `conn` to `device` exactly for one of the two reasons. */
  lemma BindingReasons(s: Settings, es: seq<Event>, j: nat, conn: ConnId, device: DeviceId)
    requires j < |es|
    ensures BindsTo(s, es, j, conn, device)
      <==> DeploysTo(s, es, j, conn, device) || exists key :: EnrollsTo(s, es, j, conn, device, key)
  {
    var t, e := After(s, es[..j]), es[j];
    if e.DeployBind? {
      AdoptableIsSole(t, e.id, e.storedKey, conn);
    } else if Responds(e, conn) {
      if BindsTo(s, es, j, conn, device) {
        var key := Completes(s, t, e).value.1;
        CompletionIff(s, es, j, conn, key);
        assert EnrollsTo(s, es, j, conn, device, key);
      }
      if exists key :: EnrollsTo(s, es, j, conn, device, key) {
        var key :| EnrollsTo(s, es, j, conn, device, key);
        CompletionIff(s, es, j, conn, key);
      }
    }
  }

  lemma ExplainsIff(s: Settings, es: seq<Event>, j: nat, conn: ConnId, device: DeviceId)
    ensures LastWrite(BoundOps(s, es, conn), j, device) <==> Explains(s, es, j, conn, device)
  {
    var ops := BoundOps(s, es, conn);
    if j < |es| {
      BindingReasons(s, es, j, conn, device);
      OpsAt(s, es, conn, j);
      assert ops[j] == Put(device) <==> BindsTo(s, es, j, conn, device);
      forall m | j < m < |es|
        ensures ops[m].Keep? <==> !Moves(s, es, m, conn) {
        OpsAt(s, es, conn, m);
      }
    }
  }

  /** Every binding in the tables is explained by the run, and every explanation is a binding. */
  lemma BoundIff(s: Settings, es: seq<Event>, conn: ConnId, device: DeviceId)
    ensures Get(After(s, es).bound, conn) == Some(device) <==> exists j: nat :: Explains(s, es, j, conn, device)
  {
    BoundTrace(s, es, conn, device);
    forall j: nat ensures LastWrite(BoundOps(s, es, conn), j, device) <==> Explains(s, es, j, conn, device) {
      ExplainsIff(s, es, j, conn, device);
    }
  }

  /** Connection `conn` was bound by event `j` and announced ready again at `k` without closing. */
  ghost predicate Reopened(s: Settings, es: seq<Event>, conn: ConnId, j: nat, k: nat) {
    && j < k < |es|
    && BindsConn(s, After(s, es[..j]), es[j], conn)
    && Settled(s, es, j + 1, conn)
    && es[k].Ready? && es[k].conn == conn
    && (forall m :: k < m < |es| ==> !(es[m].Ready? && es[m].conn == conn))
  }

  lemma ReopenedOverlaps(s: Settings, es: seq<Event>, conn: ConnId, j: nat, k: nat)
    requires Reopened(s, es, conn, j, k)
    ensures conn in After(s, es).pending && conn in After(s, es).bound
  {
    var device := Binds(s, After(s, es[..j]), es[j]).value.device;
    BoundTrace(s, es, conn, device);
    PendingTrace(s, es, conn);
    OpsAt(s, es, conn, j);
    OpsAt(s, es, conn, k);
    forall m | j < m < |es|
      ensures BoundOps(s, es, conn)[m].Keep? && (k < m ==> PendingOps(s, es, conn)[m].Keep?) {
      assert !Moves(s, es, m, conn);
      OpsAt(s, es, conn, m);
    }
    assert LastWrite(BoundOps(s, es, conn), j, device);
    assert LastWrite(PendingOps(s, es, conn), k, Sender(conn));
  }

  lemma BoundSince(s: Settings, es: seq<Event>, conn: ConnId) returns (j: nat)
    requires conn in After(s, es).bound
    ensures j < |es| && BindsConn(s, After(s, es[..j]), es[j], conn) && Settled(s, es, j + 1, conn)
  {
    var device := After(s, es).bound[conn];
    BoundTrace(s, es, conn, device);
    var ops := BoundOps(s, es, conn);
    j :| LastWrite(ops, j, device);
    OpsAt(s, es, conn, j);
    forall m | j + 1 <= m < |es| ensures !Moves(s, es, m, conn) {
      OpsAt(s, es, conn, m);
      assert ops[m].Keep?;
    }
  }

  lemma WaitingSince(s: Settings, es: seq<Event>, conn: ConnId) returns (k: nat)
    requires conn in After(s, es).pending
    ensures k < |es| && es[k].Ready? && es[k].conn == conn && Settled(s, es, k + 1, conn)
    ensures forall m :: k < m < |es| ==> !(es[m].Ready? && es[m].conn == conn)
  {
    PendingTrace(s, es, conn);
    var ops := PendingOps(s, es, conn);
    k :| LastWrite(ops, k, Sender(conn));
    OpsAt(s, es, conn, k);
    forall m | k + 1 <= m < |es| ensures !Moves(s, es, m, conn) && !(es[m].Ready? && es[m].conn == conn) {
      OpsAt(s, es, conn, m);
      assert ops[m].Keep?;
    }
  }

  /** Event `k` announced `conn` ready and no later event bound or dropped it. */
  ghost predicate AnnouncedSince(s: Settings, es: seq<Event>, conn: ConnId, k: nat) {
    k < |es| && es[k].Ready? && es[k].conn == conn && Settled(s, es, k + 1, conn)
  }

  /** A connection is waiting exactly when it was announced ready and not bound or dropped since,
      whether or not it had closed before. */
  lemma WaitingIff(s: Settings, es: seq<Event>, conn: ConnId)
    ensures conn in After(s, es).pending <==> exists k: nat :: AnnouncedSince(s, es, conn, k)
  {
    if conn in After(s, es).pending {
      var k := WaitingSince(s, es, conn);
      assert AnnouncedSince(s, es, conn, k);
    }
    forall k: nat | AnnouncedSince(s, es, conn, k)
      ensures conn in After(s, es).pending
    {
      StillWaiting(s, es, conn, k);
    }
  }

  lemma {:induction false} StillWaiting(s: Settings, es: seq<Event>, conn: ConnId, k: nat)
    requires AnnouncedSince(s, es, conn, k)
    ensures conn in After(s, es).pending
  {
    var n := |es| - 1;
    var before := After(s, es[..n]);
    StepEffect(s, before, es[n]);
    BindingStep(s, before, es[n], conn, Step(s, before, es[n]).tables);
    if k < n {
      SettledPrefix(s, es, k + 1, conn);
      StillWaiting(s, es[..n], conn, k);
      assert !Moves(s, es, n, conn);
    }
  }

  lemma SettledPrefix(s: Settings, es: seq<Event>, from: nat, conn: ConnId)
    requires |es| > 0 && Settled(s, es, from, conn)
    ensures Settled(s, es[..|es| - 1], from, conn)
  {
    var init := es[..|es| - 1];
    forall m | from <= m < |init|
      ensures !Moves(s, init, m, conn)
    {
      assert !Moves(s, es, m, conn);
      assert init[..m] == es[..m];
    }
  }

  lemma OverlapReopened(s: Settings, es: seq<Event>, conn: ConnId) returns (j: nat, k: nat)
    requires conn in After(s, es).pending && conn in After(s, es).bound
    ensures Reopened(s, es, conn, j, k)
  {
    j := BoundSince(s, es, conn);
    k := WaitingSince(s, es, conn);
    assert k < j ==> Moves(s, es, j, conn);
  }

  /** A connection is both waiting and bound exactly when it became ready after it was bound. */
  lemma WaitingAndBoundIff(s: Settings, es: seq<Event>, conn: ConnId)
    ensures conn in After(s, es).pending && conn in After(s, es).bound
      <==> exists j: nat, k: nat :: Reopened(s, es, conn, j, k)
  {
    if conn in After(s, es).pending && conn in After(s, es).bound {
      var j, k := OverlapReopened(s, es, conn);
    }
    forall j: nat, k: nat | Reopened(s, es, conn, j, k)
      ensures conn in After(s, es).pending && conn in After(s, es).bound
    {
      ReopenedOverlaps(s, es, conn, j, k);
    }
  }

  predicate Mentions(e: Event, conn: ConnId) {
    (e.Ready? || e.Received?) && e.conn == conn
  }

  /** A binding needs a message or an earlier announcement on its connection. */
  lemma BindingMentioned(s: Settings, es: seq<Event>, j: nat, conn: ConnId) returns (i: nat)
    requires j < |es| && BindsConn(s, After(s, es[..j]), es[j], conn)
    ensures i <= j && Mentions(es[i], conn)
  {
    if es[j].DeployBind? {
      AdoptableIsSole(After(s, es[..j]), es[j].id, es[j].storedKey, conn);
      assert conn in After(s, es[..j]).pending.Keys;
      i := WaitingSince(s, es[..j], conn);
    } else {
      i := j;
    }
  }

  /** When every connection is announced ready before anything else is heard of it, as the source
      intends, no connection is ever waiting and bound at once. */
  lemma WaitingBoundDisjoint(s: Settings, es: seq<Event>)
    requires forall i, k :: 0 <= i < k < |es| && es[k].Ready? ==> !Mentions(es[i], es[k].conn)
    ensures After(s, es).pending.Keys !! After(s, es).bound.Keys
  {
    forall conn | conn in After(s, es).pending && conn in After(s, es).bound
      ensures false
    {
      var j, k := OverlapReopened(s, es, conn);
      var i := BindingMentioned(s, es, j, conn);
    }
  }

  /** A connection announces its key, answers its challenge and is announced ready only then. */
  ghost predicate IsLateReady(s: Settings, es: seq<Event>, conn: ConnId, key: Bytes, device: DeviceId) {
    && |es| == 3
    && Announces(s, es[0], conn, key)
    && Responds(es[1], conn) && Justifies(s, es, 0, 1, conn, key) && Enrollee(es[1].w, key) == Some(device)
    && es[2].Ready? && es[2].conn == conn
  }

  /** The reader of a connection starts before the announcement, so this can happen: the connection
      ends up waiting although it is bound. */
  lemma LateReadyOverlaps(s: Settings, es: seq<Event>, conn: ConnId, key: Bytes, device: DeviceId)
    requires IsLateReady(s, es, conn, key, device)
    ensures conn in After(s, es).pending && Get(After(s, es).bound, conn) == Some(device)
  {
    CompletionIff(s, es, 1, conn, key);
    var t := After(s, es[..1]);
    assert Binds(s, t, es[1]) == Some(Binding(conn, device, ByEnrollment(key)));
    LateReadySettles(s, es, conn);
    assert Reopened(s, es, conn, 1, 2);
    ReopenedOverlaps(s, es, conn, 1, 2);
    assert Explains(s, es, 1, conn, device) by {
      assert EnrollsTo(s, es, 1, conn, device, key);
    }
    BoundIff(s, es, conn, device);
  }

  lemma LateReadySettles(s: Settings, es: seq<Event>, conn: ConnId)
    requires |es| == 3 && es[2].Ready?
    ensures Settled(s, es, 2, conn)
  {
  }

  /** Likewise an announcement that comes after the close puts the connection back for good. */
  lemma LateReadyStays(s: Settings, es: seq<Event>, conn: ConnId, tlsKey: Bytes, w: World)
    requires es == [Disconnected(conn), Ready(conn, tlsKey, w)]
    ensures conn in After(s, es).pending
  {
    WaitingIff(s, es, conn);
    assert AnnouncedSince(s, es, conn, 1);
  }

  ghost predicate Forgotten(t: Tables, conn: ConnId) {
    conn !in t.pending && conn !in t.bound && conn !in t.challenges
  }

  lemma ForgottenMessage(s: Settings, t: Tables, e: Event, conn: ConnId, r: Tables)
    requires e.Received? && e.msg.Some? && e.conn != conn && MessageEffect(s, t, e, r) && Forgotten(t, conn)
    ensures Forgotten(r, conn)
  {
  }

  lemma ForgottenQuiet(t: Tables, e: Event, conn: ConnId, r: Tables)
    requires QuietEffect(t, e, r) && !Mentions(e, conn) && (e == Disconnected(conn) || Forgotten(t, conn))
    ensures Forgotten(r, conn)
  {
    if e.DeployBind? {
      var adopted := Adoptable(t, e.id, e.storedKey);
      assert adopted.Some? ==> adopted.value in t.pending;
    }
  }

  lemma ForgottenStep(s: Settings, t: Tables, e: Event, conn: ConnId, r: Tables)
    requires Effect(s, t, e, r) && !Mentions(e, conn)
    requires e == Disconnected(conn) || Forgotten(t, conn)
    ensures Forgotten(r, conn)
  {
    if e.Received? && e.msg.Some? {
      ForgottenMessage(s, t, e, conn, r);
    } else {
      ForgottenQuiet(t, e, conn, r);
    }
  }

  /** After its disconnect, a connection that is not heard of again is in none of the three tables. */
  lemma {:induction false} DisconnectedIsForgotten(s: Settings, es: seq<Event>, i: nat, conn: ConnId)
    requires i < |es| && es[i] == Disconnected(conn)
    requires forall m :: i < m < |es| ==> !Mentions(es[m], conn)
    ensures Forgotten(After(s, es), conn)
  {
    var n := |es| - 1;
    var before := After(s, es[..n]);
    assert es[n] == Disconnected(conn) || Forgotten(before, conn) by {
      if i < n {
        DisconnectedIsForgotten(s, es[..n], i, conn);
      }
    }
    var now := Step(s, before, es[n]).tables;
    assert Effect(s, before, es[n], now) by {
      StepEffect(s, before, es[n]);
    }
    ForgottenStep(s, before, es[n], conn, now);
  }

  // ---------------------------------------------------------------- devices

  /** A device has a sender exactly when it is flagged connected, and the index ignores spelling. */
  ghost predicate Wired(t: Tables) {
    && SpellingBlind(t.index)
    && (forall d :: d in t.devices ==>
          t.devices[d].deviceId == d && (t.devices[d].tlsConnected <==> t.devices[d].tlsSender.Some?))
  }

  lemma RegisteredWired(t: Tables, id: DeviceId, key: string, now: Millis)
    requires Wired(t)
    ensures Wired(Registered(t, id, key, now))
  {
    InsertKeepsBlind(t.index, key, id);
  }

  lemma ActivatedWired(t: Tables, conn: ConnId, id: DeviceId, key: string, now: Millis)
    requires Wired(t)
    ensures Wired(Activated(t, conn, id, key, now))
  {
    InsertKeepsBlind(t.index, key, id);
  }

  lemma ResponseWired(s: Settings, t: Tables, conn: ConnId, signature: Bytes, w: World)
    requires Wired(t)
    ensures Wired(OnResponse(s, t, conn, signature, w).tables)
  {
    var taken := t.(challenges := t.challenges - {conn});
    var key := ProvenKey(s, t, conn, signature, w.now);
    if key.Some? && Enrollee(w, key.value).Some? {
      var id, text := Enrollee(w, key.value).value, Encode(Standard, key.value);
      RegisteredWired(taken, id, text, w.now);
      ActivatedWired(Registered(taken, id, text, w.now), conn, id, text, w.now);
    }
  }

  lemma MessageWired(s: Settings, t: Tables, conn: ConnId, tlsKey: Bytes, msg: ClientMessage, w: World)
    requires Wired(t)
    ensures Wired(OnMessage(s, t, conn, tlsKey, msg, w).tables)
  {
    if msg.ChallengeResponse? {
      ResponseWired(s, t, conn, msg.signature, w);
    }
  }

  lemma ReadyWired(t: Tables, conn: ConnId, tlsKey: Bytes, w: World)
    requires Wired(t)
    ensures Wired(OnReady(t, conn, tlsKey, w))
  {
  }

  lemma ConnectedWired(s: Settings, t: Tables, tlsKey: Bytes, w: World)
    requires Wired(t)
    ensures Wired(OnConnect(s, t, tlsKey, w).0)
  {
    if w.listing.Some? && Find(w.listing.value, tlsKey).Some? {
      RegisteredWired(t, Find(w.listing.value, tlsKey).value.name, Encode(UrlSafe, tlsKey), w.now);
    }
  }

  lemma ClosedWired(t: Tables, conn: ConnId)
    requires Wired(t)
    ensures Wired(Removed(t, conn))
  {
  }

  lemma AdoptedWired(t: Tables, id: DeviceId, storedKey: Option<string>, now: Millis)
    requires Wired(t)
    ensures Wired(Adopted(t, id, storedKey, now))
  {
    if Adoptable(t, id, storedKey).Some? {
      ActivatedWired(t, Adoptable(t, id, storedKey).value, id, storedKey.value, now);
    }
  }

  lemma StepWired(s: Settings, t: Tables, e: Event)
    requires Wired(t)
    ensures Wired(Step(s, t, e).tables)
  {
    match e
    case Connecting(tlsKey, w) => ConnectedWired(s, t, tlsKey, w);
    case Ready(conn, tlsKey, w) => ReadyWired(t, conn, tlsKey, w);
    case Received(conn, tlsKey, msg, w) => if msg.Some? { MessageWired(s, t, conn, tlsKey, msg.value, w); }
    case Disconnected(conn) => ClosedWired(t, conn);
    case HttpRegister(device, w) => RegisteredWired(t, device.name, device.publicKey, w.now);
    case DeployBind(id, storedKey, w) => AdoptedWired(t, id, storedKey, w.now);
  }

  lemma {:induction false} AlwaysWired(s: Settings, es: seq<Event>)
    ensures Wired(After(s, es))
  {
    if |es| > 0 {
      AlwaysWired(s, es[..|es| - 1]);
      StepWired(s, After(s, es[..|es| - 1]), es[|es| - 1]);
    }
  }

  // ---------------------------------------------------------------- resolving a device

  /** `text` is filed under `id` consistently with `owner`. */
  ghost predicate Owns(owner: map<KeyName, DeviceId>, text: string, id: DeviceId) {
    NameOf(text) in owner && owner[NameOf(text)] == id
  }

  /** Every key text the event brings in belongs to the device it comes with, and a device created
      for a key owns that key. */
  ghost predicate KeysStable(s: Settings, owner: map<KeyName, DeviceId>, t: Tables, e: Event) {
    match e
    case Connecting(_, w) => ListingStable(owner, w)
    case HttpRegister(device, _) => Owns(owner, device.publicKey, device.name)
    case DeployBind(id, storedKey, _) => storedKey.Some? ==> Owns(owner, storedKey.value, id)
    case Received(_, _, _, w) =>
      && ListingStable(owner, w)
      && (Completes(s, t, e).Some? && w.created.Some? ==>
            Owns(owner, Encode(Standard, Completes(s, t, e).value.1), w.created.value))
    case _ => true
  }

  ghost predicate ListingStable(owner: map<KeyName, DeviceId>, w: World) {
    w.listing.Some? ==> forall d :: d in w.listing.value ==> Owns(owner, d.publicKey, d.name)
  }

  ghost predicate StableAt(s: Settings, owner: map<KeyName, DeviceId>, es: seq<Event>, i: nat)
    requires i < |es|
  {
    KeysStable(s, owner, After(s, es[..i]), es[i])
  }

  ghost predicate RunStable(s: Settings, owner: map<KeyName, DeviceId>, es: seq<Event>) {
    forall i {:trigger StableAt(s, owner, es, i)} :: 0 <= i < |es| ==> StableAt(s, owner, es, i)
  }

  ghost predicate IndexOwned(owner: map<KeyName, DeviceId>, index: Index) {
    forall text :: text in index ==> Owns(owner, text, index[text])
  }

  lemma InsertOwned(owner: map<KeyName, DeviceId>, index: Index, text: string, id: DeviceId)
    requires IndexOwned(owner, index) && Owns(owner, text, id)
    ensures IndexOwned(owner, Insert(index, text, id))
    ensures index.Keys <= Insert(index, text, id).Keys && text in Insert(index, text, id)
  {
    VariantsAreSpellings(text, text);
    forall t | t in Insert(index, text, id) ensures Owns(owner, t, Insert(index, text, id)[t]) {
      InsertLookup(index, text, id, t);
    }
  }

  lemma SpellingsShareName(key: Bytes)
    ensures NameOf(Encode(Standard, key)) == Key(key) && NameOf(Encode(UrlSafe, key)) == Key(key)
  {
    NameOfKey(Encode(Standard, key), key);
    NameOfKey(Encode(UrlSafe, key), key);
  }

  /** The device an enrollment binds owns the enrolled key. */
  lemma EnrolleeOwns(s: Settings, owner: map<KeyName, DeviceId>, t: Tables, e: Event)
    requires KeysStable(s, owner, t, e) && Completes(s, t, e).Some?
    requires Enrollee(e.w, Completes(s, t, e).value.1).Some?
    ensures Owns(owner, Encode(Standard, Completes(s, t, e).value.1), Enrollee(e.w, Completes(s, t, e).value.1).value)
  {
    var key := Completes(s, t, e).value.1;
    SpellingsShareName(key);
    var found := Find(e.w.listing.value, key);
    if found.Some? {
      assert Owns(owner, found.value.publicKey, found.value.name);
    }
  }

  lemma ReceivedIndex(s: Settings, t: Tables, e: Event)
    requires e.Received?
    ensures Step(s, t, e).tables.index ==
      if Completes(s, t, e).None? || Enrollee(e.w, Completes(s, t, e).value.1).None? then t.index
      else
        var key := Completes(s, t, e).value.1;
        var id := Enrollee(e.w, key).value;
        Insert(Insert(t.index, Encode(Standard, key), id), Encode(Standard, key), id)
  {
    if e.msg.Some? && e.msg.value.ChallengeResponse? {
      ResponseIndex(s, t, e.conn, e.msg.value.signature, e.w);
    } else if e.msg.Some? {
      assert OnMessage(s, t, e.conn, e.tlsKey, e.msg.value, e.w).tables.index == t.index;
    }
  }

  lemma ResponseIndex(s: Settings, t: Tables, conn: ConnId, signature: Bytes, w: World)
    ensures var proven := ProvenKey(s, t, conn, signature, w.now);
      OnResponse(s, t, conn, signature, w).tables.index ==
        if proven.None? || Enrollee(w, proven.value).None? then t.index
        else
          var text, id := Encode(Standard, proven.value), Enrollee(w, proven.value).value;
          Insert(Insert(t.index, text, id), text, id)
  {
  }

  lemma ReceivedOwned(s: Settings, owner: map<KeyName, DeviceId>, t: Tables, e: Event)
    requires e.Received? && KeysStable(s, owner, t, e) && IndexOwned(owner, t.index)
    ensures IndexOwned(owner, Step(s, t, e).tables.index)
    ensures t.index.Keys <= Step(s, t, e).tables.index.Keys
  {
    ReceivedIndex(s, t, e);
    if Completes(s, t, e).Some? && Enrollee(e.w, Completes(s, t, e).value.1).Some? {
      var key := Completes(s, t, e).value.1;
      EnrolleeOwns(s, owner, t, e);
      TwiceOwned(owner, t.index, Encode(Standard, key), Enrollee(e.w, key).value);
    }
  }

  lemma TwiceOwned(owner: map<KeyName, DeviceId>, index: Index, text: string, id: DeviceId)
    requires IndexOwned(owner, index) && Owns(owner, text, id)
    ensures IndexOwned(owner, Insert(Insert(index, text, id), text, id))
    ensures index.Keys <= Insert(Insert(index, text, id), text, id).Keys
  {
    InsertOwned(owner, index, text, id);
    InsertOwned(owner, Insert(index, text, id), text, id);
  }

  lemma StepOwned(s: Settings, owner: map<KeyName, DeviceId>, t: Tables, e: Event)
    requires KeysStable(s, owner, t, e) && IndexOwned(owner, t.index)
    ensures IndexOwned(owner, Step(s, t, e).tables.index)
    ensures t.index.Keys <= Step(s, t, e).tables.index.Keys
  {
    match e
    case Connecting(tlsKey, w) =>
      if w.listing.Some? && Find(w.listing.value, tlsKey).Some? {
        var found := Find(w.listing.value, tlsKey).value;
        InsertOwned(owner, t.index, Encode(UrlSafe, tlsKey), found.name);
      }
    case Ready(conn, tlsKey, w) =>
    case Received(conn, tlsKey, msg, w) => ReceivedOwned(s, owner, t, e);
    case Disconnected(conn) =>
    case HttpRegister(device, w) => InsertOwned(owner, t.index, device.publicKey, device.name);
    case DeployBind(id, storedKey, w) =>
      if Adoptable(t, id, storedKey).Some? {
        InsertOwned(owner, t.index, storedKey.value, id);
      }
  }

  lemma StablePrefix(s: Settings, owner: map<KeyName, DeviceId>, es: seq<Event>, n: nat)
    requires RunStable(s, owner, es) && n <= |es|
    ensures RunStable(s, owner, es[..n])
  {
    forall i | 0 <= i < n ensures StableAt(s, owner, es[..n], i) {
      assert StableAt(s, owner, es, i);
      assert es[..n][..i] == es[..i];
    }
  }

  /** The index only holds owned texts along a stable run. */
  lemma {:induction false} RunOwned(s: Settings, owner: map<KeyName, DeviceId>, es: seq<Event>)
    requires RunStable(s, owner, es)
    ensures IndexOwned(owner, After(s, es).index)
  {
    if |es| > 0 {
      var n := |es| - 1;
      StablePrefix(s, owner, es, n);
      RunOwned(s, owner, es[..n]);
      assert StableAt(s, owner, es, n);
      StepOwned(s, owner, After(s, es[..n]), es[n]);
    }
  }

  lemma StepKeepsText(s: Settings, t: Tables, e: Event, text: string)
    requires text in t.index
    ensures text in Step(s, t, e).tables.index
  {
    if e.Received? {
      ReceivedIndex(s, t, e);
    }
  }

  /** A text once filed stays filed. */
  lemma {:induction false} FiledStays(s: Settings, es: seq<Event>, from: nat, text: string)
    requires from <= |es| && text in After(s, es[..from]).index
    ensures text in After(s, es).index
  {
    if from == |es| {
      assert es[..from] == es;
    } else {
      var n := |es| - 1;
      assert es[..n][..from] == es[..from];
      FiledStays(s, es[..n], from, text);
      StepKeepsText(s, After(s, es[..n]), es[n], text);
    }
  }

  /** The step that enrolls `key` files it. */
  lemma EnrollmentFiles(s: Settings, t: Tables, e: Event, key: Bytes)
    requires Completes(s, t, e).Some? && Completes(s, t, e).value.1 == key && Enrollee(e.w, key).Some?
    ensures Encode(Standard, key) in Step(s, t, e).tables.index
  {
    ReceivedIndex(s, t, e);
    InsertedTwice(t.index, Encode(Standard, key), Enrollee(e.w, key).value);
  }

  lemma InsertedTwice(index: Index, text: string, id: DeviceId)
    ensures text in Insert(Insert(index, text, id), text, id)
  {
    VariantsAreSpellings(text, text);
  }

  /** On a connection bound by enrollment, the fast path and the key fallback resolve to the same
      device under either spelling, as long as keys do not change hands. */
  lemma FastPathAgrees(s: Settings, owner: map<KeyName, DeviceId>, es: seq<Event>, j: nat,
                       conn: ConnId, device: DeviceId, key: Bytes, engine: Engine)
    requires RunStable(s, owner, es)
    requires EnrollsTo(s, es, j, conn, device, key) && Settled(s, es, j + 1, conn)
    requires key != []
    ensures var t := After(s, es);
      && Resolve(t, conn, Encode(engine, key)) == Some(device)
      && Resolve(t.(bound := t.bound - {conn}), conn, Encode(engine, key)) == Some(device)
  {
    assert Explains(s, es, j, conn, device);
    BoundIff(s, es, conn, device);
    EnrollmentIndexed(s, owner, es, j, conn, device, key);
    AlwaysWired(s, es);
    FallbackFinds(owner, After(s, es), conn, device, key, engine);
  }

  lemma EnrollmentFiledAt(s: Settings, owner: map<KeyName, DeviceId>, es: seq<Event>, j: nat,
                          conn: ConnId, device: DeviceId, key: Bytes)
    requires j < |es| && StableAt(s, owner, es, j) && EnrollsTo(s, es, j, conn, device, key)
    ensures Encode(Standard, key) in After(s, es[..j + 1]).index && Owns(owner, Encode(Standard, key), device)
  {
    var before := After(s, es[..j]);
    CompletionIff(s, es, j, conn, key);
    EnrollmentFiles(s, before, es[j], key);
    EnrolleeOwns(s, owner, before, es[j]);
    AfterNext(s, es, j);
  }

  /** An enrolled key stays in the index, filed under its owner. */
  lemma EnrollmentIndexed(s: Settings, owner: map<KeyName, DeviceId>, es: seq<Event>, j: nat,
                          conn: ConnId, device: DeviceId, key: Bytes)
    requires RunStable(s, owner, es) && EnrollsTo(s, es, j, conn, device, key)
    ensures IndexOwned(owner, After(s, es).index)
    ensures Encode(Standard, key) in After(s, es).index && Owns(owner, Encode(Standard, key), device)
  {
    assert StableAt(s, owner, es, j);
    EnrollmentFiledAt(s, owner, es, j, conn, device, key);
    FiledStays(s, es, j + 1, Encode(Standard, key));
    RunOwned(s, owner, es);
  }

  lemma FallbackFinds(owner: map<KeyName, DeviceId>, t: Tables, conn: ConnId, device: DeviceId, key: Bytes,
                      engine: Engine)
    requires SpellingBlind(t.index) && IndexOwned(owner, t.index)
    requires Encode(Standard, key) in t.index && Owns(owner, Encode(Standard, key), device) && key != []
    ensures Resolve(t.(bound := t.bound - {conn}), conn, Encode(engine, key)) == Some(device)
  {
    var text := Encode(engine, key);
    SpellingsShareName(key);
    SpellingNotEmpty(engine, key);
    forall v ensures v in Variants(text) <==> NameOf(v) == NameOf(text) {
      VariantsAreSpellings(text, v);
    }
    assert text in Variants(text);
    FirstKnownBlind(t.index, Variants(text), text);
    assert NameOf(text) == NameOf(Encode(Standard, key));
    assert Get(t.index, text) == Get(t.index, Encode(Standard, key));
  }

  /** The key that enrolled a connection is its transport key whenever it has one. */
  lemma EnrolledKeyIsTransportKey(s: Settings, es: seq<Event>, j: nat, conn: ConnId, device: DeviceId, key: Bytes,
                                  tlsKey: Bytes)
    requires EnrollsTo(s, es, j, conn, device, key)
    requires forall m :: 0 <= m < j && es[m].Received? && es[m].conn == conn ==> es[m].tlsKey == tlsKey
    ensures tlsKey != [] ==> key == tlsKey
    ensures s.requireClientAuth ==> tlsKey != []
  {
    var a: nat :| Justifies(s, es, a, j, conn, key);
  }

  // ---------------------------------------------------------------- stale senders

  predicate Sends(t: Tables, d: DeviceId, conn: ConnId) {
    d in t.devices && t.devices[d].tlsSender == Some(Sender(conn))
  }

  /** Closing `conn` takes its sender away from every device exactly when no device other than the
      one it is bound to was using it. */
  lemma CloseLeavesNoSenderIff(t: Tables, conn: ConnId)
    ensures (forall d :: !Sends(Removed(t, conn), d, conn))
      <==> (forall d :: Sends(t, d, conn) ==> Get(t.bound, conn) == Some(d))
  {
    var r := Removed(t, conn);
    forall d ensures Sends(r, d, conn) <==> Sends(t, d, conn) && Get(t.bound, conn) != Some(d) {
    }
  }

  /** Closing `conn` takes away another connection's sender exactly when the device bound to `conn`
      has since reconnected. */
  lemma CloseKeepsOthersIff(t: Tables, conn: ConnId)
    ensures (forall d, other :: other != conn && Sends(t, d, other) ==> Sends(Removed(t, conn), d, other))
      <==> (forall d, other :: other != conn && Get(t.bound, conn) == Some(d) ==> !Sends(t, d, other))
  {
    var r := Removed(t, conn);
    forall d, other | other != conn
      ensures Sends(r, d, other) <==> Sends(t, d, other) && Get(t.bound, conn) != Some(d) {
    }
  }

  /** A certificate-authenticated connection that closes before enrolling leaves its sender behind. */
  lemma StaleSenderRun(s: Settings, key: Bytes, device: DeviceId, conn: ConnId, w: World)
    requires key != []
    ensures Sends(After(s, [HttpRegister(DeviceObject(device, Encode(UrlSafe, key)), w), Ready(conn, key, w),
                            Disconnected(conn)]), device, conn)
  {
    var es := [HttpRegister(DeviceObject(device, Encode(UrlSafe, key)), w), Ready(conn, key, w), Disconnected(conn)];
    RegisterFiles(s, es, key, device, w);
    AfterNext(s, es, 1);
    AfterNext(s, es, 2);
    assert es[..3] == es;
  }

  /** Registering a device over HTTP makes its key findable under either spelling. */
  lemma RegisterFiles(s: Settings, es: seq<Event>, key: Bytes, device: DeviceId, w: World)
    requires |es| > 0 && es[0] == HttpRegister(DeviceObject(device, Encode(UrlSafe, key)), w)
    ensures var t := After(s, es[..1]);
      && t == Registered(EMPTY, device, Encode(UrlSafe, key), w.now)
      && Get(t.index, Encode(Standard, key)) == Some(device)
      && Get(t.index, Encode(UrlSafe, key)) == Some(device)
  {
    AfterNext(s, es, 0);
    assert es[..0] == [];
    FilesBoth(EMPTY, key, device, w.now);
  }

  lemma FilesBoth(t: Tables, key: Bytes, device: DeviceId, now: Millis)
    ensures var r := Registered(t, device, Encode(UrlSafe, key), now);
      Get(r.index, Encode(Standard, key)) == Some(device) && Get(r.index, Encode(UrlSafe, key)) == Some(device)
  {
    var text := Encode(UrlSafe, key);
    SpellingsShareName(key);
    InsertLookup(t.index, text, device, Encode(Standard, key));
    InsertLookup(t.index, text, device, text);
  }

  /** A device registers, its first connection is adopted by a deployment, it connects a second time
      with its certificate, and then the first connection closes. */
  ghost predicate IsReconnect(es: seq<Event>, key: Bytes, device: DeviceId, first: ConnId, second: ConnId, w: World) {
    && key != [] && first != second && |es| == 5
    && es[0] == HttpRegister(DeviceObject(device, Encode(UrlSafe, key)), w)
    && es[1] == Ready(first, [], w)
    && es[2] == DeployBind(device, Some(Encode(UrlSafe, key)), w)
    && es[3] == Ready(second, key, w)
    && es[4] == Disconnected(first)
  }

  lemma ReadyNext(s: Settings, es: seq<Event>, i: nat, conn: ConnId, key: Bytes, w: World)
    requires i < |es| && es[i] == Ready(conn, key, w)
    ensures After(s, es[..i + 1]) == OnReady(After(s, es[..i]), conn, key, w)
  {
    AfterNext(s, es, i);
  }

  lemma ClosedLast(s: Settings, es: seq<Event>, n: nat, conn: ConnId)
    requires |es| == n + 1 && es[n] == Disconnected(conn)
    ensures After(s, es) == Removed(After(s, es[..n]), conn)
  {
  }

  lemma BindNext(s: Settings, es: seq<Event>, i: nat, id: DeviceId, stored: Option<string>, w: World)
    requires i < |es| && es[i] == DeployBind(id, stored, w)
    ensures After(s, es[..i + 1]) == Adopted(After(s, es[..i]), id, stored, w.now)
  {
    AfterNext(s, es, i);
  }

  lemma ReconnectBound(s: Settings, es: seq<Event>, key: Bytes, device: DeviceId, first: ConnId, second: ConnId,
                       w: World)
    requires IsReconnect(es, key, device, first, second, w)
    ensures HasBound(After(s, es[..3]), key, device, first)
  {
    RegisterFiles(s, es, key, device, w);
    SpellingNotEmpty(UrlSafe, key);
    AnonymousAdoption(key, device, first, w);
    ReadyNext(s, es, 1, first, [], w);
    BindNext(s, es, 2, device, Some(Encode(UrlSafe, key)), w);
  }

  ghost predicate HasBound(t: Tables, key: Bytes, device: DeviceId, conn: ConnId) {
    && Get(t.bound, conn) == Some(device) && device in t.devices
    && Get(t.index, Encode(Standard, key)) == Some(device)
  }

  lemma AnonymousAdoption(key: Bytes, device: DeviceId, conn: ConnId, w: World)
    requires Encode(UrlSafe, key) != ""
    ensures var text := Encode(UrlSafe, key);
      var r := Adopted(OnReady(Registered(EMPTY, device, text, w.now), conn, [], w), device, Some(text), w.now);
      HasBound(r, key, device, conn)
  {
    var t := OnReady(Registered(EMPTY, device, Encode(UrlSafe, key), w.now), conn, [], w);
    assert t.pending.Keys == {conn};
    SoleAdoption(t, key, device, conn, w);
  }

  lemma SoleAdoption(t: Tables, key: Bytes, device: DeviceId, conn: ConnId, w: World)
    requires Unattached(t, device) && device in t.devices && t.pending.Keys == {conn} && Encode(UrlSafe, key) != ""
    ensures HasBound(Adopted(t, device, Some(Encode(UrlSafe, key)), w.now), key, device, conn)
  {
    var text := Encode(UrlSafe, key);
    AdoptableIsSole(t, device, Some(text), conn);
    SpellingsShareName(key);
    InsertLookup(t.index, text, device, Encode(Standard, key));
  }

  /** Closing the old connection then silences the new one. */
  lemma ReconnectLosesSender(s: Settings, es: seq<Event>, key: Bytes, device: DeviceId, first: ConnId, second: ConnId,
                             w: World)
    requires IsReconnect(es, key, device, first, second, w)
    ensures Sends(After(s, es[..4]), device, second)
    ensures Silent(After(s, es), device)
  {
    ReconnectBound(s, es, key, device, first, second, w);
    ReadyNext(s, es, 3, second, key, w);
    ClosedLast(s, es, 4, first);
    ReconnectEnd(After(s, es[..3]), key, device, first, second, w);
  }

  /** The device is known and has no sender. */
  ghost predicate Silent(t: Tables, device: DeviceId) {
    device in t.devices && t.devices[device].tlsSender == None
  }

  lemma ReconnectEnd(t: Tables, key: Bytes, device: DeviceId, first: ConnId, second: ConnId, w: World)
    requires key != [] && HasBound(t, key, device, first)
    ensures Sends(OnReady(t, second, key, w), device, second)
    ensures Silent(Removed(OnReady(t, second, key, w), first), device)
  {
  }
}
