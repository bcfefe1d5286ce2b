/** Enrollment end to end: the gateway's run with the messages it pushes, the bytes they put on the
    connection, and the firmware's reader under every way those bytes can arrive. */
module Handshake {
  import opened Prelude
  import opened Messages
  import opened Cbor
  import opened Codec
  import opened Framing
  import Base64
  import opened KeyIndex
  import opened GatewayTables
  import opened Gateway
  import opened GatewayRuns
  import opened GatewaySenders
  import opened Enrollment

  // ---------------------------------------------------------------- every way to read

  /** What successive reads deliver that take `counts[0]`, `counts[1]`, ... bytes off the stream, each
      after one more reply has come in. */
  function CutReads(stream: Bytes, replies: seq<Bytes>, counts: seq<nat>): (inbox: seq<Option<Bytes>>)
    requires CutsFit(stream, replies, counts)
    ensures |inbox| == |counts|
    decreases |counts|
  {
    if counts == [] then []
    else
      var s := Grown(stream, replies);
      [Taken(s, RX_BUFFER, counts[0])] + CutReads(s[counts[0]..], Later(replies), counts[1..])
  }

  function Grown(stream: Bytes, replies: seq<Bytes>): Bytes { if replies == [] then stream else stream + replies[0] }

  function Later(replies: seq<Bytes>): seq<Bytes> { if replies == [] then [] else replies[1..] }

  /** No read takes more than the stream or the buffer holds. */
  predicate CutsFit(stream: Bytes, replies: seq<Bytes>, counts: seq<nat>)
    decreases |counts|
  {
    counts != [] ==>
      var s := Grown(stream, replies);
      counts[0] <= |s| && counts[0] <= RX_BUFFER && CutsFit(s[counts[0]..], Later(replies), counts[1..])
  }

  lemma {:induction false} ReadsAreCuts(c: Channel, inbox: seq<Option<Bytes>>) returns (counts: seq<nat>)
    requires Feeds(c, inbox)
    ensures |counts| == |inbox| && CutsFit(c.stream, c.replies, counts)
    ensures CutReads(c.stream, c.replies, counts) == inbox
    decreases |inbox|
  {
    counts := [];
    if inbox != [] {
      var s := Grown(c.stream, c.replies);
      assert Answered(c).stream == s && Answered(c).replies == Later(c.replies);
      var r := ReadBy(s, RX_BUFFER, c.plan, c.now, REPLY_TIMEOUT);
      ReadTakes(s, RX_BUFFER, c.plan, c.now, REPLY_TIMEOUT);
      var after := Fetch(Answered(c), REPLY_TIMEOUT).1;
      var rest := ReadsAreCuts(after, inbox[1..]);
      counts := [r.got] + rest;
      assert counts[1..] == rest;
      assert inbox == [inbox[0]] + inbox[1..];
      assert CutReads(s[r.got..], Later(c.replies), rest) == inbox[1..];
    }
  }

  lemma {:induction false} CutsAreReads(stream: Bytes, replies: seq<Bytes>, counts: seq<nat>, now: int)
    returns (plan: seq<Arrival>)
    requires CutsFit(stream, replies, counts)
    ensures Feeds(Channel(stream, plan, now, replies), CutReads(stream, replies, counts))
    decreases |counts|
  {
    plan := [];
    if counts != [] {
      var s, n := Grown(stream, replies), counts[0];
      var inbox := CutReads(stream, replies, counts);
      var later := ReadBy(s, RX_BUFFER, PlanFor(s, RX_BUFFER, n), now, REPLY_TIMEOUT).now;
      PlanTakes(s, RX_BUFFER, n, [], now, REPLY_TIMEOUT);
      assert PlanFor(s, RX_BUFFER, n) + [] == PlanFor(s, RX_BUFFER, n);
      var rest := CutsAreReads(s[n..], Later(replies), counts[1..], later);
      plan := PlanFor(s, RX_BUFFER, n) + rest;
      PlanTakes(s, RX_BUFFER, n, rest, now, REPLY_TIMEOUT);
      SameClock(s, n, rest, now);
      ReadTakes(s, RX_BUFFER, plan, now, REPLY_TIMEOUT);
      var c := Channel(stream, plan, now, replies);
      assert Answered(c) == Channel(s, plan, now, Later(replies));
      assert Fetch(Answered(c), REPLY_TIMEOUT) == (inbox[0], Channel(s[n..], rest, later, Later(replies)));
      assert inbox[1..] == CutReads(s[n..], Later(replies), counts[1..]);
    }
  }

  /** The clock after such a read does not depend on the arrivals that follow. */
  lemma SameClock(s: Bytes, n: nat, rest: seq<Arrival>, now: int)
    requires n <= |s| && n <= RX_BUFFER
    ensures ReadBy(s, RX_BUFFER, PlanFor(s, RX_BUFFER, n) + rest, now, REPLY_TIMEOUT).now
      == ReadBy(s, RX_BUFFER, PlanFor(s, RX_BUFFER, n), now, REPLY_TIMEOUT).now
  {
    ClockOf(s, n, rest, now);
    ClockOf(s, n, [], now);
    assert PlanFor(s, RX_BUFFER, n) + [] == PlanFor(s, RX_BUFFER, n);
  }

  lemma ClockOf(s: Bytes, n: nat, rest: seq<Arrival>, now: int)
    requires n <= |s| && n <= RX_BUFFER
    ensures ReadBy(s, RX_BUFFER, PlanFor(s, RX_BUFFER, n) + rest, now, REPLY_TIMEOUT).now
      == if n < 4 then now + 50 else now
  {
    var plan := PlanFor(s, RX_BUFFER, n) + rest;
    assert First(plan) == Piece(n, 0);
    var deadline := now + REPLY_TIMEOUT;
    if |PlanFor(s, RX_BUFFER, n)| == 2 {
      assert Rest(plan) == [Break(0)] + rest && First(Rest(plan)) == Break(0);
      if n < 4 {
        assert Gather(|s|, RX_BUFFER, 4, n, Rest(plan), now + 50, deadline).now == now + 50;
      } else {
        assert Gather(|s|, RX_BUFFER, 4, 0, plan, now, deadline) == Progress(n, now, Rest(plan), Enough);
        assert Gather(|s|, RX_BUFFER, FrameLength(s), n, Rest(plan), now, deadline).now == now;
      }
    } else {
      assert Gather(|s|, RX_BUFFER, 4, 0, plan, now, deadline) == Progress(n, now, Rest(plan), Enough);
    }
  }

  lemma FeedsOnly(c: Channel, inbox: seq<Option<Bytes>>)
    requires |inbox| == 3 && Feeds(c, inbox)
    ensures InboxOf(c) == inbox
  {
    var r0 := Fetch(Answered(c), REPLY_TIMEOUT);
    var r1 := Fetch(Answered(r0.1), REPLY_TIMEOUT);
    assert Feeds(r0.1, inbox[1..]) && r1.0 == inbox[1..][0];
    assert Feeds(r1.1, inbox[1..][1..]) && Fetch(Answered(r1.1), REPLY_TIMEOUT).0 == inbox[1..][1..][0];
  }

  ghost predicate EnrollsBy(dev: Identity, replies: seq<Bytes>, sends: nat, counts: seq<nat>) {
    |counts| == 3 && CutsFit([], replies, counts) && Enroll(dev, CutReads([], replies, counts), sends).ok
  }

  /** The attempt succeeds under these arrivals. */
  ghost predicate Succeeds(dev: Identity, replies: seq<Bytes>, sends: nat, plan: seq<Arrival>, now: int) {
    Enroll(dev, InboxOf(Channel([], plan, now, replies)), sends).ok
  }

  /** Some arrivals make an attempt succeed exactly when some three byte counts do. */
  lemma SomePlanSucceedsIff(dev: Identity, replies: seq<Bytes>, sends: nat, now: int)
    ensures (exists plan :: Succeeds(dev, replies, sends, plan, now)) <==>
      exists counts :: EnrollsBy(dev, replies, sends, counts)
  {
    if plan :| Succeeds(dev, replies, sends, plan, now) {
      var c := Channel([], plan, now, replies);
      FeedsInbox(c);
      var counts := ReadsAreCuts(c, InboxOf(c));
      assert EnrollsBy(dev, replies, sends, counts);
    }
    if counts :| EnrollsBy(dev, replies, sends, counts) {
      var plan := CutsAreReads([], replies, counts, now);
      FeedsOnly(Channel([], plan, now, replies), CutReads([], replies, counts));
      assert Succeeds(dev, replies, sends, plan, now);
    }
  }

  // ---------------------------------------------------------------- runs with pushed messages

  /** The gateway handles an event, or pushes a message to a device over the sender it holds for it. */
  datatype Act = Handle(event: Event) | Push(device: DeviceId, message: ServerMessage)

  predicate Pushable(m: ServerMessage) {
    m.DeployApplication? || m.StopApplication? || m.RequestDeviceInfo? || m.RequestApplicationStatus?
  }

  predicate Sendable(m: ServerMessage) { ServerFits(m) && |EncodeServer(m)| + 4 < 0x1_0000_0000 }

  function EventsOf(acts: seq<Act>): (es: seq<Event>) {
    if |acts| == 0 then []
    else EventsOf(acts[..|acts| - 1]) + (if acts[|acts| - 1].Handle? then [acts[|acts| - 1].event] else [])
  }

  /** The number of events before act `i`. */
  function At(acts: seq<Act>, i: nat): nat
    requires i <= |acts|
  {
    |EventsOf(acts[..i])|
  }

  /** A run of the gateway with the tables it has before each act. */
  datatype Timeline = Timeline(settings: Settings, acts: seq<Act>, tables: nat -> Tables)

  ghost predicate TablesAt(t: Timeline, i: nat)
    requires i <= |t.acts|
  {
    t.tables(i) == After(t.settings, EventsOf(t.acts[..i]))
  }

  /** The tables are those of the run, and only deployments and requests are pushed. */
  ghost predicate IsRun(t: Timeline) {
    && (forall i {:trigger TablesAt(t, i)} :: 0 <= i <= |t.acts| ==> TablesAt(t, i))
    && OnlyPushes(t.acts)
  }

  /** Act `i` is a push to a device that holds the sender of `conn`. */
  ghost predicate PushedOn(t: Timeline, i: nat, conn: ConnId) {
    i < |t.acts| && t.acts[i].Push? && Sends(t.tables(i), t.acts[i].device, conn)
  }

  /** What act `i` sends on `conn`. */
  ghost function SentBy(t: Timeline, i: nat, conn: ConnId): seq<ServerMessage> {
    if i >= |t.acts| then []
    else
      match t.acts[i]
      case Handle(e) => if e.Received? && e.conn == conn then Step(t.settings, t.tables(i), e).replies else []
      case Push(_, m) => if PushedOn(t, i, conn) then [m] else []
  }

  ghost function SendingOn(t: Timeline, conn: ConnId): nat -> seq<ServerMessage> {
    (i: nat) => SentBy(t, i, conn)
  }

  /** What positions `from` up to but excluding `end` contribute, in order. */
  ghost function Gathered(f: nat -> seq<ServerMessage>, from: nat, end: nat): seq<ServerMessage>
    requires from <= end
    decreases end
  {
    if from == end then [] else Gathered(f, from, end - 1) + f(end - 1)
  }

  /** What the acts from `from` up to but excluding `end` send on `conn`. */
  ghost function Outgoing(t: Timeline, from: nat, end: nat, conn: ConnId): seq<ServerMessage>
    requires from <= end
  {
    Gathered(SendingOn(t, conn), from, end)
  }

  ghost predicate OnlyPushes(acts: seq<Act>) {
    forall i :: 0 <= i < |acts| && acts[i].Push? ==> Pushable(acts[i].message)
  }

  predicate AllSendable(ms: seq<ServerMessage>) { forall m :: m in ms ==> Sendable(m) }

  lemma ShortPayloads(ms: seq<ServerMessage>, p: Bytes)
    requires AllSendable(ms) && p in Payloads(ms)
    ensures |p| + 4 < 0x1_0000_0000
  {
    var i :| 0 <= i < |ms| && Payloads(ms)[i] == p;
    assert ms[i] in ms;
  }

  function OnWire(ms: seq<ServerMessage>): Bytes
    requires AllSendable(ms)
  {
    assert forall p :: p in Payloads(ms) ==> |p| < 0x1_0000_0000 by {
      forall p | p in Payloads(ms)
        ensures |p| < 0x1_0000_0000
      {
        ShortPayloads(ms, p);
      }
    }
    Wire(Payloads(ms))
  }

  lemma WireUnfolds(ps: seq<Bytes>)
    requires ps != [] && forall p :: p in ps ==> |p| < 0x1_0000_0000
    ensures Wire(ps) == Frame(ps[0]) + Wire(ps[1..])
  {
  }

  lemma OnWireUnfolds(ms: seq<ServerMessage>)
    requires AllSendable(ms) && ms != []
    ensures Sendable(ms[0]) && AllSendable(ms[1..])
    ensures OnWire(ms) == Frame(EncodeServer(ms[0])) + OnWire(ms[1..])
  {
    assert ms[0] in ms;
    forall p | p in Payloads(ms)
      ensures |p| < 0x1_0000_0000
    {
      ShortPayloads(ms, p);
    }
    WireUnfolds(Payloads(ms));
    assert Payloads(ms)[1..] == Payloads(ms[1..]);
  }

  lemma {:induction false} EventsPrefix(acts: seq<Act>, i: nat)
    requires i <= |acts|
    ensures EventsOf(acts[..i]) <= EventsOf(acts)
    ensures i < |acts| && acts[i].Handle? ==>
      At(acts, i) < |EventsOf(acts)| && EventsOf(acts)[At(acts, i)] == acts[i].event
    ensures EventsOf(acts)[..At(acts, i)] == EventsOf(acts[..i])
  {
    if i < |acts| {
      var n := |acts| - 1;
      EventsPrefix(acts[..n], i);
      assert acts[..n][..i] == acts[..i];
    } else {
      assert acts[..i] == acts;
    }
  }

  lemma {:induction false} GatheredFrom(f: nat -> seq<ServerMessage>, from: nat, end: nat, m: ServerMessage)
    returns (i: nat)
    requires from <= end && m in Gathered(f, from, end)
    ensures from <= i < end && m in f(i)
    decreases end
  {
    if m in f(end - 1) {
      i := end - 1;
    } else {
      i := GatheredFrom(f, from, end - 1, m);
    }
  }

  lemma {:induction false} GatheredJoins(f: nat -> seq<ServerMessage>, from: nat, mid: nat, end: nat)
    requires from <= mid <= end
    ensures Gathered(f, from, end) == Gathered(f, from, mid) + Gathered(f, mid, end)
    decreases end
  {
    if mid < end {
      GatheredJoins(f, from, mid, end - 1);
    }
  }

  lemma {:induction false} GatheredEmptyIff(f: nat -> seq<ServerMessage>, from: nat, end: nat)
    requires from <= end
    ensures Gathered(f, from, end) == [] <==> forall i :: from <= i < end ==> f(i) == []
    decreases end
  {
    if from < end {
      GatheredEmptyIff(f, from, end - 1);
    }
  }

  /** Whatever goes out on a connection is a reply of the run on it, or pushed. */
  lemma OutgoingSent(t: Timeline, from: nat, end: nat, conn: ConnId, m: ServerMessage)
    requires IsRun(t) && from <= end && m in Outgoing(t, from, end, conn)
    ensures SentOn(t.settings, EventsOf(t.acts), conn, m)
  {
    var i := GatheredFrom(SendingOn(t, conn), from, end, m);
    if t.acts[i].Handle? {
      EventsPrefix(t.acts, i);
      assert TablesAt(t, i);
      assert Replies(t.settings, EventsOf(t.acts), At(t.acts, i), conn, m);
    }
  }

  // ---------------------------------------------------------------- agreement

  /** The bytes that the three sends of an attempt draw: what goes out on `conn` up to act `i`, from
      there up to act `j`, and after that. */
  ghost function Segments(t: Timeline, i: nat, j: nat, conn: ConnId): seq<seq<ServerMessage>>
    requires i <= j <= |t.acts|
  {
    [Outgoing(t, 0, i, conn), Outgoing(t, i, j, conn), Outgoing(t, j, |t.acts|, conn)]
  }

  predicate SegmentsSendable(segments: seq<seq<ServerMessage>>) {
    forall k :: 0 <= k < |segments| ==> AllSendable(segments[k])
  }

  function Lines(segments: seq<seq<ServerMessage>>): (lines: seq<Bytes>)
    requires SegmentsSendable(segments)
    ensures |lines| == |segments| && forall k :: 0 <= k < |segments| ==> lines[k] == OnWire(segments[k])
  {
    seq(|segments|, k requires 0 <= k < |segments| => OnWire(segments[k]))
  }

  /** The gateway has bound `conn`, by a justified enrollment of `key`, to some device. */
  ghost predicate Agreed(t: Timeline, conn: ConnId, key: Bytes) {
    exists i: nat, device :: EnrollsTo(t.settings, EventsOf(t.acts), i, conn, device, key)
  }

  /** Over every run: success means agreement under all arrivals, if and only if the gateway did bind
      the connection or no three byte counts make the reader see an enrollment in what it sent. */
  lemma AgreementIff(t: Timeline, i: nat, j: nat, conn: ConnId, dev: Identity, sends: nat, now: int)
    requires i <= j <= |t.acts| && SegmentsSendable(Segments(t, i, j, conn))
    ensures var replies := Lines(Segments(t, i, j, conn));
      (forall plan :: Succeeds(dev, replies, sends, plan, now) ==> Agreed(t, conn, dev.key)) <==>
        Agreed(t, conn, dev.key) || !exists counts :: EnrollsBy(dev, replies, sends, counts)
  {
    SomePlanSucceedsIff(dev, Lines(Segments(t, i, j, conn)), sends, now);
  }

  /** A read of a stream of at most one message delivers that message and leaves nothing, or delivers nothing. */
  lemma ReadOne(stream: Bytes, ms: seq<ServerMessage>, plan: seq<Arrival>, now: int, r: Read)
    requires |ms| <= 1 && AllSendable(ms) && stream == OnWire(ms)
    requires r == ReadBy(stream, RX_BUFFER, plan, now, REPLY_TIMEOUT) && r.frame.Some?
    ensures |ms| == 1 && Sendable(ms[0]) && stream[..r.frame.value] == Frame(EncodeServer(ms[0]))
    ensures stream[r.got..] == []
  {
    if |ms| == 1 {
      OnWireUnfolds(ms);
      var frame := Frame(EncodeServer(ms[0]));
      assert stream == frame by {
        assert ms[1..] == [] && frame + [] == frame;
      }
      WholeFrameRead(EncodeServer(ms[0]), RX_BUFFER, plan, now, REPLY_TIMEOUT);
      assert stream[..|stream|] == stream && stream[|stream|..] == [];
    }
  }

  /** As long as every read delivers, each frame carries the message its send drew. */
  ghost predicate Aligned(inbox: seq<Option<Bytes>>, segments: seq<seq<ServerMessage>>)
    requires |inbox| == |segments|
    decreases |inbox|
  {
    inbox != [] && inbox[0].Some? ==>
      && |segments[0]| == 1 && Sendable(segments[0][0]) && inbox[0].value == Frame(EncodeServer(segments[0][0]))
      && Aligned(inbox[1..], segments[1..])
  }

  lemma {:induction false} AlignedReads(c: Channel, inbox: seq<Option<Bytes>>, segments: seq<seq<ServerMessage>>)
    requires |inbox| == |segments| && Feeds(c, inbox)
    requires SegmentsSendable(segments) && forall k :: 0 <= k < |segments| ==> |segments[k]| <= 1
    requires c.stream == [] && c.replies == Lines(segments)
    ensures Aligned(inbox, segments)
    decreases |inbox|
  {
    if inbox != [] && inbox[0].Some? {
      var stream := c.replies[0];
      assert Answered(c).stream == stream by {
        assert [] + stream == stream;
      }
      var r := ReadBy(stream, RX_BUFFER, c.plan, c.now, REPLY_TIMEOUT);
      ReadOne(stream, segments[0], c.plan, c.now, r);
      assert c.replies[1..] == Lines(segments[1..]);
      AlignedReads(Fetch(Answered(c), REPLY_TIMEOUT).1, inbox[1..], segments[1..]);
    }
  }

  /** Every message in the segments was sent on the connection. */
  ghost predicate AllSent(s: Settings, es: seq<Event>, conn: ConnId, segments: seq<seq<ServerMessage>>) {
    forall k, m :: 0 <= k < |segments| && m in segments[k] ==> SentOn(s, es, conn, m)
  }

  lemma SegmentsSent(t: Timeline, i: nat, j: nat, conn: ConnId)
    requires i <= j <= |t.acts| && IsRun(t)
    ensures AllSent(t.settings, EventsOf(t.acts), conn, Segments(t, i, j, conn))
  {
    forall k, m | 0 <= k < 3 && m in Segments(t, i, j, conn)[k]
      ensures SentOn(t.settings, EventsOf(t.acts), conn, m)
    {
      OutgoingSent(t, if k == 0 then 0 else if k == 1 then i else j,
                   if k == 0 then i else if k == 1 then j else |t.acts|, conn, m);
    }
  }

  /** The frames that decide an attempt: the third only after a challenge. */
  lemma UsedDecides(dev: Identity, inbox: seq<Option<Bytes>>, sends: nat) returns (used: seq<Option<Bytes>>)
    requires |inbox| == 3 && Enroll(dev, inbox, sends).ok
    ensures used <= inbox && Enroll(dev, used, sends).ok && forall k :: 0 <= k < |used| ==> inbox[k].Some?
  {
    used := if inbox[1].Some? && Leads(inbox[1].value, 0x82, 0x09) then inbox else inbox[..2];
  }

  lemma {:induction false} AlignedGenuine(
    s: Settings, es: seq<Event>, conn: ConnId, inbox: seq<Option<Bytes>>, segments: seq<seq<ServerMessage>>, n: nat)
    requires |inbox| == |segments| && Aligned(inbox, segments) && AllSent(s, es, conn, segments)
    requires n <= |inbox| && forall k :: 0 <= k < n ==> inbox[k].Some?
    ensures forall k :: 0 <= k < n ==> Genuine(s, es, conn, inbox[k].value)
    decreases |inbox|
  {
    if n > 0 {
      var m := segments[0][0];
      assert m in segments[0] && SentOn(s, es, conn, m);
      assert Genuine(s, es, conn, inbox[0].value);
      AlignedGenuine(s, es, conn, inbox[1..], segments[1..], n - 1);
      forall k | 0 < k < n
        ensures Genuine(s, es, conn, inbox[k].value)
      {
        assert inbox[k] == inbox[1..][k - 1];
      }
    }
  }

  /** Over every run and under all arrivals: when each send draws at most one message, so that nothing
      is pushed beside the replies, success means that the gateway has bound the connection, by a
      justified enrollment, to the device its key belongs to. */
  lemma HandshakeAgreement(t: Timeline, i: nat, j: nat, conn: ConnId, dev: Identity, sends: nat,
                           plan: seq<Arrival>, now: int) returns (e: nat, device: DeviceId)
    requires i <= j <= |t.acts| && IsRun(t) && SegmentsSendable(Segments(t, i, j, conn))
    requires forall k :: 0 <= k < 3 ==> |Segments(t, i, j, conn)[k]| <= 1
    requires AnnouncesOnly(EventsOf(t.acts), conn, dev.key)
    requires Succeeds(dev, Lines(Segments(t, i, j, conn)), sends, plan, now)
    ensures EnrollsTo(t.settings, EventsOf(t.acts), e, conn, device, dev.key)
    ensures Get(After(t.settings, EventsOf(t.acts)[..e + 1]).bound, conn) == Some(device)
  {
    SegmentsSent(t, i, j, conn);
    e, device := AlignedAgreement(t.settings, EventsOf(t.acts), conn, dev, sends, Segments(t, i, j, conn), plan, now);
  }

  lemma AlignedAgreement(s: Settings, es: seq<Event>, conn: ConnId, dev: Identity, sends: nat,
                         segments: seq<seq<ServerMessage>>, plan: seq<Arrival>, now: int)
    returns (e: nat, device: DeviceId)
    requires |segments| == 3 && SegmentsSendable(segments) && AllSent(s, es, conn, segments)
    requires AnnouncesOnly(es, conn, dev.key) && forall k :: 0 <= k < 3 ==> |segments[k]| <= 1
    requires Succeeds(dev, Lines(segments), sends, plan, now)
    ensures EnrollsTo(s, es, e, conn, device, dev.key)
    ensures Get(After(s, es[..e + 1]).bound, conn) == Some(device)
  {
    var c := Channel([], plan, now, Lines(segments));
    var inbox := InboxOf(c);
    FeedsInbox(c);
    AlignedReads(c, inbox, segments);
    e, device := AlignedInboxAgreement(s, es, conn, dev, sends, segments, inbox);
  }

  lemma AlignedInboxAgreement(s: Settings, es: seq<Event>, conn: ConnId, dev: Identity, sends: nat,
                              segments: seq<seq<ServerMessage>>, inbox: seq<Option<Bytes>>)
    returns (e: nat, device: DeviceId)
    requires |segments| == 3 == |inbox| && AllSent(s, es, conn, segments) && Aligned(inbox, segments)
    requires AnnouncesOnly(es, conn, dev.key) && Enroll(dev, inbox, sends).ok
    ensures EnrollsTo(s, es, e, conn, device, dev.key)
    ensures Get(After(s, es[..e + 1]).bound, conn) == Some(device)
  {
    var used := UsedDecides(dev, inbox, sends);
    UsedGenuine(s, es, conn, segments, inbox, used);
    e, device := GenuineAgreement(s, es, conn, dev, used, sends);
  }

  lemma UsedGenuine(s: Settings, es: seq<Event>, conn: ConnId, segments: seq<seq<ServerMessage>>,
                    inbox: seq<Option<Bytes>>, used: seq<Option<Bytes>>)
    requires |segments| == |inbox| && AllSent(s, es, conn, segments) && Aligned(inbox, segments)
    requires used <= inbox && forall k :: 0 <= k < |used| ==> inbox[k].Some?
    ensures forall f :: f in used && f.Some? ==> Genuine(s, es, conn, f.value)
  {
    AlignedGenuine(s, es, conn, inbox, segments, |used|);
    forall f | f in used && f.Some?
      ensures Genuine(s, es, conn, f.value)
    {
      var k :| 0 <= k < |used| && used[k] == f;
      assert f == inbox[k];
    }
  }

  // ---------------------------------------------------------------- a misread enrollment

  const UUID_LEAD: Bytes := [0, 0, 0, 2, 0x82, 0x03]

  /** A deployment whose module holds, at the right place, bytes that read like a UUID frame. */
  predicate LooksEnrolled(m: ServerMessage) {
    && m.DeployApplication? && |m.appId| == 1 && |m.name| == 1 && |m.moduleHash| == 32 && m.config.None?
    && |m.wasm| == 24 && m.wasm[12..18] == UUID_LEAD
  }

  lemma DeployBytes(m: ServerMessage) returns (front: Bytes)
    requires LooksEnrolled(m)
    ensures ServerFits(m) && |front| == 42 && EncodeServer(m) == front + (m.wasm + [NULL])
  {
    var id, name, hash := Str(TEXT, m.appId), Str(TEXT, m.name), Str(BYTES, m.moduleHash);
    var head := Head(BYTES, |m.wasm|);
    assert |id| == 2 && |name| == 2 && |hash| == 34 && |head| == 2;
    front := [0x86] + [0x05] + id + name + hash + head;
    DeployLayout(m, id, name, hash, head, front);
  }

  lemma DeployLayout(m: ServerMessage, id: Bytes, name: Bytes, hash: Bytes, head: Bytes, front: Bytes)
    requires m.DeployApplication? && ServerFits(m) && m.config.None?
    requires id == Str(TEXT, m.appId) && name == Str(TEXT, m.name) && hash == Str(BYTES, m.moduleHash)
    requires head == Head(BYTES, |m.wasm|) && front == [0x86] + [0x05] + id + name + hash + head
    ensures EncodeServer(m) == front + (m.wasm + [NULL])
  {
    var lead, tag := Head(ARRAY, ServerTag(m).0), Head(UINT, ServerTag(m).1);
    assert lead == [0x86] && tag == [0x05];
    assert ServerBody(m) == id + (name + (hash + ((head + m.wasm) + [NULL])));
    SevenParts(lead, tag, id, name, hash, head, m.wasm, [NULL]);
  }

  lemma SevenParts(a: Bytes, b: Bytes, c: Bytes, d: Bytes, e: Bytes, f: Bytes, g: Bytes, h: Bytes)
    ensures a + (b + (c + (d + (e + ((f + g) + h))))) == a + b + c + d + e + f + (g + h)
  {
  }

  /** Sixty-four bytes into the acceptance and such a deployment, the stream reads like a UUID frame. */
  lemma MisreadBytes(m: ServerMessage, more: Bytes)
    requires LooksEnrolled(m)
    ensures AllSendable([EnrollmentAccepted, m])
    ensures var stream := OnWire([EnrollmentAccepted, m]) + more;
      && |stream| >= 77 && stream[..6] == Frame(EncodeServer(EnrollmentAccepted)) && FrameLength(stream) == 6
      && stream[64..70] == UUID_LEAD
  {
    var front := DeployBytes(m);
    PlainLength(EnrollmentAccepted);
    TwoOnWire(EnrollmentAccepted, m);
    var p, q := EncodeServer(EnrollmentAccepted), EncodeServer(m);
    Associates(Frame(p), Frame(q), more);
    FrameAtFront(p, Frame(q) + more);
    DeployOffset(Frame(p), Be32(|q|), front, m.wasm, more);
  }

  lemma TwoOnWire(a: ServerMessage, m: ServerMessage)
    requires Sendable(a) && Sendable(m)
    ensures AllSendable([a, m]) && OnWire([a, m]) == Frame(EncodeServer(a)) + Frame(EncodeServer(m))
  {
    var ms := [a, m];
    OnWireUnfolds(ms);
    assert ms[1..] == [m];
    OneOnWire(m);
  }

  lemma OneOnWire(m: ServerMessage)
    requires Sendable(m)
    ensures AllSendable([m]) && OnWire([m]) == Frame(EncodeServer(m))
  {
    var ms := [m];
    OnWireUnfolds(ms);
    assert |ms[1..]| == 0 && OnWire(ms[1..]) == [];
    assert Frame(EncodeServer(m)) + [] == Frame(EncodeServer(m));
  }

  lemma PlainLength(m: ServerMessage)
    requires m.EnrollmentAccepted?
    ensures ServerFits(m) && |EncodeServer(m)| == 2
  {
  }

  lemma DeployOffset(accepted: Bytes, prefix: Bytes, front: Bytes, wasm: Bytes, more: Bytes)
    requires |accepted| == 6 && |prefix| == 4 && |front| == 42 && |wasm| == 24
    ensures var stream := accepted + (prefix + (front + (wasm + [NULL]))) + more;
      |stream| >= 77 && stream[..6] == accepted && stream[64..70] == wasm[12..18]
  {
  }

  lemma LeadFrame(stream: Bytes)
    requires |stream| >= 6 && stream[..6] == UUID_LEAD
    ensures FrameLength(stream) == 6
  {
    assert stream[..4] == stream[..6][..4] == [0, 0, 0, 2];
  }

  lemma DirectUuid(dev: Identity, inbox: seq<Option<Bytes>>, sends: nat)
    requires |inbox| >= 2 && inbox[0].Some? && inbox[1].Some? && 0 < |dev.key| <= 255 && sends >= 3
    requires Leads(inbox[0].value, 0x81, 0x01) && Leads(inbox[1].value, 0x82, 0x03)
    ensures Enroll(dev, inbox, sends).ok
  {
  }

  lemma MisreadLine(line: Bytes, later: seq<Bytes>)
    requires |line| >= 77 && FrameLength(line) == 6 && line[64..70] == UUID_LEAD
    ensures CutsFit([], [line] + later, [64, 6, 0])
    ensures CutReads([], [line] + later, [64, 6, 0])[..2] == [Some(line[..6]), Some(UUID_LEAD)]
  {
    var replies := [line] + later;
    var rest := Grown(line[64..], Later(replies));
    assert rest[..6] == line[64..70];
    LeadFrame(rest);
    MisreadCuts(replies, line, rest, [64, 6, 0]);
  }

  /** With such a deployment pushed right after the acceptance, an attempt can succeed without any
      challenge: the reader takes 64 bytes, drops the surplus, and starts inside the module. */
  lemma Misread(dev: Identity, m: ServerMessage, later: seq<Bytes>, sends: nat)
    requires LooksEnrolled(m) && 0 < |dev.key| <= 255 && sends >= 3
    ensures AllSendable([EnrollmentAccepted, m])
    ensures EnrollsBy(dev, [OnWire([EnrollmentAccepted, m])] + later, sends, [64, 6, 0])
  {
    MisreadBytes(m, []);
    var line := OnWire([EnrollmentAccepted, m]);
    assert line + [] == line;
    MisreadLine(line, later);
    AcceptedLeads(line);
    var inbox := CutReads([], [line] + later, [64, 6, 0]);
    assert inbox[0] == inbox[..2][0] && inbox[1] == inbox[..2][1];
    DirectUuid(dev, inbox, sends);
  }

  lemma AcceptedLeads(line: Bytes)
    requires |line| >= 6 && line[..6] == Frame(EncodeServer(EnrollmentAccepted))
    ensures Leads(line[..6], 0x81, 0x01)
  {
    FrameLead(EnrollmentAccepted);
  }

  lemma MisreadCuts(replies: seq<Bytes>, line: Bytes, rest: Bytes, counts: seq<nat>)
    requires counts == [64, 6, 0] && replies != [] && replies[0] == line && |line| >= 77
    requires FrameLength(line) == 6 && rest == Grown(line[64..], Later(replies))
    requires |rest| >= 6 && rest[..6] == UUID_LEAD && FrameLength(rest) == 6
    ensures CutsFit([], replies, counts)
    ensures CutReads([], replies, counts)[..2] == [Some(line[..6]), Some(rest[..6])]
  {
    assert Grown([], replies) == line by {
      assert [] + line == line;
    }
    var more := Later(replies);
    assert counts[1..] == [6, 0] && counts[1..][1..] == [0] && |[0][1..]| == 0;
    assert CutsFit(rest[6..], Later(more), [0]);
    assert CutsFit(line[64..], more, counts[1..]);
    assert CutReads(line[64..], more, counts[1..])[0] == Some(rest[..6]);
  }

  /** A certificate connection is wired when it becomes ready, so a deployment can be pushed to it
      between the gateway's acceptance and the device's announcement. */
  ghost predicate IsEarlyPush(acts: seq<Act>, conn: ConnId, key: Bytes, device: DeviceId, m: ServerMessage, w: World) {
    && |acts| == 5 && key != []
    && acts[0] == Handle(HttpRegister(DeviceObject(device, Base64.Encode(Base64.UrlSafe, key)), w))
    && acts[1] == Handle(Ready(conn, key, w))
    && acts[2] == Handle(Received(conn, key, Some(EnrollmentRequest), w))
    && acts[3] == Push(device, m)
    && acts[4] == Handle(Received(conn, key, Some(PublicKey(key)), w))
  }

  lemma EarlyEvents(acts: seq<Act>, conn: ConnId, key: Bytes, device: DeviceId, m: ServerMessage, w: World)
    requires IsEarlyPush(acts, conn, key, device, m, w)
    ensures EventsOf(acts[..0]) == [] && EventsOf(acts[..1]) == [acts[0].event]
    ensures EventsOf(acts[..2]) == [acts[0].event, acts[1].event]
    ensures EventsOf(acts[..3]) == [acts[0].event, acts[1].event, acts[2].event] == EventsOf(acts[..4])
    ensures EventsOf(acts) == [acts[0].event, acts[1].event, acts[2].event, acts[4].event]
  {
    assert acts[..1][..0] == acts[..0] && acts[..2][..1] == acts[..1] && acts[..3][..2] == acts[..2];
    assert acts[..4][..3] == acts[..3];
  }

  /** The device's sender after registration and announcement. */
  lemma WiredEarly(s: Settings, es: seq<Event>, conn: ConnId, key: Bytes, device: DeviceId, w: World)
    requires |es| == 3 && key != []
    requires es[0] == HttpRegister(DeviceObject(device, Base64.Encode(Base64.UrlSafe, key)), w)
    requires es[1] == Ready(conn, key, w) && es[2] == Received(conn, key, Some(EnrollmentRequest), w)
    ensures Sends(After(s, es), device, conn)
  {
    RegisterFiles(s, es, key, device, w);
    var t1 := After(s, es[..1]);
    AlwaysWired(s, es[..1]);
    ReadySender(t1, conn, key, w, device);
    ReadyNext(s, es, 1, conn, key, w);
    AfterNext(s, es, 2);
    assert es[..3] == es;
    QuietMessage(s, After(s, es[..2]), es[2]);
  }

  lemma EarlyOutgoing(t: Timeline, conn: ConnId, key: Bytes, device: DeviceId, m: ServerMessage, w: World)
    requires IsRun(t) && IsEarlyPush(t.acts, conn, key, device, m, w)
    ensures Outgoing(t, 0, 4, conn) == [EnrollmentAccepted, m]
  {
    EarlyEvents(t.acts, conn, key, device, m, w);
    WiredEarly(t.settings, EventsOf(t.acts[..3]), conn, key, device, w);
    assert TablesAt(t, 3);
    assert PushedOn(t, 3, conn);
    FourSteps(SendingOn(t, conn), EnrollmentAccepted, m);
  }

  lemma FourSteps(f: nat -> seq<ServerMessage>, a: ServerMessage, m: ServerMessage)
    requires f(0) == [] && f(1) == [] && f(2) == [a] && f(3) == [m]
    ensures Gathered(f, 0, 4) == [a, m]
  {
    assert Gathered(f, 0, 1) == [];
    assert Gathered(f, 0, 2) == [];
    assert Gathered(f, 0, 3) == [a];
  }

  lemma NoResponseNoAgreement(t: Timeline, conn: ConnId, key: Bytes)
    requires forall e :: e in EventsOf(t.acts) ==> !Responds(e, conn)
    ensures !Agreed(t, conn, key)
  {
    forall i: nat, device
      ensures !EnrollsTo(t.settings, EventsOf(t.acts), i, conn, device, key)
    {
      if i < |EventsOf(t.acts)| {
        assert EventsOf(t.acts)[i] in EventsOf(t.acts);
      }
    }
  }

  lemma EarlyNotAgreed(t: Timeline, conn: ConnId, key: Bytes, device: DeviceId, m: ServerMessage, w: World)
    requires IsEarlyPush(t.acts, conn, key, device, m, w)
    ensures !Agreed(t, conn, key)
  {
    EarlyEvents(t.acts, conn, key, device, m, w);
    NoResponseNoAgreement(t, conn, key);
  }

  lemma MisreadSegments(dev: Identity, segments: seq<seq<ServerMessage>>, m: ServerMessage, sends: nat, now: int)
    requires LooksEnrolled(m) && 0 < |dev.key| <= 255 && sends >= 3
    requires SegmentsSendable(segments) && segments != [] && segments[0] == [EnrollmentAccepted, m]
    ensures exists plan :: Succeeds(dev, Lines(segments), sends, plan, now)
  {
    var replies := Lines(segments);
    Misread(dev, m, replies[1..], sends);
    assert [replies[0]] + replies[1..] == replies;
    SomePlanSucceedsIff(dev, replies, sends, now);
  }

  /** Agreement fails in this run: some arrivals let the device's attempt succeed although the gateway
      never sent a UUID and never bound the connection. */
  lemma MisreadRun(t: Timeline, conn: ConnId, dev: Identity, device: DeviceId, m: ServerMessage, w: World,
                   sends: nat, now: int)
    requires IsRun(t) && IsEarlyPush(t.acts, conn, dev.key, device, m, w) && LooksEnrolled(m)
    requires |dev.key| <= 255 && sends >= 3 && SegmentsSendable(Segments(t, 4, 5, conn))
    ensures !Agreed(t, conn, dev.key)
    ensures exists plan :: Succeeds(dev, Lines(Segments(t, 4, 5, conn)), sends, plan, now)
  {
    EarlyNotAgreed(t, conn, dev.key, device, m, w);
    EarlyOutgoing(t, conn, dev.key, device, m, w);
    MisreadSegments(dev, Segments(t, 4, 5, conn), m, sends, now);
  }
}
