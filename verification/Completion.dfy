/** When the firmware's enrollment completes: under all arrivals in time, exactly if nothing is pushed
    on its connection before the UUID. */
module Completion {
  import opened Prelude
  import opened Messages
  import opened Codec
  import opened Framing
  import opened KeyIndex
  import opened GatewayTables
  import opened Gateway
  import opened GatewayRuns
  import opened Enrollment
  import opened Handshake

  // ---------------------------------------------------------------- completion in time

  /** Each read is handed its frame's bytes without a break and before its deadline. */
  ghost predicate InTime(plan: seq<Arrival>, sizes: seq<nat>)
    decreases |sizes|
  {
    sizes != [] ==>
      var rest := Handed(plan, sizes[0], 5000);
      rest.Some? && InTime(rest.value, sizes[1..])
  }

  /** The sizes of the three replies. */
  const REPLY_SIZES := [6, 40, 23]

  /** The attempt succeeds under all arrivals in time. */
  ghost predicate AlwaysSucceeds(dev: Identity, replies: seq<Bytes>, sends: nat, now: int) {
    forall plan :: InTime(plan, REPLY_SIZES) ==> Succeeds(dev, replies, sends, plan, now)
  }

  /** Arrivals that hand each reply over in one piece of its own. */
  const EXACT := [Piece(6, 0), Piece(40, 0), Piece(23, 0)]

  lemma ExactInTime()
    ensures InTime(EXACT, REPLY_SIZES)
  {
    var two, one := [Piece(40, 0), Piece(23, 0)], [Piece(23, 0)];
    assert Rest(EXACT) == two && Rest(two) == one;
    assert REPLY_SIZES[1..] == [40, 23] && [40, 23][1..] == [23] && |[23][1..]| == 0;
    assert InTime(one, [23]);
    assert InTime(two, [40, 23]);
  }

  /** A frame whose bytes come in time is delivered, and nothing is lost if nothing follows it. */
  lemma FetchInTime(c: Channel, p: Bytes, after: Bytes)
    requires |p| + 4 <= 64 && Answered(c).stream == Frame(p) + after
    requires Handed(c.plan, |p| + 4, REPLY_TIMEOUT).Some?
    ensures var (frame, next) := Fetch(Answered(c), REPLY_TIMEOUT);
      && frame == Some(Frame(p)) && next.plan == Handed(c.plan, |p| + 4, REPLY_TIMEOUT).value
      && next.replies == Answered(c).replies && (after == [] ==> next.stream == [])
  {
    var stream := Frame(p) + after;
    FrameAtFront(p, after);
    InTimeRead(stream, RX_BUFFER, c.plan, c.now, REPLY_TIMEOUT);
    assert stream[..|p| + 4] == Frame(p);
  }

  lemma InTimeThree(plan: seq<Arrival>, sizes: seq<nat>, a: nat, b: nat, c: nat)
    requires sizes == [a, b, c] && InTime(plan, sizes)
    ensures var rest := Handed(plan, a, REPLY_TIMEOUT);
      && rest.Some? && Handed(rest.value, b, REPLY_TIMEOUT).Some?
      && Handed(Handed(rest.value, b, REPLY_TIMEOUT).value, c, REPLY_TIMEOUT).Some?
  {
    var next := Handed(plan, a, REPLY_TIMEOUT).value;
    assert sizes[1..] == [b, c] && [b, c][1..] == [c];
    assert InTime(next, [b, c]);
    assert InTime(Handed(next, b, REPLY_TIMEOUT).value, [c]);
  }

  lemma ReplyPayloads(nonce: Bytes, uuid: Bytes) returns (p0: Bytes, p1: Bytes, p2: Bytes)
    requires |nonce| == 32 && |uuid| == 16
    ensures |p0| == 2 && |p1| == 36 && |p2| == 19 && Leads(Frame(p1), 0x82, 0x09)
    ensures ReplyFrames(nonce, uuid) == [Frame(p0), Frame(p1), Frame(p2)]
  {
    ShortReplies(nonce, uuid);
    GoodFrames(nonce, uuid);
    p0, p1, p2 := EncodeServer(EnrollmentAccepted), EncodeServer(Challenge(nonce)), EncodeServer(DeviceUuid(uuid));
  }

  lemma ThreeInTime(p0: Bytes, p1: Bytes, p2: Bytes, surplus: Bytes, plan: seq<Arrival>, now: int)
    requires |p0| + 4 <= RX_BUFFER && |p1| + 4 <= RX_BUFFER && |p2| + 4 <= RX_BUFFER
    requires var rest := Handed(plan, |p0| + 4, REPLY_TIMEOUT);
      && rest.Some? && Handed(rest.value, |p1| + 4, REPLY_TIMEOUT).Some?
      && Handed(Handed(rest.value, |p1| + 4, REPLY_TIMEOUT).value, |p2| + 4, REPLY_TIMEOUT).Some?
    ensures InboxOf(Channel([], plan, now, [Frame(p0), Frame(p1), Frame(p2) + surplus]))
      == [Some(Frame(p0)), Some(Frame(p1)), Some(Frame(p2))]
  {
    var replies := [Frame(p0), Frame(p1), Frame(p2) + surplus];
    var c := Channel([], plan, now, replies);
    assert Answered(c).stream == Frame(p0) + [] && Answered(c).replies == replies[1..];
    FetchInTime(c, p0, []);
    var c1 := Fetch(Answered(c), REPLY_TIMEOUT).1;
    assert Answered(c1).stream == Frame(p1) + [] && Answered(c1).replies == replies[2..];
    FetchInTime(c1, p1, []);
    var c2 := Fetch(Answered(c1), REPLY_TIMEOUT).1;
    assert Answered(c2).stream == Frame(p2) + surplus;
    FetchInTime(c2, p2, surplus);
  }

  /** A frame of more than 64 bytes is never delivered. */
  lemma LongReplyLost(c: Channel, p: Bytes, after: Bytes)
    requires 64 < |p| + 4 < 0x1_0000_0000 && Answered(c).stream == Frame(p) + after
    ensures Fetch(Answered(c), REPLY_TIMEOUT).0 == None
  {
    FrameAtFront(p, after);
  }

  /** When each send draws exactly its reply, and the last may be followed by anything, the 64-byte
      reader delivers the three replies whole under all arrivals in time. */
  lemma RepliesDelivered(nonce: Bytes, uuid: Bytes, surplus: Bytes, plan: seq<Arrival>, now: int)
    requires |nonce| == 32 && |uuid| == 16 && InTime(plan, REPLY_SIZES)
    ensures var frames := ReplyFrames(nonce, uuid);
      InboxOf(Channel([], plan, now, [frames[0], frames[1], frames[2] + surplus])) == Received3(frames)
  {
    var p0, p1, p2 := ReplyPayloads(nonce, uuid);
    InTimeThree(plan, REPLY_SIZES, |p0| + 4, |p1| + 4, |p2| + 4);
    ThreeInTime(p0, p1, p2, surplus, plan, now);
  }

  // ---------------------------------------------------------------- a pushed message in the way

  /** A read that takes exactly one frame leaves the stream behind it. */
  lemma FetchExact(c: Channel, p: Bytes, after: Bytes, rest: seq<Arrival>)
    requires |p| + 4 <= RX_BUFFER && Answered(c).stream == Frame(p) + after && c.plan == [Piece(|p| + 4, 0)] + rest
    ensures var (frame, next) := Fetch(Answered(c), REPLY_TIMEOUT);
      frame == Some(Frame(p)) && next.plan == rest && next.replies == Answered(c).replies && next.stream == after
  {
    var stream, n := Frame(p) + after, |p| + 4;
    FrameAtFront(p, after);
    PlanTakes(stream, RX_BUFFER, n, rest, c.now, REPLY_TIMEOUT);
    ReadTakes(stream, RX_BUFFER, c.plan, c.now, REPLY_TIMEOUT);
    assert stream[..n] == Frame(p) && stream[n..] == after;
  }

  /** The frame is none that an attempt can go on with. */
  ghost predicate Useless(frame: Option<Bytes>) {
    frame.Some? ==>
      !Leads(frame.value, 0x81, 0x01) && !Leads(frame.value, 0x82, 0x09) && !Leads(frame.value, 0x82, 0x03)
  }

  lemma PushedUseless(m: ServerMessage)
    requires Pushable(m) && Sendable(m)
    ensures Useless(Some(Frame(EncodeServer(m))))
  {
    FrameLead(m);
  }

  lemma FetchFront(c: Channel, p: Bytes, after: Bytes)
    requires |p| + 4 < 0x1_0000_0000 && Answered(c).stream == Frame(p) + after
    ensures Fetch(Answered(c), REPLY_TIMEOUT).0 in {None, Some(Frame(p))}
  {
    FrontRead(p, after, RX_BUFFER, c.plan, c.now, REPLY_TIMEOUT);
  }

  /** A read that starts at a pushed message delivers nothing the attempt can use. */
  lemma FetchPushed(c: Channel, ms: seq<ServerMessage>, after: Bytes)
    requires ms != [] && AllSendable(ms) && Pushable(ms[0]) && Answered(c).stream == OnWire(ms) + after
    ensures Useless(Fetch(Answered(c), REPLY_TIMEOUT).0)
  {
    OnWireUnfolds(ms);
    var p := EncodeServer(ms[0]);
    Associates(Frame(p), OnWire(ms[1..]), after);
    FetchFront(c, p, OnWire(ms[1..]) + after);
    PushedUseless(ms[0]);
  }

  lemma UselessFails(dev: Identity, inbox: seq<Option<Bytes>>, sends: nat)
    requires |inbox| == 3
    requires || Useless(inbox[0]) || Useless(inbox[1])
             || (inbox[1].Some? && Leads(inbox[1].value, 0x82, 0x09) && Useless(inbox[2]))
    ensures !Enroll(dev, inbox, sends).ok
  {
  }

  lemma {:induction false} WireJoins(ps: seq<Bytes>, qs: seq<Bytes>)
    requires forall p :: p in ps ==> |p| < 0x1_0000_0000
    requires forall q :: q in qs ==> |q| < 0x1_0000_0000
    ensures Wire(ps + qs) == Wire(ps) + Wire(qs)
  {
    if ps == [] {
      assert ps + qs == qs;
    } else {
      WireJoins(ps[1..], qs);
      assert (ps + qs)[1..] == ps[1..] + qs;
      Associates(Frame(ps[0]), Wire(ps[1..]), Wire(qs));
    }
  }

  lemma ShortAll(ms: seq<ServerMessage>)
    requires AllSendable(ms)
    ensures forall p :: p in Payloads(ms) ==> |p| < 0x1_0000_0000
  {
    forall p | p in Payloads(ms)
      ensures |p| < 0x1_0000_0000
    {
      ShortPayloads(ms, p);
    }
  }

  lemma BothSendable(x: seq<ServerMessage>, y: seq<ServerMessage>)
    requires AllSendable(x) && AllSendable(y)
    ensures AllSendable(x + y) && Payloads(x + y) == Payloads(x) + Payloads(y)
  {
  }

  lemma OnWireJoins(x: seq<ServerMessage>, y: seq<ServerMessage>)
    requires AllSendable(x) && AllSendable(y)
    ensures AllSendable(x + y) && OnWire(x + y) == OnWire(x) + OnWire(y)
  {
    ShortAll(x);
    ShortAll(y);
    BothSendable(x, y);
    WireJoins(Payloads(x), Payloads(y));
  }

  predicate AllPushed(ms: seq<ServerMessage>) { AllSendable(ms) && forall m :: m in ms ==> Pushable(m) }

  /** What the three sends draw when `early` is pushed before the acceptance, `between` after it, `next`
      after the challenge and `last` after the UUID. */
  function Conversation(early: seq<ServerMessage>, between: seq<ServerMessage>, next: seq<ServerMessage>,
                        last: seq<ServerMessage>, nonce: Bytes, uuid: Bytes): seq<seq<ServerMessage>>
  {
    [early + [EnrollmentAccepted] + between, [Challenge(nonce)] + next, [DeviceUuid(uuid)] + last]
  }

  lemma OneMessage(m: ServerMessage, ms: seq<ServerMessage>)
    requires Sendable(m) && AllSendable(ms)
    ensures AllSendable([m] + ms) && OnWire([m] + ms) == Frame(EncodeServer(m)) + OnWire(ms)
  {
    assert ([m] + ms)[1..] == ms;
    OnWireUnfolds([m] + ms);
  }

  lemma RepliesSendable(nonce: Bytes, uuid: Bytes)
    requires |nonce| == 32 && |uuid| == 16
    ensures Sendable(EnrollmentAccepted) && Sendable(Challenge(nonce)) && Sendable(DeviceUuid(uuid))
  {
    ShortReplies(nonce, uuid);
  }

  lemma MessageAmid(early: seq<ServerMessage>, m: ServerMessage, after: seq<ServerMessage>)
    requires AllSendable(early) && Sendable(m) && AllSendable(after)
    ensures AllSendable(early + [m] + after)
    ensures OnWire(early + [m] + after) == OnWire(early) + (Frame(EncodeServer(m)) + OnWire(after))
  {
    OneMessage(m, after);
    OnWireJoins(early, [m] + after);
    assert early + [m] + after == early + ([m] + after);
  }

  /** The lines of a conversation, frame by frame. */
  lemma ConversationLines(early: seq<ServerMessage>, between: seq<ServerMessage>, next: seq<ServerMessage>,
                          last: seq<ServerMessage>, nonce: Bytes, uuid: Bytes)
    requires |nonce| == 32 && |uuid| == 16
    requires AllSendable(early) && AllSendable(between) && AllSendable(next) && AllSendable(last)
    ensures var segments := Conversation(early, between, next, last, nonce, uuid);
      var frames := ReplyFrames(nonce, uuid);
      && SegmentsSendable(segments)
      && Lines(segments)
        == [OnWire(early) + (frames[0] + OnWire(between)), frames[1] + OnWire(next), frames[2] + OnWire(last)]
  {
    RepliesSendable(nonce, uuid);
    MessageAmid(early, EnrollmentAccepted, between);
    OneMessage(Challenge(nonce), next);
    OneMessage(DeviceUuid(uuid), last);
  }

  lemma ExactFailsEarly(dev: Identity, replies: seq<Bytes>, early: seq<ServerMessage>, after: Bytes, sends: nat,
                        plan: seq<Arrival>, now: int)
    requires early != [] && AllPushed(early) && replies != [] && replies[0] == OnWire(early) + after
    ensures !Succeeds(dev, replies, sends, plan, now)
  {
    var c := Channel([], plan, now, replies);
    assert Answered(c).stream == replies[0] by {
      assert [] + replies[0] == replies[0];
    }
    assert early[0] in early;
    FetchPushed(c, early, after);
    UselessFails(dev, InboxOf(c), sends);
  }

  lemma AfterAcceptance(replies: seq<Bytes>, p: Bytes, after: Bytes, rest: seq<Arrival>, now: int) returns (c1: Channel)
    requires |replies| == 3 && |p| + 4 <= RX_BUFFER && replies[0] == Frame(p) + after
    ensures var c := Channel([], [Piece(|p| + 4, 0)] + rest, now, replies);
      c1 == Fetch(Answered(c), REPLY_TIMEOUT).1 && c1.stream == after && c1.plan == rest && c1.replies == replies[1..]
  {
    var c := Channel([], [Piece(|p| + 4, 0)] + rest, now, replies);
    assert Answered(c).stream == replies[0] by {
      assert [] + replies[0] == replies[0];
    }
    FetchExact(c, p, after, rest);
    c1 := Fetch(Answered(c), REPLY_TIMEOUT).1;
  }

  lemma ExactFailsBetween(dev: Identity, replies: seq<Bytes>, p: Bytes, between: seq<ServerMessage>, sends: nat,
                          rest: seq<Arrival>, now: int)
    requires |replies| == 3 && |p| + 4 <= RX_BUFFER
    requires between != [] && AllPushed(between) && replies[0] == Frame(p) + OnWire(between)
    ensures !Succeeds(dev, replies, sends, [Piece(|p| + 4, 0)] + rest, now)
  {
    var c1 := AfterAcceptance(replies, p, OnWire(between), rest, now);
    assert between[0] in between;
    FetchPushed(c1, between, replies[1]);
    UselessFails(dev, InboxOf(Channel([], [Piece(|p| + 4, 0)] + rest, now, replies)), sends);
  }

  lemma ExactFailsNext(dev: Identity, replies: seq<Bytes>, p0: Bytes, p1: Bytes, next: seq<ServerMessage>, sends: nat,
                       rest: seq<Arrival>, now: int)
    requires |replies| == 3 && |p0| + 4 <= RX_BUFFER && |p1| + 4 <= RX_BUFFER && Leads(Frame(p1), 0x82, 0x09)
    requires next != [] && AllPushed(next) && replies[0] == Frame(p0) && replies[1] == Frame(p1) + OnWire(next)
    ensures !Succeeds(dev, replies, sends, [Piece(|p0| + 4, 0)] + ([Piece(|p1| + 4, 0)] + rest), now)
  {
    var plan1 := [Piece(|p1| + 4, 0)] + rest;
    assert replies[0] == Frame(p0) + [];
    var c1 := AfterAcceptance(replies, p0, [], plan1, now);
    assert Answered(c1).stream == replies[1] by {
      assert [] + replies[1] == replies[1];
    }
    FetchExact(c1, p1, OnWire(next), rest);
    var c2 := Fetch(Answered(c1), REPLY_TIMEOUT).1;
    assert next[0] in next;
    FetchPushed(c2, next, replies[2]);
    UselessFails(dev, InboxOf(Channel([], [Piece(|p0| + 4, 0)] + plan1, now, replies)), sends);
  }

  lemma NothingAround(f: Bytes, x: Bytes, y: Bytes)
    requires x == []
    ensures x + (f + y) == f + y && (y == [] ==> f + y == f)
  {
  }

  lemma ExactFails(dev: Identity, replies: seq<Bytes>, p0: Bytes, p1: Bytes, early: seq<ServerMessage>,
                   between: seq<ServerMessage>, next: seq<ServerMessage>, sends: nat, plan: seq<Arrival>, now: int)
    requires |replies| == 3 && |p0| == 2 && |p1| == 36 && Leads(Frame(p1), 0x82, 0x09) && plan == EXACT
    requires AllPushed(early) && AllPushed(between) && AllPushed(next) && early + between + next != []
    requires replies[0] == OnWire(early) + (Frame(p0) + OnWire(between)) && replies[1] == Frame(p1) + OnWire(next)
    ensures !Succeeds(dev, replies, sends, plan, now)
  {
    var rest := [Piece(23, 0)];
    var two := [Piece(|p1| + 4, 0)] + rest;
    assert plan == [Piece(|p0| + 4, 0)] + two;
    JoinedEmpty(early, between, next);
    if early != [] {
      ExactFailsEarly(dev, replies, early, Frame(p0) + OnWire(between), sends, plan, now);
    } else {
      NothingOnWire(early);
      NothingAround(Frame(p0), OnWire(early), OnWire(between));
      if between != [] {
        ExactFailsBetween(dev, replies, p0, between, sends, two, now);
      } else {
        NothingOnWire(between);
        ExactFailsNext(dev, replies, p0, p1, next, sends, rest, now);
      }
    }
  }

  lemma JoinedEmpty(x: seq<ServerMessage>, y: seq<ServerMessage>, z: seq<ServerMessage>)
    ensures x + y + z == [] <==> x == [] && y == [] && z == []
  {
    assert |x + y + z| == |x| + |y| + |z|;
  }

  lemma NothingOnWire(ms: seq<ServerMessage>)
    requires ms == []
    ensures AllSendable(ms) && OnWire(ms) == []
  {
  }

  /** Whenever anything is pushed before the UUID, arrivals of one reply each make the attempt fail:
      the pushed message is read in the place of the next reply. */
  lemma ExactArrivalsFail(dev: Identity, early: seq<ServerMessage>, between: seq<ServerMessage>,
                          next: seq<ServerMessage>, last: seq<ServerMessage>, nonce: Bytes, uuid: Bytes,
                          sends: nat, now: int)
    requires |nonce| == 32 && |uuid| == 16 && AllSendable(last)
    requires AllPushed(early) && AllPushed(between) && AllPushed(next) && early + between + next != []
    ensures SegmentsSendable(Conversation(early, between, next, last, nonce, uuid))
    ensures !Succeeds(dev, Lines(Conversation(early, between, next, last, nonce, uuid)), sends, EXACT, now)
  {
    ConversationLines(early, between, next, last, nonce, uuid);
    var p0, p1, p2 := ReplyPayloads(nonce, uuid);
    ExactFails(dev, Lines(Conversation(early, between, next, last, nonce, uuid)), p0, p1, early, between, next, sends,
               EXACT, now);
  }

  lemma PlainReplies(dev: Identity, nonce: Bytes, uuid: Bytes, surplus: Bytes, replies: seq<Bytes>, sends: nat,
                     now: int)
    requires |nonce| == 32 && |uuid| == 16 && 0 < |dev.key| <= 255 && sends >= 4
    requires dev.answer(nonce).Some? && |dev.answer(nonce).value| <= 255
    requires var frames := ReplyFrames(nonce, uuid); replies == [frames[0], frames[1], frames[2] + surplus]
    ensures AlwaysSucceeds(dev, replies, sends, now)
  {
    Completed(dev, nonce, uuid, sends);
    forall plan | InTime(plan, REPLY_SIZES)
      ensures Succeeds(dev, replies, sends, plan, now)
    {
      RepliesDelivered(nonce, uuid, surplus, plan, now);
    }
  }

  /** An attempt succeeds under all arrivals in time, if and only if nothing is pushed before the UUID. */
  lemma SucceedsInTimeIff(dev: Identity, early: seq<ServerMessage>, between: seq<ServerMessage>,
                          next: seq<ServerMessage>, last: seq<ServerMessage>, nonce: Bytes, uuid: Bytes,
                          sends: nat, now: int)
    requires |nonce| == 32 && |uuid| == 16 && 0 < |dev.key| <= 255 && sends >= 4
    requires dev.answer(nonce).Some? && |dev.answer(nonce).value| <= 255
    requires AllPushed(early) && AllPushed(between) && AllPushed(next) && AllSendable(last)
    ensures SegmentsSendable(Conversation(early, between, next, last, nonce, uuid))
    ensures var replies := Lines(Conversation(early, between, next, last, nonce, uuid));
      AlwaysSucceeds(dev, replies, sends, now) <==> early + between + next == []
  {
    ConversationLines(early, between, next, last, nonce, uuid);
    JoinedEmpty(early, between, next);
    if early + between + next == [] {
      NothingOnWire(early);
      NothingOnWire(between);
      NothingOnWire(next);
      NothingAround(ReplyFrames(nonce, uuid)[0], OnWire(early), OnWire(between));
      NothingAround(ReplyFrames(nonce, uuid)[1], OnWire(early), OnWire(next));
      var replies := Lines(Conversation(early, between, next, last, nonce, uuid));
      PlainReplies(dev, nonce, uuid, OnWire(last), replies, sends, now);
    } else {
      ExactInTime();
      ExactArrivalsFail(dev, early, between, next, last, nonce, uuid, sends, now);
    }
  }

  // ---------------------------------------------------------------- over every run

  /** The device sends nothing on `conn` from `from` up to `end`. */
  ghost predicate Silent(acts: seq<Act>, from: nat, end: nat, conn: ConnId) {
    forall i :: from <= i < end <= |acts| && acts[i].Handle? ==>
      !(acts[i].event.Received? && acts[i].event.conn == conn)
  }

  ghost predicate NothingPushed(t: Timeline, from: nat, end: nat, conn: ConnId) {
    forall i :: from <= i < end ==> !PushedOn(t, i, conn)
  }

  lemma SilentAct(t: Timeline, i: nat, conn: ConnId)
    requires i < |t.acts| && OnlyPushes(t.acts)
    requires t.acts[i].Handle? ==> !(t.acts[i].event.Received? && t.acts[i].event.conn == conn)
    ensures SentBy(t, i, conn) == [] <==> !PushedOn(t, i, conn)
    ensures forall m :: m in SentBy(t, i, conn) ==> Pushable(m)
  {
  }

  lemma SilentOutgoing(t: Timeline, from: nat, end: nat, conn: ConnId)
    requires from <= end <= |t.acts| && OnlyPushes(t.acts) && Silent(t.acts, from, end, conn)
    ensures forall m :: m in Outgoing(t, from, end, conn) ==> Pushable(m)
    ensures Outgoing(t, from, end, conn) == [] <==> NothingPushed(t, from, end, conn)
  {
    var f := SendingOn(t, conn);
    GatheredEmptyIff(f, from, end);
    forall i | from <= i < end
      ensures f(i) == [] <==> !PushedOn(t, i, conn)
      ensures forall m :: m in f(i) ==> Pushable(m)
    {
      SilentAct(t, i, conn);
    }
    forall m | m in Outgoing(t, from, end, conn)
      ensures Pushable(m)
    {
      var i := GatheredFrom(f, from, end, m);
    }
  }

  /** An act that handles a message on `conn` sends what its event replies. */
  lemma ReplyOut(t: Timeline, i: nat, conn: ConnId)
    requires IsRun(t) && i < |t.acts| && t.acts[i].Handle? && t.acts[i].event.Received? && t.acts[i].event.conn == conn
    ensures At(t.acts, i) < |EventsOf(t.acts)|
    ensures SentBy(t, i, conn) == RepliesAt(t.settings, EventsOf(t.acts), At(t.acts, i))
  {
    EventsPrefix(t.acts, i);
    assert TablesAt(t, i);
  }

  /** The device's three packets reach the gateway at acts `q`, `a` and `r`, and it sends nothing else before. */
  ghost predicate IsAttempt(t: Timeline, conn: ConnId, dev: Identity, signature: Bytes, q: nat, a: nat, r: nat) {
    && q < a < r < |t.acts| && t.acts[q].Handle? && t.acts[a].Handle? && t.acts[r].Handle?
    && Silent(t.acts, 0, q, conn) && Silent(t.acts, q + 1, a, conn) && Silent(t.acts, a + 1, r, conn)
    && IsHandshake(t.settings, EventsOf(t.acts), conn, dev, signature, At(t.acts, q), At(t.acts, a), At(t.acts, r))
  }

  /** Segments around three replies are a conversation. */
  lemma SegmentsAround(f: nat -> seq<ServerMessage>, q: nat, a: nat, r: nat, n: nat, nonce: Bytes, uuid: Bytes)
    requires q < a < r < n
    requires f(q) == [EnrollmentAccepted] && f(a) == [Challenge(nonce)] && f(r) == [DeviceUuid(uuid)]
    ensures [Gathered(f, 0, a), Gathered(f, a, r), Gathered(f, r, n)]
      == Conversation(Gathered(f, 0, q), Gathered(f, q + 1, a), Gathered(f, a + 1, r), Gathered(f, r + 1, n),
                      nonce, uuid)
  {
    GatheredJoins(f, 0, q + 1, a);
    GatheredJoins(f, a, a + 1, r);
    GatheredJoins(f, r, r + 1, n);
    assert Gathered(f, a, a + 1) == f(a) && Gathered(f, r, r + 1) == f(r);
  }

  lemma AttemptReplies(t: Timeline, conn: ConnId, dev: Identity, signature: Bytes, q: nat, a: nat, r: nat,
                       device: DeviceId)
    requires IsRun(t) && IsAttempt(t, conn, dev, signature, q, a, r)
    requires Deserves(t.settings, EventsOf(t.acts), dev, signature, At(t.acts, a), At(t.acts, r), device)
    requires t.acts[a].event.Received? && t.acts[r].event.Received?
    ensures SentBy(t, q, conn) == [EnrollmentAccepted]
    ensures SentBy(t, a, conn) == [Challenge(t.acts[a].event.w.nonce)]
    ensures SentBy(t, r, conn) == [DeviceUuid(t.acts[r].event.w.uuid)]
  {
    EventsPrefix(t.acts, q);
    EventsPrefix(t.acts, a);
    EventsPrefix(t.acts, r);
    HandshakeReplies(t.settings, EventsOf(t.acts), conn, dev, signature, At(t.acts, q), At(t.acts, a), At(t.acts, r),
                     device);
    ReplyOut(t, q, conn);
    ReplyOut(t, a, conn);
    ReplyOut(t, r, conn);
  }

  lemma PushedParts(t: Timeline, conn: ConnId, q: nat, a: nat, r: nat)
    requires q < a < r < |t.acts| && t.acts[q].Handle? && t.acts[a].Handle?
    ensures NothingPushed(t, 0, r, conn) <==>
      NothingPushed(t, 0, q, conn) && NothingPushed(t, q + 1, a, conn) && NothingPushed(t, a + 1, r, conn)
  {
    assert !PushedOn(t, q, conn) && !PushedOn(t, a, conn);
  }

  lemma SilentPushes(t: Timeline, from: nat, end: nat, conn: ConnId, ms: seq<ServerMessage>)
    requires from <= end <= |t.acts| && OnlyPushes(t.acts) && Silent(t.acts, from, end, conn)
    requires ms == Outgoing(t, from, end, conn) && AllSendable(ms)
    ensures AllPushed(ms)
    ensures ms == [] <==> NothingPushed(t, from, end, conn)
  {
    SilentOutgoing(t, from, end, conn);
  }

  lemma AttemptPushes(t: Timeline, conn: ConnId, q: nat, a: nat, r: nat, early: seq<ServerMessage>,
                      between: seq<ServerMessage>, next: seq<ServerMessage>)
    requires q < a < r < |t.acts| && OnlyPushes(t.acts) && t.acts[q].Handle? && t.acts[a].Handle?
    requires Silent(t.acts, 0, q, conn) && Silent(t.acts, q + 1, a, conn) && Silent(t.acts, a + 1, r, conn)
    requires early == Outgoing(t, 0, q, conn) && between == Outgoing(t, q + 1, a, conn)
    requires next == Outgoing(t, a + 1, r, conn)
    requires AllSendable(early) && AllSendable(between) && AllSendable(next)
    ensures AllPushed(early) && AllPushed(between) && AllPushed(next)
    ensures early + between + next == [] <==> NothingPushed(t, 0, r, conn)
  {
    SilentPushes(t, 0, q, conn, early);
    SilentPushes(t, q + 1, a, conn, between);
    SilentPushes(t, a + 1, r, conn, next);
    JoinedEmpty(early, between, next);
    PushedParts(t, conn, q, a, r);
  }

  lemma PartsSendable(x: seq<ServerMessage>, y: seq<ServerMessage>, z: seq<ServerMessage>)
    requires AllSendable(x + y + z)
    ensures AllSendable(x) && AllSendable(y) && AllSendable(z)
  {
    forall m | m in x || m in y || m in z
      ensures Sendable(m)
    {
      assert m in x + y + z;
    }
  }

  lemma ConversationSendable(early: seq<ServerMessage>, between: seq<ServerMessage>, next: seq<ServerMessage>,
                             last: seq<ServerMessage>, nonce: Bytes, uuid: Bytes)
    requires SegmentsSendable(Conversation(early, between, next, last, nonce, uuid))
    ensures AllSendable(early) && AllSendable(between) && AllSendable(next) && AllSendable(last)
  {
    var segments := Conversation(early, between, next, last, nonce, uuid);
    assert AllSendable(segments[0]) && AllSendable(segments[1]) && AllSendable(segments[2]);
    PartsSendable(early, [EnrollmentAccepted], between);
    assert segments[1] == [] + [Challenge(nonce)] + next && segments[2] == [] + [DeviceUuid(uuid)] + last;
    PartsSendable([], [Challenge(nonce)], next);
    PartsSendable([], [DeviceUuid(uuid)], last);
  }

  lemma RepliedInTimeIff(t: Timeline, conn: ConnId, dev: Identity, q: nat, a: nat, r: nat,
                         nonce: Bytes, uuid: Bytes, sends: nat, now: int)
    requires q < a < r < |t.acts| && OnlyPushes(t.acts) && t.acts[q].Handle? && t.acts[a].Handle?
    requires Silent(t.acts, 0, q, conn) && Silent(t.acts, q + 1, a, conn) && Silent(t.acts, a + 1, r, conn)
    requires |nonce| == 32 && |uuid| == 16 && 0 < |dev.key| <= 255 && sends >= 4
    requires dev.answer(nonce).Some? && |dev.answer(nonce).value| <= 255
    requires SentBy(t, q, conn) == [EnrollmentAccepted] && SentBy(t, a, conn) == [Challenge(nonce)]
    requires SentBy(t, r, conn) == [DeviceUuid(uuid)] && SegmentsSendable(Segments(t, a, r, conn))
    ensures AlwaysSucceeds(dev, Lines(Segments(t, a, r, conn)), sends, now) <==> NothingPushed(t, 0, r, conn)
  {
    var early, between := Outgoing(t, 0, q, conn), Outgoing(t, q + 1, a, conn);
    var next, last := Outgoing(t, a + 1, r, conn), Outgoing(t, r + 1, |t.acts|, conn);
    assert Segments(t, a, r, conn) == Conversation(early, between, next, last, nonce, uuid) by {
      SegmentsAround(SendingOn(t, conn), q, a, r, |t.acts|, nonce, uuid);
    }
    ConversationSendable(early, between, next, last, nonce, uuid);
    AttemptPushes(t, conn, q, a, r, early, between, next);
    SucceedsInTimeIff(dev, early, between, next, last, nonce, uuid, sends, now);
  }

  lemma BindsAfter(s: Settings, es: seq<Event>, conn: ConnId, dev: Identity, signature: Bytes,
                   q: nat, a: nat, r: nat, device: DeviceId, done: seq<Event>, tables: Tables)
    requires IsHandshake(s, es, conn, dev, signature, q, a, r) && Deserves(s, es, dev, signature, a, r, device)
    requires done == es[..r + 1] && tables == After(s, done)
    ensures Get(tables.bound, conn) == Some(device)
  {
    HandshakeBinds(s, es, conn, dev, signature, q, a, r, device);
  }

  lemma Reached(t: Timeline, r: nat) returns (done: seq<Event>)
    requires IsRun(t) && r < |t.acts| && t.acts[r].Handle?
    ensures At(t.acts, r) < |EventsOf(t.acts)| && done == EventsOf(t.acts)[..At(t.acts, r) + 1]
    ensures t.tables(r + 1) == After(t.settings, done)
  {
    done := EventsOf(t.acts[..r + 1]);
    assert TablesAt(t, r + 1);
    EventsPrefix(t.acts, r);
    assert t.acts[..r + 1][..r] == t.acts[..r];
    if r + 1 < |t.acts| {
      EventsPrefix(t.acts, r + 1);
    } else {
      assert t.acts[..r + 1] == t.acts;
    }
  }

  lemma AttemptBinds(t: Timeline, conn: ConnId, dev: Identity, signature: Bytes, q: nat, a: nat, r: nat,
                     device: DeviceId)
    requires IsRun(t) && IsAttempt(t, conn, dev, signature, q, a, r)
    requires Deserves(t.settings, EventsOf(t.acts), dev, signature, At(t.acts, a), At(t.acts, r), device)
    ensures Get(t.tables(r + 1).bound, conn) == Some(device)
  {
    var done := Reached(t, r);
    BindsAfter(t.settings, EventsOf(t.acts), conn, dev, signature, At(t.acts, q), At(t.acts, a), At(t.acts, r), device,
               done, t.tables(r + 1));
  }

  /** Over every run: when the packets of a device with an accepted key and a verifying, timely answer
      reach the gateway, its attempt succeeds under all arrivals in time if and only if nothing was
      pushed to it before the UUID. Either way the gateway has bound the connection (`AttemptBinds`). */
  lemma EnrollsInTimeIff(t: Timeline, conn: ConnId, dev: Identity, signature: Bytes,
                         q: nat, a: nat, r: nat, device: DeviceId, sends: nat, now: int)
    requires IsRun(t) && IsAttempt(t, conn, dev, signature, q, a, r) && sends >= 4
    requires Deserves(t.settings, EventsOf(t.acts), dev, signature, At(t.acts, a), At(t.acts, r), device)
    requires t.acts[a].event.Received? && t.acts[r].event.Received?
    requires |t.acts[a].event.w.nonce| == 32 && |t.acts[r].event.w.uuid| == 16
    requires SegmentsSendable(Segments(t, a, r, conn))
    ensures AlwaysSucceeds(dev, Lines(Segments(t, a, r, conn)), sends, now) <==> NothingPushed(t, 0, r, conn)
  {
    AttemptReplies(t, conn, dev, signature, q, a, r, device);
    EventsPrefix(t.acts, a);
    RepliedInTimeIff(t, conn, dev, q, a, r, t.acts[a].event.w.nonce, t.acts[r].event.w.uuid, sends, now);
  }

  /** The same for the firmware of a device that the gateway lists under its own key, whatever the hash is. */
  lemma FirmwareEnrollsIff(c: Crypto, auth: bool, t: Timeline, conn: ConnId, key: Bytes, sign: Bytes -> Bytes,
                           q: nat, a: nat, r: nat, device: DeviceId, sends: nat, now: int)
    requires KeyPair(c, key, sign) && sends >= 4 && IsRun(t) && t.settings == GatewaySettings(c, auth)
    requires a < |t.acts| && t.acts[a].Handle? && t.acts[a].event.Received?
    requires r < |t.acts| && t.acts[r].Handle? && t.acts[r].event.Received?
    requires IsAttempt(t, conn, FirmwareIdentity(c, key, sign),
                       FirmwareAnswer(c, key, sign, t.acts[a].event.w.nonce), q, a, r)
    requires t.acts[a].event.tlsKey == key || (t.acts[a].event.tlsKey == [] && !auth)
    requires |t.acts[a].event.w.nonce| == 32 && |t.acts[r].event.w.uuid| == 16
    requires t.acts[r].event.w.now - t.acts[a].event.w.now <= CHALLENGE_TTL && Lists(t.acts[r].event.w, key, device)
    requires SegmentsSendable(Segments(t, a, r, conn))
    ensures Get(t.tables(r + 1).bound, conn) == Some(device)
    ensures AlwaysSucceeds(FirmwareIdentity(c, key, sign), Lines(Segments(t, a, r, conn)), sends, now) <==>
      NothingPushed(t, 0, r, conn)
  {
    var dev, signature := FirmwareIdentity(c, key, sign), FirmwareAnswer(c, key, sign, t.acts[a].event.w.nonce);
    assert Deserves(t.settings, EventsOf(t.acts), dev, signature, At(t.acts, a), At(t.acts, r), device) by {
      FirmwareVerifies(c, auth, key, sign, t.acts[a].event.w.nonce);
      ListedEnrollee(t.acts[r].event.w, key, device);
      EventsPrefix(t.acts, a);
      EventsPrefix(t.acts, r);
    }
    AttemptBinds(t, conn, dev, signature, q, a, r, device);
    EnrollsInTimeIff(t, conn, dev, signature, q, a, r, device, sends, now);
  }
}
