/** The firmware's enrollment client and its composition with the gateway. */
module Enrollment {
  import opened Prelude
  import opened Messages
  import opened Cbor
  import opened Codec
  import opened Framing
  import Base64
  import opened KeyIndex
  import opened GatewayTables
  import opened Gateway
  import opened GatewayRuns

  /** The device's announced key and its answer to a nonce (`None` when it cannot sign). */
  datatype Identity = Identity(key: Bytes, answer: Bytes -> Option<Bytes>)

  const REQUEST_PACKET: Bytes := [0x00, 0x00, 0x00, 0x02, 0x81, 0x01]
  const ACK_PACKET: Bytes := [0x00, 0x00, 0x00, 0x02, 0x81, 0x03]

  /** A two-element message whose second element is a byte string with a one-byte length. */
  function ShortPacket(tag: Byte, body: Bytes): Bytes
    requires |body| <= 255
  {
    var length := 4 + |body|;
    [0, 0, length / 256, length % 256, 0x82, tag, 0x58, |body|] + body
  }

  /** What one enrollment attempt sends, and whether it succeeds. */
  datatype Attempt = Attempt(ok: bool, sent: seq<Bytes>)

  predicate Leads(frame: Bytes, first: Byte, second: Byte) {
    |frame| >= 6 && frame[4] == first && frame[5] == second
  }

  /** The nonce of a well-formed challenge frame. */
  function NonceOf(frame: Bytes): Option<Bytes> {
    if |frame| < 8 || frame[6] != 0x58 || frame[7] == 0 || |frame| < 8 + frame[7] as int then None
    else Some(frame[8..8 + frame[7] as int])
  }

  function Inbox(inbox: seq<Option<Bytes>>, k: nat): Option<Bytes> {
    if k < |inbox| then inbox[k] else None
  }

  /** The attempt from the reply that should carry the device's UUID; `sends` sends still succeed. */
  function Finish(reply: Option<Bytes>, sends: nat, sent: seq<Bytes>): Attempt {
    if reply.None? || !Leads(reply.value, 0x82, 0x03) then Attempt(false, sent)
    else if sends == 0 then Attempt(false, sent)
    else Attempt(true, sent + [ACK_PACKET])
  }

  /** The attempt from a challenge frame; `next` is the reply to the response. */
  function Respond(dev: Identity, frame: Bytes, next: Option<Bytes>, sends: nat, sent: seq<Bytes>): Attempt {
    var nonce := NonceOf(frame);
    if nonce.None? then Attempt(false, sent)
    else
      var signature := dev.answer(nonce.value);
      if signature.None? || |signature.value| > 255 || sends == 0 then Attempt(false, sent)
      else Finish(next, sends - 1, sent + [ShortPacket(0x08, signature.value)])
  }

  /** The attempt from its acceptance; `reply` and `next` are the frames that follow. */
  function Announce(dev: Identity, reply: Option<Bytes>, next: Option<Bytes>, sends: nat, sent: seq<Bytes>): Attempt {
    if !(0 < |dev.key| <= 255) || sends == 0 then Attempt(false, sent)
    else
      var announced := sent + [ShortPacket(0x02, dev.key)];
      if reply.None? || !Leads(reply.value, 0x82, 0x09) then Finish(reply, sends - 1, announced)
      else Respond(dev, reply.value, next, sends - 1, announced)
  }

  /** The attempt once the request is sent. */
  function Accept(
    dev: Identity, accepted: Option<Bytes>, reply: Option<Bytes>, next: Option<Bytes>, sends: nat, sent: seq<Bytes>)
    : Attempt
  {
    if accepted.None? || !Leads(accepted.value, 0x81, 0x01) then Attempt(false, sent)
    else Announce(dev, reply, next, sends, sent)
  }

  /** The attempt from its first packet. */
  function Request(
    dev: Identity, packet: Bytes, accepted: Option<Bytes>, reply: Option<Bytes>, next: Option<Bytes>, sends: nat)
    : Attempt
  {
    if sends == 0 then Attempt(false, []) else Accept(dev, accepted, reply, next, sends - 1, [packet])
  }

  /** The attempt as a function of the frames received (`None`: timeout or error) and of how many
      sends succeed. */
  function Enroll(dev: Identity, inbox: seq<Option<Bytes>>, sends: nat): Attempt {
    Request(dev, REQUEST_PACKET, Inbox(inbox, 0), Inbox(inbox, 1), Inbox(inbox, 2), sends)
  }

  /** The acceptance arrives, the key can be announced, and either the UUID comes at once, or a challenge
      that the device can answer and then the UUID; and every send this takes succeeds. */
  ghost predicate Enrolling(dev: Identity, inbox: seq<Option<Bytes>>, sends: nat) {
    && Starts(Inbox(inbox, 0), [0x81, 0x01]) && 0 < |dev.key| <= 255
    && (|| (Starts(Inbox(inbox, 1), [0x82, 0x03]) && sends >= 3)
        || (Starts(Inbox(inbox, 1), [0x82, 0x09]) && Starts(Inbox(inbox, 2), [0x82, 0x03]) && sends >= 4
            && CanAnswer(dev, Inbox(inbox, 1).value)))
  }

  /** The payload of the frame starts with these bytes. */
  ghost predicate Starts(frame: Option<Bytes>, lead: Bytes) {
    frame.Some? && |frame.value| >= 6 && frame.value[4..6] == lead
  }

  /** The challenge carries a nonce with a one-byte length, and the device signs it in at most 255 bytes. */
  ghost predicate CanAnswer(dev: Identity, frame: Bytes) {
    exists nonce: Bytes :: 0 < |nonce| <= 255 && |frame| >= 8 + |nonce|
      && frame[6..8 + |nonce|] == [0x58, |nonce|] + nonce && dev.answer(nonce).Some? && |dev.answer(nonce).value| <= 255
  }

  lemma AnswerableIff(dev: Identity, frame: Bytes)
    ensures CanAnswer(dev, frame) <==>
      var nonce := NonceOf(frame);
      nonce.Some? && dev.answer(nonce.value).Some? && |dev.answer(nonce.value).value| <= 255
  {
    var found := NonceOf(frame);
    if found.Some? {
      var n := found.value;
      assert frame[6..8 + |n|] == [0x58, |n|] + n;
    }
    forall nonce: Bytes
      | 0 < |nonce| <= 255 && |frame| >= 8 + |nonce| && frame[6..8 + |nonce|] == [0x58, |nonce|] + nonce
      ensures found == Some(nonce)
    {
      var part := frame[6..8 + |nonce|];
      assert frame[6] == part[0] && frame[7] == part[1] && frame[8..8 + |nonce|] == part[2..];
    }
  }

  lemma StartsIff(frame: Option<Bytes>, first: Byte, second: Byte)
    ensures Starts(frame, [first, second]) <==> frame.Some? && Leads(frame.value, first, second)
  {
  }

  /** An attempt succeeds exactly then. */
  lemma EnrollsIff(dev: Identity, inbox: seq<Option<Bytes>>, sends: nat)
    ensures Enroll(dev, inbox, sends).ok <==> Enrolling(dev, inbox, sends)
  {
    var f0, f1, f2 := Inbox(inbox, 0), Inbox(inbox, 1), Inbox(inbox, 2);
    StartsIff(f0, 0x81, 0x01);
    StartsIff(f1, 0x82, 0x03);
    StartsIff(f1, 0x82, 0x09);
    StartsIff(f2, 0x82, 0x03);
    if f1.Some? {
      AnswerableIff(dev, f1.value);
    }
  }

  /** The packets of an attempt that is challenged with `nonce`, or not challenged. */
  function Script(dev: Identity, nonce: Option<Bytes>): seq<Bytes>
    requires |dev.key| <= 255
  {
    [REQUEST_PACKET, ShortPacket(0x02, dev.key)]
    + (if nonce.Some? && dev.answer(nonce.value).Some? && |dev.answer(nonce.value).value| <= 255
       then [ShortPacket(0x08, dev.answer(nonce.value).value)] else [])
    + [ACK_PACKET]
  }

  /** Whatever is received, the packets sent are the first of one of two scripts, and the acknowledgment
      that ends them goes out exactly when the attempt succeeds. */
  lemma SentIff(dev: Identity, inbox: seq<Option<Bytes>>, sends: nat)
    ensures var a := Enroll(dev, inbox, sends);
      && (|dev.key| > 255 ==> a.sent <= [REQUEST_PACKET])
      && (|dev.key| <= 255 ==>
            || a.sent <= Script(dev, None)
            || (Starts(Inbox(inbox, 1), [0x82, 0x09]) && a.sent <= Script(dev, NonceOf(Inbox(inbox, 1).value))))
      && |a.sent| <= sends
    ensures var a := Enroll(dev, inbox, sends); a.ok <==> a.sent != [] && a.sent[|a.sent| - 1] == ACK_PACKET
  {
    var a, f1 := Enroll(dev, inbox, sends), Inbox(inbox, 1);
    StartsIff(f1, 0x82, 0x09);
    if |dev.key| <= 255 {
      var plain := Script(dev, None);
      assert plain == [REQUEST_PACKET, ShortPacket(0x02, dev.key), ACK_PACKET];
      if f1.Some? && NonceOf(f1.value).Some? {
        var nonce := NonceOf(f1.value);
        if dev.answer(nonce.value).Some? && |dev.answer(nonce.value).value| <= 255 {
          assert Script(dev, nonce) ==
            [REQUEST_PACKET, ShortPacket(0x02, dev.key), ShortPacket(0x08, dev.answer(nonce.value).value), ACK_PACKET];
        }
      }
    }
  }

  // ---------------------------------------------------------------- over a socket

  const RX_BUFFER := 64

  const REPLY_TIMEOUT := 5000

  /** A connection as a value: the socket, and the bytes that each further send draws from the peer. */
  datatype Channel = Channel(stream: Bytes, plan: seq<Arrival>, now: int, replies: seq<Bytes>)

  function Answered(c: Channel): Channel {
    if c.replies == [] then c else c.(stream := c.stream + c.replies[0], replies := c.replies[1..])
  }

  /** The frame a read delivers, and the channel after it. */
  function Fetch(c: Channel, timeout: int): (Option<Bytes>, Channel) {
    var r := ReadBy(c.stream, RX_BUFFER, c.plan, c.now, timeout);
    (if r.frame.Some? then Some(c.stream[..r.frame.value]) else None,
     Channel(c.stream[r.got..], r.plan, r.now, c.replies))
  }

  /** What the reads of an attempt deliver, each after one more send. */
  function InboxOf(c: Channel): (inbox: seq<Option<Bytes>>)
    ensures |inbox| == 3
  {
    var r0 := Fetch(Answered(c), REPLY_TIMEOUT);
    var r1 := Fetch(Answered(r0.1), REPLY_TIMEOUT);
    var r2 := Fetch(Answered(r1.1), REPLY_TIMEOUT);
    [r0.0, r1.0, r2.0]
  }

  class Link {
    const socket: Socket
    var replies: seq<Bytes>
    var sends: nat
    var sent: seq<Bytes>

    ghost function View(): Channel
      reads this, socket
    {
      Channel(socket.stream, socket.plan, socket.now, replies)
    }

    constructor (socket: Socket, replies: seq<Bytes>, sends: nat)
      ensures this.socket == socket && this.replies == replies && this.sends == sends && sent == []
    {
      this.socket, this.replies, this.sends, sent := socket, replies, sends, [];
    }

    method Send(packet: Bytes) returns (ok: bool)
      modifies this, socket
      ensures ok <==> old(sends) > 0
      ensures ok ==> sends == old(sends) - 1 && sent == old(sent) + [packet] && View() == Answered(old(View()))
      ensures !ok ==> sends == old(sends) && sent == old(sent) && View() == old(View())
    {
      ok := sends > 0;
      if ok {
        sends, sent := sends - 1, sent + [packet];
        if replies != [] {
          socket.stream := socket.stream + replies[0];
          replies := replies[1..];
        }
      }
    }

    method Receive(buffer: array<Byte>, timeout: int) returns (frame: Option<Bytes>)
      requires buffer.Length == RX_BUFFER
      modifies socket, buffer
      ensures (frame, View()) == Fetch(old(View()), timeout)
    {
      var status, total := RecvFrame(socket, buffer, timeout);
      frame := if status == 0 then Some(buffer[..total]) else None;
    }
  }

  /** The next reads of the channel, each after one more send, deliver `inbox`. */
  ghost predicate Feeds(c: Channel, inbox: seq<Option<Bytes>>)
    decreases |inbox|
  {
    inbox != [] ==>
      var r := Fetch(Answered(c), REPLY_TIMEOUT);
      r.0 == inbox[0] && Feeds(r.1, inbox[1..])
  }

  lemma FeedsInbox(c: Channel)
    ensures Feeds(c, InboxOf(c))
  {
    var inbox := InboxOf(c);
    var r0 := Fetch(Answered(c), REPLY_TIMEOUT);
    var r1 := Fetch(Answered(r0.1), REPLY_TIMEOUT);
    var r2 := Fetch(Answered(r1.1), REPLY_TIMEOUT);
    assert inbox[1..] == [r1.0, r2.0] && inbox[1..][1..] == [r2.0];
    assert Feeds(r1.1, [r2.0]) by {
      assert |[r2.0][1..]| == 0;
    }
  }

  /** A packet out, a frame in. */
  method Exchange(link: Link, packet: Bytes, buffer: array<Byte>, ghost inbox: seq<Option<Bytes>>)
    returns (ok: bool, frame: Option<Bytes>)
    requires buffer.Length == RX_BUFFER && inbox != [] && Feeds(link.View(), inbox)
    modifies link, link.socket, buffer
    ensures ok <==> old(link.sends) > 0
    ensures ok ==> link.sends == old(link.sends) - 1 && link.sent == old(link.sent) + [packet]
    ensures ok ==> frame == inbox[0] && Feeds(link.View(), inbox[1..])
    ensures !ok ==> link.sent == old(link.sent)
  {
    ok := link.Send(packet);
    frame := None;
    if ok {
      frame := link.Receive(buffer, REPLY_TIMEOUT);
    }
  }

  method DoEnrollment(link: Link, dev: Identity) returns (status: int)
    modifies link, link.socket
    ensures var a := Enroll(dev, InboxOf(old(link.View())), old(link.sends));
      status == (if a.ok then 0 else -1) && link.sent == old(link.sent) + a.sent
  {
    var buffer := new Byte[RX_BUFFER];
    FeedsInbox(link.View());
    status := Converse(link, dev, buffer, REQUEST_PACKET, InboxOf(link.View()));
  }

  /** Waits for the final confirmation; whether it comes makes no difference. */
  method Completion(socket: Socket, buffer: array<Byte>, timeout: int) returns (confirmed: bool)
    requires buffer.Length == RX_BUFFER
    modifies socket, buffer
  {
    var status, total := RecvFrame(socket, buffer, timeout);
    confirmed := status == 0 && total >= 6 && buffer[4] == 0x81 && buffer[5] == 0x04;
  }

  /** The end of an attempt; `link` has sent `before` and then `sent`. */
  method Acknowledge(
    link: Link, buffer: array<Byte>, reply: Option<Bytes>, ghost before: seq<Bytes>, ghost sent: seq<Bytes>)
    returns (status: int)
    requires buffer.Length == RX_BUFFER && link.sent == before + sent
    modifies link, link.socket, buffer
    ensures var a := Finish(reply, old(link.sends), sent);
      status == (if a.ok then 0 else -1) && link.sent == before + a.sent
  {
    if reply.None? || |reply.value| < 6 || !Leads(reply.value, 0x82, 0x03) {
      return -1;
    }
    var ok := link.Send(ACK_PACKET);
    if !ok {
      return -1;
    }
    var _ := Completion(link.socket, buffer, 3000);
    assert link.sent == before + (sent + [ACK_PACKET]);
    return 0;
  }

  method AnswerChallenge(
    link: Link, dev: Identity, buffer: array<Byte>, frame: Bytes, ghost inbox: seq<Option<Bytes>>,
    ghost before: seq<Bytes>, ghost sent: seq<Bytes>)
    returns (status: int)
    requires buffer.Length == RX_BUFFER && link.sent == before + sent
    requires inbox != [] && Feeds(link.View(), inbox)
    modifies link, link.socket, buffer
    ensures var a := Respond(dev, frame, inbox[0], old(link.sends), sent);
      status == (if a.ok then 0 else -1) && link.sent == before + a.sent
  {
    var nonce := NonceOf(frame);
    if nonce.None? {
      return -1;
    }
    var signature := dev.answer(nonce.value);
    if signature.None? || |signature.value| > 255 {
      return -1;
    }
    var packet := ShortPacket(0x08, signature.value);
    var ok, next := Exchange(link, packet, buffer, inbox);
    if !ok {
      return -1;
    }
    assert link.sent == before + (sent + [packet]);
    status := Acknowledge(link, buffer, next, before, sent + [packet]);
  }

  method AnnounceKey(
    link: Link, dev: Identity, buffer: array<Byte>, ghost inbox: seq<Option<Bytes>>,
    ghost before: seq<Bytes>, ghost sent: seq<Bytes>)
    returns (status: int)
    requires buffer.Length == RX_BUFFER && link.sent == before + sent
    requires |inbox| == 2 && Feeds(link.View(), inbox)
    modifies link, link.socket, buffer
    ensures var a := Announce(dev, inbox[0], inbox[1], old(link.sends), sent);
      status == (if a.ok then 0 else -1) && link.sent == before + a.sent
  {
    if |dev.key| == 0 || |dev.key| > 255 {
      return -1;
    }
    var packet := ShortPacket(0x02, dev.key);
    var ok, frame := Exchange(link, packet, buffer, inbox);
    if !ok {
      return -1;
    }
    ghost var announced := sent + [packet];
    assert link.sent == before + announced;
    if frame.Some? && Leads(frame.value, 0x82, 0x09) {
      status := AnswerChallenge(link, dev, buffer, frame.value, inbox[1..], before, announced);
    } else {
      status := Acknowledge(link, buffer, frame, before, announced);
    }
  }

  method AwaitAcceptance(
    link: Link, dev: Identity, buffer: array<Byte>, frame: Option<Bytes>, ghost inbox: seq<Option<Bytes>>,
    ghost before: seq<Bytes>, ghost sent: seq<Bytes>)
    returns (status: int)
    requires buffer.Length == RX_BUFFER && link.sent == before + sent
    requires |inbox| == 2 && Feeds(link.View(), inbox)
    modifies link, link.socket, buffer
    ensures var a := Accept(dev, frame, inbox[0], inbox[1], old(link.sends), sent);
      status == (if a.ok then 0 else -1) && link.sent == before + a.sent
  {
    if frame.None? || |frame.value| < 6 || !Leads(frame.value, 0x81, 0x01) {
      return -1;
    }
    status := AnnounceKey(link, dev, buffer, inbox, before, sent);
  }

  method Converse(link: Link, dev: Identity, buffer: array<Byte>, packet: Bytes, ghost inbox: seq<Option<Bytes>>)
    returns (status: int)
    requires buffer.Length == RX_BUFFER && |inbox| == 3 && Feeds(link.View(), inbox)
    modifies link, link.socket, buffer
    ensures var a := Request(dev, packet, inbox[0], inbox[1], inbox[2], old(link.sends));
      status == (if a.ok then 0 else -1) && link.sent == old(link.sent) + a.sent
  {
    ghost var before := link.sent;
    ghost var a := Request(dev, packet, inbox[0], inbox[1], inbox[2], link.sends);
    var ok, frame := Exchange(link, packet, buffer, inbox);
    if !ok {
      return -1;
    }
    ghost var rest := inbox[1..];
    assert a == Accept(dev, frame, rest[0], rest[1], link.sends, [packet]);
    status := AwaitAcceptance(link, dev, buffer, frame, rest, before, [packet]);
  }

  // ---------------------------------------------------------------- agreement

  /** Event `i` of the run answers a message on `conn` with `m`. */
  ghost predicate Replies(s: Settings, es: seq<Event>, i: nat, conn: ConnId, m: ServerMessage) {
    i < |es| && es[i].Received? && es[i].conn == conn && m in Step(s, After(s, es[..i]), es[i]).replies
  }

  /** What can reach the device on `conn`: replies of the run, and messages pushed by deployments. */
  ghost predicate SentOn(s: Settings, es: seq<Event>, conn: ConnId, m: ServerMessage) {
    || (exists i: nat :: Replies(s, es, i, conn, m))
    || m.DeployApplication? || m.StopApplication? || m.RequestDeviceInfo? || m.RequestApplicationStatus?
  }

  /** `frame` carries a message that the gateway sent on `conn`. */
  ghost predicate Genuine(s: Settings, es: seq<Event>, conn: ConnId, frame: Bytes) {
    exists m ::
      ServerFits(m) && |EncodeServer(m)| < 0x1_0000_0000 && frame == Frame(EncodeServer(m)) && SentOn(s, es, conn, m)
  }

  lemma FrameLead(m: ServerMessage)
    requires ServerFits(m) && |EncodeServer(m)| < 0x1_0000_0000
    ensures var f := Frame(EncodeServer(m));
      Leads(f, 0x80 + ServerTag(m).0 as int, ServerTag(m).1 as int)
  {
    ServerLead(m);
  }

  /** The gateway hands out a UUID only in the step that binds the connection. */
  lemma UuidMeansBound(s: Settings, es: seq<Event>, i: nat, conn: ConnId, m: ServerMessage)
    requires Replies(s, es, i, conn, m) && m.DeviceUuid?
    ensures Responds(es[i], conn)
    ensures BindsConn(s, After(s, es[..i]), es[i], conn)
    ensures Get(After(s, es[..i + 1]).bound, conn) == Some(Binds(s, After(s, es[..i]), es[i]).value.device)
  {
    var t := After(s, es[..i]);
    assert es[i].msg.Some?;
    AfterNext(s, es, i);
    StepEffect(s, t, es[i]);
    UuidNeedsResponse(s, t, es[i], m);
    BindingStep(s, t, es[i], conn, After(s, es[..i + 1]));
  }

  lemma UuidNeedsResponse(s: Settings, t: Tables, e: Event, m: ServerMessage)
    requires e.Received? && m in Step(s, t, e).replies && m.DeviceUuid?
    ensures Responds(e, e.conn) && Completes(s, t, e).Some? && Enrollee(e.w, Completes(s, t, e).value.1).Some?
    ensures Completes(s, t, e).value.0 == e.conn
  {
  }

  /** A successful attempt was given a UUID frame. */
  lemma SuccessSawUuid(dev: Identity, inbox: seq<Option<Bytes>>, sends: nat)
    requires Enroll(dev, inbox, sends).ok
    ensures exists k: nat :: k < |inbox| && inbox[k].Some? && Leads(inbox[k].value, 0x82, 0x03)
  {
    var reply := Inbox(inbox, 1);
    if Leads(reply.value, 0x82, 0x09) {
      assert 2 < |inbox| && inbox[2].Some? && Leads(inbox[2].value, 0x82, 0x03);
    } else {
      assert 1 < |inbox| && inbox[1].Some? && Leads(inbox[1].value, 0x82, 0x03);
    }
  }

  /** Every key announced on `conn` is `key`. */
  ghost predicate AnnouncesOnly(es: seq<Event>, conn: ConnId, key: Bytes) {
    forall j :: 0 <= j < |es| ==> KeyOn(es[j], conn) in {None, Some(key)}
  }

  function KeyOn(e: Event, conn: ConnId): Option<Bytes> {
    if e.Received? && e.conn == conn && e.msg.Some? && e.msg.value.PublicKey? then Some(e.msg.value.key) else None
  }

  lemma LeadTellsUuid(m: ServerMessage)
    requires ServerFits(m) && |EncodeServer(m)| < 0x1_0000_0000 && Leads(Frame(EncodeServer(m)), 0x82, 0x03)
    ensures m.DeviceUuid?
  {
    FrameLead(m);
  }

  lemma UuidFrame(s: Settings, es: seq<Event>, conn: ConnId, frame: Bytes) returns (i: nat, m: ServerMessage)
    requires Genuine(s, es, conn, frame) && Leads(frame, 0x82, 0x03)
    ensures Replies(s, es, i, conn, m) && m.DeviceUuid?
  {
    m :|
      ServerFits(m) && |EncodeServer(m)| < 0x1_0000_0000 && frame == Frame(EncodeServer(m)) && SentOn(s, es, conn, m);
    LeadTellsUuid(m);
    i :| Replies(s, es, i, conn, m);
  }

  lemma EnrolledByAnnouncement(s: Settings, es: seq<Event>, i: nat, conn: ConnId, key: Bytes)
    requires i < |es| && Responds(es[i], conn) && BindsConn(s, After(s, es[..i]), es[i], conn)
    requires AnnouncesOnly(es, conn, key)
    ensures EnrollsTo(s, es, i, conn, Binds(s, After(s, es[..i]), es[i]).value.device, key)
  {
    var t := After(s, es[..i]);
    var proven := Completes(s, t, es[i]).value.1;
    CompletionIff(s, es, i, conn, proven);
    var a: nat :| Justifies(s, es, a, i, conn, proven);
    assert KeyOn(es[a], conn) == Some(proven);
  }

  /** If every frame an attempt was given carries a message sent on its connection, success means that
      the gateway has bound the connection, by a justified enrollment, to the owner of its key. */
  lemma GenuineAgreement(s: Settings, es: seq<Event>, conn: ConnId, dev: Identity,
                         inbox: seq<Option<Bytes>>, sends: nat) returns (i: nat, device: DeviceId)
    requires Enroll(dev, inbox, sends).ok
    requires forall f :: f in inbox && f.Some? ==> Genuine(s, es, conn, f.value)
    requires AnnouncesOnly(es, conn, dev.key)
    ensures EnrollsTo(s, es, i, conn, device, dev.key)
    ensures Get(After(s, es[..i + 1]).bound, conn) == Some(device)
  {
    SuccessSawUuid(dev, inbox, sends);
    var k: nat :| k < |inbox| && inbox[k].Some? && Leads(inbox[k].value, 0x82, 0x03);
    var m;
    i, m := UuidFrame(s, es, conn, inbox[k].value);
    UuidMeansBound(s, es, i, conn, m);
    device := Binds(s, After(s, es[..i]), es[i]).value.device;
    EnrolledByAnnouncement(s, es, i, conn, dev.key);
  }

  // ---------------------------------------------------------------- completion

  lemma ShortPacketDecodes(tag: Byte, body: Bytes)
    requires |body| <= 255 && tag < 24
    ensures var p := ShortPacket(tag, body);
      && |p| == 8 + |body| && FromBe32(p[..4]) == |p| - 4
      && DecodeClient(p[4..]) == DecodeClientBody(tag, 2, Head1(body))
  {
    var p := ShortPacket(tag, body);
    assert p[4..] == [0x82, tag] + Head1(body);
    assert p[4..][1..] == [tag] + Head1(body);
    assert ([tag] + Head1(body))[1..] == Head1(body);
  }

  /** A byte string with a one-byte length, whatever its size. */
  function Head1(body: Bytes): Bytes
    requires |body| <= 255
  {
    [0x58, |body|] + body
  }

  lemma Head1Reads(body: Bytes)
    requires |body| <= 255
    ensures ReadStr(BYTES, Head1(body)) == Some((body, []))
  {
    assert Head1(body)[2..] == body;
    assert body[..|body|] == body && body[|body|..] == [];
  }

  lemma PacketsDecode(body: Bytes)
    requires |body| <= 255
    ensures DecodeClient(ShortPacket(0x02, body)[4..]) == Some(PublicKey(body))
    ensures DecodeClient(ShortPacket(0x08, body)[4..]) == Some(ChallengeResponse(body))
  {
    ShortPacketDecodes(0x02, body);
    ShortPacketDecodes(0x08, body);
    Head1Reads(body);
  }

  lemma FixedPacketsDecode()
    ensures DecodeClient(REQUEST_PACKET[4..]) == Some(EnrollmentRequest)
    ensures DecodeClient(ACK_PACKET[4..]) == Some(EnrollmentAcknowledgment)
  {
    assert REQUEST_PACKET[4..] == [0x81, 0x01] && ACK_PACKET[4..] == [0x81, 0x03];
    assert [0x81, 0x01][1..] == [0x01] && [0x81, 0x03][1..] == [0x03];
  }

  /** The challenge frame carries its nonce to the firmware. */
  lemma ChallengeFrame(nonce: Bytes)
    requires 24 <= |nonce| <= 255
    ensures var f := Frame(EncodeServer(Challenge(nonce)));
      Leads(f, 0x82, 0x09) && NonceOf(f) == Some(nonce)
  {
    var e := EncodeServer(Challenge(nonce));
    assert Head(BYTES, |nonce|) == [0x58, |nonce|];
    assert e == [0x82, 0x09, 0x58, |nonce|] + nonce;
    FramedNonce(e, nonce);
  }

  lemma FramedNonce(e: Bytes, nonce: Bytes)
    requires 0 < |nonce| <= 255 && e == [0x82, 0x09, 0x58, |nonce|] + nonce
    ensures Leads(Frame(e), 0x82, 0x09) && NonceOf(Frame(e)) == Some(nonce)
  {
    var f := Frame(e);
    assert f[4..] == e;
    assert f[4] == e[0] && f[5] == e[1] && f[6] == e[2] && f[7] == e[3];
    assert f[8..8 + |nonce|] == nonce;
  }

  /** The frames of the three replies. */
  function ReplyFrames(nonce: Bytes, uuid: Bytes): (frames: seq<Bytes>)
    requires |nonce| == 32 && |uuid| == 16
    ensures |frames| == 3
  {
    ShortReplies(nonce, uuid);
    [Frame(EncodeServer(EnrollmentAccepted)), Frame(EncodeServer(Challenge(nonce))),
     Frame(EncodeServer(DeviceUuid(uuid)))]
  }

  /** The packets of a complete attempt. */
  function AllPackets(dev: Identity, signature: Bytes): seq<Bytes>
    requires |dev.key| <= 255 && |signature| <= 255
  {
    [REQUEST_PACKET, ShortPacket(0x02, dev.key), ShortPacket(0x08, signature), ACK_PACKET]
  }

  /** Event `i` is the arrival of a packet on `conn`. */
  ghost predicate Arrives(es: seq<Event>, i: nat, conn: ConnId, packet: Bytes)
    requires |packet| >= 4
  {
    i < |es| && es[i].Received? && es[i].conn == conn && es[i].msg == DecodeClient(packet[4..])
  }

  ghost function RepliesAt(s: Settings, es: seq<Event>, i: nat): seq<ServerMessage>
    requires i < |es|
  {
    Step(s, After(s, es[..i]), es[i]).replies
  }

  /** The firmware's packets reach the gateway at events `q`, `a` and `r` of any run, with whatever
      else in between, except that nothing between `a` and `r` disturbs the connection's challenge. */
  ghost predicate IsHandshake(
    s: Settings, es: seq<Event>, conn: ConnId, dev: Identity, signature: Bytes, q: nat, a: nat, r: nat)
  {
    && 0 < |dev.key| <= 255 && |signature| <= 255 && q < a < r
    && Arrives(es, q, conn, REQUEST_PACKET)
    && Arrives(es, a, conn, ShortPacket(0x02, dev.key))
    && Arrives(es, r, conn, ShortPacket(0x08, signature))
    && dev.answer(es[a].w.nonce) == Some(signature)
    && forall m :: a < m < r ==> !Disturbs(s, es[m], conn)
  }

  /** The gateway accepts the announced key, the answer is timely and verifies, and the key belongs
      to `device`. */
  ghost predicate Deserves(
    s: Settings, es: seq<Event>, dev: Identity, signature: Bytes, a: nat, r: nat, device: DeviceId)
    requires a < |es| && r < |es| && es[a].Received? && es[r].Received?
  {
    && Accepts(s, es[a].tlsKey, dev.key)
    && s.verify(dev.key, Transcript(es[a].w.nonce, dev.key), signature)
    && es[r].w.now - es[a].w.now <= CHALLENGE_TTL
    && Enrollee(es[r].w, dev.key) == Some(device)
  }

  lemma HandshakeJustified(s: Settings, es: seq<Event>, conn: ConnId, dev: Identity, signature: Bytes,
                           q: nat, a: nat, r: nat, device: DeviceId)
    requires IsHandshake(s, es, conn, dev, signature, q, a, r) && Deserves(s, es, dev, signature, a, r, device)
    ensures Announces(s, es[a], conn, dev.key) && es[r].msg == Some(ChallengeResponse(signature))
    ensures EnrollsTo(s, es, r, conn, device, dev.key)
    ensures Completes(s, After(s, es[..r]), es[r]) == Some((conn, dev.key))
  {
    PacketsDecode(dev.key);
    PacketsDecode(signature);
    assert Justifies(s, es, a, r, conn, dev.key);
    CompletionIff(s, es, r, conn, dev.key);
  }

  lemma HandshakeReplies(s: Settings, es: seq<Event>, conn: ConnId, dev: Identity, signature: Bytes,
                         q: nat, a: nat, r: nat, device: DeviceId)
    requires IsHandshake(s, es, conn, dev, signature, q, a, r) && Deserves(s, es, dev, signature, a, r, device)
    ensures RepliesAt(s, es, q) == [EnrollmentAccepted]
    ensures RepliesAt(s, es, a) == [Challenge(es[a].w.nonce)]
    ensures RepliesAt(s, es, r) == [DeviceUuid(es[r].w.uuid)]
  {
    FixedPacketsDecode();
    HandshakeJustified(s, es, conn, dev, signature, q, a, r, device);
    UuidReply(s, After(s, es[..r]), es[r], dev.key);
  }

  lemma UuidReply(s: Settings, t: Tables, e: Event, key: Bytes)
    requires Completes(s, t, e).Some? && Completes(s, t, e).value.1 == key && Enrollee(e.w, key).Some?
    ensures Step(s, t, e).replies == [DeviceUuid(e.w.uuid)]
  {
  }

  lemma HandshakeBinds(s: Settings, es: seq<Event>, conn: ConnId, dev: Identity, signature: Bytes,
                       q: nat, a: nat, r: nat, device: DeviceId)
    requires IsHandshake(s, es, conn, dev, signature, q, a, r) && Deserves(s, es, dev, signature, a, r, device)
    ensures Get(After(s, es[..r + 1]).bound, conn) == Some(device)
  {
    HandshakeJustified(s, es, conn, dev, signature, q, a, r, device);
    var t := After(s, es[..r]);
    var now := Step(s, t, es[r]).tables;
    assert Binds(s, t, es[r]) == Some(Binding(conn, device, ByEnrollment(dev.key)));
    StepEffect(s, t, es[r]);
    BindingStep(s, t, es[r], conn, now);
    AfterNext(s, es, r);
  }

  /** Over every run: when the three packets of a device reach the gateway, its key is accepted, the
      answer is timely and verifies, and the device is known or admitted, then the gateway replies
      with exactly the frames that make the firmware succeed, and has bound the connection to it. */
  lemma HandshakeCompletes(s: Settings, es: seq<Event>, conn: ConnId, dev: Identity, signature: Bytes,
                           q: nat, a: nat, r: nat, device: DeviceId)
    requires IsHandshake(s, es, conn, dev, signature, q, a, r) && Deserves(s, es, dev, signature, a, r, device)
    requires |es[a].w.nonce| == 32 && |es[r].w.uuid| == 16
    ensures RepliesAt(s, es, q) == [EnrollmentAccepted]
    ensures RepliesAt(s, es, a) == [Challenge(es[a].w.nonce)]
    ensures RepliesAt(s, es, r) == [DeviceUuid(es[r].w.uuid)]
    ensures EnrollsTo(s, es, r, conn, device, dev.key) && Get(After(s, es[..r + 1]).bound, conn) == Some(device)
    ensures Enroll(dev, Received3(ReplyFrames(es[a].w.nonce, es[r].w.uuid)), 4)
      == Attempt(true, AllPackets(dev, signature))
  {
    HandshakeReplies(s, es, conn, dev, signature, q, a, r, device);
    HandshakeJustified(s, es, conn, dev, signature, q, a, r, device);
    HandshakeBinds(s, es, conn, dev, signature, q, a, r, device);
    Completed(dev, es[a].w.nonce, es[r].w.uuid, 4);
  }

  function Received3(frames: seq<Bytes>): seq<Option<Bytes>>
    requires |frames| == 3
  {
    [Some(frames[0]), Some(frames[1]), Some(frames[2])]
  }

  lemma Completed(dev: Identity, nonce: Bytes, uuid: Bytes, sends: nat)
    requires |nonce| == 32 && |uuid| == 16 && 0 < |dev.key| <= 255
    requires dev.answer(nonce).Some? && |dev.answer(nonce).value| <= 255
    requires sends >= 4
    ensures Enroll(dev, Received3(ReplyFrames(nonce, uuid)), sends)
      == Attempt(true, AllPackets(dev, dev.answer(nonce).value))
  {
    GoodFrames(nonce, uuid);
    GoodReplies(dev, Received3(ReplyFrames(nonce, uuid)), nonce, sends);
  }

  lemma GoodFrames(nonce: Bytes, uuid: Bytes)
    requires |nonce| == 32 && |uuid| == 16
    ensures Leads(Frame(EncodeServer(EnrollmentAccepted)), 0x81, 0x01)
    ensures Leads(Frame(EncodeServer(Challenge(nonce))), 0x82, 0x09)
    ensures NonceOf(Frame(EncodeServer(Challenge(nonce)))) == Some(nonce)
    ensures Leads(Frame(EncodeServer(DeviceUuid(uuid))), 0x82, 0x03)
  {
    FrameLead(EnrollmentAccepted);
    ChallengeFrame(nonce);
    FrameLead(DeviceUuid(uuid));
  }

  /** The frames of an enrollment fit the firmware's 64-byte buffer. */
  lemma ShortReplies(nonce: Bytes, uuid: Bytes)
    requires |nonce| == 32 && |uuid| == 16
    ensures |Frame(EncodeServer(EnrollmentAccepted))| == 6 && |Frame(EncodeServer(EnrollmentCompleted))| == 6
    ensures |Frame(EncodeServer(Challenge(nonce)))| == 40 && |Frame(EncodeServer(DeviceUuid(uuid)))| == 23
  {
    assert |Head(BYTES, |nonce|)| == 2 && |Head(BYTES, |uuid|)| == 1;
  }

  /** The replies that make an attempt succeed. */
  lemma GoodReplies(dev: Identity, inbox: seq<Option<Bytes>>, nonce: Bytes, sends: nat)
    requires |inbox| == 3 && forall f :: f in inbox ==> f.Some?
    requires Leads(inbox[0].value, 0x81, 0x01) && Leads(inbox[1].value, 0x82, 0x09) && Leads(inbox[2].value, 0x82, 0x03)
    requires NonceOf(inbox[1].value) == Some(nonce) && dev.answer(nonce).Some? && |dev.answer(nonce).value| <= 255
    requires 0 < |dev.key| <= 255
    requires sends >= 4
    ensures Enroll(dev, inbox, sends) == Attempt(true,
      [REQUEST_PACKET, ShortPacket(0x02, dev.key), ShortPacket(0x08, dev.answer(nonce).value), ACK_PACKET])
  {
    assert inbox[0] in inbox && inbox[1] in inbox && inbox[2] in inbox;
  }

  // ---------------------------------------------------------------- signers

  /** A hash and the check of a signature over a digest, as the ECDSA library provides them. */
  datatype Crypto = Crypto(sha256: Bytes -> Bytes, check: (Bytes, Bytes, Bytes) -> bool)

  /** Digests have 32 bytes, and `sign` is the private key of `key`: its signature over a digest
      passes for that digest alone. */
  ghost predicate KeyPair(c: Crypto, key: Bytes, sign: Bytes -> Bytes) {
    && (forall b :: |c.sha256(b)| == 32)
    && (forall d, d' :: |d| == 32 && |d'| == 32 ==> (c.check(key, d, sign(d')) <==> d == d'))
  }

  /** The gateway verifies over the hash of the transcript. */
  ghost function GatewaySettings(c: Crypto, requireClientAuth: bool): Settings {
    Settings(requireClientAuth, (key, message, signature) => c.check(key, c.sha256(message), signature))
  }

  /** The firmware hashes the transcript once and signs the digest. */
  function FirmwareAnswer(c: Crypto, key: Bytes, sign: Bytes -> Bytes, nonce: Bytes): Bytes {
    sign(c.sha256(Transcript(nonce, key)))
  }

  /** The edge client hashes the transcript and hands the digest to a signer that hashes again. */
  function EdgeAnswer(c: Crypto, key: Bytes, sign: Bytes -> Bytes, nonce: Bytes): Bytes {
    sign(c.sha256(c.sha256(Transcript(nonce, key))))
  }

  /** The firmware's answer always verifies. */
  lemma FirmwareVerifies(c: Crypto, auth: bool, key: Bytes, sign: Bytes -> Bytes, nonce: Bytes)
    requires KeyPair(c, key, sign)
    ensures GatewaySettings(c, auth).verify(key, Transcript(nonce, key), FirmwareAnswer(c, key, sign, nonce))
  {
    var d := c.sha256(Transcript(nonce, key));
    assert c.check(key, d, sign(d)) <==> d == d;
  }

  /** The edge client's answer verifies exactly when the digest of the transcript is its own hash. */
  lemma EdgeVerifiesIff(c: Crypto, auth: bool, key: Bytes, sign: Bytes -> Bytes, nonce: Bytes)
    requires KeyPair(c, key, sign)
    ensures GatewaySettings(c, auth).verify(key, Transcript(nonce, key), EdgeAnswer(c, key, sign, nonce))
      <==> c.sha256(c.sha256(Transcript(nonce, key))) == c.sha256(Transcript(nonce, key))
  {
    var d := c.sha256(Transcript(nonce, key));
    assert c.check(key, d, sign(c.sha256(d))) <==> d == c.sha256(d);
  }

  /** With any hash under which no digest is its own hash, the edge client is always refused. */
  lemma EdgeRefused(c: Crypto, auth: bool, key: Bytes, sign: Bytes -> Bytes, nonce: Bytes)
    requires KeyPair(c, key, sign)
    requires forall d :: |d| == 32 ==> c.sha256(d) != d
    ensures !GatewaySettings(c, auth).verify(key, Transcript(nonce, key), EdgeAnswer(c, key, sign, nonce))
  {
    EdgeVerifiesIff(c, auth, key, sign, nonce);
    assert |c.sha256(Transcript(nonce, key))| == 32;
  }

  function FirmwareIdentity(c: Crypto, key: Bytes, sign: Bytes -> Bytes): Identity {
    Identity(key, nonce => Some(FirmwareAnswer(c, key, sign, nonce)))
  }

  /** The listing holds the device under the URL-safe spelling of its key, and no other under it. */
  ghost predicate Lists(w: World, key: Bytes, device: DeviceId) {
    && w.listing.Some? && DeviceObject(device, Base64.Encode(Base64.UrlSafe, key)) in w.listing.value
    && forall d :: d in w.listing.value && d.publicKey == Base64.Encode(Base64.UrlSafe, key) ==> d.name == device
  }

  lemma ListedEnrollee(w: World, key: Bytes, device: DeviceId)
    requires Lists(w, key, device)
    ensures Enrollee(w, key) == Some(device)
  {
    assert Find(w.listing.value, key).Some?;
  }
}
