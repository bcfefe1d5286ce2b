/** The gateway's TLS and HTTP callbacks as steps over the tables. */
module Gateway {
  import opened Prelude
  import opened Base64
  import opened KeyIndex
  import opened Messages
  import opened GatewayTables

  /** A Device resource: its name and the key text of its spec. */
  datatype DeviceObject = DeviceObject(name: DeviceId, publicKey: string)

  /** `verify(key, message, signature)`: the ECDSA check over a message. */
  datatype Settings = Settings(requireClientAuth: bool, verify: (Bytes, Bytes, Bytes) -> bool)

  /** What a step learns from outside: the clock, the Device listing (`None` on an API error),
      whether a status patch went through, the pairing switch, fresh randomness, and the name
      under which a new Device was created (`None` when creation failed). */
  datatype World = World(
    now: Millis, listing: Option<seq<DeviceObject>>, patched: bool, pairing: bool,
    nonce: Bytes, uuid: Bytes, created: Option<DeviceId>)

  datatype Event =
    | Connecting(tlsKey: Bytes, w: World)
    | Ready(conn: ConnId, tlsKey: Bytes, w: World)
    | Received(conn: ConnId, tlsKey: Bytes, msg: Option<ClientMessage>, w: World)
    | Disconnected(conn: ConnId)
    | HttpRegister(device: DeviceObject, w: World)
    | DeployBind(id: DeviceId, storedKey: Option<string>, w: World)

  datatype Outcome = Outcome(tables: Tables, replies: seq<ServerMessage>)

  /** Index of the first device whose stored key text is the URL-safe spelling of `key`. */
  function Find(devices: seq<DeviceObject>, key: Bytes): (r: Option<DeviceObject>)
    ensures r.Some? ==> r.value in devices && r.value.publicKey == Encode(UrlSafe, key)
    ensures r.None? ==> forall d :: d in devices ==> d.publicKey != Encode(UrlSafe, key)
  {
    if |devices| == 0 then None
    else if devices[0].publicKey == Encode(UrlSafe, key) then Some(devices[0])
    else Find(devices[1..], key)
  }

  method FindDevice(devices: seq<DeviceObject>, key: Bytes) returns (found: Option<DeviceObject>)
    ensures found == Find(devices, key)
  {
    for i := 0 to |devices|
      invariant Find(devices, key) == Find(devices[i..], key)
    {
      if devices[i].publicKey == Encode(UrlSafe, key) {
        return Some(devices[i]);
      }
    }
    return None;
  }

  const POP_CONTEXT := Ascii("wasmbed-pop-v1")

  /** The bytes a device signs: context, nonce, announced key. */
  function Transcript(nonce: Bytes, key: Bytes): Bytes { POP_CONTEXT + nonce + key }

  /** A key announcement is accepted when it matches the transport identity. */
  predicate Accepts(s: Settings, tlsKey: Bytes, key: Bytes) {
    (s.requireClientAuth ==> tlsKey != []) && (tlsKey != [] ==> tlsKey == key)
  }

  /** The key whose enrollment a signature on `conn` completes, if any. */
  function ProvenKey(s: Settings, t: Tables, conn: ConnId, signature: Bytes, now: Millis): Option<Bytes> {
    match Answerable(t, conn, now)
    case None => None
    case Some(c) =>
      if s.verify(c.announcedKey, Transcript(c.nonce, c.announcedKey), signature) then Some(c.announcedKey) else None
  }

  /** The device an enrolled key belongs to: an existing one, or one created in pairing mode. */
  function Enrollee(w: World, key: Bytes): Option<DeviceId> {
    if w.listing.None? then None
    else
      match Find(w.listing.value, key)
      case Some(device) => Some(device.name)
      case None => if w.pairing then w.created else None
  }

  function RejectReason(w: World, key: Bytes): Bytes {
    if w.listing.None? then Ascii("Internal error")
    else if !w.pairing then Ascii("Pairing mode disabled")
    else Ascii("Failed to create device")
  }

  ghost function Enrolled(t: Tables, conn: ConnId, id: DeviceId, key: Bytes, now: Millis): (r: Tables)
    ensures r.pending == t.pending - {conn} && r.bound == t.bound[conn := id] && r.challenges == t.challenges
  {
    Activated(Registered(t, id, Encode(Standard, key), now), conn, id, Encode(Standard, key), now)
  }

  ghost function OnConnect(s: Settings, t: Tables, tlsKey: Bytes, w: World): (Tables, bool) {
    if w.listing.None? then (t, false)
    else
      match Find(w.listing.value, tlsKey)
      case Some(device) =>
        if w.patched then (Registered(t, device.name, Encode(UrlSafe, tlsKey), w.now), true) else (t, false)
      case None => (t, if tlsKey == [] then !s.requireClientAuth else w.pairing)
  }

  ghost function OnReady(t: Tables, conn: ConnId, tlsKey: Bytes, w: World): Tables {
    var parked := t.(pending := t.pending[conn := Sender(conn)]);
    if tlsKey == [] then parked else SenderByKey(parked, tlsKey, Sender(conn), w.now)
  }

  ghost function OnResponse(s: Settings, t: Tables, conn: ConnId, signature: Bytes, w: World): Outcome {
    var taken := t.(challenges := t.challenges - {conn});
    match ProvenKey(s, t, conn, signature, w.now)
    case None =>
      Outcome(taken, [EnrollmentRejected(
        if Answerable(t, conn, w.now).None? then Ascii("No challenge outstanding")
        else Ascii("Proof of possession failed"))])
    case Some(key) =>
      match Enrollee(w, key)
      case None => Outcome(taken, [EnrollmentRejected(RejectReason(w, key))])
      case Some(id) => Outcome(Enrolled(taken, conn, id, key, w.now), [DeviceUuid(w.uuid)])
  }

  ghost function OnMessage(s: Settings, t: Tables, conn: ConnId, tlsKey: Bytes, msg: ClientMessage, w: World): Outcome {
    match msg
    case Heartbeat =>
      (match Resolve(t, conn, Encode(Standard, tlsKey))
       case Some(id) => Outcome(Beat(t, id, w.now), [HeartbeatAck])
       case None => Outcome(t, [HeartbeatAck]))
    case EnrollmentRequest => Outcome(t, [EnrollmentAccepted])
    case PublicKey(key) =>
      if Accepts(s, tlsKey, key) then
        Outcome(t.(challenges := t.challenges[conn := PendingChallenge(w.nonce, key, w.now)]), [Challenge(w.nonce)])
      else if tlsKey == [] then Outcome(t, [EnrollmentRejected(Ascii("Client certificate required"))])
      else Outcome(t, [EnrollmentRejected(Ascii("Public key mismatch with TLS certificate"))])
    case ChallengeResponse(signature) => OnResponse(s, t, conn, signature, w)
    case EnrollmentAcknowledgment => Outcome(t, [EnrollmentCompleted])
    case _ => Outcome(t, [])
  }

  ghost function Step(s: Settings, t: Tables, e: Event): Outcome {
    match e
    case Connecting(tlsKey, w) => Outcome(OnConnect(s, t, tlsKey, w).0, [])
    case Ready(conn, tlsKey, w) => Outcome(OnReady(t, conn, tlsKey, w), [])
    case Received(conn, tlsKey, msg, w) =>
      if msg.Some? then OnMessage(s, t, conn, tlsKey, msg.value, w) else Outcome(t, [])
    case Disconnected(conn) => Outcome(Removed(t, conn), [])
    case HttpRegister(device, w) => Outcome(Registered(t, device.name, device.publicKey, w.now), [])
    case DeployBind(id, storedKey, w) => Outcome(Adopted(t, id, storedKey, w.now), [])
  }

  class Callbacks {
    const settings: Settings
    const server: HttpApiServer

    constructor (settings: Settings, server: HttpApiServer)
      ensures this.settings == settings && this.server == server
    {
      this.settings, this.server := settings, server;
    }

    method Connect(tlsKey: Bytes, w: World) returns (authorized: bool)
      modifies server
      ensures (server.View(), authorized) == OnConnect(settings, old(server.View()), tlsKey, w)
    {
      if w.listing.None? {
        return false;
      }
      var device := FindDevice(w.listing.value, tlsKey);
      if device.Some? {
        if !w.patched {
          return false;
        }
        server.RegisterDevice(device.value.name, Encode(UrlSafe, tlsKey), w.now);
        return true;
      }
      if tlsKey == [] {
        return !settings.requireClientAuth;
      }
      return w.pairing;
    }

    method ConnectionReady(conn: ConnId, tlsKey: Bytes, w: World)
      modifies server
      ensures server.View() == OnReady(old(server.View()), conn, tlsKey, w)
    {
      server.StorePendingSender(conn, Sender(conn));
      if tlsKey != [] {
        server.SetDeviceTlsSender(tlsKey, Sender(conn), w.now);
      }
    }

    method CompleteEnrollment(key: Bytes, conn: ConnId, w: World) returns (reply: ServerMessage)
      modifies server
      ensures Enrollee(w, key).Some? ==>
        && reply == DeviceUuid(w.uuid)
        && server.View() == Enrolled(old(server.View()), conn, Enrollee(w, key).value, key, w.now)
      ensures Enrollee(w, key).None? ==>
        reply == EnrollmentRejected(RejectReason(w, key)) && server.View() == old(server.View())
    {
      if w.listing.None? {
        return EnrollmentRejected(Ascii("Internal error"));
      }
      var device := FindDevice(w.listing.value, key);
      var name;
      if device.Some? {
        name := device.value.name;
      } else {
        if !w.pairing {
          return EnrollmentRejected(Ascii("Pairing mode disabled"));
        }
        if w.created.None? {
          return EnrollmentRejected(Ascii("Failed to create device"));
        }
        name := w.created.value;
      }
      server.RegisterDevice(name, Encode(Standard, key), w.now);
      server.ActivateDeviceSender(conn, name, Encode(Standard, key), w.now);
      return DeviceUuid(w.uuid);
    }

    method Message(conn: ConnId, tlsKey: Bytes, msg: ClientMessage, w: World) returns (replies: seq<ServerMessage>)
      modifies server
      ensures Outcome(server.View(), replies) == OnMessage(settings, old(server.View()), conn, tlsKey, msg, w)
    {
      replies := [];
      match msg
      case Heartbeat =>
        var id := server.ResolveDeviceId(conn, Encode(Standard, tlsKey));
        if id.Some? {
          server.UpdateHeartbeat(id.value, w.now);
        }
        replies := [HeartbeatAck];
      case EnrollmentRequest =>
        replies := [EnrollmentAccepted];
      case PublicKey(key) =>
        if settings.requireClientAuth && tlsKey == [] {
          return [EnrollmentRejected(Ascii("Client certificate required"))];
        }
        if tlsKey != [] && tlsKey != key {
          return [EnrollmentRejected(Ascii("Public key mismatch with TLS certificate"))];
        }
        server.IssueChallenge(conn, key, w.nonce, w.now);
        replies := [Challenge(w.nonce)];
      case ChallengeResponse(signature) =>
        var challenge := server.TakeChallenge(conn, w.now);
        if challenge.None? {
          return [EnrollmentRejected(Ascii("No challenge outstanding"))];
        }
        var c := challenge.value;
        if !settings.verify(c.announcedKey, Transcript(c.nonce, c.announcedKey), signature) {
          return [EnrollmentRejected(Ascii("Proof of possession failed"))];
        }
        var reply := CompleteEnrollment(c.announcedKey, conn, w);
        replies := [reply];
      case EnrollmentAcknowledgment =>
        replies := [EnrollmentCompleted];
      case _ =>
    }
  }
}
