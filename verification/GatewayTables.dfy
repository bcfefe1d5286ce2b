/** The gateway's five shared tables, the meaning of each operation on them,
    and the server object whose methods carry the operations out. */
module GatewayTables {
  import opened Prelude
  import opened Base64
  import opened KeyIndex

  type ConnId = string
  type Millis = int

  /** How long a challenge stays valid once issued. */
  const CHALLENGE_TTL: Millis := 30_000

  /** The queue of one TLS connection, named by that connection. */
  datatype Sender = Sender(conn: ConnId)

  datatype PendingChallenge = PendingChallenge(nonce: Bytes, announcedKey: Bytes, issuedAt: Millis)

  datatype DeviceConnection = DeviceConnection(
    deviceId: DeviceId, publicKey: string, connectedSince: Millis, lastHeartbeat: Millis,
    tlsSender: Option<Sender>, tlsConnected: bool)

  datatype Tables = Tables(
    devices: map<DeviceId, DeviceConnection>,
    index: Index,
    pending: map<ConnId, Sender>,
    bound: map<ConnId, DeviceId>,
    challenges: map<ConnId, PendingChallenge>)

  const EMPTY := Tables(map[], map[], map[], map[], map[])

  /** The three per-connection tables are the same in both. */
  ghost predicate SameSessions(t: Tables, u: Tables) {
    t.pending == u.pending && t.bound == u.bound && t.challenges == u.challenges
  }

  ghost function Registered(t: Tables, id: DeviceId, key: string, now: Millis): (r: Tables)
    ensures SameSessions(t, r)
  {
    var entry :=
      if id in t.devices then
        var was := t.devices[id];
        was.(publicKey := key, lastHeartbeat := now, tlsConnected := was.tlsConnected || was.tlsSender.Some?)
      else DeviceConnection(id, key, now, now, None, false);
    t.(index := Insert(t.index, key, id), devices := t.devices[id := entry])
  }

  ghost function WithSender(t: Tables, id: DeviceId, sender: Sender, now: Millis): (r: Tables)
    ensures SameSessions(t, r) && r.index == t.index
  {
    if id !in t.devices then t
    else t.(devices := t.devices[id :=
      t.devices[id].(tlsSender := Some(sender), tlsConnected := true, connectedSince := now)])
  }

  ghost function SenderByKey(t: Tables, key: Bytes, sender: Sender, now: Millis): (r: Tables)
    ensures SameSessions(t, r) && r.index == t.index
  {
    match FirstKnown(t.index, [Encode(Standard, key), Encode(UrlSafe, key)])
    case None => t
    case Some(id) => WithSender(t, id, sender, now)
  }

  ghost function Activated(t: Tables, conn: ConnId, id: DeviceId, key: string, now: Millis): (r: Tables)
    ensures r.pending == t.pending - {conn} && r.bound == t.bound[conn := id] && r.challenges == t.challenges
    ensures r.index == Insert(t.index, key, id)
  {
    var bound := t.(
      pending := t.pending - {conn}, bound := t.bound[conn := id], index := Insert(t.index, key, id));
    if conn in t.pending then WithSender(bound, id, t.pending[conn], now) else bound
  }

  predicate Expired(c: PendingChallenge, now: Millis) { now - c.issuedAt > CHALLENGE_TTL }

  /** The challenge a response on `conn` may answer at `now`. */
  function Answerable(t: Tables, conn: ConnId, now: Millis): Option<PendingChallenge> {
    if conn in t.challenges && !Expired(t.challenges[conn], now) then Some(t.challenges[conn]) else None
  }

  /** Device of a message: by connection first, then by any spelling of the TLS key. */
  function Resolve(t: Tables, conn: ConnId, key: string): Option<DeviceId> {
    if conn in t.bound then Some(t.bound[conn])
    else if key == "" then None
    else FirstKnown(t.index, Variants(key))
  }

  ghost function Removed(t: Tables, conn: ConnId): (r: Tables)
    ensures r.pending == t.pending - {conn} && r.bound == t.bound - {conn} && r.challenges == t.challenges - {conn}
    ensures r.index == t.index
  {
    var cleared := t.(
      pending := t.pending - {conn}, challenges := t.challenges - {conn}, bound := t.bound - {conn});
    if conn in t.bound && t.bound[conn] in t.devices then
      var id := t.bound[conn];
      cleared.(devices := t.devices[id := t.devices[id].(tlsSender := None, tlsConnected := false)])
    else cleared
  }

  /** Whether a deployment to `id` may adopt an anonymous connection. */
  predicate Unattached(t: Tables, id: DeviceId) {
    id in t.devices ==> !t.devices[id].tlsConnected && t.devices[id].tlsSender.None?
  }

  /** The connection a deployment to `id` adopts, if any: the only pending one, when the
      device has no sender of its own and its stored key is not empty. */
  ghost function Adoptable(t: Tables, id: DeviceId, storedKey: Option<string>): Option<ConnId> {
    if Unattached(t, id) && storedKey.Some? && storedKey.value != "" && |t.pending| == 1 then
      var conn :| conn in t.pending; Some(conn)
    else None
  }

  lemma AdoptableIsSole(t: Tables, id: DeviceId, storedKey: Option<string>, conn: ConnId)
    ensures Adoptable(t, id, storedKey) == Some(conn) <==>
      Unattached(t, id) && storedKey.Some? && storedKey.value != "" && t.pending.Keys == {conn}
  {
    if |t.pending| == 1 {
      Singleton(t.pending.Keys);
    }
    if t.pending.Keys == {conn} {
      assert |t.pending| == |t.pending.Keys|;
    }
  }

  lemma Singleton<T>(s: set<T>)
    requires |s| == 1
    ensures exists x :: s == {x}
  {
    var x :| x in s;
    assert |s - {x}| == 0;
    assert s == {x};
  }

  class HttpApiServer {
    var devices: map<DeviceId, DeviceConnection>
    var index: Index
    var pending: map<ConnId, Sender>
    var bound: map<ConnId, DeviceId>
    var challenges: map<ConnId, PendingChallenge>

    ghost function View(): Tables
      reads this
    {
      Tables(devices, index, pending, bound, challenges)
    }

    constructor ()
      ensures View() == EMPTY
    {
      devices, index, pending, bound, challenges := map[], map[], map[], map[], map[];
    }

    /** File `id` under each variant of `key`, one insertion at a time. */
    method FileKey(key: string, id: DeviceId)
      modifies this`index
      ensures index == Insert(old(index), key, id)
    {
      var variants := VariantsFromText(key);
      for i := 0 to |variants|
        invariant index == FileAll(old(index), variants[..i], id)
      {
        FileOneMore(old(index), variants[..i], variants[i], id);
        assert variants[..i + 1] == variants[..i] + [variants[i]];
        index := index[variants[i] := id];
      }
      assert variants[..|variants|] == variants;
    }

    method RegisterDevice(id: DeviceId, key: string, now: Millis)
      modifies this
      ensures View() == Registered(old(View()), id, key, now)
    {
      FileKey(key, id);
      if id in devices {
        var existing := devices[id].(publicKey := key, lastHeartbeat := now);
        if existing.tlsSender.Some? {
          existing := existing.(tlsConnected := true);
        }
        devices := devices[id := existing];
        return;
      }
      devices := devices[id := DeviceConnection(id, key, now, now, None, false)];
    }

    method SetDeviceTlsSender(key: Bytes, sender: Sender, now: Millis)
      modifies this
      ensures View() == SenderByKey(old(View()), key, sender, now)
    {
      var id := Lookup([Encode(Standard, key), Encode(UrlSafe, key)]);
      if id.Some? && id.value in devices {
        devices := devices[id.value :=
          devices[id.value].(tlsSender := Some(sender), tlsConnected := true, connectedSince := now)];
      }
    }

    method Lookup(texts: seq<string>) returns (id: Option<DeviceId>)
      ensures id == FirstKnown(index, texts)
    {
      for i := 0 to |texts|
        invariant FirstKnown(index, texts) == FirstKnown(index, texts[i..])
      {
        if texts[i] in index {
          return Some(index[texts[i]]);
        }
      }
      return None;
    }

    method StorePendingSender(conn: ConnId, sender: Sender)
      modifies this
      ensures View() == old(View()).(pending := old(pending)[conn := sender])
    {
      pending := pending[conn := sender];
    }

    method ActivateDeviceSender(conn: ConnId, id: DeviceId, key: string, now: Millis)
      modifies this
      ensures View() == Activated(old(View()), conn, id, key, now)
    {
      var sender := Get(pending, conn);
      pending := pending - {conn};
      bound := bound[conn := id];
      FileKey(key, id);
      if sender.Some? && id in devices {
        devices := devices[id :=
          devices[id].(tlsSender := sender, tlsConnected := true, connectedSince := now)];
      }
    }

    method IssueChallenge(conn: ConnId, key: Bytes, nonce: Bytes, now: Millis)
      modifies this
      ensures View() == old(View()).(challenges := old(challenges)[conn := PendingChallenge(nonce, key, now)])
    {
      challenges := challenges[conn := PendingChallenge(nonce, key, now)];
    }

    method TakeChallenge(conn: ConnId, now: Millis) returns (challenge: Option<PendingChallenge>)
      modifies this
      ensures challenge == Answerable(old(View()), conn, now)
      ensures View() == old(View()).(challenges := old(challenges) - {conn})
    {
      challenge := Get(challenges, conn);
      challenges := challenges - {conn};
      if challenge.Some? && Expired(challenge.value, now) {
        challenge := None;
      }
    }

    method ResolveDeviceId(conn: ConnId, key: string) returns (id: Option<DeviceId>)
      ensures id == Resolve(View(), conn, key)
    {
      if conn in bound {
        return Some(bound[conn]);
      }
      if key != "" {
        var variants := VariantsFromText(key);
        id := Lookup(variants);
        return;
      }
      return None;
    }

    method RemoveConnection(conn: ConnId)
      modifies this
      ensures View() == Removed(old(View()), conn)
    {
      pending := pending - {conn};
      challenges := challenges - {conn};
      var id := Get(bound, conn);
      bound := bound - {conn};
      if id.Some? && id.value in devices {
        devices := devices[id.value := devices[id.value].(tlsSender := None, tlsConnected := false)];
      }
    }

    method UpdateHeartbeat(id: DeviceId, now: Millis)
      modifies this
      ensures View() == Beat(old(View()), id, now)
    {
      if id in devices {
        devices := devices[id := devices[id].(lastHeartbeat := now)];
      }
    }

    /** The part of a deployment that adopts the sole pending connection. */
    method BindSolePending(id: DeviceId, storedKey: Option<string>, now: Millis)
      modifies this
      ensures View() == Adopted(old(View()), id, storedKey, now)
    {
      var attached := id in devices && (devices[id].tlsConnected || devices[id].tlsSender.Some?);
      if !attached && |pending| == 1 {
        Singleton(pending.Keys);
        var conn :| conn in pending;
        assert pending.Keys == {conn};
        AdoptableIsSole(View(), id, storedKey, conn);
        if storedKey.Some? && storedKey.value != "" {
          ActivateDeviceSender(conn, id, storedKey.value, now);
        }
      }
    }
  }

  ghost function Beat(t: Tables, id: DeviceId, now: Millis): (r: Tables)
    ensures SameSessions(t, r) && r.index == t.index
  {
    if id in t.devices then t.(devices := t.devices[id := t.devices[id].(lastHeartbeat := now)]) else t
  }

  ghost function Adopted(t: Tables, id: DeviceId, storedKey: Option<string>, now: Millis): Tables {
    match Adoptable(t, id, storedKey)
    case None => t
    case Some(conn) => Activated(t, conn, id, storedKey.value, now)
  }
}
