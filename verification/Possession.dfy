/** Who gets in: the signed transcript, the replies to announcements and answers over whole runs, and
    when a client is authorized, each told from the events with the texts and limits written out. */
module Possession {
  import opened Prelude
  import opened Registers
  import opened Base64
  import opened KeyIndex
  import opened Messages
  import opened GatewayTables
  import opened Gateway
  import opened GatewayRuns
  import opened Enrollment

  // ---------------------------------------------------------------- the transcript

  /** The signed bytes start with the context and hold nonce and key. */
  lemma TranscriptLayout(nonce: Bytes, key: Bytes)
    ensures var b := Transcript(nonce, key); var n := |nonce|;
      && |b| == 14 + n + |key| && b[..14] == Ascii("wasmbed-pop-v1")
      && b[14..14 + n] == nonce && b[14 + n..] == key
  {
    var b := Transcript(nonce, key);
    assert |Ascii("wasmbed-pop-v1")| == 14;
    assert b == Ascii("wasmbed-pop-v1") + (nonce + key);
  }

  /** For nonces of one length, a transcript determines its nonce and its key. */
  lemma TranscriptIff(nonce: Bytes, key: Bytes, nonce': Bytes, key': Bytes)
    requires |nonce| == |nonce'|
    ensures Transcript(nonce, key) == Transcript(nonce', key') <==> nonce == nonce' && key == key'
  {
    TranscriptLayout(nonce, key);
    TranscriptLayout(nonce', key');
  }

  ghost predicate NoCollision(c: Crypto, x: Bytes, y: Bytes) { c.sha256(x) == c.sha256(y) ==> x == y }

  /** The firmware's answer to one nonce verifies for another if and only if they are the same. */
  lemma AnswerVerifiesIff(c: Crypto, auth: bool, key: Bytes, sign: Bytes -> Bytes, nonce: Bytes, other: Bytes)
    requires KeyPair(c, key, sign) && |nonce| == |other|
    requires NoCollision(c, Transcript(nonce, key), Transcript(other, key))
    ensures GatewaySettings(c, auth).verify(key, Transcript(nonce, key), FirmwareAnswer(c, key, sign, other))
      <==> nonce == other
  {
    TranscriptIff(nonce, key, other, key);
    var d, d' := c.sha256(Transcript(nonce, key)), c.sha256(Transcript(other, key));
    assert c.check(key, d, sign(d')) <==> d == d';
  }

  // ---------------------------------------------------------------- answers over runs

  /** Event `j` drew a challenge on `conn` for `key`: its transport key is the announced one, or there is
      none and none is required. */
  predicate Challenged(s: Settings, e: Event, conn: ConnId, key: Bytes) {
    && e.Received? && e.conn == conn && e.msg == Some(PublicKey(key))
    && (if e.tlsKey == [] then !s.requireClientAuth else e.tlsKey == key)
  }

  /** An announcement is answered with a challenge or with one of two rejections. */
  lemma AnnouncementReply(s: Settings, t: Tables, e: Event, key: Bytes)
    requires e.Received? && e.msg == Some(PublicKey(key))
    ensures var r := Step(s, t, e).replies;
      && (r == [Challenge(e.w.nonce)] <==> Challenged(s, e, e.conn, key))
      && (r == [EnrollmentRejected(Ascii("Client certificate required"))] <==>
            e.tlsKey == [] && s.requireClientAuth)
      && (r == [EnrollmentRejected(Ascii("Public key mismatch with TLS certificate"))] <==>
            e.tlsKey != [] && e.tlsKey != key)
  {
    assert |Ascii("Client certificate required")| == 27;
    assert |Ascii("Public key mismatch with TLS certificate")| == 40;
  }

  /** Requests, acknowledgments and heartbeats draw one fixed reply each; reports draw none. */
  lemma PlainReplies(s: Settings, t: Tables, e: Event)
    requires e.Received? && e.msg.Some?
    ensures var r, m := Step(s, t, e).replies, e.msg.value;
      && (m.Heartbeat? ==> r == [HeartbeatAck]) && (m.EnrollmentRequest? ==> r == [EnrollmentAccepted])
      && (m.EnrollmentAcknowledgment? ==> r == [EnrollmentCompleted])
      && (m.ApplicationStatus? || m.DeployAck? || m.StopAck? || m.DeviceInfo? ==> r == [] && Step(s, t, e).tables == t)
  {
  }

  /** Event `m` ends a challenge on `conn`: a response, a close, or a further challenge. */
  ghost predicate Ends(s: Settings, e: Event, conn: ConnId) {
    Responds(e, conn) || e == Disconnected(conn) || exists key :: Challenged(s, e, conn, key)
  }

  /** The challenge that event `j` drew on `conn` is still there at event `i`, not over 30 s old. */
  ghost predicate Outstanding(s: Settings, es: seq<Event>, j: nat, i: nat, conn: ConnId, key: Bytes)
    requires i < |es| && es[i].Received?
  {
    && j < i && Challenged(s, es[j], conn, key) && es[i].w.now - es[j].w.now <= 30_000
    && forall m :: j < m < i ==> !Ends(s, es[m], conn)
  }

  lemma EndsIff(s: Settings, e: Event, conn: ConnId)
    ensures Ends(s, e, conn) <==> Disturbs(s, e, conn)
  {
    if e.Received? && e.msg.Some? && e.msg.value.PublicKey? {
      assert Challenged(s, e, conn, e.msg.value.key) <==> Announces(s, e, conn, e.msg.value.key);
    }
  }

  /** The challenge that an outstanding announcement left in the tables. */
  lemma OutstandingFound(s: Settings, es: seq<Event>, j: nat, i: nat, conn: ConnId, key: Bytes)
    requires i < |es| && es[i].Received? && Outstanding(s, es, j, i, conn, key)
    ensures Answerable(After(s, es[..i]), conn, es[i].w.now) == Some(PendingChallenge(es[j].w.nonce, key, es[j].w.now))
  {
    var ops, c := ChallengeOps(s, es[..i], conn), PendingChallenge(es[j].w.nonce, key, es[j].w.now);
    assert es[..i][j] == es[j] && ops[j] == Put(c);
    forall m | j < m < i
      ensures ops[m].Keep?
    {
      assert es[..i][m] == es[m];
      EndsIff(s, es[m], conn);
    }
    assert LastWrite(ops, j, c);
    ChallengeTrace(s, es[..i], conn, c);
  }

  lemma FoundOutstanding(s: Settings, es: seq<Event>, i: nat, conn: ConnId) returns (j: nat, key: Bytes)
    requires i < |es| && es[i].Received? && Answerable(After(s, es[..i]), conn, es[i].w.now).Some?
    ensures Outstanding(s, es, j, i, conn, key)
  {
    var ops, c := ChallengeOps(s, es[..i], conn), Answerable(After(s, es[..i]), conn, es[i].w.now).value;
    ChallengeTrace(s, es[..i], conn, c);
    j :| LastWrite(ops, j, c);
    key := c.announcedKey;
    assert es[..i][j] == es[j];
    forall m | j < m < i
      ensures !Ends(s, es[m], conn)
    {
      assert ops[m].Keep? && es[..i][m] == es[m];
      EndsIff(s, es[m], conn);
    }
  }

  ghost predicate AnyOutstanding(s: Settings, es: seq<Event>, i: nat, conn: ConnId)
    requires i < |es| && es[i].Received?
  {
    exists j: nat, key :: Outstanding(s, es, j, i, conn, key)
  }

  // ---------------------------------------------------------------- who is admitted

  /** No listed device has the URL-safe text of the key. */
  predicate Unlisted(devices: seq<DeviceObject>, key: Bytes) {
    forall d :: d in devices ==> d.publicKey != Encode(UrlSafe, key)
  }

  /** Device `k` of the listing is the first with the URL-safe text of the key. */
  predicate FirstListed(devices: seq<DeviceObject>, key: Bytes, k: nat) {
    k < |devices| && devices[k].publicKey == Encode(UrlSafe, key) && Unlisted(devices[..k], key)
  }

  /** The key belongs to `d`: by the listing, or by a device created for an unlisted key while pairing is on. */
  ghost predicate Admitted(w: World, key: Bytes, d: DeviceId) {
    && w.listing.Some?
    && (|| (exists k: nat :: FirstListed(w.listing.value, key, k) && w.listing.value[k].name == d)
        || (Unlisted(w.listing.value, key) && w.pairing && w.created == Some(d)))
  }

  lemma {:induction false} FindIff(devices: seq<DeviceObject>, key: Bytes, d: DeviceObject)
    ensures Find(devices, key) == Some(d) <==> exists k: nat :: FirstListed(devices, key, k) && devices[k] == d
  {
    if |devices| > 0 {
      if devices[0].publicKey == Encode(UrlSafe, key) {
        assert FirstListed(devices, key, 0);
        forall k: nat | FirstListed(devices, key, k)
          ensures k == 0
        {
        }
      } else {
        FindIff(devices[1..], key, d);
        forall k: nat | 0 < k
          ensures FirstListed(devices, key, k) <==> FirstListed(devices[1..], key, k - 1)
        {
          if k <= |devices| {
            assert devices[..k] == [devices[0]] + devices[1..][..k - 1];
          }
        }
        if k: nat :| FirstListed(devices[1..], key, k) && devices[1..][k] == d {
          assert FirstListed(devices, key, k + 1);
        }
      }
    }
  }

  lemma EnrolleeIff(w: World, key: Bytes, d: DeviceId)
    ensures Enrollee(w, key) == Some(d) <==> Admitted(w, key, d)
  {
    if w.listing.Some? {
      var found := Find(w.listing.value, key);
      if found.Some? {
        FindIff(w.listing.value, key, found.value);
      }
      forall k: nat | FirstListed(w.listing.value, key, k)
        ensures found == Some(w.listing.value[k])
      {
        FindIff(w.listing.value, key, w.listing.value[k]);
      }
    }
  }

  // ---------------------------------------------------------------- the reply to an answer

  lemma RejectionsDiffer()
    ensures |Ascii("No challenge outstanding")| == 24 && |Ascii("Proof of possession failed")| == 26
    ensures |Ascii("Internal error")| == 14 && |Ascii("Pairing mode disabled")| == 21
    ensures |Ascii("Failed to create device")| == 23
  {
  }

  lemma UnprovenReply(s: Settings, t: Tables, e: Event)
    requires e.Received? && e.msg.Some? && e.msg.value.ChallengeResponse?
    ensures var r, c := Step(s, t, e).replies, Answerable(t, e.conn, e.w.now);
      && (r == [EnrollmentRejected(Ascii("No challenge outstanding"))] <==> c.None?)
      && (r == [EnrollmentRejected(Ascii("Proof of possession failed"))] <==>
            c.Some? && !s.verify(c.value.announcedKey, Transcript(c.value.nonce, c.value.announcedKey),
                                 e.msg.value.signature))
  {
    RejectionsDiffer();
  }

  lemma ProvenReply(s: Settings, t: Tables, e: Event, key: Bytes)
    requires e.Received? && e.msg.Some? && e.msg.value.ChallengeResponse?
    requires ProvenKey(s, t, e.conn, e.msg.value.signature, e.w.now) == Some(key)
    ensures var r, w := Step(s, t, e).replies, e.w;
      && (r == [EnrollmentRejected(Ascii("Internal error"))] <==> w.listing.None?)
      && (r == [EnrollmentRejected(Ascii("Pairing mode disabled"))] <==>
            w.listing.Some? && Unlisted(w.listing.value, key) && !w.pairing)
      && (r == [EnrollmentRejected(Ascii("Failed to create device"))] <==>
            w.listing.Some? && Unlisted(w.listing.value, key) && w.pairing && w.created.None?)
  {
    RejectionsDiffer();
  }

  lemma AdmittedReply(s: Settings, t: Tables, e: Event, key: Bytes, d: DeviceId)
    requires e.Received? && e.msg.Some? && e.msg.value.ChallengeResponse?
    requires ProvenKey(s, t, e.conn, e.msg.value.signature, e.w.now) == Some(key)
    ensures Step(s, t, e).replies == [DeviceUuid(e.w.uuid)] && Get(Step(s, t, e).tables.bound, e.conn) == Some(d)
      <==> Admitted(e.w, key, d)
  {
    EnrolleeIff(e.w, key, d);
  }

  /** The announced key and the nonce that the answer at `i` must be made for, and whether it verifies. */
  ghost predicate Proves(s: Settings, es: seq<Event>, j: nat, i: nat, conn: ConnId, key: Bytes)
    requires i < |es| && Responds(es[i], conn)
  {
    Outstanding(s, es, j, i, conn, key) && s.verify(key, Transcript(es[j].w.nonce, key), es[i].msg.value.signature)
  }

  /** Over every run: which answer is refused for want of a challenge or for its signature. */
  lemma RefusalIff(s: Settings, es: seq<Event>, i: nat, conn: ConnId)
    requires i < |es| && Responds(es[i], conn)
    ensures var r := RepliesAt(s, es, i);
      && (r == [EnrollmentRejected(Ascii("No challenge outstanding"))] <==> !AnyOutstanding(s, es, i, conn))
      && (r == [EnrollmentRejected(Ascii("Proof of possession failed"))] <==>
            exists j: nat, key :: Outstanding(s, es, j, i, conn, key) && !Proves(s, es, j, i, conn, key))
  {
    var t := After(s, es[..i]);
    UnprovenReply(s, t, es[i]);
    forall j: nat, key | Outstanding(s, es, j, i, conn, key)
      ensures Answerable(t, conn, es[i].w.now) == Some(PendingChallenge(es[j].w.nonce, key, es[j].w.now))
    {
      OutstandingFound(s, es, j, i, conn, key);
    }
    if Answerable(t, conn, es[i].w.now).Some? {
      var j, key := FoundOutstanding(s, es, i, conn);
    }
  }

  /** Over every run: an answer that proves a key is told why it is not admitted, or binds the
      connection to the device the key belongs to and yields its UUID. */
  lemma AdmissionIff(s: Settings, es: seq<Event>, j: nat, i: nat, conn: ConnId, key: Bytes, d: DeviceId)
    requires i < |es| && Responds(es[i], conn) && Proves(s, es, j, i, conn, key)
    ensures var r, w := RepliesAt(s, es, i), es[i].w;
      && (r == [EnrollmentRejected(Ascii("Internal error"))] <==> w.listing.None?)
      && (r == [EnrollmentRejected(Ascii("Pairing mode disabled"))] <==>
            w.listing.Some? && Unlisted(w.listing.value, key) && !w.pairing)
      && (r == [EnrollmentRejected(Ascii("Failed to create device"))] <==>
            w.listing.Some? && Unlisted(w.listing.value, key) && w.pairing && w.created.None?)
      && (r == [DeviceUuid(w.uuid)] && Get(After(s, es[..i + 1]).bound, conn) == Some(d) <==> Admitted(w, key, d))
  {
    OutstandingFound(s, es, j, i, conn, key);
    AfterNext(s, es, i);
    ProvenReply(s, After(s, es[..i]), es[i], key);
    AdmittedReply(s, After(s, es[..i]), es[i], key, d);
  }

  lemma ProvesIff(s: Settings, es: seq<Event>, j: nat, i: nat, conn: ConnId, key: Bytes)
    requires i < |es| && Responds(es[i], conn)
    ensures Proves(s, es, j, i, conn, key) <==> Justifies(s, es, j, i, conn, key)
  {
    if j < i {
      forall m | j < m < i
        ensures Ends(s, es[m], conn) <==> Disturbs(s, es[m], conn)
      {
        EndsIff(s, es[m], conn);
      }
    }
  }

  // ---------------------------------------------------------------- replays

  predicate Draws(e: Event) { e.Received? && e.msg.Some? && e.msg.value.PublicKey? }

  /** Every nonce drawn has the length of `nonce`, and the hash tells its transcript from that of `nonce`. */
  ghost predicate Distinguishes(c: Crypto, es: seq<Event>, key: Bytes, nonce: Bytes) {
    forall j :: 0 <= j < |es| && Draws(es[j]) ==>
      |es[j].w.nonce| == |nonce| && NoCollision(c, Transcript(es[j].w.nonce, key), Transcript(nonce, key))
  }

  /** Over every run: the firmware's answer to `nonce` completes an enrollment of its key if and only if
      the challenge outstanding on the connection was issued for that key with that nonce. */
  lemma AnswerCompletesIff(c: Crypto, auth: bool, es: seq<Event>, i: nat, conn: ConnId, key: Bytes,
                           sign: Bytes -> Bytes, nonce: Bytes)
    requires KeyPair(c, key, sign) && Distinguishes(c, es, key, nonce)
    requires i < |es| && Responds(es[i], conn) && es[i].msg.value.signature == FirmwareAnswer(c, key, sign, nonce)
    ensures var s := GatewaySettings(c, auth);
      Completes(s, After(s, es[..i]), es[i]) == Some((conn, key)) <==>
        exists j: nat :: Outstanding(s, es, j, i, conn, key) && es[j].w.nonce == nonce
  {
    var s := GatewaySettings(c, auth);
    CompletionIff(s, es, i, conn, key);
    forall j: nat | Outstanding(s, es, j, i, conn, key)
      ensures Justifies(s, es, j, i, conn, key) <==> es[j].w.nonce == nonce
    {
      ProvesIff(s, es, j, i, conn, key);
      AnswerVerifiesIff(c, auth, key, sign, es[j].w.nonce, nonce);
    }
    forall j: nat | Justifies(s, es, j, i, conn, key)
      ensures Outstanding(s, es, j, i, conn, key)
    {
      ProvesIff(s, es, j, i, conn, key);
    }
  }

  /** Over every run in which no nonce is drawn twice: an answer that completed an enrollment never
      completes another, on any connection. */
  lemma ReplayRefused(c: Crypto, auth: bool, es: seq<Event>, i: nat, i': nat, conn: ConnId, conn': ConnId,
                      key: Bytes, sign: Bytes -> Bytes, nonce: Bytes)
    requires KeyPair(c, key, sign) && Distinguishes(c, es, key, nonce) && i < i' < |es|
    requires Responds(es[i], conn) && es[i].msg.value.signature == FirmwareAnswer(c, key, sign, nonce)
    requires Responds(es[i'], conn') && es[i'].msg.value.signature == es[i].msg.value.signature
    requires forall j, k :: 0 <= j < k < |es| && Draws(es[j]) && Draws(es[k]) ==> es[j].w.nonce != es[k].w.nonce
    requires var s := GatewaySettings(c, auth); Completes(s, After(s, es[..i]), es[i]) == Some((conn, key))
    ensures var s := GatewaySettings(c, auth); Completes(s, After(s, es[..i']), es[i']) != Some((conn', key))
  {
    var s := GatewaySettings(c, auth);
    AnswerCompletesIff(c, auth, es, i, conn, key, sign, nonce);
    AnswerCompletesIff(c, auth, es, i', conn', key, sign, nonce);
    var j: nat :| Outstanding(s, es, j, i, conn, key) && es[j].w.nonce == nonce;
    if j': nat :| Outstanding(s, es, j', i', conn', key) && es[j'].w.nonce == nonce {
      assert j' == j && conn == conn';
      assert Ends(s, es[i], conn');
    }
  }

  // ---------------------------------------------------------------- pairing off

  /** Over every run: an answer that arrives while pairing is off binds its connection only to a listed
      device, and one that proves an unlisted key is told so. */
  lemma PairingOff(s: Settings, es: seq<Event>, i: nat, conn: ConnId, key: Bytes, d: DeviceId)
    requires i < |es| && Responds(es[i], conn) && !es[i].w.pairing
    ensures EnrollsTo(s, es, i, conn, d, key) ==>
      && es[i].w.listing.Some?
      && exists k: nat :: FirstListed(es[i].w.listing.value, key, k) && es[i].w.listing.value[k].name == d
    ensures es[i].w.listing.Some? && Unlisted(es[i].w.listing.value, key) ==>
      forall j: nat :: Proves(s, es, j, i, conn, key) ==>
        RepliesAt(s, es, i) == [EnrollmentRejected(Ascii("Pairing mode disabled"))]
  {
    EnrolleeIff(es[i].w, key, d);
    forall j: nat | Proves(s, es, j, i, conn, key)
      ensures es[i].w.listing.Some? && Unlisted(es[i].w.listing.value, key) ==>
        RepliesAt(s, es, i) == [EnrollmentRejected(Ascii("Pairing mode disabled"))]
    {
      AdmissionIff(s, es, j, i, conn, key, d);
    }
  }

  // ---------------------------------------------------------------- authorization

  /** A client is let in exactly when the listing is there and its certificate's key is listed and the
      status patch goes through, or is not listed while pairing is on, or it has none and none is required. */
  lemma AuthorizedIff(s: Settings, t: Tables, tlsKey: Bytes, w: World)
    ensures OnConnect(s, t, tlsKey, w).1 <==>
      && w.listing.Some?
      && (if !Unlisted(w.listing.value, tlsKey) then w.patched
          else if tlsKey == [] then !s.requireClientAuth
          else w.pairing)
  {
  }

  /** It registers the first listed device with the certificate's key, and leaves the tables alone otherwise. */
  lemma AuthorizedRegisters(s: Settings, t: Tables, tlsKey: Bytes, w: World)
    ensures !(w.listing.Some? && w.patched && !Unlisted(w.listing.value, tlsKey)) ==>
      OnConnect(s, t, tlsKey, w).0 == t
    ensures forall k: nat :: w.listing.Some? && w.patched && FirstListed(w.listing.value, tlsKey, k) ==>
      OnConnect(s, t, tlsKey, w).0 == Registered(t, w.listing.value[k].name, Encode(UrlSafe, tlsKey), w.now)
  {
    forall k: nat | w.listing.Some? && FirstListed(w.listing.value, tlsKey, k)
      ensures Find(w.listing.value, tlsKey) == Some(w.listing.value[k])
    {
      FindIff(w.listing.value, tlsKey, w.listing.value[k]);
    }
  }
}
