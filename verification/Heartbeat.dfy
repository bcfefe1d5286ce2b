/** Heartbeats: the firmware's wrapping timers, the gateway's monitor, and both together over time. */
module Heartbeat {
  import opened Prelude
  import opened Messages
  import opened Codec
  import opened Cbor
  import opened Framing
  import opened FirmwareSend
  import opened Deploy
  import opened DevicePhases

  const HEARTBEAT_INTERVAL := 25_000
  const RECONNECT_INTERVAL := 30_000
  const STATUS_INTERVAL := 30_000

  const HEARTBEAT_PACKET: Bytes := [0, 0, 0, 2, 0x81, 0]

  // ---------------------------------------------------------------- the firmware's tick

  datatype Timers = Timers(connected: bool, lastBeat: Word, lastTry: Word, lastStatus: Word)

  /** What a tick meets: whether the heartbeat goes out, whether the status goes out, whether a
      connection attempt succeeds. */
  datatype Line = Line(beatSent: bool, statusSent: bool, connects: bool)

  predicate Due(last: Word, now: Word, interval: int) { Sub32(now, last) >= interval }

  predicate Beats(t: Timers, now: Word) { t.connected && Due(t.lastBeat, now, HEARTBEAT_INTERVAL) }

  predicate Tries(t: Timers, now: Word) { !t.connected && Due(t.lastTry, now, RECONNECT_INTERVAL) }

  predicate Reports(t: Timers, app: App, now: Word) {
    t.connected && app.deployed && Due(t.lastStatus, now, STATUS_INTERVAL)
  }

  function Ticked(t: Timers, app: App, now: Word, line: Line): Timers {
    var lost := Beats(t, now) && !line.beatSent;
    Timers(
      if t.connected then !lost else Tries(t, now) && line.connects,
      if Beats(t, now) && line.beatSent then now else t.lastBeat,
      if Tries(t, now) then now else if lost then Sub32(now, RECONNECT_INTERVAL) else t.lastTry,
      if Reports(t, app, now) then now else t.lastStatus)
  }

  /** What a tick puts on the wire. */
  function Sent(t: Timers, app: App, now: Word, line: Line): seq<ClientMessage> {
    (if Beats(t, now) && line.beatSent then [Heartbeat] else [])
    + (if Reports(t, app, now) && (Beats(t, now) ==> line.beatSent) && line.statusSent
       then [ApplicationStatus(Shown(app.buffer), RUNNING, None, None)] else [])
  }

  /** The packet is the frame of the message. */
  ghost predicate Packs(packet: Bytes, m: ClientMessage) {
    ClientFits(m) && |EncodeClient(m)| < WRAP && packet == Frame(EncodeClient(m))
  }

  ghost predicate Carries(packets: seq<Bytes>, messages: seq<ClientMessage>) {
    |packets| == |messages| && forall i :: 0 <= i < |packets| ==> Packs(packets[i], messages[i])
  }

  lemma HeartbeatPayload(m: ClientMessage)
    requires m.Heartbeat?
    ensures EncodeClient(m) == [0x81, 0]
  {
    var lead, tag := Head(ARRAY, ClientTag(m).0), Head(UINT, ClientTag(m).1);
    assert lead == [0x81] && tag == [0] && ClientBody(m) == [];
    assert lead + (tag + []) == [0x81, 0];
  }

  lemma HeartbeatPacket(m: ClientMessage)
    requires m.Heartbeat?
    ensures Packs(HEARTBEAT_PACKET, m)
  {
    HeartbeatPayload(m);
    var n := |EncodeClient(m)|;
    assert n / 256 == 0;
    assert Be32(n) == [0, 0, 0, 2];
    assert [0, 0, 0, 2] + [0x81, 0] == HEARTBEAT_PACKET;
  }

  method StatusPacket(appId: Bytes) returns (packet: Bytes)
    ensures Packs(packet, ApplicationStatus(Shown(appId), RUNNING, None, None))
  {
    packet := SendApplicationStatus(appId, RUNNING);
  }

  class Ticker {
    var gatewayConnected: bool
    var lastHeartbeat: Word
    var lastReconnectAttempt: Word
    var lastAppStatus: Word

    ghost function View(): Timers
      reads this
    {
      Timers(gatewayConnected, lastHeartbeat, lastReconnectAttempt, lastAppStatus)
    }

    /** One pass of the protocol's periodic work. */
    method Tick(app: App, now: Word, line: Line) returns (packets: seq<Bytes>)
      modifies this
      ensures View() == Ticked(old(View()), app, now, line)
      ensures Carries(packets, Sent(old(View()), app, now, line))
    {
      packets := [];
      if !gatewayConnected {
        if Sub32(now, lastReconnectAttempt) >= RECONNECT_INTERVAL {
          lastReconnectAttempt := now;
          if line.connects {
            gatewayConnected := true;
          }
        }
        return;
      }
      if Sub32(now, lastHeartbeat) >= HEARTBEAT_INTERVAL {
        if line.beatSent {
          ghost var beat: ClientMessage :| beat.Heartbeat?;
          HeartbeatPacket(beat);
          packets := [HEARTBEAT_PACKET];
          lastHeartbeat := now;
        } else {
          gatewayConnected := false;
          lastReconnectAttempt := Sub32(now, RECONNECT_INTERVAL);
        }
      }
      if app.deployed && Sub32(now, lastAppStatus) >= STATUS_INTERVAL {
        var report := StatusPacket(app.buffer);
        if gatewayConnected && line.statusSent {
          packets := packets + [report];
        }
        lastAppStatus := now;
      }
    }
  }

  /** 32-bit subtraction of two readings of a clock gives the time between them, short of a full turn. */
  lemma Elapsed(earlier: nat, later: nat)
    requires earlier <= later < earlier + WRAP
    ensures Sub32(later % WRAP, earlier % WRAP) == later - earlier
  {
    var d := later - earlier;
    assert later == (later / WRAP) * WRAP + later % WRAP;
    assert earlier == (earlier / WRAP) * WRAP + earlier % WRAP;
    var k := later / WRAP - earlier / WRAP;
    assert (later % WRAP) - (earlier % WRAP) == d - k * WRAP;
    assert k == 0 || k == 1;
  }

  lemma DueIff(earlier: nat, later: nat, interval: int)
    requires earlier <= later < earlier + WRAP
    ensures Due(earlier % WRAP, later % WRAP, interval) <==> later - earlier >= interval
  {
    Elapsed(earlier, later);
  }

  /** A heartbeat that fails is followed by a connection attempt on the next tick, whenever that
      comes within a full turn of the clock less the retry interval, and by no other tick. */
  lemma RetriesAtOnce(t: Timers, app: App, at: nat, next: nat, line: Line)
    requires Beats(t, at % WRAP) && !line.beatSent && at <= next < at + WRAP
    ensures var after := Ticked(t, app, at % WRAP, line);
      !after.connected && (Tries(after, next % WRAP) <==> next - at < WRAP - RECONNECT_INTERVAL)
  {
    var d := next - at;
    Elapsed(at, next);
    Backdated(next % WRAP, at % WRAP, RECONNECT_INTERVAL);
    assert Sub32(next % WRAP, Sub32(at % WRAP, RECONNECT_INTERVAL)) == (d + RECONNECT_INTERVAL) % WRAP;
  }

  lemma Backdated(now: Word, past: Word, back: Word)
    ensures Sub32(now, Sub32(past, back)) == (Sub32(now, past) as int + back) % WRAP
  {
    var s := (past as int) - back;
    assert s == (s / WRAP) * WRAP + s % WRAP;
    Turns((now as int) - past + back, s / WRAP);
    var u := (now as int) - past;
    assert u == (u / WRAP) * WRAP + u % WRAP;
    Turns(u % WRAP + back, u / WRAP);
    assert (now as int) - s % WRAP == (now as int) - past + back + (s / WRAP) * WRAP;
    assert u + back == u % WRAP + back + (u / WRAP) * WRAP;
  }

  lemma {:induction false} Turns(x: int, k: int)
    ensures (x + k * WRAP) % WRAP == x % WRAP
    decreases if k < 0 then -k else k
  {
    if k > 0 {
      Turns(x, k - 1);
      assert x + k * WRAP == x + (k - 1) * WRAP + WRAP;
    } else if k < 0 {
      Turns(x, k + 1);
      assert x + k * WRAP == x + (k + 1) * WRAP - WRAP;
    }
  }

  // ---------------------------------------------------------------- the gateway's monitor

  const TIMEOUT_SECONDS := 90

  datatype Status = Status(phase: DevicePhase, lastHeartbeat: Option<int>)

  datatype Listed = Listed(name: string, status: Option<Status>)

  /** Whole seconds in a span of milliseconds, rounded toward zero. */
  function NumSeconds(ms: int): int { if ms >= 0 then ms / 1000 else -(-ms / 1000) }

  predicate TimedOut(s: Status, timeout: nat, now: int) {
    s.lastHeartbeat.Some? && NumSeconds(now - s.lastHeartbeat.value) > timeout && s.phase == Connected
  }

  /** The devices to mark, in listing order. */
  function Overdue(listing: seq<Listed>, timeout: nat, now: int): seq<string> {
    if |listing| == 0 then []
    else
      var n := |listing| - 1;
      Overdue(listing[..n], timeout, now)
      + (if listing[n].status.Some? && TimedOut(listing[n].status.value, timeout, now) then [listing[n].name] else [])
  }

  /** One monitor pass: `None` when the listing failed. */
  method CheckHeartbeatTimeouts(listing: Option<seq<Listed>>, timeout: nat, now: int)
    returns (marked: Option<seq<string>>)
    ensures listing.None? <==> marked.None?
    ensures listing.Some? ==> marked == Some(Overdue(listing.value, timeout, now))
  {
    if listing.None? {
      return None;
    }
    var devices := listing.value;
    var names := [];
    for i := 0 to |devices|
      invariant names == Overdue(devices[..i], timeout, now)
    {
      assert devices[..i + 1][..i] == devices[..i];
      if devices[i].status.Some? {
        var status := devices[i].status.value;
        if status.lastHeartbeat.Some? {
          var since := NumSeconds(now - status.lastHeartbeat.value);
          if since > timeout && status.phase == Connected {
            names := names + [devices[i].name];
          }
        }
      }
    }
    assert devices[..|devices|] == devices;
    return Some(names);
  }

  /** A device is marked exactly when it is Connected and its stored heartbeat is a whole second
      past the timeout, in milliseconds. */
  lemma {:induction false} OverdueIff(listing: seq<Listed>, timeout: nat, now: int, name: string)
    ensures name in Overdue(listing, timeout, now) <==>
      exists i :: 0 <= i < |listing| && listing[i].name == name && listing[i].status.Some?
        && listing[i].status.value.phase == Connected && listing[i].status.value.lastHeartbeat.Some?
        && now - listing[i].status.value.lastHeartbeat.value >= (timeout + 1) * 1000
  {
    if |listing| > 0 {
      var n := |listing| - 1;
      OverdueIff(listing[..n], timeout, now, name);
      if listing[n].status.Some? {
        TimedOutIff(listing[n].status.value, timeout, now);
      }
      assert forall i :: 0 <= i < n ==> listing[..n][i] == listing[i];
    }
  }

  lemma TimedOutIff(s: Status, timeout: nat, now: int)
    ensures TimedOut(s, timeout, now) <==>
      s.phase == Connected && s.lastHeartbeat.Some? && now - s.lastHeartbeat.value >= (timeout + 1) * 1000
  {
  }

  function Monitored(s: Status, now: int): Status {
    if TimedOut(s, TIMEOUT_SECONDS, now) then s.(phase := Unreachable) else s
  }

  /** A heartbeat from a resolved device refreshes the stored time and recovers an unreachable one. */
  function Refreshed(s: Status, now: int): Status {
    Status(if s.phase == Unreachable then Connected else s.phase, Some(now))
  }

  // ---------------------------------------------------------------- device, link and monitor together

  /** `beats` are the true times of all heartbeats sent; the first `delivered` have arrived. */
  datatype System = System(
    timers: Timers, now: nat, lastTick: nat, beats: seq<nat>, delivered: nat, status: Status)

  datatype Happening =
    | Tick(at: nat, app: App, line: Line)
    | Arrive(at: nat)
    | Check(at: nat)

  /** A connected device that has just sent a heartbeat at time `b`. */
  function Start(b: nat): System {
    System(Timers(true, b % WRAP, 0, 0), b, b, [b], 0, Status(Connected, None))
  }

  function Next(s: System, h: Happening): System {
    match h
    case Tick(at, app, line) =>
      System(Ticked(s.timers, app, at % WRAP, line), at, at,
             if Beats(s.timers, at % WRAP) && line.beatSent then s.beats + [at] else s.beats, s.delivered, s.status)
    case Arrive(at) =>
      if s.delivered < |s.beats| then s.(now := at, delivered := s.delivered + 1, status := Refreshed(s.status, at))
      else s.(now := at)
    case Check(at) => s.(now := at, status := Monitored(s.status, at))
  }

  /** Time does not go back, ticks are at most `d` apart and their sends succeed, heartbeats arrive
      in order within `l`. */
  ghost predicate Timely(s: System, h: Happening, d: nat, l: nat) {
    && s.now <= h.at <= s.lastTick + d
    && (s.delivered < |s.beats| ==> h.at <= s.beats[s.delivered] + l)
    && (h.Arrive? ==> s.delivered < |s.beats|)
    && (h.Tick? ==> h.line.beatSent)
  }

  function RunFrom(s: System, hs: seq<Happening>): System
    decreases |hs|
  {
    if |hs| == 0 then s else RunFrom(Next(s, hs[0]), hs[1..])
  }

  ghost predicate TimelyRun(s: System, hs: seq<Happening>, d: nat, l: nat)
    decreases |hs|
  {
    |hs| > 0 ==> Timely(s, hs[0], d, l) && TimelyRun(Next(s, hs[0]), hs[1..], d, l)
  }

  ghost predicate Spaced(beats: seq<nat>, d: nat) {
    forall k :: 0 < k < |beats| ==> HEARTBEAT_INTERVAL <= beats[k] - beats[k - 1] < HEARTBEAT_INTERVAL + d
  }

  /** The device's side: wrapped timers stand for true times, and a heartbeat is never overdue. */
  ghost predicate Paced(s: System, d: nat) {
    && s.timers.connected && |s.beats| > 0
    && Spaced(s.beats, d)
    && var last := s.beats[|s.beats| - 1];
      && s.timers.lastBeat == last % WRAP
      && last <= s.lastTick < last + HEARTBEAT_INTERVAL
      && s.lastTick <= s.now <= s.lastTick + d
  }

  lemma TickKeepsLink(t: Timers, app: App, now: Word, line: Line)
    requires t.connected && line.beatSent
    ensures var after := Ticked(t, app, now, line);
      after.connected && after.lastBeat == (if Beats(t, now) then now else t.lastBeat)
  {
  }

  lemma PacedTick(s: System, h: Happening, d: nat, beats: bool)
    requires Paced(s, d) && h.Tick? && h.line.beatSent && s.now <= h.at <= s.lastTick + d
    requires beats == Beats(s.timers, h.at % WRAP)
    requires beats <==> h.at - s.beats[|s.beats| - 1] >= HEARTBEAT_INTERVAL
    ensures Paced(Next(s, h), d)
  {
    TickKeepsLink(s.timers, h.app, h.at % WRAP, h.line);
    var after := Next(s, h);
    assert after.beats == if beats then s.beats + [h.at] else s.beats;
  }

  lemma PacedNext(s: System, h: Happening, d: nat, l: nat)
    requires Paced(s, d) && Timely(s, h, d, l) && HEARTBEAT_INTERVAL + d <= WRAP
    ensures Paced(Next(s, h), d)
  {
    if h.Tick? {
      DueIff(s.beats[|s.beats| - 1], h.at, HEARTBEAT_INTERVAL);
      PacedTick(s, h, d, Beats(s.timers, h.at % WRAP));
    }
  }

  lemma {:induction false} PacedRun(s: System, hs: seq<Happening>, d: nat, l: nat)
    requires Paced(s, d) && TimelyRun(s, hs, d, l) && HEARTBEAT_INTERVAL + d <= WRAP
    ensures Paced(RunFrom(s, hs), d)
    decreases |hs|
  {
    if |hs| > 0 {
      PacedNext(s, hs[0], d, l);
      PacedRun(Next(s, hs[0]), hs[1..], d, l);
    }
  }

  /** Successive heartbeats are at least 25000 ms and less than 25000 + d ms apart over every run,
      across the wrap of the 32-bit clock, and the next one is never later than that either. */
  lemma BeatSpacing(b: nat, hs: seq<Happening>, d: nat, l: nat)
    requires TimelyRun(Start(b), hs, d, l) && HEARTBEAT_INTERVAL + d <= WRAP
    ensures var s := RunFrom(Start(b), hs);
      && (forall k :: 0 < k < |s.beats| ==> 25_000 <= s.beats[k] - s.beats[k - 1] < 25_000 + d)
      && |s.beats| > 0 && s.now < s.beats[|s.beats| - 1] + 25_000 + d
  {
    Elapsed(b, b);
    assert Paced(Start(b), d) by {
      assert 0 <= b % WRAP < WRAP;
    }
    PacedRun(Start(b), hs, d, l);
  }

  /** With ticks one clock turn less 24999 ms apart, the wrapped difference hides a due heartbeat. */
  lemma WrapHidesBeat(b: nat, app: App, line: Line)
    ensures var d := WRAP - HEARTBEAT_INTERVAL + 1;
      var first := Ticked(Start(b).timers, app, (b + HEARTBEAT_INTERVAL - 1) % WRAP, line);
      && !Beats(Start(b).timers, (b + HEARTBEAT_INTERVAL - 1) % WRAP)
      && !Beats(first, (b + HEARTBEAT_INTERVAL - 1 + d) % WRAP)
  {
    DueIff(b, b + HEARTBEAT_INTERVAL - 1, HEARTBEAT_INTERVAL);
    Turns(b, 1);
    DueIff(b, b, HEARTBEAT_INTERVAL);
  }

  /** The gateway's side: the stored time is that of the last delivered heartbeat. */
  ghost predicate Watched(s: System, l: nat) {
    && s.status.phase == Connected
    && s.delivered <= |s.beats|
    && (s.delivered < |s.beats| ==> s.now <= s.beats[s.delivered] + l)
    && (s.status.lastHeartbeat.Some? <==> s.delivered > 0)
    && (s.delivered > 0 ==> s.beats[s.delivered - 1] <= s.status.lastHeartbeat.value)
  }

  lemma NotOverdue(s: System, at: nat, d: nat, l: nat)
    requires Paced(s, d) && Watched(s, l) && Timely(s, Check(at), d, l)
    requires s.delivered > 0
    ensures at - s.status.lastHeartbeat.value < HEARTBEAT_INTERVAL + d + l
  {
    if s.delivered < |s.beats| {
      assert s.beats[s.delivered] - s.beats[s.delivered - 1] < HEARTBEAT_INTERVAL + d;
    }
  }

  lemma WatchedNext(s: System, h: Happening, d: nat, l: nat)
    requires Paced(s, d) && Watched(s, l) && Timely(s, h, d, l)
    requires HEARTBEAT_INTERVAL + d + l <= (TIMEOUT_SECONDS + 1) * 1000
    ensures Watched(Next(s, h), l)
  {
    match h
    case Tick(at, _, _) =>
    case Arrive(at) =>
      assert s.beats[s.delivered] <= s.beats[|s.beats| - 1] by { Increasing(s.beats, d, s.delivered); }
      if s.delivered + 1 < |s.beats| {
        assert s.beats[s.delivered] < s.beats[s.delivered + 1];
      }
    case Check(at) =>
      if s.delivered > 0 {
        NotOverdue(s, at, d, l);
      }
      TimedOutIff(s.status, TIMEOUT_SECONDS, at);
  }

  lemma {:induction false} Increasing(beats: seq<nat>, d: nat, k: nat)
    requires Spaced(beats, d) && k < |beats|
    ensures beats[k] <= beats[|beats| - 1]
    decreases |beats| - k
  {
    if k + 1 < |beats| {
      assert beats[k] <= beats[k + 1];
      Increasing(beats, d, k + 1);
    }
  }

  lemma {:induction false} WatchedRun(s: System, hs: seq<Happening>, d: nat, l: nat)
    requires Paced(s, d) && Watched(s, l) && TimelyRun(s, hs, d, l)
    requires HEARTBEAT_INTERVAL + d + l <= (TIMEOUT_SECONDS + 1) * 1000
    ensures Watched(RunFrom(s, hs), l)
    decreases |hs|
  {
    if |hs| > 0 {
      PacedNext(s, hs[0], d, l);
      WatchedNext(s, hs[0], d, l);
      WatchedRun(Next(s, hs[0]), hs[1..], d, l);
    }
  }

  // ---------------------------------------------------------------- the bound is exact

  /** Some timely run ends with the device marked unreachable. */
  ghost predicate CanBeMarked(s: System, d: nat, l: nat) {
    exists hs :: TimelyRun(s, hs, d, l) && RunFrom(s, hs).status.phase == Unreachable
  }

  lemma MarkedAfter(s: System, h: Happening, d: nat, l: nat)
    requires Timely(s, h, d, l) && CanBeMarked(Next(s, h), d, l)
    ensures CanBeMarked(s, d, l)
  {
    var hs :| TimelyRun(Next(s, h), hs, d, l) && RunFrom(Next(s, h), hs).status.phase == Unreachable;
    assert ([h] + hs)[1..] == hs;
    assert TimelyRun(s, [h] + hs, d, l);
  }

  lemma MarkedNow(s: System, h: Happening, d: nat, l: nat)
    requires Timely(s, h, d, l) && Next(s, h).status.phase == Unreachable
    ensures CanBeMarked(s, d, l)
  {
    var end := Next(s, h);
    assert TimelyRun(end, [], d, l) && RunFrom(end, []) == end;
    MarkedAfter(s, h, d, l);
  }

  const ANY_LINE := Line(true, true, true)

  /** Once the second heartbeat is under way, the device ticks on until the monitor gives up. */
  lemma {:induction false} WaitForMark(s: System, b: nat, d: nat, l: nat)
    requires d > 0 && s.delivered == 1 && |s.beats| > 1 && s.status == Status(Connected, Some(b))
    requires s.lastTick == s.now <= b + 91_000 <= s.beats[1] + l
    ensures CanBeMarked(s, d, l)
    decreases b + 91_000 - s.lastTick
  {
    if b + 91_000 <= s.lastTick + d {
      TimedOutIff(s.status, TIMEOUT_SECONDS, b + 91_000);
      MarkedNow(s, Check(b + 91_000), d, l);
    } else {
      var h := Tick(s.lastTick + d, NO_APP, ANY_LINE);
      WaitForMark(Next(s, h), b, d, l);
      MarkedAfter(s, h, d, l);
    }
  }

  /** Before that, it ticks up to one millisecond short of the interval and then waits a full gap. */
  lemma {:induction false} WaitForBeat(s: System, b: nat, d: nat, l: nat)
    requires d > 0 && HEARTBEAT_INTERVAL + d + l > 91_000
    requires s.timers.connected && s.timers.lastBeat == b % WRAP
    requires s.delivered == 1 && s.beats == [b] && s.status == Status(Connected, Some(b))
    requires b <= s.lastTick == s.now < b + HEARTBEAT_INTERVAL
    ensures CanBeMarked(s, d, l)
    decreases b + HEARTBEAT_INTERVAL - s.lastTick
  {
    var last := b + HEARTBEAT_INTERVAL - 1;
    var at :=
      if s.lastTick < last then (if s.lastTick + d < last then s.lastTick + d else last)
      else if last + d < b + 91_000 then last + d else b + 91_000;
    var h := Tick(at, NO_APP, ANY_LINE);
    DueIff(b, at, HEARTBEAT_INTERVAL);
    if s.lastTick < last {
      WaitForBeat(Next(s, h), b, d, l);
    } else {
      WaitForMark(Next(s, h), b, d, l);
    }
    MarkedAfter(s, h, d, l);
  }

  /** With ticks at most `d` ms apart and delivery within `l` ms, no run ever marks the device
      unreachable, if and only if 25000 + d + l is at most 91000. */
  lemma NeverUnreachableIff(b: nat, d: nat, l: nat)
    requires d > 0
    ensures !CanBeMarked(Start(b), d, l) <==> 25_000 + d + l <= 91_000
  {
    var s := Start(b);
    if HEARTBEAT_INTERVAL + d + l <= 91_000 {
      forall hs | TimelyRun(s, hs, d, l)
        ensures RunFrom(s, hs).status.phase == Connected
      {
        WatchedRun(s, hs, d, l);
      }
    } else {
      WaitForBeat(Next(s, Arrive(b)), b, d, l);
      MarkedAfter(s, Arrive(b), d, l);
    }
  }
}
