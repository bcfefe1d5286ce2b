/** The firmware's periodic work over runs of ticks, and the recovery of an unreachable device. */
module TimerRuns {
  import opened Prelude
  import opened Registers
  import opened Messages
  import opened FirmwareSend
  import opened Deploy
  import opened DevicePhases
  import opened Heartbeat

  // ---------------------------------------------------------------- runs of ticks

  /** A tick at true time `at`. */
  datatype Turn = Turn(at: nat, app: App, line: Line)

  function TimersAfter(t: Timers, ks: seq<Turn>): Timers {
    if |ks| == 0 then t
    else var n := |ks| - 1; Ticked(TimersAfter(t, ks[..n]), ks[n].app, ks[n].at % WRAP, ks[n].line)
  }

  function LastTick(from: nat, ks: seq<Turn>): nat { if |ks| == 0 then from else ks[|ks| - 1].at }

  /** Ticks from `from` on are in order and at most `d` apart. */
  ghost predicate Ticking(from: nat, ks: seq<Turn>, d: nat) {
    |ks| > 0 ==>
      var before := ks[..|ks| - 1];
      Ticking(from, before, d) && LastTick(from, before) <= ks[|ks| - 1].at <= LastTick(from, before) + d
  }

  /** Something happens at `times`, at least `interval` and less than `interval + d` apart, and has not
      been due again by `now`. */
  ghost predicate Paces(times: seq<nat>, now: nat, interval: nat, d: nat) {
    && |times| > 0
    && (forall k :: 0 < k < |times| ==> interval <= times[k] - times[k - 1] < interval + d)
    && times[|times| - 1] <= now < times[|times| - 1] + interval
  }

  lemma PaceStep(times: seq<nat>, now: nat, at: nat, interval: nat, d: nat)
    requires Paces(times, now, interval, d) && now <= at <= now + d && interval > 0
    ensures Paces(if at - times[|times| - 1] >= interval then times + [at] else times, at, interval, d)
  {
  }

  /** The times at which a disconnected device tries to connect. */
  ghost function Attempts(t: Timers, ks: seq<Turn>): seq<nat> {
    if |ks| == 0 then []
    else
      var n := |ks| - 1;
      Attempts(t, ks[..n]) + (if Tries(TimersAfter(t, ks[..n]), ks[n].at % WRAP) then [ks[n].at] else [])
  }

  /** The times at which a connected device reports its application. */
  ghost function ReportTimes(t: Timers, ks: seq<Turn>): seq<nat> {
    if |ks| == 0 then []
    else
      var n := |ks| - 1;
      ReportTimes(t, ks[..n])
      + (if Reports(TimersAfter(t, ks[..n]), ks[n].app, ks[n].at % WRAP) then [ks[n].at] else [])
  }

  lemma AttemptStep(t: Timers, last: nat, at: nat, app: App, line: Line)
    requires !t.connected && t.lastTry == last % WRAP && last <= at < last + WRAP && !line.connects
    ensures Tries(t, at % WRAP) <==> at - last >= 30_000
    ensures var after := Ticked(t, app, at % WRAP, line);
      !after.connected && after.lastTry == (if at - last >= 30_000 then at else last) % WRAP
  {
    DueIff(last, at, 30_000);
  }

  /** The device is disconnected, and attempts are paced. */
  ghost predicate Retrying(t: Timers, times: seq<nat>, now: nat, d: nat) {
    !t.connected && Paces(times, now, 30_000, d) && t.lastTry == times[|times| - 1] % WRAP
  }

  lemma RetryingNext(t: Timers, times: seq<nat>, now: nat, d: nat, k: Turn, after: Timers, later: seq<nat>)
    requires Retrying(t, times, now, d) && now <= k.at <= now + d && 30_000 + d <= WRAP && !k.line.connects
    requires after == Ticked(t, k.app, k.at % WRAP, k.line)
    requires later == times + (if Tries(t, k.at % WRAP) then [k.at] else [])
    ensures Retrying(after, later, k.at, d)
  {
    var last := times[|times| - 1];
    AttemptStep(t, last, k.at, k.app, k.line);
    PaceStep(times, now, k.at, 30_000, d);
    assert later == if k.at - last >= 30_000 then times + [k.at] else times;
  }

  /** While no attempt succeeds, attempts are at least 30000 ms and less than 30000 + d ms apart, across
      the wrap of the 32-bit clock, and the next one is never later than that. */
  lemma {:induction false} AttemptSpacing(t: Timers, b: nat, ks: seq<Turn>, d: nat)
    requires !t.connected && t.lastTry == b % WRAP && Ticking(b, ks, d) && 30_000 + d <= WRAP
    requires forall k :: k in ks ==> !k.line.connects
    ensures Retrying(TimersAfter(t, ks), [b] + Attempts(t, ks), LastTick(b, ks), d)
  {
    if |ks| > 0 {
      var n := |ks| - 1;
      AttemptSpacing(t, b, ks[..n], d);
      assert ks[n] in ks;
      RetryingNext(TimersAfter(t, ks[..n]), [b] + Attempts(t, ks[..n]), LastTick(b, ks[..n]), d, ks[n],
        TimersAfter(t, ks), [b] + Attempts(t, ks));
    }
  }

  lemma ReportStep(t: Timers, last: nat, at: nat, app: App, line: Line)
    requires t.connected && t.lastStatus == last % WRAP && last <= at < last + WRAP && app.deployed && line.beatSent
    ensures Reports(t, app, at % WRAP) <==> at - last >= 30_000
    ensures var after := Ticked(t, app, at % WRAP, line);
      after.connected && after.lastStatus == (if at - last >= 30_000 then at else last) % WRAP
  {
    DueIff(last, at, 30_000);
  }

  /** The device is connected, and reports are paced. */
  ghost predicate Reporting(t: Timers, times: seq<nat>, now: nat, d: nat) {
    t.connected && Paces(times, now, 30_000, d) && t.lastStatus == times[|times| - 1] % WRAP
  }

  lemma ReportingNext(t: Timers, times: seq<nat>, now: nat, d: nat, k: Turn, after: Timers, later: seq<nat>)
    requires Reporting(t, times, now, d) && now <= k.at <= now + d && 30_000 + d <= WRAP
    requires k.app.deployed && k.line.beatSent
    requires after == Ticked(t, k.app, k.at % WRAP, k.line)
    requires later == times + (if Reports(t, k.app, k.at % WRAP) then [k.at] else [])
    ensures Reporting(after, later, k.at, d)
  {
    var last := times[|times| - 1];
    ReportStep(t, last, k.at, k.app, k.line);
    PaceStep(times, now, k.at, 30_000, d);
    assert later == if k.at - last >= 30_000 then times + [k.at] else times;
  }

  /** While an application is deployed and heartbeats go out, so are its status reports. */
  lemma {:induction false} ReportSpacing(t: Timers, b: nat, ks: seq<Turn>, d: nat)
    requires t.connected && t.lastStatus == b % WRAP && Ticking(b, ks, d) && 30_000 + d <= WRAP
    requires forall k :: k in ks ==> k.app.deployed && k.line.beatSent
    ensures Reporting(TimersAfter(t, ks), [b] + ReportTimes(t, ks), LastTick(b, ks), d)
  {
    if |ks| > 0 {
      var n := |ks| - 1;
      ReportSpacing(t, b, ks[..n], d);
      assert ks[n] in ks;
      ReportingNext(TimersAfter(t, ks[..n]), [b] + ReportTimes(t, ks[..n]), LastTick(b, ks[..n]), d, ks[n],
        TimersAfter(t, ks), [b] + ReportTimes(t, ks));
    }
  }

  /** Turn `i` is an attempt that succeeds. */
  ghost predicate Connects(t: Timers, ks: seq<Turn>, i: nat) {
    i < |ks| && ks[i].line.connects && Tries(TimersAfter(t, ks[..i]), ks[i].at % WRAP)
  }

  /** A disconnected device whose heartbeats then go out is connected exactly when some attempt succeeded. */
  lemma {:induction false} ReconnectedIff(t: Timers, ks: seq<Turn>)
    requires !t.connected && forall k :: k in ks ==> k.line.beatSent
    ensures TimersAfter(t, ks).connected <==> exists i: nat :: Connects(t, ks, i)
  {
    if |ks| > 0 {
      var n := |ks| - 1;
      ReconnectedIff(t, ks[..n]);
      assert ks[n] in ks;
      assert Connects(t, ks, n) <==> ks[n].line.connects && Tries(TimersAfter(t, ks[..n]), ks[n].at % WRAP);
      forall i: nat | i < n
        ensures Connects(t, ks, i) <==> Connects(t, ks[..n], i)
      {
        assert ks[..n][..i] == ks[..i];
      }
    }
  }

  /** What a tick sends: a heartbeat each 25000 ms, and each 30000 ms the status Running (1) of the
      application named in the id buffer. */
  lemma TickSends(t: Timers, app: App, now: Word, line: Line)
    ensures var sent := Sent(t, app, now, line);
      var beat := t.connected && Sub32(now, t.lastBeat) >= 25_000;
      && (ClientMessage.Heartbeat in sent <==> beat && line.beatSent)
      && (ApplicationStatus(Shown(app.buffer), 1, None, None) in sent <==>
            && t.connected && app.deployed && Sub32(now, t.lastStatus) >= 30_000 && line.statusSent
            && (beat ==> line.beatSent))
      && (forall m :: m in sent ==>
            m == ClientMessage.Heartbeat || m == ApplicationStatus(Shown(app.buffer), 1, None, None))
      && |sent| <= 2
  {
  }

  // ---------------------------------------------------------------- recovery

  /** Happening `i` delivers a heartbeat. */
  ghost predicate Delivers(s: System, hs: seq<Happening>, i: nat) {
    i < |hs| && hs[i].Arrive? && RunFrom(s, hs[..i]).delivered < |RunFrom(s, hs[..i]).beats|
  }

  /** Happening `i` is a monitor pass at which the last heartbeat is 91 s old. */
  ghost predicate Expires(s: System, hs: seq<Happening>, i: nat) {
    && i < |hs| && hs[i].Check?
    && var last := RunFrom(s, hs[..i]).status.lastHeartbeat; last.Some? && hs[i].at - last.value >= 91_000
  }

  lemma {:induction false} RunSnoc(s: System, hs: seq<Happening>, h: Happening)
    ensures RunFrom(s, hs + [h]) == Next(RunFrom(s, hs), h)
    decreases |hs|
  {
    if |hs| == 0 {
      assert hs + [h] == [h] && [h][1..] == [];
    } else {
      assert (hs + [h])[1..] == hs[1..] + [h];
      RunSnoc(Next(s, hs[0]), hs[1..], h);
    }
  }

  lemma SamePrefix(s: System, hs: seq<Happening>, n: nat)
    requires |hs| == n + 1
    ensures RunFrom(s, hs) == Next(RunFrom(s, hs[..n]), hs[n])
    ensures forall i: nat :: i < n ==> (Delivers(s, hs[..n], i) <==> Delivers(s, hs, i))
    ensures forall i: nat :: i < n ==> (Expires(s, hs[..n], i) <==> Expires(s, hs, i))
  {
    assert hs == hs[..n] + [hs[n]];
    RunSnoc(s, hs[..n], hs[n]);
    forall i: nat | i < n
      ensures hs[..n][..i] == hs[..i]
    {
    }
  }

  /** Happening `i` is the last that delivered a heartbeat. */
  ghost predicate DeliversLast(s: System, hs: seq<Happening>, i: nat) {
    Delivers(s, hs, i) && forall m: nat :: i < m ==> !Delivers(s, hs, m)
  }

  /** The stored heartbeat is the time of the last delivery. */
  lemma {:induction false} StoredBeatIff(b: nat, hs: seq<Happening>, time: int)
    ensures RunFrom(Start(b), hs).status.lastHeartbeat == Some(time) <==>
      exists i: nat :: DeliversLast(Start(b), hs, i) && hs[i].at == time
  {
    var s := Start(b);
    if |hs| > 0 {
      var n := |hs| - 1;
      StoredBeatIff(b, hs[..n], time);
      SamePrefix(s, hs, n);
      forall i: nat | i < n
        ensures DeliversLast(s, hs, i) <==> DeliversLast(s, hs[..n], i) && !Delivers(s, hs, n)
      {
      }
      assert DeliversLast(s, hs, n) <==> Delivers(s, hs, n);
    }
  }

  /** Happening `i` marked the device and no heartbeat has been delivered since. */
  ghost predicate MarkedBy(s: System, hs: seq<Happening>, i: nat) {
    Expires(s, hs, i) && forall m: nat :: i < m ==> !Delivers(s, hs, m)
  }

  /** Over every run, timely or not: the device is unreachable exactly when a monitor pass found its last
      heartbeat 91 s old and none has been delivered since; otherwise it is connected. */
  lemma {:induction false} UnreachableIff(b: nat, hs: seq<Happening>)
    ensures var phase := RunFrom(Start(b), hs).status.phase;
      && (phase == Unreachable <==> exists i: nat :: MarkedBy(Start(b), hs, i))
      && (phase == Connected <==> !exists i: nat :: MarkedBy(Start(b), hs, i))
  {
    var s := Start(b);
    if |hs| > 0 {
      var n := |hs| - 1;
      UnreachableIff(b, hs[..n]);
      SamePrefix(s, hs, n);
      TimedOutIff(RunFrom(s, hs[..n]).status, TIMEOUT_SECONDS, hs[n].at);
      forall i: nat | i < n
        ensures MarkedBy(s, hs, i) <==> MarkedBy(s, hs[..n], i) && !Delivers(s, hs, n)
      {
      }
      assert MarkedBy(s, hs, n) <==> Expires(s, hs, n);
    }
  }
}
