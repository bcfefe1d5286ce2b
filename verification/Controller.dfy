/** The application controller: a reconcile step driven by an in-memory phase cache, and the
    deployment loop that aggregates per-device results. */
module Controller {
  import opened Prelude
  import opened Registers
  import opened DevicePhases

  datatype Phase = Creating | Deploying | Running | PartiallyRunning | Failed | Stopping | Stopped | Deleting

  /** The transitions the Application resource allows. */
  predicate ValidTransition(from: Phase, to: Phase) {
    || from == to
    || match from {
         case Creating => to == Deploying
         case Deploying => to == Running || to == PartiallyRunning || to == Failed
         case PartiallyRunning => to == Running || to == Failed || to == Deleting
         case Running => to == Stopping || to == PartiallyRunning || to == Failed || to == Deleting
         case Stopping => to == Stopped || to == Failed
         case Stopped => to == Deploying || to == Deleting
         case Failed => to == Deploying || to == Deleting
         case Deleting => false
       }
  }

  datatype Device = Device(name: string, phase: Option<DevicePhase>)

  datatype Target = Target(allDevices: Option<bool>, deviceNames: Option<seq<string>>)

  datatype DeviceAppPhase = AppDeploying | AppRunning | AppFailed | AppStopped

  /** A device's status of the application. */
  datatype Report = Report(status: DeviceAppPhase, error: Option<string>) {
    predicate Runs() { status == AppRunning }
    predicate Fails() { status == AppFailed }
  }

  datatype Message = DeployFailures(count: nat) | Said(text: string)

  datatype Statistics = Statistics(total: nat, deployed: nat, running: nat, failed: nat, stopped: nat)

  /** Timestamps are not kept. */
  datatype AppStatus = AppStatus(
    phase: Phase, entries: Option<map<string, Report>>, statistics: Option<Statistics>, error: Option<Message>)

  /** How a status write ends: by the status patch, by the plain patch (whose effect on the status
      is the server's choice), or not at all. */
  datatype Write = ByStatus | ByPlain(kept: bool) | Lost

  /** The write also changes the stored status. */
  predicate Lands(w: Write) { w == ByStatus || w == ByPlain(true) }

  /** What a reconcile meets: whether the application could be fetched, the device listing, the
      gateway's reply to the i-th deployment (`None` for success), and how a status write ends. */
  datatype Outcomes = Outcomes(
    fetched: bool, listing: Option<seq<Device>>, replies: nat -> Option<string>, write: Write)

  // ---------------------------------------------------------------- targets

  predicate Matches(target: Target, d: Device) {
    target.allDevices == Some(true) || (target.deviceNames.Some? && d.name in target.deviceNames.value)
  }

  function Matching(target: Target, ds: seq<Device>): seq<Device> {
    if |ds| == 0 then []
    else
      var n := |ds| - 1;
      Matching(target, ds[..n]) + (if Matches(target, ds[n]) then [ds[n]] else [])
  }

  lemma {:induction false} AllMatch(target: Target, ds: seq<Device>)
    requires forall d :: d in ds ==> Matches(target, d)
    ensures Matching(target, ds) == ds
  {
    if |ds| > 0 {
      AllMatch(target, ds[..|ds| - 1]);
    }
  }

  lemma {:induction false} NoneMatch(target: Target, ds: seq<Device>)
    requires forall d :: d in ds ==> !Matches(target, d)
    ensures Matching(target, ds) == []
  {
    if |ds| > 0 {
      NoneMatch(target, ds[..|ds| - 1]);
    }
  }

  /** The target list keeps the multiplicity of every matching device and drops the others. */
  lemma {:induction false} MatchingIff(target: Target, ds: seq<Device>, d: Device)
    ensures multiset(Matching(target, ds))[d] ==
      if target.allDevices == Some(true) || (target.deviceNames.Some? && d.name in target.deviceNames.value)
      then multiset(ds)[d] else 0
  {
    if |ds| > 0 {
      var n := |ds| - 1;
      MatchingIff(target, ds[..n], d);
      assert ds == ds[..n] + [ds[n]];
    }
  }

  /** Targets keep the order of the listing. */
  lemma {:induction false} MatchingInOrder(target: Target, ds: seq<Device>, more: seq<Device>)
    ensures Matching(target, ds + more) == Matching(target, ds) + Matching(target, more)
  {
    if |more| == 0 {
      assert ds + more == ds;
    } else {
      var n := |more| - 1;
      MatchingInOrder(target, ds, more[..n]);
      assert (ds + more)[..|ds| + n] == ds + more[..n];
    }
  }

  method FindTargetDevices(target: Target, listing: Option<seq<Device>>) returns (found: Option<seq<Device>>)
    ensures found.None? <==> listing.None?
    ensures found.Some? ==> found.value == Matching(target, listing.value)
  {
    if listing.None? {
      return None;
    }
    var all := listing.value;
    if target.allDevices == Some(true) {
      AllMatch(target, all);
      return Some(all);
    }
    var matching := [];
    if target.deviceNames.Some? {
      for i := 0 to |all|
        invariant matching == Matching(target, all[..i])
      {
        assert all[..i + 1][..i] == all[..i];
        if all[i].name in target.deviceNames.value {
          matching := matching + [all[i]];
        }
      }
      assert all[..|all|] == all;
    } else {
      NoneMatch(target, all);
    }
    return Some(matching);
  }

  // ---------------------------------------------------------------- aggregation

  function ReportOf(d: Device, reply: Option<string>): Report {
    if d.phase != Some(Connected) then Report(AppFailed, Some("Device not connected"))
    else if reply.Some? then Report(AppFailed, reply)
    else Report(AppRunning, None)
  }

  function Reports(ts: seq<Device>, replies: nat -> Option<string>): (rs: seq<Report>)
    ensures |rs| == |ts| && forall i :: 0 <= i < |ts| ==> rs[i] == ReportOf(ts[i], replies(i))
  {
    seq(|ts|, i requires 0 <= i < |ts| => ReportOf(ts[i], replies(i)))
  }

  function Tally(rs: seq<Report>): (n: nat)
    ensures n <= |rs|
  {
    if |rs| == 0 then 0 else Tally(rs[..|rs| - 1]) + (if rs[|rs| - 1].Runs() then 1 else 0)
  }

  function Entries(ts: seq<Device>, rs: seq<Report>): map<string, Report>
    requires |ts| == |rs|
  {
    if |ts| == 0 then map[]
    else var n := |ts| - 1; Entries(ts[..n], rs[..n])[ts[n].name := rs[n]]
  }

  function Aggregate(ts: seq<Device>, rs: seq<Report>): AppStatus
    requires |ts| == |rs|
  {
    var running := Tally(rs);
    var failed := |rs| - running;
    AppStatus(
      if running == |ts| then Running
      else if running > 0 then PartiallyRunning
      else if failed > 0 then Failed
      else Deploying,
      Some(Entries(ts, rs)), Some(Statistics(|ts|, running, running, failed, 0)),
      if failed > 0 then Some(DeployFailures(failed)) else None)
  }

  lemma {:induction false} TallyIff(rs: seq<Report>)
    ensures Tally(rs) == |rs| <==> forall i :: 0 <= i < |rs| ==> rs[i].Runs()
    ensures Tally(rs) > 0 <==> exists i :: 0 <= i < |rs| && rs[i].Runs()
  {
    if |rs| > 0 {
      var n := |rs| - 1;
      TallyIff(rs[..n]);
      assert forall i :: 0 <= i < n ==> rs[..n][i] == rs[i];
      if Tally(rs[..n]) > 0 {
        var i :| 0 <= i < n && rs[..n][i].Runs();
        assert rs[i].Runs();
      }
    }
  }

  ghost predicate DistinctNames(ts: seq<Device>) {
    forall i, j :: 0 <= i < j < |ts| ==> ts[i].name != ts[j].name
  }

  predicate Named(ts: seq<Device>, name: string) {
    exists i :: 0 <= i < |ts| && ts[i].name == name
  }

  lemma NamedStep(ts: seq<Device>, n: nat, name: string)
    requires |ts| == n + 1
    ensures Named(ts, name) <==> Named(ts[..n], name) || ts[n].name == name
  {
    assert forall i :: 0 <= i < n ==> ts[..n][i] == ts[i];
    if Named(ts[..n], name) {
      var i :| 0 <= i < n && ts[..n][i].name == name;
      assert ts[i].name == name;
    }
  }

  lemma DistinctStep(ts: seq<Device>, n: nat)
    requires |ts| == n + 1
    ensures DistinctNames(ts) <==> DistinctNames(ts[..n]) && !Named(ts[..n], ts[n].name)
  {
    assert forall i :: 0 <= i < n ==> ts[..n][i] == ts[i];
    if Named(ts[..n], ts[n].name) {
      var i :| 0 <= i < n && ts[..n][i].name == ts[n].name;
      assert ts[i].name == ts[n].name;
    }
  }

  lemma {:induction false} EntriesNames(ts: seq<Device>, rs: seq<Report>, name: string)
    requires |ts| == |rs|
    ensures name in Entries(ts, rs) <==> Named(ts, name)
  {
    if |ts| > 0 {
      var n := |ts| - 1;
      EntriesNames(ts[..n], rs[..n], name);
      NamedStep(ts, n, name);
    }
  }

  /** There is one entry per target exactly when the targets' names are distinct. */
  lemma {:induction false} EntriesCount(ts: seq<Device>, rs: seq<Report>)
    requires |ts| == |rs|
    ensures |Entries(ts, rs)| <= |ts| && (|Entries(ts, rs)| == |ts| <==> DistinctNames(ts))
  {
    if |ts| > 0 {
      var n := |ts| - 1;
      var before := Entries(ts[..n], rs[..n]);
      EntriesCount(ts[..n], rs[..n]);
      EntriesNames(ts[..n], rs[..n], ts[n].name);
      DistinctStep(ts, n);
      Grows(before, ts[n].name, rs[n]);
    }
  }

  lemma Grows<V>(m: map<string, V>, name: string, v: V)
    ensures |m[name := v]| == |m| + (if name in m then 0 else 1)
  {
    assert m[name := v].Keys == m.Keys + {name};
    if name in m {
      assert m.Keys + {name} == m.Keys;
    }
  }

  lemma {:induction false} EntryOf(ts: seq<Device>, rs: seq<Report>, i: nat)
    requires |ts| == |rs| && DistinctNames(ts) && i < |ts|
    ensures ts[i].name in Entries(ts, rs) && Entries(ts, rs)[ts[i].name] == rs[i]
  {
    var n := |ts| - 1;
    if i < n {
      EntryOf(ts[..n], rs[..n], i);
      assert ts[i].name != ts[n].name;
    }
  }

  /** A deployment reports either running or failed. */
  lemma ReportKinds(ts: seq<Device>, replies: nat -> Option<string>)
    ensures forall i :: 0 <= i < |ts| ==> (Reports(ts, replies)[i].Runs() <==> !Reports(ts, replies)[i].Fails())
  {
  }

  /** What the deployment status of a non-empty target list says. */
  lemma AggregateIff(ts: seq<Device>, replies: nat -> Option<string>)
    requires |ts| > 0
    ensures var rs := Reports(ts, replies); var s := Aggregate(ts, rs);
      && s.statistics.value.running + s.statistics.value.failed == s.statistics.value.total == |ts|
      && (s.phase == Running <==> forall i :: 0 <= i < |ts| ==> rs[i].Runs())
      && (s.phase == PartiallyRunning <==>
            (exists i :: 0 <= i < |ts| && rs[i].Runs()) && (exists i :: 0 <= i < |ts| && rs[i].Fails()))
      && (s.phase == Failed <==> forall i :: 0 <= i < |ts| ==> rs[i].Fails())
      && (s.error.None? <==> s.phase == Running)
      && (s.error.Some? ==> s.error.value == DeployFailures(s.statistics.value.failed))
  {
    var rs := Reports(ts, replies);
    TallyIff(rs);
    ReportKinds(ts, replies);
    assert rs[0].Runs() || rs[0].Fails();
  }

  /** The targets that are connected and accept the module. */
  function Accepting(ts: seq<Device>, replies: nat -> Option<string>): set<nat> {
    set i: nat | i < |ts| && ts[i].phase == Some(Connected) && replies(i).None?
  }

  /** The targets that are not connected or whose deployment fails. */
  function Refusing(ts: seq<Device>, replies: nat -> Option<string>): set<nat> {
    set i: nat | i < |ts| && (ts[i].phase != Some(Connected) || replies(i).Some?)
  }

  lemma OneTargetMore(ts: seq<Device>, replies: nat -> Option<string>, n: nat)
    requires |ts| == n + 1
    ensures var one := if ts[n].phase == Some(Connected) && replies(n).None? then 1 else 0;
      && |Accepting(ts, replies)| == |Accepting(ts[..n], replies)| + one
      && |Refusing(ts, replies)| == |Refusing(ts[..n], replies)| + 1 - one
  {
    var good, bad := Accepting(ts[..n], replies), Refusing(ts[..n], replies);
    if ts[n].phase == Some(Connected) && replies(n).None? {
      assert Accepting(ts, replies) == good + {n};
      assert Refusing(ts, replies) == bad;
    } else {
      assert Accepting(ts, replies) == good;
      assert Refusing(ts, replies) == bad + {n};
    }
  }

  lemma {:induction false} TallyCounts(ts: seq<Device>, replies: nat -> Option<string>)
    ensures Tally(Reports(ts, replies)) == |Accepting(ts, replies)|
    ensures |Accepting(ts, replies)| + |Refusing(ts, replies)| == |ts|
  {
    if |ts| > 0 {
      var n := |ts| - 1;
      TallyCounts(ts[..n], replies);
      OneTargetMore(ts, replies, n);
      TallyNext(ts, replies, n);
    }
  }

  lemma TallyNext(ts: seq<Device>, replies: nat -> Option<string>, n: nat)
    requires |ts| == n + 1
    ensures Tally(Reports(ts, replies)) ==
      Tally(Reports(ts[..n], replies)) + (if ts[n].phase == Some(Connected) && replies(n).None? then 1 else 0)
  {
    assert Reports(ts, replies)[..n] == Reports(ts[..n], replies);
  }

  /** The published counts are those of the targets: deployed and running the accepting ones, failed the
      others, which the error also counts. */
  lemma AggregateCounts(ts: seq<Device>, replies: nat -> Option<string>)
    ensures var s := Aggregate(ts, Reports(ts, replies));
      var good, bad := |Accepting(ts, replies)|, |Refusing(ts, replies)|;
      && s.statistics == Some(Statistics(|ts|, good, good, bad, 0))
      && s.error == (if bad == 0 then None else Some(DeployFailures(bad)))
      && good + bad == |ts|
  {
    TallyCounts(ts, replies);
  }

  /** What a target's entry says: running without an error, or failed and why. */
  lemma EntryTexts(ts: seq<Device>, replies: nat -> Option<string>, i: nat)
    requires DistinctNames(ts) && i < |ts|
    ensures var entries := Aggregate(ts, Reports(ts, replies)).entries.value; var name := ts[i].name;
      && name in entries
      && (entries[name] == Report(AppRunning, None) <==> ts[i].phase == Some(Connected) && replies(i).None?)
      && (ts[i].phase != Some(Connected) ==> entries[name] == Report(AppFailed, Some("Device not connected")))
      && (ts[i].phase == Some(Connected) && replies(i).Some? ==> entries[name] == Report(AppFailed, replies(i)))
  {
    EntryOf(ts, Reports(ts, replies), i);
  }

  /** Its entries name the targets, one for each exactly when their names are distinct, and then each
      holds its target's result. */
  lemma AggregateEntries(ts: seq<Device>, replies: nat -> Option<string>)
    ensures var rs := Reports(ts, replies); var entries := Aggregate(ts, rs).entries.value;
      && (forall name :: name in entries <==> Named(ts, name))
      && (|entries| == |ts| <==> DistinctNames(ts))
      && (DistinctNames(ts) ==> forall i :: 0 <= i < |ts| ==> entries[ts[i].name] == rs[i])
  {
    var rs := Reports(ts, replies);
    forall name {
      EntriesNames(ts, rs, name);
    }
    EntriesCount(ts, rs);
    if DistinctNames(ts) {
      forall i | 0 <= i < |ts|
        ensures Entries(ts, rs)[ts[i].name] == rs[i]
      {
        EntryOf(ts, rs, i);
      }
    }
  }

  lemma OneMore(ts: seq<Device>, rs: seq<Report>, i: nat)
    requires |ts| == |rs| && i < |ts|
    ensures Entries(ts[..i + 1], rs[..i + 1]) == Entries(ts[..i], rs[..i])[ts[i].name := rs[i]]
    ensures Tally(rs[..i + 1]) == Tally(rs[..i]) + (if rs[i].Runs() then 1 else 0)
  {
    assert ts[..i + 1][..i] == ts[..i] && rs[..i + 1][..i] == rs[..i];
  }

  /** The loop over the targets. */
  method DeployToAll(ts: seq<Device>, replies: nat -> Option<string>) returns (status: AppStatus)
    ensures status == Aggregate(ts, Reports(ts, replies))
  {
    ghost var rs := Reports(ts, replies);
    var statuses: map<string, Report> := map[];
    var runningCount, failedCount := 0, 0;
    for i := 0 to |ts|
      invariant statuses == Entries(ts[..i], rs[..i])
      invariant runningCount == Tally(rs[..i]) && runningCount + failedCount == i
    {
      OneMore(ts, rs, i);
      if ts[i].phase != Some(Connected) {
        statuses := statuses[ts[i].name := Report(AppFailed, Some("Device not connected"))];
        failedCount := failedCount + 1;
        continue;
      }
      var reply := replies(i);
      if reply.None? {
        statuses := statuses[ts[i].name := Report(AppRunning, None)];
        runningCount := runningCount + 1;
      } else {
        statuses := statuses[ts[i].name := Report(AppFailed, reply)];
        failedCount := failedCount + 1;
      }
    }
    assert ts[..|ts|] == ts && rs[..|ts|] == rs;
    var phase :=
      if runningCount == |ts| then Running
      else if runningCount > 0 then PartiallyRunning
      else if failedCount > 0 then Failed
      else Deploying;
    status := AppStatus(
      phase, Some(statuses), Some(Statistics(|ts|, runningCount, runningCount, failedCount, 0)),
      if failedCount > 0 then Some(DeployFailures(failedCount)) else None);
  }

  // ---------------------------------------------------------------- one reconcile, as a value

  /** One application's cached phase and the status the API server holds for it. */
  datatype Cell = Cell(cached: Option<Phase>, stored: Option<AppStatus>)

  /** Where a handler ends, and the phases it wrote to the cache or to the server, in order. */
  datatype Step = Step(cell: Cell, writes: seq<Phase>, ok: bool)

  /** A merge patch replaces every field but the entries, which it merges by name; a null removes. The
      controller writes every field of an entry, an absent error as null, so its entries replace. */
  function Merged(stored: Option<AppStatus>, patch: AppStatus): AppStatus {
    if patch.entries.Some? && stored.Some? && stored.value.entries.Some?
    then patch.(entries := Some(stored.value.entries.value + patch.entries.value))
    else patch
  }

  function Publish(c: Cell, writes: seq<Phase>, status: AppStatus, w: Write): Step {
    var stored := if Lands(w) then Some(Merged(c.stored, status)) else c.stored;
    if w == Lost then Step(c, writes + [status.phase], false)
    else Step(Cell(Some(status.phase), stored), writes + [status.phase], true)
  }

  function StartOver(n: nat): AppStatus {
    AppStatus(Deploying, None, Some(Statistics(n, 0, 0, 0, 0)), None)
  }

  function OnCreating(c: Cell, ts: Option<seq<Device>>, w: Write): Step {
    if c.cached.Some? && c.cached.value != Creating then Step(c, [], true)
    else if ts.None? then Step(c, [], false)
    else if ts.value == [] then Step(c, [], true)
    else Publish(c.(cached := Some(Deploying)), [Deploying], StartOver(|ts.value|), w)
  }

  function OnDeploying(c: Cell, ts: Option<seq<Device>>, replies: nat -> Option<string>, w: Write): Step {
    if ts.None? then Step(c, [], false)
    else if ts.value == [] then Step(c, [], true)
    else Publish(c, [], Aggregate(ts.value, Reports(ts.value, replies)), w)
  }

  function OnFailed(c: Cell, ts: Option<seq<Device>>, w: Write): Step {
    if ts.None? then Step(c, [], false)
    else if exists i :: 0 <= i < |ts.value| && ts.value[i].phase == Some(Connected)
      then Publish(c, [], StartOver(|ts.value|), w)
    else Step(c, [], true)
  }

  function Handle(phase: Phase, c: Cell, target: Target, o: Outcomes): Step {
    var ts := if o.listing.None? then None else Some(Matching(target, o.listing.value));
    match phase
    case Creating => OnCreating(c, ts, o.write)
    case Deploying => OnDeploying(c, ts, o.replies, o.write)
    case Running => Publish(c, [], AppStatus(Running, None, None, None), o.write)
    case PartiallyRunning => Step(c, [], true)
    case Failed => OnFailed(c, ts, o.write)
    case Stopping => Publish(c.(cached := Some(Stopping)), [Stopping], AppStatus(Stopped, None, None, None), o.write)
    case Stopped => Step(c.(cached := Some(Stopped)), [Stopped], true)
    case Deleting => Step(c.(cached := None), [], true)
  }

  /** The phase a reconcile acts on: the resource never shows a status, so the cache decides. */
  function Dispatched(c: Cell): Phase {
    if c.cached.Some? then c.cached.value else Creating
  }

  function Reconciled(c: Cell, target: Target, o: Outcomes): Step {
    if o.fetched then Handle(Dispatched(c), c, target, o) else Step(c, [], false)
  }

  // ---------------------------------------------------------------- the controller object

  class ApplicationController {
    var appPhases: map<string, Phase>
    var stored: map<string, AppStatus>

    ghost function CellOf(name: string): Cell
      reads this
    {
      Cell(Get(appPhases, name), Get(stored, name))
    }

    ghost predicate OthersKept(name: string, phases: map<string, Phase>, statuses: map<string, AppStatus>)
      reads this
    {
      appPhases - {name} == phases - {name} && stored - {name} == statuses - {name}
    }

    constructor ()
      ensures forall name :: CellOf(name) == Cell(None, None)
    {
      appPhases, stored := map[], map[];
    }

    method UpdateApplicationStatus(name: string, status: AppStatus, w: Write) returns (ok: bool)
      modifies this
      ensures OthersKept(name, old(appPhases), old(stored))
      ensures var s := Publish(old(CellOf(name)), [], status, w); CellOf(name) == s.cell && ok == s.ok
    {
      if w == Lost {
        return false;
      }
      if Lands(w) {
        var was := if name in stored then Some(stored[name]) else None;
        stored := stored[name := Merged(was, status)];
      }
      appPhases := appPhases[name := status.phase];
      return true;
    }

    method HandleCreating(name: string, target: Target, o: Outcomes) returns (ok: bool)
      modifies this
      ensures OthersKept(name, old(appPhases), old(stored))
      ensures var s := Handle(Creating, old(CellOf(name)), target, o); CellOf(name) == s.cell && ok == s.ok
    {
      if name in appPhases && appPhases[name] != Creating {
        return true;
      }
      var targets := FindTargetDevices(target, o.listing);
      if targets.None? {
        return false;
      }
      if targets.value == [] {
        return true;
      }
      appPhases := appPhases[name := Deploying];
      ok := UpdateApplicationStatus(name, StartOver(|targets.value|), o.write);
    }

    method HandleDeploying(name: string, target: Target, o: Outcomes) returns (ok: bool)
      modifies this
      ensures OthersKept(name, old(appPhases), old(stored))
      ensures var s := Handle(Deploying, old(CellOf(name)), target, o); CellOf(name) == s.cell && ok == s.ok
    {
      var targets := FindTargetDevices(target, o.listing);
      if targets.None? {
        return false;
      }
      if targets.value == [] {
        return true;
      }
      var status := DeployToAll(targets.value, o.replies);
      ok := UpdateApplicationStatus(name, status, o.write);
    }

    method HandleFailed(name: string, target: Target, o: Outcomes) returns (ok: bool)
      modifies this
      ensures OthersKept(name, old(appPhases), old(stored))
      ensures var s := Handle(Failed, old(CellOf(name)), target, o); CellOf(name) == s.cell && ok == s.ok
    {
      var targets := FindTargetDevices(target, o.listing);
      if targets.None? {
        return false;
      }
      if targets.value == [] {
        return true;
      }
      var hasConnected := false;
      for i := 0 to |targets.value|
        invariant !hasConnected
        invariant forall j :: 0 <= j < i ==> targets.value[j].phase != Some(Connected)
      {
        if targets.value[i].phase == Some(Connected) {
          hasConnected := true;
          break;
        }
      }
      ok := true;
      if hasConnected {
        ok := UpdateApplicationStatus(name, StartOver(|targets.value|), o.write);
      }
    }

    method HandleStopping(name: string, o: Outcomes) returns (ok: bool)
      modifies this
      ensures OthersKept(name, old(appPhases), old(stored))
      ensures forall target ::
        var s := Handle(Stopping, old(CellOf(name)), target, o); CellOf(name) == s.cell && ok == s.ok
    {
      appPhases := appPhases[name := Stopping];
      ok := UpdateApplicationStatus(name, AppStatus(Stopped, None, None, None), o.write);
    }

    /** One reconcile of one application: it does what `Reconciled` says and touches no other. */
    method Reconcile(name: string, target: Target, o: Outcomes) returns (ok: bool)
      modifies this
      ensures OthersKept(name, old(appPhases), old(stored))
      ensures var s := Reconciled(old(CellOf(name)), target, o); CellOf(name) == s.cell && ok == s.ok
    {
      if !o.fetched {
        return false;
      }
      var phase := if name in appPhases && appPhases[name] != Creating then appPhases[name] else Creating;
      match phase {
        case Creating => ok := HandleCreating(name, target, o);
        case Deploying => ok := HandleDeploying(name, target, o);
        case Running => ok := UpdateApplicationStatus(name, AppStatus(Running, None, None, None), o.write);
        case PartiallyRunning => ok := true;
        case Failed => ok := HandleFailed(name, target, o);
        case Stopping => ok := HandleStopping(name, o);
        case Stopped =>
          appPhases := appPhases[name := Stopped];
          ok := true;
        case Deleting =>
          appPhases := appPhases - {name};
          ok := true;
      }
    }
  }

  // ---------------------------------------------------------------- phase safety

  /** Each write is an allowed transition from the one before it. */
  ghost predicate AllowedChain(from: Phase, writes: seq<Phase>) {
    && (|writes| > 0 ==> ValidTransition(from, writes[0]))
    && forall i :: 0 < i < |writes| ==> ValidTransition(writes[i - 1], writes[i])
  }

  /** Whatever phase is dispatched, on whatever cell and with whatever outcomes, the handler writes
      only phases the resource allows, and the cache ends on the last of them unless the write was lost. */
  lemma PhaseSafety(phase: Phase, c: Cell, target: Target, o: Outcomes)
    ensures var s := Handle(phase, c, target, o);
      AllowedChain(phase, s.writes) && (s.writes != [] && s.ok ==> s.cell.cached == Some(s.writes[|s.writes| - 1]))
  {
    if phase == Deploying && o.listing.Some? && Matching(target, o.listing.value) != [] {
      AggregateIff(Matching(target, o.listing.value), o.replies);
    }
  }

  /** What a landed write of each handler leaves at the server. A start and a restart publish Deploying with
      the number of targets and nothing else. */
  lemma Publishes(c: Cell, target: Target, o: Outcomes)
    requires o.fetched && Lands(o.write)
    ensures var s := Reconciled(c, target, o);
      var ts := if o.listing.Some? then Matching(target, o.listing.value) else [];
      && (Dispatched(c) == Creating && ts != [] ==>
            && s.cell.stored == Some(AppStatus(Deploying, None, Some(Statistics(|ts|, 0, 0, 0, 0)), None))
            && s.cell.cached == Some(Deploying))
      && (Dispatched(c) == Failed && (exists i :: 0 <= i < |ts| && ts[i].phase == Some(Connected)) ==>
            && s.cell.stored == Some(AppStatus(Deploying, None, Some(Statistics(|ts|, 0, 0, 0, 0)), None))
            && s.cell.cached == Some(Deploying))
      && (Dispatched(c) == Stopping ==>
            s.cell == Cell(Some(Stopped), Some(AppStatus(Stopped, None, None, None))))
      && (Dispatched(c) == Stopped ==> s.cell == c)
      && (Dispatched(c) == Deleting ==> s.cell == c.(cached := None))
      && (Dispatched(c) == PartiallyRunning ==> s.cell == c)
  {
  }

  /** A write is kept by the server if the status patch succeeds, or the plain one and the server takes it. */
  lemma LandsIff(c: Cell, writes: seq<Phase>, status: AppStatus, w: Write)
    ensures var s := Publish(c, writes, status, w);
      && (s.ok <==> w != Lost) && (w == Lost ==> s.cell == c)
      && (w == ByPlain(false) ==> s.cell == c.(cached := Some(status.phase)))
      && (w == ByStatus || w == ByPlain(true) ==>
            s.cell.cached == Some(status.phase) && s.cell.stored.Some? && s.cell.stored.value.phase == status.phase)
  {
  }

  /** Past Creating, only deletion takes the cache back to where Creating is dispatched. */
  lemma NeverBackToCreating(c: Cell, target: Target, o: Outcomes)
    requires Dispatched(c) != Creating
    ensures Dispatched(Reconciled(c, target, o).cell) == Creating <==> Dispatched(c) == Deleting && o.fetched
  {
  }

  datatype Round = Round(target: Target, outcomes: Outcomes)

  /** What happens to one application: a reconcile, or a status patch of the gateway. The patch
      carries the entries the gateway read, however long ago, and the one it reports. */
  datatype Turn =
    | Reconcile(round: Round)
    | GatewayPatch(phase: Phase, entries: map<string, Report>, error: Option<Message>)

  function EntriesOf(c: Cell): map<string, Report> {
    if c.stored.Some? && c.stored.value.entries.Some? then c.stored.value.entries.value else map[]
  }

  /** The gateway leaves an absent error out of an entry, so the merge keeps the stored one. */
  function MergedEntry(was: Report, patch: Report): Report {
    if patch.error.None? then patch.(error := was.error) else patch
  }

  function MergedEntries(was: map<string, Report>, patch: map<string, Report>): map<string, Report> {
    map name | name in was.Keys + patch.Keys ::
      if name !in patch then was[name]
      else if name in was then MergedEntry(was[name], patch[name])
      else patch[name]
  }

  /** The gateway's patch merges its entries into the stored ones and leaves the statistics. */
  function Patched(c: Cell, t: Turn): Cell
    requires t.GatewayPatch?
  {
    c.(stored := Some(AppStatus(t.phase, Some(MergedEntries(EntriesOf(c), t.entries)),
                                if c.stored.Some? then c.stored.value.statistics else None, t.error)))
  }

  /** The gateway's patch sets phase and error, leaves the cache and the statistics, and takes away no entry. */
  lemma PatchStores(c: Cell, t: Turn)
    requires t.GatewayPatch?
    ensures var p := Patched(c, t);
      && p.cached == c.cached && p.stored.Some? && p.stored.value.phase == t.phase && p.stored.value.error == t.error
      && p.stored.value.statistics == (if c.stored.Some? then c.stored.value.statistics else None)
      && EntriesOf(p).Keys == EntriesOf(c).Keys + t.entries.Keys
      && (forall name :: name in t.entries ==> EntriesOf(p)[name].status == t.entries[name].status)
      && (forall name :: name in EntriesOf(c) && name !in t.entries ==> EntriesOf(p)[name] == EntriesOf(c)[name])
  {
  }

  function Taken(c: Cell, t: Turn): Cell {
    match t
    case Reconcile(round) => Reconciled(c, round.target, round.outcomes).cell
    case GatewayPatch(_, _, _) => Patched(c, t)
  }

  function RunCell(c: Cell, turns: seq<Turn>): Cell {
    if |turns| == 0 then c else Taken(RunCell(c, turns[..|turns| - 1]), turns[|turns| - 1])
  }

  lemma RunNext(c: Cell, turns: seq<Turn>, t: Turn)
    ensures RunCell(c, turns + [t]) == Taken(RunCell(c, turns), t)
  {
    assert (turns + [t])[..|turns|] == turns;
  }

  predicate Working(c: Cell) {
    c.cached.None? || c.cached.value in {Deploying, Running, PartiallyRunning, Failed}
  }

  /** From an empty cache, whatever the server holds, only Deploying, Running, PartiallyRunning and
      Failed are ever cached. */
  lemma {:induction false} OnlyWorkingPhases(stored: Option<AppStatus>, turns: seq<Turn>)
    ensures Working(RunCell(Cell(None, stored), turns))
  {
    if |turns| > 0 {
      OnlyWorkingPhases(stored, turns[..|turns| - 1]);
    }
  }

  function OnlyPatches(turns: seq<Turn>): seq<Turn> {
    if |turns| == 0 then []
    else
      var n := |turns| - 1;
      OnlyPatches(turns[..n]) + (if turns[n].GatewayPatch? then [turns[n]] else [])
  }

  /** The controller never touches an application that runs partially again, whatever its devices do:
      only the gateway's patches have any effect. */
  lemma {:induction false} PartialIsFinal(c: Cell, turns: seq<Turn>)
    requires c.cached == Some(PartiallyRunning)
    ensures RunCell(c, turns) == RunCell(c, OnlyPatches(turns)) && RunCell(c, turns).cached == c.cached
  {
    if |turns| > 0 {
      var n := |turns| - 1;
      PartialIsFinal(c, turns[..n]);
      if turns[n].GatewayPatch? {
        RunNext(c, OnlyPatches(turns[..n]), turns[n]);
      } else {
        assert OnlyPatches(turns[..n]) + [] == OnlyPatches(turns[..n]);
      }
    }
  }

  // ---------------------------------------------------------------- reaching Running

  ghost predicate Delivered(target: Target, o: Outcomes) {
    && o.fetched && o.listing.Some? && o.write != Lost
    && Matching(target, o.listing.value) != []
    && forall i :: 0 <= i < |Matching(target, o.listing.value)| ==>
         Matching(target, o.listing.value)[i].phase == Some(Connected) && o.replies(i).None?
  }

  /** A reconcile of a deploying application ends Running exactly when every target is connected
      and accepts the module, and the status write is not lost. */
  lemma DeployingRunsIff(c: Cell, target: Target, o: Outcomes)
    requires c.cached == Some(Deploying)
    ensures Reconciled(c, target, o).cell.cached == Some(Running) <==> Delivered(target, o)
  {
    if o.fetched && o.listing.Some? && Matching(target, o.listing.value) != [] {
      var ts := Matching(target, o.listing.value);
      AggregateIff(ts, o.replies);
      assert forall i :: 0 <= i < |ts| ==>
        (Reports(ts, o.replies)[i].Runs() <==> ts[i].phase == Some(Connected) && o.replies(i).None?);
    }
  }

  ghost predicate Begins(c: Cell, target: Target, o: Outcomes) {
    && o.fetched && o.listing.Some?
    && var ts := Matching(target, o.listing.value);
      if c.cached == Some(Failed) then o.write != Lost && exists i :: 0 <= i < |ts| && ts[i].phase == Some(Connected)
      else ts != []
  }

  lemma {:induction false} PatchesKeepCache(c: Cell, turns: seq<Turn>)
    requires forall i :: 0 <= i < |turns| ==> turns[i].GatewayPatch?
    ensures RunCell(c, turns).cached == c.cached
  {
    if |turns| > 0 {
      PatchesKeepCache(c, turns[..|turns| - 1]);
    }
  }

  /** From nothing cached or from Failed, two reconciles reach Running exactly when the first finds
      targets (connected ones after a failure) and the second delivers to all of them, whatever the
      gateway patches in between. */
  lemma RunningInTwoIff(c: Cell, first: Round, between: seq<Turn>, second: Round)
    requires Dispatched(c) == Creating || Dispatched(c) == Failed
    requires forall i :: 0 <= i < |between| ==> between[i].GatewayPatch?
    ensures Taken(RunCell(Taken(c, Reconcile(first)), between), Reconcile(second)).cached == Some(Running) <==>
      Begins(c, first.target, first.outcomes) && Delivered(second.target, second.outcomes)
  {
    var started := Taken(c, Reconcile(first));
    var middle := RunCell(started, between);
    PatchesKeepCache(started, between);
    if Begins(c, first.target, first.outcomes) {
      DeployingRunsIff(middle, second.target, second.outcomes);
    } else {
      assert started == c;
    }
  }

  // ---------------------------------------------------------------- what the server holds

  /** The entries of a round's deployment. */
  function EntriesBy(round: Round): map<string, Report> {
    if round.outcomes.listing.None? then map[]
    else
      var ts := Matching(round.target, round.outcomes.listing.value);
      Entries(ts, Reports(ts, round.outcomes.replies))
  }

  /** What a turn does to one part of a device's entry at the server. */
  function FieldOp<V>(c: Cell, t: Turn, name: string, pick: Report -> Option<V>): Op<V> {
    match t
    case GatewayPatch(_, entries, _) =>
      if name in entries && pick(entries[name]).Some? then Put(pick(entries[name]).value) else Keep
    case Reconcile(round) =>
      if !round.outcomes.fetched || !Lands(round.outcomes.write) then Keep
      else FieldWrite(Dispatched(c), c, round, name, pick)
  }

  /** What a handler's landed write does to it: a deployment reports its targets, every other write
      removes all entries. */
  function FieldWrite<V>(phase: Phase, c: Cell, round: Round, name: string, pick: Report -> Option<V>): Op<V> {
    var s := Handle(phase, c, round.target, round.outcomes);
    if s.writes == [] || phase == Stopped then Keep
    else if phase == Deploying then
      if name !in EntriesBy(round) then Keep
      else if pick(EntriesBy(round)[name]).Some? then Put(pick(EntriesBy(round)[name]).value)
      else Clear
    else Clear
  }

  function Held<V>(c: Cell, name: string, pick: Report -> Option<V>): Option<V> {
    if name in EntriesOf(c) then pick(EntriesOf(c)[name]) else None
  }

  /** A part that a patch without it leaves alone. */
  ghost predicate Survives<V>(pick: Report -> Option<V>) {
    forall was, patch :: pick(MergedEntry(was, patch)) == if pick(patch).Some? then pick(patch) else pick(was)
  }

  /** Publishing a status without entries removes them all; one with entries adds them. */
  lemma PublishedField<V>(c: Cell, writes: seq<Phase>, status: AppStatus, w: Write, name: string,
                          pick: Report -> Option<V>)
    ensures Held(Publish(c, writes, status, w).cell, name, pick) ==
      if !Lands(w) then Held(c, name, pick)
      else if status.entries.None? then None
      else if name in status.entries.value then pick(status.entries.value[name])
      else Held(c, name, pick)
  {
  }

  lemma DeployingField<V>(c: Cell, round: Round, name: string, pick: Report -> Option<V>)
    requires c.cached == Some(Deploying)
    ensures Held(Taken(c, Reconcile(round)), name, pick)
      == Apply(Held(c, name, pick), FieldOp(c, Reconcile(round), name, pick))
  {
    var o := round.outcomes;
    if o.fetched && o.listing.Some? && Matching(round.target, o.listing.value) != [] {
      var ts := Matching(round.target, o.listing.value);
      PublishedField(c, [], Aggregate(ts, Reports(ts, o.replies)), o.write, name, pick);
    }
  }

  lemma StartField<V>(c: Cell, round: Round, name: string, pick: Report -> Option<V>)
    requires Dispatched(c) == Creating || Dispatched(c) == Failed
    ensures Held(Taken(c, Reconcile(round)), name, pick)
      == Apply(Held(c, name, pick), FieldOp(c, Reconcile(round), name, pick))
  {
    var o := round.outcomes;
    if o.fetched && o.listing.Some? {
      var n := |Matching(round.target, o.listing.value)|;
      PublishedField(c.(cached := Some(Deploying)), [Deploying], StartOver(n), o.write, name, pick);
      PublishedField(c, [], StartOver(n), o.write, name, pick);
    }
  }

  lemma RunningField<V>(c: Cell, round: Round, name: string, pick: Report -> Option<V>)
    requires c.cached == Some(Running) || c.cached == Some(PartiallyRunning)
    ensures Held(Taken(c, Reconcile(round)), name, pick)
      == Apply(Held(c, name, pick), FieldOp(c, Reconcile(round), name, pick))
  {
    PublishedField(c, [], AppStatus(Running, None, None, None), round.outcomes.write, name, pick);
  }

  lemma FieldStep<V>(c: Cell, t: Turn, name: string, pick: Report -> Option<V>)
    requires Working(c) && Survives(pick)
    ensures Held(Taken(c, t), name, pick) == Apply(Held(c, name, pick), FieldOp(c, t, name, pick))
  {
    if t.Reconcile? {
      var phase := Dispatched(c);
      if phase == Deploying {
        DeployingField(c, t.round, name, pick);
      } else if phase == Creating || phase == Failed {
        StartField(c, t.round, name, pick);
      } else {
        RunningField(c, t.round, name, pick);
      }
    }
  }

  /** What every turn of a run does to it, after what was stored before. */
  function FieldOps<V>(
    stored: Option<AppStatus>, turns: seq<Turn>, name: string, pick: Report -> Option<V>): seq<Op<V>>
  {
    var c := Cell(None, stored);
    if |turns| == 0 then
      [if Held(c, name, pick).Some? then Put(Held(c, name, pick).value) else Clear]
    else
      var n := |turns| - 1;
      FieldOps(stored, turns[..n], name, pick) + [FieldOp(RunCell(c, turns[..n]), turns[n], name, pick)]
  }

  /** Over every run from an empty cache: part of an entry has a value exactly when that was the last
      one written and nothing removed it since. */
  lemma {:induction false} FieldIff<V>(
    stored: Option<AppStatus>, turns: seq<Turn>, name: string, pick: Report -> Option<V>, v: V)
    requires Survives(pick)
    ensures Held(RunCell(Cell(None, stored), turns), name, pick) == Some(v) <==>
      Holds(FieldOps(stored, turns, name, pick), v)
  {
    if |turns| == 0 {
      var ops := FieldOps(stored, turns, name, pick);
      assert LastWrite(ops, 0, v) <==> ops[0] == Put(v);
    } else {
      var n := |turns| - 1;
      var before := RunCell(Cell(None, stored), turns[..n]);
      FieldIff(stored, turns[..n], name, pick, v);
      OnlyWorkingPhases(stored, turns[..n]);
      FieldStep(before, turns[n], name, pick);
      HoldsStep(FieldOps(stored, turns[..n], name, pick), FieldOp(before, turns[n], name, pick), v);
    }
  }

  // ---------------------------------------------------------------- an old error

  function StatusPart(): Report -> Option<DeviceAppPhase> { (r: Report) => Some(r.status) }

  function ErrorPart(): Report -> Option<string> { (r: Report) => r.error }

  /** Over every run: the server shows a device as running with error `e` exactly when the last status
      written is running and the last error written, since anything removed one, is `e`. A patch of the
      gateway without an error counts for the first and not for the second. */
  lemma RunningWithErrorIff(stored: Option<AppStatus>, turns: seq<Turn>, name: string, e: string)
    ensures var entries := EntriesOf(RunCell(Cell(None, stored), turns));
      name in entries && entries[name] == Report(AppRunning, Some(e)) <==>
        && Holds(FieldOps(stored, turns, name, StatusPart()), AppRunning)
        && Holds(FieldOps(stored, turns, name, ErrorPart()), e)
  {
    FieldIff(stored, turns, name, StatusPart(), AppRunning);
    FieldIff(stored, turns, name, ErrorPart(), e);
  }

  // ---------------------------------------------------------------- entries left over

  /** An entry as a whole. */
  function Presence(): Report -> Option<()> { (_: Report) => Some(()) }

  /** Something put an entry of that name there, and no later turn removed it. */
  ghost predicate Leftover(stored: Option<AppStatus>, turns: seq<Turn>, name: string) {
    Holds(FieldOps(stored, turns, name, Presence()), ())
  }

  /** Over every run from an empty cache: the server holds an entry exactly when some turn, or what
      was stored before, put it there and nothing removed it since. */
  lemma EntryIff(stored: Option<AppStatus>, turns: seq<Turn>, name: string)
    ensures name in EntriesOf(RunCell(Cell(None, stored), turns)) <==> Leftover(stored, turns, name)
  {
    FieldIff(stored, turns, name, Presence(), ());
  }

  predicate NamedTarget(round: Round, name: string) {
    round.outcomes.listing.Some? && Named(Matching(round.target, round.outcomes.listing.value), name)
  }

  /** A deployment that the server is told of. */
  ghost predicate Reporting(c: Cell, round: Round) {
    var o := round.outcomes;
    && c.cached == Some(Deploying) && o.fetched && Lands(o.write)
    && o.listing.Some? && Matching(round.target, o.listing.value) != []
  }

  function ReportBy(round: Round): AppStatus
    requires round.outcomes.listing.Some?
  {
    var ts := Matching(round.target, round.outcomes.listing.value);
    Aggregate(ts, Reports(ts, round.outcomes.replies))
  }

  lemma ReportMerges(c: Cell, round: Round)
    requires Reporting(c, round)
    ensures Taken(c, Reconcile(round)).stored == Some(ReportBy(round)) <==>
      forall name :: name in EntriesOf(c) ==> NamedTarget(round, name)
  {
    var o := round.outcomes;
    var ts := Matching(round.target, o.listing.value);
    var was, now := EntriesOf(c), Entries(ts, Reports(ts, o.replies));
    forall name {
      EntriesNames(ts, Reports(ts, o.replies), name);
    }
    if forall name :: name in was ==> NamedTarget(round, name) {
      assert was + now == now;
    } else {
      var name :| name in was && !NamedTarget(round, name);
      assert name in was + now && name !in now;
    }
  }

  /** Over every run, whatever the server held at first and whatever the gateway patched: a deployment
      leaves the server with exactly its own targets' report if and only if nothing is left over of
      an entry for any other device. */
  lemma ReportIsCurrentIff(stored: Option<AppStatus>, turns: seq<Turn>, last: Round)
    requires Reporting(RunCell(Cell(None, stored), turns), last)
    ensures RunCell(Cell(None, stored), turns + [Reconcile(last)]).stored == Some(ReportBy(last)) <==>
      forall name :: Leftover(stored, turns, name) ==> NamedTarget(last, name)
  {
    var c := Cell(None, stored);
    RunNext(c, turns, Reconcile(last));
    ReportMerges(RunCell(c, turns), last);
    forall name
      ensures name in EntriesOf(RunCell(c, turns)) <==> Leftover(stored, turns, name)
    {
      EntryIff(stored, turns, name);
    }
  }

  /** A round that finds targets and publishes a fresh start, which lands. */
  ghost predicate StartsOver(c: Cell, round: Round) {
    Begins(c, round.target, round.outcomes) && Lands(round.outcomes.write)
    && (Dispatched(c) == Creating || Dispatched(c) == Failed)
  }

  /** So it does whenever the application was started over, the write landed, and the gateway has not
      patched it since. */
  lemma ReportIsCurrent(stored: Option<AppStatus>, turns: seq<Turn>, start: Round, last: Round)
    requires StartsOver(RunCell(Cell(None, stored), turns), start)
    requires last.outcomes.fetched && Lands(last.outcomes.write) && last.outcomes.listing.Some?
    requires Matching(last.target, last.outcomes.listing.value) != []
    ensures RunCell(Cell(None, stored), turns + [Reconcile(start)] + [Reconcile(last)]).stored == Some(ReportBy(last))
  {
    var c := Cell(None, stored);
    RunNext(c, turns, Reconcile(start));
    RunNext(c, turns + [Reconcile(start)], Reconcile(last));
    ReportMerges(RunCell(c, turns + [Reconcile(start)]), last);
  }

  /** A restarted controller whose first write is lost merges its report into the old one. */
  lemma {:induction false} RestartKeepsOldEntries(former: AppStatus, first: Round, second: Round, name: string)
    requires former.entries.Some? && name in former.entries.value && !NamedTarget(second, name)
    requires Begins(Cell(None, Some(former)), first.target, first.outcomes) && first.outcomes.write == Lost
    requires second.outcomes.fetched && Lands(second.outcomes.write) && second.outcomes.listing.Some?
    requires Matching(second.target, second.outcomes.listing.value) != []
    ensures var end := RunCell(Cell(None, Some(former)), [Reconcile(first)] + [Reconcile(second)]);
      name in EntriesOf(end) && end.stored != Some(ReportBy(second))
  {
    var c := Cell(None, Some(former));
    RunNext(c, [], Reconcile(first));
    assert [] + [Reconcile(first)] == [Reconcile(first)];
    RunNext(c, [Reconcile(first)], Reconcile(second));
    var middle := RunCell(c, [Reconcile(first)]);
    assert middle == Cell(Some(Deploying), Some(former));
    ReportMerges(middle, second);
  }

  /** A patch of the gateway between start and deployment puts the entry of a former target back. */
  lemma {:induction false} TelemetryRestoresEntry(c: Cell, start: Round, patch: Turn, last: Round, name: string)
    requires StartsOver(c, start) && patch.GatewayPatch? && name in patch.entries && !NamedTarget(last, name)
    requires last.outcomes.fetched && Lands(last.outcomes.write) && last.outcomes.listing.Some?
    requires Matching(last.target, last.outcomes.listing.value) != []
    ensures var end := Taken(Taken(Taken(c, Reconcile(start)), patch), Reconcile(last));
      name in EntriesOf(end) && end.stored != Some(ReportBy(last))
  {
    var middle := Taken(Taken(c, Reconcile(start)), patch);
    assert middle.cached == Some(Deploying) && name in EntriesOf(middle);
    ReportMerges(middle, last);
  }

  /** After a deployment to a device has failed, telemetry without an error leaves the old error in
      the entry that now says running. */
  lemma {:induction false} FailureOutlivesTelemetry(c: Cell, round: Round, patch: Turn, name: string, e: string)
    requires Reporting(c, round) && name in EntriesBy(round) && EntriesBy(round)[name] == Report(AppFailed, Some(e))
    requires patch.GatewayPatch? && name in patch.entries && patch.entries[name] == Report(AppRunning, None)
    ensures var entries := EntriesOf(Taken(Taken(c, Reconcile(round)), patch));
      name in entries && entries[name] == Report(AppRunning, Some(e))
  {
    DeployingField(c, round, name, ErrorPart());
  }

  /** A reconcile of a running application writes to the server every time, and erases the
      per-device report and the statistics it holds. */
  lemma RunningErasesReport(c: Cell, target: Target, o: Outcomes)
    requires c.cached == Some(Running) && o.fetched
    ensures var s := Reconciled(c, target, o);
      && s.writes == [Running]
      && (Lands(o.write) ==> s.cell.stored == Some(AppStatus(Running, None, None, None)))
  {
  }

  // ---------------------------------------------------------------- many applications

  datatype Books = Books(phases: map<string, Phase>, stored: map<string, AppStatus>)

  datatype Visit = Visit(name: string, turn: Turn)

  function CellIn(b: Books, name: string): Cell { Cell(Get(b.phases, name), Get(b.stored, name)) }

  function Filed<V>(m: map<string, V>, name: string, v: Option<V>): map<string, V> {
    if v.Some? then m[name := v.value] else m - {name}
  }

  function Visited(b: Books, v: Visit): Books {
    var c := Taken(CellIn(b, v.name), v.turn);
    Books(Filed(b.phases, v.name, c.cached), Filed(b.stored, v.name, c.stored))
  }

  function RunBooks(b: Books, vs: seq<Visit>): Books {
    if |vs| == 0 then b else Visited(RunBooks(b, vs[..|vs| - 1]), vs[|vs| - 1])
  }

  function TurnsOf(vs: seq<Visit>, name: string): seq<Turn> {
    if |vs| == 0 then []
    else
      var v := vs[|vs| - 1];
      TurnsOf(vs[..|vs| - 1], name) + (if v.name == name then [v.turn] else [])
  }

  /** Over any interleaving of reconciles and patches, each application fares as if it were alone. */
  lemma {:induction false} Independent(b: Books, vs: seq<Visit>, name: string)
    ensures CellIn(RunBooks(b, vs), name) == RunCell(CellIn(b, name), TurnsOf(vs, name))
  {
    if |vs| > 0 {
      var n := |vs| - 1;
      Independent(b, vs[..n], name);
      var turns := TurnsOf(vs[..n], name);
      if vs[n].name == name {
        RunNext(CellIn(b, name), turns, vs[n].turn);
      } else {
        assert turns + [] == turns;
      }
    }
  }
}
