/** The firmware's registry of WebAssembly modules and instances: fixed slot arrays over a runtime
    that hands out and takes back handles. */
module Wamr {
  import opened Prelude

  const SLOTS := 16

  /** A runtime object; zero is NULL. */
  type Handle = nat

  datatype ModuleEntry = ModuleEntry(id: Word, handle: Handle, inUse: bool)

  datatype InstanceEntry = InstanceEntry(id: Word, handle: Handle, env: Handle, inUse: bool)

  const FREE_MODULE := ModuleEntry(0, 0, false)
  const FREE_INSTANCE := InstanceEntry(0, 0, 0, false)

  /** Why a registry call returned. */
  datatype Exit = Done | NotInitialized | BadParameters | NotFound | NoFreeSlot | RuntimeRefused

  // ---------------------------------------------------------------- handles held by slots

  /** The handle each slot holds, if it is in use. */
  type Column = seq<Option<Handle>>

  function ModuleColumn(ms: seq<ModuleEntry>): (c: Column)
    ensures |c| == |ms|
    ensures forall i :: 0 <= i < |ms| ==> c[i] == if ms[i].inUse then Some(ms[i].handle) else None
  {
    seq(|ms|, i requires 0 <= i < |ms| => if ms[i].inUse then Some(ms[i].handle) else None)
  }

  function InstanceColumn(es: seq<InstanceEntry>): (c: Column)
    ensures |c| == |es|
    ensures forall i :: 0 <= i < |es| ==> c[i] == if es[i].inUse then Some(es[i].handle) else None
  {
    seq(|es|, i requires 0 <= i < |es| => if es[i].inUse then Some(es[i].handle) else None)
  }

  function EnvColumn(es: seq<InstanceEntry>): (c: Column)
    ensures |c| == |es|
    ensures forall i :: 0 <= i < |es| ==> c[i] == if es[i].inUse then Some(es[i].env) else None
  {
    seq(|es|, i requires 0 <= i < |es| => if es[i].inUse then Some(es[i].env) else None)
  }

  /** `live` is exactly the set of handles in the column, each held once and none NULL. */
  ghost predicate Holds(c: Column, live: set<Handle>) {
    && (forall i :: 0 <= i < |c| && c[i].Some? ==> c[i].value in live && c[i].value != 0)
    && (forall h :: h in live ==> exists i :: 0 <= i < |c| && c[i] == Some(h))
    && (forall i, j :: 0 <= i < j < |c| && c[i].Some? && c[j].Some? ==> c[i].value != c[j].value)
  }

  lemma HoldsAdd(c: Column, live: set<Handle>, i: nat, h: Handle)
    requires Holds(c, live) && i < |c| && c[i] == None && h != 0 && h !in live
    ensures Holds(c[i := Some(h)], live + {h})
  {
    var d := c[i := Some(h)];
    forall g | g in live + {h} ensures exists k :: 0 <= k < |d| && d[k] == Some(g) {
      if g == h {
        assert d[i] == Some(g);
      } else {
        var k :| 0 <= k < |c| && c[k] == Some(g);
        assert d[k] == Some(g);
      }
    }
  }

  lemma HoldsDrop(c: Column, live: set<Handle>, i: nat)
    requires Holds(c, live) && i < |c| && c[i].Some?
    ensures Holds(c[i := None], live - {c[i].value})
  {
    var d := c[i := None];
    forall g | g in live - {c[i].value} ensures exists k :: 0 <= k < |d| && d[k] == Some(g) {
      var k :| 0 <= k < |c| && c[k] == Some(g);
      assert d[k] == Some(g);
    }
  }

  lemma HoldsNothing(c: Column, live: set<Handle>)
    requires Holds(c, live) && forall i :: 0 <= i < |c| ==> c[i] == None
    ensures live == {}
  {
  }

  // ---------------------------------------------------------------- ids

  /** The ids a counter that starts at one has given out, with `uint32_t` wrap-around. */
  ghost predicate Counted(ids: seq<Word>, next: Word) {
    && next == (1 + |ids|) % WRAP
    && forall k :: 0 <= k < |ids| ==> ids[k] == (1 + k) % WRAP
  }

  lemma CountOne(ids: seq<Word>, next: Word)
    requires Counted(ids, next)
    ensures Counted(ids + [next], Add32(next, 1))
  {
    var n := 1 + |ids|;
    assert (n % WRAP + 1) % WRAP == (n + 1) % WRAP;
  }

  /** Two issues of a counter carry the same id exactly when a multiple of 2^32 issues lies between. */
  lemma SameIdIff(ids: seq<Word>, next: Word, j: nat, k: nat)
    requires Counted(ids, next) && j <= k < |ids|
    ensures ids[j] == ids[k] <==> (k - j) % WRAP == 0
  {
    assert ids[j] == (1 + j) % WRAP && ids[k] == (1 + k) % WRAP;
    ModDifference(1 + j, 1 + k);
  }

  lemma ModDifference(a: nat, b: nat)
    requires a <= b
    ensures a % WRAP == b % WRAP <==> (b - a) % WRAP == 0
  {
    var qa, qb := a / WRAP, b / WRAP;
    assert a == qa * WRAP + a % WRAP && b == qb * WRAP + b % WRAP;
    if a % WRAP == b % WRAP {
      assert b - a == (qb - qa) * WRAP;
    }
    if (b - a) % WRAP == 0 {
      var q := (b - a) / WRAP;
      assert b == (qa + q) * WRAP + a % WRAP;
    }
  }

  /** Every in-use slot carries an id the counter issued, no two the same issue. */
  ghost predicate Stamped(ids: seq<Word>, stamps: seq<nat>, slotIds: seq<Option<Word>>) {
    && |stamps| == |slotIds|
    && (forall i :: 0 <= i < |slotIds| && slotIds[i].Some? ==> stamps[i] < |ids| && ids[stamps[i]] == slotIds[i].value)
    && (forall i, j :: 0 <= i < j < |slotIds| && slotIds[i].Some? && slotIds[j].Some? ==> stamps[i] != stamps[j])
  }

  /** So ids in use are distinct as long as the counter has not wrapped. */
  lemma SlotIdsDistinct(ids: seq<Word>, next: Word, stamps: seq<nat>, slotIds: seq<Option<Word>>, i: nat, j: nat)
    requires Counted(ids, next) && Stamped(ids, stamps, slotIds) && |ids| <= WRAP
    requires i < j < |slotIds| && slotIds[i].Some? && slotIds[j].Some?
    ensures slotIds[i] != slotIds[j]
  {
    var a, b := stamps[i], stamps[j];
    if a < b {
      SameIdIff(ids, next, a, b);
    } else {
      SameIdIff(ids, next, b, a);
    }
  }

  // ---------------------------------------------------------------- the registry as a value

  /** The runtime's own books: what is live, what was made from what, which ids were issued and
      which issue each slot carries. */
  datatype Books = Books(
    modules: set<Handle>, instances: set<Handle>, envs: set<Handle>,
    madeFrom: map<Handle, Handle>, envOf: map<Handle, Handle>,
    moduleIds: seq<Word>, instanceIds: seq<Word>, moduleStamps: seq<nat>, instanceStamps: seq<nat>)

  datatype State = State(
    initialized: bool, modules: seq<ModuleEntry>, instances: seq<InstanceEntry>,
    nextModule: Word, nextInstance: Word, books: Books)

  function ModuleIds(ms: seq<ModuleEntry>): (ids: seq<Option<Word>>)
    ensures |ids| == |ms|
    ensures forall i :: 0 <= i < |ms| ==> ids[i] == if ms[i].inUse then Some(ms[i].id) else None
  {
    seq(|ms|, i requires 0 <= i < |ms| => if ms[i].inUse then Some(ms[i].id) else None)
  }

  function InstanceIds(es: seq<InstanceEntry>): (ids: seq<Option<Word>>)
    ensures |ids| == |es|
    ensures forall i :: 0 <= i < |es| ==> ids[i] == if es[i].inUse then Some(es[i].id) else None
  {
    seq(|es|, i requires 0 <= i < |es| => if es[i].inUse then Some(es[i].id) else None)
  }

  /** Ownership: live handles are exactly those of in-use slots, instances outlive neither their
      module nor their environment's record, and nothing is in use before initialization. */
  ghost predicate Owned(st: State) {
    && |st.modules| == SLOTS && |st.instances| == SLOTS
    && Holds(ModuleColumn(st.modules), st.books.modules)
    && Holds(InstanceColumn(st.instances), st.books.instances)
    && Holds(EnvColumn(st.instances), st.books.envs)
    && (forall h :: h in st.books.instances ==> h in st.books.madeFrom && st.books.madeFrom[h] in st.books.modules)
    && (forall i :: 0 <= i < SLOTS && st.instances[i].inUse ==>
          st.instances[i].env in st.books.envOf && st.books.envOf[st.instances[i].env] == st.instances[i].handle)
    && (!st.initialized ==> Idle(st))
  }

  /** Ids: both counters are where their issues put them, and slots carry distinct issues. */
  ghost predicate Numbered(st: State) {
    && Counted(st.books.moduleIds, st.nextModule)
    && Counted(st.books.instanceIds, st.nextInstance)
    && Stamped(st.books.moduleIds, st.books.moduleStamps, ModuleIds(st.modules))
    && Stamped(st.books.instanceIds, st.books.instanceStamps, InstanceIds(st.instances))
  }

  ghost predicate Sound(st: State) { Owned(st) && Numbered(st) }

  /** No slot is in use. */
  predicate Idle(st: State) {
    (forall i :: 0 <= i < |st.modules| ==> !st.modules[i].inUse)
    && (forall i :: 0 <= i < |st.instances| ==> !st.instances[i].inUse)
  }

  /** The registry at power-on. */
  function Boot(): State {
    State(false, seq(SLOTS, _ => FREE_MODULE), seq(SLOTS, _ => FREE_INSTANCE), 1, 1,
          Books({}, {}, {}, map[], map[], [], [], seq(SLOTS, _ => 0), seq(SLOTS, _ => 0)))
  }

  /** First slot of each kind that is free; `SLOTS` when none is. */
  function FreeModule(ms: seq<ModuleEntry>, from: nat): (i: nat)
    requires from <= |ms|
    ensures from <= i <= |ms| && (i < |ms| ==> !ms[i].inUse) && forall k :: from <= k < i ==> ms[k].inUse
    decreases |ms| - from
  {
    if from == |ms| || !ms[from].inUse then from else FreeModule(ms, from + 1)
  }

  function FreeInstance(es: seq<InstanceEntry>, from: nat): (i: nat)
    requires from <= |es|
    ensures from <= i <= |es| && (i < |es| ==> !es[i].inUse) && forall k :: from <= k < i ==> es[k].inUse
    decreases |es| - from
  {
    if from == |es| || !es[from].inUse then from else FreeInstance(es, from + 1)
  }

  /** The slot of the module with this id; `SLOTS` when there is none. */
  function FindModule(ms: seq<ModuleEntry>, id: Word, from: nat): (i: nat)
    requires from <= |ms|
    ensures from <= i <= |ms| && (i < |ms| ==> ms[i].inUse && ms[i].id == id)
    ensures forall k :: from <= k < i ==> !(ms[k].inUse && ms[k].id == id)
    decreases |ms| - from
  {
    if from == |ms| || (ms[from].inUse && ms[from].id == id) then from else FindModule(ms, id, from + 1)
  }

  /** Calls on the registry, with what the runtime answers (NULL or a handle). */
  datatype Call =
    | Init(ok: bool)
    | Load(size: nat, loaded: Handle)
    | Instantiate(moduleId: Word, made: Handle, env: Handle)
    | UnloadAll
    | Cleanup

  /** A handle the runtime returns is not one it has already given out and not taken back. */
  ghost predicate Fresh(b: Books, c: Call) {
    match c
    case Load(_, loaded) => loaded != 0 ==> loaded !in b.modules
    case Instantiate(_, made, env) => (made != 0 ==> made !in b.instances) && (env != 0 ==> env !in b.envs)
    case _ => true
  }

  function LoadExit(st: State, size: nat, loaded: Handle): Exit {
    if !st.initialized then NotInitialized
    else if size == 0 then BadParameters
    else if FreeModule(st.modules, 0) == |st.modules| then NoFreeSlot
    else if loaded == 0 then RuntimeRefused
    else Done
  }

  function Stamp(stamps: seq<nat>, i: nat, issue: nat): seq<nat> {
    if i < |stamps| then stamps[i := issue] else stamps
  }

  function Loaded(st: State, size: nat, loaded: Handle): State {
    if LoadExit(st, size, loaded) != Done then st
    else
      var i, b := FreeModule(st.modules, 0), st.books;
      st.(modules := st.modules[i := ModuleEntry(st.nextModule, loaded, true)],
          nextModule := Add32(st.nextModule, 1),
          books := b.(modules := b.modules + {loaded}, moduleIds := b.moduleIds + [st.nextModule],
                      moduleStamps := Stamp(b.moduleStamps, i, |b.moduleIds|)))
  }

  function InstantiateExit(st: State, moduleId: Word, made: Handle, env: Handle): Exit {
    if !st.initialized then NotInitialized
    else if FindModule(st.modules, moduleId, 0) == |st.modules| then NotFound
    else if FreeInstance(st.instances, 0) == |st.instances| then NoFreeSlot
    else if made == 0 || env == 0 then RuntimeRefused
    else Done
  }

  /** An instance whose environment cannot be made is taken back; only the runtime remembers it. */
  function Instantiated(st: State, moduleId: Word, made: Handle, env: Handle): State {
    var exit := InstantiateExit(st, moduleId, made, env);
    if exit == RuntimeRefused && made != 0 then
      var origin := st.modules[FindModule(st.modules, moduleId, 0)].handle;
      st.(books := st.books.(madeFrom := st.books.madeFrom[made := origin]))
    else if exit != Done then st
    else
      var m, i, b := FindModule(st.modules, moduleId, 0), FreeInstance(st.instances, 0), st.books;
      st.(instances := st.instances[i := InstanceEntry(st.nextInstance, made, env, true)],
          nextInstance := Add32(st.nextInstance, 1),
          books := WithInstance(b, st.modules[m].handle, i, made, env, st.nextInstance))
  }

  function WithInstance(b: Books, origin: Handle, slot: nat, made: Handle, env: Handle, id: Word): Books {
    b.(instances := b.instances + {made}, envs := b.envs + {env},
       madeFrom := b.madeFrom[made := origin], envOf := b.envOf[env := made],
       instanceIds := b.instanceIds + [id], instanceStamps := Stamp(b.instanceStamps, slot, |b.instanceIds|))
  }

  function Released(st: State, wipe: bool): State {
    st.(modules := seq(|st.modules|, i requires 0 <= i < |st.modules| => ReleaseModule(st.modules[i], wipe)),
        instances := seq(|st.instances|, i requires 0 <= i < |st.instances| => ReleaseInstance(st.instances[i], wipe)),
        books := st.books.(modules := {}, instances := {}, envs := {}))
  }

  function ReleaseModule(m: ModuleEntry, wipe: bool): ModuleEntry {
    if !m.inUse then m else m.(inUse := false, handle := if wipe then 0 else m.handle)
  }

  function ReleaseInstance(e: InstanceEntry, wipe: bool): InstanceEntry {
    if !e.inUse then e else
      e.(inUse := false, handle := if wipe then 0 else e.handle, env := if wipe then 0 else e.env)
  }

  function Apply(st: State, c: Call): State {
    match c
    case Init(ok) =>
      if st.initialized || !ok then st
      else
        st.(initialized := true,
            modules := seq(SLOTS, _ => FREE_MODULE), instances := seq(SLOTS, _ => FREE_INSTANCE))
    case Load(size, loaded) => Loaded(st, size, loaded)
    case Instantiate(moduleId, made, env) => Instantiated(st, moduleId, made, env)
    case UnloadAll => if st.initialized then Released(st, true) else st
    case Cleanup => if st.initialized then Released(st, false).(initialized := false) else st
  }

  // ---------------------------------------------------------------- soundness of every call

  lemma IdleOwned(st: State, was: State)
    requires Owned(was) && Idle(st) && |st.modules| == SLOTS && |st.instances| == SLOTS
    requires st.books == was.books.(modules := {}, instances := {}, envs := {})
    ensures Owned(st)
  {
  }

  lemma LoadedOwned(st: State, size: nat, loaded: Handle)
    requires Owned(st) && Fresh(st.books, Load(size, loaded))
    ensures Owned(Loaded(st, size, loaded))
  {
    if LoadExit(st, size, loaded) == Done {
      var i, after := FreeModule(st.modules, 0), Loaded(st, size, loaded);
      HoldsAdd(ModuleColumn(st.modules), st.books.modules, i, loaded);
      assert ModuleColumn(after.modules) == ModuleColumn(st.modules)[i := Some(loaded)];
    }
  }

  lemma InstantiatedOwned(st: State, id: Word, made: Handle, env: Handle)
    requires Owned(st) && Fresh(st.books, Instantiate(id, made, env))
    ensures Owned(Instantiated(st, id, made, env))
  {
    if InstantiateExit(st, id, made, env) == Done {
      var i, after := FreeInstance(st.instances, 0), Instantiated(st, id, made, env);
      HoldsAdd(InstanceColumn(st.instances), st.books.instances, i, made);
      HoldsAdd(EnvColumn(st.instances), st.books.envs, i, env);
      assert InstanceColumn(after.instances) == InstanceColumn(st.instances)[i := Some(made)];
      assert EnvColumn(after.instances) == EnvColumn(st.instances)[i := Some(env)];
      var m := FindModule(st.modules, id, 0);
      assert ModuleColumn(st.modules)[m] == Some(st.modules[m].handle);
      forall k | 0 <= k < SLOTS && after.instances[k].inUse
        ensures
          && after.instances[k].env in after.books.envOf
          && after.books.envOf[after.instances[k].env] == after.instances[k].handle
      {
        assert k != i ==> EnvColumn(st.instances)[k] == Some(st.instances[k].env);
      }
    }
  }

  lemma StampOne(ids: seq<Word>, next: Word, stamps: seq<nat>, slotIds: seq<Option<Word>>, i: nat)
    requires Stamped(ids, stamps, slotIds) && i < |slotIds|
    ensures Stamped(ids + [next], stamps[i := |ids|], slotIds[i := Some(next)])
  {
  }

  lemma LoadNumbered(st: State, c: Call)
    requires Numbered(st) && |st.modules| == SLOTS && |st.instances| == SLOTS
    requires c.Load? && LoadExit(st, c.size, c.loaded) == Done
    ensures Numbered(Apply(st, c))
  {
    var i := FreeModule(st.modules, 0);
    CountOne(st.books.moduleIds, st.nextModule);
    StampOne(st.books.moduleIds, st.nextModule, st.books.moduleStamps, ModuleIds(st.modules), i);
    assert ModuleIds(Apply(st, c).modules) == ModuleIds(st.modules)[i := Some(st.nextModule)];
  }

  lemma InstantiateNumbered(st: State, c: Call)
    requires Numbered(st) && |st.modules| == SLOTS && |st.instances| == SLOTS
    requires c.Instantiate? && InstantiateExit(st, c.moduleId, c.made, c.env) == Done
    ensures Numbered(Apply(st, c))
  {
    var i := FreeInstance(st.instances, 0);
    CountOne(st.books.instanceIds, st.nextInstance);
    StampOne(st.books.instanceIds, st.nextInstance, st.books.instanceStamps, InstanceIds(st.instances), i);
    assert InstanceIds(Apply(st, c).instances) == InstanceIds(st.instances)[i := Some(st.nextInstance)];
  }

  lemma CallNumbered(st: State, c: Call)
    requires Numbered(st) && |st.modules| == SLOTS && |st.instances| == SLOTS
    ensures Numbered(Apply(st, c))
  {
    if c.Load? && LoadExit(st, c.size, c.loaded) == Done {
      LoadNumbered(st, c);
    } else if c.Instantiate? && InstantiateExit(st, c.moduleId, c.made, c.env) == Done {
      InstantiateNumbered(st, c);
    }
  }

  lemma CallOwned(st: State, c: Call)
    requires Owned(st) && Fresh(st.books, c)
    ensures Owned(Apply(st, c))
  {
    match c
    case Init(ok) =>
      if !st.initialized && ok {
        HoldsNothing(ModuleColumn(st.modules), st.books.modules);
        HoldsNothing(InstanceColumn(st.instances), st.books.instances);
        HoldsNothing(EnvColumn(st.instances), st.books.envs);
        IdleOwned(Apply(st, c), st);
      }
    case Load(size, loaded) => LoadedOwned(st, size, loaded);
    case Instantiate(id, made, env) => InstantiatedOwned(st, id, made, env);
    case UnloadAll => if st.initialized { IdleOwned(Released(st, true), st); }
    case Cleanup => if st.initialized { IdleOwned(Apply(st, c), st); }
  }

  // ---------------------------------------------------------------- runs

  function Run(calls: seq<Call>): State {
    if |calls| == 0 then Boot() else Apply(Run(calls[..|calls| - 1]), calls[|calls| - 1])
  }

  ghost predicate FreshAt(calls: seq<Call>, i: nat)
    requires i < |calls|
  {
    Fresh(Run(calls[..i]).books, calls[i])
  }

  /** Over any sequence of calls the registry stays sound. */
  lemma {:induction false} RunSound(calls: seq<Call>)
    requires forall i {:trigger FreshAt(calls, i)} :: 0 <= i < |calls| ==> FreshAt(calls, i)
    ensures Sound(Run(calls))
  {
    if |calls| > 0 {
      var n := |calls| - 1;
      var init := calls[..n];
      forall i | 0 <= i < n ensures FreshAt(init, i) {
        assert FreshAt(calls, i) && init[..i] == calls[..i];
      }
      RunSound(init);
      assert FreshAt(calls, n);
      CallOwned(Run(init), calls[n]);
      CallNumbered(Run(init), calls[n]);
    }
  }

  /** A load succeeds exactly when the runtime is up, the module is not empty, one of the 16 slots is free
      and the runtime accepts it; then the first free slot holds it under the next id. */
  lemma LoadIff(st: State, size: nat, loaded: Handle)
    requires |st.modules| == SLOTS
    ensures LoadExit(st, size, loaded) == Done <==>
      st.initialized && size > 0 && loaded != 0 && exists i :: 0 <= i < 16 && !st.modules[i].inUse
    ensures LoadExit(st, size, loaded) == Done ==>
      exists i :: 0 <= i < 16 && !st.modules[i].inUse && (forall k :: 0 <= k < i ==> st.modules[k].inUse)
        && Loaded(st, size, loaded).modules == st.modules[i := ModuleEntry(st.nextModule, loaded, true)]
    ensures LoadExit(st, size, loaded) != Done ==> Loaded(st, size, loaded) == st
  {
    var i := FreeModule(st.modules, 0);
    assert i < 16 ==> !st.modules[i].inUse;
  }

  /** So does an instantiation, of a loaded module of that id. */
  lemma InstantiateIff(st: State, id: Word, made: Handle, env: Handle)
    requires |st.modules| == SLOTS && |st.instances| == SLOTS
    ensures InstantiateExit(st, id, made, env) == Done <==>
      && st.initialized && made != 0 && env != 0 && (exists i :: 0 <= i < 16 && !st.instances[i].inUse)
      && (exists m :: 0 <= m < 16 && st.modules[m].inUse && st.modules[m].id == id)
    ensures InstantiateExit(st, id, made, env) == Done ==>
      exists i :: 0 <= i < 16 && !st.instances[i].inUse && (forall k :: 0 <= k < i ==> st.instances[k].inUse)
        && Instantiated(st, id, made, env).instances
             == st.instances[i := InstanceEntry(st.nextInstance, made, env, true)]
    ensures Instantiated(st, id, made, env).modules == st.modules
    ensures InstantiateExit(st, id, made, env) != Done ==> Instantiated(st, id, made, env).instances == st.instances
  {
    var i, m := FreeInstance(st.instances, 0), FindModule(st.modules, id, 0);
    assert i < 16 ==> !st.instances[i].inUse;
    assert m < 16 ==> st.modules[m].inUse && st.modules[m].id == id;
  }

  lemma ReleasedIdle(st: State, wipe: bool)
    ensures var r := Released(st, wipe);
      Idle(r) && r.books.modules == {} && r.books.instances == {} && r.books.envs == {}
      && r.nextModule == st.nextModule && r.nextInstance == st.nextInstance
  {
  }

  /** A registry that is not initialized has nothing in use. */
  lemma {:induction false} DownIsIdle(calls: seq<Call>)
    ensures !Run(calls).initialized ==> Idle(Run(calls))
    ensures |Run(calls).modules| == SLOTS && |Run(calls).instances| == SLOTS
  {
    if |calls| > 0 {
      var n := |calls| - 1;
      DownIsIdle(calls[..n]);
      ReleasedIdle(Run(calls[..n]), calls[n].UnloadAll?);
    }
  }

  /** Over every run: after an unload or a cleanup nothing is in use, and only the cleanup shuts down. */
  lemma UnloadLeavesNothing(calls: seq<Call>, last: Call)
    requires last.UnloadAll? || last.Cleanup?
    ensures |Run(calls).modules| == 16 == |Run(calls).instances|
    ensures |Run(calls + [last]).modules| == 16 == |Run(calls + [last]).instances|
    ensures var before, after := Run(calls), Run(calls + [last]);
      && Idle(after) && after.initialized == (before.initialized && last.UnloadAll?)
      && after.nextModule == before.nextModule && after.nextInstance == before.nextInstance
      && (before.initialized ==> after.books.modules == {} && after.books.instances == {} && after.books.envs == {})
      && (before.initialized && last.UnloadAll? ==>
            forall i :: 0 <= i < 16 ==>
              && (before.modules[i].inUse ==> after.modules[i].handle == 0)
              && (before.instances[i].inUse ==> after.instances[i].handle == 0 && after.instances[i].env == 0))
  {
    assert (calls + [last])[..|calls|] == calls;
    DownIsIdle(calls);
    DownIsIdle(calls + [last]);
    ReleasedIdle(Run(calls), last.UnloadAll?);
  }

  /** Ids are never taken back: each call keeps all earlier issues, and issues at most one new id of a kind. */
  lemma {:induction false} IssuesGrow(calls: seq<Call>, from: nat)
    requires from <= |calls|
    ensures Run(calls[..from]).books.moduleIds <= Run(calls).books.moduleIds
    ensures Run(calls[..from]).books.instanceIds <= Run(calls).books.instanceIds
  {
    if from < |calls| {
      var n := |calls| - 1;
      IssuesGrow(calls[..n], from);
      assert calls[..n][..from] == calls[..from];
    } else {
      assert calls[..from] == calls;
    }
  }

  /** Call `n` of the run loads a module, or instantiates one, successfully. */
  ghost predicate LoadsAt(calls: seq<Call>, n: nat)
    requires n < |calls|
  {
    calls[n].Load? && LoadExit(Run(calls[..n]), calls[n].size, calls[n].loaded) == Done
  }

  ghost predicate InstantiatesAt(calls: seq<Call>, n: nat)
    requires n < |calls|
  {
    var c := calls[n];
    c.Instantiate? && InstantiateExit(Run(calls[..n]), c.moduleId, c.made, c.env) == Done
  }

  /** Successful loads, and instantiations, from call `i` up to but excluding call `k`. */
  ghost function LoadCount(calls: seq<Call>, i: nat, k: nat): nat
    requires i <= k <= |calls|
    decreases k
  {
    if i == k then 0 else LoadCount(calls, i, k - 1) + (if LoadsAt(calls, k - 1) then 1 else 0)
  }

  ghost function InstanceCount(calls: seq<Call>, i: nat, k: nat): nat
    requires i <= k <= |calls|
    decreases k
  {
    if i == k then 0 else InstanceCount(calls, i, k - 1) + (if InstantiatesAt(calls, k - 1) then 1 else 0)
  }

  lemma CallIssues(st: State, c: Call)
    ensures |Apply(st, c).books.moduleIds| ==
      |st.books.moduleIds| + (if c.Load? && LoadExit(st, c.size, c.loaded) == Done then 1 else 0)
    ensures |Apply(st, c).books.instanceIds| == |st.books.instanceIds|
      + (if c.Instantiate? && InstantiateExit(st, c.moduleId, c.made, c.env) == Done then 1 else 0)
  {
  }

  lemma {:induction false} IssuesCounted(calls: seq<Call>, i: nat, k: nat)
    requires i <= k <= |calls|
    ensures |Run(calls[..k]).books.moduleIds| == |Run(calls[..i]).books.moduleIds| + LoadCount(calls, i, k)
    ensures |Run(calls[..k]).books.instanceIds| == |Run(calls[..i]).books.instanceIds| + InstanceCount(calls, i, k)
    decreases k
  {
    if i < k {
      IssuesCounted(calls, i, k - 1);
      RunNext(calls, k - 1);
      CallIssues(Run(calls[..k - 1]), calls[k - 1]);
    }
  }

  lemma CallKeepsSlots(st: State, c: Call)
    requires |st.modules| == SLOTS && |st.instances| == SLOTS
    ensures |Apply(st, c).modules| == SLOTS && |Apply(st, c).instances| == SLOTS
  {
  }

  /** The counters stand where their issues put them, whatever handles the runtime returns. */
  lemma {:induction false} RunNumbered(calls: seq<Call>)
    ensures Numbered(Run(calls)) && |Run(calls).modules| == SLOTS && |Run(calls).instances| == SLOTS
  {
    if |calls| > 0 {
      var n := |calls| - 1;
      RunNumbered(calls[..n]);
      CallNumbered(Run(calls[..n]), calls[n]);
      CallKeepsSlots(Run(calls[..n]), calls[n]);
    }
  }

  /** Two successful loads of a run return the same id exactly when a multiple of 2^32 loads
      succeeded from the first up to the second, cleanups and re-initializations included. */
  lemma ReissueIff(calls: seq<Call>, i: nat, k: nat)
    requires i < k < |calls| && LoadsAt(calls, i) && LoadsAt(calls, k)
    ensures Run(calls[..i]).nextModule == Run(calls[..k]).nextModule <==> LoadCount(calls, i, k) % WRAP == 0
    ensures LoadCount(calls, i, k) > 0
  {
    CountersAgree(calls, i, k);
    FirstCounts(calls, i, k);
  }

  /** The same for instances. */
  lemma InstanceReissueIff(calls: seq<Call>, i: nat, k: nat)
    requires i < k < |calls| && InstantiatesAt(calls, i) && InstantiatesAt(calls, k)
    ensures Run(calls[..i]).nextInstance == Run(calls[..k]).nextInstance <==> InstanceCount(calls, i, k) % WRAP == 0
    ensures InstanceCount(calls, i, k) > 0
  {
    CountersAgree(calls, i, k);
    FirstCounts(calls, i, k);
  }

  lemma CountersAgree(calls: seq<Call>, i: nat, k: nat)
    requires i <= k <= |calls|
    ensures Run(calls[..i]).nextModule == Run(calls[..k]).nextModule <==> LoadCount(calls, i, k) % WRAP == 0
    ensures Run(calls[..i]).nextInstance == Run(calls[..k]).nextInstance <==> InstanceCount(calls, i, k) % WRAP == 0
  {
    var a, b := Run(calls[..i]), Run(calls[..k]);
    assert Numbered(a) && Numbered(b) by {
      RunNumbered(calls[..i]);
      RunNumbered(calls[..k]);
    }
    assert |b.books.moduleIds| - |a.books.moduleIds| == LoadCount(calls, i, k)
        && |b.books.instanceIds| - |a.books.instanceIds| == InstanceCount(calls, i, k) by {
      IssuesCounted(calls, i, k);
    }
    NextsAgree(a, b);
  }

  lemma NextsAgree(a: State, b: State)
    requires Numbered(a) && Numbered(b)
    requires |a.books.moduleIds| <= |b.books.moduleIds| && |a.books.instanceIds| <= |b.books.instanceIds|
    ensures a.nextModule == b.nextModule <==> (|b.books.moduleIds| - |a.books.moduleIds|) % WRAP == 0
    ensures a.nextInstance == b.nextInstance <==> (|b.books.instanceIds| - |a.books.instanceIds|) % WRAP == 0
  {
    ModDifference(1 + |a.books.moduleIds|, 1 + |b.books.moduleIds|);
    ModDifference(1 + |a.books.instanceIds|, 1 + |b.books.instanceIds|);
  }

  lemma {:induction false} FirstCounts(calls: seq<Call>, i: nat, k: nat)
    requires i < k <= |calls|
    ensures LoadsAt(calls, i) ==> LoadCount(calls, i, k) > 0
    ensures InstantiatesAt(calls, i) ==> InstanceCount(calls, i, k) > 0
    decreases k
  {
    if i + 1 < k {
      FirstCounts(calls, i, k - 1);
    }
  }

  lemma RunNext(calls: seq<Call>, i: nat)
    requires i < |calls|
    ensures Run(calls[..i + 1]) == Apply(Run(calls[..i]), calls[i])
  {
    assert calls[..i + 1][..i] == calls[..i];
  }

  // ---------------------------------------------------------------- releasing slots one by one

  function DropInstance(st: State, i: nat, wipe: bool): State
    requires i < |st.instances|
  {
    var e, b := st.instances[i], st.books;
    st.(instances := st.instances[i := ReleaseInstance(e, wipe)],
        books := b.(instances := b.instances - {e.handle}, envs := b.envs - {e.env}))
  }

  function DropModule(st: State, i: nat, wipe: bool): State
    requires i < |st.modules|
  {
    var m, b := st.modules[i], st.books;
    st.(modules := st.modules[i := ReleaseModule(m, wipe)], books := b.(modules := b.modules - {m.handle}))
  }

  /** Once the environment of slot `i` is gone, no live environment belongs to its instance. */
  lemma EnvsOfOthers(st: State, i: nat, e: Handle)
    requires Owned(st) && i < SLOTS && st.instances[i].inUse && e in st.books.envs - {st.instances[i].env}
    ensures e in st.books.envOf && st.books.envOf[e] != st.instances[i].handle
  {
    var envs, handles := EnvColumn(st.instances), InstanceColumn(st.instances);
    var k :| 0 <= k < |envs| && envs[k] == Some(e);
    assert handles[k].Some? && handles[i].Some?;
  }

  lemma DropInstanceOwned(st: State, i: nat, wipe: bool)
    requires Owned(st) && i < SLOTS && st.instances[i].inUse
    ensures Owned(DropInstance(st, i, wipe))
  {
    var after := DropInstance(st, i, wipe);
    HoldsDrop(InstanceColumn(st.instances), st.books.instances, i);
    HoldsDrop(EnvColumn(st.instances), st.books.envs, i);
    assert InstanceColumn(after.instances) == InstanceColumn(st.instances)[i := None];
    assert EnvColumn(after.instances) == EnvColumn(st.instances)[i := None];
  }

  lemma DropModuleOwned(st: State, i: nat, wipe: bool)
    requires Owned(st) && i < SLOTS && st.modules[i].inUse && st.books.instances == {}
    ensures Owned(DropModule(st, i, wipe))
  {
    var after := DropModule(st, i, wipe);
    HoldsDrop(ModuleColumn(st.modules), st.books.modules, i);
    assert ModuleColumn(after.modules) == ModuleColumn(st.modules)[i := None];
  }

  /** No live environment belongs to an instance the runtime has only just made. */
  lemma EnvsOfOlder(st: State, made: Handle, e: Handle)
    requires Owned(st) && made !in st.books.instances && e in st.books.envs
    ensures e in st.books.envOf && st.books.envOf[e] != made
  {
    var envs, handles := EnvColumn(st.instances), InstanceColumn(st.instances);
    var k :| 0 <= k < |envs| && envs[k] == Some(e);
    assert handles[k] == Some(st.instances[k].handle);
  }

  // ---------------------------------------------------------------- the registry in place

  class Registry {
    var initialized: bool
    var nextModule: Word
    var nextInstance: Word
    const modules: array<ModuleEntry>
    const instances: array<InstanceEntry>
    ghost var books: Books

    ghost function View(): State
      reads this, modules, instances
    {
      State(initialized, modules[..], instances[..], nextModule, nextInstance, books)
    }

    constructor ()
      ensures View() == Boot() && fresh(modules) && fresh(instances)
      ensures modules.Length == SLOTS && instances.Length == SLOTS
    {
      modules := new ModuleEntry[SLOTS](_ => FREE_MODULE);
      instances := new InstanceEntry[SLOTS](_ => FREE_INSTANCE);
      initialized, nextModule, nextInstance := false, 1, 1;
      books := Boot().books;
    }

    method WamrInit(ok: bool) returns (status: int)
      requires modules.Length == SLOTS && instances.Length == SLOTS
      modifies this, modules, instances
      ensures View() == Apply(old(View()), Init(ok))
      ensures status == (if old(initialized) || ok then 0 else -1)
    {
      if initialized {
        return 0;
      }
      if !ok {
        return -1;
      }
      forall i | 0 <= i < SLOTS {
        modules[i] := FREE_MODULE;
      }
      forall i | 0 <= i < SLOTS {
        instances[i] := FREE_INSTANCE;
      }
      initialized := true;
      return 0;
    }

    method WamrLoadModule(size: nat, loaded: Handle) returns (exit: Exit, id: Word)
      requires Sound(View()) && Fresh(books, Load(size, loaded))
      modifies this, modules
      ensures exit == LoadExit(old(View()), size, loaded)
      ensures View() == Loaded(old(View()), size, loaded) && Sound(View())
      ensures exit == Done ==> id == old(nextModule)
    {
      LoadedOwned(View(), size, loaded);
      CallNumbered(View(), Load(size, loaded));
      id := 0;
      if !initialized {
        return NotInitialized, 0;
      }
      if size == 0 {
        return BadParameters, 0;
      }
      var slot := 0;
      while slot < modules.Length && modules[slot].inUse
        invariant 0 <= slot <= modules.Length
        invariant FreeModule(modules[..], 0) == FreeModule(modules[..], slot)
      {
        slot := slot + 1;
      }
      if slot == modules.Length {
        return NoFreeSlot, 0;
      }
      var handle := RuntimeLoad(loaded);
      if handle == 0 {
        return RuntimeRefused, 0;
      }
      id := nextModule;
      modules[slot] := ModuleEntry(id, handle, true);
      nextModule := Add32(nextModule, 1);
      books := books.(moduleIds := books.moduleIds + [id],
                      moduleStamps := Stamp(books.moduleStamps, slot, |books.moduleIds|));
      return Done, id;
    }

    method WamrInstantiate(moduleId: Word, made: Handle, env: Handle) returns (exit: Exit, id: Word)
      requires Sound(View()) && Fresh(books, Instantiate(moduleId, made, env))
      modifies this, instances
      ensures exit == InstantiateExit(old(View()), moduleId, made, env)
      ensures View() == Instantiated(old(View()), moduleId, made, env) && Sound(View())
      ensures exit == Done ==> id == old(nextInstance)
    {
      InstantiatedOwned(View(), moduleId, made, env);
      CallNumbered(View(), Instantiate(moduleId, made, env));
      id := 0;
      if !initialized {
        return NotInitialized, 0;
      }
      var m := 0;
      while m < modules.Length && !(modules[m].inUse && modules[m].id == moduleId)
        invariant 0 <= m <= modules.Length
        invariant FindModule(modules[..], moduleId, 0) == FindModule(modules[..], moduleId, m)
      {
        m := m + 1;
      }
      if m == modules.Length {
        return NotFound, 0;
      }
      var slot := 0;
      while slot < instances.Length && instances[slot].inUse
        invariant 0 <= slot <= instances.Length
        invariant FreeInstance(instances[..], 0) == FreeInstance(instances[..], slot)
      {
        slot := slot + 1;
      }
      if slot == instances.Length {
        return NoFreeSlot, 0;
      }
      exit, id := MakeInstance(m, slot, made, env);
    }

    /** Makes an instance of the module in slot `m` and files it in slot `slot`. When its environment
        cannot be made the instance is taken back, so that nothing is left live outside the slots. */
    method MakeInstance(m: nat, slot: nat, made: Handle, env: Handle) returns (exit: Exit, id: Word)
      requires Sound(View()) && Fresh(books, Instantiate(0, made, env))
      requires m < SLOTS && modules[m].inUse && slot < SLOTS && !instances[slot].inUse
      modifies this, instances
      ensures modules[..] == old(modules[..]) && initialized == old(initialized) && nextModule == old(nextModule)
      ensures made == 0 || env == 0 ==>
        && exit == RuntimeRefused && instances[..] == old(instances[..]) && nextInstance == old(nextInstance)
        && books == (if made == 0 then old(books)
                     else old(books).(madeFrom := old(books).madeFrom[made := modules[m].handle]))
      ensures made != 0 && env != 0 ==>
        && exit == Done && id == old(nextInstance) && nextInstance == Add32(old(nextInstance), 1)
        && instances[..] == old(instances[..])[slot := InstanceEntry(id, made, env, true)]
        && books == WithInstance(old(books), modules[m].handle, slot, made, env, id)
    {
      id := 0;
      ghost var st := View();
      assert ModuleColumn(st.modules)[m] == Some(modules[m].handle);
      var instance := RuntimeInstantiate(modules[m].handle, made);
      if instance == 0 {
        return RuntimeRefused, 0;
      }
      var execEnv := RuntimeCreateEnv(instance, env);
      if execEnv == 0 {
        forall e | e in books.envs
          ensures e in books.envOf && books.envOf[e] != instance
        {
          EnvsOfOlder(st, made, e);
        }
        Deinstantiate(instance);
        assert books.instances == st.books.instances;
        return RuntimeRefused, 0;
      }
      id := nextInstance;
      instances[slot] := InstanceEntry(id, instance, execEnv, true);
      nextInstance := Add32(nextInstance, 1);
      books := books.(instanceIds := books.instanceIds + [id],
                      instanceStamps := Stamp(books.instanceStamps, slot, |books.instanceIds|));
      return Done, id;
    }

    /** The runtime hands out a module, or refuses with NULL. */
    method RuntimeLoad(loaded: Handle) returns (handle: Handle)
      requires loaded != 0 ==> loaded !in books.modules
      modifies this`books
      ensures handle == loaded
      ensures books == if loaded == 0 then old(books) else old(books).(modules := old(books).modules + {loaded})
    {
      if loaded != 0 {
        books := books.(modules := books.modules + {loaded});
      }
      return loaded;
    }

    /** The runtime makes an instance of a live module, or refuses. */
    method RuntimeInstantiate(origin: Handle, made: Handle) returns (handle: Handle)
      requires origin in books.modules && (made != 0 ==> made !in books.instances)
      modifies this`books
      ensures handle == made
      ensures books ==
        if made == 0 then old(books)
        else old(books).(instances := old(books).instances + {made}, madeFrom := old(books).madeFrom[made := origin])
    {
      if made != 0 {
        books := books.(instances := books.instances + {made}, madeFrom := books.madeFrom[made := origin]);
      }
      return made;
    }

    /** The runtime makes an environment for a live instance, or refuses. */
    method RuntimeCreateEnv(instance: Handle, env: Handle) returns (handle: Handle)
      requires instance in books.instances && (env != 0 ==> env !in books.envs)
      modifies this`books
      ensures handle == env
      ensures books ==
        if env == 0 then old(books)
        else old(books).(envs := old(books).envs + {env}, envOf := old(books).envOf[env := instance])
    {
      if env != 0 {
        books := books.(envs := books.envs + {env}, envOf := books.envOf[env := instance]);
      }
      return env;
    }

    /** The runtime takes an environment back. */
    method DestroyEnv(env: Handle)
      requires env in books.envs
      modifies this`books
      ensures books == old(books).(envs := old(books).envs - {env})
    {
      books := books.(envs := books.envs - {env});
    }

    /** The runtime takes an instance back; no environment of it may be left. */
    method Deinstantiate(handle: Handle)
      requires handle in books.instances
      requires forall e :: e in books.envs ==> e in books.envOf && books.envOf[e] != handle
      modifies this`books
      ensures books == old(books).(instances := old(books).instances - {handle})
    {
      books := books.(instances := books.instances - {handle});
    }

    /** The runtime takes a module back; no instance made from it may be left. */
    method Unload(handle: Handle)
      requires handle in books.modules
      requires forall h :: h in books.instances ==> h in books.madeFrom && books.madeFrom[h] != handle
      modifies this`books
      ensures books == old(books).(modules := old(books).modules - {handle})
    {
      books := books.(modules := books.modules - {handle});
    }
  
    /** Tears down the instance of slot `i`: its environment, then itself. */
    method ReleaseOne(i: nat, wipe: bool)
      requires Owned(View()) && i < instances.Length && instances[i].inUse
      modifies this`books, instances
      ensures View() == DropInstance(old(View()), i, wipe) && Owned(View())
    {
      ghost var st := View();
      DropInstanceOwned(st, i, wipe);
      assert InstanceColumn(st.instances)[i].Some? && EnvColumn(st.instances)[i].Some?;
      DestroyEnv(instances[i].env);
      forall e | e in books.envs ensures e in books.envOf && books.envOf[e] != instances[i].handle {
        EnvsOfOthers(st, i, e);
      }
      Deinstantiate(instances[i].handle);
      instances[i] := ReleaseInstance(instances[i], wipe);
    }

    /** Tears down every instance. */
    method ReleaseInstances(wipe: bool)
      requires Owned(View())
      modifies this`books, instances
      ensures Owned(View()) && books.instances == {} && books.envs == {}
      ensures books.(instances := {}, envs := {}) == old(books).(instances := {}, envs := {})
      ensures forall k :: 0 <= k < SLOTS ==> instances[k] == ReleaseInstance(old(instances[k]), wipe)
    {
      for i := 0 to instances.Length
        invariant Owned(View())
        invariant books.(instances := {}, envs := {}) == old(books).(instances := {}, envs := {})
        invariant forall k :: 0 <= k < i ==> instances[k] == ReleaseInstance(old(instances[k]), wipe)
        invariant forall k :: i <= k < SLOTS ==> instances[k] == old(instances[k])
      {
        ghost var before := instances[..];
        if instances[i].inUse {
          ReleaseOne(i, wipe);
          assert instances[..] == before[i := ReleaseInstance(before[i], wipe)];
        }
      }
      HoldsNothing(InstanceColumn(instances[..]), books.instances);
      HoldsNothing(EnvColumn(instances[..]), books.envs);
    }

    /** Unloads every module, once no instance is left. */
    method ReleaseModules(wipe: bool)
      requires Owned(View()) && books.instances == {}
      modifies this`books, modules
      ensures Owned(View()) && books.modules == {}
      ensures books.(modules := {}) == old(books).(modules := {})
      ensures forall k :: 0 <= k < SLOTS ==> modules[k] == ReleaseModule(old(modules[k]), wipe)
    {
      for i := 0 to modules.Length
        invariant Owned(View())
        invariant books.(modules := {}) == old(books).(modules := {})
        invariant forall k :: 0 <= k < i ==> modules[k] == ReleaseModule(old(modules[k]), wipe)
        invariant forall k :: i <= k < SLOTS ==> modules[k] == old(modules[k])
      {
        if modules[i].inUse {
          ghost var st := View();
          DropModuleOwned(st, i, wipe);
          assert ModuleColumn(st.modules)[i].Some?;
          Unload(modules[i].handle);
          modules[i] := ReleaseModule(modules[i], wipe);
          assert View() == DropModule(st, i, wipe);
        }
      }
      HoldsNothing(ModuleColumn(modules[..]), books.modules);
    }

    method WamrUnloadAll()
      requires Owned(View())
      modifies this, modules, instances
      ensures View() == Apply(old(View()), UnloadAll)
    {
      if !initialized {
        return;
      }
      ReleaseInstances(true);
      ReleaseModules(true);
      assert modules[..] == Released(old(View()), true).modules;
      assert instances[..] == Released(old(View()), true).instances;
    }

    method WamrCleanup()
      requires Owned(View())
      modifies this, modules, instances
      ensures View() == Apply(old(View()), Cleanup)
    {
      if !initialized {
        return;
      }
      ReleaseInstances(false);
      ReleaseModules(false);
      initialized := false;
      assert modules[..] == Released(old(View()), false).modules;
      assert instances[..] == Released(old(View()), false).instances;
    }
  }
}
