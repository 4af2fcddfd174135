/** Every step of the health protocol keeps its invariants, and what follows for whole runs. */
module HealthSafety {
  import opened Domain
  import opened Sequences
  import opened RouteTable
  import opened HealthProtocol

  // ----- reloads and owner start -----

  /** What a reset does to the process around it. */
  ghost predicate ResetStep(s: State, base: Shared, t: State) {
    && base.cells == s.sh.cells && base.generation == s.sh.generation
    && base.cancelled == s.sh.cancelled && base.parents == s.sh.parents
    && Reset(base, t.sh) && BirthsExtend(s, t)
    && t == s.(sh := t.sh, birth := t.birth, pc := t.pc)
  }

  lemma ResetShared(s: State, base: Shared, t: State)
    requires Inv(s) && ResetStep(s, base, t) && CountersOk(base.table, base.pools)
    ensures SharedOk(t.sh) && BirthsOk(t)
  {
    forall r | InTable(t.sh.table, r) && Checked(r) ensures HealthKey(r) in t.sh.health {
      assert InTable(base.table, r);
    }
  }

  lemma ResetTargets(s: State, base: Shared, t: State, id: nat, g: nat)
    requires Inv(s) && ResetStep(s, base, t) && Target(s, id, g)
    ensures Target(t, id, g) && t.sh.cells[id] == s.sh.cells[id]
  {
    assert t.sh.cells[..|s.sh.cells|][id] == s.sh.cells[id];
    assert t.birth[..|s.birth|][id] == s.birth[id];
  }

  lemma ResetProcess(s: State, base: Shared, t: State)
    requires Inv(s) && ResetStep(s, base, t)
    requires t.pc == s.pc || (s.pc.NoOwner? && t.pc.Waiting?)
    requires t.pc.NoOwner? <==> !t.sh.running
    ensures OwnerOk(t) && WorkersOk(t)
  {
    forall id: nat, g: nat | Target(s, id, g) ensures Target(t, id, g) && t.sh.cells[id] == s.sh.cells[id] {
      ResetTargets(s, base, t, id, g);
    }
    assert Holding(t) == Holding(s);
  }

  lemma ResetHistory(s: State, base: Shared, t: State)
    requires Inv(s) && ResetStep(s, base, t)
    requires Busy(t.pc) ==> t.pc == s.pc
    ensures TimesOk(t) && LogOk(t) && SpacedOk(t)
  {
    forall id | 0 <= id < |s.sh.cells| ensures t.sh.cells[id] == s.sh.cells[id] && t.birth[id] == s.birth[id] {
      assert t.sh.cells[..|s.sh.cells|][id] == s.sh.cells[id];
      assert t.birth[..|s.birth|][id] == s.birth[id];
    }
  }

  lemma ResetCells(s: State, base: Shared, t: State)
    requires Inv(s) && ResetStep(s, base, t)
    ensures CellsOk(t) && ReadyOk(t)
  {
    forall id | 0 <= id < |t.sh.cells|
      ensures id < |s.sh.cells| ==> t.sh.cells[id] == s.sh.cells[id]
      ensures id >= |s.sh.cells| ==> Fresh(t.sh.cells[id]) && LastFor(t.log, id).None?
    {
      if id < |s.sh.cells| {
        assert t.sh.cells[..|s.sh.cells|][id] == s.sh.cells[id];
      } else {
        NoRecordYet(s, id);
      }
    }
  }

  lemma BuiltRoutesAreInput(re: Regex, routes: seq<Route>, r: Route)
    requires InTable(BuildTable(re, routes), r)
    ensures r in routes
  {
    var t := BuildTable(re, routes);
    if h :| h in t.exact && r in t.exact[h] {
      SortedPermutation(Filter(routes, OnHost(h)));
      assert r in multiset(t.exact[h]);
      FilterMember(routes, OnHost(h), r);
    } else {
      var g :| g in t.groups && r in g.routes;
      SortedPermutation(Filter(routes, OnPattern(g.pattern)));
      assert r in multiset(g.routes);
      FilterMember(routes, OnPattern(g.pattern), r);
    }
  }

  /** Update gives every pooled route of the new table a counter. */
  lemma BuiltCounters(re: Regex, routes: seq<Route>)
    ensures CountersOk(BuildTable(re, routes), FreshPools(routes))
  {
    forall r | InTable(BuildTable(re, routes), r) && r.backendPool != "" ensures PoolKey(r) in FreshPools(routes) {
      BuiltRoutesAreInput(re, routes, r);
    }
  }

  lemma ReloadKeeps(s: State, re: Regex, routes: seq<Route>, t: State)
    requires Inv(s) && OutsideStep(s, Reload(re, routes), t)
    ensures Inv(t)
  {
    var base := s.sh.(table := BuildTable(re, routes), pools := FreshPools(routes));
    BuiltCounters(re, routes);
    ResetShared(s, base, t);
    ResetProcess(s, base, t);
    ResetHistory(s, base, t);
    ResetCells(s, base, t);
  }

  lemma StartKeeps(s: State, owner: nat, t: State)
    requires Inv(s) && OwnerStep(s, StartOwner(owner), t)
    ensures Inv(t)
  {
    var base := s.sh.(running := true, parent := Some(owner));
    ResetShared(s, base, t);
    ResetProcess(s, base, t);
    ResetHistory(s, base, t);
    ResetCells(s, base, t);
  }

  // ----- steps that leave cells and history alone -----

  ghost predicate SameRecords(s: State, t: State) {
    && t.sh.table == s.sh.table && t.sh.cells == s.sh.cells && t.sh.health == s.sh.health
    && t.sh.generation == s.sh.generation && t.sh.cancelled == s.sh.cancelled && t.sh.parents == s.sh.parents
    && t.sh.running == s.sh.running && CountersOk(t.sh.table, t.sh.pools)
    && t.birth == s.birth && t.log == s.log && s.clock <= t.clock && s.nextWorker <= t.nextWorker
  }

  lemma RecordsKept(s: State, t: State)
    requires Inv(s) && SameRecords(s, t)
    ensures SharedOk(t.sh) && BirthsOk(t) && LogOk(t) && CellsOk(t) && ReadyOk(t) && SpacedOk(t)
  {
  }

  /** A target stays one while cells and generation stay. */
  lemma ProcessKept(s: State, t: State)
    requires Inv(s) && SameRecords(s, t) && t.workers == s.workers && t.nextWorker == s.nextWorker
    requires t.pc.NoOwner? <==> s.pc.NoOwner?
    requires Busy(s.pc) ==> Busy(t.pc) && t.pc.gen == s.pc.gen && forall id :: id in Jobs(t.pc) ==> id in Jobs(s.pc)
    requires !Busy(s.pc) ==> Jobs(t.pc) == []
    requires NoDuplicates(Jobs(t.pc))
    ensures OwnerOk(t) && WorkersOk(t) && TimesOk(t)
  {
    assert Holding(t) == Holding(s);
    forall i | 0 <= i < |Jobs(t.pc)|
      ensures Target(t, Jobs(t.pc)[i], t.pc.gen) && t.sh.cells[Jobs(t.pc)[i]].next <= t.clock
    {
      assert Jobs(t.pc)[i] in Jobs(t.pc);
      var j :| 0 <= j < |Jobs(s.pc)| && Jobs(s.pc)[j] == Jobs(t.pc)[i];
      assert Target(s, Jobs(s.pc)[j], s.pc.gen);
    }
    forall w | w in t.workers && Busy(t.pc)
      ensures t.workers[w].gen == t.pc.gen && Target(t, t.workers[w].cell, t.pc.gen)
    {
      assert Target(s, s.workers[w].cell, s.pc.gen);
    }
  }

  lemma QuietOutsideKeeps(s: State, a: Action, t: State)
    requires Inv(s) && OutsideStep(s, a, t) && !a.Reload?
    ensures Inv(t)
  {
    if a.Select? { SelectCounters(s.sh, a.re, a.host, a.path); }
    RecordsKept(s, t);
    ProcessKept(s, t);
  }

  lemma SelectCounters(sh: Shared, re: Regex, host: string, path: string)
    requires CountersOk(sh.table, sh.pools)
    ensures CountersOk(sh.table, Resolve(re, sh.table, Ready(sh), sh.pools, host, path).1)
  {
  }

  // ----- the owner -----

  lemma QuietOwnerKeeps(s: State, a: Action, t: State)
    requires Inv(s) && OwnerStep(s, a, t)
    requires QuietOwnerAction(a)
    ensures Inv(t)
  {
    RecordsKept(s, t);
    if a.SeeDone? {
      assert forall i :: 0 <= i < |Jobs(t.pc)| ==> Jobs(t.pc)[i] == Jobs(s.pc)[i + 1];
    }
    ProcessKept(s, t);
  }

  lemma JoinKeeps(s: State, t: State)
    requires Inv(s) && OwnerStep(s, Join, t)
    ensures Inv(t)
  {
    RecordsKept(s, t);
    assert Holding(t) == {};
  }

  lemma CollectKeeps(s: State, t: State)
    requires Inv(s) && OwnerStep(s, Collect, t)
    ensures Inv(t)
  {
    RecordsKept(s, t);
    assert Holding(t) == {};
    forall i | 0 <= i < |Jobs(t.pc)| ensures Target(t, Jobs(t.pc)[i], t.pc.gen) {
      assert Jobs(t.pc)[i] == t.pc.jobs[i] && t.pc.jobs[i] in s.sh.health.Values;
    }
  }

  lemma LaunchHolds(s: State, t: State)
    requires Inv(s) && OwnerStep(s, Launch, t)
    ensures |Holding(t)| <= SLOTS
  {
    hide SharedOk, BirthsOk, OwnerOk, TimesOk, LogOk, CellsOk, ReadyOk, SpacedOk;
    assert Holding(t) == Holding(s) + {s.nextWorker};
  }

  lemma LaunchOwner(s: State, t: State)
    requires Inv(s) && OwnerStep(s, Launch, t)
    ensures OwnerOk(t) && |Holding(t)| <= SLOTS
  {
    hide SharedOk, BirthsOk, WorkersOk, TimesOk, LogOk, CellsOk, ReadyOk, SpacedOk, Holding;
    LaunchHolds(s, t);
    assert forall i :: 0 <= i < |Jobs(t.pc)| ==> Jobs(t.pc)[i] == Jobs(s.pc)[i + 1];
  }

  lemma LaunchWorkers(s: State, t: State)
    requires Inv(s) && OwnerStep(s, Launch, t)
    ensures WorkersOk(t)
  {
    LaunchOwner(s, t);
    var job := s.pc.jobs[0];
    assert Jobs(s.pc)[0] == job && Target(s, job, s.pc.gen);
    assert forall i :: 0 <= i < |Jobs(t.pc)| ==> Jobs(t.pc)[i] == Jobs(s.pc)[i + 1];
    forall w | w in t.workers
      ensures t.workers[w].cell !in Jobs(t.pc) && t.workers[w].gen == t.pc.gen && Target(t, t.workers[w].cell, t.pc.gen)
    {
      if w != s.nextWorker { assert t.workers[w] == s.workers[w]; }
    }
    forall v, w | v in t.workers && w in t.workers && v != w ensures t.workers[v].cell != t.workers[w].cell {
      assert job in Jobs(s.pc);
    }
  }

  lemma LaunchTimes(s: State, t: State)
    requires Inv(s) && OwnerStep(s, Launch, t)
    ensures TimesOk(t)
  {
    hide SharedOk, BirthsOk, WorkersOk, LogOk, CellsOk, ReadyOk, SpacedOk;
    assert Jobs(s.pc)[0] == s.pc.jobs[0];
  }

  lemma LaunchKeeps(s: State, t: State)
    requires Inv(s) && OwnerStep(s, Launch, t)
    ensures Inv(t)
  {
    hide BirthsOk, OwnerOk, WorkersOk, TimesOk, LogOk, CellsOk, ReadyOk, SpacedOk;
    RecordsKept(s, t);
    LaunchOwner(s, t);
    LaunchWorkers(s, t);
    LaunchTimes(s, t);
  }

  lemma StopShared(s: State, t: State)
    requires Inv(s) && OwnerStep(s, StopOwner, t)
    ensures SharedOk(t.sh) && BirthsOk(t)
  {
    hide OwnerOk, WorkersOk, CellsOk, ReadyOk, SpacedOk, TimesOk, LogOk;
    forall id | 0 <= id < |s.sh.cells| ensures t.sh.cells[id].route == s.sh.cells[id].route {}
  }

  lemma StopOwners(s: State, t: State)
    requires Inv(s) && OwnerStep(s, StopOwner, t)
    ensures OwnerOk(t) && WorkersOk(t)
  {
    hide SharedOk, BirthsOk, CellsOk, ReadyOk, SpacedOk, TimesOk, LogOk;
    assert s.workers == map[];
    assert Holding(t) == {};
  }

  lemma StopKeeps(s: State, t: State)
    requires Inv(s) && OwnerStep(s, StopOwner, t)
    ensures Inv(t)
  {
    hide SharedOk, BirthsOk, OwnerOk, WorkersOk;
    StopShared(s, t);
    StopOwners(s, t);
    forall id | 0 <= id < |s.sh.cells|
      ensures t.sh.cells[id].(healthy := s.sh.cells[id].healthy) == s.sh.cells[id]
      ensures t.sh.cells[id].healthy ==> s.sh.cells[id].healthy
      ensures id in s.sh.health.Values ==> !t.sh.cells[id].healthy
    {
    }
  }

  // ----- the workers -----

  lemma PhaseWorkers(s: State, w: nat, phase: Phase, t: State)
    requires Inv(s) && w in s.workers && t == s.(workers := s.workers[w := s.workers[w].(phase := phase)])
    requires s.workers[w].phase.Released? ==> phase.Released?
    ensures OwnerOk(t) && WorkersOk(t)
  {
    hide SharedOk, BirthsOk, TimesOk, LogOk, CellsOk, ReadyOk, SpacedOk;
    assert Holding(t) <= Holding(s) by {
      forall v | v in Holding(t) ensures v in Holding(s) {}
    }
    SubsetSize(Holding(t), Holding(s));
  }

  /** A worker moves on without touching anything shared. */
  lemma PhaseKeeps(s: State, w: nat, phase: Phase, t: State)
    requires Inv(s) && w in s.workers && t == s.(workers := s.workers[w := s.workers[w].(phase := phase)])
    requires s.workers[w].phase.Released? ==> phase.Released?
    requires TimesOk(t)
    ensures Inv(t)
  {
    hide BirthsOk, OwnerOk, WorkersOk, TimesOk, LogOk, CellsOk, ReadyOk, SpacedOk;
    RecordsKept(s, t);
    PhaseWorkers(s, w, phase, t);
  }

  lemma SubsetSize<T>(a: set<T>, b: set<T>)
    requires a <= b
    ensures |a| <= |b|
  {
    assert b == a + (b - a);
  }

  lemma QuietWorkerKeeps(s: State, a: Action, t: State)
    requires Inv(s) && WorkerStep(s, a, t)
    requires a.BeginProbe? || a.SkipProbe? || a.Answer? || a.Release?
    ensures Inv(t)
  {
    hide SharedOk, BirthsOk, LogOk, CellsOk, ReadyOk, SpacedOk, OwnerOk;
    PhaseKeeps(s, a.w, t.workers[a.w].phase, t);
  }

  lemma ForgetWorkers(s: State, w: nat, t: State)
    requires Inv(s) && WorkerStep(s, Forget(w), t)
    ensures OwnerOk(t) && WorkersOk(t)
  {
    hide SharedOk, BirthsOk, TimesOk, LogOk, CellsOk, ReadyOk, SpacedOk;
    assert Holding(t) == Holding(s);
  }

  lemma ForgetKeeps(s: State, w: nat, t: State)
    requires Inv(s) && WorkerStep(s, Forget(w), t)
    ensures Inv(t)
  {
    hide BirthsOk, OwnerOk, WorkersOk, LogOk, CellsOk, ReadyOk, SpacedOk, Interval, Timeout;
    RecordsKept(s, t);
    ForgetWorkers(s, w, t);
  }

  // ----- publishing a result -----

  /** The first guard alone decides: a live context is the current one and its cell is the current one. */
  lemma LiveMeansCurrent(s: State, w: nat)
    requires Inv(s) && w in s.workers && !Done(s.sh, s.dead, s.workers[w].gen)
    ensures s.workers[w].gen == s.sh.generation
    ensures Admits(s.sh, s.dead, s.workers[w].gen, s.workers[w].cell)
  {
    var k := s.workers[w];
    assert Target(s, k.cell, k.gen);
    var key :| key in s.sh.health && s.sh.health[key] == k.cell;
  }

  lemma AdmittedTimes(s: State, w: nat, t: State)
    requires Inv(s) && WorkerStep(s, Admit(w), t)
    ensures TimesOk(t)
  {
    forall v | v in t.workers && t.workers[v].cell < |t.sh.cells| && v != w
      ensures t.workers[v] == s.workers[v] && t.sh.cells[t.workers[v].cell] == s.sh.cells[s.workers[v].cell]
    {
    }
  }

  lemma AdmittedRoutes(s: State, w: nat, t: State)
    requires Inv(s) && WorkerStep(s, Admit(w), t)
    ensures t.sh == s.sh.(cells := t.sh.cells) && |t.sh.cells| == |s.sh.cells|
    ensures forall id :: 0 <= id < |s.sh.cells| ==> t.sh.cells[id].route == s.sh.cells[id].route
    ensures forall id :: 0 <= id < |s.sh.cells| && id != s.workers[w].cell ==> t.sh.cells[id] == s.sh.cells[id]
  {
    hide Inv;
  }

  lemma AdmittedShared(s: State, w: nat, t: State)
    requires Inv(s) && WorkerStep(s, Admit(w), t)
    ensures SharedOk(t.sh) && BirthsOk(t)
  {
    AdmittedRoutes(s, w, t);
  }

  lemma AdmittedOwner(s: State, w: nat, t: State)
    requires Inv(s) && WorkerStep(s, Admit(w), t)
    ensures OwnerOk(t)
  {
    AdmittedRoutes(s, w, t);
    forall i | 0 <= i < |Jobs(t.pc)|
      ensures Target(t, Jobs(t.pc)[i], t.pc.gen) && t.sh.cells[Jobs(t.pc)[i]].next <= t.clock
    {
      assert Target(s, Jobs(s.pc)[i], s.pc.gen);
      assert Jobs(s.pc)[i] in Jobs(s.pc);
    }
  }

  lemma AdmittedWorkerMap(s: State, w: nat, t: State)
    requires Inv(s) && WorkerStep(s, Admit(w), t)
    ensures t.workers.Keys == s.workers.Keys && t.pc == s.pc && Holding(t) == Holding(s)
    ensures t.nextWorker == s.nextWorker && t.birth == s.birth
    ensures forall v :: v in t.workers ==>
              t.workers[v].cell == s.workers[v].cell && t.workers[v].gen == s.workers[v].gen
  {
    assert Holding(t) == Holding(s);
  }

  lemma AdmittedWorkers(s: State, w: nat, t: State)
    requires Inv(s) && WorkerStep(s, Admit(w), t)
    ensures WorkersOk(t)
  {
    AdmittedRoutes(s, w, t);
    AdmittedWorkerMap(s, w, t);
    forall v | v in t.workers ensures Target(t, t.workers[v].cell, t.pc.gen) {
      assert Target(s, s.workers[v].cell, s.pc.gen);
    }
  }

  lemma AdmittedLog(s: State, w: nat, t: State)
    requires Inv(s) && WorkerStep(s, Admit(w), t)
    ensures LogOk(t)
  {
    hide SharedOk, CellsOk, ReadyOk, SpacedOk;
    AdmittedRoutes(s, w, t);
    var k := s.workers[w];
    assert Target(s, k.cell, s.pc.gen);
  }

  lemma AdmittedLast(s: State, w: nat, t: State)
    requires WorkerStep(s, Admit(w), t) && Admits(s.sh, s.dead, s.workers[w].gen, s.workers[w].cell)
    ensures |t.log| == |s.log| + 1 && t.log[|s.log|].cell == s.workers[w].cell
    ensures forall id: nat ::
              LastFor(t.log, id) == if s.workers[w].cell == id then Some(t.log[|s.log|]) else LastFor(s.log, id)
  {
    forall id: nat
      ensures LastFor(t.log, id) == if s.workers[w].cell == id then Some(t.log[|s.log|]) else LastFor(s.log, id)
    {
      LastSnoc(s.log, t.log[|s.log|], id);
    }
  }

  lemma AdmittedCells(s: State, w: nat, t: State)
    requires Inv(s) && WorkerStep(s, Admit(w), t)
    ensures CellsOk(t)
  {
    hide SharedOk, BirthsOk, OwnerOk, WorkersOk, LogOk, ReadyOk, SpacedOk, LastFor;
    AdmittedRoutes(s, w, t);
    if Admits(s.sh, s.dead, s.workers[w].gen, s.workers[w].cell) { AdmittedLast(s, w, t); }
  }

  lemma AdmittedReady(s: State, w: nat, t: State)
    requires Inv(s) && WorkerStep(s, Admit(w), t)
    ensures ReadyOk(t)
  {
    hide SharedOk, WorkersOk, TimesOk, LogOk, CellsOk, SpacedOk, LastFor;
    AdmittedRoutes(s, w, t);
    if Admits(s.sh, s.dead, s.workers[w].gen, s.workers[w].cell) { AdmittedLast(s, w, t); }
  }

  lemma LastIndex(log: seq<Admission>, id: nat, i: nat) returns (m: nat)
    requires i < |log| && log[i].cell == id
    ensures i <= m < |log| && log[m].cell == id && LastFor(log, id) == Some(log[m])
  {
    LastIn(log, id);
    m :| LastAt(log, id, m) && log[m] == LastFor(log, id).value;
  }

  lemma NoneAfterLast(s: State, i: nat)
    requires LogOk(s) && SpacedOk(s) && i < |s.log|
    ensures var last := LastFor(s.log, s.log[i].cell); last.Some? && s.log[i].admitted <= last.value.admitted
  {
    var m := LastIndex(s.log, s.log[i].cell, i);
    if i < m {
      assert s.log[i].cell < |s.sh.cells|;
      assert s.log[i].admitted + Interval(s.sh.cells[s.log[i].cell].route) <= s.log[m].started;
    }
  }

  /** A new result of a cell starts no sooner than its interval after every earlier one. */
  lemma SpacedFromEarlier(s: State, w: nat, i: nat)
    requires Inv(s) && w in s.workers && s.workers[w].phase.Answered?
    requires i < |s.log| && s.log[i].cell == s.workers[w].cell
    ensures s.workers[w].cell < |s.sh.cells|
    ensures s.log[i].admitted + Interval(s.sh.cells[s.workers[w].cell].route) <= s.workers[w].phase.started
  {
    NoneAfterLast(s, i);
    assert Target(s, s.workers[w].cell, s.pc.gen);
  }

  lemma AdmittedSpacing(s: State, w: nat, t: State)
    requires Inv(s) && WorkerStep(s, Admit(w), t)
    ensures SpacedOk(t)
  {
    AdmittedRoutes(s, w, t);
    forall i, j | 0 <= i < j < |t.log| && t.log[i].cell == t.log[j].cell && t.log[i].cell < |t.sh.cells|
      ensures t.log[i].admitted + Interval(t.sh.cells[t.log[i].cell].route) <= t.log[j].started
    {
      if j == |s.log| {
        SpacedFromEarlier(s, w, i);
      } else {
        assert t.log[i] == s.log[i] && t.log[j] == s.log[j];
      }
    }
  }

  lemma AdmitKeeps(s: State, w: nat, t: State)
    requires Inv(s) && WorkerStep(s, Admit(w), t)
    ensures Inv(t)
  {
    AdmittedTimes(s, w, t);
    AdmittedShared(s, w, t);
    AdmittedOwner(s, w, t);
    AdmittedWorkers(s, w, t);
    AdmittedLog(s, w, t);
    AdmittedCells(s, w, t);
    AdmittedReady(s, w, t);
    AdmittedSpacing(s, w, t);
  }

  predicate QuietOwnerAction(a: Action) {
    a.Wake? || a.Ticker? || a.SeeDone? || a.Check? || a.EndSweep? || a.Leave?
  }

  lemma OwnerActions(s: State, a: Action, t: State)
    requires OwnerStep(s, a, t)
    ensures QuietOwnerAction(a) || a.StartOwner? || a.Collect? || a.Launch? || a.Join? || a.StopOwner?
  {
    hide Start, Stop, DueJobs, BirthsExtend, Holding, Done;
  }

  lemma OwnerStepKeeps(s: State, a: Action, t: State)
    requires Inv(s) && OwnerStep(s, a, t)
    ensures Inv(t)
  {
    hide Inv, OwnerStep;
    OwnerActions(s, a, t);
    if a.StartOwner? { StartKeeps(s, a.owner, t); }
    else if a.Collect? { CollectKeeps(s, t); }
    else if a.Launch? { LaunchKeeps(s, t); }
    else if a.Join? { JoinKeeps(s, t); }
    else if a.StopOwner? { StopKeeps(s, t); }
    else { QuietOwnerKeeps(s, a, t); }
  }

  lemma WorkerStepKeeps(s: State, a: Action, t: State)
    requires Inv(s) && WorkerStep(s, a, t)
    ensures Inv(t)
  {
    hide Inv;
    if a.Admit? { AdmitKeeps(s, a.w, t); }
    else if a.Forget? { ForgetKeeps(s, a.w, t); }
    else { QuietWorkerKeeps(s, a, t); }
  }

  lemma OutsideStepKeeps(s: State, a: Action, t: State)
    requires Inv(s) && OutsideStep(s, a, t)
    ensures Inv(t)
  {
    hide Inv, OutsideStep;
    if a.Reload? { ReloadKeeps(s, a.re, a.routes, t); } else { QuietOutsideKeeps(s, a, t); }
  }

  /** Every step, in every interleaving, keeps the invariants. */
  lemma StepKeeps(s: State, a: Action, t: State)
    requires Inv(s) && Step(s, a, t)
    ensures Inv(t)
  {
    hide Inv, OwnerStep, WorkerStep, OutsideStep;
    if OwnerStep(s, a, t) {
      OwnerStepKeeps(s, a, t);
    } else if WorkerStep(s, a, t) {
      WorkerStepKeeps(s, a, t);
    } else {
      OutsideStepKeeps(s, a, t);
    }
  }
}
