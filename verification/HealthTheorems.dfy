/** What holds over every run of the health protocol, in every interleaving. */
module HealthTheorems {
  import opened Domain
  import opened Sequences
  import opened RouteTable
  import opened PoolFairness
  import opened HealthProtocol
  import opened HealthSafety

  /** A run: states joined by steps. */
  ghost predicate Steps(run: seq<State>, acts: seq<Action>) {
    && |run| == |acts| + 1
    && forall i :: 0 <= i < |acts| ==> Step(run[i], acts[i], run[i + 1])
  }

  ghost predicate IsRun(run: seq<State>, acts: seq<Action>) {
    Steps(run, acts) && Init(run[0])
  }

  lemma {:induction false} SegmentKeeps(run: seq<State>, acts: seq<Action>, n: nat)
    requires Steps(run, acts) && Inv(run[0]) && n < |run|
    ensures Inv(run[n])
  {
    if n > 0 {
      SegmentKeeps(run, acts, n - 1);
      StepKeeps(run[n - 1], acts[n - 1], run[n]);
    }
  }

  /** The invariants hold in every state of every run. */
  lemma RunKeeps(run: seq<State>, acts: seq<Action>, n: nat)
    requires IsRun(run, acts) && n < |run|
    ensures Inv(run[n])
  {
    InitOk(run[0]);
    SegmentKeeps(run, acts, n);
  }

  // ----- without an owner -----

  /** With no owner nothing is ready, and nothing becomes ready until RunHealth is entered again. */
  lemma StoppedStaysUnready(run: seq<State>, acts: seq<Action>, m: nat, n: nat)
    requires IsRun(run, acts) && m <= n < |run| && run[m].pc.NoOwner?
    requires forall i :: m <= i < n ==> !acts[i].StartOwner?
    ensures run[n].pc.NoOwner? && Ready(run[n].sh) == {} && InFlight(run[n]) == {}
    decreases n - m
  {
    RunKeeps(run, acts, m);
    if m < n {
      assert run[m].workers == map[];
      assert run[m + 1].pc.NoOwner?;
      StoppedStaysUnready(run, acts, m + 1, n);
    }
  }

  // ----- late results -----

  /** The history only grows, generations only go up, and a cancelled context stays cancelled. */
  ghost predicate Forward(s: State, t: State) {
    && s.sh.generation <= t.sh.generation
    && |s.sh.parents| <= |t.sh.parents| && t.sh.parents[..|s.sh.parents|] == s.sh.parents
    && s.sh.cancelled <= t.sh.cancelled && s.dead <= t.dead
    && s.nextWorker <= t.nextWorker
  }

  lemma StepForward(s: State, a: Action, t: State)
    requires Step(s, a, t)
    ensures Forward(s, t)
  {
    hide DueJobs, BirthsExtend, Unhealthy, HealthProtocol.ResetCells, ResetKeys, Resolve, BuildTable, FreshPools,
         Ready, Holding;
  }

  /** Worker w is stale: its context is done, or it is gone. */
  ghost predicate Stale(s: State, w: nat) {
    w < s.nextWorker && (w in s.workers ==> Done(s.sh, s.dead, s.workers[w].gen))
  }

  lemma StaleStays(s: State, a: Action, t: State, w: nat)
    requires Step(s, a, t) && Stale(s, w) && SharedOk(s.sh)
    ensures Stale(t, w)
    ensures GrewWithout(s.log, t.log, w)
  {
    hide DueJobs, BirthsExtend, Unhealthy, HealthProtocol.ResetCells, ResetKeys, Resolve, BuildTable, FreshPools,
         Ready, Holding;
    StepForward(s, a, t);
    if w in t.workers {
      assert w in s.workers && t.workers[w].gen == s.workers[w].gen;
      var g := s.workers[w].gen;
      if g < |s.sh.parents| { assert t.sh.parents[..|s.sh.parents|][g] == s.sh.parents[g]; }
    }
  }

  /** The log grew, and not by results of worker w. */
  ghost predicate GrewWithout(before: seq<Admission>, after: seq<Admission>, w: nat) {
    && |before| <= |after| && after[..|before|] == before
    && forall i :: |before| <= i < |after| ==> after[i].worker != w
  }

  lemma GrewTransitively(a: seq<Admission>, b: seq<Admission>, c: seq<Admission>, w: nat)
    requires GrewWithout(a, b, w) && GrewWithout(b, c, w)
    ensures GrewWithout(a, c, w)
  {
    assert c[..|a|] == c[..|b|][..|a|];
    forall i | |a| <= i < |c| ensures c[i].worker != w {
      if i < |b| { assert c[i] == c[..|b|][i]; }
    }
  }

  /** A probe whose context is done is never let through, in any continuation, however late it answers. */
  lemma StaleNeverAdmitted(run: seq<State>, acts: seq<Action>, m: nat, n: nat, w: nat)
    requires IsRun(run, acts) && m <= n < |run| && Stale(run[m], w)
    ensures GrewWithout(run[m].log, run[n].log, w)
    ensures Stale(run[n], w)
    decreases n - m
  {
    hide OwnerStep, WorkerStep, OutsideStep, SharedOk, BirthsOk, OwnerOk, WorkersOk, TimesOk, LogOk, CellsOk, ReadyOk,
         SpacedOk, Stale;
    if m < n {
      RunKeeps(run, acts, m);
      StaleStays(run[m], acts[m], run[m + 1], w);
      StaleNeverAdmitted(run, acts, m + 1, n, w);
      GrewTransitively(run[m].log, run[m + 1].log, run[n].log, w);
    }
  }

  /** A reload makes every probe in flight stale. */
  lemma ReloadMakesStale(s: State, a: Action, t: State, w: nat)
    requires Inv(s) && Step(s, a, t) && a.Reload? && w in s.workers
    ensures Stale(t, w)
  {
    assert Target(s, s.workers[w].cell, s.workers[w].gen);
    assert s.workers[w].gen <= s.sh.generation;
    if s.workers[w].gen < s.sh.generation { assert s.workers[w].gen in s.sh.cancelled; }
  }

  /** Whenever, after its context is done, a probe reaches its last section, that section changes nothing shared. */
  lemma StaleChangesNothing(run: seq<State>, acts: seq<Action>, m: nat, n: nat, w: nat)
    requires IsRun(run, acts) && m <= n < |acts| && Stale(run[m], w) && acts[n] == Admit(w)
    ensures run[n + 1].sh == run[n].sh && run[n + 1].log == run[n].log
  {
    StaleNeverAdmitted(run, acts, m, n, w);
  }

  // ----- bounds -----

  lemma InFlightHold(s: State)
    ensures InFlight(s) <= Holding(s)
  {
  }

  /**
   * At most four probes at once, across reloads and owner restarts; none overlapping on a cell; none without an
   * owner.
   */
  lemma ProbesBounded(run: seq<State>, acts: seq<Action>, n: nat)
    requires IsRun(run, acts) && n < |run|
    ensures |InFlight(run[n])| <= SLOTS
    ensures forall v, w :: v in InFlight(run[n]) && w in InFlight(run[n]) && v != w ==>
              run[n].workers[v].cell != run[n].workers[w].cell
    ensures run[n].pc.NoOwner? || run[n].pc.Waiting? || run[n].pc.Collecting? || run[n].pc.Exiting? ==>
            InFlight(run[n]) == {}
  {
    RunKeeps(run, acts, n);
    InFlightHold(run[n]);
    SubsetSize(InFlight(run[n]), Holding(run[n]));
  }

  /** A probe in flight started no sooner than its cell's interval after the last result let through for it. */
  lemma ProbeSpacing(run: seq<State>, acts: seq<Action>, n: nat, w: nat)
    requires IsRun(run, acts) && n < |run| && w in InFlight(run[n])
    ensures var s := run[n]; var id := s.workers[w].cell;
            && id < |s.sh.cells|
            && forall i :: 0 <= i < |s.log| && s.log[i].cell == id ==>
                 s.log[i].admitted + Interval(s.sh.cells[id].route) <= s.workers[w].phase.started
  {
    RunKeeps(run, acts, n);
    var s := run[n];
    var id := s.workers[w].cell;
    assert Target(s, id, s.pc.gen);
    forall i | 0 <= i < |s.log| && s.log[i].cell == id
      ensures s.log[i].admitted + Interval(s.sh.cells[id].route) <= s.workers[w].phase.started
    {
      NoneAfterLast(s, i);
    }
  }

  /** Two results let through for one cell are apart by its interval, completion to start. */
  lemma ResultSpacing(run: seq<State>, acts: seq<Action>, n: nat, i: nat, j: nat)
    requires IsRun(run, acts) && n < |run| && i < j < |run[n].log| && run[n].log[i].cell == run[n].log[j].cell
    ensures run[n].log[i].cell < |run[n].sh.cells|
    ensures run[n].log[i].admitted + Interval(run[n].sh.cells[run[n].log[i].cell].route) <= run[n].log[j].started
  {
    RunKeeps(run, acts, n);
    assert run[n].log[i].cell < |run[n].birth|;
  }

  /**
   * Of the three guards on a late result the first decides: a live context is the current one and names a current
   * cell.
   */
  lemma LiveResultIsAdmitted(run: seq<State>, acts: seq<Action>, n: nat, w: nat)
    requires IsRun(run, acts) && n < |run| && w in run[n].workers
    ensures Admits(run[n].sh, run[n].dead, run[n].workers[w].gen, run[n].workers[w].cell) <==>
            !Done(run[n].sh, run[n].dead, run[n].workers[w].gen)
  {
    RunKeeps(run, acts, n);
    if !Done(run[n].sh, run[n].dead, run[n].workers[w].gen) { LiveMeansCurrent(run[n], w); }
  }

  // ----- the readiness view and routing -----

  /** A health-checked route counts as available in a selection exactly when its row says "ready". */
  lemma ViewAgreesWithRouting(run: seq<State>, acts: seq<Action>, n: nat, r: Route)
    requires IsRun(run, acts) && n < |run| && r.health.Some?
    ensures var s := run[n].sh; var k := HealthKey(r);
            && (k in s.health ==> s.health[k] < |s.cells|)
            && (Available(r, Ready(s)) <==> k in s.health && RowState(s.running, s.cells[s.health[k]]) == ReadyState)
            && (InTable(s.table, r) && Checked(r) ==> k in s.health)
  {
    RunKeeps(run, acts, n);
    var s := run[n];
    var k := HealthKey(r);
    if k in s.sh.health {
      var id := s.sh.health[k];
      LastIn(s.log, id);
      if LastFor(s.log, id).Some? {
        var m :| LastAt(s.log, id, m) && s.log[m] == LastFor(s.log, id).value;
        assert s.log[m].admitted > 0;
      }
    }
  }

  /** A row is "unknown" exactly while no owner runs or its own cell has no result yet. */
  lemma UnknownExactly(run: seq<State>, acts: seq<Action>, n: nat, k: string)
    requires IsRun(run, acts) && n < |run| && k in run[n].sh.health
    ensures var s := run[n]; var id := s.sh.health[k];
            && id < |s.sh.cells|
            && (RowState(s.sh.running, s.sh.cells[id]) == UnknownState <==> !s.sh.running || LastFor(s.log, id).None?)
  {
    RunKeeps(run, acts, n);
    var s := run[n];
    var id := s.sh.health[k];
    LastIn(s.log, id);
    if LastFor(s.log, id).Some? {
      var m :| LastAt(s.log, id, m) && s.log[m] == LastFor(s.log, id).value;
      assert s.log[m].admitted > 0;
    }
  }

  /** A reload makes every row unknown and takes every member out of every checked pool. */
  lemma ReloadMakesUnknown(run: seq<State>, acts: seq<Action>, n: nat, k: string)
    requires IsRun(run, acts) && n < |acts| && acts[n].Reload? && k in run[n + 1].sh.health
    ensures var t := run[n + 1]; var id := t.sh.health[k];
            && id < |t.sh.cells| && LastFor(t.log, id).None?
            && RowState(t.sh.running, t.sh.cells[id]) == UnknownState
            && Ready(t.sh) == {}
  {
    RunKeeps(run, acts, n);
    var s, t := run[n], run[n + 1];
    assert Reset(s.sh.(table := BuildTable(acts[n].re, acts[n].routes), pools := FreshPools(acts[n].routes)), t.sh);
    NoRecordYet(s, t.sh.health[k]);
  }

  /** The nil-counter branch of a selection is dead: a pool is unavailable exactly when it has no available member. */
  lemma UnavailableExactly(run: seq<State>, acts: seq<Action>, n: nat, re: Regex, host: string, path: string)
    requires IsRun(run, acts) && n < |run|
    ensures var s := run[n].sh;
            var m := Match(re, s.table, host, path);
            var r := Resolve(re, s.table, Ready(s), s.pools, host, path).0;
            m.Some? ==> r.Some? && (r.value.unavailable <==>
              && m.value.1.backendPool != ""
              && forall x :: x in m.value.0 && SameClass(x, m.value.1) ==> !Available(x, Ready(s)))
  {
    RunKeeps(run, acts, n);
    var s := run[n].sh;
    AnswerIgnoresHealth(re, s.table, Ready(s), s.pools, host, path);
    MatchInTable(re, s.table, host, path);
  }

  lemma {:induction false} GroupMatchInTable(re: Regex, groups: seq<RegexGroup>, host: string, path: string)
    ensures var m := FirstGroupMatch(re, groups, host, path); m.Some? ==>
            exists g :: g in groups && m.value.1 in g.routes
  {
    if groups != [] {
      FirstMatchIsMember(groups[0].routes, path);
      GroupMatchInTable(re, groups[1..], host, path);
    }
  }

  lemma MatchInTable(re: Regex, t: Table, host: string, path: string)
    ensures var m := Match(re, t, host, path); m.Some? ==> InTable(t, m.value.1)
  {
    FirstMatchIsMember(ExactRoutes(t, host), path);
    GroupMatchInTable(re, t.groups, host, path);
  }

  // ----- fairness inside a run -----

  /** The member of a pool that a step contacts, answered in the step's own state. */
  function StepPick(s: State, a: Action, key: string): seq<Route> {
    if !a.Select? then []
    else
      var picked := Serving(a.re, s.sh.table, Ready(s.sh), key)(s.sh.pools, Request(a.host, a.path)).0;
      if picked.Some? then [picked.value] else []
  }

  function FoundAt(s: State, a: Action): seq<Route> {
    if a.Select? then Found(a.re, s.sh.table, Ready(s.sh), Request(a.host, a.path)) else []
  }

  /** The selections made from a pool along a run, in the order of their tickets. */
  function RunPicks(run: seq<State>, acts: seq<Action>, key: string): seq<Route>
    requires |run| == |acts| + 1
  {
    if acts == [] then [] else StepPick(run[0], acts[0], key) + RunPicks(run[1..], acts[1..], key)
  }

  /** Each selection made from the pool finds these members available, whatever changes before, between and after. */
  ghost predicate DrawsAlways(run: seq<State>, acts: seq<Action>, key: string, members: seq<Route>)
    requires |run| == |acts| + 1
  {
    forall i :: 0 <= i < |acts| && StepPick(run[i], acts[i], key) != [] ==> FoundAt(run[i], acts[i]) == members
  }

  lemma ServingMoves(re: Regex, t: Table, ready: set<string>, key: string, pools: map<string, nat>, q: Request)
    ensures Serving(re, t, ready, key)(pools, q).1 == Resolve(re, t, ready, pools, q.host, q.path).1
  {
  }

  /** Only reloads and selections touch the counters. */
  lemma CountersKept(s: State, a: Action, t: State)
    requires Step(s, a, t) && !a.Reload?
    ensures !a.Select? ==> t.sh.pools == s.sh.pools
    ensures a.Select? ==> t.sh.pools == Resolve(a.re, s.sh.table, Ready(s.sh), s.sh.pools, a.host, a.path).1
  {
  }

  /** One step either leaves the pool's counter alone or takes its ticket and the member it names. */
  lemma PoolTurn(s: State, a: Action, t: State, key: string, members: seq<Route>)
    requires Step(s, a, t) && !a.Reload? && key in s.sh.pools && s.sh.pools[key] < UINT64 && members != []
    requires StepPick(s, a, key) != [] ==> FoundAt(s, a) == members
    ensures key in t.sh.pools
    ensures StepPick(s, a, key) == [] ==> t.sh.pools[key] == s.sh.pools[key]
    ensures StepPick(s, a, key) != [] ==>
              StepPick(s, a, key) == [members[s.sh.pools[key] % |members|]] && t.sh.pools[key] == Bump(s.sh.pools[key])
  {
    hide Step, Resolve, Found, Serving;
    CountersKept(s, a, t);
    if a.Select? {
      var q := Request(a.host, a.path);
      OneRequest(a.re, s.sh.table, Ready(s.sh), s.sh.pools, q, key, members);
      ServingMoves(a.re, s.sh.table, Ready(s.sh), key, s.sh.pools, q);
    }
  }

  lemma BumpStays(c: nat)
    ensures Bump(c) < UINT64
  {
  }

  lemma TailDraws(run: seq<State>, acts: seq<Action>, key: string, members: seq<Route>)
    requires Steps(run, acts) && acts != [] && DrawsAlways(run, acts, key, members)
    ensures Steps(run[1..], acts[1..]) && DrawsAlways(run[1..], acts[1..], key, members)
    ensures Step(run[0], acts[0], run[1])
    ensures StepPick(run[0], acts[0], key) != [] ==> FoundAt(run[0], acts[0]) == members
  {
    hide Step, FoundAt, StepPick;
  }

  /**
   * Without a reload, a pool's selections walk its members in turn from its counter on, as long as each of them
   * finds the same members available: through probe results, owner restarts and whatever happens to other pools.
   */
  lemma {:induction false} RunIsRoundRobin(run: seq<State>, acts: seq<Action>, key: string, members: seq<Route>)
    requires Steps(run, acts) && (forall i :: 0 <= i < |acts| ==> !acts[i].Reload?)
    requires key in run[0].sh.pools && run[0].sh.pools[key] < UINT64 && members != []
    requires DrawsAlways(run, acts, key, members)
    ensures var picks, last := RunPicks(run, acts, key), run[|acts|].sh.pools;
            && picks == RoundRobin(members, run[0].sh.pools[key], |picks|)
            && key in last && last[key] == Ticket(run[0].sh.pools[key] + |picks|)
    decreases |acts|
  {
    hide Step, FoundAt, StepPick, DrawsAlways, Ticket, Bump;
    var c := run[0].sh.pools[key];
    TicketWraps(c);
    if acts != [] {
      TailDraws(run, acts, key, members);
      PoolTurn(run[0], acts[0], run[1], key, members);
      BumpStays(c);
      RunIsRoundRobin(run[1..], acts[1..], key, members);
      if StepPick(run[0], acts[0], key) != [] {
        AfterBump(members, c, |RunPicks(run[1..], acts[1..], key)|);
      }
    }
  }

  /**
   * In any stretch of a run without a reload, k * m consecutive selections from a pool whose m available members are
   * the same at each of them pick each member exactly k times and nothing else.
   */
  lemma FairBetweenChanges(run: seq<State>, acts: seq<Action>, key: string, members: seq<Route>, from: nat, k: nat)
    requires Steps(run, acts) && (forall i :: 0 <= i < |acts| ==> !acts[i].Reload?)
    requires key in run[0].sh.pools && members != [] && NoDuplicates(members)
    requires DrawsAlways(run, acts, key, members)
    requires from + k * |members| <= |RunPicks(run, acts, key)|
    requires run[0].sh.pools[key] + |RunPicks(run, acts, key)| < UINT64
    ensures Even(RunPicks(run, acts, key), from, k, members)
  {
    RunIsRoundRobin(run, acts, key, members);
    EvenRoundRobin(members, run[0].sh.pools[key], |RunPicks(run, acts, key)|, from, k);
  }

  /** Whatever changes meanwhile, no selection ever takes an unavailable member, or one of another class. */
  lemma PicksAreAvailable(run: seq<State>, acts: seq<Action>, n: nat, key: string, x: Route)
    requires Steps(run, acts) && n < |acts| && x in StepPick(run[n], acts[n], key)
    ensures acts[n].Select? && Available(x, Ready(run[n].sh))
    ensures var m := Match(acts[n].re, run[n].sh.table, acts[n].host, acts[n].path);
            m.Some? && InPool(m.value.1, key) && x in m.value.0 && SameClass(x, m.value.1)
  {
    var s, a := run[n].sh, acts[n];
    var m := Match(a.re, s.table, a.host, a.path);
    var members := Filter(m.value.0, MemberOf(m.value.1, Ready(s)));
    FilterMember(m.value.0, MemberOf(m.value.1, Ready(s)), x);
  }

  function Requests(acts: seq<Action>): seq<Request> {
    if acts == [] then []
    else (if acts[0].Select? then [Request(acts[0].host, acts[0].path)] else []) + Requests(acts[1..])
  }

  /** Neither the table nor the set of ready keys is another after any of these steps. */
  ghost predicate Quiet(run: seq<State>, acts: seq<Action>)
    requires |run| == |acts| + 1
  {
    forall i :: 0 <= i < |acts| ==> !acts[i].Reload? && Ready(run[i + 1].sh) == Ready(run[i].sh)
  }

  lemma TableKept(s: State, a: Action, t: State)
    requires Step(s, a, t) && !a.Reload?
    ensures t.sh.table == s.sh.table
  {
  }

  lemma CountersStep(serve: Serve, pools: map<string, nat>, acts: seq<Action>)
    requires acts != []
    ensures var next := if acts[0].Select? then serve(pools, Request(acts[0].host, acts[0].path)).1 else pools;
            CountersAfter(serve, pools, Requests(acts)) == CountersAfter(serve, next, Requests(acts[1..]))
  {
    if acts[0].Select? {
      var q := Request(acts[0].host, acts[0].path);
      assert Requests(acts)[0] == q && Requests(acts)[1..] == Requests(acts[1..]);
    } else {
      assert Requests(acts) == Requests(acts[1..]);
    }
  }

  /** While table and ready keys stay, all counters move only by the selections made, in the order made. */
  lemma {:induction false} QuietSegment(run: seq<State>, acts: seq<Action>, re: Regex, key: string)
    requires Steps(run, acts) && Quiet(run, acts)
    requires forall i :: 0 <= i < |acts| && acts[i].Select? ==> acts[i].re == re
    ensures var s, t := run[0].sh, run[|acts|].sh;
            && t.table == s.table && Ready(t) == Ready(s)
            && t.pools == CountersAfter(Serving(re, s.table, Ready(s), key), s.pools, Requests(acts))
    decreases |acts|
  {
    hide Step, Resolve, Ready;
    if acts != [] {
      var s, t := run[0].sh, run[1].sh;
      var serve := Serving(re, s.table, Ready(s), key);
      TableKept(run[0], acts[0], run[1]);
      CountersKept(run[0], acts[0], run[1]);
      QuietSegment(run[1..], acts[1..], re, key);
      if acts[0].Select? {
        ServingMoves(re, s.table, Ready(s), key, s.pools, Request(acts[0].host, acts[0].path));
      }
      CountersStep(serve, s.pools, acts);
      assert serve == Serving(re, t.table, Ready(t), key);
    }
  }
}
