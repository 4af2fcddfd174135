/**
 * From an accepted routes file, through the aggregator, to the pools the router serves: pipeline and router in one
 * run, in every interleaving.
 */
module Composition {
  import opened Domain
  import opened Sequences
  import RT = RouteTable
  import PF = PoolFairness
  import HP = HealthProtocol
  import HS = HealthSafety
  import HT = HealthTheorems
  import SB = SweepBound
  import FA = FileAdmission
  import AP = AdmittedPools
  import A = Aggregator
  import P = Pipeline

  lemma {:induction false} OneSource(m: map<string, seq<Route>>, order: seq<string>, keep: Route -> bool, p: string)
    requires NoDuplicates(order) && forall k :: k in order ==> k in m && (k != p ==> Filter(m[k], keep) == [])
    ensures Filter(ConcatIn(m, order), keep) == if p in order then Filter(m[p], keep) else []
  {
    if order != [] {
      var n := |order| - 1;
      assert order == order[..n] + [order[n]];
      OneSource(m, order[..n], keep, p);
      FilterConcat(ConcatIn(m, order[..n]), m[order[n]], keep);
      assert order[n] !in order[..n];
    }
  }

  /** No provider but the file provider builds pools. */
  ghost predicate OnlyFilePools(configs: map<string, Message>) {
    forall p :: p in configs && p != "file" ==> Filter(configs[p].routes, AP.Pooled) == []
  }

  /** However the messages are walked, the merge's pooled routes are the file's, in file order. */
  lemma MergeDrawsPools(lib: FA.Lib, f: FA.RoutesFile, configs: map<string, Message>, cfg: A.Configuration)
    requires FA.CheckFailure(lib, f).None? && A.IsMerge(configs, cfg) && OnlyFilePools(configs)
    requires "file" in configs && configs["file"] == FA.Loaded(lib, f)
    ensures AP.PoolsFrom(lib, f, cfg.routes)
  {
    var order :| Enumerates(order, configs.Keys) && cfg == A.MergeIn(configs, order);
    A.MergeConcatenates(configs, order);
    OneSource(A.RoutesOf(configs), order, AP.Pooled, "file");
  }

  /** The routes file f is the last one admitted, and no other provider builds pools. */
  ghost predicate Serves(s: P.State, lib: FA.Lib, f: FA.RoutesFile) {
    var configs := P.LastAccepted(s.accepted);
    FA.CheckFailure(lib, f).None? && "file" in configs && configs["file"] == FA.Loaded(lib, f) && OnlyFilePools(configs)
  }

  /** What AdmittedPools says of a list holds of the one the router was given. */
  ghost predicate Provides(s: P.State, lib: FA.Lib, f: FA.RoutesFile) {
    s.phase.Running? && AP.PoolsFrom(lib, f, P.Given(s).routes)
  }

  /** Once the pipeline has drained, the pools given are those of the last admitted file, whatever else is routed. */
  lemma DrainedProvides(s: P.State, lib: FA.Lib, f: FA.RoutesFile)
    requires P.Inv(s) && P.Drained(s) && Serves(s, lib, f)
    ensures Provides(s, lib, f)
    ensures forall r :: AP.Pooled(r) ==> (r in P.Given(s).routes <==> r in FA.ExpandAll(lib, f.routes))
  {
    P.DrainedMerge(s);
    MergeDrawsPools(lib, f, P.LastAccepted(s.accepted), P.Given(s));
    AP.CheckedFromFile(lib, f, P.Given(s).routes);
  }

  // ----- pipeline and router in one run -----

  datatype State = State(pipe: P.State, router: HP.State)

  /** A move of the pipeline, or one of the router, its health owner, a probe or a request. */
  datatype Action = Pipe(move: P.Action) | Serve(turn: HP.Action)

  /** The moves that hand the router a configuration: the initial load, and the second watcher's. */
  predicate Reloads(s: State, a: Action) {
    a.Pipe? && (a.move.Apply? || (a.move.InitialLoad? && P.RejectMessage(s.pipe.staticOnly, a.move.msg).None?))
  }

  /** What the router sees of a move. */
  function Seen(re: RT.Regex, s: State, a: Action, t: State): HP.Action {
    if a.Serve? then a.turn
    else if Reloads(s, a) then HP.Reload(re, P.Given(t.pipe).routes)
    else HP.Elsewhere
  }

  /** The pipeline alone reloads the router, and with nothing but the configuration it gives. */
  ghost predicate Step(re: RT.Regex, s: State, a: Action, t: State) {
    && (if a.Pipe? then P.Step(s.pipe, a.move, t.pipe) else t.pipe == s.pipe)
    && (a.Serve? ==> !a.turn.Reload? && (a.turn.Select? ==> a.turn.re == re))
    && HP.Step(s.router, Seen(re, s, a, t), t.router)
  }

  ghost predicate Steps(re: RT.Regex, run: seq<State>, acts: seq<Action>) {
    |run| == |acts| + 1 && forall i :: 0 <= i < |acts| ==> Step(re, run[i], acts[i], run[i + 1])
  }

  ghost predicate IsRun(re: RT.Regex, run: seq<State>, acts: seq<Action>) {
    Steps(re, run, acts) && P.Init(run[0].pipe) && HP.Init(run[0].router)
  }

  /** From the first load on, the router's table is the one built from what the pipeline last gave it. */
  ghost predicate TableOk(re: RT.Regex, s: State) {
    s.pipe.phase.Running? ==> s.router.sh.table == RT.BuildTable(re, P.Given(s.pipe).routes)
  }

  ghost predicate Inv(re: RT.Regex, s: State) {
    P.Inv(s.pipe) && HP.Inv(s.router) && TableOk(re, s)
  }

  lemma ReloadedTable(re: RT.Regex, routes: seq<Route>, s: HP.State, t: HP.State)
    requires HP.Step(s, HP.Reload(re, routes), t)
    ensures t.sh.table == RT.BuildTable(re, routes)
  {
    hide RT.BuildTable;
  }

  /** Only the moves that reload change what was given. */
  lemma GivenKept(s: P.State, a: P.Action, t: P.State)
    requires P.Inv(s) && P.Step(s, a, t) && !a.Apply? && (a.InitialLoad? ==> P.RejectMessage(s.staticOnly, a.msg).Some?)
    ensures P.Given(t) == P.Given(s) && (t.phase.Running? <==> s.phase.Running?)
  {
  }

  lemma StepKeeps(re: RT.Regex, s: State, a: Action, t: State)
    requires Inv(re, s) && Step(re, s, a, t)
    ensures Inv(re, t)
    ensures !Reloads(s, a) ==> P.Given(t.pipe) == P.Given(s.pipe) && (t.pipe.phase.Running? <==> s.pipe.phase.Running?)
  {
    hide P.Inv, HP.Inv, P.Step, HP.Step, RT.BuildTable, P.Given;
    var seen := Seen(re, s, a, t);
    HS.StepKeeps(s.router, seen, t.router);
    if a.Pipe? { P.StepKeeps(s.pipe, a.move, t.pipe); }
    if Reloads(s, a) {
      ReloadedTable(re, P.Given(t.pipe).routes, s.router, t.router);
    } else {
      if a.Pipe? { GivenKept(s.pipe, a.move, t.pipe); }
      HT.TableKept(s.router, seen, t.router);
    }
  }

  lemma InitOk(re: RT.Regex, s: State)
    requires P.Init(s.pipe) && HP.Init(s.router)
    ensures Inv(re, s)
  {
    HP.InitOk(s.router);
  }

  lemma {:induction false} SegmentKeeps(re: RT.Regex, run: seq<State>, acts: seq<Action>, n: nat)
    requires Steps(re, run, acts) && Inv(re, run[0]) && n < |run|
    ensures Inv(re, run[n])
    ensures (forall i :: 0 <= i < n ==> !Reloads(run[i], acts[i])) ==>
              P.Given(run[n].pipe) == P.Given(run[0].pipe) &&
              (run[n].pipe.phase.Running? <==> run[0].pipe.phase.Running?)
  {
    hide Inv, Step, P.Given, Reloads;
    if n > 0 {
      SegmentKeeps(re, run, acts, n - 1);
      StepKeeps(re, run[n - 1], acts[n - 1], run[n]);
    }
  }

  /**
   * In every interleaving of pipeline, reloads, probes and requests the invariants hold of both, and the table is the
   * one given.
   */
  lemma RunKeeps(re: RT.Regex, run: seq<State>, acts: seq<Action>, n: nat)
    requires IsRun(re, run, acts) && n < |run|
    ensures Inv(re, run[n])
  {
    hide Inv, Step, P.Init, HP.Init;
    InitOk(re, run[0]);
    SegmentKeeps(re, run, acts, n);
  }

  /** The router's side of a run. */
  function Routers(run: seq<State>): seq<HP.State> {
    seq(|run|, i requires 0 <= i < |run| => run[i].router)
  }

  function Turns(re: RT.Regex, run: seq<State>, acts: seq<Action>): seq<HP.Action>
    requires |run| == |acts| + 1
  {
    seq(|acts|, i requires 0 <= i < |acts| => Seen(re, run[i], acts[i], run[i + 1]))
  }

  lemma RouterSteps(re: RT.Regex, run: seq<State>, acts: seq<Action>)
    requires Steps(re, run, acts)
    ensures HT.Steps(Routers(run), Turns(re, run, acts))
  {
    hide HP.Step, Seen, P.Step;
    var routers, turns := Routers(run), Turns(re, run, acts);
    forall i | 0 <= i < |turns| ensures HP.Step(routers[i], turns[i], routers[i + 1]) {
      assert Step(re, run[i], acts[i], run[i + 1]);
    }
  }

  // ----- what the served router is like -----

  /**
   * Whenever the pipeline is drained, the router's own table holds the routes of the last admitted messages minus
   * those whose host pattern is invalid, each as often as given.
   */
  lemma DrainedTable(re: RT.Regex, run: seq<State>, acts: seq<Action>, n: nat, walk: seq<string>, order: seq<string>)
    requires IsRun(re, run, acts) && n < |run| && P.Drained(run[n].pipe)
    requires Enumerates(walk, run[n].router.sh.table.exact.Keys)
    requires Enumerates(order, P.LastAccepted(run[n].pipe.accepted).Keys)
    ensures multiset(RT.Flatten(run[n].router.sh.table, walk)) ==
            multiset(Filter(ConcatIn(A.RoutesOf(P.LastAccepted(run[n].pipe.accepted)), order),
                            (r: Route) => RT.Filed(re, r)))
  {
    hide Step, P.Inv, HP.Inv, RT.BuildTable, RT.Flatten, Filter, ConcatIn;
    RunKeeps(re, run, acts, n);
    P.TableOfDrained(run[n].pipe, re, walk, order);
  }

  /**
   * Whenever the pipeline is drained, the router's health map has one cell per checked route of the last admitted
   * file, at most 128, and each of the file's pools has a counter.
   */
  lemma DrainedHealthMap(re: RT.Regex, run: seq<State>, acts: seq<Action>, n: nat, lib: FA.Lib, f: FA.RoutesFile)
    requires IsRun(re, run, acts) && n < |run| && P.Drained(run[n].pipe) && Serves(run[n].pipe, lib, f)
    requires AP.ParsesPlain(lib) && AP.PlainPaths(f)
    ensures |run[n].router.sh.health| == |Filter(FA.ExpandAll(lib, f.routes), Checked)| <= 128
    ensures forall r :: r in FA.ExpandAll(lib, f.routes) && AP.Pooled(r) ==> PoolKey(r) in run[n].router.sh.pools
  {
    hide Step, P.Inv, RT.BuildTable, Filter, FA.ExpandAll, FA.CheckFailure;
    RunKeeps(re, run, acts, n);
    DrainedProvides(run[n].pipe, lib, f);
    AP.OneCellWhileServed(lib, f, re, P.Given(run[n].pipe).routes, run[n].router.sh);
  }

  /**
   * A sweep that begins while an accepted file is served reaches its join within 320 seconds and the time lost: once
   * the clock is past them, the join has happened, whatever was reloaded or cancelled meanwhile.
   */
  lemma ServedSweepIsOver(re: RT.Regex, run: seq<State>, acts: seq<Action>, m: nat, j: nat, lib: FA.Lib,
                          f: FA.RoutesFile)
    requires IsRun(re, run, acts)
    requires m < j < |run| && acts[m] == Serve(HP.Collect) && Provides(run[m].pipe, lib, f)
    requires AP.ParsesPlain(lib) && AP.PlainPaths(f)
    requires run[j].router.clock >
             run[m + 1].router.clock + 320 * HP.SECOND + SB.LostTime(Routers(run), Turns(re, run, acts), m + 1, j)
    ensures exists i :: m < i < j && acts[i] == Serve(HP.Join)
  {
    hide Step, HT.Steps, HP.Inv, P.Inv, P.Given, RT.BuildTable, FA.ExpandAll, AP.PoolsFrom, AP.PlainPaths,
         AP.ParsesPlain, SB.LostTime;
    var routers, turns := Routers(run), Turns(re, run, acts);
    RouterSteps(re, run, acts);
    RunKeeps(re, run, acts, 0);
    RunKeeps(re, run, acts, m);
    assert turns[m].Collect? && routers[m] == run[m].router;
    assert routers[m + 1] == run[m + 1].router && routers[j] == run[j].router;
    var i := SB.AdmittedSweepIsOver(routers, turns, m, j, lib, f, re, P.Given(run[m].pipe).routes);
    assert acts[i] == Serve(HP.Join);
  }

  // ----- fair selection while served -----

  /** The members of a pool that a selection may take in a state. */
  function MembersAt(s: State, base: Route): seq<Route> {
    Filter(P.Given(s.pipe).routes, RT.ScanMemberOf(base, HP.Ready(s.router.sh)))
  }

  /** A request takes a member of the pool. */
  predicate Selects(s: State, a: Action, base: Route) {
    a.Serve? && a.turn.Select? && HT.StepPick(s.router, a.turn, PoolKey(base)) != []
  }

  /** The selections made from a pool along a stretch of a run. */
  function PicksOf(re: RT.Regex, run: seq<State>, acts: seq<Action>, base: Route): seq<Route>
    requires |run| == |acts| + 1
  {
    HT.RunPicks(Routers(run), Turns(re, run, acts), PoolKey(base))
  }

  /** At each selection from the pool its available members are these. */
  ghost predicate SameMembers(run: seq<State>, acts: seq<Action>, base: Route, members: seq<Route>)
    requires |run| == |acts| + 1
  {
    forall i :: 0 <= i < |acts| && Selects(run[i], acts[i], base) ==> MembersAt(run[i], base) == members
  }

  lemma ServedDraw(re: RT.Regex, s: State, lib: FA.Lib, f: FA.RoutesFile, base: Route)
    requires Inv(re, s) && Provides(s.pipe, lib, f) && base in P.Given(s.pipe).routes && AP.Pooled(base)
    ensures PF.DrawsOn(re, s.router.sh.table, HP.Ready(s.router.sh), PoolKey(base), MembersAt(s, base))
    ensures NoDuplicates(MembersAt(s, base))
    ensures forall x :: x in MembersAt(s, base) <==> AP.AvailableReplica(lib, f, base, HP.Ready(s.router.sh), x)
  {
    hide P.Inv, HP.Inv, RT.BuildTable, PF.DrawsOn, FA.ExpandAll, FA.CheckFailure, RT.ScanMemberOf, Filter, HP.Ready;
    var all, ready := P.Given(s.pipe).routes, HP.Ready(s.router.sh);
    AP.AdmittedClass(lib, f, all, base);
    PF.OneClassDraws(re, all, ready, base);
    AP.AvailableReplicas(lib, f, all, base, ready);
    forall x ensures x in MembersAt(s, base) <==> AP.AvailableReplica(lib, f, base, ready, x) {
      AP.MembersAreReplicas(lib, f, all, base, ready, x);
    }
  }

  lemma ServedCounter(re: RT.Regex, s: State, lib: FA.Lib, f: FA.RoutesFile, base: Route)
    requires Inv(re, s) && Provides(s.pipe, lib, f) && base in P.Given(s.pipe).routes && AP.Pooled(base)
    ensures PoolKey(base) in s.router.sh.pools && s.router.sh.pools[PoolKey(base)] < RT.UINT64
  {
    hide P.Inv, RT.BuildTable, FA.ExpandAll, FA.CheckFailure, Filter;
    var all := P.Given(s.pipe).routes;
    AP.CheckedFromFile(lib, f, all);
    AP.FileRoutesAreExact(lib, f, base);
    AP.ExactIsFiled(re, all, base);
  }

  /** A stretch without reloads draws on the same members throughout, if the selections find the same. */
  lemma StretchDraws(re: RT.Regex, run: seq<State>, acts: seq<Action>, lib: FA.Lib, f: FA.RoutesFile, base: Route,
                     members: seq<Route>)
    requires Steps(re, run, acts) && Inv(re, run[0]) && forall i :: 0 <= i < |acts| ==> !Reloads(run[i], acts[i])
    requires Provides(run[0].pipe, lib, f) && base in P.Given(run[0].pipe).routes && AP.Pooled(base)
    requires SameMembers(run, acts, base, members)
    ensures HT.DrawsAlways(Routers(run), Turns(re, run, acts), PoolKey(base), members)
  {
    hide Inv, PF.DrawsOn, P.Given, MembersAt, HP.Step, P.Step, AP.PoolsFrom, HP.Ready;
    var routers, turns := Routers(run), Turns(re, run, acts);
    forall i | 0 <= i < |turns| && HT.StepPick(routers[i], turns[i], PoolKey(base)) != []
      ensures HT.FoundAt(routers[i], turns[i]) == members
    {
      assert Step(re, run[i], acts[i], run[i + 1]);
      SegmentKeeps(re, run, acts, i);
      ServedDraw(re, run[i], lib, f, base);
      var q := PF.Request(turns[i].host, turns[i].path);
      PF.FoundDraws(re, routers[i].sh.table, HP.Ready(routers[i].sh), routers[i].sh.pools, q, PoolKey(base), members);
    }
  }

  function Counter(s: State, key: string): nat {
    if key in s.router.sh.pools then s.router.sh.pools[key] else 0
  }

  lemma {:induction false} NoSelectionNoPick(run: seq<HP.State>, acts: seq<HP.Action>, key: string)
    requires |run| == |acts| + 1 && forall i :: 0 <= i < |acts| ==> HT.StepPick(run[i], acts[i], key) == []
    ensures HT.RunPicks(run, acts, key) == []
  {
    hide HT.StepPick;
    if acts != [] { NoSelectionNoPick(run[1..], acts[1..], key); }
  }

  /** The same members are found without repetition, or nothing is selected at all. */
  lemma MembersOrNoPick(re: RT.Regex, run: seq<State>, acts: seq<Action>, lib: FA.Lib, f: FA.RoutesFile, base: Route,
                        members: seq<Route>)
    requires Steps(re, run, acts) && Inv(re, run[0]) && forall i :: 0 <= i < |acts| ==> !Reloads(run[i], acts[i])
    requires Provides(run[0].pipe, lib, f) && base in P.Given(run[0].pipe).routes && AP.Pooled(base)
    requires SameMembers(run, acts, base, members)
    ensures NoDuplicates(members) || PicksOf(re, run, acts, base) == []
    ensures forall i, x :: 0 <= i < |acts| && Selects(run[i], acts[i], base) ==>
              (x in members <==> AP.AvailableReplica(lib, f, base, HP.Ready(run[i].router.sh), x))
  {
    hide Inv, Step, P.Given, MembersAt, HP.Ready, HT.RunPicks, AP.PoolsFrom, AP.AvailableReplica, SameMembers, PicksOf,
         Provides;
    forall i | 0 <= i < |acts| && Selects(run[i], acts[i], base)
      ensures NoDuplicates(members)
      ensures forall x :: x in members <==> AP.AvailableReplica(lib, f, base, HP.Ready(run[i].router.sh), x)
    {
      MembersAtSelection(re, run, acts, i, lib, f, base, members);
    }
    if forall i :: 0 <= i < |acts| ==> !Selects(run[i], acts[i], base) { NothingPicked(re, run, acts, base); }
  }

  lemma MembersAtSelection(re: RT.Regex, run: seq<State>, acts: seq<Action>, i: nat, lib: FA.Lib, f: FA.RoutesFile,
                           base: Route, members: seq<Route>)
    requires Steps(re, run, acts) && Inv(re, run[0]) && forall i :: 0 <= i < |acts| ==> !Reloads(run[i], acts[i])
    requires Provides(run[0].pipe, lib, f) && base in P.Given(run[0].pipe).routes && AP.Pooled(base)
    requires i < |acts| && Selects(run[i], acts[i], base) && SameMembers(run, acts, base, members)
    ensures NoDuplicates(members)
    ensures forall x :: x in members <==> AP.AvailableReplica(lib, f, base, HP.Ready(run[i].router.sh), x)
  {
    hide Inv, Step, P.Given, MembersAt, HP.Ready, AP.PoolsFrom, AP.AvailableReplica;
    SegmentKeeps(re, run, acts, i);
    ServedDraw(re, run[i], lib, f, base);
  }

  lemma NothingPicked(re: RT.Regex, run: seq<State>, acts: seq<Action>, base: Route)
    requires |run| == |acts| + 1 && forall i :: 0 <= i < |acts| ==> !Selects(run[i], acts[i], base)
    ensures PicksOf(re, run, acts, base) == []
  {
    NoSelectionNoPick(Routers(run), Turns(re, run, acts), PoolKey(base));
  }

  /**
   * While an accepted file is served, among whatever other routes, and the pool's available replicas are the same at
   * each of its selections in a stretch, k * m consecutive selections pick each of the m replicas k times and
   * nothing else: through any ticks, probe results, owner restarts, arriving messages and requests to other pools.
   */
  lemma ServedFairly(re: RT.Regex, run: seq<State>, acts: seq<Action>, lib: FA.Lib, f: FA.RoutesFile, base: Route,
                     members: seq<Route>, from: nat, k: nat)
    requires Steps(re, run, acts) && Inv(re, run[0]) && forall i :: 0 <= i < |acts| ==> !Reloads(run[i], acts[i])
    requires Provides(run[0].pipe, lib, f) && base in P.Given(run[0].pipe).routes && AP.Pooled(base)
    requires SameMembers(run, acts, base, members) && members != []
    requires from + k * |members| <= |PicksOf(re, run, acts, base)|
    requires Counter(run[0], PoolKey(base)) + |PicksOf(re, run, acts, base)| < RT.UINT64
    ensures PF.Even(PicksOf(re, run, acts, base), from, k, members)
    ensures forall i, x :: 0 <= i < |acts| && Selects(run[i], acts[i], base) ==>
              (x in members <==> AP.AvailableReplica(lib, f, base, HP.Ready(run[i].router.sh), x))
  {
    hide Inv, Step, HP.Step, PF.DrawsOn, PF.Even, P.Given, MembersAt, HP.Ready, HT.RunPicks, AP.PoolsFrom,
         AP.AvailableReplica;
    var routers, turns := Routers(run), Turns(re, run, acts);
    MembersOrNoPick(re, run, acts, lib, f, base, members);
    if NoDuplicates(members) {
      ServedCounter(re, run[0], lib, f, base);
      StretchDraws(re, run, acts, lib, f, base, members);
      RouterSteps(re, run, acts);
      NoReloadTurn(re, run, acts);
      HT.FairBetweenChanges(routers, turns, PoolKey(base), members, from, k);
    } else {
      PF.EvenNothing(members, from, k);
    }
  }

  lemma NoReloadTurn(re: RT.Regex, run: seq<State>, acts: seq<Action>)
    requires Steps(re, run, acts) && forall i :: 0 <= i < |acts| ==> !Reloads(run[i], acts[i])
    ensures forall i :: 0 <= i < |acts| ==> !Turns(re, run, acts)[i].Reload?
  {
    hide HP.Step, P.Step;
    forall i | 0 <= i < |acts| ensures !Turns(re, run, acts)[i].Reload? {
      assert Step(re, run[i], acts[i], run[i + 1]);
    }
  }

  // ----- the targets that are dialled -----

  lemma ReplicasApart(lib: FA.Lib, f: FA.RoutesFile, base: Route, ready: set<string>, a: Route, b: Route)
    requires FA.CheckFailure(lib, f).None? && AP.Pooled(base)
    requires AP.AvailableReplica(lib, f, base, ready, a) && AP.AvailableReplica(lib, f, base, ready, b)
    ensures a.target == b.target ==> a == b
  {
    hide FA.CheckFailure, FA.ExpandAll;
    var keep := AP.Of(base.hostname, base.backendPool);
    AP.AdmittedPool(lib, f, a);
    FilterMember(FA.ExpandAll(lib, f.routes), keep, a);
    FilterMember(FA.ExpandAll(lib, f.routes), keep, b);
    assert AP.Of(a.hostname, a.backendPool)(b);
    FilterMember(FA.ExpandAll(lib, f.routes), AP.Of(a.hostname, a.backendPool), b);
  }

  lemma MembersApart(re: RT.Regex, run: seq<State>, acts: seq<Action>, lib: FA.Lib, f: FA.RoutesFile, base: Route,
                     members: seq<Route>, i: nat)
    requires Steps(re, run, acts) && Inv(re, run[0]) && forall i :: 0 <= i < |acts| ==> !Reloads(run[i], acts[i])
    requires Provides(run[0].pipe, lib, f) && base in P.Given(run[0].pipe).routes && AP.Pooled(base)
    requires i < |acts| && Selects(run[i], acts[i], base) && SameMembers(run, acts, base, members)
    ensures PF.TargetsApart(members)
  {
    hide Inv, Step, P.Given, MembersAt, HP.Ready, AP.AvailableReplica, FA.CheckFailure;
    MembersAtSelection(re, run, acts, i, lib, f, base, members);
    forall a, b | a in members && b in members && a.target == b.target ensures a == b {
      ReplicasApart(lib, f, base, HP.Ready(run[i].router.sh), a, b);
    }
  }

  /**
   * So, in such a stretch, each available replica's own target is dialled k times in k * m selections, and no other.
   */
  lemma ServedTargets(re: RT.Regex, run: seq<State>, acts: seq<Action>, lib: FA.Lib, f: FA.RoutesFile, base: Route,
                      members: seq<Route>, from: nat, k: nat)
    requires Steps(re, run, acts) && Inv(re, run[0]) && forall i :: 0 <= i < |acts| ==> !Reloads(run[i], acts[i])
    requires Provides(run[0].pipe, lib, f) && base in P.Given(run[0].pipe).routes && AP.Pooled(base)
    requires SameMembers(run, acts, base, members) && members != []
    requires from + k * |members| <= |PicksOf(re, run, acts, base)|
    requires Counter(run[0], PoolKey(base)) + |PicksOf(re, run, acts, base)| < RT.UINT64
    ensures PF.EvenTargets(PicksOf(re, run, acts, base), from, k, members)
  {
    hide Inv, Step, HP.Step, P.Given, MembersAt, HP.Ready, PicksOf, AP.PoolsFrom, AP.AvailableReplica, SameMembers,
         PF.Even, PF.EvenTargets, Provides, Selects, Reloads;
    ServedFairly(re, run, acts, lib, f, base, members, from, k);
    if forall i :: 0 <= i < |acts| ==> !Selects(run[i], acts[i], base) {
      NothingPicked(re, run, acts, base);
      PF.EvenTargetsNothing(members, from, k);
    } else {
      var i :| 0 <= i < |acts| && Selects(run[i], acts[i], base);
      MembersApart(re, run, acts, lib, f, base, members, i);
      PF.EvenByTarget(PicksOf(re, run, acts, base), from, k, members);
    }
  }
}
