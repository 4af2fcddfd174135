/**
 * Health checking of the file being served, through the whole program: what its records ask for is what is probed,
 * at the times they ask for, and what decides whether a replica may be selected.
 */
module ServedHealth {
  import opened Domain
  import FA = FileAdmission
  import AP = AdmittedPools
  import HP = HealthProtocol
  import HT = HealthTheorems
  import HR = HealthRecords
  import P = Pipeline
  import RT = RouteTable
  import CC = CheckedCells
  import C = Composition

  /** Seconds as the file gives them, in the clock's nanoseconds. */
  function Nanoseconds(seconds: int): int {
    seconds * 1_000_000_000
  }

  /** The seconds a record of the file gives for its health check. */
  ghost predicate Times(f: FA.RoutesFile, n: nat, interval: int, timeout: int) {
    n < |f.routes| && f.routes[n].health.Some? &&
    f.routes[n].health.value.interval == FA.IntValue(interval) &&
    f.routes[n].health.value.timeout == FA.IntValue(timeout)
  }

  lemma RouterRun(re: RT.Regex, run: seq<C.State>, acts: seq<C.Action>)
    requires C.IsRun(re, run, acts)
    ensures |run| == |acts| + 1
    ensures HT.IsRun(C.Routers(run), C.Turns(re, run, acts))
  {
    hide C.Step, HT.Steps;
    C.RouterSteps(re, run, acts);
    assert C.Routers(run)[0] == run[0].router;
  }

  /** The cell of a host and target that the served file asks to be probed, and the times it keeps to. */
  lemma ServedCell(re: RT.Regex, run: seq<C.State>, acts: seq<C.Action>, q: nat, lib: FA.Lib, f: FA.RoutesFile,
                   n: nat, t: string, h: string) returns (id: nat)
    requires C.IsRun(re, run, acts) && q < |run| && C.Provides(run[q].pipe, lib, f)
    requires AP.ParsesPlain(lib) && AP.PlainPaths(f) && CC.Probed(lib, f, n, t, h)
    ensures var key, sh := HealthKey(CC.RouteOf(f, n, t, h)), run[q].router.sh;
            key in sh.health && sh.health[key] == id < |sh.cells| && sh.cells[id].route == CC.RouteOf(f, n, t, h)
    ensures CC.RouteOf(f, n, t, h).health.Some?
    ensures forall interval, timeout :: Times(f, n, interval, timeout) ==>
              HP.Interval(CC.RouteOf(f, n, t, h)) == Nanoseconds(interval) &&
              HP.Timeout(CC.RouteOf(f, n, t, h)) == Nanoseconds(timeout)
  {
    hide C.IsRun, P.Inv, P.Given, RT.BuildTable, FA.ExpandAll, FA.CheckFailure, HealthKey;
    C.RunKeeps(re, run, acts, q);
    CC.CellOfProbed(lib, f, re, P.Given(run[q].pipe).routes, run[q].router.sh, n, t, h);
    CC.ProbedIsChecked(lib, f, n, t, h);
    id := run[q].router.sh.health[HealthKey(CC.RouteOf(f, n, t, h))];
  }

  /**
   * The last result let through for a cell is that of a probe in time: launched under this generation, answered 2xx.
   */
  ghost predicate LastPassed(s: HP.State, id: nat, timeout: int) {
    var last := HP.LastFor(s.log, id);
    && last.Some? && last.value.gen == s.sh.generation && last.value.ok
    && last.value.started <= last.value.answered < last.value.started + timeout
  }

  /**
   * While an accepted file is served, a replica that one of its records asks to be checked may be selected exactly
   * when an owner runs and the last result for its own cell passed: 2xx, within the record's timeout in seconds.
   */
  lemma ServedExactly(re: RT.Regex, run: seq<C.State>, acts: seq<C.Action>, q: nat, lib: FA.Lib, f: FA.RoutesFile,
                      n: nat, t: string, h: string, interval: int, timeout: int)
    requires C.IsRun(re, run, acts) && q < |run| && C.Provides(run[q].pipe, lib, f)
    requires AP.ParsesPlain(lib) && AP.PlainPaths(f) && CC.Probed(lib, f, n, t, h) && Times(f, n, interval, timeout)
    ensures var s, x := run[q].router, CC.RouteOf(f, n, t, h);
            && HealthKey(x) in s.sh.health
            && (RT.Available(x, HP.Ready(s.sh)) <==>
                 s.sh.running && LastPassed(s, s.sh.health[HealthKey(x)], Nanoseconds(timeout)))
  {
    hide C.IsRun, C.Provides, HP.Interval, HP.Timeout, FA.ExpandAll, FA.CheckFailure, HT.IsRun, HealthKey, HP.Ready;
    var id := ServedCell(re, run, acts, q, lib, f, n, t, h);
    RouterRun(re, run, acts);
    assert C.Routers(run)[q] == run[q].router;
    HR.HealthyExactly(C.Routers(run), C.Turns(re, run, acts), q, HealthKey(CC.RouteOf(f, n, t, h)));
  }

  /** And two results for it are apart by at least the record's interval in seconds, from completion to start. */
  lemma ServedSpacing(re: RT.Regex, run: seq<C.State>, acts: seq<C.Action>, q: nat, lib: FA.Lib, f: FA.RoutesFile,
                      n: nat, t: string, h: string, interval: int, timeout: int, i: nat, j: nat)
    requires C.IsRun(re, run, acts) && q < |run| && C.Provides(run[q].pipe, lib, f)
    requires AP.ParsesPlain(lib) && AP.PlainPaths(f) && CC.Probed(lib, f, n, t, h) && Times(f, n, interval, timeout)
    requires var s, key := run[q].router, HealthKey(CC.RouteOf(f, n, t, h));
             && i < j < |s.log| && key in s.sh.health && s.log[i].cell == s.log[j].cell == s.sh.health[key]
    ensures run[q].router.log[i].admitted + Nanoseconds(interval) <= run[q].router.log[j].started
  {
    hide C.IsRun, C.Provides, HP.Interval, HP.Timeout, FA.ExpandAll, FA.CheckFailure, HT.IsRun, HealthKey;
    var id := ServedCell(re, run, acts, q, lib, f, n, t, h);
    RouterRun(re, run, acts);
    assert C.Routers(run)[q] == run[q].router;
    HT.ResultSpacing(C.Routers(run), C.Turns(re, run, acts), q, i, j);
  }
}
