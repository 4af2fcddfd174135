/** Which routes own a health cell, in terms of the list a reload is given and of the file that was accepted. */
module CheckedCells {
  import opened Domain
  import opened Sequences
  import opened RouteTable
  import opened FileAdmission
  import opened AdmittedPools
  import HP = HealthProtocol
  import HS = HealthSafety

  /** A route owns a cell: it asks for a health check, belongs to a pool, and was configured by hand. */
  ghost predicate Owns(re: Regex, r: Route) {
    r.health.Some? && r.backendPool != "" && r.source == "static" && (r.isRegexp ==> re.compiles(r.hostname))
  }

  lemma FiledInTable(re: Regex, routes: seq<Route>, r: Route)
    requires r in routes && (r.isRegexp ==> re.compiles(r.hostname))
    ensures HP.InTable(BuildTable(re, routes), r)
  {
    if r.isRegexp {
      var ps := Patterns(re, routes);
      PatternAppears(re, routes, r.hostname);
      var i :| 0 <= i < |ps| && ps[i] == r.hostname;
      var g := BuildTable(re, routes).groups[i];
      FilterMember(routes, OnPattern(r.hostname), r);
      SortedPermutation(Filter(routes, OnPattern(r.hostname)));
      assert r in multiset(Filter(routes, OnPattern(r.hostname)));
      assert r in multiset(g.routes);
      assert g in BuildTable(re, routes).groups;
    } else {
      ExactIsFiled(re, routes, r);
    }
  }

  lemma TableIsFiled(re: Regex, routes: seq<Route>, r: Route)
    requires HP.InTable(BuildTable(re, routes), r)
    ensures r in routes && (r.isRegexp ==> re.compiles(r.hostname))
  {
    var t := BuildTable(re, routes);
    HS.BuiltRoutesAreInput(re, routes, r);
    if r.isRegexp {
      if h :| h in t.exact && r in t.exact[h] {
        GroupMember(routes, OnHost(h), r);
      } else {
        var g :| g in t.groups && r in g.routes;
        var i :| 0 <= i < |t.groups| && t.groups[i] == g;
        GroupMember(routes, OnPattern(g.pattern), r);
        assert Patterns(re, routes)[i] in Patterns(re, routes);
        PatternAppears(re, routes, r.hostname);
      }
    }
  }

  lemma GroupMember(routes: seq<Route>, keep: Route -> bool, r: Route)
    requires r in ByPathDesc(Filter(routes, keep))
    ensures keep(r)
  {
    SortedPermutation(Filter(routes, keep));
    assert r in multiset(ByPathDesc(Filter(routes, keep)));
    assert r in multiset(Filter(routes, keep));
    FilterMember(routes, keep, r);
  }

  /**
   * After a reload the health map has the keys of the owning routes of the input and no other, each with a new cell
   * that is due at once; there is a counter at zero for each pool, and the owner has been woken.
   */
  lemma CellsExactly(re: Regex, routes: seq<Route>, s: HP.Shared, t: HP.Shared)
    requires HP.Update(re, routes, s, t)
    ensures t.wake && t.generation == s.generation + 1
    ensures forall k :: k in t.pools <==> exists r :: r in routes && r.backendPool != "" && PoolKey(r) == k
    ensures forall k :: k in t.pools ==> t.pools[k] == 0
    ensures forall k :: k in t.health <==> exists r :: r in routes && Owns(re, r) && HealthKey(r) == k
    ensures forall k :: k in t.health ==>
              && t.health[k] < |t.cells| && t.cells[t.health[k]].route in routes && Owns(re, t.cells[t.health[k]].route)
              && HealthKey(t.cells[t.health[k]].route) == k
              && !t.cells[t.health[k]].healthy && t.cells[t.health[k]].next == 0 && t.cells[t.health[k]].checkedAt == 0
  {
    hide BuildTable;
    forall k ensures k in t.health <==> exists r :: r in routes && Owns(re, r) && HealthKey(r) == k {
      if k in t.health {
        var r :| HP.InTable(t.table, r) && Checked(r) && HealthKey(r) == k;
        TableIsFiled(re, routes, r);
      }
      if r :| r in routes && Owns(re, r) && HealthKey(r) == k { FiledInTable(re, routes, r); }
    }
    forall k | k in t.health
      ensures t.cells[t.health[k]].route in routes && Owns(re, t.cells[t.health[k]].route)
    {
      TableIsFiled(re, routes, t.cells[t.health[k]].route);
    }
  }

  // ----- of an accepted file -----

  /** In an accepted file a route that asks for a health check is checked. */
  lemma AskedIsChecked(lib: Lib, f: RoutesFile, x: Route)
    requires CheckFailure(lib, f).None? && x in ExpandAll(lib, f.routes)
    ensures Checked(x) <==> x.health.Some?
  {
    AcceptedExactly(lib, f);
    ExpandedFrom(lib, f.routes, x);
    var n: nat, t, h :| Expands(lib, f.routes, n, t, h) && x == MakeRoute(n, f.routes[n], t, h);
    assert f.routes[n] in f.routes;
    PoolNameIsPlain(n);
  }

  lemma CheckedPairs(lib: Lib, f: RoutesFile)
    requires CheckFailure(lib, f).None?
    ensures |Filter(ExpandAll(lib, f.routes), Checked)| == ProbedPairs(lib, f.routes)
  {
    hide ExpandAll, CheckFailure, ProbedPairs, Filter, Checked;
    var all := ExpandAll(lib, f.routes);
    AcceptedExactly(lib, f);
    PairsCounted(lib, f.routes);
    forall x | x in all ensures Checked(x) <==> HealthChecked(x) { AskedIsChecked(lib, f, x); }
    FilterFewer(all, Checked, HealthChecked);
    FilterFewer(all, HealthChecked, Checked);
  }

  /** The route of record n to target t under host h, if the record asks for a health check. */
  ghost predicate Probed(lib: Lib, f: RoutesFile, n: nat, t: string, h: string) {
    Expands(lib, f.routes, n, t, h) && f.routes[n].health.Some?
  }

  function RouteOf(f: RoutesFile, n: nat, t: string, h: string): Route
    requires n < |f.routes|
  {
    MakeRoute(n, f.routes[n], t, h)
  }

  lemma ProbedIsChecked(lib: Lib, f: RoutesFile, n: nat, t: string, h: string)
    requires CheckFailure(lib, f).None? && Probed(lib, f, n, t, h)
    ensures RouteOf(f, n, t, h) in ExpandAll(lib, f.routes) && Checked(RouteOf(f, n, t, h))
    ensures var c, x := f.routes[n].health.value, RouteOf(f, n, t, h);
            && c.interval.IntValue? && c.timeout.IntValue?
            && x.health == Some(HealthCheck(c.path, c.interval.n, c.timeout.n))
            && 5 <= c.interval.n <= 300 && 1 <= c.timeout.n <= 10
  {
    AcceptedExactly(lib, f);
    assert RecordOk(lib, f.routes[n]);
    RecordAppears(lib, f.routes, n, t, h);
    AskedIsChecked(lib, f, RouteOf(f, n, t, h));
  }

  /**
   * While the router serves an accepted file, it holds one cell for each host and target of the file's records with a
   * health check, and no other: as many as the file asks to be probed.
   */
  lemma OneCellPerProbedPair(lib: Lib, f: RoutesFile, re: Regex, all: seq<Route>, sh: HP.Shared)
    requires PoolsFrom(lib, f, all) && ParsesPlain(lib) && PlainPaths(f)
    requires HP.SharedOk(sh) && sh.table == BuildTable(re, all)
    ensures |sh.health| == ProbedPairs(lib, f.routes)
    ensures forall n: nat, t, h :: Probed(lib, f, n, t, h) ==> HealthKey(RouteOf(f, n, t, h)) in sh.health
  {
    hide BuildTable, Filter, ExpandAll, CheckFailure, ProbedPairs, HealthKey, Checked;
    OneCellWhileServed(lib, f, re, all, sh);
    CheckedPairs(lib, f);
    forall n: nat, t, h | Probed(lib, f, n, t, h) ensures HealthKey(RouteOf(f, n, t, h)) in sh.health {
      CellOfProbed(lib, f, re, all, sh, n, t, h);
    }
  }

  /** And the cell of such a pair probes that very route. */
  lemma CellOfProbed(lib: Lib, f: RoutesFile, re: Regex, all: seq<Route>, sh: HP.Shared, n: nat, t: string, h: string)
    requires PoolsFrom(lib, f, all) && ParsesPlain(lib) && PlainPaths(f)
    requires HP.SharedOk(sh) && sh.table == BuildTable(re, all) && Probed(lib, f, n, t, h)
    ensures var x := RouteOf(f, n, t, h);
            HealthKey(x) in sh.health && sh.health[HealthKey(x)] < |sh.cells| &&
            sh.cells[sh.health[HealthKey(x)]].route == x
  {
    hide BuildTable, Filter, ExpandAll, CheckFailure;
    var x := RouteOf(f, n, t, h);
    ProbedIsChecked(lib, f, n, t, h);
    CheckedFromFile(lib, f, all);
    FilterMember(ExpandAll(lib, f.routes), Checked, x);
    FilterMember(all, Checked, x);
    FileRoutesAreExact(lib, f, x);
    ExactIsFiled(re, all, x);
    var y := sh.cells[sh.health[HealthKey(x)]].route;
    HS.BuiltRoutesAreInput(re, all, y);
    FilterMember(all, Checked, y);
    FilterMember(ExpandAll(lib, f.routes), Checked, y);
    CheckedIsPlain(lib, f, x);
    CheckedIsPlain(lib, f, y);
    HealthKeyTells(x, y);
    OnePoolOneRecord(lib, f, x, y);
  }
}
