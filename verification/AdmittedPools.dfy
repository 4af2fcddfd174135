/** What an accepted routes file guarantees to the router: pools, health keys, counters and fair selection. */
module AdmittedPools {
  import opened Domain
  import opened Sequences
  import opened RouteTable
  import opened PoolFairness
  import opened FileAdmission
  import HP = HealthProtocol
  import HS = HealthSafety

  // ----- keys can be taken apart -----

  /** Free of the separator of keys. */
  predicate Plain(s: string) {
    (0 as char) !in s
  }

  lemma LastSeparator(a: string, b: string)
    requires Plain(b)
    ensures (a + NUL + b)[|a|] == (0 as char)
    ensures forall i :: |a| < i < |a + NUL + b| ==> (a + NUL + b)[i] != (0 as char)
  {
    forall i | |a| < i < |a + NUL + b| ensures (a + NUL + b)[i] != (0 as char) {
      assert (a + NUL + b)[i] == b[i - |a| - 1];
    }
  }

  /** What follows the last separator is determined, and with it what precedes. */
  lemma SplitAtLast(a: string, b: string, c: string, d: string)
    requires a + NUL + b == c + NUL + d && Plain(b) && Plain(d)
    ensures a == c && b == d
  {
    LastSeparator(a, b);
    LastSeparator(c, d);
    assert |a| == |c|;
    assert a == (a + NUL + b)[..|a|] && c == (c + NUL + d)[..|c|];
    assert b == (a + NUL + b)[|a| + 1..] && d == (c + NUL + d)[|c| + 1..];
  }

  lemma HealthKeyTells(r: Route, s: Route)
    requires HealthKey(r) == HealthKey(s)
    requires Plain(r.backendPool) && Plain(r.path) && Plain(r.target) && Plain(s.backendPool) && Plain(s.path)
    requires Plain(s.target)
    ensures r.hostname == s.hostname && r.backendPool == s.backendPool && r.path == s.path && r.target == s.target
  {
    SplitAtLast(r.hostname + NUL + r.backendPool + NUL + r.path, r.target,
                s.hostname + NUL + s.backendPool + NUL + s.path, s.target);
    SplitAtLast(r.hostname + NUL + r.backendPool, r.path, s.hostname + NUL + s.backendPool, s.path);
    SplitAtLast(r.hostname, r.backendPool, s.hostname, s.backendPool);
  }

  lemma PoolKeyTells(r: Route, s: Route)
    requires PoolKey(r) == PoolKey(s) && Plain(r.backendPool) && Plain(s.backendPool)
    ensures r.hostname == s.hostname && r.backendPool == s.backendPool
  {
    SplitAtLast(r.hostname, r.backendPool, s.hostname, s.backendPool);
  }

  lemma {:induction false} DigitsArePlain(n: nat)
    ensures Plain(DecimalNat(n))
  {
  }

  lemma PoolNameIsPlain(n: nat)
    ensures Plain(PoolName(n)) && PoolName(n) != ""
  {
    DigitsArePlain(n);
  }

  lemma PoolNameTells(m: nat, n: nat)
    requires PoolName(m) == PoolName(n)
    ensures m == n
  {
    assert PoolName(m)[7..] == DecimalNat(m) && PoolName(n)[7..] == DecimalNat(n);
    DecimalReadsBack(m);
    DecimalReadsBack(n);
  }

  // ----- one pool of one record -----

  function Of(host: string, pool: string): Route -> bool {
    (r: Route) => r.hostname == host && r.backendPool == pool
  }

  /** The replicas of record n under one of its host names. */
  function Replicas(n: nat, r: RouteConfig, targets: seq<string>, host: string): seq<Route> {
    seq(|targets|, i requires 0 <= i < |targets| => MakeRoute(n, r, targets[i], host))
  }

  lemma {:induction false} OneHost(n: nat, r: RouteConfig, target: string, names: seq<string>, host: string,
                                   pool: string)
    requires NoDuplicates(names)
    ensures Filter(OnHosts(n, r, target, names), Of(host, pool)) ==
            if host in names && PoolOf(n, r) == pool then [MakeRoute(n, r, target, host)] else []
  {
    if names != [] {
      var m := |names| - 1;
      OneHost(n, r, target, names[..m], host, pool);
      assert names == names[..m] + [names[m]];
      assert OnHosts(n, r, target, names) == OnHosts(n, r, target, names[..m]) + [MakeRoute(n, r, target, names[m])];
      FilterSnoc(OnHosts(n, r, target, names[..m]), MakeRoute(n, r, target, names[m]), Of(host, pool));
    }
  }

  lemma {:induction false} OneRecord(n: nat, r: RouteConfig, targets: seq<string>, names: seq<string>, host: string,
                                     pool: string)
    requires NoDuplicates(names)
    ensures Filter(ExpandTargets(n, r, targets, names), Of(host, pool)) ==
            if host in names && PoolOf(n, r) == pool then Replicas(n, r, targets, host) else []
  {
    if targets != [] {
      hide Filter, ExpandTargets, OnHosts, Of, Replicas, MakeRoute, PoolOf;
      var m := |targets| - 1;
      OneRecord(n, r, targets[..m], names, host, pool);
      OneHost(n, r, targets[m], names, host, pool);
      OneTarget(n, r, targets, names, host, pool);
    }
  }

  lemma OneTarget(n: nat, r: RouteConfig, targets: seq<string>, names: seq<string>, host: string, pool: string)
    requires targets != []
    ensures var m, pred := |targets| - 1, Of(host, pool);
            && Filter(ExpandTargets(n, r, targets, names), pred) ==
               Filter(ExpandTargets(n, r, targets[..m], names), pred) + Filter(OnHosts(n, r, targets[m], names), pred)
            && Replicas(n, r, targets, host) == Replicas(n, r, targets[..m], host) + [MakeRoute(n, r, targets[m], host)]
  {
    hide Filter, OnHosts, Of, MakeRoute;
    var m := |targets| - 1;
    FilterConcat(ExpandTargets(n, r, targets[..m], names), OnHosts(n, r, targets[m], names), Of(host, pool));
  }

  /** The routes of pool n under a host are the replicas of record n, in the order the record lists them. */
  lemma {:induction false} PoolIsRecord(lib: Lib, records: seq<RouteConfig>, n: nat, host: string)
    ensures Filter(ExpandAll(lib, records), Of(host, PoolName(n))) ==
            if n < |records| && records[n].targets.Some? && host in HostNames(lib, records[n])
            then Replicas(n, records[n], Targets(lib, Values(records[n])), host) else []
  {
    if records != [] {
      var m := |records| - 1;
      PoolIsRecord(lib, records[..m], n, host);
      NamesAre([records[m].host] + records[m].hosts, lib.isSpace);
      OneRecord(m, records[m], Targets(lib, Values(records[m])), HostNames(lib, records[m]), host, PoolName(n));
      FilterConcat(ExpandAll(lib, records[..m]), Expand(lib, m, records[m]), Of(host, PoolName(n)));
      PoolNameIsPlain(n);
      if PoolOf(m, records[m]) == PoolName(n) { PoolNameTells(m, n); }
    }
  }

  predicate Pooled(r: Route) {
    r.backendPool != ""
  }

  /** The record a pooled route comes from. */
  lemma PooledFrom(lib: Lib, f: RoutesFile, x: Route) returns (n: nat)
    requires x in ExpandAll(lib, f.routes) && Pooled(x)
    ensures n < |f.routes| && f.routes[n].targets.Some? && x.backendPool == PoolName(n)
    ensures x.hostname in HostNames(lib, f.routes[n])
    ensures x.target in Targets(lib, Values(f.routes[n])) && x == MakeRoute(n, f.routes[n], x.target, x.hostname)
    ensures Filter(ExpandAll(lib, f.routes), Of(x.hostname, x.backendPool)) ==
            Replicas(n, f.routes[n], Targets(lib, Values(f.routes[n])), x.hostname)
  {
    ExpandedFrom(lib, f.routes, x);
    var m: nat, t, h :| Expands(lib, f.routes, m, t, h) && x == MakeRoute(m, f.routes[m], t, h);
    n := m;
    PoolIsRecord(lib, f.routes, n, x.hostname);
  }

  // ----- what admission promises -----

  /**
   * A pool of an accepted file has 1 to 32 members under each of its hosts, with pairwise distinct targets
   * and one path, strip flag, health check, kind of host and protocol.
   */
  lemma AdmittedPool(lib: Lib, f: RoutesFile, x: Route)
    requires CheckFailure(lib, f).None? && x in ExpandAll(lib, f.routes) && Pooled(x)
    ensures var pool := Filter(ExpandAll(lib, f.routes), Of(x.hostname, x.backendPool));
            && 1 <= |pool| <= 32
            && (forall i, j :: 0 <= i < j < |pool| ==> pool[i].target != pool[j].target)
            && (forall i :: 0 <= i < |pool| ==> pool[i] == x.(target := pool[i].target))
  {
    hide ExpandAll, CheckFailure, Filter;
    AcceptedExactly(lib, f);
    var n := PooledFrom(lib, f, x);
    assert f.routes[n] in f.routes;
  }

  /** A pool name stands for one record: routes that share it agree on everything but host and target. */
  lemma OnePoolOneRecord(lib: Lib, f: RoutesFile, x: Route, y: Route)
    requires x in ExpandAll(lib, f.routes) && y in ExpandAll(lib, f.routes) && Pooled(x)
    requires x.backendPool == y.backendPool
    ensures y == x.(target := y.target, hostname := y.hostname)
  {
    var m := PooledFrom(lib, f, x);
    var n := PooledFrom(lib, f, y);
    PoolNameTells(m, n);
  }

  /** The URL parser refuses the separator, as it does every ASCII control character. */
  ghost predicate ParsesPlain(lib: Lib) {
    forall s :: lib.parseUrl(s).Some? ==> Plain(s)
  }

  ghost predicate PlainPaths(f: RoutesFile) {
    forall r :: r in f.routes && r.health.Some? ==> Plain(r.path)
  }

  ghost predicate KeysApart(routes: seq<Route>) {
    forall i, j :: 0 <= i < j < |routes| ==> HealthKey(routes[i]) != HealthKey(routes[j])
  }

  lemma PooledOncePerTarget(lib: Lib, f: RoutesFile, i: nat, j: nat)
    requires CheckFailure(lib, f).None?
    requires var all := ExpandAll(lib, f.routes); i < j < |all| && Pooled(all[i])
    ensures var all := ExpandAll(lib, f.routes);
            all[i].hostname != all[j].hostname || all[i].backendPool != all[j].backendPool ||
            all[i].target != all[j].target
  {
    var all := ExpandAll(lib, f.routes);
    var keep := Of(all[i].hostname, all[i].backendPool);
    if keep(all[j]) {
      AdmittedPool(lib, f, all[i]);
      var a, b := FilterTwoPositions(all, keep, i, j);
    }
  }

  /** Two kept positions of a sequence keep their order in the filtered one. */
  lemma FilterTwoPositions<T>(s: seq<T>, keep: T -> bool, i: nat, j: nat) returns (a: nat, b: nat)
    requires i < j < |s| && keep(s[i]) && keep(s[j])
    ensures a < b < |Filter(s, keep)| && Filter(s, keep)[a] == s[i] && Filter(s, keep)[b] == s[j]
  {
    a := FilterPosition(s[..j], keep, i);
    FilterConcat(s[..j], s[j..], keep);
    FilterConcat([s[j]], s[j + 1..], keep);
    assert s == s[..j] + s[j..] && s[j..] == [s[j]] + s[j + 1..];
    assert [s[j]] == [] + [s[j]];
    FilterSnoc([], s[j], keep);
    b := |Filter(s[..j], keep)|;
  }

  lemma {:induction false} FilterPosition<T>(s: seq<T>, keep: T -> bool, i: nat) returns (a: nat)
    requires i < |s| && keep(s[i])
    ensures a < |Filter(s, keep)| && Filter(s, keep)[a] == s[i]
  {
    if i == |s| - 1 {
      a := |Filter(s, keep)| - 1;
    } else {
      a := FilterPosition(s[..|s| - 1], keep, i);
    }
  }

  lemma CheckedIsPlain(lib: Lib, f: RoutesFile, x: Route)
    requires CheckFailure(lib, f).None? && ParsesPlain(lib) && PlainPaths(f)
    requires x in ExpandAll(lib, f.routes) && Checked(x)
    ensures Plain(x.backendPool) && Plain(x.path) && Plain(x.target)
  {
    AcceptedExactly(lib, f);
    var n := PooledFrom(lib, f, x);
    assert f.routes[n] in f.routes;
    PoolNameIsPlain(n);
    CheckedTargetsAreLoaded(lib, f.routes, x);
  }

  /** In an accepted file the health keys of the checked routes are pairwise distinct, and there are at most 128. */
  lemma AdmittedKeys(lib: Lib, f: RoutesFile)
    requires CheckFailure(lib, f).None? && ParsesPlain(lib) && PlainPaths(f)
    ensures KeysApart(Filter(ExpandAll(lib, f.routes), Checked))
    ensures |Filter(ExpandAll(lib, f.routes), Checked)| <= 128
  {
    var all := ExpandAll(lib, f.routes);
    forall i, j | 0 <= i < j < |all| && Checked(all[i]) && Checked(all[j])
      ensures HealthKey(all[i]) != HealthKey(all[j])
    {
      if HealthKey(all[i]) == HealthKey(all[j]) {
        CheckedIsPlain(lib, f, all[i]);
        CheckedIsPlain(lib, f, all[j]);
        HealthKeyTells(all[i], all[j]);
        PooledOncePerTarget(lib, f, i, j);
      }
    }
    FilterKeysApart(all);
    forall x | x in all ensures Checked(x) ==> HealthChecked(x) {}
    FilterFewer(all, Checked, HealthChecked);
  }

  lemma AdmittedTimeout(lib: Lib, f: RoutesFile, x: Route)
    requires CheckFailure(lib, f).None? && x in ExpandAll(lib, f.routes) && Checked(x)
    ensures HP.Timeout(x) <= 10 * HP.SECOND && HP.Timeout(x) <= HP.Interval(x)
  {
    AcceptedExactly(lib, f);
    var n := PooledFrom(lib, f, x);
    assert f.routes[n] in f.routes;
  }

  lemma {:induction false} FilterKeysApart(s: seq<Route>)
    requires forall i, j :: 0 <= i < j < |s| && Checked(s[i]) && Checked(s[j]) ==> HealthKey(s[i]) != HealthKey(s[j])
    ensures KeysApart(Filter(s, Checked))
  {
    if s != [] {
      var n := |s| - 1;
      FilterKeysApart(s[..n]);
      var before := Filter(s[..n], Checked);
      if Checked(s[n]) {
        forall i | 0 <= i < |before| ensures HealthKey(before[i]) != HealthKey(s[n]) {
          FilterMember(s[..n], Checked, before[i]);
          assert before[i] in before;
          var k :| 0 <= k < n && s[k] == before[i];
        }
      }
    }
  }

  lemma {:induction false} FilterFewer<T>(s: seq<T>, few: T -> bool, many: T -> bool)
    requires forall x :: x in s && few(x) ==> many(x)
    ensures |Filter(s, few)| <= |Filter(s, many)|
  {
    if s != [] {
      assert s[|s| - 1] in s;
      FilterFewer(s[..|s| - 1], few, many);
    }
  }

  // ----- after Update -----

  /** The list the router is given draws its pools from one accepted file; other providers build none. */
  ghost predicate PoolsFrom(lib: Lib, f: RoutesFile, all: seq<Route>) {
    CheckFailure(lib, f).None? && Filter(all, Pooled) == Filter(ExpandAll(lib, f.routes), Pooled)
  }

  lemma CheckedFromFile(lib: Lib, f: RoutesFile, all: seq<Route>)
    requires PoolsFrom(lib, f, all)
    ensures Filter(all, Checked) == Filter(ExpandAll(lib, f.routes), Checked)
    ensures forall x :: Pooled(x) ==> (x in all <==> x in ExpandAll(lib, f.routes))
  {
    FilterTwice(all, Pooled, Checked, Checked);
    FilterTwice(ExpandAll(lib, f.routes), Pooled, Checked, Checked);
    forall x | Pooled(x) ensures x in all <==> x in ExpandAll(lib, f.routes) {
      FilterMember(all, Pooled, x);
      FilterMember(ExpandAll(lib, f.routes), Pooled, x);
    }
  }

  lemma {:induction false} KeySetSize(s: seq<Route>) returns (keys: set<string>)
    requires KeysApart(s)
    ensures |keys| == |s| && forall k :: k in keys <==> exists r :: r in s && HealthKey(r) == k
  {
    hide HealthKey;
    if s == [] {
      keys := {};
    } else {
      var n := |s| - 1;
      var before := KeySetSize(s[..n]);
      var k := HealthKey(s[n]);
      forall r | r in s[..n] ensures HealthKey(r) != k {
        var i :| 0 <= i < n && s[i] == r;
      }
      keys := before + {k};
      assert s == s[..n] + [s[n]];
    }
  }

  lemma ExactIsFiled(re: Regex, routes: seq<Route>, r: Route)
    requires r in routes && !r.isRegexp
    ensures HP.InTable(BuildTable(re, routes), r)
  {
    var t := BuildTable(re, routes);
    FilterMember(routes, OnHost(r.hostname), r);
    SortedPermutation(Filter(routes, OnHost(r.hostname)));
    assert r in multiset(Filter(routes, OnHost(r.hostname)));
    assert r in multiset(ByPathDesc(Filter(routes, OnHost(r.hostname))));
    assert r.hostname in t.exact && r in t.exact[r.hostname];
  }

  lemma FileRoutesAreExact(lib: Lib, f: RoutesFile, x: Route)
    requires x in ExpandAll(lib, f.routes)
    ensures !x.isRegexp && x.source == "static" && !x.h2c
  {
    ExpandedFrom(lib, f.routes, x);
  }

  /** The keys that own a cell in the table built from the list: one per checked route, at most 128. */
  lemma OwnedKeys(lib: Lib, f: RoutesFile, re: Regex, all: seq<Route>) returns (keys: set<string>)
    requires PoolsFrom(lib, f, all) && ParsesPlain(lib) && PlainPaths(f)
    ensures |keys| == |Filter(all, Checked)| == |Filter(ExpandAll(lib, f.routes), Checked)| <= 128
    ensures forall k :: k in keys <==> HP.KeyOwned(BuildTable(re, all), k)
    ensures forall k :: k in keys <==> exists r :: r in Filter(all, Checked) && HealthKey(r) == k
  {
    hide CheckFailure, ExpandAll, BuildTable, Filter;
    var checked := Filter(all, Checked);
    CheckedFromFile(lib, f, all);
    AdmittedKeys(lib, f);
    keys := KeySetSize(checked);
    forall k ensures HP.KeyOwned(BuildTable(re, all), k) <==> k in keys {
      if HP.KeyOwned(BuildTable(re, all), k) {
        var r :| HP.InTable(BuildTable(re, all), r) && Checked(r) && HealthKey(r) == k;
        HS.BuiltRoutesAreInput(re, all, r);
        FilterMember(all, Checked, r);
      }
      if k in keys {
        var r :| r in checked && HealthKey(r) == k;
        FilterMember(all, Checked, r);
        FilterMember(ExpandAll(lib, f.routes), Checked, r);
        FileRoutesAreExact(lib, f, r);
        ExactIsFiled(re, all, r);
      }
    }
  }

  /**
   * After a reload the health map holds exactly one cell per checked route, at most 128 of them, and every
   * pooled route has a counter at zero.
   */
  lemma OneCellPerCheckedRoute(lib: Lib, f: RoutesFile, re: Regex, all: seq<Route>, s: HP.Shared, t: HP.Shared)
    requires PoolsFrom(lib, f, all) && ParsesPlain(lib) && PlainPaths(f)
    requires HP.Update(re, all, s, t)
    ensures |t.health| == |Filter(all, Checked)| <= 128
    ensures forall k :: k in t.health <==> exists r :: r in Filter(all, Checked) && HealthKey(r) == k
    ensures forall r :: r in all && Pooled(r) ==> PoolKey(r) in t.pools && t.pools[PoolKey(r)] == 0
  {
    hide PoolsFrom, BuildTable, Filter;
    var keys := OwnedKeys(lib, f, re, all);
    assert t.health.Keys == keys;
  }

  /** And so it stays, through probes, selections and owner restarts, for as long as the table does. */
  lemma OneCellWhileServed(lib: Lib, f: RoutesFile, re: Regex, all: seq<Route>, sh: HP.Shared)
    requires PoolsFrom(lib, f, all) && ParsesPlain(lib) && PlainPaths(f)
    requires HP.SharedOk(sh) && sh.table == BuildTable(re, all)
    ensures |sh.health| == |Filter(ExpandAll(lib, f.routes), Checked)| <= 128
    ensures forall r :: r in ExpandAll(lib, f.routes) && Pooled(r) ==>
              PoolKey(r) in sh.pools && sh.pools[PoolKey(r)] < UINT64
  {
    hide BuildTable, Filter, ExpandAll, CheckFailure;
    var keys := OwnedKeys(lib, f, re, all);
    assert sh.health.Keys == keys;
    CheckedFromFile(lib, f, all);
    forall r | r in ExpandAll(lib, f.routes) && Pooled(r) ensures PoolKey(r) in sh.pools {
      FileRoutesAreExact(lib, f, r);
      ExactIsFiled(re, all, r);
    }
  }

  // ----- fair selection from an admitted pool -----

  lemma AdmittedClass(lib: Lib, f: RoutesFile, all: seq<Route>, base: Route)
    requires PoolsFrom(lib, f, all) && base in all && Pooled(base)
    ensures OneClass(all, PoolKey(base))
  {
    CheckedFromFile(lib, f, all);
    forall r, s | r in all && s in all && InPool(r, PoolKey(base)) && InPool(s, PoolKey(base))
      ensures r.isRegexp == s.isRegexp && SameClass(r, s)
    {
      var m := PooledFrom(lib, f, r);
      var n := PooledFrom(lib, f, s);
      PoolNameIsPlain(m);
      PoolNameIsPlain(n);
      PoolKeyTells(r, s);
      OnePoolOneRecord(lib, f, r, s);
    }
  }

  /** The members available to a selection: those replicas of the pool whose own key is ready, in file order. */
  lemma AvailableReplicas(lib: Lib, f: RoutesFile, all: seq<Route>, base: Route, ready: set<string>)
    requires PoolsFrom(lib, f, all) && base in all && Pooled(base)
    ensures var pool := Filter(ExpandAll(lib, f.routes), Of(base.hostname, base.backendPool));
            && Filter(all, ScanMemberOf(base, ready)) == Filter(pool, r => Available(r, ready))
            && NoDuplicates(Filter(all, ScanMemberOf(base, ready)))
            && |Filter(all, ScanMemberOf(base, ready))| <= 32
  {
    var file := ExpandAll(lib, f.routes);
    var keep := Of(base.hostname, base.backendPool);
    var up := (r: Route) => Available(r, ready);
    CheckedFromFile(lib, f, all);
    FilterTwice(all, Pooled, ScanMemberOf(base, ready), ScanMemberOf(base, ready));
    FilterTwice(file, Pooled, ScanMemberOf(base, ready), ScanMemberOf(base, ready));
    forall x | x in file ensures ScanMemberOf(base, ready)(x) <==> keep(x) && up(x) {
      if keep(x) { OnePoolOneRecord(lib, f, base, x); }
    }
    FilterTwice(file, keep, up, ScanMemberOf(base, ready));
    AdmittedPool(lib, f, base);
    FilterNoDuplicates(Filter(file, keep), up);
  }

  lemma {:induction false} FilterNoDuplicates<T>(s: seq<T>, keep: T -> bool)
    requires NoDuplicates(s)
    ensures NoDuplicates(Filter(s, keep)) && |Filter(s, keep)| <= |s|
  {
    if s != [] {
      FilterNoDuplicates(s[..|s| - 1], keep);
      if s[|s| - 1] in Filter(s[..|s| - 1], keep) {
        FilterMember(s[..|s| - 1], keep, s[|s| - 1]);
        assert false;
      }
    }
  }

  /** x is a route of the file, in the pool of base, that a selection may take. */
  predicate AvailableReplica(lib: Lib, f: RoutesFile, base: Route, ready: set<string>, x: Route) {
    x in ExpandAll(lib, f.routes) && x.hostname == base.hostname && x.backendPool == base.backendPool &&
    Available(x, ready)
  }

  lemma MembersAreReplicas(lib: Lib, f: RoutesFile, all: seq<Route>, base: Route, ready: set<string>, x: Route)
    requires PoolsFrom(lib, f, all) && base in all && Pooled(base)
    ensures x in Filter(all, ScanMemberOf(base, ready)) <==> AvailableReplica(lib, f, base, ready, x)
  {
    AvailableReplicas(lib, f, all, base, ready);
    FilterMember(Filter(ExpandAll(lib, f.routes), Of(base.hostname, base.backendPool)), r => Available(r, ready), x);
    FilterMember(ExpandAll(lib, f.routes), Of(base.hostname, base.backendPool), x);
  }

  /**
   * Any pool of an accepted file with m available replicas is fair: k * m consecutive selections, whatever
   * else is requested in between, pick each available replica exactly k times and never another one.
   */
  lemma AdmittedPoolIsFair(lib: Lib, f: RoutesFile, re: Regex, all: seq<Route>, base: Route, ready: set<string>,
                           pools: map<string, nat>, requests: seq<Request>, from: nat, k: nat)
    requires PoolsFrom(lib, f, all) && base in all && Pooled(base)
    requires PoolKey(base) in pools
    requires var members := Filter(all, ScanMemberOf(base, ready));
             var picks := Picks(Serving(re, BuildTable(re, all), ready, PoolKey(base)), pools, requests);
             && members != []
             && from + k * |members| <= |picks|
             && pools[PoolKey(base)] + |picks| < UINT64
    ensures var members := Filter(all, ScanMemberOf(base, ready));
            && Even(Picks(Serving(re, BuildTable(re, all), ready, PoolKey(base)), pools, requests), from, k, members)
            && forall x :: x in members <==> AvailableReplica(lib, f, base, ready, x)
  {
    hide Serving, Picks, BuildTable, ExpandAll, ScanMemberOf, Filter, PoolsFrom;
    var members := Filter(all, ScanMemberOf(base, ready));
    AdmittedClass(lib, f, all, base);
    OneClassDraws(re, all, ready, base);
    AvailableReplicas(lib, f, all, base, ready);
    FairSelection(re, BuildTable(re, all), ready, pools, requests, PoolKey(base), members, from, k);
    forall x ensures x in members <==> AvailableReplica(lib, f, base, ready, x) {
      MembersAreReplicas(lib, f, all, base, ready, x);
    }
  }
}
