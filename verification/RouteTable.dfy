/**
 * The route table: how Update files routes, and how a request finds one.
 * ScanResolve is an independent reading of the same promise, a plain scan of the input list.
 */
module RouteTable {
  import opened Domain
  import opened Sequences

  /** The regular-expression engine is a parameter: which patterns compile, and what they match. */
  datatype Regex = Regex(compiles: string -> bool, matches: (string, string) -> bool)

  datatype RegexGroup = RegexGroup(pattern: string, routes: seq<Route>)

  datatype Table = Table(exact: map<string, seq<Route>>, groups: seq<RegexGroup>)

  datatype ResolveResult = ResolveResult(unavailable: bool, target: string, rewrittenPath: string, route: Route)

  // ----- filing routes -----

  function OnHost(host: string): Route -> bool {
    (r: Route) => !r.isRegexp && r.hostname == host
  }

  function OnPattern(pattern: string): Route -> bool {
    (r: Route) => r.isRegexp && r.hostname == pattern
  }

  /** Put r behind every route whose path is at least as long, ahead of the shorter ones. */
  function InsertByPath(s: seq<Route>, r: Route): seq<Route> {
    if s != [] && |s[0].path| >= |r.path| then [s[0]] + InsertByPath(s[1..], r) else [r] + s
  }

  /** The stable sort by path length, longest first. */
  function ByPathDesc(s: seq<Route>): seq<Route> {
    if s == [] then [] else InsertByPath(ByPathDesc(s[..|s| - 1]), s[|s| - 1])
  }

  /** The valid patterns in the order in which they first appear. */
  function Patterns(re: Regex, routes: seq<Route>): seq<string> {
    if routes == [] then []
    else
      var before := Patterns(re, routes[..|routes| - 1]);
      var r := routes[|routes| - 1];
      if r.isRegexp && re.compiles(r.hostname) && r.hostname !in before then before + [r.hostname] else before
  }

  function ExactHosts(routes: seq<Route>): set<string> {
    set r | r in routes && !r.isRegexp :: r.hostname
  }

  function BuildTable(re: Regex, routes: seq<Route>): Table {
    var patterns := Patterns(re, routes);
    Table(
      map h | h in ExactHosts(routes) :: ByPathDesc(Filter(routes, OnHost(h))),
      seq(|patterns|, i requires 0 <= i < |patterns| =>
        RegexGroup(patterns[i], ByPathDesc(Filter(routes, OnPattern(patterns[i]))))))
  }

  // ----- finding a route -----

  predicate PathMatches(r: Route, path: string) {
    r.path == "/" || path == r.path || HasPrefix(path, r.path + "/")
  }

  function Rewrite(r: Route, path: string): string {
    if !r.stripPath then path
    else
      var rest := TrimPrefix(path, r.path);
      if rest == "" then "/" else rest
  }

  function FirstMatch(routes: seq<Route>, path: string): Option<Route> {
    if routes == [] then None
    else if PathMatches(routes[0], path) then Some(routes[0])
    else FirstMatch(routes[1..], path)
  }

  function ExactRoutes(t: Table, host: string): seq<Route> {
    if host in t.exact then t.exact[host] else []
  }

  function FirstGroupMatch(re: Regex, groups: seq<RegexGroup>, host: string, path: string)
    : Option<(seq<Route>, Route)>
  {
    if groups == [] then None
    else
      var here := FirstMatch(groups[0].routes, path);
      if re.matches(groups[0].pattern, host) && here.Some? then Some((groups[0].routes, here.value))
      else FirstGroupMatch(re, groups[1..], host, path)
  }

  /** The group that answers a request and the route it matched. */
  function Match(re: Regex, t: Table, host: string, path: string): Option<(seq<Route>, Route)> {
    var here := FirstMatch(ExactRoutes(t, host), path);
    if here.Some? then Some((ExactRoutes(t, host), here.value))
    else FirstGroupMatch(re, t.groups, host, path)
  }

  predicate Available(r: Route, ready: set<string>) {
    r.health.None? || HealthKey(r) in ready
  }

  predicate SameClass(r: Route, base: Route) {
    r.hostname == base.hostname && r.backendPool == base.backendPool && r.path == base.path &&
    r.stripPath == base.stripPath && r.h2c == base.h2c
  }

  function MemberOf(base: Route, ready: set<string>): Route -> bool {
    (r: Route) => SameClass(r, base) && Available(r, ready)
  }

  const UINT64: nat := 0x1_0000_0000_0000_0000

  /** Add one to a 64-bit counter. */
  function Bump(c: nat): nat {
    (c + 1) % UINT64
  }

  /** One selection: the answer, and whether the pool's counter was taken. */
  function Choose(base: Route, members: seq<Route>, pools: map<string, nat>, path: string): (ResolveResult, bool) {
    var found := ResolveResult(false, base.target, Rewrite(base, path), base);
    if base.backendPool == "" then (found, false)
    else if PoolKey(base) !in pools || members == [] then (found.(unavailable := true, target := ""), false)
    else
      // Adding one and subtracting it again gives the old counter value, also across the wrap.
      var ticket := pools[PoolKey(base)];
      var selected := members[ticket % |members|];
      (found.(target := selected.target, route := selected), true)
  }

  function Select(group: seq<Route>, base: Route, ready: set<string>, pools: map<string, nat>, path: string)
    : (Option<ResolveResult>, map<string, nat>)
  {
    var members := Filter(group, MemberOf(base, ready));
    var (result, taken) := Choose(base, members, pools, path);
    var key := PoolKey(base);
    (Some(result), if taken && key in pools then pools[key := Bump(pools[key])] else pools)
  }

  function Resolve(re: Regex, t: Table, ready: set<string>, pools: map<string, nat>, host: string, path: string)
    : (Option<ResolveResult>, map<string, nat>)
  {
    match Match(re, t, host, path)
    case None => (None, pools)
    case Some((group, base)) => Select(group, base, ready, pools, path)
  }

  predicate HasHost(re: Regex, t: Table, host: string) {
    |ExactRoutes(t, host)| > 0 || exists g :: g in t.groups && re.matches(g.pattern, host)
  }

  // ----- the reference: a plain scan of the input list -----

  /** Scan once, keeping the matching route with the longest path; a tie keeps the earlier one. */
  function BestScan(routes: seq<Route>, among: Route -> bool, path: string): Option<Route> {
    if routes == [] then None
    else
      var best := BestScan(routes[..|routes| - 1], among, path);
      var r := routes[|routes| - 1];
      if among(r) && PathMatches(r, path) && (best.None? || |r.path| > |best.value.path|) then Some(r) else best
  }

  /** The first pattern in the list that is valid, matches the host and has a route for the path. */
  function ScanPatterns(re: Regex, all: seq<Route>, rest: seq<Route>, host: string, path: string): Option<Route> {
    if rest == [] then None
    else
      var r := rest[0];
      if r.isRegexp && re.compiles(r.hostname) && re.matches(r.hostname, host) &&
         BestScan(all, OnPattern(r.hostname), path).Some?
      then BestScan(all, OnPattern(r.hostname), path)
      else ScanPatterns(re, all, rest[1..], host, path)
  }

  function ScanMatch(re: Regex, routes: seq<Route>, host: string, path: string): Option<Route> {
    var best := BestScan(routes, OnHost(host), path);
    if best.Some? then best else ScanPatterns(re, routes, routes, host, path)
  }

  function ScanMemberOf(base: Route, ready: set<string>): Route -> bool {
    (r: Route) => r.isRegexp == base.isRegexp && SameClass(r, base) && Available(r, ready)
  }

  function ScanResolve(re: Regex, routes: seq<Route>, ready: set<string>, pools: map<string, nat>, host: string,
                       path: string)
    : Option<ResolveResult>
  {
    match ScanMatch(re, routes, host, path)
    case None => None
    case Some(base) => Some(Choose(base, Filter(routes, ScanMemberOf(base, ready)), pools, path).0)
  }

  // ----- the sort -----

  predicate Descending(s: seq<Route>) {
    forall i, j :: 0 <= i < j < |s| ==> |s[i].path| >= |s[j].path|
  }

  lemma {:induction false} InsertPermutes(s: seq<Route>, r: Route)
    ensures multiset(InsertByPath(s, r)) == multiset(s) + multiset{r}
  {
    if s != [] && |s[0].path| >= |r.path| {
      InsertPermutes(s[1..], r);
      assert s == [s[0]] + s[1..];
    }
  }

  lemma InsertMember(s: seq<Route>, r: Route, x: Route)
    requires x in InsertByPath(s, r)
    ensures x in s || x == r
  {
    InsertPermutes(s, r);
    assert x in multiset(InsertByPath(s, r));
  }

  lemma {:induction false} InsertKeepsOrder(s: seq<Route>, r: Route)
    requires Descending(s)
    ensures Descending(InsertByPath(s, r))
  {
    if s != [] && |s[0].path| >= |r.path| {
      var t := InsertByPath(s[1..], r);
      InsertKeepsOrder(s[1..], r);
      forall j | 0 <= j < |t| ensures |s[0].path| >= |t[j].path| {
        InsertMember(s[1..], r, t[j]);
      }
    }
  }

  /** The sort is sorted and keeps every route as often as it was there. */
  lemma {:induction false} SortedPermutation(s: seq<Route>)
    ensures Descending(ByPathDesc(s))
    ensures multiset(ByPathDesc(s)) == multiset(s)
  {
    hide InsertByPath;
    if s != [] {
      SortedPermutation(s[..|s| - 1]);
      InsertKeepsOrder(ByPathDesc(s[..|s| - 1]), s[|s| - 1]);
      InsertPermutes(ByPathDesc(s[..|s| - 1]), s[|s| - 1]);
      assert s == s[..|s| - 1] + [s[|s| - 1]];
    }
  }

  /** Everything kept has a path of length n. */
  ghost predicate OfLength(keep: Route -> bool, n: nat) {
    forall r :: keep(r) ==> |r.path| == n
  }

  lemma ShorterThanClass(s: seq<Route>, keep: Route -> bool, n: nat)
    requires Descending(s)
    requires OfLength(keep, n)
    requires s != [] ==> |s[0].path| < n
    ensures Filter(s, keep) == []
  {
    forall x | x in s ensures !keep(x) {
      var i :| 0 <= i < |s| && s[i] == x;
      if i > 0 { assert |s[0].path| >= |s[i].path|; }
    }
    FilterNothing(s, keep);
  }

  lemma {:induction false} InsertSplits(s: seq<Route>, r: Route) returns (k: nat)
    ensures k <= |s| && InsertByPath(s, r) == s[..k] + [r] + s[k..]
    ensures k < |s| ==> |s[k].path| < |r.path|
  {
    if s != [] && |s[0].path| >= |r.path| {
      var j := InsertSplits(s[1..], r);
      k := j + 1;
      assert s[..k] == [s[0]] + s[1..][..j];
      assert s[1..][j..] == s[k..];
    } else {
      k := 0;
      assert s[..0] + [r] + s[0..] == [r] + s;
    }
  }

  lemma InsertKeepsClass(s: seq<Route>, r: Route, keep: Route -> bool, n: nat)
    requires Descending(s)
    requires OfLength(keep, n)
    ensures Filter(InsertByPath(s, r), keep) == Filter(s + [r], keep)
  {
    hide InsertByPath, Filter;
    var k := InsertSplits(s, r);
    if keep(r) { ShorterThanClass(s[k..], keep, n); }
    FilterMoveLast(s[..k], r, s[k..], keep);
    assert s[..k] + s[k..] == s;
  }

  /** The sort is stable: routes of one path length keep their input order. */
  lemma {:induction false} SortIsStable(s: seq<Route>, keep: Route -> bool, n: nat)
    requires OfLength(keep, n)
    ensures Filter(ByPathDesc(s), keep) == Filter(s, keep)
  {
    if s != [] {
      SortIsStable(s[..|s| - 1], keep, n);
      SortedPermutation(s[..|s| - 1]);
      InsertKeepsClass(ByPathDesc(s[..|s| - 1]), s[|s| - 1], keep, n);
      FilterSnoc(ByPathDesc(s[..|s| - 1]), s[|s| - 1], keep);
    }
  }

  // ----- the first match in the sorted list is the scan's best -----

  lemma {:induction false} FirstMatchInserted(s: seq<Route>, r: Route, path: string)
    requires Descending(s)
    ensures var before := FirstMatch(s, path);
            FirstMatch(InsertByPath(s, r), path) ==
            if PathMatches(r, path) && (before.None? || |r.path| > |before.value.path|) then Some(r) else before
  {
    if s != [] && |s[0].path| >= |r.path| {
      FirstMatchInserted(s[1..], r, path);
      var t := InsertByPath(s, r);
      assert t[0] == s[0] && t[1..] == InsertByPath(s[1..], r);
    } else {
      var t := InsertByPath(s, r);
      assert t[0] == r && t[1..] == s;
      FirstMatchIsMember(s, path);
    }
  }

  lemma {:induction false} FirstMatchIsMember(s: seq<Route>, path: string)
    ensures var m := FirstMatch(s, path); m.Some? ==> m.value in s && PathMatches(m.value, path)
    ensures FirstMatch(s, path).None? <==> forall r :: r in s ==> !PathMatches(r, path)
  {
    if s != [] {
      assert s == [s[0]] + s[1..];
      FirstMatchIsMember(s[1..], path);
    }
  }

  lemma {:induction false} FirstMatchIsBest(routes: seq<Route>, among: Route -> bool, path: string)
    ensures FirstMatch(ByPathDesc(Filter(routes, among)), path) == BestScan(routes, among, path)
  {
    if routes != [] {
      var before, r := routes[..|routes| - 1], routes[|routes| - 1];
      FirstMatchIsBest(before, among, path);
      if among(r) {
        var f := Filter(before, among);
        assert Filter(routes, among) == f + [r];
        assert (f + [r])[..|f|] == f;
        SortedPermutation(f);
        FirstMatchInserted(ByPathDesc(f), r, path);
      } else {
        assert Filter(routes, among) == Filter(before, among);
      }
    }
  }

  /** What the scan finds: a matching route, none longer, and none of its length any earlier. */
  lemma {:induction false} BestScanIsLongest(routes: seq<Route>, among: Route -> bool, path: string) returns (i: nat)
    ensures BestScan(routes, among, path).None? <==>
            forall j :: 0 <= j < |routes| ==> !(among(routes[j]) && PathMatches(routes[j], path))
    ensures BestScan(routes, among, path).Some? ==>
            && i < |routes|
            && BestScan(routes, among, path) == Some(routes[i])
            && among(routes[i]) && PathMatches(routes[i], path)
            && forall j :: 0 <= j < |routes| && among(routes[j]) && PathMatches(routes[j], path) ==>
                 |routes[j].path| < |routes[i].path| || (|routes[j].path| == |routes[i].path| && i <= j)
  {
    i := 0;
    if routes != [] {
      var n := |routes| - 1;
      i := BestScanIsLongest(routes[..n], among, path);
      var best := BestScan(routes[..n], among, path);
      assert forall j :: 0 <= j < n ==> routes[..n][j] == routes[j];
      if among(routes[n]) && PathMatches(routes[n], path) && (best.None? || |routes[n].path| > |best.value.path|) {
        i := n;
      }
    }
  }

  // ----- Update followed by Resolve is the plain scan -----

  /** The first valid pattern of a list that matches the host and has a route for the path. */
  function PatternScan(re: Regex, all: seq<Route>, patterns: seq<string>, host: string, path: string): Option<Route> {
    if patterns == [] then None
    else
      var earlier := PatternScan(re, all, patterns[..|patterns| - 1], host, path);
      var p := patterns[|patterns| - 1];
      if earlier.Some? then earlier
      else if re.matches(p, host) then BestScan(all, OnPattern(p), path) else None
  }

  lemma {:induction false} PatternScanNone(re: Regex, all: seq<Route>, patterns: seq<string>, host: string,
                                           path: string)
    ensures PatternScan(re, all, patterns, host, path).None? <==>
            forall p :: p in patterns && re.matches(p, host) ==> BestScan(all, OnPattern(p), path).None?
  {
    if patterns != [] {
      PatternScanNone(re, all, patterns[..|patterns| - 1], host, path);
      assert patterns == patterns[..|patterns| - 1] + [patterns[|patterns| - 1]];
    }
  }

  lemma {:induction false} ScanPatternsSnoc(re: Regex, all: seq<Route>, rest: seq<Route>, r: Route, host: string,
                                            path: string)
    ensures ScanPatterns(re, all, rest + [r], host, path) ==
            var earlier := ScanPatterns(re, all, rest, host, path);
            if earlier.Some? then earlier
            else if r.isRegexp && re.compiles(r.hostname) && re.matches(r.hostname, host)
            then BestScan(all, OnPattern(r.hostname), path)
            else None
  {
    if rest == [] {
      assert [] + [r] == [r];
      assert ScanPatterns(re, all, [r][1..], host, path) == None;
    } else {
      assert (rest + [r])[1..] == rest[1..] + [r];
      ScanPatternsSnoc(re, all, rest[1..], r, host, path);
    }
  }

  /** Looking at each pattern once, where it first appears, loses nothing. */
  lemma {:induction false} ScanByFirstAppearance(re: Regex, all: seq<Route>, rest: seq<Route>, host: string,
                                                 path: string)
    ensures ScanPatterns(re, all, rest, host, path) == PatternScan(re, all, Patterns(re, rest), host, path)
  {
    if rest != [] {
      var before, r := rest[..|rest| - 1], rest[|rest| - 1];
      assert rest == before + [r];
      ScanByFirstAppearance(re, all, before, host, path);
      ScanPatternsSnoc(re, all, before, r, host, path);
      var ps := Patterns(re, before);
      PatternScanNone(re, all, ps, host, path);
      assert (ps + [r.hostname])[..|ps|] == ps;
    }
  }

  function GroupFor(routes: seq<Route>, pattern: string): RegexGroup {
    RegexGroup(pattern, ByPathDesc(Filter(routes, OnPattern(pattern))))
  }

  lemma {:induction false} FirstGroupMatchSnoc(re: Regex, groups: seq<RegexGroup>, g: RegexGroup, host: string,
                                               path: string)
    ensures FirstGroupMatch(re, groups + [g], host, path) ==
            var earlier := FirstGroupMatch(re, groups, host, path);
            var here := FirstMatch(g.routes, path);
            if earlier.Some? then earlier
            else if re.matches(g.pattern, host) && here.Some? then Some((g.routes, here.value))
            else None
  {
    if groups == [] {
      assert [] + [g] == [g];
      assert FirstGroupMatch(re, [g][1..], host, path) == None;
    } else {
      assert (groups + [g])[1..] == groups[1..] + [g];
      FirstGroupMatchSnoc(re, groups[1..], g, host, path);
    }
  }

  lemma {:induction false} GroupMatchIsPatternScan(re: Regex, routes: seq<Route>, patterns: seq<string>,
                                                   groups: seq<RegexGroup>, host: string, path: string)
    requires |groups| == |patterns|
    requires forall i :: 0 <= i < |patterns| ==> groups[i] == GroupFor(routes, patterns[i])
    ensures var m := FirstGroupMatch(re, groups, host, path);
            var s := PatternScan(re, routes, patterns, host, path);
            && (m.Some? <==> s.Some?)
            && (m.Some? ==>
                 && m.value.1 == s.value && s.value.isRegexp
                 && m.value.0 == GroupFor(routes, s.value.hostname).routes)
  {
    if patterns != [] {
      var n := |patterns| - 1;
      GroupMatchIsPatternScan(re, routes, patterns[..n], groups[..n], host, path);
      assert groups == groups[..n] + [groups[n]];
      FirstGroupMatchSnoc(re, groups[..n], groups[n], host, path);
      FirstMatchIsBest(routes, OnPattern(patterns[n]), path);
      var i := BestScanIsLongest(routes, OnPattern(patterns[n]), path);
    }
  }

  lemma ExactRoutesAre(re: Regex, routes: seq<Route>, host: string)
    ensures ExactRoutes(BuildTable(re, routes), host) == ByPathDesc(Filter(routes, OnHost(host)))
  {
    if host !in ExactHosts(routes) {
      FilterNothing(routes, OnHost(host));
    }
  }

  /** The table answers with the route the scan finds, and hands over that route's own group. */
  lemma MatchIsScan(re: Regex, routes: seq<Route>, host: string, path: string)
    ensures var m := Match(re, BuildTable(re, routes), host, path);
            var s := ScanMatch(re, routes, host, path);
            && (m.Some? <==> s.Some?)
            && (m.Some? ==>
                 && m.value.1 == s.value
                 && m.value.0 == ByPathDesc(Filter(routes,
                      if s.value.isRegexp then OnPattern(s.value.hostname) else OnHost(s.value.hostname))))
  {
    var t := BuildTable(re, routes);
    ExactRoutesAre(re, routes, host);
    FirstMatchIsBest(routes, OnHost(host), path);
    var i := BestScanIsLongest(routes, OnHost(host), path);
    ScanByFirstAppearance(re, routes, routes, host, path);
    GroupMatchIsPatternScan(re, routes, Patterns(re, routes), t.groups, host, path);
  }

  lemma PoolMembersInInputOrder(routes: seq<Route>, base: Route, ready: set<string>)
    ensures var keep := if base.isRegexp then OnPattern(base.hostname) else OnHost(base.hostname);
            var group := ByPathDesc(Filter(routes, keep));
            Filter(group, MemberOf(base, ready)) == Filter(routes, ScanMemberOf(base, ready))
  {
    var among := if base.isRegexp then OnPattern(base.hostname) else OnHost(base.hostname);
    SortIsStable(Filter(routes, among), MemberOf(base, ready), |base.path|);
    FilterTwice(routes, among, MemberOf(base, ready), ScanMemberOf(base, ready));
  }

  /** Update followed by Resolve gives what a plain scan of the input list gives. */
  lemma UpdateThenResolveIsScan(re: Regex, routes: seq<Route>, ready: set<string>, pools: map<string, nat>,
                                host: string, path: string)
    ensures Resolve(re, BuildTable(re, routes), ready, pools, host, path).0 ==
            ScanResolve(re, routes, ready, pools, host, path)
  {
    MatchIsScan(re, routes, host, path);
    var s := ScanMatch(re, routes, host, path);
    if s.Some? { PoolMembersInInputOrder(routes, s.value, ready); }
  }

  /** An unavailable pool does not fall through: which route answers never depends on health or counters. */
  lemma AnswerIgnoresHealth(re: Regex, t: Table, ready: set<string>, pools: map<string, nat>, host: string,
                            path: string)
    ensures var r := Resolve(re, t, ready, pools, host, path).0;
            var m := Match(re, t, host, path);
            && (r.Some? <==> m.Some?)
            && (r.Some? ==>
                 && SameClass(r.value.route, m.value.1)
                 && r.value.rewrittenPath == Rewrite(m.value.1, path)
                 && (r.value.unavailable <==>
                      && m.value.1.backendPool != ""
                      && (PoolKey(m.value.1) !in pools ||
                          forall x :: x in m.value.0 && SameClass(x, m.value.1) ==> !Available(x, ready))))
  {
    var m := Match(re, t, host, path);
    if m.Some? {
      var (group, base) := m.value;
      var members := Filter(group, MemberOf(base, ready));
      forall x ensures x in members <==> x in group && SameClass(x, base) && Available(x, ready) {
        FilterMember(group, MemberOf(base, ready), x);
      }
      if members != [] {
        assert members[0] in members;
        if PoolKey(base) in pools {
          assert members[pools[PoolKey(base)] % |members|] in members;
        }
      }
    }
  }

  // ----- HasHost -----

  ghost predicate GroupsFilled(t: Table) {
    forall g :: g in t.groups ==> g.routes != []
  }

  lemma {:induction false} PatternAppears(re: Regex, routes: seq<Route>, p: string)
    ensures p in Patterns(re, routes) <==> re.compiles(p) && exists r :: r in routes && r.isRegexp && r.hostname == p
  {
    if routes != [] {
      PatternAppears(re, routes[..|routes| - 1], p);
      assert routes == routes[..|routes| - 1] + [routes[|routes| - 1]];
    }
  }

  /** Every group that Update creates holds the route that created it. */
  lemma BuiltGroupsFilled(re: Regex, routes: seq<Route>)
    ensures GroupsFilled(BuildTable(re, routes))
  {
    var t := BuildTable(re, routes);
    forall g | g in t.groups ensures g.routes != [] {
      var ps := Patterns(re, routes);
      var i :| 0 <= i < |t.groups| && t.groups[i] == g;
      assert ps[i] in ps;
      PatternAppears(re, routes, ps[i]);
      var r :| r in routes && r.isRegexp && r.hostname == ps[i];
      FilterMember(routes, OnPattern(ps[i]), r);
      SortedPermutation(Filter(routes, OnPattern(ps[i])));
      assert r in multiset(g.routes);
    }
  }

  lemma {:induction false} FirstGroupMatchSome(re: Regex, groups: seq<RegexGroup>, host: string, path: string)
    ensures FirstGroupMatch(re, groups, host, path).Some? <==>
            exists g :: g in groups && re.matches(g.pattern, host) && FirstMatch(g.routes, path).Some?
  {
    if groups != [] {
      assert groups == [groups[0]] + groups[1..];
      FirstGroupMatchSome(re, groups[1..], host, path);
    }
  }

  /** HasHost(h) holds exactly when some path resolves on h, for every table Update can build. */
  lemma HasHostIffResolvable(re: Regex, routes: seq<Route>, ready: set<string>, pools: map<string, nat>, host: string)
    ensures HasHost(re, BuildTable(re, routes), host) <==>
            exists path :: Resolve(re, BuildTable(re, routes), ready, pools, host, path).0.Some?
  {
    var t := BuildTable(re, routes);
    BuiltGroupsFilled(re, routes);
    if HasHost(re, t, host) {
      var r: Route;
      if |ExactRoutes(t, host)| > 0 {
        r := ExactRoutes(t, host)[0];
      } else {
        var g :| g in t.groups && re.matches(g.pattern, host);
        r := g.routes[0];
        FirstMatchIsMember(g.routes, r.path);
      }
      FirstMatchIsMember(ExactRoutes(t, host), r.path);
      FirstGroupMatchSome(re, t.groups, host, r.path);
      assert Resolve(re, t, ready, pools, host, r.path).0.Some?;
    }
    if path :| Resolve(re, t, ready, pools, host, path).0.Some? {
      FirstGroupMatchSome(re, t.groups, host, path);
    }
  }

  // ----- stripping -----

  /** A stripped path keeps its leading slash, except under the route "/" itself, where only "/" and "//..." do. */
  lemma StripKeepsSlash(r: Route, path: string)
    requires r.stripPath && PathMatches(r, path) && HasPrefix(path, "/")
    ensures HasPrefix(Rewrite(r, path), "/") <==> r.path != "/" || path == "/" || HasPrefix(path, "//")
  {
    if r.path == "/" {
      assert path[1..] == "" <==> path == "/";
      assert HasPrefix(path, "//") <==> |path| > 1 && path[1] == '/';
      assert HasPrefix(path[1..], "/") <==> |path| > 1 && path[1] == '/';
    } else if path != r.path {
      var n := |r.path|;
      assert path[n] == (r.path + "/")[n] == '/';
      assert path[..n] == (r.path + "/")[..n] == r.path;
      assert HasPrefix(path[n..], "/");
    } else {
      assert TrimPrefix(path, r.path) == "";
    }
  }

  /** Putting the prefix back gives the request path, except on an exact hit, which is rewritten to "/". */
  lemma StripReprefixes(r: Route, path: string)
    requires r.stripPath && PathMatches(r, path) && HasPrefix(path, "/")
    ensures r.path + Rewrite(r, path) == path <==> path != r.path
    ensures path == r.path ==> Rewrite(r, path) == "/"
  {
    if path == r.path {
      assert TrimPrefix(path, r.path) == "";
      assert |r.path + "/"| > |path|;
    } else {
      var n := |r.path|;
      assert path[..n] == r.path by {
        if r.path != "/" { assert path[..n] == (r.path + "/")[..n]; }
      }
      assert path == path[..n] + path[n..];
    }
  }

  /** A concrete request that loses its leading slash. */
  lemma StripRootLosesSlash(r: Route)
    requires r.stripPath && r.path == "/"
    ensures PathMatches(r, "/x") && Rewrite(r, "/x") == "x"
  {
    assert "/x"[..1] == "/";
    assert "/x"[1..] == "x";
  }

  // ----- nothing is lost -----

  predicate Filed(re: Regex, r: Route) {
    !r.isRegexp || re.compiles(r.hostname)
  }

  function ConcatGroups(groups: seq<RegexGroup>): seq<Route> {
    if groups == [] then [] else ConcatGroups(groups[..|groups| - 1]) + groups[|groups| - 1].routes
  }

  /** Every route of the table; order is the one in which the map happens to be walked. */
  function Flatten(t: Table, order: seq<string>): seq<Route>
    requires forall h :: h in order ==> h in t.exact
  {
    ConcatIn(t.exact, order) + ConcatGroups(t.groups)
  }

  lemma {:induction false} CountExact(re: Regex, routes: seq<Route>, order: seq<string>, x: Route)
    requires NoDuplicates(order) && forall h :: h in order ==> h in ExactHosts(routes)
    ensures multiset(ConcatIn(BuildTable(re, routes).exact, order))[x] ==
            if !x.isRegexp && x.hostname in order then multiset(routes)[x] else 0
  {
    if order != [] {
      var before, h := order[..|order| - 1], order[|order| - 1];
      assert order == before + [h];
      CountExact(re, routes, before, x);
      SortedPermutation(Filter(routes, OnHost(h)));
      FilterCount(routes, OnHost(h), x);
    }
  }

  lemma {:induction false} CountGroups(routes: seq<Route>, patterns: seq<string>, groups: seq<RegexGroup>, x: Route)
    requires NoDuplicates(patterns) && |groups| == |patterns|
    requires forall i :: 0 <= i < |patterns| ==> groups[i] == GroupFor(routes, patterns[i])
    ensures multiset(ConcatGroups(groups))[x] ==
            if x.isRegexp && x.hostname in patterns then multiset(routes)[x] else 0
  {
    if patterns != [] {
      var n := |patterns| - 1;
      assert patterns == patterns[..n] + [patterns[n]];
      CountGroups(routes, patterns[..n], groups[..n], x);
      SortedPermutation(Filter(routes, OnPattern(patterns[n])));
      FilterCount(routes, OnPattern(patterns[n]), x);
    }
  }

  lemma {:induction false} PatternsDistinct(re: Regex, routes: seq<Route>)
    ensures NoDuplicates(Patterns(re, routes))
  {
    if routes != [] { PatternsDistinct(re, routes[..|routes| - 1]); }
  }

  /** The table holds the input list minus the routes whose pattern is invalid, each as often as it was given. */
  lemma TableIsInputMinusInvalid(re: Regex, routes: seq<Route>, order: seq<string>)
    requires Enumerates(order, BuildTable(re, routes).exact.Keys)
    ensures multiset(Flatten(BuildTable(re, routes), order)) == multiset(Filter(routes, (r: Route) => Filed(re, r)))
  {
    var t := BuildTable(re, routes);
    var keep := (r: Route) => Filed(re, r);
    forall x: Route ensures multiset(Flatten(t, order))[x] == multiset(Filter(routes, keep))[x] {
      CountExact(re, routes, order, x);
      PatternsDistinct(re, routes);
      CountGroups(routes, Patterns(re, routes), t.groups, x);
      FilterCount(routes, keep, x);
      PatternAppears(re, routes, x.hostname);
      assert multiset(routes)[x] > 0 <==> x in routes;
    }
  }
}
