/**
 * What an answer of the router means, in terms of the list of routes it was given: which route answers a request,
 * whom it is forwarded to, and with what path.
 */
module RouteAnswers {
  import opened Domain
  import opened Sequences
  import opened RouteTable

  // ----- which route answers -----

  /** The path is admitted: by the root, as the path itself, or below it. */
  ghost predicate Covers(prefix: string, path: string) {
    prefix == "/" || path == prefix || exists rest :: path == prefix + "/" + rest
  }

  /** The route may answer the request. */
  ghost predicate Answers(re: Regex, x: Route, host: string, path: string) {
    && (if x.isRegexp then re.compiles(x.hostname) && re.matches(x.hostname, host) else x.hostname == host)
    && Covers(x.path, path)
  }

  /** Filed under the same host or the same pattern. */
  predicate Together(x: Route, base: Route) {
    x.isRegexp == base.isRegexp && x.hostname == base.hostname
  }

  lemma MatchesIsCovers(r: Route, path: string)
    ensures PathMatches(r, path) <==> Covers(r.path, path)
  {
    if HasPrefix(path, r.path + "/") {
      assert path == r.path + "/" + path[|r.path| + 1..];
    }
    if rest :| path == r.path + "/" + rest {
      assert path[..|r.path| + 1] == r.path + "/";
    }
  }

  /** Where the scan's answer stands in the list: nothing filed with it is longer, or as long and earlier. */
  ghost predicate LongestAt(re: Regex, routes: seq<Route>, base: Route, host: string, path: string, i: int) {
    && 0 <= i < |routes| && routes[i] == base && Answers(re, base, host, path)
    && forall j :: 0 <= j < |routes| && Together(routes[j], base) && Answers(re, routes[j], host, path) ==>
         |routes[j].path| < |base.path| || (|routes[j].path| == |base.path| && i <= j)
  }

  /** The pattern of base first appears at i, and no pattern that appears before it has a route that answers. */
  ghost predicate FirstPattern(re: Regex, routes: seq<Route>, base: Route, host: string, path: string, i: int) {
    && 0 <= i < |routes| && Together(routes[i], base)
    && forall j, x :: 0 <= j < i && routes[j].isRegexp && x in routes && Together(x, routes[j]) ==>
         !Answers(re, x, host, path)
  }

  /** Base is the route that has to answer. */
  ghost predicate RightAnswer(re: Regex, routes: seq<Route>, base: Route, host: string, path: string) {
    && (exists i :: LongestAt(re, routes, base, host, path, i))
    && (base.isRegexp ==>
         && (forall x :: x in routes && Answers(re, x, host, path) ==> x.isRegexp)
         && exists i :: FirstPattern(re, routes, base, host, path, i))
  }

  lemma ExactScan(re: Regex, routes: seq<Route>, host: string, path: string)
    ensures var b := BestScan(routes, OnHost(host), path);
            && (b.None? <==> forall x :: x in routes && !x.isRegexp ==> !Answers(re, x, host, path))
            && (b.Some? ==> !b.value.isRegexp && exists i :: LongestAt(re, routes, b.value, host, path, i))
  {
    var i := BestScanIsLongest(routes, OnHost(host), path);
    forall x | x in routes ensures PathMatches(x, path) <==> Covers(x.path, path) { MatchesIsCovers(x, path); }
    if BestScan(routes, OnHost(host), path).Some? {
      assert LongestAt(re, routes, routes[i], host, path, i);
    }
  }

  lemma PatternBest(re: Regex, routes: seq<Route>, p: string, host: string, path: string)
    requires re.compiles(p) && re.matches(p, host)
    ensures var b := BestScan(routes, OnPattern(p), path);
            && (b.None? <==> forall x :: x in routes && x.isRegexp && x.hostname == p ==> !Answers(re, x, host, path))
            && (b.Some? ==> b.value.isRegexp && b.value.hostname == p &&
                            exists i :: LongestAt(re, routes, b.value, host, path, i))
  {
    var i := BestScanIsLongest(routes, OnPattern(p), path);
    forall x | x in routes ensures PathMatches(x, path) <==> Covers(x.path, path) { MatchesIsCovers(x, path); }
    if BestScan(routes, OnPattern(p), path).Some? {
      assert LongestAt(re, routes, routes[i], host, path, i);
    }
  }

  /** The scan over patterns stops at the first entry of the list whose pattern has an answer. */
  lemma {:induction false} PatternsInOrder(re: Regex, all: seq<Route>, rest: seq<Route>, host: string, path: string)
    ensures var s := ScanPatterns(re, all, rest, host, path);
            && (s.None? ==> forall j, x :: 0 <= j < |rest| && rest[j].isRegexp && x in all && Together(x, rest[j]) ==>
                              !Answers(re, x, host, path))
            && (s.Some? ==> s.value.isRegexp && exists i :: LongestAt(re, all, s.value, host, path, i))
            && (s.Some? ==> exists i :: 0 <= i < |rest| && Together(rest[i], s.value) &&
                              forall j, x :: 0 <= j < i && rest[j].isRegexp && x in all && Together(x, rest[j]) ==>
                                !Answers(re, x, host, path))
  {
    hide LongestAt, Covers;
    if rest != [] {
      var r, s := rest[0], ScanPatterns(re, all, rest, host, path);
      if r.isRegexp && re.compiles(r.hostname) && re.matches(r.hostname, host) {
        PatternBest(re, all, r.hostname, host, path);
      }
      var here := r.isRegexp && re.compiles(r.hostname) && re.matches(r.hostname, host) &&
                  BestScan(all, OnPattern(r.hostname), path).Some?;
      if !here {
        PatternsInOrder(re, all, rest[1..], host, path);
        if s.Some? {
          var i :| 0 <= i < |rest[1..]| && Together(rest[1..][i], s.value) &&
                   forall j, x :: 0 <= j < i && rest[1..][j].isRegexp && x in all && Together(x, rest[1..][j]) ==>
                     !Answers(re, x, host, path);
          forall j, x | 0 <= j < i + 1 && rest[j].isRegexp && x in all && Together(x, rest[j])
            ensures !Answers(re, x, host, path)
          {
            if j > 0 { assert rest[1..][j - 1] == rest[j]; }
          }
          assert Together(rest[i + 1], s.value);
        } else {
          forall j, x | 0 <= j < |rest| && rest[j].isRegexp && x in all && Together(x, rest[j])
            ensures !Answers(re, x, host, path)
          {
            if j > 0 { assert rest[1..][j - 1] == rest[j]; }
          }
        }
      }
    }
  }

  /** The scan finds the right answer, if there is any. */
  lemma ScanIsRight(re: Regex, routes: seq<Route>, host: string, path: string)
    ensures var s := ScanMatch(re, routes, host, path);
            && (s.None? ==> forall x :: x in routes ==> !Answers(re, x, host, path))
            && (s.Some? ==> s.value in routes && Answers(re, s.value, host, path) &&
                            RightAnswer(re, routes, s.value, host, path))
  {
    hide Covers, BestScan, ScanPatterns;
    var s := ScanMatch(re, routes, host, path);
    ExactScan(re, routes, host, path);
    PatternsInOrder(re, routes, routes, host, path);
    if s.Some? {
      var i :| LongestAt(re, routes, s.value, host, path, i);
      if s.value.isRegexp {
        var k :| 0 <= k < |routes| && Together(routes[k], s.value) &&
                 forall j, x :: 0 <= j < k && routes[j].isRegexp && x in routes && Together(x, routes[j]) ==>
                   !Answers(re, x, host, path);
        assert FirstPattern(re, routes, s.value, host, path, k);
      }
    } else {
      forall x | x in routes ensures !Answers(re, x, host, path) {
        var j :| 0 <= j < |routes| && routes[j] == x;
      }
    }
  }

  lemma GroupIsTogether(routes: seq<Route>, base: Route)
    ensures var keep := if base.isRegexp then OnPattern(base.hostname) else OnHost(base.hostname);
            forall x :: x in ByPathDesc(Filter(routes, keep)) <==> x in routes && Together(x, base)
  {
    var keep := if base.isRegexp then OnPattern(base.hostname) else OnHost(base.hostname);
    var filed := Filter(routes, keep);
    SortedPermutation(filed);
    forall x ensures x in ByPathDesc(filed) <==> x in routes && Together(x, base) {
      FilterMember(routes, keep, x);
      assert x in ByPathDesc(filed) <==> x in multiset(ByPathDesc(filed));
      assert x in filed <==> x in multiset(filed);
    }
  }

  /**
   * After Update, a request is answered by the right route of the input, if any may answer it: an exact host before
   * any pattern, patterns by first appearance, among the routes filed together the longest path, the earliest of
   * those; and the routes it may be forwarded to are those filed together with it.
   */
  lemma AnswerExactly(re: Regex, routes: seq<Route>, host: string, path: string)
    ensures var m := Match(re, BuildTable(re, routes), host, path);
            && (m.None? <==> forall x :: x in routes ==> !Answers(re, x, host, path))
            && (m.Some? ==> RightAnswer(re, routes, m.value.1, host, path))
            && (m.Some? ==> forall x :: x in m.value.0 <==> x in routes && Together(x, m.value.1))
  {
    hide Match, BuildTable, Answers, RightAnswer, ScanMatch, ByPathDesc;
    var m := Match(re, BuildTable(re, routes), host, path);
    MatchIsScan(re, routes, host, path);
    ScanIsRight(re, routes, host, path);
    if m.Some? { GroupIsTogether(routes, m.value.1); }
  }

  // ----- whom it is forwarded to -----

  /** A route that may serve in base's place: it agrees with it in these fields, and is not a checked route unready. */
  ghost predicate Candidate(x: Route, base: Route, ready: set<string>) {
    && x.hostname == base.hostname && x.backendPool == base.backendPool && x.path == base.path
    && x.stripPath == base.stripPath && x.h2c == base.h2c
    && (x.health.Some? ==> HealthKey(x) in ready)
  }

  /** Where one request is sent, and what becomes of the counters. */
  ghost predicate Forwarded(group: seq<Route>, base: Route, ready: set<string>, pools: map<string, nat>,
                            r: ResolveResult, after: map<string, nat>)
  {
    var key := PoolKey(base);
    var none := key !in pools || forall x :: x in group ==> !Candidate(x, base, ready);
    if base.backendPool == "" then !r.unavailable && r.route == base && r.target == base.target && after == pools
    else if none then r.unavailable && r.target == "" && after == pools
    else
      && !r.unavailable && r.route in group && Candidate(r.route, base, ready) && r.target == r.route.target
      && after == pools[key := if pools[key] + 1 == 0x1_0000_0000_0000_0000 then 0 else pools[key] + 1]
  }

  /** The path it is forwarded with: the request's, or what follows the route's own path. */
  ghost predicate Rewritten(base: Route, path: string, rewritten: string) {
    && (!base.stripPath ==> rewritten == path)
    && (base.stripPath && path == base.path ==> rewritten == "/")
    && (base.stripPath ==> forall rest :: rest != "" && path == base.path + rest ==> rewritten == rest)
    && (base.stripPath && !HasPrefix(path, base.path) ==> rewritten == if path == "" then "/" else path)
  }

  lemma RewriteExactly(r: Route, path: string)
    ensures Rewritten(r, path, Rewrite(r, path))
  {
    assert path == r.path ==> TrimPrefix(path, r.path) == "";
    forall rest | rest != "" && path == r.path + rest ensures r.stripPath ==> Rewrite(r, path) == rest {
      assert path[..|r.path|] == r.path && path[|r.path|..] == rest;
    }
  }

  lemma CandidatesAre(group: seq<Route>, base: Route, ready: set<string>)
    ensures forall x :: x in Filter(group, MemberOf(base, ready)) <==> x in group && Candidate(x, base, ready)
  {
    forall x ensures x in Filter(group, MemberOf(base, ready)) <==> x in group && Candidate(x, base, ready) {
      FilterMember(group, MemberOf(base, ready), x);
    }
  }

  /** One selection from a group: what is contacted, and with what path. */
  ghost predicate Served(group: seq<Route>, base: Route, ready: set<string>, pools: map<string, nat>, path: string,
                         r: ResolveResult, after: map<string, nat>)
  {
    Forwarded(group, base, ready, pools, r, after) && Rewritten(base, path, r.rewrittenPath)
  }

  /** The counters of the pools hold 64 bits. */
  ghost predicate Fit(pools: map<string, nat>) {
    forall k :: k in pools ==> pools[k] < 0x1_0000_0000_0000_0000
  }

  lemma SelectServes(group: seq<Route>, base: Route, ready: set<string>, pools: map<string, nat>, path: string)
    requires Fit(pools)
    ensures var (r, after) := Select(group, base, ready, pools, path);
            r.Some? && Served(group, base, ready, pools, path, r.value, after)
  {
    hide Rewrite, Candidate, Rewritten, MemberOf;
    CandidatesAre(group, base, ready);
    RewriteExactly(base, path);
    var members := Filter(group, MemberOf(base, ready));
    if members != [] && PoolKey(base) in pools {
      assert members[0] in members;
      assert members[pools[PoolKey(base)] % |members|] in members;
    }
  }

  /** Every answer: the matched route decides; an available candidate is contacted, at its own target. */
  lemma ServedExactly(re: Regex, t: Table, ready: set<string>, pools: map<string, nat>, host: string, path: string)
    requires Fit(pools)
    ensures var m := Match(re, t, host, path);
            var (r, after) := Resolve(re, t, ready, pools, host, path);
            && (m.None? ==> r.None? && after == pools)
            && (m.Some? ==> r.Some? && Served(m.value.0, m.value.1, ready, pools, path, r.value, after))
  {
    hide Match, Select, Served, Fit;
    var m := Match(re, t, host, path);
    if m.Some? { SelectServes(m.value.0, m.value.1, ready, pools, path); }
  }
}
