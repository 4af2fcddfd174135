/**
 * Round-robin over runs. A selection takes one ticket from the pool's atomic counter while the
 * route lock is held for reading, so concurrent callers are ordered by their tickets.
 */
module PoolFairness {
  import opened Domain
  import opened Sequences
  import opened RouteTable

  datatype Request = Request(host: string, path: string)

  // ----- the arithmetic of tickets -----

  /** The value the c-th selection since the reload takes from the 64-bit counter. */
  function Ticket(c: nat): nat {
    c % UINT64
  }

  lemma TicketWraps(c: nat)
    ensures Ticket(c + UINT64) == Ticket(c)
    ensures c < UINT64 ==> Ticket(c) == c
  {
  }

  /** How many of n consecutive tickets, the first being c, fall on member j of m. */
  function Hits(c: nat, n: nat, m: nat, j: nat): nat
    requires m > 0
  {
    if n == 0 then 0
    else Hits(c, n - 1, m, j) + (if Ticket(c + n - 1) % m == j then 1 else 0)
  }

  lemma {:induction false} HitsSplit(c: nat, a: nat, b: nat, m: nat, j: nat)
    requires m > 0
    ensures Hits(c, a + b, m, j) == Hits(c, a, m, j) + Hits(c + a, b, m, j)
  {
    if b > 0 {
      HitsSplit(c, a, b - 1, m, j);
      assert c + (a + b) - 1 == (c + a) + b - 1;
    }
  }

  lemma {:induction false} HitsWrap(c: nat, n: nat, m: nat, j: nat)
    requires m > 0
    ensures Hits(c + UINT64, n, m, j) == Hits(c, n, m, j)
  {
    if n > 0 {
      HitsWrap(c, n - 1, m, j);
      TicketWraps(c + n - 1);
      assert c + UINT64 + n - 1 == c + n - 1 + UINT64;
    }
  }

  lemma ModOfSum(c: nat, i: nat, m: nat)
    requires i < m
    ensures (c + i) % m == if c % m + i < m then c % m + i else c % m + i - m
  {
    var q, s := c / m, c % m;
    assert c == m * q + s;
    if s + i < m {
      ModUnique(c + i, m, q, s + i);
    } else {
      assert m * (q + 1) == m * q + m;
      ModUnique(c + i, m, q + 1, s + i - m);
    }
  }

  lemma MulStep(m: nat, a: int, b: int)
    ensures a < b ==> m * a + m <= m * b
  {
    if a < b {
      MulMinus(m, b, a + 1);
      MulMinus(m, a + 1, 1);
      MulSign(m, b - a - 1);
    }
  }

  lemma ModUnique(x: nat, m: nat, q: nat, r: nat)
    requires x == m * q + r && r < m
    ensures x % m == r && x / m == q
  {
    assert x == m * (x / m) + x % m;
    MulStep(m, q, x / m);
    MulStep(m, x / m, q);
  }

  lemma TurnBefore(k: nat, m: nat)
    requires k > 0
    ensures k * m == (k - 1) * m + m
  {
  }

  /** The position at which ticket sequence c, c+1, ... first falls on member j. */
  function Offset(c: nat, m: nat, j: nat): nat
    requires j < m
  {
    if j >= c % m then j - c % m else j + m - c % m
  }

  lemma TicketInTurn(c: nat, i: nat, m: nat, j: nat)
    requires j < m && i < m && c + i < UINT64
    ensures Ticket(c + i) % m == j <==> Offset(c, m, j) == i
  {
    TicketWraps(c + i);
    ModOfSum(c, i, m);
  }

  lemma HitsNext(c: nat, n: nat, m: nat, j: nat)
    requires j < m && n < m && c + n < UINT64
    ensures Hits(c, n + 1, m, j) == Hits(c, n, m, j) + if Offset(c, m, j) == n then 1 else 0
  {
    TicketInTurn(c, n, m, j);
  }

  lemma {:induction false} HitsWithinTurn(c: nat, n: nat, m: nat, j: nat)
    requires j < m && n <= m && c + n <= UINT64
    ensures Hits(c, n, m, j) == if Offset(c, m, j) < n then 1 else 0
  {
    if n > 0 {
      HitsWithinTurn(c, n - 1, m, j);
      HitsNext(c, n - 1, m, j);
    }
  }

  lemma OneTurnMore(c: nat, a: nat, m: nat, j: nat)
    requires j < m && c + a + m <= UINT64
    ensures Hits(c, a + m, m, j) == Hits(c, a, m, j) + 1
  {
    hide Hits;
    HitsSplit(c, a, m, m, j);
    HitsWithinTurn(c + a, m, m, j);
  }

  lemma {:induction false} HitsTurns(c: nat, n: nat, k: nat, m: nat, j: nat)
    requires j < m && n == k * m && c + n <= UINT64
    ensures Hits(c, n, m, j) == k
    decreases k
  {
    hide Hits;
    if k == 0 {
      HitsNone(c, m, j);
    } else {
      TurnBefore(k, m);
      HitsTurns(c, n - m, k - 1, m, j);
      OneTurnMore(c, n - m, m, j);
    }
  }

  /** k whole turns without a wrap hit every member exactly k times. */
  lemma HitsWholeTurns(c: nat, k: nat, m: nat, j: nat)
    requires j < m && c + k * m <= UINT64
    ensures Hits(c, k * m, m, j) == k
  {
    HitsTurns(c, k * m, k, m, j);
  }

  lemma OffsetAfterTurns(c: nat, k: nat, m: nat, j: nat)
    requires j < m
    ensures Offset(c + k * m, m, j) == Offset(c, m, j)
  {
    assert c == m * (c / m) + c % m;
    assert c + k * m == m * (c / m + k) + c % m by { assert m * (c / m + k) == m * (c / m) + k * m; }
    ModUnique(c + k * m, m, c / m + k, c % m);
  }

  /** Without a wrap, n tickets hit member j once per whole turn, and once more if the rest reaches it. */
  lemma HitsClosed(c: nat, n: nat, m: nat, j: nat)
    requires j < m && c + n <= UINT64
    ensures Hits(c, n, m, j) == n / m + if Offset(c, m, j) < n % m then 1 else 0
  {
    var k, p := n / m, n % m;
    assert n == k * m + p;
    HitsWholeTurns(c, k, m, j);
    HitsSplit(c, k * m, p, m, j);
    HitsWithinTurn(c + k * m, p, m, j);
    OffsetAfterTurns(c, k, m, j);
  }

  /**
   * The exact condition for fairness once the 64-bit counter may wrap: a window of k turns is fair to
   * every member exactly when it ends before the wrap, or the wrap falls between two turns, or the
   * number of members divides 2^64.
   */
  predicate FairWindow(c: nat, k: nat, m: nat)
    requires m > 0 && c < UINT64
  {
    c + k * m <= UINT64 || (UINT64 - c) % m == 0 || UINT64 % m == 0
  }

  lemma HitsAcrossWrap(c: nat, n: nat, m: nat, j: nat)
    requires j < m && c < UINT64 && UINT64 - c <= n <= UINT64
    ensures var a := UINT64 - c; var b := n - a;
            Hits(c, n, m, j) ==
              a / m + (if Offset(c, m, j) < a % m then 1 else 0) + b / m + (if j < b % m then 1 else 0)
  {
    var a := UINT64 - c;
    var b := n - a;
    HitsSplit(c, a, b, m, j);
    HitsWrap(0, b, m, j);
    HitsClosed(c, a, m, j);
    HitsClosed(0, b, m, j);
    ModUnique(0, m, 0, 0);
  }

  lemma SplitTurns(a: nat, b: nat, k: nat, m: nat)
    requires m > 0 && a + b == m * k
    ensures a % m == 0 ==> b % m == 0 && a / m + b / m == k
    ensures a % m != 0 ==> b % m == m - a % m && a / m + b / m == k - 1
  {
    var q, p := a / m, a % m;
    assert a == m * q + p;
    MulStep(m, k, q);
    MulMinus(m, k, q);
    if p == 0 {
      ModUnique(b, m, k - q, 0);
    } else {
      MulMinus(m, k - q, 1);
      ModUnique(b, m, k - q - 1, m - p);
    }
  }

  lemma MulSign(m: nat, d: nat)
    ensures m * d >= 0
  {
  }

  lemma MulMinus(m: nat, a: int, b: int)
    ensures m * (a - b) == m * a - m * b
  {
  }

  lemma FairExactly(c: nat, k: nat, m: nat)
    requires m > 0 && c < UINT64 && k * m <= UINT64
    ensures (forall j :: 0 <= j < m ==> Hits(c, k * m, m, j) == k) <==> FairWindow(c, k, m)
  {
    if c + k * m <= UINT64 {
      forall j | 0 <= j < m ensures Hits(c, k * m, m, j) == k { HitsWholeTurns(c, k, m, j); }
    } else {
      var a := UINT64 - c;
      var b := k * m - a;
      assert k * m == m * k;
      SplitTurns(a, b, k, m);
      forall j | 0 <= j < m
        ensures Hits(c, k * m, m, j) ==
                a / m + (if Offset(c, m, j) < a % m then 1 else 0) + b / m + (if j < b % m then 1 else 0)
      {
        HitsAcrossWrap(c, k * m, m, j);
      }
      var p := a % m;
      if p != 0 {
        ModOfSum(c, p, m);
        WrapResidue(c, a, m);
        assert UINT64 % m == 0 <==> c % m == m - p;
        if c % m == m - p {
          assert forall j :: 0 <= j < m ==> (Offset(c, m, j) < p <==> j >= m - p);
        } else if c % m < m - p {
          assert Offset(c, m, c % m) == 0;
          assert Hits(c, k * m, m, c % m) == k + 1;
        } else {
          assert Offset(c, m, 0) == m - c % m < p;
          assert Hits(c, k * m, m, 0) == k + 1;
        }
      }
    }
  }

  /** A window that is not fair: the last ticket before the wrap and the first two after it give member 0 two turns. */
  lemma UnevenAcrossWrap()
    ensures Hits(UINT64 - 1, 3, 3, 0) == 2 && !FairWindow(UINT64 - 1, 1, 3)
  {
    var c := UINT64 - 1;
    assert Ticket(c) % 3 == 0 && Ticket(c + 1) % 3 == 0 && Ticket(c + 2) % 3 == 1;
    assert Hits(c, 1, 3, 0) == 1;
    assert Hits(c, 2, 3, 0) == 2;
  }

  lemma WrapResidue(c: nat, a: nat, m: nat)
    requires m > 0
    ensures (c + a) % m == (c + a % m) % m
  {
    var q, p := a / m, a % m;
    assert a == m * q + p;
    var u, r := (c + p) / m, (c + p) % m;
    assert c + p == m * u + r;
    assert c + a == m * (u + q) + r by { assert m * (u + q) == m * u + m * q; }
    ModUnique(c + a, m, u + q, r);
  }

  // ----- runs of requests -----

  /** One request: the member of the pool of interest it contacts, if any, and the counters afterwards. */
  type Serve = (map<string, nat>, Request) -> (Option<Route>, map<string, nat>)

  predicate InPool(r: Route, key: string) {
    r.backendPool != "" && PoolKey(r) == key
  }

  /** Whom an answer contacts: its route, at the target the answer names. */
  function Dialled(r: ResolveResult): Route {
    r.route.(target := r.target)
  }

  /** Serving a request from a table whose routes and health stay as they are. */
  function Serving(re: Regex, t: Table, ready: set<string>, key: string): Serve {
    (pools: map<string, nat>, q: Request) =>
      var m := Match(re, t, q.host, q.path);
      var (r, after) := Resolve(re, t, ready, pools, q.host, q.path);
      var picked := m.Some? && InPool(m.value.1, key) && r.Some? && !r.value.unavailable;
      (if picked then Some(Dialled(r.value)) else None, after)
  }

  /** The members of the pool that a run of requests contacts, in ticket order; other requests interleave. */
  function Picks(serve: Serve, pools: map<string, nat>, requests: seq<Request>): seq<Route>
    decreases |requests|
  {
    if requests == [] then []
    else
      var (picked, after) := serve(pools, requests[0]);
      (if picked.Some? then [picked.value] else []) + Picks(serve, after, requests[1..])
  }

  function CountersAfter(serve: Serve, pools: map<string, nat>, requests: seq<Request>): map<string, nat>
    decreases |requests|
  {
    if requests == [] then pools else CountersAfter(serve, serve(pools, requests[0]).1, requests[1..])
  }

  /** Every request either leaves the pool's counter alone or takes its ticket and the member it names. */
  ghost predicate WalksPool(serve: Serve, key: string, members: seq<Route>)
    requires members != []
  {
    forall pools, q | key in pools && pools[key] < UINT64 ::
      var (picked, after) := serve(pools, q);
      && key in after
      && (picked.None? ==> after[key] == pools[key])
      && (picked.Some? ==> after[key] == Bump(pools[key]) && picked.value == members[pools[key] % |members|])
  }

  /** All requests answered from pool key draw on the same available members. */
  ghost predicate DrawsOn(re: Regex, t: Table, ready: set<string>, key: string, members: seq<Route>) {
    forall host, path ::
      var m := Match(re, t, host, path);
      m.Some? && InPool(m.value.1, key) ==> Filter(m.value.0, MemberOf(m.value.1, ready)) == members
  }

  /** The members one request finds available. */
  function Found(re: Regex, t: Table, ready: set<string>, q: Request): seq<Route> {
    var m := Match(re, t, q.host, q.path);
    if m.Some? then Filter(m.value.0, MemberOf(m.value.1, ready)) else []
  }

  lemma FoundDraws(re: Regex, t: Table, ready: set<string>, pools: map<string, nat>, q: Request, key: string,
                   members: seq<Route>)
    requires DrawsOn(re, t, ready, key, members) && Serving(re, t, ready, key)(pools, q).0.Some?
    ensures Found(re, t, ready, q) == members
  {
    var m := Match(re, t, q.host, q.path);
    assert m.Some? && InPool(m.value.1, key);
  }

  lemma OneRequest(re: Regex, t: Table, ready: set<string>, pools: map<string, nat>, q: Request, key: string,
                   members: seq<Route>)
    requires key in pools && pools[key] < UINT64 && members != []
    requires Serving(re, t, ready, key)(pools, q).0.Some? ==> Found(re, t, ready, q) == members
    ensures var (picked, after) := Serving(re, t, ready, key)(pools, q);
            && key in after
            && (picked.None? ==> after[key] == pools[key])
            && (picked.Some? ==> after[key] == Bump(pools[key]) && picked.value == members[pools[key] % |members|])
  {
    var m := Match(re, t, q.host, q.path);
    if m.Some? && InPool(m.value.1, key) {
      assert Found(re, t, ready, q) == Filter(m.value.0, MemberOf(m.value.1, ready));
    }
  }

  lemma ServingWalks(re: Regex, t: Table, ready: set<string>, key: string, members: seq<Route>)
    requires members != [] && DrawsOn(re, t, ready, key, members)
    ensures WalksPool(Serving(re, t, ready, key), key, members)
  {
    forall pools: map<string, nat>, q | key in pools && pools[key] < UINT64
      ensures var (picked, after) := Serving(re, t, ready, key)(pools, q);
              && key in after
              && (picked.None? ==> after[key] == pools[key])
              && (picked.Some? ==> after[key] == Bump(pools[key]) && picked.value == members[pools[key] % |members|])
    {
      OneRequest(re, t, ready, pools, q, key, members);
    }
  }

  function RoundRobin(members: seq<Route>, c: nat, n: nat): seq<Route>
    requires members != []
    decreases n
  {
    if n == 0 then [] else [members[Ticket(c) % |members|]] + RoundRobin(members, c + 1, n - 1)
  }

  lemma {:induction false} RoundRobinShift(members: seq<Route>, c: nat, n: nat)
    requires members != []
    ensures RoundRobin(members, c + UINT64, n) == RoundRobin(members, c, n)
    decreases n
  {
    if n > 0 {
      RoundRobinShift(members, c + 1, n - 1);
      TicketWraps(c);
      assert c + UINT64 + 1 == c + 1 + UINT64;
    }
  }

  lemma AfterBump(members: seq<Route>, c: nat, n: nat)
    requires members != [] && c < UINT64
    ensures RoundRobin(members, Bump(c), n) == RoundRobin(members, c + 1, n)
    ensures Ticket(Bump(c) + n) == Ticket(c + 1 + n)
  {
    hide RoundRobin;
    if c + 1 == UINT64 {
      RoundRobinShift(members, 0, n);
      TicketWraps(n);
    }
  }

  lemma OneServe(serve: Serve, pools: map<string, nat>, q: Request, key: string, members: seq<Route>)
    requires key in pools && pools[key] < UINT64 && members != []
    requires WalksPool(serve, key, members)
    ensures var (picked, after) := serve(pools, q);
            && key in after && after[key] < UINT64
            && (picked.None? ==> after[key] == pools[key])
            && (picked.Some? ==>
                  after[key] == Bump(pools[key]) && picked.value == members[Ticket(pools[key]) % |members|])
  {
    TicketWraps(pools[key]);
    var (picked, after) := serve(pools, q);
  }

  /** Over any run of requests, the pool's picks walk its members in turn, whatever else is asked in between. */
  lemma {:induction false} PicksAreRoundRobin(serve: Serve, pools: map<string, nat>, requests: seq<Request>,
                                              key: string, members: seq<Route>)
    requires key in pools && pools[key] < UINT64 && members != []
    requires WalksPool(serve, key, members)
    ensures var picks := Picks(serve, pools, requests);
            var after := CountersAfter(serve, pools, requests);
            && picks == RoundRobin(members, pools[key], |picks|)
            && key in after && after[key] == Ticket(pools[key] + |picks|)
    decreases |requests|
  {
    hide Ticket, Bump, WalksPool;
    TicketWraps(pools[key]);
    if requests != [] {
      OneServe(serve, pools, requests[0], key, members);
      var (picked, after) := serve(pools, requests[0]);
      PicksAreRoundRobin(serve, after, requests[1..], key, members);
      if picked.Some? {
        AfterBump(members, pools[key], |Picks(serve, after, requests[1..])|);
      }
    }
  }

  lemma {:induction false} RoundRobinSlice(members: seq<Route>, c: nat, n: nat, a: nat, b: nat)
    requires members != [] && a <= b <= n
    ensures |RoundRobin(members, c, n)| == n
    ensures RoundRobin(members, c, n)[a..b] == RoundRobin(members, c + a, b - a)
    decreases n
  {
    hide Ticket;
    if a > 0 {
      RoundRobinSlice(members, c + 1, n - 1, a - 1, b - 1);
    } else if b > 0 {
      RoundRobinSlice(members, c + 1, n - 1, 0, b - 1);
      assert RoundRobin(members, c, n)[0..b] ==
             [members[Ticket(c) % |members|]] + RoundRobin(members, c + 1, n - 1)[0..b - 1];
    } else if n > 0 {
      RoundRobinSlice(members, c + 1, n - 1, 0, 0);
    }
  }

  lemma HitsNone(c: nat, m: nat, j: nat)
    requires m > 0
    ensures Hits(c, 0, m, j) == 0
  {
  }

  lemma HitsFirst(c: nat, n: nat, m: nat, j: nat)
    requires m > 0 && n > 0
    ensures Hits(c, n, m, j) == (if Ticket(c) % m == j then 1 else 0) + Hits(c + 1, n - 1, m, j)
  {
    HitsSplit(c, 1, n - 1, m, j);
    assert Hits(c, 1, m, j) == Hits(c, 0, m, j) + if Ticket(c + 1 - 1) % m == j then 1 else 0;
  }

  lemma CountFirst(members: seq<Route>, i: nat, rest: seq<Route>, j: nat)
    requires NoDuplicates(members) && i < |members| && j < |members|
    ensures multiset([members[i]] + rest)[members[j]] == (if i == j then 1 else 0) + multiset(rest)[members[j]]
  {
    assert i != j ==> members[i] != members[j];
  }

  lemma {:induction false} RoundRobinCounts(members: seq<Route>, c: nat, n: nat, j: nat)
    requires NoDuplicates(members) && j < |members|
    ensures multiset(RoundRobin(members, c, n))[members[j]] == Hits(c, n, |members|, j)
    decreases n
  {
    hide Hits, Ticket;
    if n == 0 {
      HitsNone(c, |members|, j);
    } else {
      RoundRobinCounts(members, c + 1, n - 1, j);
      HitsFirst(c, n, |members|, j);
      CountFirst(members, Ticket(c) % |members|, RoundRobin(members, c + 1, n - 1), j);
    }
  }

  lemma {:induction false} RoundRobinOnlyMembers(members: seq<Route>, c: nat, n: nat, x: Route)
    requires members != []
    ensures x in RoundRobin(members, c, n) ==> x in members
    decreases n
  {
    if n > 0 { RoundRobinOnlyMembers(members, c + 1, n - 1, x); }
  }

  lemma FairRoundRobin(members: seq<Route>, c: nat, k: nat, x: Route)
    requires members != [] && NoDuplicates(members) && c + k * |members| <= UINT64
    ensures multiset(RoundRobin(members, c, k * |members|))[x] == if x in members then k else 0
  {
    var m := |members|;
    if x in members {
      var j :| 0 <= j < m && members[j] == x;
      RoundRobinCounts(members, c, k * m, j);
      HitsWholeTurns(c, k, m, j);
    } else {
      RoundRobinOnlyMembers(members, c, k * m, x);
    }
  }

  /** The k * m picks from this position on hit each of the m members k times, and nothing else. */
  ghost predicate Even(picks: seq<Route>, from: nat, k: nat, members: seq<Route>) {
    && from + k * |members| <= |picks|
    && forall x :: multiset(picks[from..from + k * |members|])[x] == if x in members then k else 0
  }

  function TargetsOf(picks: seq<Route>): seq<string> {
    seq(|picks|, i requires 0 <= i < |picks| => picks[i].target)
  }

  ghost predicate TargetsApart(members: seq<Route>) {
    forall a, b :: a in members && b in members && a.target == b.target ==> a == b
  }

  /**
   * Of the k * m targets dialled from this position on, each member's own is dialled k times, and there is no other.
   */
  ghost predicate EvenTargets(picks: seq<Route>, from: nat, k: nat, members: seq<Route>) {
    && from + k * |members| <= |picks|
    && var dialled := TargetsOf(picks[from..from + k * |members|]);
       && (forall x :: x in members ==> multiset(dialled)[x.target] == k)
       && (forall t :: t in dialled ==> exists x :: x in members && x.target == t)
  }

  lemma {:induction false} TargetCount(picks: seq<Route>, members: seq<Route>, x: Route)
    requires TargetsApart(members) && x in members && forall p :: p in picks ==> p in members
    ensures multiset(TargetsOf(picks))[x.target] == multiset(picks)[x]
  {
    if picks != [] {
      var n := |picks| - 1;
      assert picks[n] in picks && forall p :: p in picks[..n] ==> p in picks;
      TargetCount(picks[..n], members, x);
      assert picks == picks[..n] + [picks[n]];
      assert TargetsOf(picks) == TargetsOf(picks[..n]) + [picks[n].target];
    }
  }

  lemma EvenByTarget(picks: seq<Route>, from: nat, k: nat, members: seq<Route>)
    requires TargetsApart(members) && Even(picks, from, k, members)
    ensures EvenTargets(picks, from, k, members)
  {
    var window := picks[from..from + k * |members|];
    forall p | p in window ensures p in members { assert multiset(window)[p] > 0; }
    forall x | x in members ensures multiset(TargetsOf(window))[x.target] == k { TargetCount(window, members, x); }
    forall t | t in TargetsOf(window) ensures exists x :: x in members && x.target == t {
      var i :| 0 <= i < |window| && TargetsOf(window)[i] == t;
      assert window[i] in window;
    }
  }

  lemma EvenTargetsNothing(members: seq<Route>, from: nat, k: nat)
    requires members != [] && from + k * |members| <= 0
    ensures EvenTargets([], from, k, members)
  {
    MulStep(|members|, 0, k);
    assert k * |members| == |members| * k;
  }

  lemma EvenNothing(members: seq<Route>, from: nat, k: nat)
    requires members != [] && from + k * |members| <= 0
    ensures Even([], from, k, members)
  {
    MulStep(|members|, 0, k);
    assert k * |members| == |members| * k;
  }

  lemma EvenRoundRobin(members: seq<Route>, c: nat, n: nat, from: nat, k: nat)
    requires members != [] && NoDuplicates(members) && from + k * |members| <= n && c + n <= UINT64
    ensures Even(RoundRobin(members, c, n), from, k, members)
  {
    hide RoundRobin;
    RoundRobinSlice(members, c, n, from, from + k * |members|);
    forall x ensures multiset(RoundRobin(members, c + from, k * |members|))[x] == if x in members then k else 0 {
      FairRoundRobin(members, c + from, k, x);
    }
  }

  lemma FairPicks(serve: Serve, pools: map<string, nat>, requests: seq<Request>, key: string, members: seq<Route>,
                  from: nat, k: nat)
    requires key in pools && members != [] && NoDuplicates(members)
    requires WalksPool(serve, key, members)
    requires from + k * |members| <= |Picks(serve, pools, requests)|
    requires pools[key] + |Picks(serve, pools, requests)| < UINT64
    ensures Even(Picks(serve, pools, requests), from, k, members)
  {
    hide WalksPool, Picks, RoundRobin;
    var picks := Picks(serve, pools, requests);
    PicksAreRoundRobin(serve, pools, requests, key, members);
    EvenRoundRobin(members, pools[key], |picks|, from, k);
  }

  /**
   * Any k * m consecutive selections from a pool with m available members pick each exactly k times and
   * nothing else, as long as fewer than 2^64 selections were made since the reload that zeroed the counter.
   */
  lemma FairSelection(re: Regex, t: Table, ready: set<string>, pools: map<string, nat>,
                      requests: seq<Request>, key: string, members: seq<Route>, from: nat, k: nat)
    requires key in pools && members != [] && NoDuplicates(members)
    requires DrawsOn(re, t, ready, key, members)
    requires from + k * |members| <= |Picks(Serving(re, t, ready, key), pools, requests)|
    requires pools[key] + |Picks(Serving(re, t, ready, key), pools, requests)| < UINT64
    ensures Even(Picks(Serving(re, t, ready, key), pools, requests), from, k, members)
  {
    ServingWalks(re, t, ready, key, members);
    FairPicks(Serving(re, t, ready, key), pools, requests, key, members, from, k);
  }

  // ----- when a pool has one class of routes -----

  /** Every route of the list that carries this pool key has the same path, strip and h2c, and the same kind of host. */
  ghost predicate OneClass(routes: seq<Route>, key: string) {
    forall r, s | r in routes && s in routes && InPool(r, key) && InPool(s, key) ::
      r.isRegexp == s.isRegexp && SameClass(r, s)
  }

  lemma {:induction false} FilterSame(s: seq<Route>, f: Route -> bool, g: Route -> bool)
    requires forall x :: x in s ==> (f(x) <==> g(x))
    ensures Filter(s, f) == Filter(s, g)
  {
    if s != [] {
      assert s[|s| - 1] in s;
      FilterSame(s[..|s| - 1], f, g);
    }
  }

  lemma ScanAnswerIsListed(re: Regex, routes: seq<Route>, host: string, path: string)
    ensures var s := ScanMatch(re, routes, host, path); s.Some? ==> s.value in routes
  {
    var i := BestScanIsLongest(routes, OnHost(host), path);
    ScanPatternsListed(re, routes, routes, host, path);
  }

  lemma {:induction false} ScanPatternsListed(re: Regex, all: seq<Route>, rest: seq<Route>, host: string, path: string)
    ensures var s := ScanPatterns(re, all, rest, host, path); s.Some? ==> s.value in all
  {
    if rest != [] {
      var i := BestScanIsLongest(all, OnPattern(rest[0].hostname), path);
      ScanPatternsListed(re, all, rest[1..], host, path);
    }
  }

  lemma OneClassMembers(re: Regex, routes: seq<Route>, ready: set<string>, base: Route, host: string, path: string)
    requires base in routes && base.backendPool != ""
    requires OneClass(routes, PoolKey(base))
    ensures var m := Match(re, BuildTable(re, routes), host, path);
            m.Some? && InPool(m.value.1, PoolKey(base)) ==>
              Filter(m.value.0, MemberOf(m.value.1, ready)) == Filter(routes, ScanMemberOf(base, ready))
  {
    MatchIsScan(re, routes, host, path);
    ScanAnswerIsListed(re, routes, host, path);
    var s := ScanMatch(re, routes, host, path);
    if s.Some? && InPool(s.value, PoolKey(base)) {
      PoolMembersInInputOrder(routes, s.value, ready);
      FilterSame(routes, ScanMemberOf(s.value, ready), ScanMemberOf(base, ready));
    }
  }

  /** One class per pool is what makes all requests to it draw on the same members. */
  lemma OneClassDraws(re: Regex, routes: seq<Route>, ready: set<string>, base: Route)
    requires base in routes && base.backendPool != ""
    requires OneClass(routes, PoolKey(base))
    ensures DrawsOn(re, BuildTable(re, routes), ready, PoolKey(base), Filter(routes, ScanMemberOf(base, ready)))
  {
    forall host, path
      ensures var m := Match(re, BuildTable(re, routes), host, path);
              m.Some? && InPool(m.value.1, PoolKey(base)) ==>
                Filter(m.value.0, MemberOf(m.value.1, ready)) == Filter(routes, ScanMemberOf(base, ready))
    {
      OneClassMembers(re, routes, ready, base, host, path);
    }
  }
}
