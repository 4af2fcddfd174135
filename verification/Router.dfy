/**
 * The router object. Every method is one section under the route lock; model is the protocol state the
 * fields stand for, and each method is proved to make exactly the protocol's move on it.
 */
module Router {
  import opened Domain
  import opened Sequences
  import opened RouteTable
  import CC = CheckedCells
  import P = HealthProtocol
  import RA = RouteAnswers

  class HealthCell {
    const route: Route
    var healthy: bool
    var next: nat
    var checkedAt: nat

    constructor (route: Route)
      ensures this.route == route && !healthy && next == 0 && checkedAt == 0
    {
      this.route := route;
      healthy, next, checkedAt := false, 0, 0;
    }

    ghost function Value(): P.Cell reads this {
      P.Cell(route, healthy, next, checkedAt)
    }
  }

  /** The objects hold these values. */
  ghost predicate Mirrors(cells: seq<HealthCell>, values: seq<P.Cell>)
    reads cells
  {
    |values| == |cells| && forall i :: 0 <= i < |cells| ==> values[i] == cells[i].Value()
  }

  ghost function Values(cells: seq<HealthCell>): (values: seq<P.Cell>)
    reads cells
    ensures Mirrors(cells, values)
    ensures forall i :: 0 <= i < |values| ==> cells[i] in cells
  {
    if cells == [] then [] else Values(cells[..|cells| - 1]) + [cells[|cells| - 1].Value()]
  }

  /** Both maps have the same keys and lead to the same cell. */
  ghost predicate KeysAgree(cells: seq<HealthCell>, health: map<string, HealthCell>, ids: map<string, nat>) {
    && health.Keys == ids.Keys
    && forall k :: k in health ==> ids[k] < |cells| && cells[ids[k]] == health[k]
  }

  ghost predicate KeyedByRoute(health: map<string, HealthCell>) {
    forall k :: k in health ==> HealthKey(health[k].route) == k
  }

  function Shift(ids: map<string, nat>, n: nat): map<string, nat> {
    map k | k in ids :: n + ids[k]
  }

  lemma MirrorsJoin(cells: seq<HealthCell>, values: seq<P.Cell>, made: seq<HealthCell>, more: seq<P.Cell>)
    requires Mirrors(cells, values) && Mirrors(made, more)
    ensures Mirrors(cells + made, values + more)
  {
    var n := |cells|;
    forall i | 0 <= i < |cells + made| ensures (values + more)[i] == (cells + made)[i].Value() {
      if i >= n { assert (cells + made)[i] == made[i - n] && (values + more)[i] == more[i - n]; }
    }
  }

  lemma CellsJoin(cells: seq<HealthCell>, made: seq<HealthCell>, health: map<string, HealthCell>, ids: map<string, nat>)
    requires NoDuplicates(cells) && NoDuplicates(made) && forall i :: 0 <= i < |cells| ==> cells[i] !in made
    requires KeysAgree(made, health, ids)
    ensures NoDuplicates(cells + made) && KeysAgree(cells + made, health, Shift(ids, |cells|))
  {
    assert forall i :: 0 <= i < |made| ==> made[i] in made;
  }

  lemma UnhealthyStep(cells: seq<P.Cell>, done: set<nat>, id: nat)
    requires id < |cells|
    ensures P.Unhealthy(cells, done + {id}) ==
            P.Unhealthy(cells, done)[id := P.Unhealthy(cells, done)[id].(healthy := false)]
  {
  }

  /** The protocol state after a reset that made these cells. */
  ghost function AfterReset(base: P.Shared, values: seq<P.Cell>, ids: map<string, nat>): P.Shared {
    base.(cells := base.cells + values, health := Shift(ids, |base.cells|),
          generation := base.generation + 1, cancelled := base.cancelled + {base.generation},
          parents := base.parents + [base.parent], wake := true)
  }

  ghost predicate Lists(all: seq<Route>, t: Table) {
    forall r :: r in all <==> P.InTable(t, r)
  }

  /** The cells FreshCells makes from a list of routes. */
  ghost predicate CellsOf(made: seq<HealthCell>, ids: map<string, nat>, all: seq<Route>)
    reads made
  {
    && (forall c :: c in made ==> P.Fresh(c.Value()) && Checked(c.route) && c.route in all)
    && (forall k :: k in ids <==> exists r :: r in all && Checked(r) && HealthKey(r) == k)
    && (forall k :: k in ids ==> ids[k] < |made| && HealthKey(made[ids[k]].route) == k)
  }

  lemma AfterResetIsReset(base: P.Shared, all: seq<Route>, made: seq<HealthCell>, ids: map<string, nat>)
    requires Lists(all, base.table) && CellsOf(made, ids, all)
    ensures P.Reset(base, AfterReset(base, Values(made), ids))
  {
    var values := Values(made);
    var t := AfterReset(base, values, ids);
    forall i | |base.cells| <= i < |t.cells|
      ensures P.Fresh(t.cells[i]) && Checked(t.cells[i].route) && P.InTable(base.table, t.cells[i].route)
    {
      var c := made[i - |base.cells|];
      assert c in made && t.cells[i] == c.Value();
    }
    assert P.ResetCells(base, t);
    forall k ensures k in t.health <==> P.KeyOwned(base.table, k) {
      if k in ids {
        var r :| r in all && Checked(r) && HealthKey(r) == k;
        assert P.InTable(base.table, r);
      }
    }
    assert P.ResetKeys(base, t);
  }

  datatype BackendHealth = BackendHealth(
    hostname: string, pool: string, path: string, targetOrigin: string,
    state: P.Readiness, lastCheckAgeMs: Option<nat>, ageCapped: bool)

  const MILLISECOND: nat := 1_000_000
  const DAY_MS: nat := 24 * 60 * 60 * 1000

  /** The row of one cell; origin gives scheme and host of a target, and the clock may be behind the last check. */
  function Row(running: bool, c: P.Cell, now: nat, origin: string -> string): BackendHealth {
    var age := if now < c.checkedAt then 0 else (now - c.checkedAt) / MILLISECOND;
    BackendHealth(
      c.route.hostname, c.route.backendPool, c.route.path, origin(c.route.target),
      P.RowState(running, c),
      if c.checkedAt == 0 then None else Some(if age > DAY_MS then DAY_MS else age),
      c.checkedAt != 0 && age > DAY_MS)
  }

  /**
   * What a row tells: whose it is, its readiness, and, once there was a result, the whole milliseconds since then, or a
   * day with a mark if it is longer ago; a result from the clock's future counts as just now.
   */
  lemma RowExactly(running: bool, c: P.Cell, now: nat, origin: string -> string)
    ensures var row := Row(running, c, now, origin);
            && row.hostname == c.route.hostname && row.pool == c.route.backendPool && row.path == c.route.path
            && row.targetOrigin == origin(c.route.target)
            && (row.state == P.ReadyState <==> running && c.checkedAt != 0 && c.healthy)
            && (row.state == P.DownState <==> running && c.checkedAt != 0 && !c.healthy)
            && (row.lastCheckAgeMs.None? <==> c.checkedAt == 0)
            && (c.checkedAt != 0 && now <= c.checkedAt ==> row.lastCheckAgeMs == Some(0))
            && (row.ageCapped <==> c.checkedAt != 0 && now >= c.checkedAt + 86_400_001 * 1_000_000)
            && (row.ageCapped ==> row.lastCheckAgeMs == Some(86_400_000))
            && (c.checkedAt != 0 && c.checkedAt <= now && !row.ageCapped ==>
                  var ms := row.lastCheckAgeMs.value;
                  c.checkedAt + ms * 1_000_000 <= now < c.checkedAt + (ms + 1) * 1_000_000)
  {
  }

  ghost predicate RowWithin(row: BackendHealth, running: bool, c: P.Cell, start: nat, end: nat,
                            origin: string -> string)
  {
    exists now: nat :: start <= now <= end && row == Row(running, c, now, origin)
  }

  /** Walk a map: its keys, each once, in an order nobody controls. */
  method Walk(keys: set<string>) returns (order: seq<string>)
    ensures Enumerates(order, keys)
  {
    order := [];
    var rest := keys;
    while rest != {}
      invariant rest <= keys && Enumerates(order, keys - rest)
      decreases rest
    {
      var k :| k in rest;
      EnumeratesNext(order, k, keys - rest);
      assert keys - rest + {k} == keys - (rest - {k});
      order, rest := order + [k], rest - {k};
    }
    assert keys - rest == keys;
  }

  class Router {
    const re: Regex
    var routes: map<string, seq<Route>>
    var regexRoutes: seq<RegexGroup>
    var pools: map<string, nat>
    var health: map<string, HealthCell>
    var healthGeneration: nat               // names healthContext too
    var healthParent: Option<nat>
    var healthRunning: bool
    var healthWake: bool
    var cancelled: set<nat>                 // reload contexts cancelled so far
    var parents: seq<Option<nat>>           // what each reload context was derived from
    ghost var cells: seq<HealthCell>        // every cell ever made, in order
    ghost var model: P.Shared

    ghost predicate FieldsOk()
      reads this
    {
      && model.table == Table(routes, regexRoutes)
      && model.pools == pools
      && model.generation == healthGeneration
      && model.cancelled == cancelled && model.parents == parents && model.parent == healthParent
      && model.running == healthRunning && model.wake == healthWake
    }

    ghost predicate CellsOk()
      reads this, cells
    {
      Mirrors(cells, model.cells) && NoDuplicates(cells) && KeysAgree(cells, health, model.health)
    }

    ghost predicate Valid()
      reads this, cells
    {
      FieldsOk() && CellsOk() && KeyedByRoute(health)
    }

    constructor (re: Regex)
      ensures Valid() && this.re == re
      ensures model == P.Shared(Table(map[], []), map[], [], map[], 0, {}, [None], None, false, false)
    {
      this.re := re;
      routes, regexRoutes, pools, health := map[], [], map[], map[];
      healthGeneration, healthParent, healthRunning, healthWake := 0, None, false, false;
      cancelled, parents := {}, [None];
      cells := [];
      model := P.Shared(Table(map[], []), map[], [], map[], 0, {}, [None], None, false, false);
    }

    // ----- reload -----

    /** Every route of the table, map part first in whatever order the map is walked. */
    method FlattenLocked() returns (all: seq<Route>, ghost order: seq<string>)
      ensures Lists(all, Table(routes, regexRoutes))
      ensures Enumerates(order, routes.Keys) && all == Flatten(Table(routes, regexRoutes), order)
    {
      all := [];
      var walk := Walk(routes.Keys);
      order := walk;
      for i := 0 to |walk|
        invariant all == ConcatIn(routes, walk[..i])
        invariant forall r :: r in all <==> exists h :: h in walk[..i] && r in routes[h]
      {
        assert walk[..i + 1][..i] == walk[..i];
        all := all + routes[walk[i]];
      }
      assert walk[..|walk|] == walk;
      ghost var exact := all;
      for i := 0 to |regexRoutes|
        invariant all == exact + ConcatGroups(regexRoutes[..i])
        invariant forall r :: r in all <==>
                  (exists h :: h in routes && r in routes[h]) || (exists g :: g in regexRoutes[..i] && r in g.routes)
      {
        assert regexRoutes[..i + 1][..i] == regexRoutes[..i];
        all := all + regexRoutes[i].routes;
        assert regexRoutes[..i + 1] == regexRoutes[..i] + [regexRoutes[i]];
      }
      assert regexRoutes[..|regexRoutes|] == regexRoutes;
    }

    /** One fresh cell per checked key; a later route with the same key takes the key over. */
    static method FreshCells(all: seq<Route>, ghost others: seq<HealthCell>, ghost shown: seq<P.Cell>)
      returns (health: map<string, HealthCell>, ghost made: seq<HealthCell>, ghost ids: map<string, nat>)
      requires Mirrors(others, shown)
      ensures Mirrors(others, shown)
      ensures CellsOf(made, ids, all) && NoDuplicates(made) && KeysAgree(made, health, ids)
      ensures forall i :: 0 <= i < |others| ==> others[i] !in made
      ensures forall c :: c in made ==> fresh(c)
    {
      health, made, ids := map[], [], map[];
      for i := 0 to |all|
        invariant Mirrors(others, shown)
        invariant forall c :: c in made ==> fresh(c)
        invariant CellsOf(made, ids, all[..i]) && NoDuplicates(made) && KeysAgree(made, health, ids)
        invariant forall i :: 0 <= i < |others| ==> others[i] !in made
      {
        var r := all[i];
        assert all[..i + 1] == all[..i] + [r];
        if Checked(r) {
          var cell := new HealthCell(r);
          health := health[HealthKey(r) := cell];
          ids := ids[HealthKey(r) := |made|];
          made := made + [cell];
        }
      }
      assert all[..|all|] == all;
    }

    /** Enter the next generation with these cells: cancel the old context and derive a new one. */
    method NextGeneration(health: map<string, HealthCell>, ghost made: seq<HealthCell>, ghost ids: map<string, nat>)
      requires Valid()
      requires KeysAgree(made, health, ids) && NoDuplicates(made) && KeyedByRoute(health)
      requires forall i :: 0 <= i < |cells| ==> cells[i] !in made
      modifies this
      ensures Valid() && model == AfterReset(old(model), old(Values(made)), ids)
    {
      ghost var values := Values(made);
      CellsJoin(cells, made, health, ids);
      MirrorsJoin(cells, model.cells, made, values);
      this.health := health;
      cancelled := cancelled + {healthGeneration};
      parents := parents + [healthParent];
      healthGeneration := healthGeneration + 1;
      healthWake := true;
      model := AfterReset(model, values, ids);
      cells := cells + made;
    }

    /** resetHealthLocked: a fresh cell per checked key under the next generation. */
    method ResetHealthLocked()
      requires Valid()
      modifies this
      ensures Valid() && P.Reset(old(model), model)
    {
      var all, order := FlattenLocked();
      var health, made, ids := FreshCells(all, cells, model.cells);
      AfterResetIsReset(model, all, made, ids);
      NextGeneration(health, made, ids);
    }

    /** File one regexp route under its pattern; a pattern that does not compile is passed over. */
    method FilePattern(route: Route, groups: seq<RegexGroup>, index: map<string, nat>, ghost filed: seq<Route>)
      returns (groups': seq<RegexGroup>, index': map<string, nat>)
      requires route.isRegexp && Grouped(re, filed, groups) && Indexed(groups, index)
      ensures Grouped(re, filed + [route], groups') && Indexed(groups', index')
    {
      hide Grouped;
      groups', index' := groups, index;
      if route.hostname !in index && !re.compiles(route.hostname) {
        GroupedSkip(re, filed, route, groups);
        return;
      }
      if route.hostname !in index {
        GroupedNew(re, filed, route, groups);
        groups' := groups + [RegexGroup(route.hostname, [])];
        index' := index[route.hostname := |groups|];
      } else {
        GroupedKnown(re, filed, route, groups, index[route.hostname]);
      }
      var at := index'[route.hostname];
      groups' := groups'[at := groups'[at].(routes := groups'[at].routes + [route])];
      assert [] + [route] == [route];
      assert at < |groups| || groups' == groups + [RegexGroup(route.hostname, [route])];
    }

    /** File each route under its host or its pattern; routes with an invalid pattern are dropped. */
    method FileRoutes(list: seq<Route>) returns (next: map<string, seq<Route>>, groups: seq<RegexGroup>)
      ensures next.Keys == ExactHosts(list) && forall h :: h in next ==> next[h] == Filter(list, OnHost(h))
      ensures Grouped(re, list, groups)
    {
      hide Filter, OnHost;
      next, groups := map[], [];
      var index: map<string, nat> := map[];
      for i := 0 to |list|
        invariant next.Keys == ExactHosts(list[..i])
        invariant forall h :: h in next ==> next[h] == Filter(list[..i], OnHost(h))
        invariant Grouped(re, list[..i], groups) && Indexed(groups, index)
      {
        hide Grouped, Indexed, ExactHosts;
        var route := list[i];
        assert list[..i + 1] == list[..i] + [route];
        if route.isRegexp {
          FilterSkipHosts(list[..i], route, next);
          groups, index := FilePattern(route, groups, index, list[..i]);
        } else {
          var h := route.hostname;
          GroupedSkip(re, list[..i], route, groups);
          FilterSnocHosts(list[..i], route, next);
          next := next[h := (if h in next then next[h] else []) + [route]];
        }
      }
      assert list[..|list|] == list;
    }

    /** Sort each list by path length, longest first, so that exact prefixes win. */
    static method SortAll(next: map<string, seq<Route>>, groups: seq<RegexGroup>)
      returns (sorted: map<string, seq<Route>>, sortedGroups: seq<RegexGroup>)
      ensures sorted.Keys == next.Keys && forall h :: h in sorted ==> sorted[h] == ByPathDesc(next[h])
      ensures |sortedGroups| == |groups|
      ensures forall j :: 0 <= j < |groups| ==>
                sortedGroups[j] == RegexGroup(groups[j].pattern, ByPathDesc(groups[j].routes))
    {
      hide ByPathDesc;
      sorted, sortedGroups := map[], [];
      var order := Walk(next.Keys);
      for i := 0 to |order|
        invariant forall h :: h in sorted <==> h in order[..i]
        invariant forall h :: h in sorted ==> sorted[h] == ByPathDesc(next[h])
      {
        sorted := sorted[order[i] := ByPathDesc(next[order[i]])];
      }
      for i := 0 to |groups|
        invariant |sortedGroups| == i
        invariant forall j :: 0 <= j < i ==>
                    sortedGroups[j] == RegexGroup(groups[j].pattern, ByPathDesc(groups[j].routes))
      {
        sortedGroups := sortedGroups + [RegexGroup(groups[i].pattern, ByPathDesc(groups[i].routes))];
      }
    }

    /** Replace the whole table. Earlier probe results, counters and cells do not survive it. */
    method Update(list: seq<Route>)
      requires Valid()
      modifies this
      ensures Valid() && P.Update(re, list, old(model), model)
      ensures forall k :: k in model.health <==> exists r :: r in list && CC.Owns(re, r) && HealthKey(r) == k
    {
      var next, groups := FileRoutes(list);
      var sorted, sortedGroups := SortAll(next, groups);
      SortedIsTable(re, list, next, groups, sorted, sortedGroups);
      var counters := ZeroCounters(list);
      Install(sorted, sortedGroups, counters);
      ResetHealthLocked();
      CC.CellsExactly(re, list, old(model), model);
    }

    static method ZeroCounters(list: seq<Route>) returns (counters: map<string, nat>)
      ensures counters == P.FreshPools(list)
    {
      counters := map[];
      for i := 0 to |list|
        invariant counters == P.FreshPools(list[..i])
      {
        assert list[..i + 1] == list[..i] + [list[i]];
        if list[i].backendPool != "" {
          counters := counters[PoolKey(list[i]) := 0];
        }
      }
      assert list[..|list|] == list;
    }

    method Install(exact: map<string, seq<Route>>, groups: seq<RegexGroup>, counters: map<string, nat>)
      requires Valid()
      modifies this
      ensures Valid() && model == old(model).(table := Table(exact, groups), pools := counters)
    {
      routes, regexRoutes, pools := exact, groups, counters;
      model := model.(table := Table(exact, groups), pools := counters);
    }

    // ----- the sections of the health owner and of the probes -----

    /** The first section of RunHealth; a second owner is turned away without a trace. */
    method StartHealth(owner: nat) returns (started: bool)
      requires Valid()
      modifies this
      ensures Valid() && started == !old(model).running
      ensures if started then P.Start(owner, old(model), model) else model == old(model)
    {
      if healthRunning { return false; }
      healthRunning, healthParent := true, Some(owner);
      model := model.(running := true, parent := Some(owner));
      ResetHealthLocked();
      return true;
    }

    /** Write one cell in place; every other cell keeps its value. */
    static method WriteCell(cell: HealthCell, healthy: bool, next: nat, checkedAt: nat,
                            ghost all: seq<HealthCell>, ghost values: seq<P.Cell>, ghost id: nat)
      requires NoDuplicates(all) && Mirrors(all, values) && id < |all| && all[id] == cell
      modifies cell
      ensures Mirrors(all, values[id := P.Cell(cell.route, healthy, next, checkedAt)])
    {
      cell.healthy, cell.next, cell.checkedAt := healthy, next, checkedAt;
    }

    static method MarkOne(cell: HealthCell, ghost all: seq<HealthCell>, ghost values: seq<P.Cell>,
                          ghost done: set<nat>, ghost id: nat)
      requires NoDuplicates(all) && id < |all| && all[id] == cell && Mirrors(all, P.Unhealthy(values, done))
      modifies cell
      ensures Mirrors(all, P.Unhealthy(values, done + {id}))
    {
      ghost var now := P.Unhealthy(values, done);
      assert now[id] == cell.Value();
      WriteCell(cell, false, cell.next, cell.checkedAt, all, now, id);
      UnhealthyStep(values, done, id);
    }

    static method MarkUnhealthy(health: map<string, HealthCell>, ghost ids: map<string, nat>,
                                ghost all: seq<HealthCell>, ghost values: seq<P.Cell>)
      requires KeysAgree(all, health, ids) && NoDuplicates(all) && Mirrors(all, values)
      modifies all
      ensures Mirrors(all, P.Unhealthy(values, ids.Values))
    {
      var order := Walk(health.Keys);
      ghost var done: set<nat> := {};
      for i := 0 to |order|
        invariant done <= ids.Values && forall k :: k in order[..i] ==> ids[k] in done
        invariant Mirrors(all, P.Unhealthy(values, done))
      {
        assert order[..i + 1] == order[..i] + [order[i]];
        ghost var id := ids[order[i]];
        MarkOne(health[order[i]], all, values, done, id);
        done := done + {id};
      }
      assert order[..|order|] == order;
      assert done == ids.Values;
    }

    /** The deferred section of RunHealth: cancel the current context and mark every current cell unhealthy. */
    method StopHealth()
      requires Valid()
      modifies this, cells
      ensures Valid() && model == P.Stop(old(model)) && cells == old(cells)
    {
      MarkUnhealthy(health, model.health, cells, model.cells);
      cancelled := cancelled + {healthGeneration};
      healthRunning := false;
      model := P.Stop(model);
    }

    /** The keys of the cells that are due, each looked at at some moment between the two clock readings. */
    method DueKeys(start: nat, end: nat) returns (due: seq<string>)
      requires Valid() && start <= end
      ensures NoDuplicates(due)
      ensures forall k :: k in due ==> k in health && health[k].next <= end
      ensures forall k :: k in health && health[k].next <= start ==> k in due
    {
      due := [];
      var order := Walk(health.Keys);
      for i := 0 to |order|
        invariant NoDuplicates(due)
        invariant forall k :: k in due ==> k in order[..i] && k in health && health[k].next <= end
        invariant forall m :: 0 <= m < i && health[order[m]].next <= start ==> order[m] in due
      {
        var now: nat :| start <= now <= end;
        assert order[..i + 1] == order[..i] + [order[i]];
        assert order[i] !in order[..i];
        if !(now < health[order[i]].next) {
          due := due + [order[i]];
        }
      }
    }

    method CellsFor(keys: seq<string>) returns (jobs: seq<HealthCell>)
      requires forall k :: k in keys ==> k in health
      ensures |jobs| == |keys| && forall j :: 0 <= j < |keys| ==> keys[j] in health && jobs[j] == health[keys[j]]
    {
      jobs := [];
      for i := 0 to |keys|
        invariant |jobs| == i
        invariant forall j :: 0 <= j < i ==> keys[j] in health && jobs[j] == health[keys[j]]
      {
        assert keys[i] in keys;
        jobs := jobs + [health[keys[i]]];
      }
    }

    /** The section that finds the due cells, and the sort by key that fixes the order of the sweep. */
    method CollectDue(start: nat, end: nat) returns (jobs: seq<HealthCell>)
      requires Valid() && start <= end
      ensures NoDuplicates(jobs)
      ensures forall j :: 0 <= j < |jobs| ==> jobs[j] in health.Values && jobs[j].next <= end
      ensures forall k :: k in health && health[k].next <= start ==> health[k] in jobs
      ensures forall i, j :: 0 <= i < j < |jobs| ==> StringLe(HealthKey(jobs[i].route), HealthKey(jobs[j].route))
    {
      hide SortBy, SortedBy, StringLe, HealthKey;
      var due := DueKeys(start, end);
      var sorted := SortBy(due, StringLe);
      SortedKeys(due);
      jobs := CellsFor(sorted);
      forall j | 0 <= j < |jobs|
        ensures jobs[j] in health.Values && jobs[j].next <= end && HealthKey(jobs[j].route) == sorted[j]
      {
        assert sorted[j] in sorted;
      }
      forall i, j | 0 <= i < j < |jobs| ensures StringLe(HealthKey(jobs[i].route), HealthKey(jobs[j].route)) {
        SortedAt(sorted, i, j);
      }
      forall k | k in health && health[k].next <= start ensures health[k] in jobs {
        assert k in sorted;
        var j :| 0 <= j < |sorted| && sorted[j] == k;
        assert jobs[j] == health[k];
      }
    }

    /** What the section found are the jobs of the protocol's Collect step between these clock readings. */
    lemma CollectedJobs(jobs: seq<HealthCell>, start: nat, end: nat, s: P.State, t: P.State) returns (ids: seq<nat>)
      requires Valid() && start <= end && s.sh == model && s.clock == start && t.clock == end
      requires NoDuplicates(jobs)
      requires forall j :: 0 <= j < |jobs| ==> jobs[j] in health.Values && jobs[j].next <= end
      requires forall k :: k in health && health[k].next <= start ==> health[k] in jobs
      ensures |ids| == |jobs| && forall j :: 0 <= j < |ids| ==> ids[j] < |cells| && cells[ids[j]] == jobs[j]
      ensures P.DueJobs(s, t, ids)
    {
      var known := model.health;
      forall j | 0 <= j < |jobs|
        ensures var k := HealthKey(jobs[j].route); k in known && known[k] < |cells| && cells[known[k]] == jobs[j]
      {
        var k :| k in health && health[k] == jobs[j];
      }
      ids := seq(|jobs|, j requires 0 <= j < |jobs| && HealthKey(jobs[j].route) in known =>
                           known[HealthKey(jobs[j].route)]);
      assert forall j :: 0 <= j < |ids| ==> ids[j] < |cells| && cells[ids[j]] == jobs[j];
      forall j | 0 <= j < |ids|
        ensures ids[j] in model.health.Values && ids[j] < |model.cells| && model.cells[ids[j]].next <= end
      {
        assert model.cells[ids[j]] == cells[ids[j]].Value();
      }
      forall id | id in known.Values && id < |model.cells| && model.cells[id].next <= start ensures id in ids {
        var k :| k in known && known[k] == id;
        assert health[k] == cells[id] && model.cells[id] == cells[id].Value();
        var j :| 0 <= j < |jobs| && jobs[j] == health[k];
        assert ids[j] == id;
      }
    }

    /** Err() != nil of a reload context, given the owner contexts that are done. */
    method Err(generation: nat, dead: set<nat>) returns (done: bool)
      requires Valid()
      ensures done == P.Done(model, dead, generation)
    {
      done := generation in cancelled ||
        (generation < |parents| && parents[generation].Some? && parents[generation].value in dead);
    }

    /** The three guards on a probe result. */
    method Guards(generation: nat, cell: HealthCell, dead: set<nat>, ghost id: nat) returns (pass: bool)
      requires Valid() && id < |cells| && cells[id] == cell
      ensures pass == P.Admits(model, dead, generation, id)
    {
      var done := Err(generation, dead);
      var key := HealthKey(cell.route);
      pass := !done && healthGeneration == generation && key in health && health[key] == cell;
      assert model.cells[id] == cell.Value();
    }

    ghost method SetModelCell(id: nat, value: P.Cell)
      requires FieldsOk() && KeysAgree(cells, health, model.health) && KeyedByRoute(health) && NoDuplicates(cells)
      requires id < |model.cells| && Mirrors(cells, model.cells[id := value])
      modifies `model
      ensures Valid() && model == old(model).(cells := old(model).cells[id := value])
    {
      model := model.(cells := model.cells[id := value]);
    }

    method Record(cell: HealthCell, healthy: bool, now: nat, ghost id: nat)
      requires Valid() && id < |cells| && cells[id] == cell
      modifies `model, cell
      ensures Valid() && cells == old(cells)
      ensures model ==
              old(model).(cells :=
                old(model).cells[id := P.Cell(cell.route, healthy, now + P.Interval(cell.route), now)])
    {
      WriteCell(cell, healthy, now + P.Interval(cell.route), now, cells, model.cells, id);
      SetModelCell(id, P.Cell(cell.route, healthy, now + P.Interval(cell.route), now));
    }

    /** The last section of a probe: let the result through, or leave everything as it is. */
    method Publish(generation: nat, cell: HealthCell, healthy: bool, now: nat, dead: set<nat>, ghost id: nat)
      requires Valid() && id < |cells| && cells[id] == cell
      modifies `model, cell
      ensures Valid() && cells == old(cells)
      ensures model == P.Publish(old(model), dead, generation, id, healthy, now)
    {
      var pass := Guards(generation, cell, dead, id);
      if pass {
        assert model.cells[id].route == cell.route;
        Record(cell, healthy, now, id);
      }
    }

    // ----- requests -----

    /** The first route of a sorted list whose path matches, with the rewritten path. */
    static method MatchRoutes(list: seq<Route>, path: string) returns (result: Option<ResolveResult>)
      ensures result == match FirstMatch(list, path)
                        case None => None
                        case Some(r) => Some(ResolveResult(false, r.target, Rewrite(r, path), r))
    {
      for i := 0 to |list|
        invariant FirstMatch(list, path) == FirstMatch(list[i..], path)
      {
        var route := list[i];
        if PathMatches(route, path) {
          var rewritten := path;
          if route.stripPath {
            rewritten := TrimPrefix(path, route.path);
            if rewritten == "" { rewritten := "/"; }
          }
          return Some(ResolveResult(false, route.target, rewritten, route));
        }
      }
      return None;
    }

    /** The available members of the matched route's class, in list order. */
    method Members(list: seq<Route>, base: Route) returns (members: seq<Route>)
      requires Valid()
      ensures members == Filter(list, MemberOf(base, P.Ready(model)))
    {
      members := [];
      for i := 0 to |list|
        invariant members == Filter(list[..i], MemberOf(base, P.Ready(model)))
      {
        var route := list[i];
        assert list[..i + 1][..i] == list[..i];
        if SameClass(route, base) {
          if route.health.Some? && (HealthKey(route) !in health || !health[HealthKey(route)].healthy) {
            continue;
          }
          members := members + [route];
        }
      }
      assert list[..|list|] == list;
    }

    /** Take the pool's next ticket and the member it names, or answer "unavailable" without a ticket. */
    method Take(found: ResolveResult, members: seq<Route>) returns (result: ResolveResult)
      requires Valid()
      modifies this
      ensures Valid() && cells == old(cells) && routes == old(routes) && regexRoutes == old(regexRoutes)
      ensures var before, key := old(model).pools, PoolKey(found.route);
              if key !in before || members == [] then
                result == found.(unavailable := true, target := "") && model == old(model)
              else
                var selected := members[before[key] % |members|];
                && result == found.(target := selected.target, route := selected)
                && model == old(model).(pools := before[key := Bump(before[key])])
    {
      var key := PoolKey(found.route);
      if key !in pools || members == [] { return found.(unavailable := true, target := ""); }
      var ticket := pools[key];
      pools := pools[key := Bump(ticket)];
      model := model.(pools := pools);
      var selected := members[ticket % |members|];
      return found.(target := selected.target, route := selected);
    }

    /** Select exactly one backend. A failed pool answers "unavailable"; it is never skipped. */
    method MatchPool(list: seq<Route>, path: string) returns (result: Option<ResolveResult>)
      requires Valid()
      modifies this
      ensures Valid() && cells == old(cells) && model == old(model).(pools := model.pools)
      ensures routes == old(routes) && regexRoutes == old(regexRoutes)
      ensures match FirstMatch(list, path)
              case None => result == None && model == old(model)
              case Some(base) =>
                (result, model.pools) == Select(list, base, P.Ready(old(model)), old(model).pools, path)
      ensures var m := FirstMatch(list, path);
              m.Some? && RA.Fit(old(model).pools) ==>
                result.Some? &&
                RA.Served(list, m.value, P.Ready(old(model)), old(model).pools, path, result.value, model.pools)
    {
      hide RA.Fit, RA.Served;
      ghost var m := FirstMatch(list, path);
      if m.Some? && RA.Fit(model.pools) { RA.SelectServes(list, m.value, P.Ready(model), model.pools, path); }
      result := MatchRoutes(list, path);
      if result.None? || result.value.route.backendPool == "" { return; }
      var members := Members(list, result.value.route);
      var taken := Take(result.value, members);
      return Some(taken);
    }

    /** Answer one request: exact host first, then patterns in the order they first appeared. */
    method Resolve(host: string, path: string) returns (result: Option<ResolveResult>)
      requires Valid()
      modifies this
      ensures Valid() && cells == old(cells) && model == old(model).(pools := model.pools)
      ensures (result, model.pools) ==
              RouteTable.Resolve(re, old(model).table, P.Ready(old(model)), old(model).pools, host, path)
      ensures var m := Match(re, old(model).table, host, path);
              m.Some? && RA.Fit(old(model).pools) ==>
                result.Some? &&
                RA.Served(m.value.0, m.value.1, P.Ready(old(model)), old(model).pools, path, result.value, model.pools)
    {
      hide RA.Fit, RA.Served;
      if RA.Fit(model.pools) { RA.ServedExactly(re, model.table, P.Ready(model), model.pools, host, path); }
      var exact := if host in routes then routes[host] else [];
      result := MatchPool(exact, path);
      if result.Some? { return; }
      for i := 0 to |regexRoutes|
        invariant Valid() && model == old(model) && cells == old(cells) && result.None?
        invariant FirstMatch(ExactRoutes(old(model).table, host), path).None?
        invariant FirstGroupMatch(re, old(model).table.groups, host, path) ==
                  FirstGroupMatch(re, regexRoutes[i..], host, path)
      {
        if re.matches(regexRoutes[i].pattern, host) {
          result := MatchPool(regexRoutes[i].routes, path);
          if result.Some? { return; }
        }
      }
      return None;
    }

    /** Whether some route is configured for the host. */
    method HasHost(host: string) returns (found: bool)
      requires Valid()
      ensures found == RouteTable.HasHost(re, model.table, host)
    {
      if host in routes && |routes[host]| > 0 { return true; }
      for i := 0 to |regexRoutes|
        invariant forall j :: 0 <= j < i ==> !re.matches(regexRoutes[j].pattern, host)
      {
        if re.matches(regexRoutes[i].pattern, host) {
          assert regexRoutes[i] in regexRoutes;
          return true;
        }
      }
      return false;
    }

    method RowFor(cell: HealthCell, now: nat, origin: string -> string) returns (row: BackendHealth)
      ensures row == Row(healthRunning, cell.Value(), now, origin)
    {
      row := BackendHealth(cell.route.hostname, cell.route.backendPool, cell.route.path, origin(cell.route.target),
                           P.UnknownState, None, false);
      if cell.checkedAt != 0 {
        var age := if now < cell.checkedAt then 0 else (now - cell.checkedAt) / MILLISECOND;
        if age > DAY_MS {
          age := DAY_MS;
          row := row.(ageCapped := true);
        }
        row := row.(lastCheckAgeMs := Some(age));
        if healthRunning {
          row := row.(state := if cell.healthy then P.ReadyState else P.DownState);
        }
      }
    }

    /** The row of one current cell, read at some moment between the two clock readings. */
    method RowNow(k: string, start: nat, end: nat, origin: string -> string) returns (row: BackendHealth)
      requires Valid() && start <= end && k in health
      ensures RowOf(row, model, k, start, end, origin)
    {
      var now: nat :| start <= now <= end;
      var cell := health[k];
      row := RowFor(cell, now, origin);
      assert model.cells[model.health[k]] == cell.Value();
      assert RowWithin(row, model.running, cell.Value(), start, end, origin);
    }

    method ReadRows(start: nat, end: nat, origin: string -> string) returns (rows: map<string, BackendHealth>)
      requires Valid() && start <= end
      ensures rows.Keys == model.health.Keys
      ensures forall k :: k in rows ==> RowOf(rows[k], model, k, start, end, origin)
    {
      hide RowOf;
      rows := map[];
      var walk := Walk(health.Keys);
      for i := 0 to |walk|
        invariant forall k :: k in rows <==> k in walk[..i]
        invariant forall k :: k in rows ==> RowOf(rows[k], model, k, start, end, origin)
      {
        assert walk[i] in walk;
        assert walk[..i + 1] == walk[..i] + [walk[i]];
        var row := RowNow(walk[i], start, end, origin);
        rows := rows[walk[i] := row];
      }
      assert walk[..|walk|] == walk;
    }

    /** The rows in the order of their joined fields. */
    static method SortRows(rows: map<string, BackendHealth>)
      returns (backends: seq<BackendHealth>, ghost order: seq<string>)
      ensures Enumerates(order, rows.Keys) && |backends| == |order|
      ensures forall i :: 0 <= i < |order| ==> order[i] in rows && backends[i] == rows[order[i]]
      ensures forall i, j :: 0 <= i < j < |backends| ==> StringLe(RowKey(backends[i]), RowKey(backends[j]))
    {
      hide StringLe, RowKey, SortBy;
      var walk := Walk(rows.Keys);
      var sorted := SortBy(walk, ByRow(rows));
      SortedRows(rows, walk);
      order, backends := sorted, [];
      for i := 0 to |sorted|
        invariant |backends| == i
        invariant forall j :: 0 <= j < i ==> sorted[j] in rows && backends[j] == rows[sorted[j]]
      {
        assert sorted[i] in sorted;
        backends := backends + [rows[sorted[i]]];
      }
      forall i, j | 0 <= i < j < |backends| ensures StringLe(RowKey(backends[i]), RowKey(backends[j])) {
        assert ByRow(rows)(sorted[i], sorted[j]);
      }
    }

    /**
     * One row per current cell, each read at some moment between the two clock readings, sorted by the joined fields.
     */
    method SnapshotHealth(start: nat, end: nat, origin: string -> string)
      returns (generation: nat, running: bool, backends: seq<BackendHealth>, ghost order: seq<string>)
      requires Valid() && start <= end
      ensures generation == model.generation && running == model.running
      ensures Enumerates(order, model.health.Keys) && |backends| == |order|
      ensures forall i :: 0 <= i < |order| ==> RowOf(backends[i], model, order[i], start, end, origin)
      ensures forall i, j :: 0 <= i < j < |backends| ==>
                var a, b := backends[i], backends[j];
                StringLe(a.hostname + a.pool + a.path + a.targetOrigin, b.hostname + b.pool + b.path + b.targetOrigin)
    {
      hide RowOf;
      generation, running := healthGeneration, healthRunning;
      var rows := ReadRows(start, end, origin);
      backends, order := SortRows(rows);
    }
  }

  /** The row shows the current cell of this key. */
  ghost predicate RowOf(row: BackendHealth, sh: P.Shared, k: string, start: nat, end: nat, origin: string -> string) {
    k in sh.health && sh.health[k] < |sh.cells| &&
    RowWithin(row, sh.running, sh.cells[sh.health[k]], start, end, origin)
  }

  /** What the rows are sorted by. */
  function RowKey(row: BackendHealth): string {
    row.hostname + row.pool + row.path + row.targetOrigin
  }

  function ByRow(rows: map<string, BackendHealth>): (string, string) -> bool {
    (j: string, k: string) =>
      StringLe(if j in rows then RowKey(rows[j]) else "", if k in rows then RowKey(rows[k]) else "")
  }

  lemma SortedRows(rows: map<string, BackendHealth>, walk: seq<string>)
    requires Enumerates(walk, rows.Keys)
    ensures var sorted := SortBy(walk, ByRow(rows)); SortedBy(sorted, ByRow(rows)) && Enumerates(sorted, rows.Keys)
  {
    var le := ByRow(rows);
    StringLeIsTotal();
    forall x, y ensures le(x, y) || le(y, x) {}
    forall x, y, z | le(x, y) && le(y, z) ensures le(x, z) {}
    SortByOrders(walk, le);
    SortByPermutes(walk, le);
    PermutedEnumerates(walk, SortBy(walk, le), rows.Keys);
  }

  lemma SortedAt(keys: seq<string>, i: nat, j: nat)
    requires SortedBy(keys, StringLe) && i < j < |keys|
    ensures StringLe(keys[i], keys[j])
  {
  }

  lemma SortedKeys(due: seq<string>)
    requires NoDuplicates(due)
    ensures var sorted := SortBy(due, StringLe);
            SortedBy(sorted, StringLe) && NoDuplicates(sorted) && forall k :: k in sorted <==> k in due
  {
    var keys := set k | k in due;
    StringLeIsTotal();
    SortByOrders(due, StringLe);
    SortByPermutes(due, StringLe);
    PermutedEnumerates(due, SortBy(due, StringLe), keys);
  }

  /** Sorting every host's and every pattern's routes gives the table. */
  lemma SortedIsTable(re: Regex, list: seq<Route>, next: map<string, seq<Route>>, groups: seq<RegexGroup>,
                      sorted: map<string, seq<Route>>, sortedGroups: seq<RegexGroup>)
    requires next.Keys == ExactHosts(list) && forall h :: h in next ==> next[h] == Filter(list, OnHost(h))
    requires Grouped(re, list, groups)
    requires sorted.Keys == next.Keys && forall h :: h in sorted ==> sorted[h] == ByPathDesc(next[h])
    requires |sortedGroups| == |groups|
    requires forall j :: 0 <= j < |groups| ==>
               sortedGroups[j] == RegexGroup(groups[j].pattern, ByPathDesc(groups[j].routes))
    ensures Table(sorted, sortedGroups) == BuildTable(re, list)
  {
    var t := BuildTable(re, list);
    assert sorted == t.exact;
    assert sortedGroups == t.groups;
  }

  /**
   * The groups, before sorting, hold each valid pattern once in order of appearance, with its routes in input order.
   */
  ghost predicate Grouped(re: Regex, list: seq<Route>, groups: seq<RegexGroup>) {
    var patterns := Patterns(re, list);
    && |groups| == |patterns|
    && forall j :: 0 <= j < |groups| ==> groups[j] == RegexGroup(patterns[j], Filter(list, OnPattern(patterns[j])))
  }

  /** The index holds the position of each group's pattern and nothing else. */
  ghost predicate Indexed(groups: seq<RegexGroup>, index: map<string, nat>) {
    && (forall p :: p in index ==> index[p] < |groups| && groups[index[p]].pattern == p)
    && forall j :: 0 <= j < |groups| ==> groups[j].pattern in index && index[groups[j].pattern] == j
  }

  lemma PatternsSnoc(re: Regex, list: seq<Route>, r: Route)
    ensures Patterns(re, list + [r]) ==
            var before := Patterns(re, list);
            if r.isRegexp && re.compiles(r.hostname) && r.hostname !in before then before + [r.hostname] else before
  {
    assert (list + [r])[..|list|] == list;
  }

  lemma GroupedSkip(re: Regex, list: seq<Route>, r: Route, groups: seq<RegexGroup>)
    requires Grouped(re, list, groups) && (!r.isRegexp || !re.compiles(r.hostname))
    ensures Grouped(re, list + [r], groups)
  {
    PatternsSnoc(re, list, r);
    var patterns := Patterns(re, list);
    forall j | 0 <= j < |groups|
      ensures Filter(list + [r], OnPattern(patterns[j])) == Filter(list, OnPattern(patterns[j]))
    {
      FilterSnoc(list, r, OnPattern(patterns[j]));
      PatternAppears(re, list, patterns[j]);
    }
  }

  lemma GroupedKnown(re: Regex, list: seq<Route>, r: Route, groups: seq<RegexGroup>, at: nat)
    requires Grouped(re, list, groups) && r.isRegexp && at < |groups| && groups[at].pattern == r.hostname
    ensures Grouped(re, list + [r], groups[at := groups[at].(routes := groups[at].routes + [r])])
  {
    PatternsSnoc(re, list, r);
    PatternsDistinct(re, list);
    var patterns := Patterns(re, list);
    assert patterns[at] in patterns;
    forall j | 0 <= j < |groups|
      ensures Filter(list + [r], OnPattern(patterns[j])) ==
              Filter(list, OnPattern(patterns[j])) + (if j == at then [r] else [])
    {
      FilterSnoc(list, r, OnPattern(patterns[j]));
    }
  }

  lemma GroupedNew(re: Regex, list: seq<Route>, r: Route, groups: seq<RegexGroup>)
    requires Grouped(re, list, groups) && r.isRegexp && re.compiles(r.hostname)
    requires forall j :: 0 <= j < |groups| ==> groups[j].pattern != r.hostname
    ensures Grouped(re, list + [r], groups + [RegexGroup(r.hostname, [r])])
  {
    PatternsSnoc(re, list, r);
    var patterns := Patterns(re, list);
    PatternAppears(re, list, r.hostname);
    FilterNothing(list, OnPattern(r.hostname));
    FilterSnoc(list, r, OnPattern(r.hostname));
    forall j | 0 <= j < |groups|
      ensures Filter(list + [r], OnPattern(patterns[j])) == Filter(list, OnPattern(patterns[j]))
    {
      FilterSnoc(list, r, OnPattern(patterns[j]));
    }
  }

  lemma FilterSkipHosts(list: seq<Route>, r: Route, next: map<string, seq<Route>>)
    requires r.isRegexp
    requires next.Keys == ExactHosts(list) && forall h :: h in next ==> next[h] == Filter(list, OnHost(h))
    ensures next.Keys == ExactHosts(list + [r]) && forall h :: h in next ==> next[h] == Filter(list + [r], OnHost(h))
  {
    forall h | h in next ensures next[h] == Filter(list + [r], OnHost(h)) {
      FilterSnoc(list, r, OnHost(h));
    }
  }

  lemma FilterSnocHosts(list: seq<Route>, r: Route, next: map<string, seq<Route>>)
    requires !r.isRegexp
    requires next.Keys == ExactHosts(list) && forall h :: h in next ==> next[h] == Filter(list, OnHost(h))
    ensures ExactHosts(list + [r]) == next.Keys + {r.hostname}
    ensures forall h :: h in next && h != r.hostname ==> next[h] == Filter(list + [r], OnHost(h))
    ensures Filter(list + [r], OnHost(r.hostname)) == (if r.hostname in next then next[r.hostname] else []) + [r]
  {
    forall h ensures Filter(list + [r], OnHost(h)) == Filter(list, OnHost(h)) + (if h == r.hostname then [r] else []) {
      FilterSnoc(list, r, OnHost(h));
    }
    if r.hostname !in next { FilterNothing(list, OnHost(r.hostname)); }
  }
}
