/**
 * Active health checking as a state machine. One step is one section executed under the route lock,
 * or one move of the health owner or of a probe worker between such sections. Probe outcomes, clock
 * ticks, reloads and cancellations are arbitrary.
 *
 * A reload context is named by the generation it was created for; generation 0 is the nil context.
 * The context given to RunHealth is named by an owner number. Time is in nanoseconds; 0 is the zero time.
 */
module HealthProtocol {
  import opened Domain
  import opened Sequences
  import opened RouteTable

  const SECOND: nat := 1_000_000_000
  const SLOTS: nat := 4

  // ----- what the router's lock protects -----

  datatype Cell = Cell(route: Route, healthy: bool, next: nat, checkedAt: nat)

  datatype Shared = Shared(
    table: Table,
    pools: map<string, nat>,
    cells: seq<Cell>,           // every cell ever created, by identity
    health: map<string, nat>,   // health key -> identity of the current cell
    generation: nat,            // healthGeneration, which also names healthContext
    cancelled: set<nat>,        // reload contexts whose own cancel function was called
    parents: seq<Option<nat>>,  // the owner context each reload context was derived from
    parent: Option<nat>,        // healthParent; None is the background context
    running: bool,
    wake: bool)

  /** Err() != nil of a reload context, given the owner contexts that are done. */
  predicate Done(s: Shared, dead: set<nat>, g: nat) {
    g in s.cancelled || (g < |s.parents| && s.parents[g].Some? && s.parents[g].value in dead)
  }

  function Interval(r: Route): nat {
    if r.health.Some? && r.health.value.intervalSeconds > 0 then r.health.value.intervalSeconds * SECOND else 0
  }

  function Timeout(r: Route): nat {
    if r.health.Some? && r.health.value.timeoutSeconds > 0 then r.health.value.timeoutSeconds * SECOND else 0
  }

  ghost predicate InTable(t: Table, r: Route) {
    (exists h :: h in t.exact && r in t.exact[h]) || (exists g :: g in t.groups && r in g.routes)
  }

  /** The keys of the cells that answer "healthy" to a selection. */
  function Ready(s: Shared): set<string> {
    set k | k in s.health && s.health[k] < |s.cells| && s.cells[s.health[k]].healthy
  }

  // ----- the locked sections -----

  /** Some route of the table owns a cell under this key. */
  ghost predicate KeyOwned(t: Table, k: string) {
    exists r :: InTable(t, r) && Checked(r) && HealthKey(r) == k
  }

  ghost predicate ResetCells(s: Shared, t: Shared) {
    && |s.cells| <= |t.cells| && t.cells[..|s.cells|] == s.cells
    && (forall i :: |s.cells| <= i < |t.cells| ==>
          Fresh(t.cells[i]) && Checked(t.cells[i].route) && InTable(s.table, t.cells[i].route))
  }

  ghost predicate ResetKeys(s: Shared, t: Shared) {
    && (forall k :: k in t.health <==> KeyOwned(s.table, k))
    && (forall k :: k in t.health ==>
          |s.cells| <= t.health[k] < |t.cells| && HealthKey(t.cells[t.health[k]].route) == k)
  }

  /** resetHealthLocked: the next generation, a fresh context and a fresh cell for each checked key. */
  ghost predicate Reset(s: Shared, t: Shared) {
    && t.table == s.table && t.pools == s.pools && t.parent == s.parent && t.running == s.running
    && t.generation == s.generation + 1
    && t.cancelled == s.cancelled + {s.generation}
    && t.parents == s.parents + [s.parent]
    && t.wake
    && ResetCells(s, t) && ResetKeys(s, t)
  }

  /** A cell as resetHealthLocked creates it. */
  predicate Fresh(c: Cell) {
    !c.healthy && c.next == 0 && c.checkedAt == 0
  }

  function FreshPools(routes: seq<Route>): map<string, nat> {
    var keys := set r | r in routes && r.backendPool != "" :: PoolKey(r);
    map k | k in keys :: 0
  }

  /** Update: the new table and zeroed counters, then the reset. */
  ghost predicate Update(re: Regex, routes: seq<Route>, s: Shared, t: Shared) {
    Reset(s.(table := BuildTable(re, routes), pools := FreshPools(routes)), t)
  }

  /** The first section of RunHealth, when no owner runs. */
  ghost predicate Start(owner: nat, s: Shared, t: Shared) {
    !s.running && Reset(s.(running := true, parent := Some(owner)), t)
  }

  function Unhealthy(cells: seq<Cell>, ids: set<nat>): seq<Cell> {
    seq(|cells|, i requires 0 <= i < |cells| => if i in ids then cells[i].(healthy := false) else cells[i])
  }

  /** The deferred section of RunHealth. */
  function Stop(s: Shared): Shared {
    s.(cells := Unhealthy(s.cells, s.health.Values), cancelled := s.cancelled + {s.generation}, running := false)
  }

  /** The three guards of a probe's last section. */
  predicate Admits(s: Shared, dead: set<nat>, g: nat, id: nat) {
    && !Done(s, dead, g)
    && s.generation == g
    && id < |s.cells| && HealthKey(s.cells[id].route) in s.health && s.health[HealthKey(s.cells[id].route)] == id
  }

  /** The last section of a probe. */
  function Publish(s: Shared, dead: set<nat>, g: nat, id: nat, healthy: bool, now: nat): Shared {
    if !Admits(s, dead, g, id) then s
    else s.(cells := s.cells[id := s.cells[id].(
              healthy := healthy, checkedAt := now, next := now + Interval(s.cells[id].route))])
  }

  // ----- owner and workers -----

  datatype OwnerPc =
    | NoOwner
    | Waiting(owner: nat)
    | Collecting(owner: nat)
    | Sweeping(owner: nat, gen: nat, jobs: seq<nat>)
    | Checking(owner: nat, gen: nat, jobs: seq<nat>)
    | Joining(owner: nat, gen: nat)
    | Exiting(owner: nat)

  datatype Phase =
    | Launched
    | Probing(started: nat)
    | Answered(started: nat, answered: nat, ok: bool, healthy: bool)
    | Finished
    | Released

  datatype Worker = Worker(cell: nat, gen: nat, phase: Phase)

  /** History: one record for each probe result that was let through. */
  datatype Admission = Admission(
    worker: nat, cell: nat, gen: nat, started: nat, answered: nat, admitted: nat, ok: bool, healthy: bool)

  datatype State = State(
    sh: Shared,
    dead: set<nat>,
    clock: nat,
    pc: OwnerPc,
    workers: map<nat, Worker>,
    nextWorker: nat,
    birth: seq<nat>,            // history: the generation each cell was created in
    log: seq<Admission>)        // history

  /** The workers that hold a slot; a probe is in flight only in such a worker. */
  function Holding(s: State): set<nat> {
    set w | w in s.workers && !s.workers[w].phase.Released?
  }

  function InFlight(s: State): set<nat> {
    set w | w in s.workers && s.workers[w].phase.Probing?
  }

  ghost predicate Init(s: State) {
    && s.sh == Shared(Table(map[], []), map[], [], map[], 0, {}, [None], None, false, false)
    && s.clock > 0 && s.pc == NoOwner && s.workers == map[] && s.birth == [] && s.log == []
  }

  // ----- steps -----

  datatype Action =
    | Tick
    | Elsewhere
    | CancelOwner(owner: nat)
    | Reload(re: Regex, routes: seq<Route>)
    | Select(re: Regex, host: string, path: string)
    | StartOwner(owner: nat)
    | Wake
    | Ticker
    | Collect
    | Launch
    | SeeDone
    | Check
    | EndSweep
    | Join
    | Leave
    | StopOwner
    | BeginProbe(w: nat)
    | SkipProbe(w: nat)
    | Answer(w: nat, ok: bool)
    | Admit(w: nat)
    | Release(w: nat)
    | Forget(w: nat)

  /** The generation each cell was created in, kept up as cells appear. */
  ghost predicate BirthsExtend(s: State, t: State) {
    && |t.birth| == |t.sh.cells| && |s.birth| <= |t.birth| && t.birth[..|s.birth|] == s.birth
    && forall i :: |s.birth| <= i < |t.birth| ==> t.birth[i] == t.sh.generation
  }

  /** Due cells, each once; the clock moves on while the owner looks, so late ones may or may not be seen. */
  ghost predicate DueJobs(s: State, t: State, jobs: seq<nat>) {
    && NoDuplicates(jobs) && s.clock <= t.clock
    && (forall i :: 0 <= i < |jobs| ==>
          jobs[i] in s.sh.health.Values && jobs[i] < |s.sh.cells| && s.sh.cells[jobs[i]].next <= t.clock)
    && (forall id :: id in s.sh.health.Values && id < |s.sh.cells| && s.sh.cells[id].next <= s.clock ==> id in jobs)
  }

  ghost predicate OwnerStep(s: State, a: Action, t: State) {
    match a
    case StartOwner(o) =>
      s.pc.NoOwner? && Start(o, s.sh, t.sh) && BirthsExtend(s, t) &&
      t == s.(sh := t.sh, birth := t.birth, pc := Waiting(o))
    case Wake =>
      s.pc.Waiting? && s.sh.wake && t == s.(sh := s.sh.(wake := false), pc := Collecting(s.pc.owner))
    case Ticker =>
      s.pc.Waiting? && t == s.(pc := Collecting(s.pc.owner))
    case Collect =>
      s.pc.Collecting? && t.pc.Sweeping? && DueJobs(s, t, t.pc.jobs) &&
      t == s.(clock := t.clock, pc := Sweeping(s.pc.owner, s.sh.generation, t.pc.jobs))
    case Launch =>
      s.pc.Sweeping? && s.pc.jobs != [] && |Holding(s)| < SLOTS &&
      t == s.(workers := s.workers[s.nextWorker := Worker(s.pc.jobs[0], s.pc.gen, Launched)],
              nextWorker := s.nextWorker + 1, pc := Checking(s.pc.owner, s.pc.gen, s.pc.jobs[1..]))
    case SeeDone =>
      s.pc.Sweeping? && s.pc.jobs != [] && Done(s.sh, s.dead, s.pc.gen) &&
      t == s.(pc := Checking(s.pc.owner, s.pc.gen, s.pc.jobs[1..]))
    case Check =>
      s.pc.Checking? &&
      t == s.(pc := if Done(s.sh, s.dead, s.pc.gen) then Joining(s.pc.owner, s.pc.gen)
                    else Sweeping(s.pc.owner, s.pc.gen, s.pc.jobs))
    case EndSweep =>
      s.pc.Sweeping? && s.pc.jobs == [] && t == s.(pc := Joining(s.pc.owner, s.pc.gen))
    case Join =>
      s.pc.Joining? && s.workers == map[] && t == s.(pc := Waiting(s.pc.owner))
    case Leave =>
      s.pc.Waiting? && s.pc.owner in s.dead && t == s.(pc := Exiting(s.pc.owner))
    case StopOwner =>
      s.pc.Exiting? && t == s.(sh := Stop(s.sh), pc := NoOwner)
    case _ => false
  }

  ghost predicate WorkerStep(s: State, a: Action, t: State) {
    match a
    case BeginProbe(w) =>
      w in s.workers && s.workers[w].phase.Launched? && !Done(s.sh, s.dead, s.workers[w].gen) &&
      t == s.(workers := s.workers[w := s.workers[w].(phase := Probing(s.clock))])
    case SkipProbe(w) =>
      w in s.workers && s.workers[w].phase.Launched? && Done(s.sh, s.dead, s.workers[w].gen) &&
      t == s.(workers := s.workers[w := s.workers[w].(phase := Finished)])
    case Answer(w, ok) =>
      // Healthy: the transport reported 2xx and the probe's own context, deadline included, is still live.
      w in s.workers && s.workers[w].phase.Probing? && s.workers[w].cell < |s.sh.cells| &&
      var start := s.workers[w].phase.started;
      var deadline := start + Timeout(s.sh.cells[s.workers[w].cell].route);
      var live := s.clock < deadline && !Done(s.sh, s.dead, s.workers[w].gen);
      t == s.(workers := s.workers[w := s.workers[w].(phase := Answered(start, s.clock, ok, ok && live))])
    case Admit(w) =>
      w in s.workers && s.workers[w].phase.Answered? &&
      var k, p := s.workers[w], s.workers[w].phase;
      t == s.(sh := Publish(s.sh, s.dead, k.gen, k.cell, p.healthy, s.clock),
              workers := s.workers[w := k.(phase := Finished)],
              log := if Admits(s.sh, s.dead, k.gen, k.cell)
                     then s.log + [Admission(w, k.cell, k.gen, p.started, p.answered, s.clock, p.ok, p.healthy)]
                     else s.log)
    case Release(w) =>
      w in s.workers && s.workers[w].phase.Finished? &&
      t == s.(workers := s.workers[w := s.workers[w].(phase := Released)])
    case Forget(w) =>
      w in s.workers && s.workers[w].phase.Released? && t == s.(workers := s.workers - {w})
    case _ => false
  }

  ghost predicate OutsideStep(s: State, a: Action, t: State) {
    match a
    case Tick => s.clock < t.clock && t == s.(clock := t.clock)
    case Elsewhere => t == s   // some part of the program outside the router moves
    case CancelOwner(o) => t == s.(dead := s.dead + {o})
    case Reload(re, routes) =>
      Update(re, routes, s.sh, t.sh) && BirthsExtend(s, t) && t == s.(sh := t.sh, birth := t.birth)
    case Select(re, host, path) =>
      t == s.(sh := s.sh.(pools := Resolve(re, s.sh.table, Ready(s.sh), s.sh.pools, host, path).1))
    case _ => false
  }

  ghost predicate Step(s: State, a: Action, t: State) {
    OwnerStep(s, a, t) || WorkerStep(s, a, t) || OutsideStep(s, a, t)
  }

  // ----- invariants -----

  /** Every pooled route of the table has a counter, and counters stay within 64 bits. */
  ghost predicate CountersOk(t: Table, pools: map<string, nat>) {
    && (forall r :: InTable(t, r) && r.backendPool != "" ==> PoolKey(r) in pools)
    && (forall k :: k in pools ==> pools[k] < UINT64)
  }

  /** The shared tables are well formed, and every generation but the last was cancelled. */
  ghost predicate SharedOk(sh: Shared) {
    && |sh.parents| == sh.generation + 1
    && (forall g :: 0 <= g < sh.generation ==> g in sh.cancelled)
    && (forall k :: k in sh.health ==>
          && sh.health[k] < |sh.cells| && HealthKey(sh.cells[sh.health[k]].route) == k
          && Checked(sh.cells[sh.health[k]].route) && InTable(sh.table, sh.cells[sh.health[k]].route))
    && (forall r :: InTable(sh.table, r) && Checked(r) ==> HealthKey(r) in sh.health)
    && CountersOk(sh.table, sh.pools)
  }

  /** The current cells are exactly those born in the current generation that are reachable by key. */
  ghost predicate BirthsOk(s: State) {
    && |s.birth| == |s.sh.cells|
    && (forall i :: 0 <= i < |s.birth| ==> s.birth[i] <= s.sh.generation)
    && (forall k :: k in s.sh.health && s.sh.health[k] < |s.birth| ==> s.birth[s.sh.health[k]] == s.sh.generation)
  }

  function Jobs(pc: OwnerPc): seq<nat> {
    if pc.Sweeping? || pc.Checking? then pc.jobs else []
  }

  predicate Busy(pc: OwnerPc) {
    pc.Sweeping? || pc.Checking? || pc.Joining?
  }

  /** A cell that a sweep of generation g may probe. */
  ghost predicate Target(s: State, id: nat, g: nat) {
    id < |s.sh.cells| && id < |s.birth| && s.birth[id] == g && g <= s.sh.generation &&
    (g == s.sh.generation ==> id in s.sh.health.Values)
  }

  ghost predicate OwnerOk(s: State) {
    && (s.pc.NoOwner? <==> !s.sh.running)
    && (s.workers != map[] ==> Busy(s.pc))
    && NoDuplicates(Jobs(s.pc))
    && (forall i :: 0 <= i < |Jobs(s.pc)| ==>
          Target(s, Jobs(s.pc)[i], s.pc.gen) && s.sh.cells[Jobs(s.pc)[i]].next <= s.clock)
  }

  ghost predicate WorkersOk(s: State) {
    && (forall w :: w in s.workers ==> w < s.nextWorker)
    && (forall w :: w in s.workers && Busy(s.pc) ==>
          s.workers[w].gen == s.pc.gen && Target(s, s.workers[w].cell, s.pc.gen))
    && (forall w :: w in s.workers ==> s.workers[w].cell !in Jobs(s.pc))
    && (forall v, w :: v in s.workers && w in s.workers && v != w ==> s.workers[v].cell != s.workers[w].cell)
    && |Holding(s)| <= SLOTS
  }

  ghost predicate TimesOk(s: State) {
    && s.clock > 0
    && (forall w :: w in s.workers && s.workers[w].cell < |s.sh.cells| ==>
          var p, next := s.workers[w].phase, s.sh.cells[s.workers[w].cell].next;
          && (p.Launched? ==> next <= s.clock)
          && (p.Probing? ==> 0 < p.started && next <= p.started <= s.clock)
          && (p.Answered? ==> 0 < p.started && next <= p.started <= p.answered <= s.clock)
          && (p.Answered? && p.healthy ==>
                p.ok && p.answered < p.started + Timeout(s.sh.cells[s.workers[w].cell].route)))
  }

  /** The last probe result let through for a cell. */
  function LastFor(log: seq<Admission>, id: nat): Option<Admission> {
    if log == [] then None
    else if log[|log| - 1].cell == id then Some(log[|log| - 1])
    else LastFor(log[..|log| - 1], id)
  }

  /**
   * Every record is of a probe of that cell under the generation that created it, answered before its deadline if
   * healthy.
   */
  ghost predicate LogOk(s: State) {
    forall i :: 0 <= i < |s.log| ==>
      var a := s.log[i];
      && a.cell < |s.birth| && |s.birth| == |s.sh.cells| && s.birth[a.cell] == a.gen
      && a.worker < s.nextWorker
      && 0 < a.started <= a.answered <= a.admitted <= s.clock
      && (a.healthy ==> a.ok && a.answered < a.started + Timeout(s.sh.cells[a.cell].route))
  }

  /** A cell shows its last record, whether or not it is still current. */
  ghost predicate CellsOk(s: State) {
    forall id :: 0 <= id < |s.sh.cells| ==>
      var c, last := s.sh.cells[id], LastFor(s.log, id);
      && (last.None? ==> c.checkedAt == 0 && c.next == 0 && !c.healthy)
      && (last.Some? ==>
            && c.checkedAt == last.value.admitted && c.next == last.value.admitted + Interval(c.route)
            && (c.healthy ==> last.value.healthy))
  }

  /** While an owner runs, a current cell is healthy exactly when its last record is; otherwise none is. */
  ghost predicate ReadyOk(s: State) {
    forall k :: k in s.sh.health && s.sh.health[k] < |s.sh.cells| ==>
      var c, last := s.sh.cells[s.sh.health[k]], LastFor(s.log, s.sh.health[k]);
      c.healthy <==> s.sh.running && last.Some? && last.value.healthy
  }

  /** Two records of one cell are apart by at least its interval, start to completion. */
  ghost predicate SpacedOk(s: State) {
    forall i, j :: 0 <= i < j < |s.log| && s.log[i].cell == s.log[j].cell && s.log[i].cell < |s.sh.cells| ==>
      s.log[i].admitted + Interval(s.sh.cells[s.log[i].cell].route) <= s.log[j].started
  }

  ghost predicate Inv(s: State) {
    SharedOk(s.sh) && BirthsOk(s) && OwnerOk(s) && WorkersOk(s) && TimesOk(s) && LogOk(s) && CellsOk(s) && ReadyOk(s) &&
    SpacedOk(s)
  }

  // ----- every step keeps the invariants -----

  lemma InitOk(s: State)
    requires Init(s)
    ensures Inv(s)
  {
    assert forall r :: !InTable(s.sh.table, r);
    assert Holding(s) == {};
  }

  ghost predicate LastAt(log: seq<Admission>, id: nat, i: int) {
    0 <= i < |log| && log[i].cell == id && forall j :: i < j < |log| ==> log[j].cell != id
  }

  lemma {:induction false} LastIn(log: seq<Admission>, id: nat)
    ensures var last := LastFor(log, id);
            && (last.None? <==> forall i :: 0 <= i < |log| ==> log[i].cell != id)
            && (last.Some? ==> exists i :: LastAt(log, id, i) && log[i] == last.value)
  {
    if log != [] {
      var n := |log| - 1;
      if log[n].cell != id {
        LastIn(log[..n], id);
        if LastFor(log[..n], id).Some? {
          var i :| LastAt(log[..n], id, i) && log[..n][i] == LastFor(log[..n], id).value;
          forall j | i < j < |log| ensures log[j].cell != id {
            if j < n { assert log[..n][j] == log[j]; }
          }
          assert LastAt(log, id, i) && log[i] == LastFor(log, id).value;
        } else {
          forall i | 0 <= i < |log| ensures log[i].cell != id {
            if i < n { assert log[..n][i] == log[i]; }
          }
        }
      } else {
        assert LastAt(log, id, n);
      }
    }
  }

  lemma LastSnoc(log: seq<Admission>, a: Admission, id: nat)
    ensures LastFor(log + [a], id) == if a.cell == id then Some(a) else LastFor(log, id)
  {
    assert (log + [a])[..|log|] == log;
  }

  /** A cell that did not exist when the log was written has no record in it. */
  lemma NoRecordYet(s: State, id: nat)
    requires LogOk(s) && id >= |s.birth|
    ensures LastFor(s.log, id).None?
  {
    LastIn(s.log, id);
  }

  // ----- the readiness view -----

  datatype Readiness = UnknownState | ReadyState | DownState

  /** The state column of a row of SnapshotHealth. */
  function RowState(running: bool, c: Cell): Readiness {
    if c.checkedAt == 0 || !running then UnknownState
    else if c.healthy then ReadyState
    else DownState
  }
}
