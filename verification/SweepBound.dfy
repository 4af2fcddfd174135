/**
 * How long a sweep takes, and that it ends. Time is accounted for in every run: what passes while the owner waits
 * for a slot or for its last probes, and these for answers not yet due, is bounded; the rest is counted as lost.
 */
module SweepBound {
  import opened Domain
  import opened Sequences
  import opened RouteTable
  import opened HealthProtocol
  import opened HealthSafety
  import opened HealthTheorems
  import FA = FileAdmission
  import AP = AdmittedPools

  /** The owner of a sweep can do nothing but wait for a worker. */
  predicate OwnerWaits(s: State) {
    || (s.pc.Sweeping? && s.pc.jobs != [] && |Holding(s)| >= SLOTS)
    || (s.pc.Joining? && s.workers != map[])
  }

  /** Time may pass up to now: every worker waits for an answer, none beyond its deadline. */
  ghost predicate MayPass(s: State, now: nat) {
    Busy(s.pc) ==>
      && OwnerWaits(s)
      && forall w :: w in s.workers ==>
           && s.workers[w].phase.Probing? && s.workers[w].cell < |s.sh.cells|
           && now <= s.workers[w].phase.started + Timeout(s.sh.cells[s.workers[w].cell].route)
  }

  /** The time a step takes that is not spent in waiting for answers still due: scheduling delays and overruns. */
  ghost function Lost(s: State, a: Action, t: State): nat {
    if a.Tick? && s.clock <= t.clock && !MayPass(s, t.clock) then t.clock - s.clock else 0
  }

  /** The time lost in the steps from m to j. */
  ghost function LostTime(run: seq<State>, acts: seq<Action>, m: nat, j: nat): nat
    requires m <= j <= |acts| && |run| == |acts| + 1
  {
    if m == j then 0 else LostTime(run, acts, m, j - 1) + Lost(run[j - 1], acts[j - 1], run[j])
  }

  /** In a run whose clock ticks only while the owner waits and answers are due, no time is lost. */
  lemma {:induction false} NothingLost(run: seq<State>, acts: seq<Action>, m: nat, j: nat)
    requires m <= j <= |acts| && |run| == |acts| + 1
    requires forall i :: m <= i < j && acts[i].Tick? ==> MayPass(run[i], run[i + 1].clock)
    ensures LostTime(run, acts, m, j) == 0
  {
    if m < j { NothingLost(run, acts, m, j - 1); }
  }

  /** Rounds of four after i launches. */
  function Rounds(i: nat, longest: nat): nat {
    (i / SLOTS) * longest
  }

  lemma RoundsGrow(i: nat, j: nat, longest: nat)
    requires i <= j
    ensures Rounds(i, longest) <= Rounds(j, longest)
    ensures Rounds(i, longest) + longest == Rounds(i + SLOTS, longest)
  {
    assert i / SLOTS <= j / SLOTS;
    assert (i + SLOTS) / SLOTS == i / SLOTS + 1;
  }

  // ----- the state of a sweep -----

  /** Cells a sweep may still touch time out within the bound. */
  ghost predicate Bounded(s: State, id: nat, longest: nat) {
    id < |s.sh.cells| && Timeout(s.sh.cells[id].route) <= longest
  }

  ghost predicate LaunchedInTime(s: State, w: nat, began: nat, first: nat, longest: nat)
    requires w in s.workers
  {
    && first <= w < s.nextWorker && Bounded(s, s.workers[w].cell, longest)
    && (s.workers[w].phase.Launched? ==> s.clock <= began + Rounds(w - first, longest))
    && (s.workers[w].phase.Probing? ==> s.workers[w].phase.started <= began + Rounds(w - first, longest))
  }

  /** A sweep of n jobs that began at this time with this worker number. */
  ghost predicate SweepOk(s: State, began: nat, first: nat, n: nat, longest: nat) {
    && Busy(s.pc) && first <= s.nextWorker
    && s.nextWorker - first + |Jobs(s.pc)| <= n
    && (forall w :: w in s.workers ==> LaunchedInTime(s, w, began, first, longest))
    && (forall id :: id in Jobs(s.pc) ==> Bounded(s, id, longest))
    && (Jobs(s.pc) != [] ==> s.clock <= began + Rounds(s.nextWorker - first, longest))
    && s.clock <= began + Rounds(n + SLOTS - 1, longest)
  }

  /** Every cell the owner of the sweep has collected times out within the bound. */
  ghost predicate JobsBounded(s: State, longest: nat) {
    forall id :: id in Jobs(s.pc) ==> Bounded(s, id, longest)
  }

  lemma CellsKept(s: State, a: Action, t: State, id: nat, longest: nat)
    requires Step(s, a, t) && Bounded(s, id, longest)
    ensures Bounded(t, id, longest)
  {
    hide DueJobs, BirthsExtend, ResetKeys, Resolve, BuildTable, FreshPools, Ready, Holding, Done;
    if a.Reload? || a.StartOwner? {
      assert t.sh.cells[..|s.sh.cells|][id] == s.sh.cells[id];
    }
  }

  /** Four different numbers below a bound include one that is four below it. */
  lemma OldestOfFour(ws: set<nat>, hi: nat) returns (w: nat)
    requires |ws| >= SLOTS && forall v :: v in ws ==> v < hi
    ensures w in ws && w + SLOTS <= hi
  {
    var top: set<int> := {hi - 1, hi - 2, hi - 3};
    if forall v :: v in ws ==> v in top {
      SubsetSize<int>(ws, top);
    }
    w :| w in ws && w !in top;
  }

  lemma TickBound(s: State, now: nat, w: nat, began: nat, first: nat, n: nat, longest: nat)
    requires MayPass(s, now) && SweepOk(s, began, first, n, longest) && w in s.workers
    ensures first <= w && now <= began + Rounds(w - first + SLOTS, longest)
  {
    assert LaunchedInTime(s, w, began, first, longest);
    RoundsGrow(w - first, w - first, longest);
  }

  lemma ClockInSweep(s: State, now: nat, began: nat, first: nat, n: nat, longest: nat)
    requires MayPass(s, now) && SweepOk(s, began, first, n, longest)
    ensures Jobs(s.pc) != [] ==> now <= began + Rounds(s.nextWorker - first, longest)
    ensures now <= began + Rounds(n + SLOTS - 1, longest)
  {
    assert Holding(s) == s.workers.Keys;
    var hi := s.nextWorker;
    if s.pc.Sweeping? {
      var w := OldestOfFour(s.workers.Keys, hi);
      TickBound(s, now, w, began, first, n, longest);
      RoundsGrow(w - first + SLOTS, hi - first, longest);
      RoundsGrow(hi - first, n + SLOTS - 1, longest);
    } else {
      assert s.workers.Keys != {};
      var w :| w in s.workers;
      TickBound(s, now, w, began, first, n, longest);
      RoundsGrow(w - first + SLOTS, n + SLOTS - 1, longest);
    }
  }

  lemma TickInSweep(s: State, t: State, began: nat, first: nat, n: nat, longest: nat)
    requires OutsideStep(s, Tick, t) && MayPass(s, t.clock) && SweepOk(s, began, first, n, longest)
    ensures SweepOk(t, began, first, n, longest)
  {
    ClockInSweep(s, t.clock, began, first, n, longest);
    forall v | v in t.workers ensures LaunchedInTime(t, v, began, first, longest) {
      assert LaunchedInTime(s, v, began, first, longest);
    }
  }

  lemma StillLaunched(s: State, a: Action, t: State, began: nat, first: nat, longest: nat, w: nat)
    requires Step(s, a, t) && !a.Tick? && !a.Collect? && w in s.workers && w in t.workers
    requires s.nextWorker <= t.nextWorker
    requires LaunchedInTime(s, w, began, first, longest)
    ensures LaunchedInTime(t, w, began, first, longest)
  {
    CellsKept(s, a, t, s.workers[w].cell, longest);
  }

  lemma JobsStill(s: State, a: Action, t: State, longest: nat)
    requires Step(s, a, t) && Busy(s.pc) && !a.Join? && JobsBounded(s, longest)
    ensures Busy(t.pc) && JobsBounded(t, longest)
  {
    hide Bounded, Update, Resolve, Ready, DueJobs, Done;
    forall id | id in Jobs(t.pc) ensures Bounded(t, id, longest) {
      assert id in Jobs(s.pc);
      CellsKept(s, a, t, id, longest);
    }
  }

  lemma AllLaunched(s: State, a: Action, t: State, began: nat, first: nat, n: nat, longest: nat)
    requires Step(s, a, t) && SweepOk(s, began, first, n, longest) && !a.Join? && !a.Tick?
    ensures forall w :: w in t.workers ==> LaunchedInTime(t, w, began, first, longest)
  {
    hide Update, Start, Stop, Resolve, Ready, DueJobs, Publish, Done, Rounds, Bounded;
    forall w | w in t.workers ensures LaunchedInTime(t, w, began, first, longest) {
      if w in s.workers {
        StillLaunched(s, a, t, began, first, longest, w);
      } else {
        assert a.Launch? && w == s.nextWorker && s.pc.jobs[0] in Jobs(s.pc);
        CellsKept(s, a, t, s.pc.jobs[0], longest);
      }
    }
  }

  lemma StepInSweep(s: State, a: Action, t: State, began: nat, first: nat, n: nat, longest: nat)
    requires Step(s, a, t) && SweepOk(s, began, first, n, longest) && !a.Join?
    requires a.Tick? ==> MayPass(s, t.clock)
    ensures SweepOk(t, began, first, n, longest)
  {
    hide Update, Start, Stop, Resolve, Ready, DueJobs, Publish, Done, Rounds, MayPass, Bounded, LaunchedInTime;
    if a.Tick? {
      TickInSweep(s, t, began, first, n, longest);
    } else {
      assert !a.Collect? && !a.StartOwner? && !a.StopOwner?;
      assert JobsBounded(s, longest);
      JobsStill(s, a, t, longest);
      AllLaunched(s, a, t, began, first, n, longest);
      if a.Launch? { RoundsGrow(s.nextWorker - first, t.nextWorker - first, longest); }
    }
  }

  /** Time that is lost moves every bound of the sweep by as much. */
  lemma LostTick(s: State, t: State, began: nat, first: nat, n: nat, longest: nat)
    requires OutsideStep(s, Tick, t) && SweepOk(s, began, first, n, longest)
    ensures SweepOk(t, began + (t.clock - s.clock), first, n, longest)
  {
    hide Rounds;
    forall v | v in t.workers ensures LaunchedInTime(t, v, began + (t.clock - s.clock), first, longest) {
      assert LaunchedInTime(s, v, began, first, longest);
    }
  }

  lemma SweepStep(s: State, a: Action, t: State, began: nat, first: nat, n: nat, longest: nat)
    requires Step(s, a, t) && SweepOk(s, began, first, n, longest) && !a.Join?
    ensures SweepOk(t, began + Lost(s, a, t), first, n, longest)
  {
    hide SweepOk, MayPass;
    if a.Tick? && !MayPass(s, t.clock) {
      LostTick(s, t, began, first, n, longest);
    } else {
      StepInSweep(s, a, t, began, first, n, longest);
    }
  }

  lemma {:induction false} SweepKeeps(run: seq<State>, acts: seq<Action>, m: nat, j: nat,
                                      began: nat, first: nat, n: nat, longest: nat)
    requires Steps(run, acts) && m <= j < |run| && SweepOk(run[m], began, first, n, longest)
    requires forall i :: m <= i < j ==> !acts[i].Join?
    ensures SweepOk(run[j], began + LostTime(run, acts, m, j), first, n, longest)
  {
    hide SweepOk, Step, Lost;
    if m < j {
      SweepKeeps(run, acts, m, j - 1, began, first, n, longest);
      SweepStep(run[j - 1], acts[j - 1], run[j], began + LostTime(run, acts, m, j - 1), first, n, longest);
    }
  }

  lemma SweepBegins(s: State, t: State, longest: nat)
    requires Inv(s) && Step(s, Collect, t) && JobsBounded(t, longest)
    ensures SweepOk(t, t.clock, t.nextWorker, |Jobs(t.pc)|, longest)
  {
    assert t.workers == map[];
  }

  lemma JoinTakesNoTime(run: seq<State>, acts: seq<Action>, i: nat)
    requires Steps(run, acts) && i < |acts| && acts[i].Join?
    ensures i + 1 < |run| && run[i + 1].clock == run[i].clock
  {
  }

  lemma ClockUntilJoined(run: seq<State>, acts: seq<Action>, m: nat, j: nat, began: nat, first: nat, n: nat,
                         longest: nat)
    requires Steps(run, acts) && m <= j < |run| && SweepOk(run[m], began, first, n, longest)
    requires forall i :: m <= i < j - 1 ==> !acts[i].Join?
    ensures run[j].clock <= began + Rounds(n + SLOTS - 1, longest) + LostTime(run, acts, m, j)
  {
    hide Step, MayPass, LaunchedInTime, Bounded, Rounds;
    if j > m && acts[j - 1].Join? {
      SweepKeeps(run, acts, m, j - 1, began, first, n, longest);
      JoinTakesNoTime(run, acts, j - 1);
    } else {
      SweepKeeps(run, acts, m, j, began, first, n, longest);
    }
  }

  lemma CollectedSweep(run: seq<State>, acts: seq<Action>, m: nat, longest: nat)
    requires Steps(run, acts) && Inv(run[0]) && m < |acts| && acts[m].Collect?
    requires m + 1 < |run| && JobsBounded(run[m + 1], longest)
    ensures SweepOk(run[m + 1], run[m + 1].clock, run[m + 1].nextWorker, |Jobs(run[m + 1].pc)|, longest)
  {
    SegmentKeeps(run, acts, m);
    SweepBegins(run[m], run[m + 1], longest);
  }

  /**
   * A sweep over n due cells, each with a timeout of at most T, is over within ceil(n / 4) * T and the time lost:
   * until the owner has joined its workers the clock stays within that, whatever is reloaded or cancelled meanwhile.
   */
  lemma SweepEndsInTime(run: seq<State>, acts: seq<Action>, m: nat, j: nat, longest: nat)
    requires Steps(run, acts) && Inv(run[0]) && m < |acts| && acts[m].Collect? && m < j < |run|
    requires forall i :: m < i < j - 1 ==> !acts[i].Join?
    requires JobsBounded(run[m + 1], longest)
    ensures var n := |Jobs(run[m + 1].pc)|;
            run[j].clock <= run[m + 1].clock + Rounds(n + SLOTS - 1, longest) + LostTime(run, acts, m + 1, j)
  {
    CollectedSweep(run, acts, m, longest);
    var s := run[m + 1];
    ClockUntilJoined(run, acts, m + 1, j, s.clock, s.nextWorker, |Jobs(s.pc)|, longest);
  }

  // ----- a sweep reaches its join -----

  /** The steps of the owner and of its workers within a sweep, up to the join. */
  predicate SweepMove(a: Action) {
    || a.Launch? || a.SeeDone? || a.Check? || a.EndSweep?
    || a.BeginProbe? || a.SkipProbe? || a.Answer? || a.Admit? || a.Release? || a.Forget?
  }

  /** How many steps a worker has still to make. */
  function PhaseWork(p: Phase): nat {
    match p
    case Launched => 5
    case Probing(_) => 4
    case Answered(_, _, _, _) => 3
    case Finished => 2
    case Released => 1
  }

  function WorkerWork(workers: map<nat, Worker>, w: nat): nat {
    if w in workers then PhaseWork(workers[w].phase) else 0
  }

  /** The work of the workers numbered below k. */
  function WorkersWork(workers: map<nat, Worker>, k: nat): nat {
    if k == 0 then 0 else WorkersWork(workers, k - 1) + WorkerWork(workers, k - 1)
  }

  const PER_JOB: nat := 7

  function OwnerWork(pc: OwnerPc): nat {
    PER_JOB * |Jobs(pc)| + if pc.Sweeping? then 1 else if pc.Checking? then 2 else 0
  }

  /** The steps that are left of a sweep, at most. */
  function Work(s: State): nat {
    OwnerWork(s.pc) + WorkersWork(s.workers, s.nextWorker)
  }

  lemma {:induction false} SameWork(a: map<nat, Worker>, b: map<nat, Worker>, k: nat)
    requires forall w :: 0 <= w < k ==> WorkerWork(a, w) == WorkerWork(b, w)
    ensures WorkersWork(a, k) == WorkersWork(b, k)
  {
    if k > 0 { SameWork(a, b, k - 1); }
  }

  /** When one worker changes, the work changes by what that worker's does. */
  lemma {:induction false} OneWorker(a: map<nat, Worker>, b: map<nat, Worker>, w: nat, k: nat)
    requires w < k && forall v :: 0 <= v < k && v != w ==> WorkerWork(a, v) == WorkerWork(b, v)
    ensures WorkersWork(a, k) + WorkerWork(b, w) == WorkersWork(b, k) + WorkerWork(a, w)
  {
    if w == k - 1 { SameWork(a, b, k - 1); } else { OneWorker(a, b, w, k - 1); }
  }

  lemma WorkerMoves(s: State, a: Action, t: State)
    requires Inv(s) && WorkerStep(s, a, t)
    ensures t.pc == s.pc && Work(t) < Work(s)
  {
    hide SharedOk, BirthsOk, TimesOk, LogOk, CellsOk, ReadyOk, SpacedOk, OwnerOk, WorkersWork, Publish, Admits, Done,
         Timeout;
    OneWorker(s.workers, t.workers, a.w, s.nextWorker);
  }

  lemma LaunchWorks(s: State, t: State)
    requires Inv(s) && OwnerStep(s, Launch, t)
    ensures Work(t) < Work(s)
  {
    hide SharedOk, BirthsOk, TimesOk, LogOk, CellsOk, ReadyOk, SpacedOk, OwnerOk;
    assert s.nextWorker !in s.workers;
    SameWork(s.workers, t.workers, s.nextWorker);
  }

  /** Every step of the sweep leaves less to do. */
  lemma MoveWorks(s: State, a: Action, t: State)
    requires Inv(s) && Step(s, a, t) && SweepMove(a)
    ensures Busy(s.pc) ==> Busy(t.pc)
    ensures Work(t) < Work(s)
  {
    if WorkerStep(s, a, t) {
      hide OwnerStep, OutsideStep, Inv, Work;
      WorkerMoves(s, a, t);
    } else if a.Launch? {
      hide Inv, Work;
      LaunchWorks(s, t);
    } else {
      hide Inv, WorkersWork;
    }
  }

  /** No other step but the join adds to it, or takes from it. */
  lemma OthersWait(s: State, a: Action, t: State)
    requires Step(s, a, t) && Busy(s.pc) && !SweepMove(a) && !a.Join?
    ensures Busy(t.pc) && Work(t) == Work(s)
  {
    hide WorkersWork, OwnerWork, Update, Resolve, Ready, DueJobs;
    assert t.pc == s.pc && t.workers == s.workers && t.nextWorker == s.nextWorker;
  }

  /** A free slot, a free worker, or all of four waiting: some step of the sweep, or the join, is always possible. */
  lemma NeverStuck(s: State) returns (a: Action, t: State)
    requires Inv(s) && Busy(s.pc)
    ensures Step(s, a, t) && (SweepMove(a) || a.Join?)
  {
    hide SharedOk, LogOk, CellsOk, ReadyOk, SpacedOk, TimesOk;
    if s.pc.Checking? {
      a := Check;
      t := s.(pc := if Done(s.sh, s.dead, s.pc.gen) then Joining(s.pc.owner, s.pc.gen)
                    else Sweeping(s.pc.owner, s.pc.gen, s.pc.jobs));
    } else if s.pc.Sweeping? && s.pc.jobs == [] {
      a, t := EndSweep, s.(pc := Joining(s.pc.owner, s.pc.gen));
    } else if s.pc.Sweeping? && |Holding(s)| < SLOTS {
      a := Launch;
      t := s.(workers := s.workers[s.nextWorker := Worker(s.pc.jobs[0], s.pc.gen, Launched)],
              nextWorker := s.nextWorker + 1, pc := Checking(s.pc.owner, s.pc.gen, s.pc.jobs[1..]));
    } else if s.workers == map[] {
      assert Holding(s) == {};
      a, t := Join, s.(pc := Waiting(s.pc.owner));
    } else {
      var w :| w in s.workers;
      a, t := WorkerMay(s, w);
    }
  }

  /** Outside a sweep the owner can always move: wait for the ticker or the wake token, leave when told, collect. */
  lemma OwnerMoves(s: State, jobs: seq<nat>, now: nat)
    requires Inv(s)
    ensures s.pc.Waiting? ==>
              && Step(s, Ticker, s.(pc := Collecting(s.pc.owner)))
              && (s.sh.wake ==> Step(s, Wake, s.(sh := s.sh.(wake := false), pc := Collecting(s.pc.owner))))
              && (s.pc.owner in s.dead ==> Step(s, Leave, s.(pc := Exiting(s.pc.owner))))
    ensures s.pc.Collecting? && DueJobs(s, s.(clock := now), jobs) ==>
              Step(s, Collect, s.(clock := now, pc := Sweeping(s.pc.owner, s.sh.generation, jobs)))
    ensures s.pc.Exiting? ==> Step(s, StopOwner, s.(sh := Stop(s.sh), pc := NoOwner))
    ensures s.clock < now ==> Step(s, Tick, s.(clock := now))
  {
    hide Inv, Stop;
  }

  lemma WorkersAim(s: State, w: nat)
    requires Inv(s) && w in s.workers
    ensures s.workers[w].cell < |s.sh.cells|
  {
    hide SharedOk, LogOk, CellsOk, ReadyOk, SpacedOk, TimesOk;
    assert Target(s, s.workers[w].cell, s.pc.gen);
  }

  /** A worker's next step is always possible; its answer may come at any time. */
  lemma WorkerMay(s: State, w: nat) returns (a: Action, t: State)
    requires Inv(s) && w in s.workers
    ensures WorkerStep(s, a, t) && SweepMove(a)
  {
    hide Inv, Publish, Admits;
    WorkersAim(s, w);
    var k := s.workers[w];
    match k.phase
    case Launched =>
      var done := Done(s.sh, s.dead, k.gen);
      a := if done then SkipProbe(w) else BeginProbe(w);
      t := s.(workers := s.workers[w := k.(phase := if done then Finished else Probing(s.clock))]);
    case Probing(start) =>
      a := Answer(w, false);
      t := s.(workers := s.workers[w := k.(phase := Answered(start, s.clock, false, false))]);
    case Answered(start, at, ok, healthy) =>
      a := Admit(w);
      t := s.(sh := Publish(s.sh, s.dead, k.gen, k.cell, healthy, s.clock),
              workers := s.workers[w := k.(phase := Finished)],
              log := if Admits(s.sh, s.dead, k.gen, k.cell)
                     then s.log + [Admission(w, k.cell, k.gen, start, at, s.clock, ok, healthy)] else s.log);
    case Finished =>
      a, t := Release(w), s.(workers := s.workers[w := k.(phase := Released)]);
    case Released =>
      a, t := Forget(w), s.(workers := s.workers - {w});
  }

  /** How many of some actions are steps of the sweep. */
  function Moves(acts: seq<Action>): nat {
    |Filter(acts, SweepMove)|
  }

  lemma MovesSnoc(acts: seq<Action>, a: Action)
    ensures Moves(acts + [a]) == Moves(acts) + if SweepMove(a) then 1 else 0
  {
    FilterSnoc(acts, a, SweepMove);
  }

  lemma SweepWork(run: seq<State>, acts: seq<Action>, i: nat)
    requires Steps(run, acts) && Inv(run[0]) && i < |acts| && Busy(run[i].pc) && !acts[i].Join?
    ensures Busy(run[i + 1].pc) && Work(run[i + 1]) + (if SweepMove(acts[i]) then 1 else 0) <= Work(run[i])
  {
    hide Step, Inv, Work;
    SegmentKeeps(run, acts, i);
    if SweepMove(acts[i]) { MoveWorks(run[i], acts[i], run[i + 1]); } else { OthersWait(run[i], acts[i], run[i + 1]); }
  }

  lemma {:induction false} MovesSpend(run: seq<State>, acts: seq<Action>, m: nat, j: nat)
    requires Steps(run, acts) && Inv(run[0]) && m <= j < |run| && Busy(run[m].pc)
    requires forall i :: m <= i < j ==> !acts[i].Join?
    ensures Busy(run[j].pc) && Moves(acts[m..j]) + Work(run[j]) <= Work(run[m])
  {
    hide Step, Inv, Work;
    if m < j {
      MovesSpend(run, acts, m, j - 1);
      SweepWork(run, acts, j - 1);
      assert acts[m..j] == acts[m..j - 1] + [acts[j - 1]];
      MovesSnoc(acts[m..j - 1], acts[j - 1]);
    } else {
      assert acts[m..j] == [];
    }
  }

  lemma CollectedWork(s: State, t: State)
    requires Inv(s) && Step(s, Collect, t)
    ensures Busy(t.pc) && Work(t) == PER_JOB * |Jobs(t.pc)| + 1
  {
    hide DueJobs, SharedOk, BirthsOk, TimesOk, LogOk, CellsOk, ReadyOk, SpacedOk, WorkersOk;
    assert t.workers == map[];
    NoWork(t.nextWorker);
  }

  lemma {:induction false} NoWork(k: nat)
    ensures WorkersWork(map[], k) == 0
  {
    if k > 0 { NoWork(k - 1); }
  }

  /**
   * A sweep over n jobs reaches its join after at most 7 n + 1 steps of its owner and workers, and once ceil(n / 4) * T
   * have passed besides the time lost, whatever happens in between; until then some step of it is always possible.
   */
  lemma SweepIsOver(run: seq<State>, acts: seq<Action>, m: nat, j: nat, longest: nat)
    requires Steps(run, acts) && Inv(run[0]) && m < |acts| && acts[m].Collect? && m < j < |run|
    ensures var n := |Jobs(run[m + 1].pc)|;
            var bound := Rounds(n + SLOTS - 1, longest) + LostTime(run, acts, m + 1, j);
            var late := JobsBounded(run[m + 1], longest) && run[j].clock > run[m + 1].clock + bound;
            Moves(acts[m + 1..j]) > PER_JOB * n + 1 || late ==> exists i :: m < i < j && acts[i].Join?
    ensures (forall i :: m < i < j ==> !acts[i].Join?) ==>
              exists a, t :: Step(run[j], a, t) && (SweepMove(a) || a.Join?)
  {
    hide Step, Inv, Work, MayPass, LostTime;
    SegmentKeeps(run, acts, m);
    SegmentKeeps(run, acts, j);
    CollectedWork(run[m], run[m + 1]);
    if forall i :: m < i < j ==> !acts[i].Join? {
      MovesSpend(run, acts, m + 1, j);
      if JobsBounded(run[m + 1], longest) { SweepEndsInTime(run, acts, m, j, longest); }
      var a, t := NeverStuck(run[j]);
    }
  }

  // ----- under the admission limits -----

  lemma {:induction false} DistinctAtMost<T>(s: seq<T>, all: set<T>)
    requires NoDuplicates(s) && forall x :: x in s ==> x in all
    ensures |s| <= |all|
  {
    if s != [] {
      var n := |s| - 1;
      assert s[n] in s;
      DistinctAtMost(s[..n], all - {s[n]});
    }
  }

  lemma {:induction false} ValuesAtMostKeys(m: map<string, nat>)
    ensures |m.Values| <= |m|
  {
    if m == map[] {
      assert m.Values == {};
    } else {
      var k :| k in m;
      var rest := m - {k};
      ValuesAtMostKeys(rest);
      forall v | v in m.Values ensures v in rest.Values + {m[k]} {
        var j :| j in m && m[j] == v;
        if j != k { assert j in rest && rest[j] == v; }
      }
      SubsetSize(m.Values, rest.Values + {m[k]});
    }
  }

  /** While the router holds the routes of an accepted file, its health map never exceeds the admission limit. */
  lemma AdmittedHealth(lib: FA.Lib, f: FA.RoutesFile, re: Regex, all: seq<Route>, sh: Shared)
    requires AP.PoolsFrom(lib, f, all) && AP.ParsesPlain(lib) && AP.PlainPaths(f)
    requires SharedOk(sh) && sh.table == BuildTable(re, all)
    ensures |sh.health| <= 128
    ensures forall k :: k in sh.health ==> Timeout(sh.cells[sh.health[k]].route) <= 10 * SECOND
  {
    AP.OneCellWhileServed(lib, f, re, all, sh);
    AP.CheckedFromFile(lib, f, all);
    forall k | k in sh.health ensures Timeout(sh.cells[sh.health[k]].route) <= 10 * SECOND {
      var r := sh.cells[sh.health[k]].route;
      BuiltRoutesAreInput(re, all, r);
      AP.AdmittedTimeout(lib, f, r);
    }
  }

  /**
   * Under the admission limits of 128 pairs and ten-second timeouts every sweep takes at most 320 seconds and what is
   * lost.
   */
  lemma AdmittedSweepEndsInTime(run: seq<State>, acts: seq<Action>, m: nat, j: nat,
                                lib: FA.Lib, f: FA.RoutesFile, re: Regex, all: seq<Route>)
    requires Steps(run, acts) && Inv(run[0]) && m < |acts| && acts[m].Collect? && m < j < |run|
    requires forall i :: m < i < j - 1 ==> !acts[i].Join?
    requires AP.PoolsFrom(lib, f, all) && AP.ParsesPlain(lib) && AP.PlainPaths(f)
    requires run[m].sh.table == BuildTable(re, all)
    ensures run[j].clock <= run[m + 1].clock + 320 * SECOND + LostTime(run, acts, m + 1, j)
  {
    SegmentKeeps(run, acts, m);
    AdmittedJobs(lib, f, re, all, run[m], run[m + 1]);
    SweepEndsInTime(run, acts, m, j, 10 * SECOND);
    RoundsGrow(|Jobs(run[m + 1].pc)| + SLOTS - 1, 131, 10 * SECOND);
  }

  /** Once the clock is past that, the owner has joined its workers. */
  lemma AdmittedSweepIsOver(run: seq<State>, acts: seq<Action>, m: nat, j: nat,
                            lib: FA.Lib, f: FA.RoutesFile, re: Regex, all: seq<Route>) returns (i: nat)
    requires Steps(run, acts) && Inv(run[0]) && m < |acts| && acts[m].Collect? && m < j < |run|
    requires AP.PoolsFrom(lib, f, all) && AP.ParsesPlain(lib) && AP.PlainPaths(f)
    requires run[m].sh.table == BuildTable(re, all)
    requires run[j].clock > run[m + 1].clock + 320 * SECOND + LostTime(run, acts, m + 1, j)
    ensures m < i < j && acts[i].Join?
  {
    hide Step, Inv, MayPass, BuildTable;
    if forall i :: m < i < j - 1 ==> !acts[i].Join? {
      AdmittedSweepEndsInTime(run, acts, m, j, lib, f, re, all);
    }
    i :| m < i < j - 1 && acts[i].Join?;
  }

  lemma CollectedJobs(s: State, t: State)
    requires Step(s, Collect, t)
    ensures t.sh == s.sh && NoDuplicates(Jobs(t.pc)) && forall id :: id in Jobs(t.pc) ==> id in s.sh.health.Values
  {
  }

  lemma AdmittedJobs(lib: FA.Lib, f: FA.RoutesFile, re: Regex, all: seq<Route>, s: State, t: State)
    requires AP.PoolsFrom(lib, f, all) && AP.ParsesPlain(lib) && AP.PlainPaths(f)
    requires Inv(s) && Step(s, Collect, t) && s.sh.table == BuildTable(re, all)
    ensures |Jobs(t.pc)| <= 128 && JobsBounded(t, 10 * SECOND)
  {
    AdmittedHealth(lib, f, re, all, s.sh);
    ValuesAtMostKeys(s.sh.health);
    CollectedJobs(s, t);
    DistinctAtMost(Jobs(t.pc), s.sh.health.Values);
  }
}
