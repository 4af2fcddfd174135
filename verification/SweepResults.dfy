/**
 * What a sweep comes to: every cell that was due has a new result when its workers are joined, or the sweep was cut
 * off.
 */
module SweepResults {
  import opened RouteTable
  import opened HealthProtocol
  import opened HealthSafety
  import opened HealthTheorems
  import opened HealthRecords

  predicate Underway(p: Phase) {
    p.Launched? || p.Probing? || p.Answered?
  }

  /** A worker is still to publish a result for the cell. */
  ghost predicate InHand(s: State, id: nat) {
    exists w :: w in s.workers && s.workers[w].cell == id && Underway(s.workers[w].phase)
  }

  ghost predicate RecordedSince(s: State, from: nat, id: nat) {
    exists i :: from <= i < |s.log| && s.log[i].cell == id
  }

  /** The cell is accounted for: it waits for a worker, has one, or has a result since the sweep began. */
  ghost predicate Covered(s: State, from: nat, id: nat) {
    id in Jobs(s.pc) || InHand(s, id) || RecordedSince(s, from, id)
  }

  /** A step within a sweep whose context is live after it. */
  ghost predicate LiveStep(s: State, a: Action, t: State) {
    Inv(s) && Step(s, a, t) && Busy(s.pc) && !a.Join? && !Done(t.sh, t.dead, s.pc.gen)
  }

  lemma LiveBefore(s: State, a: Action, t: State)
    requires LiveStep(s, a, t)
    ensures !Done(s.sh, s.dead, s.pc.gen)
  {
    hide Inv, Step;
    if Done(s.sh, s.dead, s.pc.gen) { DoneStays(s, a, t, s.pc.gen); }
  }

  lemma RecordStays(s: State, a: Action, t: State, from: nat, id: nat)
    requires Step(s, a, t) && RecordedSince(s, from, id)
    ensures RecordedSince(t, from, id)
  {
    hide Step;
    LogGrows(s, a, t);
    var i :| from <= i < |s.log| && s.log[i].cell == id;
    assert t.log == s.log || t.log[..|s.log|][i] == s.log[i];
    assert t.log[i].cell == id;
  }

  lemma OthersLeaveJobs(s: State, a: Action, t: State)
    requires Step(s, a, t) && !OwnerStep(s, a, t)
    ensures t.pc == s.pc
  {
    hide OwnerStep, Update, Resolve, Ready, BirthsExtend, Publish, Admits, Done;
  }

  lemma OwnerKeepsJob(s: State, a: Action, t: State, id: nat)
    requires OwnerStep(s, a, t) && id in Jobs(s.pc) && !Done(s.sh, s.dead, s.pc.gen)
    ensures id in Jobs(t.pc) || InHand(t, id)
  {
    hide Start, Stop, DueJobs, BirthsExtend, Holding;
    if a.Launch? {
      assert s.pc.jobs == [s.pc.jobs[0]] + s.pc.jobs[1..];
      if id == s.pc.jobs[0] { assert t.workers[s.nextWorker] == Worker(id, s.pc.gen, Launched); }
    }
  }

  /** A job stays in the list until a worker is launched for it. */
  lemma JobCovered(s: State, a: Action, t: State, id: nat)
    requires LiveStep(s, a, t) && id in Jobs(s.pc)
    ensures id in Jobs(t.pc) || InHand(t, id)
  {
    LiveBefore(s, a, t);
    if OwnerStep(s, a, t) {
      hide Inv, OwnerStep, WorkerStep, OutsideStep, Done;
      OwnerKeepsJob(s, a, t, id);
    } else {
      hide Inv, OwnerStep, WorkerStep, OutsideStep;
      OthersLeaveJobs(s, a, t);
    }
  }

  lemma WorkerPublishes(s: State, w: nat, t: State)
    requires LiveStep(s, Admit(w), t) && w in s.workers
    ensures RecordedSince(t, |s.log|, s.workers[w].cell) && w in t.workers && t.workers[w].cell == s.workers[w].cell
  {
    LiveBefore(s, Admit(w), t);
    LiveMeansCurrent(s, w);
    hide Inv, Publish, Admits, Done;
    assert t.log[|s.log|].cell == s.workers[w].cell;
  }

  /** No other step takes a worker off its cell, nor lets it skip its probe while its context is live. */
  lemma WorkerGoesOn(s: State, a: Action, t: State, w: nat)
    requires Step(s, a, t) && w in s.workers && Underway(s.workers[w].phase) && w < s.nextWorker && a != Admit(w)
    requires !Done(s.sh, s.dead, s.workers[w].gen) && !a.StopOwner?
    ensures w in t.workers && t.workers[w].cell == s.workers[w].cell && Underway(t.workers[w].phase)
  {
    hide Update, Start, Stop, Resolve, Ready, DueJobs, BirthsExtend, Publish, Admits, Holding, Timeout;
  }

  /** A worker goes on, with nothing skipped, until its result is published. */
  lemma WorkerCovered(s: State, a: Action, t: State, from: nat, id: nat, w: nat)
    requires LiveStep(s, a, t) && w in s.workers && s.workers[w].cell == id && Underway(s.workers[w].phase)
    requires from <= |s.log|
    ensures w in t.workers && t.workers[w].cell == id && (Underway(t.workers[w].phase) || RecordedSince(t, from, id))
  {
    LiveBefore(s, a, t);
    assert s.workers[w].gen == s.pc.gen && w < s.nextWorker;
    hide Inv, OwnerStep, WorkerStep, OutsideStep, Done, Underway;
    if a == Admit(w) {
      WorkerPublishes(s, w, t);
    } else {
      NotStopping(s, a, t);
      WorkerGoesOn(s, a, t, w);
    }
  }

  lemma NotStopping(s: State, a: Action, t: State)
    requires LiveStep(s, a, t)
    ensures !a.StopOwner?
  {
    hide Inv, Update, Start, Stop, Resolve, Ready, DueJobs, BirthsExtend, Publish, Admits, Holding, Done;
  }

  lemma SweepGoesOn(s: State, a: Action, t: State)
    requires LiveStep(s, a, t)
    ensures Busy(t.pc) && t.pc.gen == s.pc.gen && |s.log| <= |t.log|
  {
    LogGrows(s, a, t);
    if OwnerStep(s, a, t) {
      hide Inv, WorkerStep, OutsideStep, Start, Stop, DueJobs, BirthsExtend, Holding, Done;
    } else {
      hide Inv, OwnerStep, WorkerStep, OutsideStep;
      OthersLeaveJobs(s, a, t);
    }
  }

  lemma CoveredStays(s: State, a: Action, t: State, from: nat, id: nat)
    requires LiveStep(s, a, t) && from <= |s.log| && Covered(s, from, id)
    ensures Covered(t, from, id)
  {
    hide LiveStep, Underway;
    assert Step(s, a, t) by { StepOf(s, a, t); }
    if id in Jobs(s.pc) {
      JobCovered(s, a, t, id);
    } else if InHand(s, id) {
      var w :| w in s.workers && s.workers[w].cell == id && Underway(s.workers[w].phase);
      WorkerCovered(s, a, t, from, id, w);
    } else {
      RecordStays(s, a, t, from, id);
    }
  }

  lemma StepOf(s: State, a: Action, t: State)
    requires LiveStep(s, a, t)
    ensures Step(s, a, t)
  {
    hide Step;
  }

  lemma {:induction false} DoneLater(run: seq<State>, acts: seq<Action>, m: nat, n: nat, g: nat)
    requires Steps(run, acts) && m <= n < |run| && Done(run[m].sh, run[m].dead, g)
    ensures Done(run[n].sh, run[n].dead, g)
  {
    hide Step, Done;
    if m < n {
      DoneLater(run, acts, m, n - 1, g);
      DoneStays(run[n - 1], acts[n - 1], run[n], g);
    }
  }

  lemma {:induction false} CoveredUntil(run: seq<State>, acts: seq<Action>, m: nat, n: nat, id: nat)
    requires Steps(run, acts) && Inv(run[0]) && m <= n < |run| && Busy(run[m].pc)
    requires forall i :: m <= i < n ==> !acts[i].Join?
    requires !Done(run[n].sh, run[n].dead, run[m].pc.gen) && id in Jobs(run[m].pc)
    ensures Busy(run[n].pc) && run[n].pc.gen == run[m].pc.gen
    ensures |run[m].log| <= |run[n].log| && Covered(run[n], |run[m].log|, id)
  {
    hide Inv, Step, Done, Covered, LogOk;
    if m < n {
      if Done(run[n - 1].sh, run[n - 1].dead, run[m].pc.gen) {
        DoneStays(run[n - 1], acts[n - 1], run[n], run[m].pc.gen);
      }
      CoveredUntil(run, acts, m, n - 1, id);
      SegmentKeeps(run, acts, n - 1);
      SweepGoesOn(run[n - 1], acts[n - 1], run[n]);
      CoveredStays(run[n - 1], acts[n - 1], run[n], |run[m].log|, id);
    } else {
      FirstCovered(run[m], id);
    }
  }

  lemma FirstCovered(s: State, id: nat)
    requires id in Jobs(s.pc)
    ensures Covered(s, |s.log|, id)
  {
  }

  lemma JoinedCovered(s: State, t: State, from: nat, id: nat)
    requires Step(s, Join, t) && Covered(s, from, id)
    ensures RecordedSince(s, from, id) && t.log == s.log
  {
  }

  lemma DueIsCollected(s: State, t: State, k: string)
    requires Step(s, Collect, t) && k in s.sh.health && s.sh.health[k] < |s.sh.cells|
    requires s.sh.cells[s.sh.health[k]].next <= s.clock
    ensures Busy(t.pc) && s.sh.health[k] in Jobs(t.pc) && t.log == s.log && t.pc.gen == s.sh.generation
  {
  }

  /**
   * Every cell that is due when a sweep begins has a new result by the time the sweep's workers are joined, unless a
   * reload or a cancellation cut it off.
   */
  lemma DueIsProbed(run: seq<State>, acts: seq<Action>, m: nat, j: nat, k: string)
    requires Steps(run, acts) && Inv(run[0]) && m < j < |acts| && acts[m].Collect? && acts[j].Join?
    requires forall i :: m < i < j ==> !acts[i].Join?
    requires k in run[m].sh.health && run[m].sh.health[k] < |run[m].sh.cells|
    requires run[m].sh.cells[run[m].sh.health[k]].next <= run[m].clock
    requires !Done(run[j].sh, run[j].dead, run[m].sh.generation)
    ensures exists i :: |run[m].log| <= i < |run[j].log| && run[j].log[i].cell == run[m].sh.health[k]
  {
    hide Inv, Step, Done, Covered;
    var id := run[m].sh.health[k];
    DueIsCollected(run[m], run[m + 1], k);
    CoveredUntil(run, acts, m + 1, j, id);
    JoinedCovered(run[j], run[j + 1], |run[m].log|, id);
  }
}
