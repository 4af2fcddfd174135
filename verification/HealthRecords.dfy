/**
 * What the history of a run says: every result that was let through is that of a probe made in the run, its verdict
 * is the one the probe's answer and its times call for, and a key is ready exactly when its last result is good.
 */
module HealthRecords {
  import opened Domain
  import opened RouteTable
  import opened HealthProtocol
  import opened HealthSafety
  import opened HealthTheorems

  // ----- verdicts -----

  /** The verdict of a probe that started and was answered at these times: 2xx, and before its deadline. */
  predicate Passed(ok: bool, started: nat, answered: nat, timeout: nat) {
    ok && answered < started + timeout
  }

  /** A probe that was answered under a context still live carries its verdict. */
  ghost predicate VerdictsOk(s: State) {
    forall w :: w in s.workers && s.workers[w].phase.Answered? && s.workers[w].cell < |s.sh.cells| &&
                !Done(s.sh, s.dead, s.workers[w].gen) ==>
      var p, timeout := s.workers[w].phase, Timeout(s.sh.cells[s.workers[w].cell].route);
      p.healthy <==> Passed(p.ok, p.started, p.answered, timeout)
  }

  /** Every result that was let through carries its verdict. */
  ghost predicate RecordsOk(s: State) {
    forall i :: 0 <= i < |s.log| && s.log[i].cell < |s.sh.cells| ==>
      var a := s.log[i];
      a.healthy <==> Passed(a.ok, a.started, a.answered, Timeout(s.sh.cells[a.cell].route))
  }

  lemma WorkerKeepsRoute(s: State, a: Action, t: State, id: nat)
    requires WorkerStep(s, a, t) && id < |s.sh.cells|
    ensures id < |t.sh.cells| && t.sh.cells[id].route == s.sh.cells[id].route
  {
    hide Done, Timeout;
  }

  lemma OwnerKeepsRoute(s: State, a: Action, t: State, id: nat)
    requires OwnerStep(s, a, t) && id < |s.sh.cells|
    ensures id < |t.sh.cells| && t.sh.cells[id].route == s.sh.cells[id].route
  {
    hide DueJobs, BirthsExtend, ResetKeys, Ready, Holding, Done;
    if a.StartOwner? { assert t.sh.cells[..|s.sh.cells|][id] == s.sh.cells[id]; }
  }

  /** A cell keeps its route for good. */
  lemma RouteKept(s: State, a: Action, t: State, id: nat)
    requires Step(s, a, t) && id < |s.sh.cells|
    ensures id < |t.sh.cells| && t.sh.cells[id].route == s.sh.cells[id].route
  {
    if WorkerStep(s, a, t) {
      hide WorkerStep, OwnerStep, OutsideStep;
      WorkerKeepsRoute(s, a, t, id);
    } else if OwnerStep(s, a, t) {
      hide WorkerStep, OwnerStep, OutsideStep;
      OwnerKeepsRoute(s, a, t, id);
    } else {
      hide WorkerStep, OwnerStep, BirthsExtend, ResetKeys, BuildTable, FreshPools, Resolve;
      if a.Reload? { assert t.sh.cells[..|s.sh.cells|][id] == s.sh.cells[id]; }
    }
  }

  /** A context that is done stays done. */
  lemma DoneStays(s: State, a: Action, t: State, g: nat)
    requires Step(s, a, t) && Done(s.sh, s.dead, g)
    ensures Done(t.sh, t.dead, g)
  {
    hide Step;
    StepForward(s, a, t);
    if g < |s.sh.parents| { assert t.sh.parents[..|s.sh.parents|][g] == s.sh.parents[g]; }
  }

  /** Only an answer gives a worker a verdict. */
  lemma AnsweredBefore(s: State, a: Action, t: State, w: nat)
    requires Step(s, a, t) && w in t.workers && t.workers[w].phase.Answered? && a != Answer(w, t.workers[w].phase.ok)
    ensures w in s.workers && s.workers[w] == t.workers[w]
  {
    hide DueJobs, BirthsExtend, Update, Start, Stop, Resolve, Ready, Holding, Publish, Admits, Done, Timeout;
  }

  lemma VerdictKept(s: State, a: Action, t: State, w: nat)
    requires Inv(s) && Step(s, a, t) && VerdictsOk(s)
    requires w in t.workers && t.workers[w].phase.Answered? && t.workers[w].cell < |t.sh.cells|
    requires !Done(t.sh, t.dead, t.workers[w].gen)
    ensures var p, timeout := t.workers[w].phase, Timeout(t.sh.cells[t.workers[w].cell].route);
            p.healthy <==> Passed(p.ok, p.started, p.answered, timeout)
  {
    hide Inv, Step, Timeout;
    if a == Answer(w, t.workers[w].phase.ok) {
      JustAnswered(s, w, t.workers[w].phase.ok, t);
    } else {
      AnsweredBefore(s, a, t, w);
      WorkerAims(s, w);
      RouteKept(s, a, t, s.workers[w].cell);
      if Done(s.sh, s.dead, s.workers[w].gen) { DoneStays(s, a, t, s.workers[w].gen); }
    }
  }

  lemma JustAnswered(s: State, w: nat, ok: bool, t: State)
    requires Step(s, Answer(w, ok), t) && w in t.workers && !Done(t.sh, t.dead, t.workers[w].gen)
    ensures t.workers[w].phase.Answered? && t.workers[w].cell < |t.sh.cells|
    ensures var p, timeout := t.workers[w].phase, Timeout(t.sh.cells[t.workers[w].cell].route);
            p.healthy <==> Passed(p.ok, p.started, p.answered, timeout)
  {
    hide Timeout;
  }

  lemma WorkerAims(s: State, w: nat)
    requires Inv(s) && w in s.workers
    ensures s.workers[w].cell < |s.sh.cells|
  {
    hide SharedOk, LogOk, CellsOk, ReadyOk, SpacedOk, TimesOk;
    assert Target(s, s.workers[w].cell, s.pc.gen);
  }

  /** The history grows by the results let through, and by nothing else. */
  lemma LogGrows(s: State, a: Action, t: State)
    requires Step(s, a, t)
    ensures t.log == s.log || (|t.log| == |s.log| + 1 && t.log[..|s.log|] == s.log && Recorded(s, a, t.log[|s.log|]))
  {
    hide DueJobs, BirthsExtend, Update, Start, Stop, Resolve, Ready, Holding;
  }

  /** The result of a worker whose probe was answered, let through at this moment under a live context. */
  ghost predicate Recorded(s: State, a: Action, r: Admission) {
    && a == Admit(r.worker) && r.worker in s.workers
    && s.workers[r.worker].phase == Answered(r.started, r.answered, r.ok, r.healthy)
    && s.workers[r.worker].cell == r.cell && s.workers[r.worker].gen == r.gen
    && r.admitted == s.clock && !Done(s.sh, s.dead, r.gen)
  }

  lemma OldRecord(s: State, a: Action, t: State, r: Admission)
    requires Inv(s) && Step(s, a, t) && RecordsOk(s) && r in s.log
    ensures r.cell < |t.sh.cells|
    ensures r.healthy <==> Passed(r.ok, r.started, r.answered, Timeout(t.sh.cells[r.cell].route))
  {
    hide Step, Timeout, Passed, SharedOk, OwnerOk, WorkersOk, TimesOk, CellsOk, ReadyOk, SpacedOk;
    var i :| 0 <= i < |s.log| && s.log[i] == r;
    assert s.log[i].cell < |s.birth|;
    RouteKept(s, a, t, r.cell);
  }

  lemma NewRecord(s: State, a: Action, t: State, r: Admission)
    requires Inv(s) && Step(s, a, t) && VerdictsOk(s) && Recorded(s, a, r)
    ensures r.cell < |t.sh.cells|
    ensures r.healthy <==> Passed(r.ok, r.started, r.answered, Timeout(t.sh.cells[r.cell].route))
  {
    hide Step, Inv, Timeout, Passed, Done;
    WorkerAims(s, r.worker);
    RouteKept(s, a, t, r.cell);
  }

  lemma RecordKept(s: State, a: Action, t: State, i: nat)
    requires Inv(s) && Step(s, a, t) && VerdictsOk(s) && RecordsOk(s)
    requires i < |t.log| && t.log[i].cell < |t.sh.cells|
    ensures var r := t.log[i];
            r.healthy <==> Passed(r.ok, r.started, r.answered, Timeout(t.sh.cells[r.cell].route))
  {
    hide Step, Inv, Timeout, Passed, VerdictsOk, RecordsOk, Recorded;
    LogGrows(s, a, t);
    if i < |s.log| {
      assert t.log[i] == if t.log == s.log then s.log[i] else t.log[..|s.log|][i];
      OldRecord(s, a, t, t.log[i]);
    } else {
      NewRecord(s, a, t, t.log[i]);
    }
  }

  lemma VerdictsKeep(s: State, a: Action, t: State)
    requires Inv(s) && Step(s, a, t) && VerdictsOk(s) && RecordsOk(s)
    ensures VerdictsOk(t) && RecordsOk(t)
  {
    hide Step, Inv, Timeout, Passed, Done;
    forall w | w in t.workers && t.workers[w].phase.Answered? && t.workers[w].cell < |t.sh.cells| &&
               !Done(t.sh, t.dead, t.workers[w].gen)
      ensures var p, timeout := t.workers[w].phase, Timeout(t.sh.cells[t.workers[w].cell].route);
              p.healthy <==> Passed(p.ok, p.started, p.answered, timeout)
    {
      VerdictKept(s, a, t, w);
    }
    forall i | 0 <= i < |t.log| && t.log[i].cell < |t.sh.cells|
      ensures var r := t.log[i];
              r.healthy <==> Passed(r.ok, r.started, r.answered, Timeout(t.sh.cells[r.cell].route))
    {
      RecordKept(s, a, t, i);
    }
  }

  /** Every result let through in a run carries the verdict its answer and its times call for. */
  lemma {:induction false} RunVerdicts(run: seq<State>, acts: seq<Action>, n: nat)
    requires IsRun(run, acts) && n < |run|
    ensures VerdictsOk(run[n]) && RecordsOk(run[n])
  {
    if n > 0 {
      RunVerdicts(run, acts, n - 1);
      RunKeeps(run, acts, n - 1);
      VerdictsKeep(run[n - 1], acts[n - 1], run[n]);
    }
  }

  // ----- which contexts are done -----

  /** The current contexts derive from the owner's, and only superseded ones were cancelled. */
  ghost predicate ParentsOk(s: State) {
    && (forall g :: g in s.sh.cancelled ==> g <= s.sh.generation)
    && (!s.pc.NoOwner? ==>
          && s.sh.generation !in s.sh.cancelled && s.sh.parent == Some(s.pc.owner)
          && s.sh.generation < |s.sh.parents| && s.sh.parents[s.sh.generation] == Some(s.pc.owner))
    && (Busy(s.pc) ==>
          s.pc.gen <= s.sh.generation && s.pc.gen < |s.sh.parents| && s.sh.parents[s.pc.gen] == Some(s.pc.owner))
  }

  lemma ResetParents(s: State, base: Shared, t: State)
    requires SharedOk(s.sh) && ParentsOk(s) && ResetStep(s, base, t)
    requires || (t.pc == s.pc && base.parent == s.sh.parent)
             || (s.pc.NoOwner? && t.pc.Waiting? && base.parent == Some(t.pc.owner))
    ensures ParentsOk(t)
  {
    assert t.sh.parents[..|s.sh.parents|] == s.sh.parents;
  }

  lemma ParentsKept(s: State, a: Action, t: State)
    requires Step(s, a, t) && ParentsOk(s) && !a.Reload? && !a.StartOwner?
    ensures ParentsOk(t)
  {
    hide DueJobs, BirthsExtend, Update, Start, Resolve, Ready, Holding, Admits, Unhealthy;
  }

  lemma ParentsKeep(s: State, a: Action, t: State)
    requires Inv(s) && Step(s, a, t) && ParentsOk(s)
    ensures ParentsOk(t)
  {
    hide ParentsOk, OwnerOk, WorkersOk, TimesOk, LogOk, CellsOk, ReadyOk, SpacedOk, BirthsOk, SharedOk, Reset,
         BirthsExtend;
    if a.Reload? {
      var base := s.sh.(table := BuildTable(a.re, a.routes), pools := FreshPools(a.routes));
      ResetParents(s, base, t);
    } else if a.StartOwner? {
      ResetParents(s, s.sh.(running := true, parent := Some(a.owner)), t);
    } else {
      ParentsKept(s, a, t);
    }
  }

  lemma {:induction false} RunParents(run: seq<State>, acts: seq<Action>, n: nat)
    requires IsRun(run, acts) && n < |run|
    ensures ParentsOk(run[n])
  {
    if n > 0 {
      RunParents(run, acts, n - 1);
      RunKeeps(run, acts, n - 1);
      ParentsKeep(run[n - 1], acts[n - 1], run[n]);
    }
  }

  /** The context of a probe is done exactly when a reload came after its sweep began, or its owner was cancelled. */
  lemma DoneExactly(run: seq<State>, acts: seq<Action>, n: nat, w: nat)
    requires IsRun(run, acts) && n < |run| && w in run[n].workers
    ensures var s := run[n];
            && !s.pc.NoOwner? && s.workers[w].gen <= s.sh.generation
            && (Done(s.sh, s.dead, s.workers[w].gen) <==> s.workers[w].gen < s.sh.generation || s.pc.owner in s.dead)
  {
    RunKeeps(run, acts, n);
    RunParents(run, acts, n);
  }

  // ----- the probes behind the records -----

  /** Worker w began its probe at this time. */
  ghost predicate Begun(run: seq<State>, acts: seq<Action>, n: nat, w: nat, started: nat)
    requires n <= |acts| && |run| == |acts| + 1
  {
    exists i :: 0 <= i < n && acts[i] == BeginProbe(w) && run[i].clock == started
  }

  /** And was answered so at this time. */
  ghost predicate Heard(run: seq<State>, acts: seq<Action>, n: nat, w: nat, started: nat, answered: nat, ok: bool)
    requires n <= |acts| && |run| == |acts| + 1
  {
    exists i :: 0 <= i < n && acts[i] == Answer(w, ok) && run[i].clock == answered && Begun(run, acts, i, w, started)
  }

  /** And its last section came at this time, its context still live. */
  ghost predicate Admitted(run: seq<State>, acts: seq<Action>, n: nat, r: Admission)
    requires n <= |acts| && |run| == |acts| + 1
  {
    exists i :: 0 <= i < n && Recorded(run[i], acts[i], r) &&
                Heard(run, acts, i, r.worker, r.started, r.answered, r.ok)
  }

  ghost predicate Traced(run: seq<State>, acts: seq<Action>, n: nat)
    requires n <= |acts| && |run| == |acts| + 1
  {
    && (forall w :: w in run[n].workers && run[n].workers[w].phase.Probing? ==>
          Begun(run, acts, n, w, run[n].workers[w].phase.started))
    && (forall w :: w in run[n].workers && run[n].workers[w].phase.Answered? ==>
          var p := run[n].workers[w].phase; Heard(run, acts, n, w, p.started, p.answered, p.ok))
    && (forall i :: 0 <= i < |run[n].log| ==> Admitted(run, acts, n, run[n].log[i]))
  }

  lemma ProbingBefore(s: State, a: Action, t: State, w: nat)
    requires Step(s, a, t) && w in t.workers && t.workers[w].phase.Probing?
    ensures if a == BeginProbe(w) then t.workers[w].phase == Probing(s.clock)
            else w in s.workers && s.workers[w] == t.workers[w]
  {
    hide DueJobs, BirthsExtend, Update, Start, Stop, Resolve, Ready, Holding, Publish, Admits, Done, Timeout;
  }

  lemma AnswerTimes(s: State, a: Action, t: State, w: nat)
    requires Step(s, a, t) && w in t.workers && t.workers[w].phase.Answered? && a == Answer(w, t.workers[w].phase.ok)
    ensures w in s.workers && s.workers[w].phase == Probing(t.workers[w].phase.started)
    ensures t.workers[w].phase.answered == s.clock
  {
    hide DueJobs, BirthsExtend, Update, Start, Stop, Resolve, Ready, Holding, Publish, Admits, Done, Timeout;
  }

  lemma BegunTraced(run: seq<State>, acts: seq<Action>, n: nat, w: nat)
    requires Steps(run, acts) && n < |acts| && Traced(run, acts, n)
    requires w in run[n + 1].workers && run[n + 1].workers[w].phase.Probing?
    ensures Begun(run, acts, n + 1, w, run[n + 1].workers[w].phase.started)
  {
    hide Step;
    ProbingBefore(run[n], acts[n], run[n + 1], w);
  }

  lemma HeardTraced(run: seq<State>, acts: seq<Action>, n: nat, w: nat)
    requires Steps(run, acts) && n < |acts| && Traced(run, acts, n)
    requires w in run[n + 1].workers && run[n + 1].workers[w].phase.Answered?
    ensures var p := run[n + 1].workers[w].phase; Heard(run, acts, n + 1, w, p.started, p.answered, p.ok)
  {
    hide Step, Begun;
    var p := run[n + 1].workers[w].phase;
    if acts[n] == Answer(w, p.ok) {
      AnswerTimes(run[n], acts[n], run[n + 1], w);
      assert Begun(run, acts, n, w, p.started);
    } else {
      AnsweredBefore(run[n], acts[n], run[n + 1], w);
      assert Heard(run, acts, n, w, p.started, p.answered, p.ok);
    }
  }

  lemma AdmittedTraced(run: seq<State>, acts: seq<Action>, n: nat, i: nat)
    requires Steps(run, acts) && n < |acts| && Traced(run, acts, n) && i < |run[n + 1].log|
    ensures Admitted(run, acts, n + 1, run[n + 1].log[i])
  {
    hide Step, Heard;
    LogGrows(run[n], acts[n], run[n + 1]);
    var r, before := run[n + 1].log[i], run[n].log;
    if i < |before| {
      assert run[n + 1].log[..|before|][i] == before[i];
      assert Admitted(run, acts, n, before[i]);
    } else {
      assert Recorded(run[n], acts[n], r) && Heard(run, acts, n, r.worker, r.started, r.answered, r.ok);
    }
  }

  /**
   * Every result let through is that of a probe of this run: begun, answered as the record says, and let through at
   * the record's times, in this order, by the worker that was launched for that very cell.
   */
  lemma {:induction false} RecordsAreProbes(run: seq<State>, acts: seq<Action>, n: nat)
    requires IsRun(run, acts) && n < |run|
    ensures Traced(run, acts, n)
  {
    hide Step, Heard, Begun, Admitted;
    if n > 0 {
      RecordsAreProbes(run, acts, n - 1);
      forall w | w in run[n].workers && run[n].workers[w].phase.Probing?
        ensures Begun(run, acts, n, w, run[n].workers[w].phase.started)
      {
        BegunTraced(run, acts, n - 1, w);
      }
      forall w | w in run[n].workers && run[n].workers[w].phase.Answered?
        ensures var p := run[n].workers[w].phase; Heard(run, acts, n, w, p.started, p.answered, p.ok)
      {
        HeardTraced(run, acts, n - 1, w);
      }
      forall i | 0 <= i < |run[n].log| ensures Admitted(run, acts, n, run[n].log[i]) {
        AdmittedTraced(run, acts, n - 1, i);
      }
    }
  }

  // ----- what "healthy" means -----

  /** The record lets a cell of generation g be healthy: probed under g, answered 2xx before its deadline. */
  predicate Vouches(r: Admission, g: nat, timeout: nat) {
    r.gen == g && r.ok && r.started <= r.answered < r.started + timeout
  }

  /**
   * In every reachable state a key is ready exactly when an owner runs and the last result let through for the key's
   * own cell vouches for it: launched under the current generation, answered 2xx before its deadline.
   */
  lemma HealthyExactly(run: seq<State>, acts: seq<Action>, n: nat, k: string)
    requires IsRun(run, acts) && n < |run| && k in run[n].sh.health
    ensures var s := run[n];
            && s.sh.health[k] < |s.sh.cells|
            && (k in Ready(s.sh) <==>
                 && s.sh.running
                 && LastFor(s.log, s.sh.health[k]).Some?
                 && Vouches(LastFor(s.log, s.sh.health[k]).value, s.sh.generation,
                            Timeout(s.sh.cells[s.sh.health[k]].route)))
  {
    RunKeeps(run, acts, n);
    RunVerdicts(run, acts, n);
    var s := run[n];
    var id := s.sh.health[k];
    LastIn(s.log, id);
    if LastFor(s.log, id).Some? {
      var m :| LastAt(s.log, id, m) && s.log[m] == LastFor(s.log, id).value;
      assert s.birth[id] == s.sh.generation;
    }
  }
}
