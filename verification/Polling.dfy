/**
 * The dashboard's polling resource: one closure's variables, changed by its reads and by the callbacks of
 * the promises it creates. A request is named by the generation it was given; the fetcher, when it settles
 * and with what, and the order in which callbacks run are arbitrary. Fetched values are never null.
 */
module Polling {
  import opened Domain

  // ----- the closure -----

  datatype View<T> = View(data: Option<T>, isLoading: bool, isRefreshing: bool, error: Option<string>)

  datatype Resource<T> = Resource(
    view: View<T>,
    controller: Option<nat>,   // the request whose abort controller is held
    inFlight: Option<nat>,     // the request whose promise is held
    generation: nat,
    disposed: bool,
    aborted: set<nat>)         // requests whose signal is aborted

  function Fresh<T>(): Resource<T> {
    Resource(View(None, true, false, None), None, None, 0, false, {})
  }

  function Abort<T>(r: Resource<T>): set<nat> {
    if r.controller.Some? then r.aborted + {r.controller.value} else r.aborted
  }

  /** What a read shows while its request is out. */
  function Waiting<T>(v: View<T>): View<T> {
    View(v.data, v.data.None?, v.data.Some?, if v.data.None? then None else v.error)
  }

  predicate StartsRequest<T>(r: Resource<T>, force: bool) {
    !r.disposed && (r.inFlight.None? || force)
  }

  function Reading<T>(r: Resource<T>, force: bool): Resource<T> {
    if !StartsRequest(r, force) then r
    else
      var current := r.generation + 1;
      Resource(Waiting(r.view), Some(current), Some(current), current, false, Abort(r))
  }

  predicate Current<T>(r: Resource<T>, current: nat) {
    !r.disposed && current == r.generation
  }

  function Fulfilled<T>(r: Resource<T>, current: nat, value: T): Resource<T> {
    if Current(r, current) then r.(view := View(Some(value), false, false, None)) else r
  }

  function ErrorText(error: Option<string>): string {
    if error.Some? then error.value else "Request failed"
  }

  function Failed<T>(r: Resource<T>, current: nat, error: Option<string>): Resource<T> {
    if Current(r, current) then r.(view := View(r.view.data, false, false, Some(ErrorText(error)))) else r
  }

  function Finalised<T>(r: Resource<T>, current: nat): Resource<T> {
    if current == r.generation then r.(controller := None, inFlight := None) else r
  }

  function Disposed<T>(r: Resource<T>): Resource<T> {
    r.(disposed := true, generation := r.generation + 1, aborted := Abort(r), controller := None, inFlight := None)
  }

  /** What a rejection shows: the error's message, or a fixed text if it is no error, beside the data there was. */
  lemma RejectionShows<T>(r: Resource<T>, message: string)
    requires Current(r, r.generation)
    ensures Failed(r, r.generation, Some(message)).view == View(r.view.data, false, false, Some(message))
    ensures Failed(r, r.generation, None).view == View(r.view.data, false, false, Some("Request failed"))
  {
  }

  /** The closure itself; changes records the calls of the observer. */
  class PollingResource<T(==, !new)> {
    var state: View<T>
    var controller: Option<nat>
    var inFlight: Option<nat>
    var generation: nat
    var disposed: bool
    var aborted: set<nat>
    var changes: seq<View<T>>

    ghost function Model(): Resource<T>
      reads this
    {
      Resource(state, controller, inFlight, generation, disposed, aborted)
    }

    constructor ()
      ensures Model() == Fresh() && changes == []
    {
      state := View(None, true, false, None);
      controller, inFlight, generation, disposed, aborted, changes := None, None, 0, false, {}, [];
    }

    method Publish(next: View<T>)
      modifies this
      ensures Model() == old(Model()).(view := next) && changes == old(changes) + [next]
    {
      state := next;
      changes := changes + [next];
    }

    method AbortController()
      modifies `aborted
      ensures Model() == old(Model()).(aborted := Abort(old(Model())))
    {
      if controller.Some? { aborted := aborted + {controller.value}; }
    }

    /** Returns the request whose promise the caller gets: a new one, the one in flight, or none after disposal. */
    method Read(force: bool) returns (promise: Option<nat>)
      modifies this
      ensures Model() == Reading(old(Model()), force)
      ensures changes == if StartsRequest(old(Model()), force) then old(changes) + [state] else old(changes)
      ensures promise == if old(disposed) then None else inFlight
      ensures !old(disposed) ==> promise.Some?
      ensures !old(disposed) && (force || old(inFlight).None?) ==>
                && generation == old(generation) + 1 && inFlight == controller == Some(generation)
                && state.data == old(state).data && (old(controller).Some? ==> old(controller).value in aborted)
    {
      if disposed { return None; }
      if inFlight.Some? && !force { return inFlight; }
      AbortController();
      var current := generation + 1;
      generation := current;
      controller := Some(current);
      Publish(View(state.data, state.data.None?, state.data.Some?, if state.data.None? then None else state.error));
      inFlight := Some(current);
      return inFlight;
    }

    method OnFulfilled(current: nat, value: T)
      modifies this
      ensures Model() == Fulfilled(old(Model()), current, value)
      ensures changes == if Current(old(Model()), current) then old(changes) + [state] else old(changes)
    {
      if disposed || current != generation { return; }
      Publish(View(Some(value), false, false, None));
    }

    method OnFailed(current: nat, error: Option<string>)
      modifies this
      ensures Model() == Failed(old(Model()), current, error)
      ensures changes == if Current(old(Model()), current) then old(changes) + [state] else old(changes)
    {
      if disposed || current != generation { return; }
      Publish(View(state.data, false, false, Some(ErrorText(error))));
    }

    method OnFinally(current: nat)
      modifies `controller, `inFlight
      ensures Model() == Finalised(old(Model()), current)
    {
      if current != generation { return; }
      controller := None;
      inFlight := None;
    }

    method Dispose()
      modifies `disposed, `generation, `aborted, `controller, `inFlight
      ensures Model() == Disposed(old(Model()))
      ensures disposed && generation == old(generation) + 1 && controller.None? && inFlight.None?
      ensures aborted == old(aborted) + if old(controller).Some? then {old(controller).value} else {}
    {
      disposed := true;
      generation := generation + 1;
      AbortController();
      controller := None;
      inFlight := None;
    }
  }

  // ----- the closure among its promises -----

  /** Where a request's promise chain is: the next callback that may run. */
  datatype Phase<T> =
    | Scheduled
    | Fetching
    | Resolved(value: T)
    | Rejected(error: Option<string>)
    | Handled
    | Finished

  /** A published result: by which request, and the value or the error. */
  datatype Result<T> = Good(request: nat, value: T) | Bad(request: nat, error: Option<string>)

  /** Request n is the n-th started, so requests[n - 1] is its phase. */
  datatype State<T> = State(
    res: Resource<T>,
    requests: seq<Phase<T>>,
    log: seq<Result<T>>)       // history: published results

  datatype Action<T> =
    | Poll
    | Retry
    | Dispose
    | Fetch(n: nat)
    | Resolve(n: nat, value: T)
    | Reject(n: nat, error: Option<string>)
    | RunThen(n: nat)
    | RunCatch(n: nat)
    | RunFinally(n: nat)

  predicate Exists<T>(s: State<T>, n: nat) {
    1 <= n <= |s.requests|
  }

  function At<T>(s: State<T>, n: nat): Phase<T>
    requires Exists(s, n)
  {
    s.requests[n - 1]
  }

  function Move<T>(s: State<T>, n: nat, phase: Phase<T>): State<T>
    requires Exists(s, n)
  {
    s.(requests := s.requests[n - 1 := phase])
  }

  function Read<T>(s: State<T>, force: bool): State<T> {
    s.(res := Reading(s.res, force),
       requests := if StartsRequest(s.res, force) then s.requests + [Scheduled] else s.requests)
  }

  function Publish<T>(s: State<T>, result: Result<T>): seq<Result<T>> {
    if Current(s.res, result.request) then s.log + [result] else s.log
  }

  predicate Step<T(==)>(s: State<T>, a: Action<T>, t: State<T>) {
    match a
    case Poll => t == Read(s, false)
    case Retry => t == Read(s, true)
    case Dispose => t == s.(res := Disposed(s.res))
    case Fetch(n) => Exists(s, n) && At(s, n).Scheduled? && t == Move(s, n, Fetching)
    case Resolve(n, v) => Exists(s, n) && At(s, n).Fetching? && t == Move(s, n, Resolved(v))
    case Reject(n, e) =>
      Exists(s, n) && (At(s, n).Fetching? || At(s, n).Scheduled?) && t == Move(s, n, Rejected(e))
    case RunThen(n) =>
      Exists(s, n) && At(s, n).Resolved? &&
      t == Move(s, n, Handled).(res := Fulfilled(s.res, n, At(s, n).value), log := Publish(s, Good(n, At(s, n).value)))
    case RunCatch(n) =>
      Exists(s, n) && At(s, n).Rejected? &&
      t == Move(s, n, Handled).(res := Failed(s.res, n, At(s, n).error), log := Publish(s, Bad(n, At(s, n).error)))
    case RunFinally(n) =>
      Exists(s, n) && At(s, n).Handled? && t == Move(s, n, Finished).(res := Finalised(s.res, n))
  }

  ghost predicate IsRun<T>(run: seq<State<T>>, acts: seq<Action<T>>) {
    && |run| == |acts| + 1
    && run[0] == State(Fresh(), [], [])
    && forall i :: 0 <= i < |acts| ==> Step(run[i], acts[i], run[i + 1])
  }

  // ----- invariants -----

  predicate Settled<T>(s: State<T>, n: nat) {
    Exists(s, n) && (At(s, n).Handled? || At(s, n).Finished?)
  }

  /** The newest request's outcome is still to come. */
  predicate Pending<T>(s: State<T>) {
    s.requests != [] && !Settled(s, |s.requests|)
  }

  function LastGood<T>(log: seq<Result<T>>): Option<T> {
    if log == [] then None
    else if log[|log| - 1].Good? then Some(log[|log| - 1].value)
    else LastGood(log[..|log| - 1])
  }

  /**
   * The error shown: the last result's, unless it is a value, or nothing was ever fetched and a newer request is out.
   */
  function ShownError<T>(log: seq<Result<T>>, pending: bool): Option<string> {
    if log == [] || log[|log| - 1].Good? || (pending && LastGood(log).None?) then None
    else Some(ErrorText(log[|log| - 1].error))
  }

  /** The view as a reader of the history expects it. */
  function Expected<T>(log: seq<Result<T>>, pending: bool): View<T> {
    var data := LastGood(log);
    View(data, pending && data.None?, pending && data.Some?, ShownError(log, pending))
  }

  ghost predicate GenerationOk<T>(s: State<T>) {
    && (!s.res.disposed ==> s.res.generation == |s.requests|)
    && (s.res.disposed ==> s.res.generation > |s.requests| && s.res.controller.None? && s.res.inFlight.None?)
    && (s.res.controller.Some? ==> s.requests != [] && s.res.controller == Some(|s.requests|))
    && (s.res.inFlight == s.res.controller)
  }

  ghost predicate HandlesOk<T>(s: State<T>) {
    !s.res.disposed && s.requests != [] ==>
      (At(s, |s.requests|).Finished? <==> s.res.controller.None?)
  }

  /** Every request but a live newest one is aborted or settled. */
  ghost predicate AbortsOk<T>(s: State<T>) {
    forall n: nat :: Exists(s, n) && (n < |s.requests| || s.res.disposed) ==> n in s.res.aborted || Settled(s, n)
  }

  /** Results were published in the order of their requests, each by a request that is now settled. */
  ghost predicate LogOk<T>(s: State<T>) {
    && (forall i, j :: 0 <= i < j < |s.log| ==> s.log[i].request < s.log[j].request)
    && (forall i :: 0 <= i < |s.log| ==> Settled(s, s.log[i].request))
  }

  ghost predicate ViewOk<T>(s: State<T>) {
    !s.res.disposed ==> s.res.view == Expected(s.log, s.requests == [] || Pending(s))
  }

  /** While nothing is disposed, a settled newest request is the one that published last. */
  ghost predicate NewestOk<T>(s: State<T>) {
    !s.res.disposed && s.requests != [] && !Pending(s) ==> s.log != [] && s.log[|s.log| - 1].request == |s.requests|
  }

  ghost predicate Inv<T>(s: State<T>) {
    GenerationOk(s) && HandlesOk(s) && AbortsOk(s) && LogOk(s) && ViewOk(s) && NewestOk(s)
  }

  lemma LastGoodSnoc<T>(log: seq<Result<T>>, r: Result<T>)
    ensures LastGood(log + [r]) == if r.Good? then Some(r.value) else LastGood(log)
  {
    assert (log + [r])[..|log|] == log;
  }

  lemma ReadKeeps<T>(s: State<T>, force: bool, t: State<T>)
    requires Inv(s) && t == Read(s, force)
    ensures Inv(t)
  {
    if StartsRequest(s.res, force) {
      forall n: nat | Exists(t, n) && n < |t.requests|
        ensures At(t, n) == At(s, n) && (n in t.res.aborted || Settled(t, n))
      {
        if n == |s.requests| && !Settled(s, n) { assert s.res.controller == Some(n); }
      }
    }
  }

  /** Moving a request along, settled as before, changes nothing the invariants see but its handles. */
  lemma MoveKeeps<T>(s: State<T>, n: nat, phase: Phase<T>, t: State<T>)
    requires Inv(s) && Exists(s, n) && t == Move(s, n, phase)
    requires (At(s, n).Handled? || At(s, n).Finished? <==> phase.Handled? || phase.Finished?) && !At(s, n).Finished?
    requires !phase.Finished?
    ensures Inv(t)
  {
    forall m: nat | Exists(t, m) ensures Settled(t, m) <==> Settled(s, m) {}
  }

  lemma FinallyKeeps<T>(s: State<T>, n: nat, t: State<T>)
    requires Inv(s) && Step(s, RunFinally(n), t)
    ensures Inv(t)
  {
    forall m: nat | Exists(t, m) ensures Settled(t, m) <==> Settled(s, m) {}
  }

  lemma DisposeKeeps<T>(s: State<T>, t: State<T>)
    requires Inv(s) && t == s.(res := Disposed(s.res))
    ensures Inv(t)
  {
    forall n: nat | Exists(t, n) ensures n in t.res.aborted || Settled(t, n) {
      assert Settled(t, n) <==> Settled(s, n);
      if n == |s.requests| && !s.res.disposed && !Settled(s, n) { assert s.res.controller == Some(n); }
    }
    assert forall i :: 0 <= i < |s.log| ==> Settled(s, s.log[i].request) && Settled(t, s.log[i].request);
  }

  /** A result that came too late is dropped. */
  lemma LateKeeps<T>(s: State<T>, n: nat, t: State<T>)
    requires Inv(s) && Exists(s, n) && !Settled(s, n) && !Current(s.res, n) && t == Move(s, n, Handled)
    ensures Inv(t)
  {
    forall m: nat | Exists(t, m) ensures Settled(t, m) <==> Settled(s, m) || m == n {}
  }

  lemma ShownKeeps<T>(s: State<T>, n: nat, result: Result<T>, t: State<T>)
    requires Inv(s) && Exists(s, n) && !Settled(s, n) && Current(s.res, n) && result.request == n
    requires t == Move(s, n, Handled).(
               res := if result.Good? then Fulfilled(s.res, n, result.value) else Failed(s.res, n, result.error),
               log := s.log + [result])
    ensures Inv(t)
  {
    forall m: nat | Exists(t, m) ensures Settled(t, m) <==> Settled(s, m) || m == n {}
    LastGoodSnoc(s.log, result);
    assert forall i :: 0 <= i < |s.log| ==> s.log[i].request != n;
  }

  lemma ResultKeeps<T>(s: State<T>, a: Action<T>, t: State<T>)
    requires Inv(s) && Step(s, a, t) && (a.RunThen? || a.RunCatch?)
    ensures Inv(t)
  {
    if !Current(s.res, a.n) { LateKeeps(s, a.n, t); }
    else if a.RunThen? { ShownKeeps(s, a.n, Good(a.n, At(s, a.n).value), t); }
    else { ShownKeeps(s, a.n, Bad(a.n, At(s, a.n).error), t); }
  }

  lemma StepKeeps<T>(s: State<T>, a: Action<T>, t: State<T>)
    requires Inv(s) && Step(s, a, t)
    ensures Inv(t)
  {
    if a.Poll? { ReadKeeps(s, false, t); }
    else if a.Retry? { ReadKeeps(s, true, t); }
    else if a.RunThen? || a.RunCatch? { ResultKeeps(s, a, t); }
    else if a.RunFinally? { FinallyKeeps(s, a.n, t); }
    else if a.Dispose? { DisposeKeeps(s, t); }
    else { MoveKeeps(s, a.n, At(t, a.n), t); }
  }

  lemma {:induction false} RunKeeps<T>(run: seq<State<T>>, acts: seq<Action<T>>, n: nat)
    requires IsRun(run, acts) && n < |run|
    ensures Inv(run[n])
  {
    if n > 0 {
      RunKeeps(run, acts, n - 1);
      StepKeeps(run[n - 1], acts[n - 1], run[n]);
    }
  }

  // ----- what a user of the resource relies on -----

  /** Results are published in request order: once one is shown, no older request's result ever replaces it. */
  lemma OnlyNewestPublishes<T>(run: seq<State<T>>, acts: seq<Action<T>>, k: nat)
    requires IsRun(run, acts) && k < |acts|
    ensures var s, t := run[k], run[k + 1];
            && (forall i, j :: 0 <= i < j < |t.log| ==> t.log[i].request < t.log[j].request)
            && (t.log != s.log ==>
                  && (acts[k].RunThen? || acts[k].RunCatch?)
                  && !s.res.disposed && acts[k].n == |s.requests| && Pending(s)
                  && |t.log| == |s.log| + 1 && t.log[..|s.log|] == s.log && t.log[|s.log|].request == acts[k].n)
            && (t.res.view != s.res.view ==> t.log != s.log || |t.requests| == |s.requests| + 1)
  {
    RunKeeps(run, acts, k);
    RunKeeps(run, acts, k + 1);
  }

  /** The view is at every moment what the history calls for: the last value fetched, loading or refreshing
      exactly while the newest request's outcome is to come, and the last error. */
  lemma ViewExactly<T>(run: seq<State<T>>, acts: seq<Action<T>>, k: nat)
    requires IsRun(run, acts) && k < |run| && !run[k].res.disposed && run[k].requests != []
    ensures var s := run[k];
            && s.res.view == Expected(s.log, Pending(s))
            && (s.res.view.isLoading || s.res.view.isRefreshing <==> Pending(s))
            && !(s.res.view.isLoading && s.res.view.isRefreshing)
  {
    RunKeeps(run, acts, k);
  }

  /** At most one request is neither aborted nor settled, and after disposal none. */
  lemma OneLiveRequest<T>(run: seq<State<T>>, acts: seq<Action<T>>, k: nat, m: nat, n: nat)
    requires IsRun(run, acts) && k < |run|
    requires Exists(run[k], m) && m !in run[k].res.aborted && !Settled(run[k], m)
    requires Exists(run[k], n) && n !in run[k].res.aborted && !Settled(run[k], n)
    ensures m == n && !run[k].res.disposed && n == |run[k].requests|
  {
    RunKeeps(run, acts, k);
  }

  /** A poll joins the request in flight; only a retry, or a poll with nothing in flight, starts one. */
  lemma PollJoins<T>(run: seq<State<T>>, acts: seq<Action<T>>, k: nat)
    requires IsRun(run, acts) && k < |acts| && acts[k].Poll?
    ensures var s, t := run[k], run[k + 1];
            if s.res.disposed || (s.requests != [] && !At(s, |s.requests|).Finished?) then t == s
            else |t.requests| == |s.requests| + 1 && Pending(t)
  {
    RunKeeps(run, acts, k);
  }

  /** After disposal the view never changes and nothing is published or started. */
  lemma NothingAfterDispose<T>(run: seq<State<T>>, acts: seq<Action<T>>, k: nat, m: nat)
    requires IsRun(run, acts) && k <= m < |run| && run[k].res.disposed
    ensures run[m].res.disposed && run[m].res.view == run[k].res.view && run[m].log == run[k].log
    ensures |run[m].requests| == |run[k].requests|
    decreases m - k
  {
    if k < m {
      assert Step(run[k], acts[k], run[k + 1]);
      NothingAfterDispose(run, acts, k + 1, m);
    }
  }

  /** Data, once fetched, never becomes null again. */
  lemma DataStays<T>(run: seq<State<T>>, acts: seq<Action<T>>, k: nat, m: nat)
    requires IsRun(run, acts) && k <= m < |run| && run[k].res.view.data.Some?
    ensures run[m].res.view.data.Some?
    decreases m - k
  {
    if k < m {
      assert Step(run[k], acts[k], run[k + 1]);
      DataStays(run, acts, k + 1, m);
    }
  }

  /** A retry always starts a request of its own, and leaves every other unsettled one aborted. */
  lemma RetrySupersedes<T>(run: seq<State<T>>, acts: seq<Action<T>>, k: nat)
    requires IsRun(run, acts) && k < |acts| && acts[k].Retry? && !run[k].res.disposed
    ensures var s, t := run[k], run[k + 1];
            var v, w := s.res.view, t.res.view;
            && t.requests == s.requests + [Scheduled] && t.log == s.log && !t.res.disposed
            && t.res.inFlight == Some(|t.requests|)
            && (forall n: nat :: Exists(s, n) && !Settled(s, n) ==> n in t.res.aborted)
            && w.data == v.data && (w.isLoading <==> v.data.None?) && (w.isRefreshing <==> v.data.Some?)
            && w.error == if v.data.Some? then v.error else None
  {
    RunKeeps(run, acts, k);
    RunKeeps(run, acts, k + 1);
    var s, t := run[k], run[k + 1];
    forall n: nat | Exists(s, n) && !Settled(s, n) ensures n in t.res.aborted {
      assert Exists(t, n) && At(t, n) == At(s, n);
    }
  }

  /** Disposal aborts whatever is not settled, and drops both handles. */
  lemma DisposeAborts<T>(run: seq<State<T>>, acts: seq<Action<T>>, k: nat)
    requires IsRun(run, acts) && k < |acts| && acts[k].Dispose?
    ensures var s, t := run[k], run[k + 1];
            && t.res.disposed && t.res.view == s.res.view && t.res.controller.None? && t.res.inFlight.None?
            && forall n: nat :: Exists(s, n) && !Settled(s, n) ==> n in t.res.aborted
  {
    RunKeeps(run, acts, k + 1);
    var s, t := run[k], run[k + 1];
    forall n: nat | Exists(s, n) && !Settled(s, n) ensures n in t.res.aborted {
      assert Exists(t, n) && At(t, n) == At(s, n);
    }
  }

  /** A promise chain is never stuck: the fetcher may throw or be awaited, and either outcome runs on to its end. */
  lemma ChainsRun<T>(s: State<T>, n: nat, value: T, error: Option<string>)
    requires Exists(s, n)
    ensures At(s, n).Scheduled? ==> Step(s, Fetch(n), Move(s, n, Fetching))
    ensures At(s, n).Scheduled? || At(s, n).Fetching? ==> Step(s, Reject(n, error), Move(s, n, Rejected(error)))
    ensures At(s, n).Fetching? ==> Step(s, Resolve(n, value), Move(s, n, Resolved(value)))
    ensures At(s, n).Resolved? ==> exists t :: Step(s, RunThen(n), t) && At(t, n).Handled?
    ensures At(s, n).Rejected? ==> exists t :: Step(s, RunCatch(n), t) && At(t, n).Handled?
    ensures At(s, n).Handled? ==> exists t :: Step(s, RunFinally(n), t) && At(t, n).Finished?
  {
    if At(s, n).Resolved? {
      var good := Good(n, At(s, n).value);
      assert Step(s, RunThen(n), Move(s, n, Handled).(res := Fulfilled(s.res, n, good.value), log := Publish(s, good)));
    } else if At(s, n).Rejected? {
      var bad := Bad(n, At(s, n).error);
      assert Step(s, RunCatch(n), Move(s, n, Handled).(res := Failed(s.res, n, bad.error), log := Publish(s, bad)));
    } else if At(s, n).Handled? {
      assert Step(s, RunFinally(n), Move(s, n, Finished).(res := Finalised(s.res, n)));
    }
  }

  // ----- results are outcomes -----

  /** What the fetcher of request n came to before step k. */
  ghost predicate Fetched<T>(acts: seq<Action<T>>, k: nat, n: nat, value: T)
    requires k <= |acts|
  {
    exists i :: 0 <= i < k && acts[i] == Resolve(n, value)
  }

  ghost predicate Thrown<T>(acts: seq<Action<T>>, k: nat, n: nat, error: Option<string>)
    requires k <= |acts|
  {
    exists i :: 0 <= i < k && acts[i] == Reject(n, error)
  }

  ghost predicate OutcomesOk<T>(s: State<T>, acts: seq<Action<T>>, k: nat)
    requires k <= |acts|
  {
    && (forall n: nat :: Exists(s, n) && At(s, n).Resolved? ==> Fetched(acts, k, n, At(s, n).value))
    && (forall n: nat :: Exists(s, n) && At(s, n).Rejected? ==> Thrown(acts, k, n, At(s, n).error))
    && (forall i :: 0 <= i < |s.log| ==>
          if s.log[i].Good? then Fetched(acts, k, s.log[i].request, s.log[i].value)
          else Thrown(acts, k, s.log[i].request, s.log[i].error))
  }

  lemma FetchedKept<T>(acts: seq<Action<T>>, k: nat, n: nat, value: T)
    requires k < |acts|
    ensures Fetched(acts, k, n, value) || acts[k] == Resolve(n, value) ==> Fetched(acts, k + 1, n, value)
  {
  }

  lemma ThrownKept<T>(acts: seq<Action<T>>, k: nat, n: nat, error: Option<string>)
    requires k < |acts|
    ensures Thrown(acts, k, n, error) || acts[k] == Reject(n, error) ==> Thrown(acts, k + 1, n, error)
  {
  }

  lemma OutcomeNext<T>(s: State<T>, t: State<T>, acts: seq<Action<T>>, k: nat, n: nat)
    requires k < |acts| && Step(s, acts[k], t) && OutcomesOk(s, acts, k) && Exists(t, n)
    ensures At(t, n).Resolved? ==> Fetched(acts, k + 1, n, At(t, n).value)
    ensures At(t, n).Rejected? ==> Thrown(acts, k + 1, n, At(t, n).error)
  {
    hide Fetched, Thrown, Reading, Fulfilled, Failed, Finalised, Disposed;
    if At(t, n).Resolved? {
      FetchedKept(acts, k, n, At(t, n).value);
      if acts[k] != Resolve(n, At(t, n).value) { assert Exists(s, n) && At(s, n) == At(t, n); }
    } else if At(t, n).Rejected? {
      if acts[k] != Reject(n, At(t, n).error) { assert Exists(s, n) && At(s, n) == At(t, n); }
      ThrownKept(acts, k, n, At(t, n).error);
    }
  }

  lemma LogNext<T>(s: State<T>, t: State<T>, acts: seq<Action<T>>, k: nat, i: nat)
    requires k < |acts| && Step(s, acts[k], t) && OutcomesOk(s, acts, k) && i < |t.log|
    ensures if t.log[i].Good? then Fetched(acts, k + 1, t.log[i].request, t.log[i].value)
            else Thrown(acts, k + 1, t.log[i].request, t.log[i].error)
  {
    hide Fetched, Thrown, Reading, Fulfilled, Failed, Finalised, Disposed;
    var r := t.log[i];
    assert i < |s.log| ==> r == s.log[i];
    if r.Good? {
      FetchedKept(acts, k, r.request, r.value);
    } else {
      ThrownKept(acts, k, r.request, r.error);
    }
  }

  lemma OutcomesKeep<T>(s: State<T>, t: State<T>, acts: seq<Action<T>>, k: nat)
    requires k < |acts| && Step(s, acts[k], t) && OutcomesOk(s, acts, k)
    ensures OutcomesOk(t, acts, k + 1)
  {
    hide Fetched, Thrown, Step;
    forall n: nat | Exists(t, n)
      ensures At(t, n).Resolved? ==> Fetched(acts, k + 1, n, At(t, n).value)
      ensures At(t, n).Rejected? ==> Thrown(acts, k + 1, n, At(t, n).error)
    {
      OutcomeNext(s, t, acts, k, n);
    }
    forall i | 0 <= i < |t.log|
      ensures if t.log[i].Good? then Fetched(acts, k + 1, t.log[i].request, t.log[i].value)
              else Thrown(acts, k + 1, t.log[i].request, t.log[i].error)
    {
      LogNext(s, t, acts, k, i);
    }
  }

  /** Every published result is what the fetcher of its request came to, in this run. */
  lemma {:induction false} ResultsAreOutcomes<T>(run: seq<State<T>>, acts: seq<Action<T>>, k: nat)
    requires IsRun(run, acts) && k < |run|
    ensures OutcomesOk(run[k], acts, k)
  {
    if k > 0 {
      ResultsAreOutcomes(run, acts, k - 1);
      OutcomesKeep(run[k - 1], run[k], acts, k - 1);
    }
  }
}
