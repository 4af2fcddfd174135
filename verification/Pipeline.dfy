/**
 * From provider messages to the router: the process configuration's checks, whole-message admission,
 * the initial load and the two watchers.
 */
module Pipeline {
  import opened Domain
  import opened Sequences
  import RT = RouteTable
  import A = Aggregator

  // ----- the process configuration -----

  /** An address as the address parser reads it. */
  datatype Ip = Ip(loopback: bool)

  datatype ConfigError = LoopbackNeedsStatic | NotLoopback | RedirectForbidden | ViteForbidden | BadPorts

  class Config {
    var listenPort: int
    var httpPort: int
    var viteDevURL: string
    var portRedirect: bool
    var staticOnly: bool
    var loopbackAddress: string

    constructor (listenPort: int, httpPort: int, viteDevURL: string, portRedirect: bool, staticOnly: bool,
                 loopbackAddress: string)
      ensures this.listenPort == listenPort && this.httpPort == httpPort && this.viteDevURL == viteDevURL
      ensures this.portRedirect == portRedirect && this.staticOnly == staticOnly
      ensures this.loopbackAddress == loopbackAddress
    {
      this.listenPort, this.httpPort, this.viteDevURL := listenPort, httpPort, viteDevURL;
      this.portRedirect, this.staticOnly, this.loopbackAddress := portRedirect, staticOnly, loopbackAddress;
    }

    /**
     * Fill in the default address, then check: static-only needs a loopback address, two proper and distinct ports,
     * nothing redirected and no development server.
     */
    method Validate(parse: string -> Option<Ip>) returns (err: Option<ConfigError>)
      modifies `loopbackAddress
      ensures loopbackAddress == if staticOnly && old(loopbackAddress) == "" then "127.0.0.1" else old(loopbackAddress)
      ensures staticOnly ==>
                (err.None? <==>
                  && parse(loopbackAddress).Some? && parse(loopbackAddress).value.loopback
                  && !portRedirect && viteDevURL == ""
                  && 1 <= listenPort <= 65535 && 1 <= httpPort <= 65535 && listenPort != httpPort)
      ensures !staticOnly ==> (err.None? <==> loopbackAddress == "")
    {
      if !staticOnly {
        if loopbackAddress != "" { return Some(LoopbackNeedsStatic); }
        return None;
      }
      if loopbackAddress == "" { loopbackAddress := "127.0.0.1"; }
      var ip := parse(loopbackAddress);
      if ip.None? || !ip.value.loopback { return Some(NotLoopback); }
      if portRedirect { return Some(RedirectForbidden); }
      if viteDevURL != "" { return Some(ViteForbidden); }
      if listenPort < 1 || listenPort > 65535 || httpPort < 1 || httpPort > 65535 || listenPort == httpPort {
        return Some(BadPorts);
      }
      return None;
    }

    /** Admitted as a whole or refused as a whole, for the first reason there is. */
    method ValidateMessage(msg: Message) returns (err: Option<MessageError>)
      ensures err.None? <==> Admissible(staticOnly, msg)
      ensures err.Some? && err.value.ProviderFailed? <==> msg.err.Some?
      ensures err.Some? && err.value.OnlyFileProvider? ==> staticOnly && msg.providerName != "file"
      ensures err.Some? && err.value.NoTcpOrPassthrough? ==>
              staticOnly && (msg.tcpRoutes != [] || msg.passthrough != [])
      ensures err == RejectMessage(staticOnly, msg)
    {
      if msg.err.Some? { return Some(ProviderFailed(msg.err.value)); }
      if !staticOnly { return None; }
      if msg.providerName != "file" { return Some(OnlyFileProvider); }
      if |msg.tcpRoutes| != 0 || |msg.passthrough| != 0 { return Some(NoTcpOrPassthrough); }
      return None;
    }
  }

  datatype MessageError = ProviderFailed(err: string) | OnlyFileProvider | NoTcpOrPassthrough

  /** A message without an error; in static-only mode one of the file provider, with HTTP routes alone. */
  predicate Admissible(staticOnly: bool, msg: Message) {
    && msg.err.None?
    && (staticOnly ==> msg.providerName == "file" && msg.tcpRoutes == [] && msg.passthrough == [])
  }

  /** Why a whole message is refused, if it is. */
  function RejectMessage(staticOnly: bool, msg: Message): Option<MessageError> {
    if msg.err.Some? then Some(ProviderFailed(msg.err.value))
    else if !staticOnly then None
    else if msg.providerName != "file" then Some(OnlyFileProvider)
    else if msg.tcpRoutes != [] || msg.passthrough != [] then Some(NoTcpOrPassthrough)
    else None
  }

  // ----- the pipeline as a state machine -----

  datatype Phase = Starting | Failed | Running

  datatype State = State(
    staticOnly: bool,
    phase: Phase,
    agg: A.State,
    pending: Option<nat>,         // received by the second watcher, not yet applied
    applied: Option<nat>,         // the merge whose routes the router was last given
    tcpRoutes: seq<TcpRoute>,
    accepted: seq<Message>)       // history: every admitted message

  datatype Action =
    | InitialLoad(msg: Message)
    | Deliver(msg: Message)
    | AggregatorMove(a: A.Action)
    | Take
    | Apply

  ghost predicate Init(s: State) {
    s.phase.Starting? && s.agg == A.State(map[], [], A.Idle, None, []) && s.pending == None && s.applied == None
    && s.tcpRoutes == [] && s.accepted == []
  }

  ghost predicate Step(s: State, a: Action, t: State) {
    match a
    case InitialLoad(msg) =>
      // One goroutine: check, aggregate, receive the merge and apply it; a refusal ends the program.
      && s.phase.Starting?
      && if RejectMessage(s.staticOnly, msg).Some? then t == s.(phase := Failed)
         else
           var configs := map[msg.providerName := msg];
           && |t.agg.merges| == 1 && A.IsMerge(configs, t.agg.merges[0])
           && t == s.(phase := Running, agg := A.State(configs, t.agg.merges, A.Idle, None, [0]), applied := Some(0),
                      tcpRoutes := t.agg.merges[0].tcpRoutes, accepted := [msg])
    case Deliver(msg) =>
      && s.phase.Running? && s.agg.pc.Idle?
      && if RejectMessage(s.staticOnly, msg).Some? then t == s
         else A.Step(s.agg, A.Begin(msg), t.agg) && t == s.(agg := t.agg, accepted := s.accepted + [msg])
    case AggregatorMove(b) =>
      && s.phase.Running? && !b.Begin? && !b.Receive?
      && A.Step(s.agg, b, t.agg) && t == s.(agg := t.agg)
    case Take =>
      && s.phase.Running? && s.pending.None? && s.agg.queue.Some?
      && A.Step(s.agg, A.Receive, t.agg) && t == s.(agg := t.agg, pending := s.agg.queue)
    case Apply =>
      && s.phase.Running? && s.pending.Some? && s.pending.value < |s.agg.merges|
      && t == s.(pending := None, applied := s.pending,
                 tcpRoutes := if s.staticOnly then s.tcpRoutes else s.agg.merges[s.pending.value].tcpRoutes)
  }

  /** The last admitted message of each provider. */
  function LastAccepted(msgs: seq<Message>): map<string, Message> {
    if msgs == [] then map[]
    else LastAccepted(msgs[..|msgs| - 1])[msgs[|msgs| - 1].providerName := msgs[|msgs| - 1]]
  }

  /** What LastAccepted means, without its recursion. */
  lemma {:induction false} LastAcceptedIsLast(msgs: seq<Message>, p: string, m: Message)
    ensures p in LastAccepted(msgs) && LastAccepted(msgs)[p] == m <==>
            exists i :: 0 <= i < |msgs| && msgs[i] == m && IsLastOf(msgs, p, i)
  {
    if msgs != [] {
      var n := |msgs| - 1;
      LastAcceptedIsLast(msgs[..n], p, m);
      if msgs[n].providerName == p {
        assert IsLastOf(msgs, p, n);
      } else {
        if i :| 0 <= i < |msgs| && msgs[i] == m && IsLastOf(msgs, p, i) {
          assert msgs[..n][i] == m && IsLastOf(msgs[..n], p, i);
        }
        if i :| 0 <= i < n && msgs[..n][i] == m && IsLastOf(msgs[..n], p, i) {
          assert msgs[i] == m && IsLastOf(msgs, p, i);
        }
      }
    }
  }

  ghost predicate IsLastOf(msgs: seq<Message>, p: string, i: int) {
    0 <= i < |msgs| && msgs[i].providerName == p && forall j :: i < j < |msgs| ==> msgs[j].providerName != p
  }

  /** The merges made are those of the admitted messages, one after each. */
  ghost predicate HistoryOk(s: State) {
    && |s.agg.merges| == |s.accepted|
    && s.agg.configs == LastAccepted(s.accepted)
    && (forall i :: 0 <= i < |s.accepted| ==> RejectMessage(s.staticOnly, s.accepted[i]).None?)
    && (forall i :: 0 <= i < |s.accepted| ==> CurrentAfter(s.accepted, i, s.agg.merges[i]))
  }

  /** What was received last is pending or applied. */
  ghost predicate ProgressOk(s: State) {
    && (s.phase.Running? <==> s.accepted != [])
    && (!s.phase.Running? ==> s.pending.None?)
    && (s.phase.Running? ==>
          && s.applied.Some? && s.applied.value < |s.agg.merges| && s.agg.received != []
          && (s.pending.Some? ==> s.pending.value == s.agg.received[|s.agg.received| - 1])
          && (s.pending.None? ==> s.applied.value == s.agg.received[|s.agg.received| - 1])
          && (!s.staticOnly ==> s.tcpRoutes == s.agg.merges[s.applied.value].tcpRoutes)
          && (s.staticOnly ==> s.tcpRoutes == s.agg.merges[0].tcpRoutes))
  }

  ghost predicate Inv(s: State) {
    A.Inv(s.agg) && HistoryOk(s) && ProgressOk(s)
  }

  lemma HistoryGrows(s: State, msg: Message, t: State)
    requires Inv(s) && s.phase.Running? && Step(s, Deliver(msg), t) && RejectMessage(s.staticOnly, msg).None?
    ensures HistoryOk(t)
  {
    var n := |s.accepted|;
    assert t.accepted[..n] == s.accepted;
    forall i | 0 <= i < |t.accepted| ensures CurrentAfter(t.accepted, i, t.agg.merges[i]) {
      if i < n {
        assert t.accepted[..i + 1] == s.accepted[..i + 1];
        assert CurrentAfter(s.accepted, i, s.agg.merges[i]);
      } else {
        assert t.accepted[..n + 1] == t.accepted;
      }
    }
  }

  lemma MergeGrows(s: State, msg: Message, t: State)
    requires Inv(s) && Step(s, Deliver(msg), t)
    ensures Inv(t)
  {
    if RejectMessage(s.staticOnly, msg).None? {
      A.StepKeeps(s.agg, A.Begin(msg), t.agg);
      HistoryGrows(s, msg, t);
    }
  }

  lemma LastOfOne(msg: Message)
    ensures LastAccepted([msg]) == map[msg.providerName := msg]
  {
    assert [msg][..0] == [];
    assert LastAccepted([msg]) == LastAccepted([msg][..0])[msg.providerName := msg];
  }

  lemma FirstLoad(s: State, msg: Message, t: State)
    requires Inv(s) && Step(s, InitialLoad(msg), t)
    ensures Inv(t)
  {
    if RejectMessage(s.staticOnly, msg).None? {
      LastOfOne(msg);
      assert t.accepted == [msg] && [msg][..1] == [msg];
      assert A.Inv(t.agg);
    }
  }

  lemma MoveKeeps(s: State, b: A.Action, t: State)
    requires Inv(s) && Step(s, AggregatorMove(b), t)
    ensures Inv(t)
  {
    A.StepKeeps(s.agg, b, t.agg);
  }

  lemma TakeKeeps(s: State, t: State)
    requires Inv(s) && Step(s, Take, t)
    ensures Inv(t)
  {
    A.StepKeeps(s.agg, A.Receive, t.agg);
  }

  lemma ApplyKeeps(s: State, t: State)
    requires Inv(s) && Step(s, Apply, t)
    ensures Inv(t)
  {
  }

  lemma StepKeeps(s: State, a: Action, t: State)
    requires Inv(s) && Step(s, a, t)
    ensures Inv(t)
  {
    hide Inv, Step;
    if a.InitialLoad? { FirstLoad(s, a.msg, t); }
    else if a.Deliver? { MergeGrows(s, a.msg, t); }
    else if a.AggregatorMove? { MoveKeeps(s, a.a, t); }
    else if a.Take? { TakeKeeps(s, t); }
    else { ApplyKeeps(s, t); }
  }

  ghost predicate IsRun(run: seq<State>, acts: seq<Action>) {
    && |run| == |acts| + 1 && Init(run[0])
    && forall i :: 0 <= i < |acts| ==> Step(run[i], acts[i], run[i + 1])
  }

  lemma {:induction false} RunKeeps(run: seq<State>, acts: seq<Action>, n: nat)
    requires IsRun(run, acts) && n < |run|
    ensures Inv(run[n])
  {
    if n > 0 {
      RunKeeps(run, acts, n - 1);
      StepKeeps(run[n - 1], acts[n - 1], run[n]);
    }
  }

  /** Nothing is on its way from the aggregator to the router. */
  predicate Drained(s: State) {
    s.phase.Running? && s.agg.pc.Idle? && s.agg.queue.None? && s.pending.None?
  }

  function Given(s: State): A.Configuration {
    if s.applied.Some? && s.applied.value < |s.agg.merges| then s.agg.merges[s.applied.value] else A.EMPTY
  }

  lemma DrainedMerge(s: State)
    requires Inv(s) && Drained(s)
    ensures A.IsMerge(LastAccepted(s.accepted), Given(s))
    ensures !s.staticOnly ==> s.tcpRoutes == Given(s).tcpRoutes
  {
    assert s.accepted[..|s.accepted|] == s.accepted;
    assert CurrentAfter(s.accepted, |s.accepted| - 1, s.agg.merges[|s.accepted| - 1]);
  }

  /** Once drained, the router was given a merge of exactly the last admitted message of each provider. */
  lemma DrainedIsLastAccepted(run: seq<State>, acts: seq<Action>, n: nat)
    requires IsRun(run, acts) && n < |run| && Drained(run[n])
    ensures A.IsMerge(LastAccepted(run[n].accepted), Given(run[n]))
    ensures !run[n].staticOnly ==> run[n].tcpRoutes == Given(run[n]).tcpRoutes
  {
    RunKeeps(run, acts, n);
    DrainedMerge(run[n]);
  }

  /** Even before that, the router was given a merge of the last admitted messages of some earlier moment. */
  lemma GivenWasAccepted(run: seq<State>, acts: seq<Action>, n: nat)
    requires IsRun(run, acts) && n < |run| && run[n].phase.Running?
    ensures exists i :: CurrentAfter(run[n].accepted, i, Given(run[n]))
  {
    RunKeeps(run, acts, n);
    assert CurrentAfter(run[n].accepted, run[n].applied.value, Given(run[n]));
  }

  /** The configuration merges the last admitted messages as they stood after the first i + 1 of them. */
  ghost predicate CurrentAfter(accepted: seq<Message>, i: int, cfg: A.Configuration) {
    0 <= i < |accepted| && A.IsMerge(LastAccepted(accepted[..i + 1]), cfg)
  }

  /** A refused message changes nothing, and a refused first message ends the program before anything is served. */
  lemma RefusedChangesNothing(s: State, a: Action, t: State)
    requires Step(s, a, t) && (a.Deliver? || a.InitialLoad?) && RejectMessage(s.staticOnly, a.msg).Some?
    ensures a.Deliver? ==> t == s
    ensures a.InitialLoad? ==> t.phase.Failed? && forall b, u :: !Step(t, b, u)
  {
  }

  /** The messages that arrived, in order. */
  function Arrived(acts: seq<Action>): seq<Message> {
    if acts == [] then []
    else
      var a := acts[|acts| - 1];
      Arrived(acts[..|acts| - 1]) + if a.InitialLoad? || a.Deliver? then [a.msg] else []
  }

  lemma ArrivedSnoc(acts: seq<Action>, a: Action)
    ensures Arrived(acts + [a]) == if a.InitialLoad? || a.Deliver? then Arrived(acts) + [a.msg] else Arrived(acts)
  {
    assert (acts + [a])[..|acts|] == acts;
  }

  function Passes(staticOnly: bool): Message -> bool {
    (msg: Message) => Admissible(staticOnly, msg)
  }

  lemma AcceptedNext(s: State, a: Action, t: State)
    requires Step(s, a, t) && Inv(s)
    ensures t.staticOnly == s.staticOnly
    ensures t.accepted ==
            if (a.InitialLoad? || a.Deliver?) && Passes(s.staticOnly)(a.msg) then s.accepted + [a.msg] else s.accepted
  {
  }

  /**
   * In every run the admitted messages are those that arrived without the inadmissible ones: since everything later
   * is made from them, a refused message leaves no trace anywhere, at any time.
   */
  lemma {:induction false} AcceptedExactly(run: seq<State>, acts: seq<Action>, n: nat)
    requires IsRun(run, acts) && n < |run|
    ensures run[n].staticOnly == run[0].staticOnly
    ensures run[n].accepted == Filter(Arrived(acts[..n]), Passes(run[0].staticOnly))
  {
    hide Step, Admissible;
    if n > 0 {
      AcceptedExactly(run, acts, n - 1);
      RunKeeps(run, acts, n - 1);
      AcceptedNext(run[n - 1], acts[n - 1], run[n]);
      assert acts[..n] == acts[..n - 1] + [acts[n - 1]];
      ArrivedSnoc(acts[..n - 1], acts[n - 1]);
      if acts[n - 1].InitialLoad? || acts[n - 1].Deliver? {
        FilterSnoc(Arrived(acts[..n - 1]), acts[n - 1].msg, Passes(run[0].staticOnly));
      }
    }
  }

  /**
   * The table of a router that was given a drained pipeline's configuration holds, each as often as given, the
   * routes of the last admitted messages minus those whose host pattern is invalid.
   */
  lemma TableOfDrained(s: State, re: RT.Regex, walk: seq<string>, order: seq<string>)
    requires Inv(s) && Drained(s)
    requires Enumerates(walk, RT.BuildTable(re, Given(s).routes).exact.Keys)
    requires Enumerates(order, LastAccepted(s.accepted).Keys)
    ensures multiset(RT.Flatten(RT.BuildTable(re, Given(s).routes), walk)) ==
            multiset(Filter(ConcatIn(A.RoutesOf(LastAccepted(s.accepted)), order), (r: Route) => RT.Filed(re, r)))
  {
    hide RT.BuildTable, RT.Flatten, A.IsMerge, A.MergeIn, ConcatIn, Filter, Inv, Drained;
    var configs := LastAccepted(s.accepted);
    var keep := (r: Route) => RT.Filed(re, r);
    var given, all := Given(s).routes, ConcatIn(A.RoutesOf(configs), order);
    DrainedMerge(s);
    A.MergeConcatenates(configs, order);
    A.MergesAgree(configs, Given(s), A.MergeIn(configs, order));
    RT.TableIsInputMinusInvalid(re, given, walk);
    forall x: Route ensures multiset(Filter(given, keep))[x] == multiset(Filter(all, keep))[x] {
      FilterCount(given, keep, x);
      FilterCount(all, keep, x);
      assert multiset(given)[x] == multiset(all)[x];
    }
    assert multiset(Filter(given, keep)) == multiset(Filter(all, keep));
  }

  // ----- static-only mode -----

  lemma {:induction false} OnlyFileAccepted(msgs: seq<Message>)
    requires msgs != [] && forall i :: 0 <= i < |msgs| ==> RejectMessage(true, msgs[i]).None?
    ensures LastAccepted(msgs) == map["file" := msgs[|msgs| - 1]]
  {
    var n := |msgs| - 1;
    if n > 0 {
      OnlyFileAccepted(msgs[..n]);
    } else {
      assert msgs[..0] == [];
    }
  }

  lemma MergeOfOne(msg: Message, cfg: A.Configuration)
    requires A.IsMerge(map["file" := msg], cfg)
    ensures cfg == A.Configuration(msg.routes, msg.tcpRoutes, msg.passthrough, msg.expected)
  {
    var configs := map["file" := msg];
    var order :| Enumerates(order, configs.Keys) && cfg == A.MergeIn(configs, order);
    assert configs.Keys == {"file"};
    EnumeratesOne(order, "file");
    assert order[..0] == [];
    assert A.MergeIn(configs, order) == A.Add(A.MergeIn(configs, order[..0]), configs[order[0]]);
  }

  /**
   * In static-only mode every configuration ever made is one admitted message of the file provider, as a
   * whole: no other provider's route and no TCP or passthrough entry reaches the router or its listeners.
   */
  lemma StaticOnlyBoundary(run: seq<State>, acts: seq<Action>, n: nat, i: nat)
    requires IsRun(run, acts) && n < |run| && run[n].staticOnly && i < |run[n].agg.merges|
    ensures i < |run[n].accepted|
    ensures var msg := run[n].accepted[i];
            && msg.providerName == "file" && msg.err.None?
            && run[n].agg.merges[i] == A.Configuration(msg.routes, [], [], msg.expected)
    ensures run[n].tcpRoutes == []
  {
    RunKeeps(run, acts, n);
    var s := run[n];
    assert CurrentAfter(s.accepted, i, s.agg.merges[i]) && CurrentAfter(s.accepted, 0, s.agg.merges[0]);
    OnlyFileAccepted(s.accepted[..i + 1]);
    MergeOfOne(s.accepted[i], s.agg.merges[i]);
    OnlyFileAccepted(s.accepted[..1]);
    MergeOfOne(s.accepted[0], s.agg.merges[0]);
  }
}
