/**
 * Merging the providers' messages and handing the result over a channel of capacity one that always
 * holds the latest value.
 */
module Aggregator {
  import opened Domain
  import opened Sequences

  datatype Configuration = Configuration(
    routes: seq<Route>,
    tcpRoutes: seq<TcpRoute>,
    passthrough: seq<PassthroughDomain>,
    expected: seq<ExpectedHost>)

  const EMPTY := Configuration([], [], [], [])

  function Add(cfg: Configuration, msg: Message): Configuration {
    Configuration(
      cfg.routes + msg.routes,
      cfg.tcpRoutes + msg.tcpRoutes,
      if |msg.passthrough| > 0 then msg.passthrough else cfg.passthrough,
      if |msg.expected| > 0 then msg.expected else cfg.expected)
  }

  /** The merge, when the map of messages happens to be walked in this order. */
  function MergeIn(configs: map<string, Message>, order: seq<string>): Configuration
    requires forall p :: p in order ==> p in configs
  {
    if order == [] then EMPTY
    else Add(MergeIn(configs, order[..|order| - 1]), configs[order[|order| - 1]])
  }

  /** Some walk over the messages gives this configuration. */
  ghost predicate IsMerge(configs: map<string, Message>, cfg: Configuration) {
    exists order :: Enumerates(order, configs.Keys) && cfg == MergeIn(configs, order)
  }

  class Aggregator {
    var configs: map<string, Message>
    var outputCh: seq<Configuration>   // a channel of capacity one

    ghost predicate Valid() reads this { |outputCh| <= 1 }

    constructor ()
      ensures Valid() && configs == map[] && outputCh == []
    {
      configs, outputCh := map[], [];
    }

    method Merge() returns (cfg: Configuration)
      ensures IsMerge(configs, cfg)
    {
      cfg := EMPTY;
      var order: seq<string>, rest := [], configs.Keys;
      while rest != {}
        invariant rest <= configs.Keys && Enumerates(order, configs.Keys - rest)
        invariant cfg == MergeIn(configs, order)
        decreases rest
      {
        var p :| p in rest;
        var msg := configs[p];
        assert (order + [p])[..|order|] == order;
        EnumeratesNext(order, p, configs.Keys - rest);
        assert configs.Keys - rest + {p} == configs.Keys - (rest - {p});
        cfg := Configuration(cfg.routes + msg.routes, cfg.tcpRoutes + msg.tcpRoutes, cfg.passthrough, cfg.expected);
        if |msg.passthrough| > 0 { cfg := cfg.(passthrough := msg.passthrough); }
        if |msg.expected| > 0 { cfg := cfg.(expected := msg.expected); }
        order, rest := order + [p], rest - {p};
      }
      assert configs.Keys - rest == configs.Keys;
    }

    /**
     * Replace the provider's message and leave the new merge in the channel. raced says whether the
     * consumer takes the old value between the failed send and the drain; received is what it got.
     */
    method Update(msg: Message, raced: bool) returns (received: seq<Configuration>)
      requires Valid()
      modifies this
      ensures Valid() && configs == old(configs)[msg.providerName := msg]
      ensures |outputCh| == 1 && IsMerge(configs, outputCh[0])
      ensures received == if raced then old(outputCh) else []
    {
      received := [];
      configs := configs[msg.providerName := msg];
      var merged := Merge();
      if |outputCh| < 1 {
        outputCh := outputCh + [merged];
      } else {
        if raced { received, outputCh := outputCh, []; }
        if |outputCh| > 0 { outputCh := []; }
        outputCh := outputCh + [merged];
      }
    }
  }

  // ----- the merge does not depend on the walk, up to the order of routes -----

  function RoutesOf(configs: map<string, Message>): map<string, seq<Route>> {
    map p | p in configs :: configs[p].routes
  }

  function TcpRoutesOf(configs: map<string, Message>): map<string, seq<TcpRoute>> {
    map p | p in configs :: configs[p].tcpRoutes
  }

  lemma {:induction false} MergeConcatenates(configs: map<string, Message>, order: seq<string>)
    requires forall p :: p in order ==> p in configs
    ensures MergeIn(configs, order).routes == ConcatIn(RoutesOf(configs), order)
    ensures MergeIn(configs, order).tcpRoutes == ConcatIn(TcpRoutesOf(configs), order)
  {
    if order != [] { MergeConcatenates(configs, order[..|order| - 1]); }
  }

  /** Two merges of the same messages hold the same routes and TCP routes, each as often. */
  lemma MergesAgree(configs: map<string, Message>, a: Configuration, b: Configuration)
    requires IsMerge(configs, a) && IsMerge(configs, b)
    ensures multiset(a.routes) == multiset(b.routes) && multiset(a.tcpRoutes) == multiset(b.tcpRoutes)
  {
    var o1 :| Enumerates(o1, configs.Keys) && a == MergeIn(configs, o1);
    var o2 :| Enumerates(o2, configs.Keys) && b == MergeIn(configs, o2);
    MergeConcatenates(configs, o1);
    MergeConcatenates(configs, o2);
    ConcatPermutes(RoutesOf(configs), o1, o2, configs.Keys);
    ConcatPermutes(TcpRoutesOf(configs), o1, o2, configs.Keys);
  }

  // ----- the lists of which only one provider's survives -----

  /** A part of the configuration that a later message overrides: passthrough domains, or expected hosts. */
  datatype Part<X> = Part(ofMessage: Message -> seq<X>, ofMerge: Configuration -> seq<X>)

  function Passthrough(): Part<PassthroughDomain> {
    Part((m: Message) => m.passthrough, (c: Configuration) => c.passthrough)
  }

  function Expected(): Part<ExpectedHost> {
    Part((m: Message) => m.expected, (c: Configuration) => c.expected)
  }

  /** A message with a non-empty list overrides what the merge had; an empty one leaves it. */
  ghost predicate Overrides<X>(part: Part<X>) {
    && part.ofMerge(EMPTY) == []
    && forall c, m :: part.ofMerge(Add(c, m)) == if part.ofMessage(m) != [] then part.ofMessage(m) else part.ofMerge(c)
  }

  lemma BothOverride()
    ensures Overrides(Passthrough()) && Overrides(Expected())
  {
  }

  /** All providers that name anything name the same. */
  ghost predicate Agreed<X>(configs: map<string, Message>, part: Part<X>) {
    forall p, q ::
      p in configs && q in configs && part.ofMessage(configs[p]) != [] && part.ofMessage(configs[q]) != [] ==>
      part.ofMessage(configs[p]) == part.ofMessage(configs[q])
  }

  /** The list merged is one of the providers', and empty only if all of theirs are. */
  lemma {:induction false} OverriddenBy<X>(configs: map<string, Message>, order: seq<string>, part: Part<X>)
    returns (p: string)
    requires Overrides(part) && forall p :: p in order ==> p in configs
    ensures var merged := part.ofMerge(MergeIn(configs, order));
            if merged == [] then forall q :: q in order ==> part.ofMessage(configs[q]) == []
            else p in order && merged == part.ofMessage(configs[p])
  {
    p := "";
    if order != [] {
      var n := |order| - 1;
      assert order == order[..n] + [order[n]];
      p := OverriddenBy(configs, order[..n], part);
      if part.ofMessage(configs[order[n]]) != [] { p := order[n]; }
    }
  }

  /** A walk that ends at a provider which names something keeps what that one names. */
  lemma WalkEndingAt<X>(configs: map<string, Message>, part: Part<X>, p: string) returns (cfg: Configuration)
    requires Overrides(part) && p in configs && part.ofMessage(configs[p]) != []
    ensures IsMerge(configs, cfg) && part.ofMerge(cfg) == part.ofMessage(configs[p])
  {
    var rest := SomeOrder(configs.Keys - {p});
    var order := rest + [p];
    EnumeratesNext(rest, p, configs.Keys - {p});
    assert configs.Keys - {p} + {p} == configs.Keys && order[..|rest|] == rest;
    cfg := MergeIn(configs, order);
  }

  /** The list does not depend on the walk precisely when all providers that name anything name the same. */
  lemma OverridesAgreeExactly<X>(configs: map<string, Message>, part: Part<X>)
    requires Overrides(part)
    ensures (forall a, b :: IsMerge(configs, a) && IsMerge(configs, b) ==> part.ofMerge(a) == part.ofMerge(b)) <==>
            Agreed(configs, part)
  {
    if Agreed(configs, part) {
      forall a, b | IsMerge(configs, a) && IsMerge(configs, b) ensures part.ofMerge(a) == part.ofMerge(b) {
        var o1 :| Enumerates(o1, configs.Keys) && a == MergeIn(configs, o1);
        var o2 :| Enumerates(o2, configs.Keys) && b == MergeIn(configs, o2);
        var p := OverriddenBy(configs, o1, part);
        var q := OverriddenBy(configs, o2, part);
      }
    } else {
      var p, q :|
        p in configs && q in configs && part.ofMessage(configs[p]) != [] && part.ofMessage(configs[q]) != [] &&
        part.ofMessage(configs[p]) != part.ofMessage(configs[q]);
      var a := WalkEndingAt(configs, part, p);
      var b := WalkEndingAt(configs, part, q);
    }
  }

  /** So for passthrough domains and for expected hosts alike. */
  lemma MergesAgreeExactly(configs: map<string, Message>)
    ensures (forall a, b :: IsMerge(configs, a) && IsMerge(configs, b) ==> a.passthrough == b.passthrough) <==>
            Agreed(configs, Passthrough())
    ensures (forall a, b :: IsMerge(configs, a) && IsMerge(configs, b) ==> a.expected == b.expected) <==>
            Agreed(configs, Expected())
  {
    BothOverride();
    OverridesAgreeExactly(configs, Passthrough());
    OverridesAgreeExactly(configs, Expected());
  }

  /** While one provider alone names passthrough domains, or expected hosts, every merge hands on exactly those. */
  lemma OnlyOwnerNames<X>(configs: map<string, Message>, cfg: Configuration, part: Part<X>, owner: string)
    requires Overrides(part) && IsMerge(configs, cfg) && owner in configs
    requires forall p :: p in configs && p != owner ==> part.ofMessage(configs[p]) == []
    ensures part.ofMerge(cfg) == part.ofMessage(configs[owner])
  {
    var order :| Enumerates(order, configs.Keys) && cfg == MergeIn(configs, order);
    var p := OverriddenBy(configs, order, part);
  }

  lemma PassthroughIsOwners(configs: map<string, Message>, cfg: Configuration, owner: string)
    requires IsMerge(configs, cfg) && owner in configs
    requires forall p :: p in configs && p != owner ==> configs[p].passthrough == []
    ensures cfg.passthrough == configs[owner].passthrough
  {
    BothOverride();
    OnlyOwnerNames(configs, cfg, Passthrough(), owner);
  }

  lemma ExpectedIsOwners(configs: map<string, Message>, cfg: Configuration, owner: string)
    requires IsMerge(configs, cfg) && owner in configs
    requires forall p :: p in configs && p != owner ==> configs[p].expected == []
    ensures cfg.expected == configs[owner].expected
  {
    BothOverride();
    OnlyOwnerNames(configs, cfg, Expected(), owner);
  }

  // ----- Update against a consumer that receives at any moment -----

  /** Where the one caller that holds the mutex is. */
  datatype Pc = Idle | FirstSend | Drain | SecondSend

  /** The channel and what was received name merges by their position in the history. */
  datatype State = State(
    configs: map<string, Message>,
    merges: seq<Configuration>,     // history: every merge made, in order
    pc: Pc,
    queue: Option<nat>,
    received: seq<nat>)

  datatype Action = Begin(msg: Message) | TrySend | TakeOld | SendAgain | Receive

  ghost predicate Step(s: State, a: Action, t: State) {
    match a
    case Begin(msg) =>
      var configs := s.configs[msg.providerName := msg];
      s.pc.Idle? && |t.merges| == |s.merges| + 1 && IsMerge(configs, t.merges[|s.merges|]) &&
      t == s.(configs := configs, merges := s.merges + [t.merges[|s.merges|]], pc := FirstSend)
    case TrySend =>
      s.pc.FirstSend? && s.merges != [] &&
      t == if s.queue.None? then s.(queue := Some(|s.merges| - 1), pc := Idle) else s.(pc := Drain)
    case TakeOld =>
      s.pc.Drain? && t == s.(queue := None, pc := SecondSend)
    case SendAgain =>
      // A send on a full channel would block: no step.
      s.pc.SecondSend? && s.queue.None? && s.merges != [] && t == s.(queue := Some(|s.merges| - 1), pc := Idle)
    case Receive =>
      s.queue.Some? && t == s.(queue := None, received := s.received + [s.queue.value])
  }

  ghost predicate Increasing(s: seq<nat>) {
    forall i, j :: 0 <= i < j < |s| ==> s[i] < s[j]
  }

  ghost predicate Inv(s: State) {
    var n := |s.merges|;
    && Increasing(s.received)
    && (s.queue.Some? ==> forall i :: 0 <= i < |s.received| ==> s.received[i] < s.queue.value)
    && (forall i :: 0 <= i < |s.received| ==> s.received[i] < n)
    && (s.queue.Some? ==> s.queue.value < n)
    && (s.pc.SecondSend? ==> s.queue.None?)
    && (!s.pc.Idle? ==>
          && n > 0 && (s.queue.Some? ==> s.queue.value < n - 1)
          && forall i :: 0 <= i < |s.received| ==> s.received[i] < n - 1)
    && (s.pc.Idle? && n > 0 ==>
          if s.queue.Some? then s.queue.value == n - 1 else s.received != [] && s.received[|s.received| - 1] == n - 1)
    && (n > 0 ==> IsMerge(s.configs, s.merges[n - 1]))
  }

  lemma StepKeeps(s: State, a: Action, t: State)
    requires Inv(s) && Step(s, a, t)
    ensures Inv(t)
  {
  }

  ghost predicate Steps(run: seq<State>, acts: seq<Action>) {
    && |run| == |acts| + 1
    && forall i :: 0 <= i < |acts| ==> Step(run[i], acts[i], run[i + 1])
  }

  ghost predicate IsRun(run: seq<State>, acts: seq<Action>) {
    Steps(run, acts) && run[0] == State(map[], [], Idle, None, [])
  }

  lemma {:induction false} RunKeeps(run: seq<State>, acts: seq<Action>, n: nat)
    requires IsRun(run, acts) && n < |run|
    ensures Inv(run[n])
  {
    if n > 0 {
      RunKeeps(run, acts, n - 1);
      StepKeeps(run[n - 1], acts[n - 1], run[n]);
    }
  }

  /** The second send never blocks: whenever it is about to happen, it can. */
  lemma SecondSendNeverBlocks(run: seq<State>, acts: seq<Action>, n: nat)
    requires IsRun(run, acts) && n < |run| && run[n].pc.SecondSend?
    ensures exists t :: Step(run[n], SendAgain, t)
  {
    RunKeeps(run, acts, n);
    var t := run[n].(queue := Some(|run[n].merges| - 1), pc := Idle);
    assert Step(run[n], SendAgain, t);
  }

  /** The newest merge is what an update sends. */
  function Newest(s: State): Option<nat> {
    if s.merges == [] then None else Some(|s.merges| - 1)
  }

  /**
   * An update is over after one step of its own if the channel is empty, and after three otherwise, and then the newest
   * merge is in the channel; a value leaves the channel only to the consumer or to that drain.
   */
  lemma UpdateDelivers(run: seq<State>, acts: seq<Action>, n: nat)
    requires IsRun(run, acts) && n < |acts|
    ensures var s, t := run[n], run[n + 1];
            && (acts[n].TrySend? && s.queue.None? ==> t.pc.Idle? && t.queue == Newest(t))
            && (acts[n].TrySend? && s.queue.Some? ==> t.pc.Drain?)
            && (acts[n].TakeOld? ==> t.pc.SecondSend?)
            && (acts[n].SendAgain? ==> t.pc.Idle? && t.queue == Newest(t))
            && (s.queue.Some? && !acts[n].Receive? && !acts[n].TakeOld? ==> t.queue == s.queue)
            && (s.queue.Some? && acts[n].Receive? ==> t.received == s.received + [s.queue.value])
    ensures var s := run[n];
            && (s.pc.FirstSend? ==> exists t :: Step(s, TrySend, t))
            && (s.pc.Drain? ==> exists t :: Step(s, TakeOld, t))
            && (s.queue.Some? ==> exists t :: Step(s, Receive, t))
  {
    RunKeeps(run, acts, n);
    var s := run[n];
    if s.pc.FirstSend? {
      assert Step(s, TrySend, if s.queue.None? then s.(queue := Newest(s), pc := Idle) else s.(pc := Drain));
    }
    if s.pc.Drain? { assert Step(s, TakeOld, s.(queue := None, pc := SecondSend)); }
    if s.queue.Some? { assert Step(s, Receive, s.(queue := None, received := s.received + [s.queue.value])); }
  }

  /** What a consumer gets is an in-order subsequence of the merges: positions strictly increase. */
  lemma ReceivedInOrder(run: seq<State>, acts: seq<Action>, n: nat)
    requires IsRun(run, acts) && n < |run|
    ensures forall i, j :: 0 <= i < j < |run[n].received| ==> run[n].received[i] < run[n].received[j]
    ensures forall i :: 0 <= i < |run[n].received| ==> run[n].received[i] < |run[n].merges|
  {
    RunKeeps(run, acts, n);
  }

  /**
   * Whenever no update is under way, the last value buffered or received is the merge of the providers' final
   * messages.
   */
  lemma LatestSurvives(run: seq<State>, acts: seq<Action>, n: nat)
    requires IsRun(run, acts) && n < |run| && run[n].pc.Idle? && run[n].merges != []
    ensures var s := run[n];
            && (s.queue.Some? || s.received != [])
            && var last := if s.queue.Some? then s.queue.value else s.received[|s.received| - 1];
               last < |s.merges| && IsMerge(s.configs, s.merges[last])
  {
    RunKeeps(run, acts, n);
  }
}
