/** Request statistics: running figures per host and per edge, and their aggregation for the dashboard. */
module Stats {
  import opened Domain
  import opened Sequences

  datatype Record = Record(
    timestamp: int, verb: string, hostname: string, path: string, target: string, status: int, duration: real)

  // ----- the reference: figures of a whole list of records -----

  datatype Figures = Figures(total: nat, errors: nat, average: real, last: int)

  predicate IsError(r: Record) {
    r.status >= 400
  }

  function Sum(records: seq<Record>): real {
    if records == [] then 0.0 else Sum(records[..|records| - 1]) + records[|records| - 1].duration
  }

  /** Count, error count, exact mean and timestamp of the last of some records; all zero for none. */
  function FiguresOf(records: seq<Record>): Figures {
    if records == [] then Figures(0, 0, 0.0, 0)
    else
      Figures(|records|, |Filter(records, IsError)|, Sum(records) / (|records| as real),
              records[|records| - 1].timestamp)
  }

  function Keyed(key: Record -> string, k: string): Record -> bool {
    (r: Record) => key(r) == k
  }

  function HostOf(r: Record): string {
    r.hostname
  }

  function EdgeOf(r: Record): string {
    r.hostname + "->" + r.target
  }

  // ----- one entry -----

  class RouteStats {
    var totalRequests: nat
    var errorCount: nat
    var avgDurationMs: real
    var lastRequestAt: int

    constructor ()
      ensures Value() == Figures(0, 0, 0.0, 0)
    {
      totalRequests, errorCount, avgDurationMs, lastRequestAt := 0, 0, 0.0, 0;
    }

    function Value(): Figures
      reads this
    {
      Figures(totalRequests, errorCount, avgDurationMs, lastRequestAt)
    }
  }

  /** The mean of n values and one more. */
  function Blend(average: real, n: nat, d: real): real {
    (average * (n as real) + d) / ((n + 1) as real)
  }

  lemma MeanBack(sum: real, n: nat)
    requires n > 0
    ensures (sum / (n as real)) * (n as real) == sum
  {
  }

  /** The running mean is the mean. */
  lemma FiguresNext(records: seq<Record>, record: Record)
    ensures var f, n := FiguresOf(records), |records|;
            FiguresOf(records + [record]) ==
            Figures(n + 1, f.errors + if IsError(record) then 1 else 0,
                    Blend(f.average, n, record.duration), record.timestamp)
  {
    assert (records + [record])[..|records|] == records;
    FilterSnoc(records, record, IsError);
    if records != [] { MeanBack(Sum(records), |records|); }
  }

  /** After the update the entry shows the figures of one record more. */
  method UpdateStats(stats: RouteStats, record: Record, ghost records: seq<Record>)
    requires stats.Value() == FiguresOf(records)
    modifies stats
    ensures stats.Value() == FiguresOf(records + [record])
  {
    FiguresNext(records, record);
    var total := stats.totalRequests + 1;
    stats.avgDurationMs := Blend(stats.avgDurationMs, stats.totalRequests, record.duration);
    stats.totalRequests := total;
    if record.status >= 400 {
      stats.errorCount := stats.errorCount + 1;
    }
    stats.lastRequestAt := record.timestamp;
  }

  // ----- a table of entries -----

  ghost predicate Separate(m: map<string, RouteStats>) {
    forall j, k :: j in m && k in m && j != k ==> m[j] != m[k]
  }

  /** The figures a table shows. */
  function Snapshot(m: map<string, RouteStats>): map<string, Figures>
    reads m.Values
  {
    map k | k in m :: m[k].Value()
  }

  /** How the figures of a list of records are computed; tables are reasoned about for any such function. */
  type Summary = seq<Record> -> Figures

  /** A key has an entry exactly when it occurs, and the entry shows the figures of its records. */
  ghost predicate EntryOk(stats: map<string, Figures>, log: seq<Record>, key: Record -> string, figures: Summary,
                          k: string)
  {
    var records := Filter(log, Keyed(key, k));
    if records == [] then k !in stats else k in stats && stats[k] == figures(records)
  }

  ghost predicate Reports(stats: map<string, Figures>, log: seq<Record>, key: Record -> string, figures: Summary) {
    forall k :: EntryOk(stats, log, key, figures, k)
  }

  lemma EntryNext(stats: map<string, Figures>, log: seq<Record>, key: Record -> string, figures: Summary,
                  record: Record, j: string)
    requires EntryOk(stats, log, key, figures, j)
    ensures var k := key(record);
            EntryOk(stats[k := figures(Filter(log, Keyed(key, k)) + [record])], log + [record], key, figures, j)
  {
    var k := key(record);
    var after := stats[k := figures(Filter(log, Keyed(key, k)) + [record])];
    FilterSnoc(log, record, Keyed(key, j));
    if k == j {
      assert Filter(log + [record], Keyed(key, j)) == Filter(log, Keyed(key, k)) + [record];
      assert j in after && after[j] == figures(Filter(log + [record], Keyed(key, j)));
    } else {
      assert Filter(log + [record], Keyed(key, j)) == Filter(log, Keyed(key, j));
      assert j in after <==> j in stats;
      assert j in stats ==> after[j] == stats[j];
    }
  }

  /** One record more, and the entry of its key brought up to date. */
  lemma ReportsNext(stats: map<string, Figures>, log: seq<Record>, key: Record -> string, figures: Summary,
                    record: Record)
    requires Reports(stats, log, key, figures)
    ensures var k := key(record);
            Reports(stats[k := figures(Filter(log, Keyed(key, k)) + [record])], log + [record], key, figures)
  {
    var after := stats[key(record) := figures(Filter(log, Keyed(key, key(record))) + [record])];
    forall j ensures EntryOk(after, log + [record], key, figures, j) {
      EntryNext(stats, log, key, figures, record, j);
    }
  }

  /** Find or create the entry of a key, and update it through its reference. */
  method Tally(m: map<string, RouteStats>, k: string, record: Record, ghost records: seq<Record>)
    returns (out: map<string, RouteStats>)
    requires Separate(m)
    requires if records == [] then k !in m else k in m && m[k].Value() == FiguresOf(records)
    modifies if k in m then {m[k]} else {}
    ensures Separate(out) && out.Keys == m.Keys + {k}
    ensures forall j :: j in m ==> out[j] == m[j]
    ensures k !in m ==> fresh(out[k])
    ensures Snapshot(out) == old(Snapshot(m))[k := FiguresOf(records + [record])]
  {
    out := m;
    if k !in m {
      var created := new RouteStats();
      out := m[k := created];
    }
    UpdateStats(out[k], record, records);
  }

  method Count(m: map<string, RouteStats>, key: Record -> string, record: Record, ghost log: seq<Record>)
    returns (out: map<string, RouteStats>)
    requires Separate(m) && Reports(Snapshot(m), log, key, FiguresOf)
    modifies m.Values
    ensures Separate(out) && Reports(Snapshot(out), log + [record], key, FiguresOf)
    ensures fresh(out.Values - m.Values)
  {
    ghost var before := Snapshot(m);
    assert EntryOk(before, log, key, FiguresOf, key(record));
    ReportsNext(before, log, key, FiguresOf, record);
    out := Tally(m, key(record), record, Filter(log, Keyed(key, key(record))));
  }

  lemma SameSnapshot(m: map<string, RouteStats>, before: map<string, Figures>)
    requires forall k :: k in m <==> k in before
    requires forall k :: k in m ==> m[k].Value() == before[k]
    ensures Snapshot(m) == before
  {
  }

  /** Both tables report the same records, and share no entry. */
  ghost predicate Consistent(hosts: map<string, RouteStats>, edges: map<string, RouteStats>, log: seq<Record>)
    reads hosts.Values, edges.Values
  {
    && Separate(hosts) && Separate(edges) && hosts.Values !! edges.Values
    && Reports(Snapshot(hosts), log, HostOf, FiguresOf) && Reports(Snapshot(edges), log, EdgeOf, FiguresOf)
  }

  /** The host's entry, then the edge's. */
  method CountBoth(hosts: map<string, RouteStats>, edges: map<string, RouteStats>, record: Record,
                   ghost log: seq<Record>)
    returns (newHosts: map<string, RouteStats>, newEdges: map<string, RouteStats>)
    requires Consistent(hosts, edges, log)
    modifies hosts.Values, edges.Values
    ensures Consistent(newHosts, newEdges, log + [record])
    ensures fresh(newHosts.Values - hosts.Values) && fresh(newEdges.Values - edges.Values)
  {
    newHosts := Count(hosts, HostOf, record, log);
    SameSnapshot(edges, old(Snapshot(edges)));
    ghost var counted := Snapshot(newHosts);
    newEdges := Count(edges, EdgeOf, record, log);
    SameSnapshot(newHosts, counted);
  }

  // ----- the collector -----

  const MAX_BUFFER: nat := 1000

  function Tail(log: seq<Record>, n: nat): seq<Record> {
    if |log| <= n then log else log[|log| - n..]
  }

  class Collector {
    var buffer: seq<Record>
    var hostStats: map<string, RouteStats>
    var edgeStats: map<string, RouteStats>
    const dashboardHost: string
    ghost var log: seq<Record>     // every accepted record

    ghost predicate Valid()
      reads this, hostStats.Values, edgeStats.Values
    {
      Consistent(hostStats, edgeStats, log) && buffer == Tail(log, MAX_BUFFER)
    }

    constructor (dashboardHost: string)
      ensures Valid() && log == [] && this.dashboardHost == dashboardHost
    {
      buffer, hostStats, edgeStats := [], map[], map[];
      this.dashboardHost := dashboardHost;
      log := [];
    }

    method Remember(record: Record)
      modifies `buffer
      requires buffer == Tail(log, MAX_BUFFER)
      ensures buffer == Tail(log + [record], MAX_BUFFER)
    {
      buffer := buffer + [record];
      if |buffer| > MAX_BUFFER { buffer := buffer[1..]; }
    }

    method Record(record: Record)
      requires Valid()
      modifies this, hostStats.Values, edgeStats.Values
      ensures Valid()
      ensures log == old(log) + if record.hostname == dashboardHost then [] else [record]
    {
      hide Reports, Separate, Snapshot, Tail;
      if record.hostname == dashboardHost { return; }
      Remember(record);
      hostStats, edgeStats := CountBoth(hostStats, edgeStats, record, log);
      log := log + [record];
    }

    /** The newest records first, at most the limit and at most what is kept. */
    method GetRecentRequests(limit: int) returns (result: seq<Record>)
      requires Valid()
      ensures var n := if limit <= 0 then 50 else limit;
              && |result| ==
                 (if n <= MAX_BUFFER && n <= |log| then n else if |log| <= MAX_BUFFER then |log| else MAX_BUFFER)
              && forall i :: 0 <= i < |result| ==> result[i] == log[|log| - 1 - i]
    {
      var n := if limit <= 0 then 50 else limit;
      var start := |buffer| - n;
      if start < 0 { start := 0; }
      var slice := buffer[start..];
      result := [];
      for i := 0 to |slice|
        invariant |result| == i
        invariant forall j :: 0 <= j < i ==> result[j] == slice[i - 1 - j]
      {
        result := [slice[i]] + result;
      }
    }

    method GetHostStats() returns (result: map<string, Figures>)
      requires Valid()
      ensures Reports(result, log, HostOf, FiguresOf)
    {
      result := map h | h in hostStats :: hostStats[h].Value();
    }

    method GetEdgeStats() returns (result: map<string, Figures>)
      requires Valid()
      ensures Reports(result, log, EdgeOf, FiguresOf)
    {
      result := map e | e in edgeStats :: edgeStats[e].Value();
    }

    /** Summing over the hosts, in any order, counts every accepted record once. */
    method GetTotalRequests() returns (total: nat)
      requires Valid()
      ensures total == |log|
    {
      total := 0;
      var rest := hostStats.Keys;
      assert hostStats.Keys - rest == {};
      FilterNothing(log, Among(HostOf, {}));
      while rest != {}
        invariant rest <= hostStats.Keys
        invariant total == |Filter(log, Among(HostOf, hostStats.Keys - rest))|
        decreases |rest|
      {
        var h :| h in rest;
        AmongNext(log, HostOf, hostStats.Keys - rest, h);
        assert EntryOk(Snapshot(hostStats), log, HostOf, FiguresOf, h);
        assert hostStats.Keys - (rest - {h}) == hostStats.Keys - rest + {h};
        rest := rest - {h};
        total := total + hostStats[h].totalRequests;
      }
      assert hostStats.Keys - rest == Snapshot(hostStats).Keys;
      AllAmongKeys(Snapshot(hostStats), log, HostOf, FiguresOf);
    }
  }

  // ----- sums over keys -----

  function Among(key: Record -> string, keys: set<string>): Record -> bool {
    (r: Record) => key(r) in keys
  }

  lemma {:induction false} AmongNext(log: seq<Record>, key: Record -> string, keys: set<string>, k: string)
    requires k !in keys
    ensures |Filter(log, Among(key, keys + {k}))| == |Filter(log, Among(key, keys))| + |Filter(log, Keyed(key, k))|
  {
    if log != [] { AmongNext(log[..|log| - 1], key, keys, k); }
  }

  lemma {:induction false} AmongAll(log: seq<Record>, key: Record -> string, keys: set<string>)
    requires forall r :: r in log ==> key(r) in keys
    ensures Filter(log, Among(key, keys)) == log
  {
    if log != [] {
      assert log[|log| - 1] in log;
      AmongAll(log[..|log| - 1], key, keys);
      assert log == log[..|log| - 1] + [log[|log| - 1]];
    }
  }

  function TotalOver(stats: map<string, Figures>, order: seq<string>): nat
    requires forall k :: k in order ==> k in stats
  {
    if order == [] then 0 else TotalOver(stats, order[..|order| - 1]) + stats[order[|order| - 1]].total
  }

  lemma AllAmongKeys(stats: map<string, Figures>, log: seq<Record>, key: Record -> string, figures: Summary)
    requires Reports(stats, log, key, figures)
    ensures Filter(log, Among(key, stats.Keys)) == log
  {
    forall r | r in log ensures key(r) in stats.Keys {
      assert EntryOk(stats, log, key, figures, key(r));
      FilterMember(log, Keyed(key, key(r)), r);
    }
    AmongAll(log, key, stats.Keys);
  }

  lemma {:induction false} TotalIsAmong(stats: map<string, Figures>, log: seq<Record>, key: Record -> string,
                                        order: seq<string>, keys: set<string>)
    requires Reports(stats, log, key, FiguresOf) && Enumerates(order, keys) && keys <= stats.Keys
    ensures forall k :: k in order ==> k in stats
    ensures TotalOver(stats, order) == |Filter(log, Among(key, keys))|
    decreases |order|
  {
    EnumeratesNone(order, keys);
    if order == [] {
      FilterNothing(log, Among(key, keys));
    } else {
      var k := order[|order| - 1];
      assert k in order;
      DropLast(order, keys);
      TotalIsAmong(stats, log, key, order[..|order| - 1], keys - {k});
      assert EntryOk(stats, log, key, FiguresOf, k);
      AmongNext(log, key, keys - {k}, k);
      assert keys - {k} + {k} == keys;
    }
  }

  /** However records are keyed, and in whatever order the entries are summed, the total is the number of records:
      by host and by edge alike, even when two edges share a key. */
  lemma TotalsAgree(stats: map<string, Figures>, log: seq<Record>, key: Record -> string, order: seq<string>)
    requires Reports(stats, log, key, FiguresOf) && Enumerates(order, stats.Keys)
    ensures TotalOver(stats, order) == |log|
  {
    TotalIsAmong(stats, log, key, order, stats.Keys);
    AllAmongKeys(stats, log, key, FiguresOf);
  }

  // ----- aggregation on the dashboard -----

  function Max(a: int, b: int): int {
    if a >= b then a else b
  }

  /** The loop's four accumulators, and whether any host had figures. */
  datatype Acc = Acc(total: nat, errors: nat, weighted: real, last: int, any: bool)

  /** A mean counted as often as there are requests behind it. */
  function Weight(f: Figures): real {
    f.average * (f.total as real)
  }

  /** The accumulators after some hosts, for any way of weighting a mean. */
  function Accumulate(hostnames: seq<string>, stats: map<string, Figures>, weight: Figures -> real): Acc {
    if hostnames == [] then Acc(0, 0, 0.0, 0, false)
    else
      var acc, h := Accumulate(hostnames[..|hostnames| - 1], stats, weight), hostnames[|hostnames| - 1];
      if h !in stats then acc
      else
        var f := stats[h];
        Acc(acc.total + f.total, acc.errors + f.errors, acc.weighted + weight(f), Max(acc.last, f.last), true)
  }

  function Outcome(acc: Acc): Option<Figures> {
    if !acc.any then None
    else
      var average := if acc.total > 0 then acc.weighted / (acc.total as real) else 0.0;
      Some(Figures(acc.total, acc.errors, average, acc.last))
  }

  method AggregateStats(hostnames: seq<string>, hostStats: Option<map<string, Figures>>)
    returns (result: Option<Figures>)
    ensures result == if hostStats.None? then None else Outcome(Accumulate(hostnames, hostStats.value, Weight))
  {
    if hostStats.None? { return None; }
    var stats := hostStats.value;
    var totalRequests: nat, errorCount: nat, durationWeighted, lastRequestAt, hasStats := 0, 0, 0.0, 0, false;
    for i := 0 to |hostnames|
      invariant Accumulate(hostnames[..i], stats, Weight) ==
                Acc(totalRequests, errorCount, durationWeighted, lastRequestAt, hasStats)
    {
      assert hostnames[..i + 1][..i] == hostnames[..i];
      if hostnames[i] !in stats { continue; }
      var stat := stats[hostnames[i]];
      hasStats := true;
      totalRequests := totalRequests + stat.total;
      errorCount := errorCount + stat.errors;
      durationWeighted := durationWeighted + Weight(stat);
      lastRequestAt := Max(lastRequestAt, stat.last);
    }
    assert hostnames[..|hostnames|] == hostnames;
    if !hasStats { return None; }
    var average := if totalRequests > 0 then durationWeighted / (totalRequests as real) else 0.0;
    return Some(Figures(totalRequests, errorCount, average, lastRequestAt));
  }

  /** The records of any of the hosts, in the order recorded. */
  function Union(log: seq<Record>, hosts: set<string>): seq<Record> {
    Filter(log, Among(HostOf, hosts))
  }

  function Latest(records: seq<Record>): (latest: int)
    ensures latest >= 0
  {
    if records == [] then 0 else Max(Latest(records[..|records| - 1]), records[|records| - 1].timestamp)
  }

  /** What the figures of a list are made of. */
  datatype Measure = Measure(count: nat, errors: nat, sum: real, latest: int)

  function MeasureOf(records: seq<Record>): Measure {
    Measure(|records|, |Filter(records, IsError)|, Sum(records), Latest(records))
  }

  function Plus(a: Measure, b: Measure): Measure {
    Measure(a.count + b.count, a.errors + b.errors, a.sum + b.sum, Max(a.latest, b.latest))
  }

  lemma MeasureOne(r: Record)
    ensures MeasureOf([r]) == Measure(1, if IsError(r) then 1 else 0, r.duration, Max(0, r.timestamp))
  {
    var none: seq<Record> := [];
    assert [r][..0] == none;
    assert Filter(none, IsError) == [] && Sum(none) == 0.0 && Latest(none) == 0;
    assert |Filter([r], IsError)| == if IsError(r) then 1 else 0;
  }

  lemma MeasureSnoc(records: seq<Record>, r: Record)
    ensures MeasureOf(records + [r]) == Plus(MeasureOf(records), MeasureOf([r]))
  {
    assert (records + [r])[..|records|] == records;
    FilterSnoc(records, r, IsError);
    MeasureOne(r);
  }

  lemma MeasureFilter(log: seq<Record>, keep: Record -> bool)
    requires log != []
    ensures var before, r := Filter(log[..|log| - 1], keep), log[|log| - 1];
            MeasureOf(Filter(log, keep)) ==
            if keep(r) then Plus(MeasureOf(before), MeasureOf([r])) else MeasureOf(before)
  {
    var before, r := Filter(log[..|log| - 1], keep), log[|log| - 1];
    MeasureSnoc(before, r);
    assert Filter(log, keep) == if keep(r) then before + [r] else before;
  }

  lemma PlusOne(whole: Measure, rest: Measure, one: Measure, r: Measure)
    requires whole == Plus(rest, one)
    ensures Plus(whole, r) == Plus(Plus(rest, r), one) == Plus(rest, Plus(one, r))
  {
  }

  lemma {:induction false} UnionNext(log: seq<Record>, hosts: set<string>, h: string)
    requires h !in hosts
    ensures MeasureOf(Union(log, hosts + {h})) ==
            Plus(MeasureOf(Union(log, hosts)), MeasureOf(Filter(log, Keyed(HostOf, h))))
  {
    if log != [] {
      hide MeasureOf, Filter, Plus;
      var n := |log| - 1;
      var before, r := log[..n], log[n];
      UnionNext(before, hosts, h);
      MeasureFilter(log, Among(HostOf, hosts + {h}));
      MeasureFilter(log, Among(HostOf, hosts));
      MeasureFilter(log, Keyed(HostOf, h));
      PlusOne(MeasureOf(Union(before, hosts + {h})), MeasureOf(Union(before, hosts)),
              MeasureOf(Filter(before, Keyed(HostOf, h))), MeasureOf([r]));
    }
  }

  /** The timestamp a host's entry shows, or zero. */
  function LastStamp(log: seq<Record>, h: string): int {
    var here := Filter(log, Keyed(HostOf, h));
    if here == [] then 0 else Max(0, here[|here| - 1].timestamp)
  }

  function StampOf(log: seq<Record>): string -> int {
    (h: string) => LastStamp(log, h)
  }

  /** The newest timestamp shown for any of some hosts. */
  function Newest(stamp: string -> int, hostnames: seq<string>): (newest: int)
    ensures newest >= 0
  {
    if hostnames == [] then 0
    else Max(Newest(stamp, hostnames[..|hostnames| - 1]), stamp(hostnames[|hostnames| - 1]))
  }

  /** Figures from which the sum of durations can be had back. */
  ghost predicate Sound(figures: Summary, weight: Figures -> real) {
    forall records :: records != [] ==> SoundFor(figures(records), records, weight)
  }

  ghost predicate SoundFor(f: Figures, records: seq<Record>, weight: Figures -> real)
    requires records != []
  {
    && f.total == |records| && f.errors == |Filter(records, IsError)| && weight(f) == Sum(records)
    && f.last == records[|records| - 1].timestamp
  }

  lemma FiguresAreSound()
    ensures Sound(FiguresOf, Weight)
  {
    forall records: seq<Record> | records != [] ensures SoundFor(FiguresOf(records), records, Weight) {
      MeanBack(Sum(records), |records|);
    }
  }

  /** A host's turn adds what its own records amount to. */
  lemma EntryAdds(hostnames: seq<string>, stats: map<string, Figures>, log: seq<Record>, figures: Summary,
                  weight: Figures -> real)
    requires hostnames != [] && Sound(figures, weight)
    requires EntryOk(stats, log, HostOf, figures, hostnames[|hostnames| - 1])
    ensures var n := |hostnames| - 1;
            var here := Filter(log, Keyed(HostOf, hostnames[n]));
            var acc, m := Accumulate(hostnames[..n], stats, weight), MeasureOf(here);
            acc.last >= 0 ==>
              Accumulate(hostnames, stats, weight) ==
              Acc(acc.total + m.count, acc.errors + m.errors, acc.weighted + m.sum,
                  Max(acc.last, LastStamp(log, hostnames[n])), acc.any || here != [])
  {
    var here := Filter(log, Keyed(HostOf, hostnames[|hostnames| - 1]));
    if here == [] {
      assert MeasureOf(here) == Measure(0, 0, 0.0, 0);
    } else {
      assert SoundFor(figures(here), here, weight);
    }
  }

  lemma {:induction false} AccumulateIsUnion(hostnames: seq<string>, hosts: set<string>, stats: map<string, Figures>,
                                             log: seq<Record>, figures: Summary, weight: Figures -> real)
    requires Enumerates(hostnames, hosts) && Reports(stats, log, HostOf, figures) && Sound(figures, weight)
    ensures var acc, all := Accumulate(hostnames, stats, weight), MeasureOf(Union(log, hosts));
            acc == Acc(all.count, all.errors, all.sum, Newest(StampOf(log), hostnames), all.count > 0)
    decreases |hostnames|
  {
    EnumeratesNone(hostnames, hosts);
    if hostnames == [] {
      FilterNothing(log, Among(HostOf, hosts));
    } else {
      var n := |hostnames| - 1;
      var h := hostnames[n];
      assert h in hostnames;
      DropLast(hostnames, hosts);
      AccumulateIsUnion(hostnames[..n], hosts - {h}, stats, log, figures, weight);
      UnionNext(log, hosts - {h}, h);
      assert hosts - {h} + {h} == hosts;
      assert EntryOk(stats, log, HostOf, figures, h);
      EntryAdds(hostnames, stats, log, figures, weight);
    }
  }

  /** Over distinct hosts the aggregate is the figures of all their records together, but for the last timestamp,
      which is the newest among those the hosts show. */
  lemma AggregateIsUnion(hostnames: seq<string>, hosts: set<string>, stats: map<string, Figures>, log: seq<Record>)
    requires Enumerates(hostnames, hosts) && Reports(stats, log, HostOf, FiguresOf)
    ensures var all := Union(log, hosts);
            Outcome(Accumulate(hostnames, stats, Weight)) ==
            if all == [] then None else Some(FiguresOf(all).(last := Newest(StampOf(log), hostnames)))
  {
    FiguresAreSound();
    AccumulateIsUnion(hostnames, hosts, stats, log, FiguresOf, Weight);
  }

  lemma {:induction false} NewestIsShown(stamp: string -> int, hostnames: seq<string>) returns (newest: string)
    ensures forall h :: h in hostnames ==> stamp(h) <= Newest(stamp, hostnames)
    ensures Newest(stamp, hostnames) > 0 ==> newest in hostnames && stamp(newest) == Newest(stamp, hostnames)
  {
    newest := "";
    if hostnames != [] {
      var n := |hostnames| - 1;
      newest := NewestIsShown(stamp, hostnames[..n]);
      assert hostnames == hostnames[..n] + [hostnames[n]];
      if stamp(hostnames[n]) >= Newest(stamp, hostnames[..n]) { newest := hostnames[n]; }
    }
  }

  lemma StampBound(log: seq<Record>, hosts: set<string>, h: string)
    requires h in hosts
    ensures 0 <= LastStamp(log, h) <= Latest(Union(log, hosts))
  {
    UnionNext(log, hosts - {h}, h);
    assert hosts - {h} + {h} == hosts;
  }

  predicate Asked(log: seq<Record>, hosts: set<string>, i: int) {
    0 <= i < |log| && log[i].hostname in hosts
  }

  /** Position i holds a newest record of the asked hosts, and its host records nothing older after it. */
  ghost predicate StandingPeak(log: seq<Record>, hosts: set<string>, i: int) {
    && Asked(log, hosts, i)
    && (forall j :: Asked(log, hosts, j) ==> log[j].timestamp <= log[i].timestamp)
    && (forall j :: i < j < |log| && log[j].hostname == log[i].hostname ==> log[j].timestamp >= log[i].timestamp)
  }

  /** The newest timestamp asked for is zero, or still standing for some host. */
  ghost predicate NewestStands(log: seq<Record>, hosts: set<string>) {
    || (forall j :: Asked(log, hosts, j) ==> log[j].timestamp <= 0)
    || (exists i :: StandingPeak(log, hosts, i))
  }

  /** Position i holds the last record of a host. */
  ghost predicate LastOf(log: seq<Record>, h: string, i: int) {
    0 <= i < |log| && log[i].hostname == h && forall j :: i < j < |log| ==> log[j].hostname != h
  }

  lemma LastKept(log: seq<Record>, h: string)
    requires log != []
    ensures var before, r := Filter(log[..|log| - 1], Keyed(HostOf, h)), log[|log| - 1];
            Filter(log, Keyed(HostOf, h)) == if r.hostname == h then before + [r] else before
  {
    FilterLast(log, Keyed(HostOf, h));
    KeyedByHost(log[|log| - 1], h);
  }

  lemma KeyedByHost(r: Record, h: string)
    ensures Keyed(HostOf, h)(r) <==> r.hostname == h
  {
    assert HostOf(r) == r.hostname;
  }

  lemma LastOfLonger(log: seq<Record>, h: string, i: int)
    requires log != []
    ensures log[|log| - 1].hostname == h ==> LastOf(log, h, |log| - 1)
    ensures log[|log| - 1].hostname != h && LastOf(log[..|log| - 1], h, i) ==>
            LastOf(log, h, i) && log[..|log| - 1][i] == log[i]
  {
    assert forall j :: 0 <= j < |log| - 1 ==> log[..|log| - 1][j] == log[j];
  }

  /** A host without a record has no stamp; otherwise its stamp is its last record's. */
  lemma {:induction false} LastStampIs(log: seq<Record>, h: string) returns (i: int)
    ensures Filter(log, Keyed(HostOf, h)) != [] ==> LastOf(log, h, i) && LastStamp(log, h) == Max(0, log[i].timestamp)
    ensures Filter(log, Keyed(HostOf, h)) == [] ==> forall j :: 0 <= j < |log| ==> log[j].hostname != h
  {
    i := -1;
    if log != [] {
      hide Filter, Keyed, LastOf;
      var n := |log| - 1;
      i := LastStampIs(log[..n], h);
      LastKept(log, h);
      LastOfLonger(log, h, i);
      assert forall j :: 0 <= j < n ==> log[..n][j] == log[j];
      if log[n].hostname == h { i := n; }
    }
  }

  lemma {:induction false} LatestOfAsked(log: seq<Record>, hosts: set<string>) returns (i: int)
    ensures forall j :: Asked(log, hosts, j) ==> log[j].timestamp <= Latest(Union(log, hosts))
    ensures Latest(Union(log, hosts)) > 0 ==> Asked(log, hosts, i) && log[i].timestamp == Latest(Union(log, hosts))
  {
    i := -1;
    if log != [] {
      var n := |log| - 1;
      i := LatestOfAsked(log[..n], hosts);
      MeasureFilter(log, Among(HostOf, hosts));
      MeasureOne(log[n]);
      assert forall j :: 0 <= j < n ==> (Asked(log, hosts, j) <==> Asked(log[..n], hosts, j)) && log[..n][j] == log[j];
      if log[n].hostname in hosts && log[n].timestamp >= Latest(Union(log[..n], hosts)) { i := n; }
    }
  }

  /** A record of an asked host is no newer than the newest shown only if its host's last record is not older. */
  lemma PeakIsShown(log: seq<Record>, hosts: set<string>, i: int)
    requires StandingPeak(log, hosts, i)
    ensures LastStamp(log, log[i].hostname) >= log[i].timestamp
  {
    var k := LastStampIs(log, log[i].hostname);
    assert k >= i;
  }

  lemma ShownIsPeak(log: seq<Record>, hosts: set<string>, h: string)
    requires h in hosts && LastStamp(log, h) == Latest(Union(log, hosts)) > 0
    ensures exists i :: StandingPeak(log, hosts, i)
  {
    var k := LastStampIs(log, h);
    var i := LatestOfAsked(log, hosts);
    assert StandingPeak(log, hosts, k);
  }

  /**
   * The aggregate shows the newest timestamp of all the asked hosts' records exactly when none is positive, or one of
   * the newest was not followed by an older record of the same host.
   */
  lemma LatestExactly(log: seq<Record>, hostnames: seq<string>, hosts: set<string>)
    requires Enumerates(hostnames, hosts)
    ensures Newest(StampOf(log), hostnames) == Latest(Union(log, hosts)) <==> NewestStands(log, hosts)
  {
    var newest := NewestIsShown(StampOf(log), hostnames);
    var peak := LatestOfAsked(log, hosts);
    forall h | h in hosts ensures 0 <= LastStamp(log, h) <= Latest(Union(log, hosts)) { StampBound(log, hosts, h); }
    assert forall h :: StampOf(log)(h) == LastStamp(log, h);
    var latest := Latest(Union(log, hosts));
    if latest > 0 {
      if Newest(StampOf(log), hostnames) == latest {
        ShownIsPeak(log, hosts, newest);
      }
      if i :| StandingPeak(log, hosts, i) {
        PeakIsShown(log, hosts, i);
        assert log[i].timestamp == latest && log[i].hostname in hostnames;
      }
    }
  }

  predicate InTimeOrder(records: seq<Record>) {
    forall i, j :: 0 <= i < j < |records| ==> records[i].timestamp <= records[j].timestamp
  }

  lemma {:induction false} LatestInOrder(records: seq<Record>)
    requires InTimeOrder(records) && records != []
    ensures Latest(records) == Max(0, records[|records| - 1].timestamp)
  {
    var n := |records| - 1;
    if n > 0 {
      LatestInOrder(records[..n]);
    } else {
      assert records[..0] == [];
    }
  }

  lemma {:induction false} LatestWhenOrdered(log: seq<Record>, hostnames: seq<string>, hosts: set<string>)
    requires Enumerates(hostnames, hosts)
    requires forall h :: h in hosts ==> InTimeOrder(Filter(log, Keyed(HostOf, h)))
    ensures Newest(StampOf(log), hostnames) == Latest(Union(log, hosts))
    decreases |hostnames|
  {
    EnumeratesNone(hostnames, hosts);
    if hostnames == [] {
      FilterNothing(log, Among(HostOf, hosts));
    } else {
      var n := |hostnames| - 1;
      var h := hostnames[n];
      assert h in hostnames;
      DropLast(hostnames, hosts);
      LatestWhenOrdered(log, hostnames[..n], hosts - {h});
      UnionNext(log, hosts - {h}, h);
      assert hosts - {h} + {h} == hosts;
      var here := Filter(log, Keyed(HostOf, h));
      if here != [] { LatestInOrder(here); }
    }
  }

  /**
   * Two records of one host that reach the collector in another order than they were stamped in, as when two handlers
   * race between the stamp and the collector's lock or the wall clock steps back: the older one is shown.
   */
  lemma OvertakenRecordHidesLatest(r: Record)
    requires r.timestamp == 5
    ensures var log := [r, r.(timestamp := 3)];
            Newest(StampOf(log), [r.hostname]) == 3 && Latest(Union(log, {r.hostname})) == 5
  {
    var late := r.(timestamp := 3);
    var log := [r, late];
    assert log == [r] + [late] && [r] == [] + [r];
    FilterSnoc([r], late, Keyed(HostOf, r.hostname));
    FilterSnoc([], r, Keyed(HostOf, r.hostname));
    AmongAll(log, HostOf, {r.hostname});
    MeasureOne(r);
    MeasureOne(late);
    MeasureSnoc([r], late);
    assert Newest(StampOf(log), [r.hostname][..0]) == 0;
  }

  // ----- the figures, in plain terms -----

  lemma {:induction false} ErrorsAre(records: seq<Record>)
    ensures |Filter(records, IsError)| == |set i | 0 <= i < |records| && records[i].status >= 400|
  {
    var failed := set i | 0 <= i < |records| && records[i].status >= 400;
    if records == [] {
      assert failed == {};
    } else {
      var n := |records| - 1;
      ErrorsAre(records[..n]);
      var before := set i | 0 <= i < n && records[..n][i].status >= 400;
      assert failed == if records[n].status >= 400 then before + {n} else before;
    }
  }

  lemma AverageBack(records: seq<Record>)
    ensures FiguresOf(records).average * (FiguresOf(records).total as real) == Sum(records)
  {
    hide IsError, Filter;
    if records != [] { MeanBack(Sum(records), |records|); }
  }

  /** Errors are the answers with a status of 400 or more; the average times the count is the time spent. */
  lemma FiguresExactly(records: seq<Record>)
    ensures var f := FiguresOf(records);
            && f.total == |records|
            && f.errors == |set i | 0 <= i < |records| && records[i].status >= 400|
            && f.average * (f.total as real) == Sum(records)
            && f.last == if records == [] then 0 else records[|records| - 1].timestamp
  {
    AverageBack(records);
    ErrorsAre(records);
    if records == [] { assert |Filter(records, IsError)| == 0; }
    hide IsError, Sum, Filter;
  }

  lemma ArrowAt(host: string, target: string)
    requires '-' !in host
    ensures IndexOf(host + "->" + target, '-') == |host|
  {
    var s := host + "->" + target;
    assert s[|host|] == '-' && forall j :: 0 <= j < |host| ==> s[j] == host[j];
  }

  /** The key of an edge: its host, an arrow and its target. It tells them apart unless the host holds an arrow. */
  lemma EdgeReads(r: Record, s: Record)
    ensures HasPrefix(EdgeOf(r), r.hostname + "->") && HasSuffix(EdgeOf(r), "->" + r.target)
    ensures |EdgeOf(r)| == |r.hostname| + |r.target| + 2
    ensures EdgeOf(r) == EdgeOf(s) && '-' !in r.hostname && '-' !in s.hostname ==>
              r.hostname == s.hostname && r.target == s.target
  {
    var a, b := EdgeOf(r), EdgeOf(s);
    assert a == r.hostname + ("->" + r.target);
    assert a[..|r.hostname|] == r.hostname && a[|r.hostname|..] == "->" + r.target;
    assert b[..|s.hostname|] == s.hostname && b[|s.hostname|..] == "->" + s.target;
    if a == b && '-' !in r.hostname && '-' !in s.hostname {
      ArrowAt(r.hostname, r.target);
      ArrowAt(s.hostname, s.target);
      assert ("->" + r.target)[2..] == r.target && ("->" + s.target)[2..] == s.target;
    }
  }
}
