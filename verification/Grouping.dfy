/** The dashboard's service nodes: one route per host, grouped and laid out in columns. */
module Grouping {
  import opened Domain
  import opened Sequences

  datatype Service = Service(hostname: string, source: string, target: string)

  datatype Mode = Ungrouped | ByDomain | BySource | ByPrefix

  const OTHER_KEY: string := "__other"
  const GROUPING_THRESHOLD: nat := 5

  // ----- keys -----

  function BaseDomain(hostname: string, normalize: string -> string): string {
    var parts := Split(normalize(hostname), '.');
    if |parts| <= 2 then Join(parts, '.') else Join(parts[|parts| - 2..], '.')
  }

  function HostPrefix(hostname: string, normalize: string -> string): string {
    Split(Split(normalize(hostname), '.')[0], '-')[0]
  }

  function GroupKey(mode: Mode, normalize: string -> string): Service -> string {
    (r: Service) =>
      if mode.BySource? then r.source
      else if mode.ByPrefix? then HostPrefix(r.hostname, normalize)
      else BaseDomain(r.hostname, normalize)
  }

  // ----- buckets -----

  /** An entry of an insertion-ordered map. */
  datatype Bucket = Bucket(key: string, routes: seq<Service>)

  datatype Group = Group(key: string, title: string, routes: seq<Service>)

  function WithKey(key: Service -> string, k: string): Service -> bool {
    (r: Service) => key(r) == k
  }

  /** The keys in the order in which they first occur. */
  function Keys(routes: seq<Service>, key: Service -> string): seq<string> {
    if routes == [] then []
    else
      var before, k := Keys(routes[..|routes| - 1], key), key(routes[|routes| - 1]);
      if k in before then before else before + [k]
  }

  function BucketFor(routes: seq<Service>, key: Service -> string, k: string): Bucket {
    Bucket(k, Filter(routes, WithKey(key, k)))
  }

  /** One bucket per key, holding its routes in order. */
  function Buckets(routes: seq<Service>, key: Service -> string): seq<Bucket> {
    var keys := Keys(routes, key);
    seq(|keys|, i requires 0 <= i < |keys| => BucketFor(routes, key, keys[i]))
  }

  predicate IsSingle(b: Bucket) {
    |b.routes| == 1
  }

  predicate IsShared(b: Bucket) {
    |b.routes| != 1
  }

  /** The routes of some buckets, one bucket after the other. */
  function Flat(buckets: seq<Bucket>): seq<Service> {
    if buckets == [] then [] else Flat(buckets[..|buckets| - 1]) + buckets[|buckets| - 1].routes
  }

  /** Where a key's entry is, or the number of entries. */
  function Position(buckets: seq<Bucket>, k: string): (i: nat)
    ensures i <= |buckets| && (i < |buckets| ==> buckets[i].key == k)
    ensures forall j :: 0 <= j < i ==> buckets[j].key != k
  {
    if buckets == [] || buckets[0].key == k then 0 else 1 + Position(buckets[1..], k)
  }

  /** Setting a key replaces its entry in place, or appends one. */
  function Set(buckets: seq<Bucket>, b: Bucket): seq<Bucket> {
    var i := Position(buckets, b.key);
    if i < |buckets| then buckets[i := b] else buckets + [b]
  }

  /** The effect of one turn of the collecting loop. */
  function Put(buckets: seq<Bucket>, k: string, r: Service): seq<Bucket> {
    var i := Position(buckets, k);
    if i < |buckets| then buckets[i := Bucket(k, buckets[i].routes + [r])] else buckets + [Bucket(k, [r])]
  }

  /** In prefix mode the lone routes move into one bucket, set last under the reserved key. */
  function Merged(buckets: seq<Bucket>): seq<Bucket> {
    var singles := Flat(Filter(buckets, IsSingle));
    var shared := Filter(buckets, IsShared);
    if singles == [] then shared else Set(shared, Bucket(OTHER_KEY, singles))
  }

  // ----- order -----

  function ByHost(le: (string, string) -> bool): (Service, Service) -> bool {
    (x: Service, y: Service) => le(x.hostname, y.hostname)
  }

  /** Groups by label, the reserved one last. */
  function ByLabel(le: (string, string) -> bool): (Group, Group) -> bool {
    (x: Group, y: Group) => y.key == OTHER_KEY || (x.key != OTHER_KEY && le(x.title, y.title))
  }

  function Labelled(b: Bucket, le: (string, string) -> bool): Group {
    Group(b.key, if b.key == OTHER_KEY then "other" else b.key, SortBy(b.routes, ByHost(le)))
  }

  function LabelledAll(buckets: seq<Bucket>, le: (string, string) -> bool): seq<Group> {
    seq(|buckets|, i requires 0 <= i < |buckets| => Labelled(buckets[i], le))
  }

  function FinalBuckets(routes: seq<Service>, mode: Mode, normalize: string -> string): seq<Bucket> {
    var buckets := Buckets(routes, GroupKey(mode, normalize));
    if mode.ByPrefix? then Merged(buckets) else buckets
  }

  function Grouped(routes: seq<Service>, mode: Mode, normalize: string -> string,
                   le: (string, string) -> bool): seq<Group>
  {
    SortBy(LabelledAll(FinalBuckets(routes, mode, normalize), le), ByLabel(le))
  }

  // ----- the grouping, step by step -----

  lemma {:induction false} KeysAre(routes: seq<Service>, key: Service -> string)
    ensures NoDuplicates(Keys(routes, key))
    ensures forall k :: k in Keys(routes, key) <==> exists r :: r in routes && key(r) == k
  {
    if routes != [] {
      var n := |routes| - 1;
      KeysAre(routes[..n], key);
      assert routes == routes[..n] + [routes[n]];
    }
  }

  lemma BucketNext(routes: seq<Service>, r: Service, key: Service -> string, k: string)
    ensures BucketFor(routes + [r], key, k) ==
            if key(r) == k then Bucket(k, BucketFor(routes, key, k).routes + [r]) else BucketFor(routes, key, k)
  {
    FilterSnoc(routes, r, WithKey(key, k));
  }

  lemma KeysNext(routes: seq<Service>, r: Service, key: Service -> string)
    ensures var keys, i := Keys(routes, key), Position(Buckets(routes, key), key(r));
            && i <= |keys|
            && Keys(routes + [r], key) == (if i < |keys| then keys else keys + [key(r)])
            && (forall j :: 0 <= j < |keys| && j != i ==> keys[j] != key(r))
            && (i < |keys| ==> keys[i] == key(r))
            && (i == |keys| ==> BucketFor(routes, key, key(r)).routes == [])
  {
    var keys, i := Keys(routes, key), Position(Buckets(routes, key), key(r));
    assert (routes + [r])[..|routes|] == routes;
    KeysAre(routes, key);
    if i < |keys| {
      assert Buckets(routes, key)[i].key == keys[i];
    } else {
      forall j | 0 <= j < |keys| ensures keys[j] != key(r) { assert Buckets(routes, key)[j].key == keys[j]; }
      forall x | x in routes ensures key(x) != key(r) { assert key(x) in keys; }
      FilterNothing(routes, WithKey(key, key(r)));
    }
  }

  lemma BucketsNext(routes: seq<Service>, r: Service, key: Service -> string)
    ensures Buckets(routes + [r], key) == Put(Buckets(routes, key), key(r), r)
  {
    var keys, after := Keys(routes, key), Buckets(routes + [r], key);
    KeysNext(routes, r, key);
    BucketNext(routes, r, key, key(r));
    forall j | 0 <= j < |after| ensures after[j] == Put(Buckets(routes, key), key(r), r)[j] {
      if j < |keys| { BucketNext(routes, r, key, keys[j]); }
    }
  }

  method CollectBuckets(routes: seq<Service>, key: Service -> string) returns (buckets: seq<Bucket>)
    ensures buckets == Buckets(routes, key)
  {
    buckets := [];
    for n := 0 to |routes|
      invariant buckets == Buckets(routes[..n], key)
    {
      assert routes[..n + 1] == routes[..n] + [routes[n]];
      BucketsNext(routes[..n], routes[n], key);
      var k := key(routes[n]);
      var i := Position(buckets, k);
      if i < |buckets| {
        buckets := buckets[i := Bucket(k, buckets[i].routes + [routes[n]])];
      } else {
        buckets := buckets + [Bucket(k, [routes[n]])];
      }
    }
    assert routes[..|routes|] == routes;
  }

  method MergeSingles(buckets: seq<Bucket>) returns (out: seq<Bucket>)
    ensures out == Merged(buckets)
  {
    var singles: seq<Service> := [];
    out := [];
    for n := 0 to |buckets|
      invariant singles == Flat(Filter(buckets[..n], IsSingle))
      invariant out == Filter(buckets[..n], IsShared)
    {
      assert buckets[..n + 1] == buckets[..n] + [buckets[n]];
      FilterSnoc(buckets[..n], buckets[n], IsSingle);
      FilterSnoc(buckets[..n], buckets[n], IsShared);
      if |buckets[n].routes| == 1 {
        FlatSnoc(Filter(buckets[..n], IsSingle), buckets[n]);
        assert buckets[n].routes == [buckets[n].routes[0]];
        assert Filter(buckets[..n + 1], IsSingle) == Filter(buckets[..n], IsSingle) + [buckets[n]];
        singles := singles + [buckets[n].routes[0]];
      } else {
        assert Filter(buckets[..n + 1], IsSingle) == Filter(buckets[..n], IsSingle);
        out := out + [buckets[n]];
      }
    }
    assert buckets[..|buckets|] == buckets;
    if |singles| > 0 { out := Set(out, Bucket(OTHER_KEY, singles)); }
  }

  method GroupRoutes(routes: seq<Service>, mode: Mode, normalize: string -> string, le: (string, string) -> bool)
    returns (groups: seq<Group>)
    ensures groups == Grouped(routes, mode, normalize, le)
  {
    hide Buckets, Merged;
    var buckets := CollectBuckets(routes, GroupKey(mode, normalize));
    if mode.ByPrefix? { buckets := MergeSingles(buckets); }
    groups := [];
    for n := 0 to |buckets|
      invariant groups == LabelledAll(buckets[..n], le)
    {
      groups := groups + [Labelled(buckets[n], le)];
    }
    assert buckets[..|buckets|] == buckets;
    groups := SortBy(groups, ByLabel(le));
  }

  // ----- nothing is lost, exactly when -----

  lemma FlatSnoc(buckets: seq<Bucket>, b: Bucket)
    ensures Flat(buckets + [b]) == Flat(buckets) + b.routes
  {
    assert (buckets + [b])[..|buckets|] == buckets;
  }

  /** How often a route is in a bucket, and in a group. */
  function InBucket(x: Service): Bucket -> nat {
    (b: Bucket) => multiset(b.routes)[x]
  }

  function InGroup(x: Service): Group -> nat {
    (g: Group) => multiset(g.routes)[x]
  }

  lemma {:induction false} FlatCounts(buckets: seq<Bucket>, x: Service)
    ensures multiset(Flat(buckets))[x] == Total(buckets, InBucket(x))
  {
    if buckets != [] { FlatCounts(buckets[..|buckets| - 1], x); }
  }

  lemma PutCounts(buckets: seq<Bucket>, k: string, r: Service, x: Service)
    ensures Total(Put(buckets, k, r), InBucket(x)) == Total(buckets, InBucket(x)) + multiset{r}[x]
  {
    var i := Position(buckets, k);
    if i < |buckets| {
      TotalReplace(buckets, i, Bucket(k, buckets[i].routes + [r]), InBucket(x));
    } else {
      TotalSnoc(buckets, Bucket(k, [r]), InBucket(x));
    }
  }

  lemma {:induction false} BucketsHoldAll(routes: seq<Service>, key: Service -> string, x: Service)
    ensures Total(Buckets(routes, key), InBucket(x)) == multiset(routes)[x]
  {
    if routes != [] {
      var n := |routes| - 1;
      BucketsHoldAll(routes[..n], key, x);
      assert routes == routes[..n] + [routes[n]];
      BucketsNext(routes[..n], routes[n], key);
      PutCounts(Buckets(routes[..n], key), key(routes[n]), routes[n], x);
    }
  }

  /** What the reserved bucket overwrites: the entry that already had its key. */
  function Overwritten(buckets: seq<Bucket>): seq<Service> {
    var shared := Filter(buckets, IsShared);
    var i := Position(shared, OTHER_KEY);
    if Filter(buckets, IsSingle) != [] && i < |shared| then shared[i].routes else []
  }

  lemma {:induction false} SinglesAppear(buckets: seq<Bucket>)
    requires forall b :: b in buckets ==> IsSingle(b)
    ensures Flat(buckets) == [] <==> buckets == []
  {
    if buckets != [] { assert buckets[|buckets| - 1] in buckets; }
  }

  lemma MergedHolds(buckets: seq<Bucket>, x: Service)
    ensures Total(Merged(buckets), InBucket(x)) + multiset(Overwritten(buckets))[x] == Total(buckets, InBucket(x))
  {
    var shared := Filter(buckets, IsShared);
    var lone := Filter(buckets, IsSingle);
    TotalFilter(buckets, IsSingle, IsShared, InBucket(x));
    forall b | b in lone ensures IsSingle(b) { FilterMember(buckets, IsSingle, b); }
    SinglesAppear(lone);
    FlatCounts(lone, x);
    if lone != [] {
      var i := Position(shared, OTHER_KEY);
      if i < |shared| {
        TotalReplace(shared, i, Bucket(OTHER_KEY, Flat(lone)), InBucket(x));
      } else {
        TotalSnoc(shared, Bucket(OTHER_KEY, Flat(lone)), InBucket(x));
      }
    }
  }

  lemma LabelledKeeps(b: Bucket, le: (string, string) -> bool, x: Service)
    ensures InGroup(x)(Labelled(b, le)) == InBucket(x)(b)
  {
    SortByPermutes(b.routes, ByHost(le));
  }

  lemma {:induction false} LabelledHold(buckets: seq<Bucket>, le: (string, string) -> bool, x: Service)
    ensures Total(LabelledAll(buckets, le), InGroup(x)) == Total(buckets, InBucket(x))
  {
    hide Labelled, InGroup, InBucket;
    if buckets != [] {
      var n := |buckets| - 1;
      var g := Labelled(buckets[n], le);
      LabelledHold(buckets[..n], le, x);
      assert LabelledAll(buckets, le) == LabelledAll(buckets[..n], le) + [g];
      TotalSnoc(LabelledAll(buckets[..n], le), g, InGroup(x));
      LabelledKeeps(buckets[n], le, x);
    }
  }

  /** The routes grouping drops: those under the reserved prefix, when lone routes are merged over them. */
  function Lost(routes: seq<Service>, mode: Mode, normalize: string -> string): seq<Service> {
    if mode.ByPrefix? then Overwritten(Buckets(routes, GroupKey(mode, normalize))) else []
  }

  /** How often a route appears among the groups. */
  function Times(groups: seq<Group>, x: Service): nat {
    Total(groups, InGroup(x))
  }

  /** Every route appears among the groups as often as in the input, but for those overwritten. */
  lemma GroupsHold(routes: seq<Service>, mode: Mode, normalize: string -> string, le: (string, string) -> bool,
                   x: Service)
    ensures Times(Grouped(routes, mode, normalize, le), x) + multiset(Lost(routes, mode, normalize))[x] ==
            multiset(routes)[x]
  {
    var buckets := FinalBuckets(routes, mode, normalize);
    TotalSorted(LabelledAll(buckets, le), ByLabel(le), InGroup(x));
    LabelledHold(buckets, le, x);
    BucketsHoldAll(routes, GroupKey(mode, normalize), x);
    if mode.ByPrefix? { MergedHolds(Buckets(routes, GroupKey(mode, normalize)), x); }
  }

  /** Two or more routes share the reserved prefix, and some prefix occurs only once. */
  predicate Collides(routes: seq<Service>, mode: Mode, normalize: string -> string) {
    var key := GroupKey(mode, normalize);
    && mode.ByPrefix?
    && |Filter(routes, WithKey(key, OTHER_KEY))| >= 2
    && exists r :: r in routes && |Filter(routes, WithKey(key, key(r)))| == 1
  }

  lemma LostExactly(routes: seq<Service>, mode: Mode, normalize: string -> string)
    ensures Lost(routes, mode, normalize) ==
            if Collides(routes, mode, normalize)
            then Filter(routes, WithKey(GroupKey(mode, normalize), OTHER_KEY)) else []
  {
    if mode.ByPrefix? {
      var key := GroupKey(mode, normalize);
      var buckets := Buckets(routes, key);
      var shared := Filter(buckets, IsShared);
      SomeSingle(routes, key);
      OtherShared(routes, key);
    }
  }

  lemma SomeSingle(routes: seq<Service>, key: Service -> string)
    ensures Filter(Buckets(routes, key), IsSingle) != [] <==>
            exists r :: r in routes && |Filter(routes, WithKey(key, key(r)))| == 1
  {
    var buckets, keys := Buckets(routes, key), Keys(routes, key);
    var singles := Filter(buckets, IsSingle);
    KeysAre(routes, key);
    if singles != [] {
      assert singles[0] in singles;
      FilterMember(buckets, IsSingle, singles[0]);
      var i :| 0 <= i < |buckets| && buckets[i] == singles[0];
      assert keys[i] in keys;
      var r :| r in routes && key(r) == keys[i];
      assert |Filter(routes, WithKey(key, key(r)))| == 1;
    }
    if r :| r in routes && |Filter(routes, WithKey(key, key(r)))| == 1 {
      assert key(r) in keys;
      var i :| 0 <= i < |keys| && keys[i] == key(r);
      assert buckets[i] in buckets && IsSingle(buckets[i]);
      FilterMember(buckets, IsSingle, buckets[i]);
    }
  }

  lemma OtherShared(routes: seq<Service>, key: Service -> string)
    ensures var shared := Filter(Buckets(routes, key), IsShared);
            var here := Filter(routes, WithKey(key, OTHER_KEY));
            var i := Position(shared, OTHER_KEY);
            if |here| >= 2 then i < |shared| && shared[i].routes == here else i == |shared|
  {
    var buckets, keys := Buckets(routes, key), Keys(routes, key);
    var shared := Filter(buckets, IsShared);
    var here := Filter(routes, WithKey(key, OTHER_KEY));
    var i := Position(shared, OTHER_KEY);
    KeysAre(routes, key);
    if |here| >= 2 {
      assert here[0] in here;
      FilterMember(routes, WithKey(key, OTHER_KEY), here[0]);
      assert OTHER_KEY in keys;
      var j :| 0 <= j < |keys| && keys[j] == OTHER_KEY;
      FilterMember(buckets, IsShared, buckets[j]);
      var m :| 0 <= m < |shared| && shared[m] == buckets[j];
    }
    if i < |shared| {
      assert shared[i] in shared;
      FilterMember(buckets, IsShared, shared[i]);
      var j :| 0 <= j < |buckets| && buckets[j] == shared[i];
      assert keys[j] in keys;
      var r :| r in routes && key(r) == OTHER_KEY;
      FilterMember(routes, WithKey(key, OTHER_KEY), r);
    }
  }

  /** Grouping keeps every route as often as it was there precisely when the reserved key does not collide. */
  lemma ConservedExactly(routes: seq<Service>, mode: Mode, normalize: string -> string, le: (string, string) -> bool)
    ensures (forall x :: Times(Grouped(routes, mode, normalize, le), x) == multiset(routes)[x]) <==>
            !Collides(routes, mode, normalize)
  {
    var lost := Lost(routes, mode, normalize);
    LostExactly(routes, mode, normalize);
    forall x ensures Times(Grouped(routes, mode, normalize, le), x) + multiset(lost)[x] == multiset(routes)[x] {
      GroupsHold(routes, mode, normalize, le, x);
    }
    if Collides(routes, mode, normalize) { assert lost[0] in multiset(lost); }
  }

  lemma FilterThree(x: Service, y: Service, z: Service, keep: Service -> bool)
    ensures Filter([x, y, z], keep) ==
            (if keep(x) then [x] else []) + (if keep(y) then [y] else []) + (if keep(z) then [z] else [])
  {
    var none: seq<Service> := [];
    assert [x] == none + [x] && [x, y] == [x] + [y] && [x, y, z] == [x, y] + [z];
    FilterSnoc(none, x, keep);
    FilterSnoc([x], y, keep);
    FilterSnoc([x, y], z, keep);
  }

  /** Two hosts under the reserved prefix and a lone one under another: the two are dropped. */
  lemma ReservedPrefixDrops(x: Service, y: Service, z: Service, normalize: string -> string)
    requires HostPrefix(x.hostname, normalize) == HostPrefix(y.hostname, normalize) ==
             OTHER_KEY != HostPrefix(z.hostname, normalize)
    ensures Collides([x, y, z], ByPrefix, normalize) && Lost([x, y, z], ByPrefix, normalize) == [x, y]
  {
    var key := GroupKey(ByPrefix, normalize);
    FilterThree(x, y, z, WithKey(key, OTHER_KEY));
    FilterThree(x, y, z, WithKey(key, key(z)));
    assert z in [x, y, z];
    LostExactly([x, y, z], ByPrefix, normalize);
  }

  lemma PlainPrefix(p: string, normalize: string -> string)
    requires '.' !in p && '-' !in p && normalize(p) == p
    ensures HostPrefix(p, normalize) == p
  {
    assert IndexOf(p, '.') == |p| && IndexOf(p, '-') == |p|;
  }

  lemma DashedPrefix(p: string, rest: string, normalize: string -> string)
    requires '.' !in p && '-' !in p && '.' !in rest && normalize(p + "-" + rest) == p + "-" + rest
    ensures HostPrefix(p + "-" + rest, normalize) == p
  {
    var long := p + "-" + rest;
    assert IndexOf(long, '.') == |long|;
    assert long[|p|] == '-';
    assert forall j :: 0 <= j < |p| ==> long[j] == p[j];
    assert IndexOf(long, '-') == |p|;
    assert long[..|p|] == p;
  }

  /** The dashboard's normalisation leaves these three alone, as they do not look like regular expressions. */
  ghost predicate LeavesAlone(normalize: string -> string) {
    normalize(OTHER_KEY) == OTHER_KEY && normalize(OTHER_KEY + "-" + "b") == OTHER_KEY + "-" + "b" &&
    normalize("c") == "c"
  }

  /** Hosts on which it happens: "__other", "__other-b" and "c". */
  lemma ReservedPrefixes(normalize: string -> string, source: string, target: string)
    requires LeavesAlone(normalize)
    ensures var x, y := Service(OTHER_KEY, source, target), Service(OTHER_KEY + "-" + "b", source, target);
            var z := Service("c", source, target);
            Collides([x, y, z], ByPrefix, normalize) && Lost([x, y, z], ByPrefix, normalize) == [x, y]
  {
    hide Collides, Lost, HostPrefix;
    PlainPrefix(OTHER_KEY, normalize);
    DashedPrefix(OTHER_KEY, "b", normalize);
    PlainPrefix("c", normalize);
    var x, y := Service(OTHER_KEY, source, target), Service(OTHER_KEY + "-" + "b", source, target);
    ReservedPrefixDrops(x, y, Service("c", source, target), normalize);
  }

  // ----- what each group holds -----

  /** What the bucket of a key holds once lone routes may have been merged. */
  ghost predicate HoldsRightly(routes: seq<Service>, key: Service -> string, merged: bool, b: Bucket) {
    forall r :: r in b.routes <==>
      r in routes &&
      if merged && b.key == OTHER_KEY then |Filter(routes, WithKey(key, key(r)))| == 1 else key(r) == b.key
  }

  lemma BucketsRight(routes: seq<Service>, key: Service -> string, b: Bucket)
    requires b in Buckets(routes, key)
    ensures b == BucketFor(routes, key, b.key)
    ensures forall r :: r in b.routes <==> r in routes && key(r) == b.key
  {
    forall r ensures r in b.routes <==> r in routes && key(r) == b.key {
      FilterMember(routes, WithKey(key, b.key), r);
    }
  }

  lemma {:induction false} FlatMember(buckets: seq<Bucket>, r: Service)
    ensures r in Flat(buckets) <==> exists b :: b in buckets && r in b.routes
  {
    if buckets != [] {
      var n := |buckets| - 1;
      FlatMember(buckets[..n], r);
      assert buckets == buckets[..n] + [buckets[n]];
    }
  }

  lemma LoneRoutes(routes: seq<Service>, key: Service -> string, r: Service)
    ensures r in Flat(Filter(Buckets(routes, key), IsSingle)) <==>
            r in routes && |Filter(routes, WithKey(key, key(r)))| == 1
  {
    var buckets, keys := Buckets(routes, key), Keys(routes, key);
    var lone := Filter(buckets, IsSingle);
    FlatMember(lone, r);
    KeysAre(routes, key);
    if r in Flat(lone) {
      var b :| b in lone && r in b.routes;
      FilterMember(buckets, IsSingle, b);
      BucketsRight(routes, key, b);
    }
    if r in routes && |Filter(routes, WithKey(key, key(r)))| == 1 {
      assert key(r) in keys;
      var i :| 0 <= i < |keys| && keys[i] == key(r);
      assert buckets[i] in buckets;
      BucketsRight(routes, key, buckets[i]);
      FilterMember(buckets, IsSingle, buckets[i]);
    }
  }

  /** Whether lone routes are merged into the reserved bucket. */
  predicate Merges(routes: seq<Service>, mode: Mode, normalize: string -> string) {
    mode.ByPrefix? && Filter(Buckets(routes, GroupKey(mode, normalize)), IsSingle) != []
  }

  lemma MergedRight(routes: seq<Service>, key: Service -> string, b: Bucket)
    requires b in Merged(Buckets(routes, key))
    ensures HoldsRightly(routes, key, Filter(Buckets(routes, key), IsSingle) != [], b)
  {
    var buckets := Buckets(routes, key);
    var shared, lone := Filter(buckets, IsShared), Filter(buckets, IsSingle);
    forall x | x in lone ensures IsSingle(x) { FilterMember(buckets, IsSingle, x); }
    SinglesAppear(lone);
    if lone != [] && b.key == OTHER_KEY {
      OneReserved(routes, key, b);
      forall r ensures r in b.routes <==> r in routes && |Filter(routes, WithKey(key, key(r)))| == 1 {
        LoneRoutes(routes, key, r);
      }
    } else {
      assert b in shared;
      FilterMember(buckets, IsShared, b);
      BucketsRight(routes, key, b);
    }
  }

  lemma OneReserved(routes: seq<Service>, key: Service -> string, b: Bucket)
    requires Filter(Buckets(routes, key), IsSingle) != [] && b in Merged(Buckets(routes, key)) && b.key == OTHER_KEY
    ensures b.routes == Flat(Filter(Buckets(routes, key), IsSingle))
  {
    var buckets, keys := Buckets(routes, key), Keys(routes, key);
    var shared, lone := Filter(buckets, IsShared), Filter(buckets, IsSingle);
    var merged := Merged(buckets);
    forall x | x in lone ensures IsSingle(x) { FilterMember(buckets, IsSingle, x); }
    SinglesAppear(lone);
    KeysAre(routes, key);
    FilterKeysApart(buckets);
    var i :| 0 <= i < |merged| && merged[i] == b;
    var at := Position(shared, OTHER_KEY);
    if at < |shared| { assert i == at; }
  }

  ghost predicate KeysApart(buckets: seq<Bucket>) {
    forall i, j :: 0 <= i < j < |buckets| ==> buckets[i].key != buckets[j].key
  }

  lemma {:induction false} FilterKeysApart(buckets: seq<Bucket>)
    requires KeysApart(buckets)
    ensures KeysApart(Filter(buckets, IsShared))
  {
    if buckets != [] {
      var n := |buckets| - 1;
      var before := Filter(buckets[..n], IsShared);
      FilterKeysApart(buckets[..n]);
      forall i | 0 <= i < |before| ensures before[i].key != buckets[n].key {
        FilterMember(buckets[..n], IsShared, before[i]);
        assert before[i] in before;
        var j :| 0 <= j < n && buckets[j] == before[i];
      }
    }
  }

  /** A group holds exactly the routes with its key; the reserved one, once lone routes are merged, exactly those. */
  lemma GroupsByKey(routes: seq<Service>, mode: Mode, normalize: string -> string, le: (string, string) -> bool,
                    g: Group)
    requires g in Grouped(routes, mode, normalize, le)
    ensures HoldsRightly(routes, GroupKey(mode, normalize), Merges(routes, mode, normalize), Bucket(g.key, g.routes))
  {
    var key := GroupKey(mode, normalize);
    var buckets := FinalBuckets(routes, mode, normalize);
    var groups := LabelledAll(buckets, le);
    SortByPermutes(groups, ByLabel(le));
    assert g in multiset(Grouped(routes, mode, normalize, le));
    assert g in multiset(groups);
    var i :| 0 <= i < |groups| && groups[i] == g;
    var b := buckets[i];
    assert b in buckets;
    if mode.ByPrefix? { MergedRight(routes, key, b); } else { BucketsRight(routes, key, b); }
    SortByPermutes(b.routes, ByHost(le));
    forall r ensures r in g.routes <==> r in b.routes {
      assert r in g.routes <==> r in multiset(g.routes);
      assert r in b.routes <==> r in multiset(b.routes);
    }
  }

  // ----- shape and order of the groups -----

  predicate Holds(g: Group) {
    g.routes != []
  }

  lemma BucketsNonEmpty(routes: seq<Service>, key: Service -> string)
    ensures forall b :: b in Buckets(routes, key) ==> b.routes != []
  {
    var buckets, keys := Buckets(routes, key), Keys(routes, key);
    KeysAre(routes, key);
    forall i | 0 <= i < |buckets| ensures buckets[i].routes != [] {
      assert keys[i] in keys;
      var r :| r in routes && key(r) == keys[i];
      FilterMember(routes, WithKey(key, keys[i]), r);
    }
  }

  lemma MergedNonEmpty(buckets: seq<Bucket>)
    requires forall b :: b in buckets ==> b.routes != []
    ensures forall b :: b in Merged(buckets) ==> b.routes != []
  {
    forall b | b in Filter(buckets, IsShared) ensures b.routes != [] { FilterMember(buckets, IsShared, b); }
  }

  /** No group is empty. */
  lemma GroupsNonEmpty(routes: seq<Service>, mode: Mode, normalize: string -> string, le: (string, string) -> bool)
    ensures forall g :: g in Grouped(routes, mode, normalize, le) ==> Holds(g)
  {
    var buckets := FinalBuckets(routes, mode, normalize);
    var groups := LabelledAll(buckets, le);
    BucketsNonEmpty(routes, GroupKey(mode, normalize));
    if mode.ByPrefix? { MergedNonEmpty(Buckets(routes, GroupKey(mode, normalize))); }
    forall g | g in groups ensures Holds(g) {
      var i :| 0 <= i < |groups| && groups[i] == g;
      assert buckets[i] in buckets;
      SortByPermutes(buckets[i].routes, ByHost(le));
    }
    SortByPermutes(groups, ByLabel(le));
    forall g | g in Grouped(routes, mode, normalize, le) ensures Holds(g) {
      assert g in multiset(Grouped(routes, mode, normalize, le));
      assert g in multiset(groups);
    }
  }

  /** Groups come by label with the reserved one last, and the routes of each by host. */
  lemma GroupsInOrder(routes: seq<Service>, mode: Mode, normalize: string -> string, le: (string, string) -> bool)
    requires TotalOrder(le)
    ensures SortedBy(Grouped(routes, mode, normalize, le), ByLabel(le))
    ensures forall g :: g in Grouped(routes, mode, normalize, le) ==> SortedBy(g.routes, ByHost(le))
  {
    var buckets := FinalBuckets(routes, mode, normalize);
    var groups := LabelledAll(buckets, le);
    OrdersAreTotal(le);
    SortByOrders(groups, ByLabel(le));
    SortByPermutes(groups, ByLabel(le));
    forall g | g in Grouped(routes, mode, normalize, le) ensures SortedBy(g.routes, ByHost(le)) {
      assert g in multiset(Grouped(routes, mode, normalize, le));
      assert g in multiset(groups);
      var i :| 0 <= i < |groups| && groups[i] == g;
      SortByOrders(buckets[i].routes, ByHost(le));
    }
  }

  lemma OrdersAreTotal(le: (string, string) -> bool)
    requires TotalOrder(le)
    ensures TotalOrder(ByLabel(le)) && TotalOrder(ByHost(le))
  {
    var g, h := ByLabel(le), ByHost(le);
    forall x, y ensures g(x, y) || g(y, x) { assert le(x.title, y.title) || le(y.title, x.title); }
    forall x, y, z | g(x, y) && g(y, z) ensures g(x, z) {
      if z.key != OTHER_KEY { assert le(x.title, y.title) && le(y.title, z.title); }
    }
    forall x, y ensures h(x, y) || h(y, x) { assert le(x.hostname, y.hostname) || le(y.hostname, x.hostname); }
    forall x, y, z | h(x, y) && h(y, z) ensures h(x, z) {
      assert le(x.hostname, y.hostname) && le(y.hostname, z.hostname);
    }
  }

  // ----- domains and prefixes, in plain terms -----

  lemma {:induction false} SplitPlain(s: string, c: char)
    requires c !in s
    ensures Split(s, c) == [s]
  {
    assert IndexOf(s, c) == |s|;
  }

  lemma {:induction false} SplitFirst(a: string, rest: string, c: char)
    requires c !in a
    ensures Split(a + [c] + rest, c) == [a] + Split(rest, c)
  {
    var s := a + [c] + rest;
    assert s[|a|] == c;
    assert forall j :: 0 <= j < |a| ==> s[j] == a[j];
    assert IndexOf(s, c) == |a|;
    assert s[..|a|] == a && s[|a| + 1..] == rest;
  }

  lemma {:induction false} SplitLast(a: string, last: string, c: char)
    requires c !in last
    ensures Split(a + [c] + last, c) == Split(a, c) + [last]
    decreases |a|
  {
    var d := IndexOf(a, c);
    if d == |a| {
      assert c !in a;
      SplitFirst(a, last, c);
      SplitPlain(a, c);
      SplitPlain(last, c);
    } else {
      var first, more := a[..d], a[d + 1..];
      assert a == first + [c] + more;
      assert a + [c] + last == first + [c] + (more + [c] + last);
      SplitFirst(first, more + [c] + last, c);
      SplitFirst(first, more, c);
      SplitLast(more, last, c);
    }
  }

  /** The base domain of a name is its last two labels, or the name itself if it has no more. */
  lemma BaseDomainExactly(host: string, above: string, second: string, top: string, normalize: string -> string)
    requires '.' !in second && '.' !in top
    ensures normalize(host) == top ==> BaseDomain(host, normalize) == top
    ensures normalize(host) == second + "." + top ==> BaseDomain(host, normalize) == second + "." + top
    ensures normalize(host) == above + "." + second + "." + top ==> BaseDomain(host, normalize) == second + "." + top
  {
    SplitPlain(top, '.');
    SplitPlain(second, '.');
    SplitLast(second, top, '.');
    SplitLast(above + "." + second, top, '.');
    SplitLast(above, second, '.');
    var parts := Split(above, '.') + [second] + [top];
    assert parts[|parts| - 2..] == [second, top];
    assert [second, top][1..] == [top];
    assert Join([second, top], '.') == second + "." + top;
  }

  /** The prefix of a name is what comes before its first dot or dash. */
  lemma HostPrefixExactly(host: string, p: string, rest: string, normalize: string -> string)
    requires '.' !in p && '-' !in p && (rest == "" || rest[0] == '.' || rest[0] == '-')
    requires normalize(host) == p + rest
    ensures HostPrefix(host, normalize) == p
  {
    var s := p + rest;
    var d := IndexOf(s, '.');
    var first := s[..d];
    assert Split(s, '.')[0] == first;
    assert forall j :: 0 <= j < |p| ==> s[j] == p[j];
    assert d >= |p| && first[..|p|] == p;
    if rest != "" { assert s[|p|] == rest[0]; }
    assert IndexOf(first, '-') == |p| by {
      assert forall j :: 0 <= j < |p| ==> first[j] == p[j];
    }
    assert Split(first, '-')[0] == first[..|p|];
  }

  /** By source, domain or prefix: a group holds the routes that share its key, each read from the route itself. */
  lemma MembersByMode(routes: seq<Service>, normalize: string -> string, le: (string, string) -> bool, g: Group)
    ensures g in Grouped(routes, BySource, normalize, le) ==>
              forall r :: r in g.routes <==> r in routes && r.source == g.key
    ensures g in Grouped(routes, ByDomain, normalize, le) ==>
              forall r :: r in g.routes <==> r in routes && BaseDomain(r.hostname, normalize) == g.key
    ensures g in Grouped(routes, ByPrefix, normalize, le) && g.key != "__other" ==>
              forall r :: r in g.routes <==> r in routes && HostPrefix(r.hostname, normalize) == g.key
  {
    hide Grouped;
    if g in Grouped(routes, BySource, normalize, le) { GroupsByKey(routes, BySource, normalize, le, g); }
    if g in Grouped(routes, ByDomain, normalize, le) { GroupsByKey(routes, ByDomain, normalize, le, g); }
    if g in Grouped(routes, ByPrefix, normalize, le) { GroupsByKey(routes, ByPrefix, normalize, le, g); }
  }

  lemma LabelsKept(buckets: seq<Bucket>, le: (string, string) -> bool, g: Group)
    requires g in LabelledAll(buckets, le)
    ensures g.title == if g.key == "__other" then "other" else g.key
  {
  }

  /** Groups are labelled by their key, the reserved one "other", and come by label with that one last. */
  lemma OrderExactly(routes: seq<Service>, mode: Mode, normalize: string -> string, le: (string, string) -> bool)
    requires TotalOrder(le)
    ensures var groups := Grouped(routes, mode, normalize, le);
            && (forall g :: g in groups ==> g.title == if g.key == "__other" then "other" else g.key)
            && (forall i, j :: 0 <= i < j < |groups| && groups[j].key != "__other" ==>
                  groups[i].key != "__other" && le(groups[i].key, groups[j].key))
            && (forall g, i, j :: g in groups && 0 <= i < j < |g.routes| ==>
                  le(g.routes[i].hostname, g.routes[j].hostname))
  {
    hide LabelledAll, FinalBuckets, SortBy;
    GroupsInOrder(routes, mode, normalize, le);
    var groups, all := Grouped(routes, mode, normalize, le), LabelledAll(FinalBuckets(routes, mode, normalize), le);
    SortByPermutes(all, ByLabel(le));
    forall g | g in groups ensures g.title == if g.key == "__other" then "other" else g.key {
      assert g in multiset(groups);
      assert g in multiset(all);
      LabelsKept(FinalBuckets(routes, mode, normalize), le, g);
    }
    forall i, j | 0 <= i < j < |groups| && groups[j].key != "__other"
      ensures groups[i].key != "__other" && le(groups[i].key, groups[j].key)
    {
      assert ByLabel(le)(groups[i], groups[j]);
      assert groups[i] in groups && groups[j] in groups;
    }
    forall g, i, j | g in groups && 0 <= i < j < |g.routes| ensures le(g.routes[i].hostname, g.routes[j].hostname) {
      assert ByHost(le)(g.routes[i], g.routes[j]);
    }
  }
}
