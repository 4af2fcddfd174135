/** Filtering and counting over sequences, in the order loops build them. */
module Sequences {

  function Filter<T>(s: seq<T>, keep: T -> bool): seq<T> {
    if s == [] then []
    else Filter(s[..|s| - 1], keep) + (if keep(s[|s| - 1]) then [s[|s| - 1]] else [])
  }

  lemma FilterSnoc<T>(s: seq<T>, x: T, keep: T -> bool)
    ensures Filter(s + [x], keep) == Filter(s, keep) + (if keep(x) then [x] else [])
  {
    assert (s + [x])[..|s|] == s;
  }

  lemma FilterLast<T>(s: seq<T>, keep: T -> bool)
    requires s != []
    ensures var before := Filter(s[..|s| - 1], keep);
            Filter(s, keep) == if keep(s[|s| - 1]) then before + [s[|s| - 1]] else before
  {
  }

  lemma {:induction false} FilterConcat<T>(a: seq<T>, b: seq<T>, keep: T -> bool)
    ensures Filter(a + b, keep) == Filter(a, keep) + Filter(b, keep)
  {
    if b == [] {
      assert a + b == a;
    } else {
      var n := |b| - 1;
      assert a + b == (a + b[..n]) + [b[n]];
      FilterSnoc(a + b[..n], b[n], keep);
      FilterConcat(a, b[..n], keep);
    }
  }

  lemma {:induction false} FilterMember<T>(s: seq<T>, keep: T -> bool, x: T)
    ensures x in Filter(s, keep) <==> x in s && keep(x)
  {
    if s != [] {
      FilterMember(s[..|s| - 1], keep, x);
      assert s == s[..|s| - 1] + [s[|s| - 1]];
    }
  }

  /** Filtering keeps every occurrence of a kept element and none of the others. */
  lemma {:induction false} FilterCount<T>(s: seq<T>, keep: T -> bool, x: T)
    ensures multiset(Filter(s, keep))[x] == if keep(x) then multiset(s)[x] else 0
  {
    if s != [] {
      FilterCount(s[..|s| - 1], keep, x);
      assert s == s[..|s| - 1] + [s[|s| - 1]];
    }
  }

  lemma {:induction false} FilterNothing<T>(s: seq<T>, keep: T -> bool)
    requires forall x :: x in s ==> !keep(x)
    ensures Filter(s, keep) == []
  {
    if s != [] { FilterNothing(s[..|s| - 1], keep); }
  }

  /** An element may move to the end when nothing behind it is kept, or when it is not kept itself. */
  lemma FilterMoveLast<T>(a: seq<T>, x: T, b: seq<T>, keep: T -> bool)
    requires keep(x) ==> Filter(b, keep) == []
    ensures Filter(a + [x] + b, keep) == Filter((a + b) + [x], keep)
  {
    FilterConcat(a + [x], b, keep);
    FilterSnoc(a, x, keep);
    FilterConcat(a, b, keep);
    FilterSnoc(a + b, x, keep);
    MoveLast(Filter(a, keep), if keep(x) then [x] else [], Filter(b, keep));
  }

  lemma MoveLast<T>(a: seq<T>, x: seq<T>, b: seq<T>)
    requires x == [] || b == []
    ensures a + x + b == a + b + x
  {
    if x == [] { assert a + x == a && a + b + x == a + b; }
    if b == [] { assert a + b == a && a + x + b == a + x; }
  }

  lemma {:induction false} FilterTwice<T>(s: seq<T>, first: T -> bool, second: T -> bool, both: T -> bool)
    requires forall x :: x in s ==> (both(x) <==> first(x) && second(x))
    ensures Filter(Filter(s, first), second) == Filter(s, both)
  {
    if s != [] {
      var before, x := s[..|s| - 1], s[|s| - 1];
      FilterTwice(before, first, second, both);
      assert x in s;
      if first(x) {
        FilterSnoc(Filter(before, first), x, second);
      } else {
        assert Filter(s, first) == Filter(before, first);
      }
    }
  }

  ghost predicate NoDuplicates<T>(s: seq<T>) {
    forall i, j :: 0 <= i < j < |s| ==> s[i] != s[j]
  }

  /** Some iteration order over the keys of a map. */
  ghost predicate Enumerates<T>(order: seq<T>, keys: set<T>) {
    NoDuplicates(order) && (forall x :: x in order ==> x in keys) && (forall x :: x in keys ==> x in order)
  }

  lemma EnumeratesNone<T>(order: seq<T>, keys: set<T>)
    requires Enumerates(order, keys)
    ensures order == [] <==> keys == {}
  {
    if order != [] { assert order[0] in order; }
  }

  lemma EnumeratesOne<T>(order: seq<T>, x: T)
    requires Enumerates(order, {x})
    ensures order == [x]
  {
    assert x in order;
    assert order[|order| - 1] in order;
    DropLast(order, {x});
    assert {x} - {x} == {};
    EnumeratesNone(order[..|order| - 1], {x} - {x});
  }

  lemma EnumeratesNext<T>(order: seq<T>, x: T, keys: set<T>)
    requires Enumerates(order, keys) && x !in keys
    ensures Enumerates(order + [x], keys + {x})
  {
  }

  lemma {:induction false} SomeOrder(keys: set<string>) returns (order: seq<string>)
    ensures Enumerates(order, keys)
    decreases |keys|
  {
    if keys == {} {
      order := [];
    } else {
      var k :| k in keys;
      var rest := SomeOrder(keys - {k});
      EnumeratesNext(rest, k, keys - {k});
      assert keys - {k} + {k} == keys;
      order := rest + [k];
    }
  }

  /** The sequences a map holds, one after the other in the order in which the map is walked. */
  function ConcatIn<T>(m: map<string, seq<T>>, order: seq<string>): seq<T>
    requires forall k :: k in order ==> k in m
  {
    if order == [] then []
    else ConcatIn(m, order[..|order| - 1]) + m[order[|order| - 1]]
  }

  lemma {:induction false} ConcatSplit<T>(m: map<string, seq<T>>, a: seq<string>, b: seq<string>)
    requires (forall k :: k in a ==> k in m) && (forall k :: k in b ==> k in m)
    ensures ConcatIn(m, a + b) == ConcatIn(m, a) + ConcatIn(m, b)
  {
    if b == [] {
      assert a + b == a;
    } else {
      var n := |b| - 1;
      assert (a + b)[..|a + b| - 1] == a + b[..n];
      ConcatSplit(m, a, b[..n]);
    }
  }

  lemma ConcatOne<T>(m: map<string, seq<T>>, k: string)
    requires k in m
    ensures ConcatIn(m, [k]) == m[k]
  {
    assert [k][..0] == [];
    assert ConcatIn(m, [k][..0]) == [];
  }

  lemma ConcatTakeOut<T>(m: map<string, seq<T>>, a: seq<string>, k: string, b: seq<string>)
    requires (forall k :: k in a ==> k in m) && (forall k :: k in b ==> k in m) && k in m
    ensures multiset(ConcatIn(m, a + [k] + b)) == multiset(ConcatIn(m, a + b)) + multiset(m[k])
  {
    ConcatSplit(m, a + [k], b);
    ConcatSplit(m, a, [k]);
    ConcatSplit(m, a, b);
    ConcatOne(m, k);
  }

  /** Walking the map in another order gives the same elements, each as often. */
  lemma {:induction false} ConcatPermutes<T>(m: map<string, seq<T>>, o1: seq<string>, o2: seq<string>,
                                             keys: set<string>)
    requires Enumerates(o1, keys) && Enumerates(o2, keys) && keys <= m.Keys
    ensures multiset(ConcatIn(m, o1)) == multiset(ConcatIn(m, o2))
    decreases |o1|
  {
    if o1 == [] {
      EnumeratesNone(o1, keys);
      EnumeratesNone(o2, keys);
    } else {
      var n := |o1| - 1;
      var k := o1[n];
      assert k in o1;
      var i :| 0 <= i < |o2| && o2[i] == k;
      var a, b := o2[..i], o2[i + 1..];
      assert o2 == a + [k] + b;
      assert o1 == o1[..n] + [k] + [];
      assert o1[..n] + [] == o1[..n];
      DropLast(o1, keys);
      DropAt(o2, keys, i);
      ConcatPermutes(m, o1[..n], a + b, keys - {k});
      ConcatTakeOut(m, a, k, b);
    }
  }

  lemma DropLast<T>(order: seq<T>, keys: set<T>)
    requires Enumerates(order, keys) && order != []
    ensures Enumerates(order[..|order| - 1], keys - {order[|order| - 1]})
  {
    DropAt(order, keys, |order| - 1);
    assert order[..|order| - 1] + order[|order|..] == order[..|order| - 1];
  }

  lemma DropAt<T>(order: seq<T>, keys: set<T>, i: nat)
    requires Enumerates(order, keys) && i < |order|
    ensures Enumerates(order[..i] + order[i + 1..], keys - {order[i]})
  {
    var rest := order[..i] + order[i + 1..];
    forall x | x in rest ensures x in keys - {order[i]} {
      var j :| 0 <= j < |rest| && rest[j] == x;
      assert rest[j] == if j < i then order[j] else order[j + 1];
    }
    forall x | x in keys - {order[i]} ensures x in rest {
      var j :| 0 <= j < |order| && order[j] == x;
      assert rest[if j < i then j else j - 1] == x;
    }
    forall j, k | 0 <= j < k < |rest| ensures rest[j] != rest[k] {
      assert rest[j] == if j < i then order[j] else order[j + 1];
      assert rest[k] == if k < i then order[k] else order[k + 1];
    }
  }

  // ----- sorting by an order -----

  function InsertBy<T>(s: seq<T>, x: T, le: (T, T) -> bool): seq<T> {
    if s != [] && le(s[0], x) then [s[0]] + InsertBy(s[1..], x, le) else [x] + s
  }

  /** The stable sort by an order. */
  function SortBy<T>(s: seq<T>, le: (T, T) -> bool): seq<T> {
    if s == [] then [] else InsertBy(SortBy(s[..|s| - 1], le), s[|s| - 1], le)
  }

  lemma {:induction false} InsertByPermutes<T>(s: seq<T>, x: T, le: (T, T) -> bool)
    ensures multiset(InsertBy(s, x, le)) == multiset(s) + multiset{x}
  {
    if s != [] && le(s[0], x) {
      InsertByPermutes(s[1..], x, le);
      assert s == [s[0]] + s[1..];
    }
  }

  lemma {:induction false} SortByPermutes<T>(s: seq<T>, le: (T, T) -> bool)
    ensures multiset(SortBy(s, le)) == multiset(s) && |SortBy(s, le)| == |s|
  {
    if s != [] {
      var n := |s| - 1;
      SortByPermutes(s[..n], le);
      InsertByPermutes(SortBy(s[..n], le), s[n], le);
      assert s == s[..n] + [s[n]];
    }
    assert |multiset(SortBy(s, le))| == |multiset(s)|;
  }

  ghost predicate TotalOrder<T(!new)>(le: (T, T) -> bool) {
    && (forall x, y :: le(x, y) || le(y, x))
    && (forall x, y, z :: le(x, y) && le(y, z) ==> le(x, z))
  }

  ghost predicate SortedBy<T>(s: seq<T>, le: (T, T) -> bool) {
    forall i, j :: 0 <= i < j < |s| ==> le(s[i], s[j])
  }

  lemma {:induction false} InsertByKeepsOrder<T(!new)>(s: seq<T>, x: T, le: (T, T) -> bool)
    requires TotalOrder(le) && SortedBy(s, le)
    ensures SortedBy(InsertBy(s, x, le), le)
  {
    if s != [] && le(s[0], x) {
      var rest := InsertBy(s[1..], x, le);
      InsertByKeepsOrder(s[1..], x, le);
      InsertByPermutes(s[1..], x, le);
      forall j | 0 <= j < |rest| ensures le(s[0], rest[j]) {
        assert rest[j] in multiset(rest);
        assert rest[j] in s[1..] || rest[j] == x;
      }
    }
  }

  lemma {:induction false} SortByOrders<T(!new)>(s: seq<T>, le: (T, T) -> bool)
    requires TotalOrder(le)
    ensures SortedBy(SortBy(s, le), le)
  {
    if s != [] {
      SortByOrders(s[..|s| - 1], le);
      InsertByKeepsOrder(SortBy(s[..|s| - 1], le), s[|s| - 1], le);
    }
  }

  // ----- the order of strings -----

  predicate StringLe(a: string, b: string) {
    a == "" || (b != "" && (a[0] < b[0] || (a[0] == b[0] && StringLe(a[1..], b[1..]))))
  }

  /** The order of strings: a prefix comes first, and otherwise the first difference decides. */
  lemma {:induction false} StringLeExactly(a: string, b: string)
    ensures StringLe(a, b) <==>
              a <= b || exists i :: 0 <= i < |a| && i < |b| && a[..i] == b[..i] && a[i] < b[i]
  {
    if a != "" && b != "" && a[0] == b[0] {
      var c, d := a[1..], b[1..];
      StringLeExactly(c, d);
      assert a == [a[0]] + c && b == [a[0]] + d;
      if i :| 0 <= i < |c| && i < |d| && c[..i] == d[..i] && c[i] < d[i] {
        assert a[..i + 1] == [a[0]] + c[..i] && b[..i + 1] == [a[0]] + d[..i];
        assert a[i + 1] < b[i + 1];
      }
      if i :| 0 <= i < |a| && i < |b| && a[..i] == b[..i] && a[i] < b[i] {
        assert i > 0;
        assert c[..i - 1] == a[..i][1..] && d[..i - 1] == b[..i][1..];
        assert c[i - 1] < d[i - 1];
      }
      if a <= b { assert c == a[1..] && d[..|c|] == b[..|a|][1..]; }
      if c <= d { assert b[..|a|] == [a[0]] + d[..|c|]; }
    } else if a != "" && b != "" {
      DifferAtOnce(a, b);
      if a[0] < b[0] { assert a[..0] == b[..0]; }
    }
  }

  lemma DifferAtOnce(a: string, b: string)
    requires a != "" && b != "" && a[0] != b[0]
    ensures !(a <= b) && forall i :: 0 < i <= |a| && i <= |b| ==> a[..i] != b[..i]
  {
    forall i | 0 < i <= |a| && i <= |b| ensures a[..i] != b[..i] {
      assert a[..i][0] == a[0] && b[..i][0] == b[0];
    }
  }

  lemma {:induction false} StringLeTotal(a: string, b: string)
    ensures StringLe(a, b) || StringLe(b, a)
    ensures StringLe(a, b) && StringLe(b, a) ==> a == b
  {
    if a != "" && b != "" {
      StringLeTotal(a[1..], b[1..]);
      if a[0] == b[0] && a[1..] == b[1..] {
        assert a == [a[0]] + a[1..] && b == [b[0]] + b[1..];
      }
    }
  }

  lemma {:induction false} StringLeTransitive(a: string, b: string, c: string)
    requires StringLe(a, b) && StringLe(b, c)
    ensures StringLe(a, c)
  {
    if a != "" && a[0] == b[0] && b[0] == c[0] { StringLeTransitive(a[1..], b[1..], c[1..]); }
  }

  lemma StringLeIsTotal()
    ensures TotalOrder(StringLe)
  {
    forall x, y ensures StringLe(x, y) || StringLe(y, x) { StringLeTotal(x, y); }
    forall x, y, z | StringLe(x, y) && StringLe(y, z) ensures StringLe(x, z) { StringLeTransitive(x, y, z); }
  }

  // ----- permutations -----

  lemma {:induction false} DistinctOnce<T>(s: seq<T>, x: T)
    requires NoDuplicates(s)
    ensures multiset(s)[x] <= 1
  {
    if s != [] {
      var n := |s| - 1;
      DistinctOnce(s[..n], x);
      assert s == s[..n] + [s[n]];
      assert forall i :: 0 <= i < n ==> s[..n][i] != s[n];
    }
  }

  lemma TwiceCounts<T>(s: seq<T>, i: nat, j: nat)
    requires i < j < |s| && s[i] == s[j]
    ensures multiset(s)[s[i]] >= 2
  {
    var a, b := s[..j], s[j..];
    assert s == a + b && a[i] == s[i] && b[0] == s[j];
    assert s[i] in multiset(a) && s[i] in multiset(b);
  }

  /** Reordering enumerates the same. */
  lemma PermutedEnumerates<T>(s: seq<T>, t: seq<T>, keys: set<T>)
    requires Enumerates(s, keys) && multiset(s) == multiset(t)
    ensures Enumerates(t, keys)
  {
    forall i, j | 0 <= i < j < |t| ensures t[i] != t[j] {
      DistinctOnce(s, t[i]);
      if t[i] == t[j] { TwiceCounts(t, i, j); }
    }
    forall x ensures x in t <==> x in s {
      assert x in t <==> x in multiset(t);
      assert x in s <==> x in multiset(s);
    }
  }

  // ----- adding up -----

  /** The sum of f over a sequence. */
  function Total<T>(s: seq<T>, f: T -> nat): nat {
    if s == [] then 0 else Total(s[..|s| - 1], f) + f(s[|s| - 1])
  }

  lemma TotalSnoc<T>(s: seq<T>, x: T, f: T -> nat)
    ensures Total(s + [x], f) == Total(s, f) + f(x)
  {
    assert (s + [x])[..|s|] == s;
  }

  lemma {:induction false} TotalConcat<T>(a: seq<T>, b: seq<T>, f: T -> nat)
    ensures Total(a + b, f) == Total(a, f) + Total(b, f)
  {
    if b == [] {
      assert a + b == a;
    } else {
      var n := |b| - 1;
      assert a + b == (a + b[..n]) + [b[n]];
      TotalSnoc(a + b[..n], b[n], f);
      TotalConcat(a, b[..n], f);
    }
  }

  lemma TotalOne<T>(x: T, f: T -> nat)
    ensures Total([x], f) == f(x)
  {
    TotalSnoc([], x, f);
    assert [x] == [] + [x];
  }

  lemma TotalReplace<T>(s: seq<T>, i: nat, x: T, f: T -> nat)
    requires i < |s|
    ensures Total(s[i := x], f) + f(s[i]) == Total(s, f) + f(x)
  {
    var a, b := s[..i], s[i + 1..];
    assert s == (a + [s[i]]) + b && s[i := x] == (a + [x]) + b;
    TotalConcat(a + [s[i]], b, f);
    TotalConcat(a + [x], b, f);
    TotalSnoc(a, s[i], f);
    TotalSnoc(a, x, f);
  }

  lemma {:induction false} TotalFilter<T>(s: seq<T>, keep: T -> bool, drop: T -> bool, f: T -> nat)
    requires forall x :: x in s ==> (drop(x) <==> !keep(x))
    ensures Total(Filter(s, keep), f) + Total(Filter(s, drop), f) == Total(s, f)
  {
    if s != [] {
      var before, x := s[..|s| - 1], s[|s| - 1];
      TotalFilter(before, keep, drop, f);
      assert x in s;
      TotalSnoc(Filter(before, keep), x, f);
      TotalSnoc(Filter(before, drop), x, f);
      if keep(x) {
        assert Filter(s, drop) == Filter(before, drop);
      } else {
        assert Filter(s, keep) == Filter(before, keep);
      }
    }
  }

  lemma {:induction false} TotalInsert<T>(s: seq<T>, x: T, le: (T, T) -> bool, f: T -> nat)
    ensures Total(InsertBy(s, x, le), f) == Total(s, f) + f(x)
  {
    if s != [] && le(s[0], x) {
      TotalInsert(s[1..], x, le, f);
      TotalConcat([s[0]], InsertBy(s[1..], x, le), f);
      TotalConcat([s[0]], s[1..], f);
      assert s == [s[0]] + s[1..];
    } else {
      TotalConcat([x], s, f);
      TotalOne(x, f);
    }
  }

  /** Sorting changes no sum. */
  lemma {:induction false} TotalSorted<T>(s: seq<T>, le: (T, T) -> bool, f: T -> nat)
    ensures Total(SortBy(s, le), f) == Total(s, f)
  {
    if s != [] {
      TotalSorted(s[..|s| - 1], le, f);
      TotalInsert(SortBy(s[..|s| - 1], le), s[|s| - 1], le, f);
    }
  }
}
