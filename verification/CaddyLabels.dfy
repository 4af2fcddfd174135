/**
 * Caddy labels of a container: several maps are walked, each in whatever order the runtime picks. The orders are
 * parameters here, so that what depends on them shows.
 */
module CaddyLabels {
  import opened Domain
  import opened Sequences

  datatype Settings = Settings(host: string, port: int, path: string, strip: bool)

  /** caddy, or caddy_ and a number. */
  predicate IsPrefix(key: string) {
    key == "caddy" || (HasPrefix(key, "caddy_") && AllDigits(key[6..]))
  }

  function Prefixes(labels: map<string, string>): set<string> {
    set k | k in labels && IsPrefix(k)
  }

  function TrimSlashes(s: string): string {
    if s != "" && s[|s| - 1] == '/' then TrimSlashes(s[..|s| - 1]) else s
  }

  /** A path matcher as a path prefix. */
  function Normal(value: string): string {
    var trimmed := TrimSlashes(TrimSuffix(value, "*"));
    if trimmed == "" then "/" else trimmed
  }

  /** The settings of one prefix after one label; upstream reads the port of an upstreams template. */
  function Apply(prefix: string, key: string, value: string, c: Settings, upstream: string -> Option<int>): Settings {
    var proxied := key == prefix + ".reverse_proxy" && upstream(value).Some?;
    var c1 := if proxied then c.(port := upstream(value).value) else c;
    var c2 := if key == prefix + ".handle_path" then c1.(path := Normal(value), strip := true) else c1;
    if key == prefix + ".handle" && c2.path == "/" then c2.(path := Normal(value)) else c2
  }

  function Fold(labels: map<string, string>, order: seq<string>, prefix: string, c: Settings,
                upstream: string -> Option<int>): Settings
    requires forall k :: k in order ==> k in labels
  {
    if order == [] then c
    else
      var n := |order| - 1;
      Apply(prefix, order[n], labels[order[n]], Fold(labels, order[..n], prefix, c, upstream), upstream)
  }

  function Initial(host: string): Settings {
    Settings(host, 0, "/", false)
  }

  // ----- the loops -----

  class CaddyConfig {
    var host: string
    var port: int
    var path: string
    var strip: bool

    constructor (host: string)
      ensures Value() == Initial(host)
    {
      this.host, port, path, strip := host, 0, "/", false;
    }

    function Value(): Settings
      reads this
    {
      Settings(host, port, path, strip)
    }

    method Directive(prefix: string, key: string, value: string, upstream: string -> Option<int>)
      modifies this
      ensures Value() == Apply(prefix, key, value, old(Value()), upstream)
    {
      if key == prefix + ".reverse_proxy" {
        var m := upstream(value);
        if m.Some? { port := m.value; }
      }
      if key == prefix + ".handle_path" {
        path := TrimSlashes(TrimSuffix(value, "*"));
        if path == "" { path := "/"; }
        strip := true;
      }
      if key == prefix + ".handle" && path == "/" {
        path := TrimSlashes(TrimSuffix(value, "*"));
        if path == "" { path := "/"; }
      }
    }
  }

  ghost predicate Separate(configs: map<string, CaddyConfig>) {
    forall p, q :: p in configs && q in configs && p != q ==> configs[p] != configs[q]
  }

  /** Every prefix shows what the labels walked so far make of it. */
  ghost predicate Shows(configs: map<string, CaddyConfig>, labels: map<string, string>, order: seq<string>,
                        upstream: string -> Option<int>)
    reads configs.Values
  {
    && (forall k :: k in order ==> k in labels)
    && (forall p :: p in configs ==>
          p in labels && configs[p].Value() == Fold(labels, order, p, Initial(labels[p]), upstream))
  }

  method FindPrefixes(labels: map<string, string>, order: seq<string>) returns (configs: map<string, CaddyConfig>)
    requires Enumerates(order, labels.Keys)
    ensures configs.Keys == Prefixes(labels) && Separate(configs) && fresh(configs.Values)
    ensures forall p :: p in configs ==> configs[p].Value() == Initial(labels[p])
  {
    configs := map[];
    for i := 0 to |order|
      invariant forall p :: p in configs <==> p in order[..i] && IsPrefix(p)
      invariant Separate(configs) && forall p :: p in configs ==> fresh(configs[p])
      invariant forall p :: p in configs ==> p in labels && configs[p].Value() == Initial(labels[p])
    {
      assert order[i] in order;
      assert order[..i + 1] == order[..i] + [order[i]];
      if IsPrefix(order[i]) {
        var config := new CaddyConfig(labels[order[i]]);
        configs := configs[order[i] := config];
      }
    }
    assert order[..|order|] == order;
  }

  lemma StartShows(configs: map<string, CaddyConfig>, labels: map<string, string>, upstream: string -> Option<int>)
    requires forall p :: p in configs ==> p in labels && configs[p].Value() == Initial(labels[p])
    ensures Shows(configs, labels, [], upstream)
  {
  }

  /** One label against every prefix, in some order. */
  method WalkConfigs(configs: map<string, CaddyConfig>, order: seq<string>, labels: map<string, string>, key: string,
                     upstream: string -> Option<int>, ghost before: seq<string>)
    requires Enumerates(order, configs.Keys) && Separate(configs) && key in labels
    requires Shows(configs, labels, before, upstream)
    modifies configs.Values
    ensures Shows(configs, labels, before + [key], upstream)
  {
    assert (before + [key])[..|before|] == before;
    for j := 0 to |order|
      invariant forall p | p in configs && p in order[..j] ::
                  configs[p].Value() ==
                  Apply(p, key, labels[key], Fold(labels, before, p, Initial(labels[p]), upstream), upstream)
      invariant forall p | p in configs && p !in order[..j] ::
                  configs[p].Value() == Fold(labels, before, p, Initial(labels[p]), upstream)
    {
      assert order[j] in order;
      assert order[..j + 1] == order[..j] + [order[j]];
      assert order[j] !in order[..j];
      configs[order[j]].Directive(order[j], key, labels[key], upstream);
    }
    assert order[..|order|] == order;
  }

  method ListResults(configs: map<string, CaddyConfig>, listing: seq<string>, ghost labels: map<string, string>,
                     ghost order: seq<string>, ghost upstream: string -> Option<int>)
    returns (results: seq<Settings>)
    requires configs.Keys == Prefixes(labels) && Enumerates(listing, configs.Keys)
    requires Shows(configs, labels, order, upstream)
    ensures results == ConcatIn(Contributions(labels, order, upstream), listing)
  {
    results := [];
    for i := 0 to |listing|
      invariant results == ConcatIn(Contributions(labels, order, upstream), listing[..i])
    {
      assert listing[i] in listing;
      assert listing[..i + 1][..i] == listing[..i];
      var config := configs[listing[i]];
      if config.host == "" { continue; }
      results := results + [config.Value()];
    }
    assert listing[..|listing|] == listing;
  }

  /** The three loops, each with its own order; the inner one with an order per label. */
  method ParseCaddyLabels(labels: map<string, string>, order1: seq<string>, order2: seq<string>,
                          inner: nat -> seq<string>, order3: seq<string>, upstream: string -> Option<int>)
    returns (results: seq<Settings>)
    requires Enumerates(order1, labels.Keys) && Enumerates(order2, labels.Keys) && Enumerates(order3, Prefixes(labels))
    requires forall i :: 0 <= i < |order2| ==> Enumerates(inner(i), Prefixes(labels))
    ensures results == Results(labels, order2, order3, upstream)
  {
    hide Fold, IsPrefix;
    var configs := FindPrefixes(labels, order1);
    if |configs| == 0 {
      assert configs.Keys == {};
      EnumeratesNone(order3, Prefixes(labels));
      return [];
    }
    StartShows(configs, labels, upstream);
    for i := 0 to |order2|
      invariant Shows(configs, labels, order2[..i], upstream)
    {
      assert order2[i] in order2;
      assert order2[..i + 1] == order2[..i] + [order2[i]];
      WalkConfigs(configs, inner(i), labels, order2[i], upstream, order2[..i]);
    }
    assert order2[..|order2|] == order2;
    results := ListResults(configs, order3, labels, order2, upstream);
  }

  /** What each prefix adds to the results: its settings, or nothing if it names no host. */
  function Contributions(labels: map<string, string>, order: seq<string>,
                         upstream: string -> Option<int>): map<string, seq<Settings>>
    requires forall k :: k in order ==> k in labels
  {
    map p | p in Prefixes(labels) :: Kept(Fold(labels, order, p, Initial(labels[p]), upstream))
  }

  function Kept(c: Settings): seq<Settings> {
    if c.host == "" then [] else [c]
  }

  /** The results, for the order in which labels are walked and the order in which prefixes are listed. */
  function Results(labels: map<string, string>, order: seq<string>, listing: seq<string>,
                   upstream: string -> Option<int>): seq<Settings>
    requires Enumerates(order, labels.Keys) && Enumerates(listing, Prefixes(labels))
  {
    ConcatIn(Contributions(labels, order, upstream), listing)
  }

  // ----- what one prefix comes to -----

  ghost predicate Before(order: seq<string>, a: string, b: string) {
    exists i, j :: 0 <= i < j < |order| && order[i] == a && order[j] == b
  }

  /** The path two directives leave: handle_path wins, unless it stands for "/" and is met first. */
  ghost function PathOf(labels: map<string, string>, order: seq<string>, p: string): string
    requires forall k :: k in order ==> k in labels
  {
    var strip, keep := p + ".handle_path", p + ".handle";
    if strip in order && keep in order then
      if Normal(labels[strip]) == "/" && Before(order, strip, keep) then Normal(labels[keep]) else Normal(labels[strip])
    else if strip in order then Normal(labels[strip])
    else if keep in order then Normal(labels[keep])
    else "/"
  }

  function PortOf(labels: map<string, string>, order: seq<string>, p: string, upstream: string -> Option<int>): int
    requires forall k :: k in order ==> k in labels
  {
    var key := p + ".reverse_proxy";
    if key in order && upstream(labels[key]).Some? then upstream(labels[key]).value else 0
  }

  lemma BeforeSnoc(order: seq<string>, k: string, a: string, b: string)
    requires k !in order && a != b
    ensures Before(order + [k], a, b) <==> Before(order, a, b) || (a in order && b == k)
  {
    var longer := order + [k];
    if Before(longer, a, b) {
      var i, j :| 0 <= i < j < |longer| && longer[i] == a && longer[j] == b;
      assert order[i] == a;
      if j < |order| { assert order[j] == b; }
    }
    if Before(order, a, b) {
      var i, j :| 0 <= i < j < |order| && order[i] == a && order[j] == b;
      assert longer[i] == a && longer[j] == b;
    }
    if a in order && b == k {
      var i :| 0 <= i < |order| && order[i] == a;
      assert longer[i] == a && longer[|order|] == b;
    }
  }

  lemma DirectivesDiffer(p: string)
    ensures p + ".handle_path" != p + ".handle" && p + ".handle_path" != p + ".reverse_proxy"
    ensures p + ".handle" != p + ".reverse_proxy"
  {
    assert (p + ".handle")[|p| + 1] == 'h' && (p + ".handle_path")[|p| + 1] == 'h';
    assert (p + ".reverse_proxy")[|p| + 1] == 'r';
  }

  /** What the walk leaves for one prefix. */
  lemma {:induction false} FoldExactly(labels: map<string, string>, order: seq<string>, p: string, host: string,
                                       upstream: string -> Option<int>)
    requires NoDuplicates(order) && forall k :: k in order ==> k in labels
    ensures Fold(labels, order, p, Initial(host), upstream) ==
            Settings(host, PortOf(labels, order, p, upstream), PathOf(labels, order, p), p + ".handle_path" in order)
  {
    if order != [] {
      var n := |order| - 1;
      var k := order[n];
      FoldExactly(labels, order[..n], p, host, upstream);
      assert order == order[..n] + [k];
      assert k !in order[..n];
      DirectivesDiffer(p);
      BeforeSnoc(order[..n], k, p + ".handle_path", p + ".handle");
    }
  }

  // ----- does the order of the maps matter? -----

  /** A prefix with a host whose handle_path stands for "/" while its handle stands for something else. */
  predicate Contested(labels: map<string, string>, p: string) {
    && p in Prefixes(labels) && labels[p] != ""
    && p + ".handle_path" in labels && p + ".handle" in labels
    && Normal(labels[p + ".handle_path"]) == "/" && Normal(labels[p + ".handle"]) != "/"
  }

  lemma UncontestedSettles(labels: map<string, string>, o1: seq<string>, o2: seq<string>, p: string,
                           upstream: string -> Option<int>)
    requires Enumerates(o1, labels.Keys) && Enumerates(o2, labels.Keys) && p in Prefixes(labels)
    requires !Contested(labels, p)
    ensures Kept(Fold(labels, o1, p, Initial(labels[p]), upstream)) ==
            Kept(Fold(labels, o2, p, Initial(labels[p]), upstream))
  {
    FoldExactly(labels, o1, p, labels[p], upstream);
    FoldExactly(labels, o2, p, labels[p], upstream);
  }

  lemma SameContributions(labels: map<string, string>, o1: seq<string>, o2: seq<string>,
                          upstream: string -> Option<int>)
    requires Enumerates(o1, labels.Keys) && Enumerates(o2, labels.Keys) && forall p :: !Contested(labels, p)
    ensures Contributions(labels, o1, upstream) == Contributions(labels, o2, upstream)
  {
    forall p | p in Prefixes(labels)
      ensures Contributions(labels, o1, upstream)[p] == Contributions(labels, o2, upstream)[p]
    {
      UncontestedSettles(labels, o1, o2, p, upstream);
    }
  }

  lemma SwapLast(rest: seq<string>, a: string, b: string, keys: set<string>)
    requires a != b && a in keys && b in keys && Enumerates(rest, keys - {a, b})
    ensures Enumerates(rest + [a, b], keys) && Before(rest + [a, b], a, b) && !Before(rest + [a, b], b, a)
  {
    var order := rest + [a, b];
    EnumeratesNext(rest, a, keys - {a, b});
    EnumeratesNext(rest + [a], b, keys - {a, b} + {a});
    assert rest + [a] + [b] == order;
    assert keys - {a, b} + {a} + {b} == keys;
    assert order[|rest|] == a && order[|rest| + 1] == b;
  }

  lemma FirstDot(p: string, directive: string)
    requires '.' !in p
    ensures IndexOf(p + "." + directive, '.') == |p|
  {
    var s := p + "." + directive;
    assert s[|p|] == '.';
    assert forall j :: 0 <= j < |p| ==> s[j] == p[j];
  }

  lemma PrefixHasNoDot(p: string)
    requires IsPrefix(p)
    ensures '.' !in p
  {
    if p != "caddy" {
      forall i | 0 <= i < |p| ensures p[i] != '.' {
        if i < 6 { assert p[i] == p[..6][i] == "caddy_"[i]; } else { assert IsDigit(p[6..][i - 6]); }
      }
    }
  }

  lemma PrefixTells(p: string, q: string, d: string, e: string)
    requires IsPrefix(p) && IsPrefix(q) && p != q
    ensures p + "." + d != q + "." + e
  {
    PrefixHasNoDot(p);
    PrefixHasNoDot(q);
    FirstDot(p, d);
    FirstDot(q, e);
    assert (p + "." + d)[..|p|] == p && (q + "." + e)[..|q|] == q;
  }

  lemma OwnLabel(p: string, q: string, d: string)
    requires IsPrefix(p) && IsPrefix(q) && p != q
    ensures p + "." + d != q + ".handle_path" && p + "." + d != q + ".handle" && p + "." + d != q + ".reverse_proxy"
  {
    PrefixTells(p, q, d, "handle_path");
    PrefixTells(p, q, d, "handle");
    PrefixTells(p, q, d, "reverse_proxy");
    assert q + "." + "handle_path" == q + ".handle_path";
    assert q + "." + "handle" == q + ".handle";
    assert q + "." + "reverse_proxy" == q + ".reverse_proxy";
  }

  /** A prefix's own labels, met last, leave every other prefix alone. */
  lemma LastTwo(labels: map<string, string>, rest: seq<string>, p: string, q: string, x: string, y: string, c: Settings,
                upstream: string -> Option<int>)
    requires IsPrefix(p) && IsPrefix(q) && p != q
    requires (forall k :: k in rest ==> k in labels) && p + "." + x in labels && p + "." + y in labels
    ensures Fold(labels, rest + [p + "." + x, p + "." + y], q, c, upstream) == Fold(labels, rest, q, c, upstream)
  {
    var order := rest + [p + "." + x, p + "." + y];
    OwnLabel(p, q, x);
    OwnLabel(p, q, y);
    assert order[..|order| - 1] == rest + [p + "." + x];
    assert (rest + [p + "." + x])[..|rest|] == rest;
  }

  lemma {:induction false} ConcatAgree(m1: map<string, seq<Settings>>, m2: map<string, seq<Settings>>,
                                       order: seq<string>)
    requires forall k :: k in order ==> k in m1 && k in m2 && m1[k] == m2[k]
    ensures ConcatIn(m1, order) == ConcatIn(m2, order)
  {
    if order != [] { ConcatAgree(m1, m2, order[..|order| - 1]); }
  }

  lemma OneDiffers(m1: map<string, seq<Settings>>, m2: map<string, seq<Settings>>, listing: seq<string>, p: string,
                   c1: Settings, c2: Settings)
    requires NoDuplicates(listing) && p in listing
    requires forall k :: k in listing ==> k in m1 && k in m2 && (k != p ==> m1[k] == m2[k])
    requires m1[p] == [c1] && m2[p] == [c2] && c1 != c2
    ensures multiset(ConcatIn(m1, listing)) != multiset(ConcatIn(m2, listing))
  {
    var i :| 0 <= i < |listing| && listing[i] == p;
    var a, b := listing[..i], listing[i + 1..];
    assert listing == a + [p] + b;
    forall k | k in a + b ensures k in listing && k != p {
      var j :| 0 <= j < |a + b| && (a + b)[j] == k;
      assert listing[if j < i then j else j + 1] == k;
    }
    ConcatTakeOut(m1, a, p, b);
    ConcatTakeOut(m2, a, p, b);
    ConcatAgree(m1, m2, a + b);
    var same := multiset(ConcatIn(m1, a + b));
    assert (same + multiset{c1})[c1] == same[c1] + 1 && (same + multiset{c2})[c1] == same[c1];
  }

  /** For a contested prefix two orders give two different multisets of results. */
  lemma ContestedMatters(labels: map<string, string>, p: string, upstream: string -> Option<int>)
    returns (o1: seq<string>, o2: seq<string>, listing: seq<string>)
    requires Contested(labels, p)
    ensures Enumerates(o1, labels.Keys) && Enumerates(o2, labels.Keys) && Enumerates(listing, Prefixes(labels))
    ensures multiset(Results(labels, o1, listing, upstream)) != multiset(Results(labels, o2, listing, upstream))
  {
    var strip, keep := p + ".handle_path", p + ".handle";
    assert strip == p + "." + "handle_path" && keep == p + "." + "handle";
    DirectivesDiffer(p);
    var rest := SomeOrder(labels.Keys - {strip, keep});
    assert labels.Keys - {keep, strip} == labels.Keys - {strip, keep};
    o1, o2 := rest + [strip, keep], rest + [keep, strip];
    SwapLast(rest, strip, keep, labels.Keys);
    SwapLast(rest, keep, strip, labels.Keys);
    listing := SomeOrder(Prefixes(labels));
    var m1, m2 := Contributions(labels, o1, upstream), Contributions(labels, o2, upstream);
    forall q | q in listing && q != p ensures m1[q] == m2[q] {
      LastTwo(labels, rest, p, q, "handle_path", "handle", Initial(labels[q]), upstream);
      LastTwo(labels, rest, p, q, "handle", "handle_path", Initial(labels[q]), upstream);
    }
    FoldExactly(labels, o1, p, labels[p], upstream);
    FoldExactly(labels, o2, p, labels[p], upstream);
    OneDiffers(m1, m2, listing, p, m1[p][0], m2[p][0]);
  }

  lemma TrimOne(s: string)
    requires s == "" || s[|s| - 1] != '/'
    ensures TrimSlashes(s) == s && TrimSlashes(s + "/") == s
  {
    assert (s + "/")[..|s|] == s;
  }

  /** A label map with a contested prefix. */
  lemma ContestedLabels()
    ensures Contested(map["caddy" := "h", "caddy.handle_path" := "/*", "caddy.handle" := "/api*"], "caddy")
  {
    assert "caddy" + ".handle_path" == "caddy.handle_path" && "caddy" + ".handle" == "caddy.handle";
    assert TrimSuffix("/*", "*") == "" + "/" && TrimSuffix("/api*", "*") == "/api";
    TrimOne("");
    TrimOne("/api");
  }

  /** The same results, each as often, whatever the orders. */
  ghost predicate OrderFree(labels: map<string, string>, upstream: string -> Option<int>) {
    forall o1, o2, l1, l2 |
      Enumerates(o1, labels.Keys) && Enumerates(o2, labels.Keys) && Enumerates(l1, Prefixes(labels)) &&
      Enumerates(l2, Prefixes(labels)) ::
      multiset(Results(labels, o1, l1, upstream)) == multiset(Results(labels, o2, l2, upstream))
  }

  /** The results do not depend on map iteration order precisely when no prefix with a host is contested. */
  lemma OrderFreeExactly(labels: map<string, string>, upstream: string -> Option<int>)
    ensures OrderFree(labels, upstream) <==> forall p :: !Contested(labels, p)
  {
    if forall p :: !Contested(labels, p) {
      forall o1, o2, l1, l2 |
        Enumerates(o1, labels.Keys) && Enumerates(o2, labels.Keys) && Enumerates(l1, Prefixes(labels)) &&
        Enumerates(l2, Prefixes(labels))
        ensures multiset(Results(labels, o1, l1, upstream)) == multiset(Results(labels, o2, l2, upstream))
      {
        SameContributions(labels, o1, o2, upstream);
        ConcatPermutes(Contributions(labels, o1, upstream), l1, l2, Prefixes(labels));
      }
    } else {
      var p :| Contested(labels, p);
      var o1, o2, listing := ContestedMatters(labels, p, upstream);
    }
  }

  // ----- keys and paths, in plain terms -----

  /** The prefixes are "caddy" and "caddy_" with a number. */
  lemma PrefixExactly(key: string)
    ensures IsPrefix(key) <==> key == "caddy" || exists digits :: AllDigits(digits) && key == "caddy_" + digits
  {
    if HasPrefix(key, "caddy_") && AllDigits(key[6..]) { assert key == "caddy_" + key[6..]; }
    if digits :| AllDigits(digits) && key == "caddy_" + digits {
      assert key[..6] == "caddy_" && key[6..] == digits;
    }
  }

  predicate AllSlashes(s: string) {
    forall i :: 0 <= i < |s| ==> s[i] == '/'
  }

  lemma {:induction false} TrimmedIs(s: string)
    ensures var t := TrimSlashes(s);
            |t| <= |s| && s[..|t|] == t && AllSlashes(s[|t|..]) && (t != "" ==> t[|t| - 1] != '/')
  {
    if s != "" && s[|s| - 1] == '/' {
      var short := s[..|s| - 1];
      TrimmedIs(short);
      var t := TrimSlashes(short);
      assert s[..|t|] == short[..|t|];
      assert s[|t|..] == short[|t|..] + ['/'];
    }
  }

  /** A matcher with or without its star stands for what is left of its closing slashes, or for "/" if nothing is. */
  lemma NormalExactly(body: string)
    requires !HasSuffix(body, "*")
    ensures Normal(body) == Normal(body + "*")
    ensures AllSlashes(body) ==> Normal(body) == "/"
    ensures !AllSlashes(body) ==>
              var p := Normal(body);
              p != "" && |p| <= |body| && body[..|p|] == p && p[|p| - 1] != '/' && AllSlashes(body[|p|..])
  {
    assert (body + "*")[..|body|] == body && (body + "*")[|body|..] == "*";
    TrimmedIs(body);
    var t := TrimSlashes(body);
    if t != "" { assert body[|t| - 1] != '/'; } else { assert body[0..] == body; }
  }
}
