/** Placing the service and group nodes of the dashboard in two columns. */
module Layout {
  import opened Sequences
  import opened Grouping

  datatype Node =
    | ServiceNode(route: Service, x: real, y: real)
    | GroupNode(key: string, members: seq<Service>, expanded: bool, x: real, y: real)

  function ServiceColumn(scale: real): real {
    720.0 * scale
  }

  function MemberColumn(scale: real): real {
    980.0 * scale
  }

  function RowHeight(scale: real): real {
    90.0 * scale
  }

  // ----- one route per host -----

  predicate HasHost(routes: seq<Service>, host: string) {
    exists r :: r in routes && r.hostname == host
  }

  /** The first route of each host, in order. */
  function Unique(routes: seq<Service>): seq<Service> {
    if routes == [] then []
    else
      var before, r := Unique(routes[..|routes| - 1]), routes[|routes| - 1];
      if HasHost(before, r.hostname) then before else before + [r]
  }

  ghost predicate DistinctHosts(routes: seq<Service>) {
    forall i, j :: 0 <= i < j < |routes| ==> routes[i].hostname != routes[j].hostname
  }

  /** One route for each host there is, no host twice. */
  lemma {:induction false} UniqueExactly(routes: seq<Service>)
    ensures DistinctHosts(Unique(routes))
    ensures forall h :: HasHost(Unique(routes), h) <==> HasHost(routes, h)
    ensures forall r :: r in Unique(routes) ==> r in routes
  {
    if routes != [] {
      var n := |routes| - 1;
      var before, r := Unique(routes[..n]), routes[n];
      UniqueExactly(routes[..n]);
      assert routes == routes[..n] + [r];
      forall h ensures HasHost(routes, h) <==> HasHost(routes[..n], h) || h == r.hostname {
        if HasHost(routes[..n], h) {
          var x :| x in routes[..n] && x.hostname == h;
          assert x in routes;
        }
        if h == r.hostname { assert r in routes; }
      }
      if !HasHost(before, r.hostname) {
        forall h ensures HasHost(before + [r], h) <==> HasHost(before, h) || h == r.hostname {
          if HasHost(before, h) {
            var x :| x in before && x.hostname == h;
            assert x in before + [r];
          }
          if h == r.hostname { assert r in before + [r]; }
        }
        forall i | 0 <= i < |before| ensures before[i].hostname != r.hostname { assert before[i] in before; }
      }
    }
  }

  method CollectUnique(routes: seq<Service>) returns (unique: seq<Service>)
    ensures unique == Unique(routes)
  {
    unique := [];
    var seen: set<string> := {};
    for n := 0 to |routes|
      invariant unique == Unique(routes[..n])
      invariant forall h :: h in seen <==> HasHost(unique, h)
    {
      assert routes[..n + 1][..n] == routes[..n];
      var r := routes[n];
      if r.hostname !in seen {
        forall h ensures HasHost(unique + [r], h) <==> h in seen || h == r.hostname {
          if h in seen {
            var x :| x in unique && x.hostname == h;
            assert x in unique + [r];
          }
          if h == r.hostname { assert r in unique + [r]; }
        }
        unique := unique + [r];
        seen := seen + {r.hostname};
      }
    }
    assert routes[..|routes|] == routes;
  }

  // ----- placing -----

  /** How often a node shows a route: as itself, or inside a collapsed group. */
  function Showing(r: Service): Node -> nat {
    (n: Node) =>
      if n.ServiceNode? then (if n.route == r then 1 else 0)
      else if n.expanded then 0
      else multiset(n.members)[r]
  }

  /** Nodes of one column are at least a row apart. */
  ghost predicate Apart(nodes: seq<Node>, row: real) {
    forall i, j :: 0 <= i < j < |nodes| && nodes[i].x == nodes[j].x ==>
      nodes[i].y + row <= nodes[j].y || nodes[j].y + row <= nodes[i].y
  }

  /** All of it between two heights. */
  ghost predicate Within(nodes: seq<Node>, row: real, top: real, bottom: real) {
    forall i :: 0 <= i < |nodes| ==> top <= nodes[i].y && nodes[i].y + row <= bottom
  }

  /** The height of k rows. */
  function Rows(k: nat, row: real): real {
    if k == 0 then 0.0 else Rows(k - 1, row) + row
  }

  lemma {:induction false} RowsAreProduct(k: nat, row: real)
    ensures Rows(k, row) == (k as real) * row
  {
    if k > 0 {
      RowsAreProduct(k - 1, row);
      assert k as real == ((k - 1) as real) + 1.0;
      TimesNext((k - 1) as real, row);
    }
  }

  lemma TimesNext(a: real, row: real)
    ensures (a + 1.0) * row == a * row + row
  {
  }

  /** Service nodes down one column, one row each. */
  function Column(routes: seq<Service>, x: real, top: real, row: real): seq<Node> {
    seq(|routes|, i requires 0 <= i < |routes| => ServiceNode(routes[i], x, top + Rows(i, row)))
  }

  function NodesOf(g: Group, expanded: set<string>, scale: real, y: real): seq<Node> {
    if |g.routes| == 1 then [ServiceNode(g.routes[0], ServiceColumn(scale), y)]
    else
      [GroupNode(g.key, g.routes, g.key in expanded, ServiceColumn(scale), y)] +
      if g.key in expanded then Column(g.routes, MemberColumn(scale), y, RowHeight(scale)) else []
  }

  function Advance(g: Group, expanded: set<string>, row: real): real {
    if |g.routes| != 1 && g.key in expanded then Rows(|g.routes|, row) else row
  }

  function Cursor(groups: seq<Group>, expanded: set<string>, scale: real): real {
    if groups == [] then 10.0 * scale
    else
      var n := |groups| - 1;
      Cursor(groups[..n], expanded, scale) + Advance(groups[n], expanded, RowHeight(scale))
  }

  /** The nodes of all groups, from the top down. */
  function Placed(groups: seq<Group>, expanded: set<string>, scale: real): seq<Node> {
    if groups == [] then []
    else
      var n := |groups| - 1;
      Placed(groups[..n], expanded, scale) + NodesOf(groups[n], expanded, scale, Cursor(groups[..n], expanded, scale))
  }

  method PushServices(nodes: seq<Node>, routes: seq<Service>, x: real, top: real, row: real) returns (out: seq<Node>)
    ensures out == nodes + Column(routes, x, top, row)
  {
    out := nodes;
    for k := 0 to |routes|
      invariant out == nodes + Column(routes[..k], x, top, row)
    {
      RowsAreProduct(k, row);
      assert Column(routes[..k + 1], x, top, row) ==
             Column(routes[..k], x, top, row) + [ServiceNode(routes[k], x, top + Rows(k, row))];
      out := out + [ServiceNode(routes[k], x, top + (k as real) * row)];
    }
    assert routes[..|routes|] == routes;
  }

  /** One turn of the loop: a lone route, or a group node and, if expanded, its members beside it. */
  method PlaceGroup(nodes: seq<Node>, group: Group, expanded: set<string>, scale: real, top: real)
    returns (out: seq<Node>, cursorY: real)
    ensures out == nodes + NodesOf(group, expanded, scale, top)
    ensures cursorY == top + Advance(group, expanded, RowHeight(scale))
  {
    var row := RowHeight(scale);
    if |group.routes| == 1 {
      return nodes + [ServiceNode(group.routes[0], ServiceColumn(scale), top)], top + row;
    }
    var isExpanded := group.key in expanded;
    out := nodes + [GroupNode(group.key, group.routes, isExpanded, ServiceColumn(scale), top)];
    if isExpanded {
      out := PushServices(out, group.routes, MemberColumn(scale), top, row);
      RowsAreProduct(|group.routes|, row);
      return out, top + (|group.routes| as real) * row;
    }
    return out, top + row;
  }

  method PlaceGroups(groups: seq<Group>, expanded: set<string>, scale: real) returns (nodes: seq<Node>)
    ensures nodes == Placed(groups, expanded, scale)
  {
    var cursorY := 10.0 * scale;
    nodes := [];
    for k := 0 to |groups|
      invariant nodes == Placed(groups[..k], expanded, scale) && cursorY == Cursor(groups[..k], expanded, scale)
    {
      assert groups[..k + 1][..k] == groups[..k];
      nodes, cursorY := PlaceGroup(nodes, groups[k], expanded, scale, cursorY);
    }
    assert groups[..|groups|] == groups;
  }

  /** The service part of the layout: unique routes, filtered, grouped if there are many, placed. */
  method Layout(routes: seq<Service>, mode: Mode, expanded: set<string>, hides: bool, matches: Service -> bool,
                scale: real, normalize: string -> string, le: (string, string) -> bool)
    returns (nodes: seq<Node>)
    ensures nodes ==
            LaidOut(Visible(routes, hides, matches), EffectiveMode(routes, mode), expanded, scale, normalize, le)
  {
    var unique := CollectUnique(routes);
    var toolbarActive := |unique| > GROUPING_THRESHOLD;
    var effectiveMode := if toolbarActive then mode else Ungrouped;
    var hideMode := toolbarActive && hides;
    var visible := if hideMode then Filter(unique, matches) else unique;
    if effectiveMode.Ungrouped? {
      nodes := PushServices([], visible, ServiceColumn(scale), 10.0 * scale, RowHeight(scale));
    } else {
      var groups := GroupRoutes(visible, effectiveMode, normalize, le);
      nodes := PlaceGroups(groups, expanded, scale);
    }
  }

  function EffectiveMode(routes: seq<Service>, mode: Mode): Mode {
    if |Unique(routes)| > GROUPING_THRESHOLD then mode else Ungrouped
  }

  /** The routes shown: one per host, without those an active filter hides. */
  function Visible(routes: seq<Service>, hides: bool, matches: Service -> bool): seq<Service> {
    if |Unique(routes)| > GROUPING_THRESHOLD && hides then Filter(Unique(routes), matches) else Unique(routes)
  }

  function LaidOut(visible: seq<Service>, mode: Mode, expanded: set<string>, scale: real,
                   normalize: string -> string, le: (string, string) -> bool): seq<Node>
  {
    if mode.Ungrouped? then Column(visible, ServiceColumn(scale), 10.0 * scale, RowHeight(scale))
    else Placed(Grouped(visible, mode, normalize, le), expanded, scale)
  }

  // ----- nodes never overlap -----

  lemma {:induction false} RowsGrow(i: nat, j: nat, row: real)
    requires i <= j && row > 0.0
    ensures 0.0 <= Rows(i, row) <= Rows(j, row)
    ensures i < j ==> Rows(i, row) + row <= Rows(j, row)
    decreases j
  {
    if i < j {
      RowsGrow(i, j - 1, row);
    } else if i > 0 {
      RowsGrow(i - 1, i - 1, row);
    }
  }

  lemma ColumnApart(routes: seq<Service>, x: real, top: real, row: real)
    requires row > 0.0
    ensures Apart(Column(routes, x, top, row), row)
    ensures Within(Column(routes, x, top, row), row, top, top + Rows(|routes|, row))
  {
    var nodes := Column(routes, x, top, row);
    forall i, j | 0 <= i < j < |nodes| ensures nodes[i].y + row <= nodes[j].y { RowsGrow(i, j, row); }
    forall i | 0 <= i < |nodes| ensures top <= nodes[i].y && nodes[i].y + row <= top + Rows(|routes|, row) {
      RowsGrow(0, i, row);
      RowsGrow(i, |routes|, row);
    }
  }

  /** Stacked one below the other, two lots of nodes stay apart. */
  lemma Stacked(a: seq<Node>, b: seq<Node>, row: real, top: real, middle: real, bottom: real)
    requires Apart(a, row) && Apart(b, row) && Within(a, row, top, middle) && Within(b, row, middle, bottom)
    requires top <= middle <= bottom
    ensures Apart(a + b, row) && Within(a + b, row, top, bottom)
  {
  }

  lemma NodesOfApart(g: Group, expanded: set<string>, scale: real, y: real)
    requires scale > 0.0 && Holds(g)
    ensures var row, nodes := RowHeight(scale), NodesOf(g, expanded, scale, y);
            Apart(nodes, row) && Within(nodes, row, y, y + Advance(g, expanded, row)) &&
            Advance(g, expanded, row) >= row
  {
    var row := RowHeight(scale);
    if |g.routes| != 1 && g.key in expanded {
      RowsGrow(1, |g.routes|, row);
      ColumnApart(g.routes, MemberColumn(scale), y, row);
      var members := Column(g.routes, MemberColumn(scale), y, row);
      assert forall i :: 0 <= i < |members| ==> members[i].x != ServiceColumn(scale);
    }
  }

  lemma {:induction false} PlacedApart(groups: seq<Group>, expanded: set<string>, scale: real)
    requires scale > 0.0 && forall g :: g in groups ==> Holds(g)
    ensures var row, nodes := RowHeight(scale), Placed(groups, expanded, scale);
            && Apart(nodes, row) && Within(nodes, row, 10.0 * scale, Cursor(groups, expanded, scale))
            && Cursor(groups, expanded, scale) >= 10.0 * scale
  {
    if groups != [] {
      var n := |groups| - 1;
      var row, y := RowHeight(scale), Cursor(groups[..n], expanded, scale);
      assert groups[n] in groups;
      PlacedApart(groups[..n], expanded, scale);
      NodesOfApart(groups[n], expanded, scale, y);
      Stacked(Placed(groups[..n], expanded, scale), NodesOf(groups[n], expanded, scale, y), row,
              10.0 * scale, y, y + Advance(groups[n], expanded, row));
    }
  }

  /** For every positive scale, any two service or group nodes of one column are at least a row height apart. */
  lemma NodesApart(visible: seq<Service>, mode: Mode, expanded: set<string>, scale: real,
                   normalize: string -> string, le: (string, string) -> bool)
    requires scale > 0.0
    ensures Apart(LaidOut(visible, mode, expanded, scale, normalize, le), RowHeight(scale))
  {
    if mode.Ungrouped? {
      ColumnApart(visible, ServiceColumn(scale), 10.0 * scale, RowHeight(scale));
    } else {
      GroupsNonEmpty(visible, mode, normalize, le);
      PlacedApart(Grouped(visible, mode, normalize, le), expanded, scale);
    }
  }

  // ----- every host is shown once -----

  lemma {:induction false} ColumnShows(routes: seq<Service>, x: real, top: real, row: real, r: Service)
    ensures Total(Column(routes, x, top, row), Showing(r)) == multiset(routes)[r]
  {
    if routes != [] {
      var n := |routes| - 1;
      var node := ServiceNode(routes[n], x, top + Rows(n, row));
      ColumnShows(routes[..n], x, top, row, r);
      assert routes == routes[..n] + [routes[n]];
      assert Column(routes, x, top, row) == Column(routes[..n], x, top, row) + [node];
      TotalSnoc(Column(routes[..n], x, top, row), node, Showing(r));
    }
  }

  lemma NodesOfShow(g: Group, expanded: set<string>, scale: real, y: real, r: Service)
    ensures Total(NodesOf(g, expanded, scale, y), Showing(r)) == InGroup(r)(g)
  {
    if |g.routes| == 1 {
      assert g.routes == [g.routes[0]];
      TotalOne(ServiceNode(g.routes[0], ServiceColumn(scale), y), Showing(r));
    } else {
      var node := GroupNode(g.key, g.routes, g.key in expanded, ServiceColumn(scale), y);
      TotalOne(node, Showing(r));
      if g.key in expanded {
        ColumnShows(g.routes, MemberColumn(scale), y, RowHeight(scale), r);
        TotalConcat([node], Column(g.routes, MemberColumn(scale), y, RowHeight(scale)), Showing(r));
      }
    }
  }

  lemma {:induction false} PlacedShows(groups: seq<Group>, expanded: set<string>, scale: real, r: Service)
    ensures Total(Placed(groups, expanded, scale), Showing(r)) == Times(groups, r)
  {
    if groups != [] {
      var n := |groups| - 1;
      var y := Cursor(groups[..n], expanded, scale);
      PlacedShows(groups[..n], expanded, scale, r);
      NodesOfShow(groups[n], expanded, scale, y, r);
      TotalConcat(Placed(groups[..n], expanded, scale), NodesOf(groups[n], expanded, scale, y), Showing(r));
    }
  }

  lemma {:induction false} FilterKeepsDistinct(routes: seq<Service>, keep: Service -> bool)
    requires DistinctHosts(routes)
    ensures DistinctHosts(Filter(routes, keep))
  {
    if routes != [] {
      var n := |routes| - 1;
      var before := Filter(routes[..n], keep);
      FilterKeepsDistinct(routes[..n], keep);
      forall i | 0 <= i < |before| ensures before[i].hostname != routes[n].hostname {
        FilterMember(routes[..n], keep, before[i]);
        assert before[i] in before;
        var j :| 0 <= j < n && routes[j] == before[i];
      }
    }
  }

  lemma VisibleDistinct(routes: seq<Service>, hides: bool, matches: Service -> bool)
    ensures DistinctHosts(Visible(routes, hides, matches))
  {
    UniqueExactly(routes);
    FilterKeepsDistinct(Unique(routes), matches);
  }

  lemma {:induction false} OnceEach(routes: seq<Service>, r: Service)
    requires DistinctHosts(routes)
    ensures multiset(routes)[r] == if r in routes then 1 else 0
  {
    if routes != [] {
      var n := |routes| - 1;
      OnceEach(routes[..n], r);
      assert routes == routes[..n] + [routes[n]];
      assert forall i :: 0 <= i < n ==> routes[..n][i] != routes[n];
    }
  }

  /** The count every visible route should have. */
  ghost predicate EachOnce(nodes: seq<Node>, visible: seq<Service>) {
    forall r :: Total(nodes, Showing(r)) == if r in visible then 1 else 0
  }

  /**
   * Every visible host is shown exactly once, as its own node or inside one collapsed group, and nothing else is
   * shown, precisely when the reserved key does not collide.
   */
  lemma ShownOnceExactly(routes: seq<Service>, mode: Mode, expanded: set<string>, hides: bool, matches: Service -> bool,
                         scale: real, normalize: string -> string, le: (string, string) -> bool)
    ensures var visible, effective := Visible(routes, hides, matches), EffectiveMode(routes, mode);
            EachOnce(LaidOut(visible, effective, expanded, scale, normalize, le), visible) <==>
            !Collides(visible, effective, normalize)
  {
    hide Visible, Grouped, Placed, Column, Showing, EffectiveMode, Times;
    var visible, effective := Visible(routes, hides, matches), EffectiveMode(routes, mode);
    var nodes := LaidOut(visible, effective, expanded, scale, normalize, le);
    VisibleDistinct(routes, hides, matches);
    forall r ensures multiset(visible)[r] == if r in visible then 1 else 0 { OnceEach(visible, r); }
    if effective.Ungrouped? {
      forall r ensures Total(nodes, Showing(r)) == multiset(visible)[r] {
        ColumnShows(visible, ServiceColumn(scale), 10.0 * scale, RowHeight(scale), r);
      }
    } else {
      var groups := Grouped(visible, effective, normalize, le);
      forall r ensures Total(nodes, Showing(r)) == Times(groups, r) { PlacedShows(groups, expanded, scale, r); }
      ConservedExactly(visible, effective, normalize, le);
    }
  }

  // ----- what stands where -----

  /** The height of row i below this one. */
  function RowAt(y: real, i: nat, row: real): real {
    y + (i as real) * row
  }

  /** A group of one stands as its route, any other as itself, with its routes beside it, row by row, if it is open. */
  ghost predicate StandsAt(nodes: seq<Node>, g: Group, expanded: set<string>, x: real, beside: real, y: real, row: real)
  {
    if |g.routes| == 1 then ServiceNode(g.routes[0], x, y) in nodes
    else
      && GroupNode(g.key, g.routes, g.key in expanded, x, y) in nodes
      && (g.key in expanded ==>
            forall i :: 0 <= i < |g.routes| ==> ServiceNode(g.routes[i], beside, RowAt(y, i, row)) in nodes)
  }

  lemma ColumnRow(routes: seq<Service>, x: real, top: real, row: real, i: nat)
    requires i < |routes|
    ensures ServiceNode(routes[i], x, RowAt(top, i, row)) in Column(routes, x, top, row)
  {
    RowsAreProduct(i, row);
    assert Column(routes, x, top, row)[i] in Column(routes, x, top, row);
  }

  lemma GroupStands(g: Group, expanded: set<string>, scale: real, y: real, x: real, beside: real, row: real)
    requires x == ServiceColumn(scale) && beside == MemberColumn(scale) && row == RowHeight(scale)
    ensures StandsAt(NodesOf(g, expanded, scale, y), g, expanded, x, beside, y, row)
  {
    hide ServiceColumn, MemberColumn, RowHeight, RowAt;
    var nodes := NodesOf(g, expanded, scale, y);
    assert nodes[0] in nodes;
    if |g.routes| != 1 && g.key in expanded {
      var column := Column(g.routes, beside, y, row);
      forall i | 0 <= i < |g.routes| ensures ServiceNode(g.routes[i], beside, RowAt(y, i, row)) in nodes {
        ColumnRow(g.routes, beside, y, row, i);
        assert column == nodes[1..];
      }
    }
  }

  /** A group stands in the first column at 720, its open members in the second at 980, rows 90 high, all scaled. */
  ghost predicate Stands(nodes: seq<Node>, g: Group, expanded: set<string>, scale: real, y: real) {
    StandsAt(nodes, g, expanded, 720.0 * scale, 980.0 * scale, y, 90.0 * scale)
  }

  lemma LastStands(groups: seq<Group>, expanded: set<string>, scale: real)
    requires groups != []
    ensures var n := |groups| - 1;
            Stands(Placed(groups, expanded, scale), groups[n], expanded, scale, Cursor(groups[..n], expanded, scale))
  {
    hide StandsAt, NodesOf;
    assert ServiceColumn(scale) == 720.0 * scale && MemberColumn(scale) == 980.0 * scale;
    var n := |groups| - 1;
    var y := Cursor(groups[..n], expanded, scale);
    GroupStands(groups[n], expanded, scale, y, 720.0 * scale, 980.0 * scale, 90.0 * scale);
    FrontStands(Placed(groups[..n], expanded, scale), NodesOf(groups[n], expanded, scale, y),
                groups[n], expanded, scale, y);
  }

  lemma FrontStands(front: seq<Node>, nodes: seq<Node>, g: Group, expanded: set<string>, scale: real, y: real)
    requires Stands(nodes, g, expanded, scale, y)
    ensures Stands(front + nodes, g, expanded, scale, y) && Stands(nodes + front, g, expanded, scale, y)
  {
    AddedStands(front, nodes, g, expanded, 720.0 * scale, 980.0 * scale, y, 90.0 * scale);
  }

  lemma AddedStands(front: seq<Node>, nodes: seq<Node>, g: Group, expanded: set<string>, x: real, beside: real, y: real,
                    row: real)
    requires StandsAt(nodes, g, expanded, x, beside, y, row)
    ensures StandsAt(front + nodes, g, expanded, x, beside, y, row)
    ensures StandsAt(nodes + front, g, expanded, x, beside, y, row)
  {
  }

  /** Every group of the layout stands where the ones before it end. */
  lemma {:induction false} GroupsStand(groups: seq<Group>, expanded: set<string>, scale: real, k: nat)
    requires k < |groups|
    ensures Stands(Placed(groups, expanded, scale), groups[k], expanded, scale, Cursor(groups[..k], expanded, scale))
  {
    hide Stands, NodesOf, Advance, Cursor;
    var n := |groups| - 1;
    if k == n {
      LastStands(groups, expanded, scale);
    } else {
      GroupsStand(groups[..n], expanded, scale, k);
      assert groups[..n][..k] == groups[..k];
      FrontStands(NodesOf(groups[n], expanded, scale, Cursor(groups[..n], expanded, scale)),
                  Placed(groups[..n], expanded, scale), groups[k], expanded, scale,
                  Cursor(groups[..k], expanded, scale));
    }
  }

  lemma CursorNext(groups: seq<Group>, expanded: set<string>, scale: real, k: nat)
    requires k < |groups|
    ensures Cursor(groups[..0], expanded, scale) == 10.0 * scale
    ensures var rows := if |groups[k].routes| != 1 && groups[k].key in expanded then |groups[k].routes| else 1;
            Cursor(groups[..k + 1], expanded, scale) == RowAt(Cursor(groups[..k], expanded, scale), rows, 90.0 * scale)
  {
    assert groups[..k + 1][..k] == groups[..k];
    RowsAreProduct(|groups[k].routes|, 90.0 * scale);
  }

  /** Up to five hosts all stand ungrouped; beyond that the chosen mode groups, and hides what no filter matches. */
  lemma ThresholdExactly(routes: seq<Service>, mode: Mode, hides: bool, matches: Service -> bool)
    ensures |Unique(routes)| <= 5 ==>
              EffectiveMode(routes, mode) == Ungrouped && Visible(routes, hides, matches) == Unique(routes)
    ensures |Unique(routes)| > 5 ==>
              && EffectiveMode(routes, mode) == mode
              && forall r :: r in Visible(routes, hides, matches) <==> r in Unique(routes) && (hides ==> matches(r))
  {
    forall r ensures r in Filter(Unique(routes), matches) <==> r in Unique(routes) && matches(r) {
      FilterMember(Unique(routes), matches, r);
    }
  }

  /** Ungrouped, the routes stand one below the other in the first column. */
  lemma UngroupedStand(visible: seq<Service>, expanded: set<string>, scale: real,
                       normalize: string -> string, le: (string, string) -> bool, i: nat)
    requires i < |visible|
    ensures var nodes := LaidOut(visible, Ungrouped, expanded, scale, normalize, le);
            |nodes| == |visible| &&
            nodes[i] == ServiceNode(visible[i], 720.0 * scale, RowAt(10.0 * scale, i, 90.0 * scale))
  {
    RowsAreProduct(i, 90.0 * scale);
  }
}
