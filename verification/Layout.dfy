/** The finished layout of any history that has no cycle below its root, and why no other can be drawn. */
module Layout {
  import opened Options
  import opened History

  // ---------- The part of the history that is drawn ----------

  /** The commits that descend from the root, with their children. */
  ghost function Part(g: Graph, root: string): Graph {
    map h | h in g && Reaches(g, root, h) :: g[h]
  }

  /** The layout can be run from `root`: nothing below it descends from itself. */
  ghost predicate Drawable(g: Graph, root: string) {
    root in g && Dag(Part(g, root))
  }

  ghost predicate CycleBelow(g: Graph, root: string, path: seq<string>) {
    Cycle(g, path) && Reaches(g, root, path[0])
  }

  lemma ReachesNext(g: Graph, root: string, p: string, c: string)
    requires Reaches(g, root, p) && Edge(g, p, c)
    ensures Reaches(g, root, c)
  {
    var path :| Joins(g, path, root, p);
    var longer := path + [c];
    forall i | 0 <= i < |longer| - 1
      ensures Edge(g, longer[i], longer[i + 1])
    {
      assert i < |path| - 1 ==> Edge(g, path[i], path[i + 1]);
    }
    assert Joins(g, longer, root, c);
  }

  lemma PartIsClosed(g: Graph, root: string)
    requires Closed(g)
    ensures Closed(Part(g, root))
  {
    forall p, c | Edge(Part(g, root), p, c)
      ensures c in Part(g, root)
    {
      assert Edge(g, p, c);
      ReachesNext(g, root, p, c);
    }
  }

  /** A path of the part is a path of the graph. */
  lemma PartPath(g: Graph, root: string, path: seq<string>)
    requires IsPath(Part(g, root), path)
    ensures IsPath(g, path)
  {
    var part := Part(g, root);
    forall i | 0 <= i < |path| - 1
      ensures Edge(g, path[i], path[i + 1])
    {
      assert Edge(part, path[i], path[i + 1]);
    }
  }

  /** A path of the graph that starts below the root lies in the part. */
  lemma {:induction false} PathInPart(g: Graph, root: string, path: seq<string>)
    requires Closed(g) && IsPath(g, path) && Reaches(g, root, path[0])
    ensures IsPath(Part(g, root), path) && Reaches(g, root, path[|path| - 1]) && path[|path| - 1] in g
    decreases |path|
  {
    var n := |path| - 1;
    if n > 0 {
      var front := path[..n];
      assert IsPath(g, front);
      PathInPart(g, root, front);
      assert Edge(g, path[n - 1], path[n - 1 + 1]);
      ReachesNext(g, root, path[n - 1], path[n]);
      forall i | 0 <= i < n
        ensures Edge(Part(g, root), path[i], path[i + 1])
      {
        assert i < n - 1 ==> Edge(Part(g, root), front[i], front[i + 1]);
      }
    }
  }

  lemma PartReaches(g: Graph, root: string, h: string)
    requires Closed(g) && root in g
    ensures Reaches(Part(g, root), root, h) <==> Reaches(g, root, h)
  {
    ReachesItself(g, root);
    if Reaches(g, root, h) {
      var path :| Joins(g, path, root, h);
      PathInPart(g, root, path);
      assert Joins(Part(g, root), path, root, h);
    }
    if Reaches(Part(g, root), root, h) {
      var path :| Joins(Part(g, root), path, root, h);
      PartPath(g, root, path);
      assert Joins(g, path, root, h);
    }
  }

  /** The layout can be run exactly when no cycle is reachable from the root. */
  lemma DrawableIffNoCycle(g: Graph, root: string)
    requires Closed(g) && root in g
    ensures Drawable(g, root) <==> forall path :: !CycleBelow(g, root, path)
  {
    var part := Part(g, root);
    PartIsClosed(g, root);
    forall path
      ensures Cycle(part, path) <==> CycleBelow(g, root, path)
    {
      if Cycle(part, path) {
        PartPath(g, root, path);
      }
      if CycleBelow(g, root, path) {
        PathInPart(g, root, path);
      }
    }
  }

  /** No commit below the root that is picked from the data descends from itself. */
  ghost predicate NoCycleBelowRoot(data: seq<Commit>) {
    RootHash(data).Some? ==> forall path :: !CycleBelow(GraphOf(data), RootHash(data).value, path)
  }

  lemma RootDrawable(data: seq<Commit>)
    requires RootHash(data).Some?
    ensures Closed(GraphOf(data)) && (Drawable(GraphOf(data), RootHash(data).value) <==> NoCycleBelowRoot(data))
  {
    GraphIsClosed(data);
    RootIsShown(data);
    DrawableIffNoCycle(GraphOf(data), RootHash(data).value);
  }

  // ---------- Nested calls ----------

  /** Below a root that can be drawn, calls nest at most as deep as there are commits below it. */
  lemma {:induction false} RoutesAreShort(g: Graph, h: string, r: Route)
    requires Dag(g) && h in g && IsRoute(g, h, r)
    ensures |r| < Depth(g, h)
    decreases |r|
  {
    ReachesItself(g, h);
    if r == [] {
      assert h in Below(g, h);
    } else {
      BelowShrinks(g, h, g[h][r[0]]);
      RoutesAreShort(g, g[h][r[0]], r[1..]);
    }
  }

  lemma {:induction false} RouteInPart(g: Graph, root: string, h: string, r: Route)
    requires Closed(g) && h in g && Reaches(g, root, h)
    ensures IsRoute(Part(g, root), h, r) <==> IsRoute(g, h, r)
    ensures IsRoute(g, h, r) ==> RouteEnd(Part(g, root), h, r) == RouteEnd(g, h, r) && Offset(Part(g, root), h, r) == Offset(g, h, r)
    decreases |r|
  {
    if r != [] && r[0] < |g[h]| {
      var c := g[h][r[0]];
      assert Edge(g, h, c);
      ReachesNext(g, root, h, c);
      RouteInPart(g, root, c, r[1..]);
    }
  }

  /** From a node of a cycle one can walk on for ever. */
  lemma {:induction false} RoundAndRound(g: Graph, cycle: seq<string>, i: nat, n: nat) returns (r: Route)
    requires Closed(g) && Cycle(g, cycle) && i < |cycle| - 1
    ensures cycle[i] in g && IsRoute(g, cycle[i], r) && |r| == n
    decreases n
  {
    assert Edge(g, cycle[i], cycle[i + 1]);
    if n == 0 {
      r := [];
    } else {
      var k: nat :| k < |g[cycle[i]]| && g[cycle[i]][k] == cycle[i + 1];
      var rest := RoundAndRound(g, cycle, if i + 1 < |cycle| - 1 then i + 1 else 0, n - 1);
      r := [k] + rest;
      assert r[1..] == rest;
    }
  }

  /** A route along a path, going on at its end. */
  lemma {:induction false} RouteAlong(g: Graph, path: seq<string>, i: nat, rest: Route) returns (r: Route)
    requires Closed(g) && IsPath(g, path) && i < |path|
    requires path[|path| - 1] in g && IsRoute(g, path[|path| - 1], rest)
    ensures path[i] in g && IsRoute(g, path[i], r) && |r| >= |rest|
    decreases |path| - i
  {
    if i == |path| - 1 {
      r := rest;
    } else {
      assert Edge(g, path[i], path[i + 1]);
      var k: nat :| k < |g[path[i]]| && g[path[i]][k] == path[i + 1];
      var tail := RouteAlong(g, path, i + 1, rest);
      r := [k] + tail;
      assert r[1..] == tail;
    }
  }

  /** How deep the calls of the layout may nest: along no route deeper than `n`. */
  ghost predicate NestsWithin(g: Graph, root: string, n: nat)
    requires root in g
  {
    forall r :: IsRoute(g, root, r) ==> |r| <= n
  }

  /** The recursion is bounded exactly when the history can be drawn: below a cycle calls nest deeper than
      any number, and the layout never returns. */
  lemma EndsIffDrawable(g: Graph, root: string)
    requires Closed(g) && root in g
    ensures (exists n: nat :: NestsWithin(g, root, n)) <==> Drawable(g, root)
  {
    DrawableIffNoCycle(g, root);
    if Drawable(g, root) {
      ReachesItself(g, root);
      forall r | IsRoute(g, root, r)
        ensures |r| <= Depth(Part(g, root), root)
      {
        RouteInPart(g, root, root, r);
        RoutesAreShort(Part(g, root), root, r);
      }
      assert NestsWithin(g, root, Depth(Part(g, root), root));
    } else {
      var cycle :| CycleBelow(g, root, cycle);
      var path :| Joins(g, path, root, cycle[0]);
      forall n: nat
        ensures !NestsWithin(g, root, n)
      {
        var around := RoundAndRound(g, cycle, 0, n + 1);
        var r := RouteAlong(g, path, 0, around);
      }
    }
  }

  // ---------- The finished layout ----------

  function AtOrigin(g: Graph): Places {
    map h | h in g :: Pos(0.0, 0)
  }

  /** The calls made from the root. */
  ghost function Visits(g: Graph, root: string): seq<Visit>
    requires Drawable(g, root)
  {
    RootIsInPart(g, root);
    Trace(Part(g, root), root, 400.0)
  }

  lemma RootIsInPart(g: Graph, root: string)
    requires root in g
    ensures root in Part(g, root)
  {
    ReachesItself(g, root);
  }

  /** The state the effect leaves: every node where its last visit put it, the rest untouched. */
  ghost predicate IsLayout(g: Graph, root: Option<string>, places: Places, yPosition: int)
    requires root.Some? ==> Drawable(g, root.value)
  {
    match root
    case None => places == AtOrigin(g) && yPosition == 100
    case Some(r) => places == SettledAll(Visits(g, r), 100, AtOrigin(g)) && yPosition == 100 + 150 * |Visits(g, r)|
  }

  /** The row of a commit is that of its last visit, and it has one exactly when it is reachable. */
  lemma RowOf(g: Graph, root: string, places: Places, yPosition: int, h: string) returns (k: int)
    requires Closed(g) && Drawable(g, root) && IsLayout(g, Some(root), places, yPosition) && h in g
    ensures h in places && k == LastVisit(Visits(g, root), h)
    ensures Reaches(g, root, h) ==> 0 <= k && 150 * k <= yPosition - 250 && places[h].y == 100 + 150 * k
    ensures !Reaches(g, root, h) ==> k < 0 && places[h] == Pos(0.0, 0)
  {
    RootIsInPart(g, root);
    VisitedIffReachable(Part(g, root), root, 400.0, h);
    PartReaches(g, root, h);
    SettledAt(Visits(g, root), 100, AtOrigin(g), h);
    k := LastVisit(Visits(g, root), h);
  }

  /** Below a reachable commit, every child is drawn strictly lower, however often it was overwritten. */
  lemma ChildrenAreLower(g: Graph, root: string, places: Places, yPosition: int, p: string, c: string)
    requires Closed(g) && Drawable(g, root) && IsLayout(g, Some(root), places, yPosition)
    requires Edge(g, p, c) && Reaches(g, root, p)
    ensures p in places && c in places && places[p].y < places[c].y
  {
    var k := RowOf(g, root, places, yPosition, p);
    RootIsInPart(g, root);
    assert Edge(Part(g, root), p, c);
    LastVisitsAreTopological(Part(g, root), root, 400.0, p, c);
    ReachesNext(g, root, p, c);
    var l := RowOf(g, root, places, yPosition, c);
  }

  /** No two reachable commits share a row. */
  lemma RowsAreDistinct(g: Graph, root: string, places: Places, yPosition: int, a: string, b: string)
    requires Closed(g) && Drawable(g, root) && IsLayout(g, Some(root), places, yPosition) && a in g && b in g
    requires Reaches(g, root, a) && Reaches(g, root, b) && a != b
    ensures a in places && b in places && places[a].y != places[b].y
  {
    var k := RowOf(g, root, places, yPosition, a);
    var l := RowOf(g, root, places, yPosition, b);
  }

  /** One row is used per directed path that starts at the root. */
  lemma RowsCountPaths(g: Graph, root: string, places: Places, yPosition: int) returns (routes: seq<Route>)
    requires Closed(g) && Drawable(g, root) && IsLayout(g, Some(root), places, yPosition)
    ensures Enumerates(g, root, routes) && LexSorted(routes) && yPosition == 100 + 150 * |routes|
    ensures EndAlong(g, root, 400.0, routes, Visits(g, root))
  {
    RootIsInPart(g, root);
    ReachesItself(g, root);
    OneVisitPerPath(Part(g, root), root, 400.0);
    routes := Routes(Part(g, root), root);
    forall r
      ensures IsRoute(Part(g, root), root, r) <==> IsRoute(g, root, r)
    {
      RouteInPart(g, root, root, r);
    }
    forall k | 0 <= k < |routes|
      ensures EndsAt(g, root, 400.0, routes[k], Visits(g, root)[k])
    {
      assert EndsAt(Part(g, root), root, 400.0, routes[k], Visits(g, root)[k]);
      RouteInPart(g, root, root, routes[k]);
    }
  }

  /** Where a reachable commit is drawn: list the paths from the root as a dictionary would; the last one
      that leads to the commit gives its row by its place in the list, and its column by its steps. */
  lemma PlaceOf(g: Graph, root: string, places: Places, yPosition: int, h: string) returns (routes: seq<Route>, k: nat)
    requires Closed(g) && Drawable(g, root) && IsLayout(g, Some(root), places, yPosition) && h in g && Reaches(g, root, h)
    ensures Enumerates(g, root, routes) && LexSorted(routes)
    ensures k < |routes| && IsRoute(g, root, routes[k]) && RouteEnd(g, root, routes[k]) == h
    ensures forall j :: k < j < |routes| ==> IsRoute(g, root, routes[j]) && RouteEnd(g, root, routes[j]) != h
    ensures h in places && places[h] == Pos(400.0 + Offset(g, root, routes[k]), 100 + 150 * k)
  {
    routes := RowsCountPaths(g, root, places, yPosition);
    k := RowOf(g, root, places, yPosition, h);
    SettledAt(Visits(g, root), 100, AtOrigin(g), h);
    assert EndsAt(g, root, 400.0, routes[k], Visits(g, root)[k]);
    forall j | k < j < |routes|
      ensures IsRoute(g, root, routes[j]) && RouteEnd(g, root, routes[j]) != h
    {
      assert EndsAt(g, root, 400.0, routes[j], Visits(g, root)[j]);
    }
  }
}
