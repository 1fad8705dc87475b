/** Commit histories as directed graphs, and the order in which the depth-first layout of
    CommitGraph.tsx visits them. Everything here is about values; the code that mutates nodes
    is in CommitGraph.dfy. */
module History {
  import opened Options

  datatype Commit = Commit(
    hash: string, message: string, author: string, date: string, branch: string, parents: seq<string>)

  /** For every shown commit, the hashes of its children in link order. */
  type Graph = map<string, seq<string>>

  function Hashes(data: seq<Commit>): set<string> {
    set i | 0 <= i < |data| :: data[i].hash
  }

  lemma HashesNext(data: seq<Commit>, c: Commit)
    ensures Hashes(data + [c]) == Hashes(data) + {c.hash}
  {
    assert (data + [c])[|data|] == c;
    forall i | 0 <= i < |data|
      ensures data[i].hash in Hashes(data + [c])
    {
      assert (data + [c])[i] == data[i];
    }
  }

  /** Where the last commit with this hash is, or -1. */
  function LastIndex(data: seq<Commit>, hash: string): (r: int)
    ensures -1 <= r < |data|
    ensures r >= 0 ==> data[r].hash == hash
    ensures forall j :: r < j < |data| ==> data[j].hash != hash
  {
    if data == [] then -1
    else if data[|data| - 1].hash == hash then |data| - 1
    else LastIndex(data[..|data| - 1], hash)
  }

  /** The commit is the last one with its hash. */
  predicate IsLastCommit(data: seq<Commit>, c: Commit) {
    LastIndex(data, c.hash) >= 0 && data[LastIndex(data, c.hash)] == c
  }

  lemma LastCommitNext(data: seq<Commit>, c: Commit)
    ensures IsLastCommit(data + [c], c)
    ensures forall d :: IsLastCommit(data, d) && d.hash != c.hash ==> IsLastCommit(data + [c], d)
  {
    assert (data + [c])[..|data|] == data;
  }

  /** The children one commit adds under `p`: itself, once for every time it names `p`. */
  function LinksFrom(hash: string, parents: seq<string>, p: string): seq<string> {
    if parents == [] then []
    else LinksFrom(hash, parents[..|parents| - 1], p) + if parents[|parents| - 1] == p then [hash] else []
  }

  lemma LinksFromStep(hash: string, parents: seq<string>, j: nat)
    requires j < |parents|
    ensures forall p :: LinksFrom(hash, parents[..j + 1], p) ==
                        LinksFrom(hash, parents[..j], p) + if parents[j] == p then [hash] else []
  {
    assert parents[..j + 1][..j] == parents[..j];
  }

  function ChildHashes(data: seq<Commit>, p: string): seq<string> {
    if data == [] then []
    else
      var last := data[|data| - 1];
      ChildHashes(data[..|data| - 1], p) + LinksFrom(last.hash, last.parents, p)
  }

  function GraphOf(data: seq<Commit>): (g: Graph)
    ensures g.Keys == Hashes(data)
  {
    map p | p in Hashes(data) :: ChildHashes(data, p)
  }

  // ---------- The child lists are the converse of the parent relation ----------

  /** Commit number `at.0` names `p` as its parent number `at.1`. */
  predicate LinkAt(data: seq<Commit>, p: string, at: (nat, nat)) {
    at.0 < |data| && at.1 < |data[at.0].parents| && data[at.0].parents[at.1] == p
  }

  predicate Before(a: (nat, nat), b: (nat, nat)) {
    a.0 < b.0 || (a.0 == b.0 && a.1 < b.1)
  }

  ghost predicate Increasing(at: seq<(nat, nat)>) {
    forall k, l :: 0 <= k < l < |at| ==> Before(at[k], at[l])
  }

  /** The child list of `p` is exactly the list of all places that name `p`, in data order. */
  lemma ChildListIsConverse(data: seq<Commit>, p: string) returns (at: seq<(nat, nat)>)
    ensures Increasing(at)
    ensures forall a :: a in at <==> LinkAt(data, p, a)
    ensures |at| == |ChildHashes(data, p)|
    ensures forall k :: 0 <= k < |at| ==> at[k].0 < |data| && ChildHashes(data, p)[k] == data[at[k].0].hash
  {
    if data == [] {
      at := [];
    } else {
      var n := |data| - 1;
      var before := ChildListIsConverse(data[..n], p);
      var here := LinksOfCommit(data[n], n, p, |data[n].parents|);
      at := before + here;
      assert data[n].parents[..|data[n].parents|] == data[n].parents;
      forall a
        ensures a in at <==> LinkAt(data, p, a)
      {
        assert a in before <==> LinkAt(data[..n], p, a);
      }
      forall k, l | 0 <= k < l < |at|
        ensures Before(at[k], at[l])
      {
        if k < |before| {
          assert at[k] in before && LinkAt(data[..n], p, at[k]);
        }
        if l >= |before| {
          assert at[l] in here;
        }
      }
      forall k | 0 <= k < |at|
        ensures at[k].0 < |data| && ChildHashes(data, p)[k] == data[at[k].0].hash
      {
        if k < |before| {
          assert LinkAt(data[..n], p, at[k]);
        } else {
          assert at[k] in here;
        }
      }
    }
  }

  lemma LinksOfCommit(c: Commit, i: nat, p: string, n: nat) returns (at: seq<(nat, nat)>)
    requires n <= |c.parents|
    ensures Increasing(at)
    ensures forall a :: a in at <==> a.0 == i && a.1 < n && c.parents[a.1] == p
    ensures |at| == |LinksFrom(c.hash, c.parents[..n], p)|
    ensures forall k :: 0 <= k < |at| ==> LinksFrom(c.hash, c.parents[..n], p)[k] == c.hash
  {
    if n == 0 {
      at := [];
    } else {
      at := LinksOfCommit(c, i, p, n - 1);
      assert c.parents[..n][..n - 1] == c.parents[..n - 1];
      forall k | 0 <= k < |at|
        ensures at[k] in at && at[k].1 < n - 1
      {
      }
      if c.parents[n - 1] == p {
        at := at + [(i, n - 1)];
      }
    }
  }

  // ---------- Conservation of links ----------

  /** How many parent entries of the history name a commit in `shown`. */
  function ShownParents(parents: seq<string>, shown: set<string>): nat {
    if parents == [] then 0
    else ShownParents(parents[..|parents| - 1], shown) + if parents[|parents| - 1] in shown then 1 else 0
  }

  function ShownLinks(data: seq<Commit>, shown: set<string>): nat {
    if data == [] then 0
    else ShownLinks(data[..|data| - 1], shown) + ShownParents(data[|data| - 1].parents, shown)
  }

  ghost function TotalChildren(data: seq<Commit>, shown: set<string>): nat {
    if shown == {} then 0
    else var p :| p in shown; |ChildHashes(data, p)| + TotalChildren(data, shown - {p})
  }

  /** Summed over any set of commits, children and parent links to that set are equally many. */
  lemma {:induction false} LinksConserved(data: seq<Commit>, shown: set<string>)
    ensures TotalChildren(data, shown) == ShownLinks(data, shown)
    decreases shown
  {
    if shown == {} {
      NoLinksToNothing(data);
    } else {
      forall p | p in shown
        ensures |ChildHashes(data, p)| + TotalChildren(data, shown - {p}) == ShownLinks(data, shown)
      {
        LinksConserved(data, shown - {p});
        SplitOneParent(data, shown, p);
      }
    }
  }

  lemma NoLinksToNothing(data: seq<Commit>)
    ensures ShownLinks(data, {}) == 0
  {
    if data != [] {
      NoLinksToNothing(data[..|data| - 1]);
      NoParentInNothing(data[|data| - 1].parents);
    }
  }

  lemma NoParentInNothing(parents: seq<string>)
    ensures ShownParents(parents, {}) == 0
  {
  }

  lemma SplitOneParent(data: seq<Commit>, shown: set<string>, p: string)
    requires p in shown
    ensures ShownLinks(data, shown) == ShownLinks(data, shown - {p}) + |ChildHashes(data, p)|
  {
    if data != [] {
      var last := data[|data| - 1];
      SplitOneParent(data[..|data| - 1], shown, p);
      SplitOneCommit(last.hash, last.parents, shown, p);
    }
  }

  lemma SplitOneCommit(hash: string, parents: seq<string>, shown: set<string>, p: string)
    requires p in shown
    ensures ShownParents(parents, shown) == ShownParents(parents, shown - {p}) + |LinksFrom(hash, parents, p)|
  {
  }

  // ---------- Paths, reachability, acyclicity ----------

  predicate Edge(g: Graph, p: string, c: string) {
    p in g && c in g[p]
  }

  predicate IsPath(g: Graph, path: seq<string>) {
    |path| >= 1 && path[0] in g && forall i :: 0 <= i < |path| - 1 ==> Edge(g, path[i], path[i + 1])
  }

  ghost predicate Joins(g: Graph, path: seq<string>, a: string, b: string) {
    IsPath(g, path) && path[0] == a && path[|path| - 1] == b
  }

  ghost predicate Reaches(g: Graph, a: string, b: string) {
    exists path :: Joins(g, path, a, b)
  }

  ghost predicate Closed(g: Graph) {
    forall p, c :: Edge(g, p, c) ==> c in g
  }

  /** A path of at least one edge that ends where it starts. */
  ghost predicate Cycle(g: Graph, path: seq<string>) {
    IsPath(g, path) && |path| > 1 && path[0] == path[|path| - 1]
  }

  ghost predicate Acyclic(g: Graph) {
    forall path :: !Cycle(g, path)
  }

  /** A history the layout may be asked to draw: every child is shown, and nothing descends from itself. */
  ghost predicate Dag(g: Graph) {
    Closed(g) && Acyclic(g)
  }

  /** Every child in the graph of a history is a shown commit. */
  lemma GraphIsClosed(data: seq<Commit>)
    ensures Closed(GraphOf(data))
  {
    var g := GraphOf(data);
    forall p, c | Edge(g, p, c)
      ensures c in g
    {
      var i :| 0 <= i < |g[p]| && g[p][i] == c;
      var at := ChildListIsConverse(data, p);
      assert g[p][i] == data[at[i].0].hash;
    }
  }

  /** The commits at or below `n`: what makes the recursion of the layout terminate. */
  ghost function Below(g: Graph, n: string): set<string> {
    set m | m in g && Reaches(g, n, m)
  }

  lemma PrependEdge(g: Graph, p: string, c: string, m: string)
    requires Edge(g, p, c) && Reaches(g, c, m)
    ensures Reaches(g, p, m) && (m == p ==> !Acyclic(g))
  {
    var path :| Joins(g, path, c, m);
    assert Joins(g, [p] + path, p, m);
    assert m == p ==> Cycle(g, [p] + path);
  }

  lemma ReachesItself(g: Graph, n: string)
    requires n in g
    ensures Reaches(g, n, n)
  {
    assert Joins(g, [n], n, n);
  }

  ghost function Depth(g: Graph, n: string): nat {
    |Below(g, n)|
  }

  lemma BelowShrinks(g: Graph, p: string, c: string)
    requires Dag(g) && Edge(g, p, c)
    ensures c in g && Depth(g, c) < Depth(g, p)
  {
    forall m | m in Below(g, c)
      ensures m in Below(g, p) && m != p
    {
      PrependEdge(g, p, c, m);
    }
    ReachesItself(g, p);
    assert Below(g, p) == Below(g, c) + (Below(g, p) - Below(g, c));
    assert p in Below(g, p) - Below(g, c);
  }

  // ---------- The visiting order ----------

  datatype Visit = Visit(id: string, x: real)

  /** Horizontal place of child number `index` of `count` under a node at `x`. */
  function ChildX(x: real, index: nat, count: nat): real {
    x + (index as real - count as real / 2.0) * 200.0
  }

  /** All calls of `layoutTree` made by a call on `h` at `x`, in call order. */
  ghost function Trace(g: Graph, h: string, x: real): (t: seq<Visit>)
    requires Dag(g) && h in g
    ensures t != [] && t[0] == Visit(h, x)
    decreases Depth(g, h), |g[h]| + 1
  {
    [Visit(h, x)] + Kids(g, h, x, |g[h]|)
  }

  /** The part of it made under the first `n` children. */
  ghost function Kids(g: Graph, h: string, x: real, n: nat): seq<Visit>
    requires Dag(g) && h in g && n <= |g[h]|
    decreases Depth(g, h), n
  {
    if n == 0 then []
    else
      var c := g[h][n - 1];
      BelowShrinks(g, h, c);
      Kids(g, h, x, n - 1) + Trace(g, c, ChildX(x, n - 1, |g[h]|))
  }

  /** The visits of a call on `h` once it has handled its first `n` children. */
  ghost function Begun(g: Graph, h: string, x: real, n: nat): seq<Visit>
    requires Dag(g) && h in g && n <= |g[h]|
  {
    [Visit(h, x)] + Kids(g, h, x, n)
  }

  lemma BegunStep(g: Graph, h: string, x: real, n: nat)
    requires Dag(g) && h in g && n < |g[h]|
    ensures g[h][n] in g
    ensures Begun(g, h, x, n + 1) == Begun(g, h, x, n) + Trace(g, g[h][n], ChildX(x, n, |g[h]|))
  {
    BelowShrinks(g, h, g[h][n]);
    assert Kids(g, h, x, n + 1) == Kids(g, h, x, n) + Trace(g, g[h][n], ChildX(x, n, |g[h]|));
  }

  lemma BegunEnds(g: Graph, h: string, x: real)
    requires Dag(g) && h in g
    ensures Begun(g, h, x, 0) == [Visit(h, x)] && Begun(g, h, x, |g[h]|) == Trace(g, h, x)
  {
  }

  /** Position of the last visit to `h`, or -1. */
  function LastVisit(t: seq<Visit>, h: string): (k: int)
    ensures -1 <= k < |t|
    ensures k >= 0 ==> t[k].id == h
    ensures forall j :: k < j < |t| ==> t[j].id != h
  {
    if t == [] then -1
    else if t[|t| - 1].id == h then |t| - 1
    else LastVisit(t[..|t| - 1], h)
  }

  datatype Pos = Pos(x: real, y: int)

  /** Where `h` ends up when every visit writes its place, the first at `y0` and 150 apart. */
  function Settled(t: seq<Visit>, y0: int, h: string, before: Pos): Pos {
    var k := LastVisit(t, h);
    if k < 0 then before else Pos(t[k].x, y0 + 150 * k)
  }

  type Places = map<string, Pos>

  /** All writes of the visits `t`, one after the other. */
  function SettledAll(t: seq<Visit>, y0: int, before: Places): (after: Places)
    ensures after.Keys == before.Keys
  {
    if t == [] then before
    else
      var n := |t| - 1;
      var places := SettledAll(t[..n], y0, before);
      if t[n].id in before then places[t[n].id := Pos(t[n].x, y0 + 150 * n)] else places
  }

  /** Each node ends where its last visit puts it. */
  lemma {:induction false} SettledAt(t: seq<Visit>, y0: int, before: Places, h: string)
    requires h in before
    ensures SettledAll(t, y0, before)[h] == Settled(t, y0, h, before[h])
  {
    if t != [] {
      SettledAt(t[..|t| - 1], y0, before, h);
    }
  }

  lemma SettledAllOne(v: Visit, y0: int, before: Places)
    requires v.id in before
    ensures SettledAll([v], y0, before) == before[v.id := Pos(v.x, y0)]
  {
    assert [v][..0] == [] && SettledAll([], y0, before) == before;
  }

  lemma {:induction false} SettledAllAppend(a: seq<Visit>, b: seq<Visit>, y0: int, before: Places)
    ensures SettledAll(a + b, y0, before) == SettledAll(b, y0 + 150 * |a|, SettledAll(a, y0, before))
    decreases |b|
  {
    if b == [] {
      assert a + b == a;
    } else {
      var n := |b| - 1;
      SettledAllAppend(a, b[..n], y0, before);
      assert (a + b)[..|a| + n] == a + b[..n] && (a + b)[|a| + n] == b[n];
    }
  }

  // ---------- Every visit replays its whole subtree ----------

  lemma {:induction false} Nested(g: Graph, h: string, x: real, k: nat)
    requires Dag(g) && h in g && k < |Trace(g, h, x)|
    ensures var t := Trace(g, h, x); t[k].id in g && Trace(g, t[k].id, t[k].x) <= t[k..]
    decreases Depth(g, h), |g[h]| + 1
  {
    var t := Trace(g, h, x);
    if k > 0 {
      var kids := Kids(g, h, x, |g[h]|);
      NestedInKids(g, h, x, |g[h]|, k - 1);
      assert t[k..] == kids[k - 1..];
    }
  }

  lemma {:induction false} NestedInKids(g: Graph, h: string, x: real, n: nat, k: nat)
    requires Dag(g) && h in g && n <= |g[h]| && k < |Kids(g, h, x, n)|
    ensures var t := Kids(g, h, x, n); t[k].id in g && Trace(g, t[k].id, t[k].x) <= t[k..]
    decreases Depth(g, h), n
  {
    var c := g[h][n - 1];
    BelowShrinks(g, h, c);
    var front := Kids(g, h, x, n - 1);
    var back := Trace(g, c, ChildX(x, n - 1, |g[h]|));
    assert Kids(g, h, x, n) == front + back;
    RestOfTwo(front, back, k);
    if k < |front| {
      NestedInKids(g, h, x, n - 1, k);
    } else {
      Nested(g, c, ChildX(x, n - 1, |g[h]|), k - |front|);
    }
  }

  /** What is left of two traces in a row. */
  lemma RestOfTwo(front: seq<Visit>, back: seq<Visit>, k: nat)
    requires k <= |front + back|
    ensures (front + back)[k..] == if k < |front| then front[k..] + back else back[k - |front|..]
  {
  }

  lemma {:induction false} ChildVisited(g: Graph, h: string, x: real, i: nat, n: nat) returns (k: nat)
    requires Dag(g) && h in g && i < n <= |g[h]|
    ensures k < |Kids(g, h, x, n)| && Kids(g, h, x, n)[k].id == g[h][i]
    decreases n
  {
    BelowShrinks(g, h, g[h][n - 1]);
    if i == n - 1 {
      k := |Kids(g, h, x, n - 1)|;
    } else {
      k := ChildVisited(g, h, x, i, n - 1);
    }
  }

  /** After every visit to `p`, each child of `p` is visited again. */
  lemma ChildAfter(g: Graph, root: string, x: real, k: nat, c: string) returns (l: nat)
    requires Dag(g) && root in g && k < |Trace(g, root, x)|
    requires Edge(g, Trace(g, root, x)[k].id, c)
    ensures k < l < |Trace(g, root, x)| && Trace(g, root, x)[l].id == c
  {
    var t := Trace(g, root, x);
    var v := t[k];
    Nested(g, root, x, k);
    var i :| 0 <= i < |g[v.id]| && g[v.id][i] == c;
    var j := ChildVisited(g, v.id, v.x, i, |g[v.id]|);
    var sub := Trace(g, v.id, v.x);
    assert sub[j + 1].id == c;
    assert t[k..][j + 1] == sub[j + 1];
    l := k + 1 + j;
  }

  /** The last write to a parent comes before the last write to each of its children. */
  lemma LastVisitsAreTopological(g: Graph, root: string, x: real, p: string, c: string)
    requires Dag(g) && root in g && Edge(g, p, c)
    requires LastVisit(Trace(g, root, x), p) >= 0
    ensures LastVisit(Trace(g, root, x), p) < LastVisit(Trace(g, root, x), c)
  {
    var k := LastVisit(Trace(g, root, x), p);
    var l := ChildAfter(g, root, x, k, c);
  }

  // ---------- Visited means reachable ----------

  lemma {:induction false} VisitedIsReachable(g: Graph, h: string, x: real, k: nat)
    requires Dag(g) && h in g && k < |Trace(g, h, x)|
    ensures Reaches(g, h, Trace(g, h, x)[k].id)
    decreases Depth(g, h), |g[h]| + 1
  {
    if k == 0 {
      ReachesItself(g, h);
    } else {
      VisitedKidIsReachable(g, h, x, |g[h]|, k - 1);
    }
  }

  lemma {:induction false} VisitedKidIsReachable(g: Graph, h: string, x: real, n: nat, k: nat)
    requires Dag(g) && h in g && n <= |g[h]| && k < |Kids(g, h, x, n)|
    ensures Reaches(g, h, Kids(g, h, x, n)[k].id)
    decreases Depth(g, h), n
  {
    var c := g[h][n - 1];
    BelowShrinks(g, h, c);
    var front := Kids(g, h, x, n - 1);
    if k < |front| {
      VisitedKidIsReachable(g, h, x, n - 1, k);
    } else {
      VisitedIsReachable(g, c, ChildX(x, n - 1, |g[h]|), k - |front|);
      PrependEdge(g, h, c, Kids(g, h, x, n)[k].id);
    }
  }

  lemma {:induction false} PathIsVisited(g: Graph, root: string, x: real, path: seq<string>, i: nat) returns (k: nat)
    requires Dag(g) && root in g && IsPath(g, path) && path[0] == root && i < |path|
    ensures k < |Trace(g, root, x)| && Trace(g, root, x)[k].id == path[i]
    decreases i
  {
    if i == 0 {
      k := 0;
    } else {
      k := PathIsVisited(g, root, x, path, i - 1);
      assert Edge(g, path[i - 1], path[i - 1 + 1]);
      k := ChildAfter(g, root, x, k, path[i]);
    }
  }

  lemma VisitedIffReachable(g: Graph, root: string, x: real, n: string)
    requires Dag(g) && root in g
    ensures LastVisit(Trace(g, root, x), n) >= 0 <==> Reaches(g, root, n)
  {
    var k := LastVisit(Trace(g, root, x), n);
    if k >= 0 {
      VisitedIsReachable(g, root, x, k);
    }
    if Reaches(g, root, n) {
      var path :| Joins(g, path, root, n);
      var j := PathIsVisited(g, root, x, path, |path| - 1);
    }
  }

  // ---------- One visit per directed path ----------

  /** A directed path from a node, written as the child number taken at each step. */
  type Route = seq<nat>

  predicate IsRoute(g: Graph, h: string, r: Route)
    requires h in g
    decreases r
  {
    r == [] || (r[0] < |g[h]| && g[h][r[0]] in g && IsRoute(g, g[h][r[0]], r[1..]))
  }

  function RouteEnd(g: Graph, h: string, r: Route): string
    requires h in g && IsRoute(g, h, r)
    decreases r
  {
    if r == [] then h else RouteEnd(g, g[h][r[0]], r[1..])
  }

  /** How far to the right of `h` the route leads: child number `i` of `n` stands `2 * i - n` hundreds to
      the right of its parent. */
  function Offset(g: Graph, h: string, r: Route): real
    requires h in g && IsRoute(g, h, r)
    decreases r
  {
    if r == [] then 0.0 else (2 * r[0] - |g[h]|) as real * 100.0 + Offset(g, g[h][r[0]], r[1..])
  }

  /** In the order of a dictionary: a beginning comes before what it begins. */
  predicate LexBefore(a: Route, b: Route)
    decreases |a|
  {
    b != [] && (a == [] || a[0] < b[0] || (a[0] == b[0] && LexBefore(a[1..], b[1..])))
  }

  ghost predicate LexSorted(routes: seq<Route>) {
    forall i, j :: 0 <= i < j < |routes| ==> LexBefore(routes[i], routes[j])
  }

  ghost predicate NoDuplicates<T(!new)>(s: seq<T>) {
    forall i, j :: 0 <= i < j < |s| ==> s[i] != s[j]
  }

  /** The routes end along the visits `t`, at the places that their steps lead to. */
  ghost predicate EndAlong(g: Graph, h: string, x: real, routes: seq<Route>, t: seq<Visit>)
    requires h in g
  {
    |routes| == |t| && forall k :: 0 <= k < |routes| ==> EndsAt(g, h, x, routes[k], t[k])
  }

  ghost predicate EndsAt(g: Graph, h: string, x: real, r: Route, v: Visit)
    requires h in g
  {
    IsRoute(g, h, r) && RouteEnd(g, h, r) == v.id && x + Offset(g, h, r) == v.x
  }

  ghost predicate Enumerates(g: Graph, h: string, routes: seq<Route>)
    requires h in g
  {
    NoDuplicates(routes) && forall r :: r in routes <==> IsRoute(g, h, r)
  }

  /** The same for the routes whose first step is to one of the first `n` children. */
  ghost predicate EnumeratesVia(g: Graph, h: string, n: nat, routes: seq<Route>)
    requires h in g
  {
    NoDuplicates(routes) && forall r :: r in routes <==> r != [] && r[0] < n && IsRoute(g, h, r)
  }

  /** The routes from `h`, in the order of the visits. */
  ghost function Routes(g: Graph, h: string): seq<Route>
    requires Dag(g) && h in g
    decreases Depth(g, h), |g[h]| + 1
  {
    [[]] + KidRoutes(g, h, |g[h]|)
  }

  ghost function KidRoutes(g: Graph, h: string, n: nat): seq<Route>
    requires Dag(g) && h in g && n <= |g[h]|
    decreases Depth(g, h), n
  {
    if n == 0 then []
    else
      BelowShrinks(g, h, g[h][n - 1]);
      KidRoutes(g, h, n - 1) + ThroughChild(n - 1, Routes(g, g[h][n - 1]))
  }

  lemma {:induction false} RoutesEndAtVisits(g: Graph, h: string, x: real)
    requires Dag(g) && h in g
    ensures EndAlong(g, h, x, Routes(g, h), Trace(g, h, x))
    decreases Depth(g, h), |g[h]| + 1
  {
    KidRoutesEndAtVisits(g, h, x, |g[h]|);
  }

  lemma {:induction false} KidRoutesEndAtVisits(g: Graph, h: string, x: real, n: nat)
    requires Dag(g) && h in g && n <= |g[h]|
    ensures EndAlong(g, h, x, KidRoutes(g, h, n), Kids(g, h, x, n))
    decreases Depth(g, h), n
  {
    if n > 0 {
      var c := g[h][n - 1];
      BelowShrinks(g, h, c);
      KidRoutesEndAtVisits(g, h, x, n - 1);
      RoutesEndAtVisits(g, c, ChildX(x, n - 1, |g[h]|));
      JoinEnds(g, h, x, n, KidRoutes(g, h, n - 1), Routes(g, c), Kids(g, h, x, n - 1), Trace(g, c, ChildX(x, n - 1, |g[h]|)));
    }
  }

  lemma {:induction false} RoutesAreAll(g: Graph, h: string)
    requires Dag(g) && h in g
    ensures Enumerates(g, h, Routes(g, h))
    decreases Depth(g, h), |g[h]| + 1
  {
    KidRoutesAreAll(g, h, |g[h]|);
    var under := KidRoutes(g, h, |g[h]|);
    forall k | 0 <= k < |under|
      ensures under[k] != []
    {
      assert under[k] in under;
    }
  }

  lemma {:induction false} KidRoutesAreAll(g: Graph, h: string, n: nat)
    requires Dag(g) && h in g && n <= |g[h]|
    ensures EnumeratesVia(g, h, n, KidRoutes(g, h, n))
    decreases Depth(g, h), n
  {
    if n > 0 {
      var c := g[h][n - 1];
      BelowShrinks(g, h, c);
      KidRoutesAreAll(g, h, n - 1);
      RoutesAreAll(g, c);
      JoinRoutes(g, h, n, KidRoutes(g, h, n - 1), Routes(g, c));
    }
  }

  lemma {:induction false} RoutesAreSorted(g: Graph, h: string)
    requires Dag(g) && h in g
    ensures LexSorted(Routes(g, h))
    decreases Depth(g, h), |g[h]| + 1
  {
    KidRoutesAreSorted(g, h, |g[h]|);
  }

  lemma {:induction false} KidRoutesAreSorted(g: Graph, h: string, n: nat)
    requires Dag(g) && h in g && n <= |g[h]|
    ensures LexSorted(KidRoutes(g, h, n))
    ensures forall k :: 0 <= k < |KidRoutes(g, h, n)| ==> KidRoutes(g, h, n)[k] != [] && KidRoutes(g, h, n)[k][0] < n
    decreases Depth(g, h), n
  {
    if n > 0 {
      BelowShrinks(g, h, g[h][n - 1]);
      KidRoutesAreSorted(g, h, n - 1);
      RoutesAreSorted(g, g[h][n - 1]);
      ThroughChildSorted(n - 1, KidRoutes(g, h, n - 1), Routes(g, g[h][n - 1]));
    }
  }

  lemma ThroughChildSorted(i: nat, front: seq<Route>, inner: seq<Route>)
    requires LexSorted(front) && LexSorted(inner) && forall k :: 0 <= k < |front| ==> front[k] != [] && front[k][0] < i
    ensures LexSorted(front + ThroughChild(i, inner))
    ensures forall k :: 0 <= k < |front + ThroughChild(i, inner)| ==>
      (front + ThroughChild(i, inner))[k] != [] && (front + ThroughChild(i, inner))[k][0] < i + 1
  {
    var all := front + ThroughChild(i, inner);
    forall k, l | 0 <= k < l < |all|
      ensures LexBefore(all[k], all[l])
    {
      if k >= |front| {
        assert all[k][1..] == inner[k - |front|] && all[l][1..] == inner[l - |front|];
      }
    }
  }

  /** The visits are in one-to-one correspondence with the directed paths from the root, in the order of a
      dictionary, and each stands where the steps of its path lead. */
  lemma OneVisitPerPath(g: Graph, h: string, x: real)
    requires Dag(g) && h in g
    ensures Enumerates(g, h, Routes(g, h)) && LexSorted(Routes(g, h)) && EndAlong(g, h, x, Routes(g, h), Trace(g, h, x))
  {
    RoutesAreAll(g, h);
    RoutesAreSorted(g, h);
    RoutesEndAtVisits(g, h, x);
  }

  function ThroughChild(i: nat, inner: seq<Route>): seq<Route> {
    seq(|inner|, k requires 0 <= k < |inner| => [i] + inner[k])
  }

  lemma JoinEnds(g: Graph, h: string, x: real, n: nat, front: seq<Route>, inner: seq<Route>, tf: seq<Visit>, tb: seq<Visit>)
    requires h in g && 1 <= n <= |g[h]| && g[h][n - 1] in g
    requires EndAlong(g, h, x, front, tf) && EndAlong(g, g[h][n - 1], ChildX(x, n - 1, |g[h]|), inner, tb)
    ensures EndAlong(g, h, x, front + ThroughChild(n - 1, inner), tf + tb)
  {
    var back := ThroughChild(n - 1, inner);
    forall k | 0 <= k < |back|
      ensures EndsAt(g, h, x, back[k], tb[k])
    {
      assert back[k][1..] == inner[k] && EndsAt(g, g[h][n - 1], ChildX(x, n - 1, |g[h]|), inner[k], tb[k]);
    }
  }

  lemma JoinRoutes(g: Graph, h: string, n: nat, front: seq<Route>, inner: seq<Route>)
    requires h in g && 1 <= n <= |g[h]| && g[h][n - 1] in g
    requires EnumeratesVia(g, h, n - 1, front) && Enumerates(g, g[h][n - 1], inner)
    ensures EnumeratesVia(g, h, n, front + ThroughChild(n - 1, inner))
  {
    var back := ThroughChild(n - 1, inner);
    var routes := front + back;
    forall j, k | 0 <= j < k < |routes|
      ensures routes[j] != routes[k]
    {
      if k < |front| {
      } else if j < |front| {
        assert front[j] in front && back[k - |front|][0] == n - 1;
      } else {
        assert back[j - |front|][1..] == inner[j - |front|] && back[k - |front|][1..] == inner[k - |front|];
      }
    }
    forall r
      ensures r in routes <==> r != [] && r[0] < n && IsRoute(g, h, r)
    {
      InThroughChild(n - 1, inner, r);
      assert r in routes <==> r in front || r in back;
    }
  }

  lemma InThroughChild(i: nat, inner: seq<Route>, r: Route)
    ensures r in ThroughChild(i, inner) <==> r != [] && r[0] == i && r[1..] in inner
  {
    var back := ThroughChild(i, inner);
    if r in back {
      var k :| 0 <= k < |back| && back[k] == r;
      assert r[1..] == inner[k];
    }
    if r != [] && r[0] == i && r[1..] in inner {
      var k :| 0 <= k < |inner| && inner[k] == r[1..];
      assert back[k] == r;
    }
  }

  // ---------- The finished layout ----------

  /** Where the first commit without parents is in the data; -1 when there is none. */
  function RootIndex(data: seq<Commit>): (r: int)
    ensures -1 <= r < |data|
    ensures r >= 0 ==> data[r].parents == [] && forall i :: 0 <= i < r ==> data[i].parents != []
    ensures r < 0 ==> forall i :: 0 <= i < |data| ==> data[i].parents != []
  {
    FindRoot(data, 0)
  }

  function FindRoot(data: seq<Commit>, from: nat): (r: int)
    requires from <= |data|
    requires forall i :: 0 <= i < from ==> data[i].parents != []
    ensures -1 <= r < |data|
    ensures r >= 0 ==> data[r].parents == [] && forall i :: 0 <= i < r ==> data[i].parents != []
    ensures r < 0 ==> forall i :: 0 <= i < |data| ==> data[i].parents != []
    decreases |data| - from
  {
    if from == |data| then -1
    else if data[from].parents == [] then from
    else FindRoot(data, from + 1)
  }

  /** The hash of the commit the layout starts from, if there is one. */
  function RootHash(data: seq<Commit>): (h: Option<string>)
    ensures h.None? <==> forall i :: 0 <= i < |data| ==> data[i].parents != []
    ensures h.Some? ==> exists r :: 0 <= r < |data| && data[r].parents == [] && data[r].hash == h.value &&
                                    forall i :: 0 <= i < r ==> data[i].parents != []
  {
    var r := RootIndex(data);
    if r < 0 then None else Some(data[r].hash)
  }

  lemma RootIsShown(data: seq<Commit>)
    ensures RootHash(data).Some? ==> RootHash(data).value in GraphOf(data)
  {
    var r := RootIndex(data);
    assert r >= 0 ==> data[r].hash in Hashes(data);
  }
}
