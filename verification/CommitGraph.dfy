/** CommitGraph.tsx: builds one node per commit, links children into their parents' lists by
    mutation, then lays the nodes out with a recursive function that writes every node it meets,
    as often as it meets it. */
module CommitGraphs {
  import opened Options
  import opened History
  import opened Layout

  class CommitNode {
    const id: string
    const commit: Commit
    var x: real
    var y: int
    var children: seq<CommitNode>

    constructor (commit: Commit)
      ensures this.id == commit.hash && this.commit == commit
      ensures x == 0.0 && y == 0 && children == []
    {
      this.id := commit.hash;
      this.commit := commit;
      x, y, children := 0.0, 0, [];
    }

    /** The child list spells out `ids` with nodes of `nodes`. */
    ghost predicate Spells(ids: seq<string>, nodes: set<CommitNode>)
      reads `children
    {
      |children| == |ids| && forall i :: 0 <= i < |ids| ==> children[i] in nodes && children[i].id == ids[i]
    }
  }

  ghost predicate DistinctIds(nodes: set<CommitNode>) {
    forall m, n :: m in nodes && n in nodes && m.id == n.id ==> m == n
  }

  /** The child lists of the nodes of `g` spell it out. */
  ghost predicate Linked(nodes: set<CommitNode>, g: Graph)
    reads nodes`children
  {
    forall n :: n in nodes && n.id in g ==> n.Spells(g[n.id], nodes)
  }

  /** The nodes of an acyclic graph, linked as it says. */
  ghost predicate Drawing(nodes: set<CommitNode>, g: Graph)
    reads nodes`children
  {
    Dag(g) && DistinctIds(nodes) && Linked(nodes, g)
  }

  /** The nodes stand at `places`. */
  ghost predicate Shows(nodes: set<CommitNode>, places: Places)
    reads nodes`x, nodes`y
  {
    forall n :: n in nodes ==> n.id in places && Pos(n.x, n.y) == places[n.id]
  }

  class CommitGraph {
    var commitMap: map<string, CommitNode>
    var yPosition: int

    constructor ()
      ensures commitMap == map[] && yPosition == 100
    {
      commitMap, yPosition := map[], 100;
    }

    /** `nodes` are the values of `commitMap`, each under its own hash. */
    ghost predicate Keyed(nodes: set<CommitNode>)
      reads `commitMap
    {
      && (forall h :: h in commitMap ==> commitMap[h] in nodes && commitMap[h].id == h)
      && (forall n :: n in nodes ==> n.id in commitMap && commitMap[n.id] == n)
    }

    /** Every node is as it was made, for the last commit with its hash. */
    ghost predicate Unlinked(nodes: set<CommitNode>, data: seq<Commit>)
      reads nodes
    {
      forall n :: n in nodes ==>
        n.x == 0.0 && n.y == 0 && n.children == [] && n.commit.hash == n.id && IsLastCommit(data, n.commit)
    }

    method BuildNodes(data: seq<Commit>) returns (ghost nodes: set<CommitNode>)
      modifies `commitMap
      ensures Keyed(nodes) && commitMap.Keys == Hashes(data) && fresh(nodes) && Unlinked(nodes, data)
    {
      commitMap, nodes := map[], {};
      for i := 0 to |data|
        invariant Keyed(nodes) && commitMap.Keys == Hashes(data[..i]) && fresh(nodes) && Unlinked(nodes, data[..i])
      {
        nodes := AddNode(data[..i], data[i], nodes);
        assert data[..i + 1] == data[..i] + [data[i]];
        HashesNext(data[..i], data[i]);
      }
      assert data[..|data|] == data;
    }

    /** A node for one more commit, in the place of any other with its hash. */
    method AddNode(ghost done: seq<Commit>, commit: Commit, ghost nodes: set<CommitNode>) returns (ghost more: set<CommitNode>)
      requires Keyed(nodes) && Unlinked(nodes, done)
      modifies `commitMap
      ensures Keyed(more) && commitMap.Keys == old(commitMap.Keys) + {commit.hash}
      ensures fresh(more - nodes) && Unlinked(more, done + [commit])
    {
      LastCommitNext(done, commit);
      var node := new CommitNode(commit);
      more := (set n | n in nodes && n.id != node.id) + {node};
      commitMap := commitMap[commit.hash := node];
    }

    method LinkChildren(data: seq<Commit>, ghost nodes: set<CommitNode>)
      requires Keyed(nodes) && commitMap.Keys == Hashes(data)
      requires forall n :: n in nodes ==> n.children == []
      modifies nodes`children
      ensures Linked(nodes, GraphOf(data))
    {
      for i := 0 to |data|
        invariant forall n :: n in nodes ==> n.Spells(ChildHashes(data[..i], n.id), nodes)
      {
        LinkOne(data[i], data[..i], nodes);
        assert data[..i + 1][..i] == data[..i];
      }
      assert data[..|data|] == data;
    }

    /** The inner loop: one commit joins the child list of each shown parent it names. */
    method LinkOne(commit: Commit, ghost done: seq<Commit>, ghost nodes: set<CommitNode>)
      requires Keyed(nodes) && commit.hash in commitMap
      requires forall n :: n in nodes ==> n.Spells(ChildHashes(done, n.id), nodes)
      modifies nodes`children
      ensures forall n :: n in nodes ==>
        n.Spells(ChildHashes(done, n.id) + LinksFrom(commit.hash, commit.parents, n.id), nodes)
    {
      for j := 0 to |commit.parents|
        invariant LinkedUpTo(nodes, done, commit, j)
      {
        LinkParent(commit, j, done, nodes);
      }
      assert commit.parents[..|commit.parents|] == commit.parents;
    }

    /** The commits `done` are linked, and the first `j` parent entries of `commit`. */
    ghost predicate LinkedUpTo(nodes: set<CommitNode>, done: seq<Commit>, commit: Commit, j: nat)
      requires j <= |commit.parents|
      reads nodes`children
    {
      forall n :: n in nodes ==> n.Spells(ChildHashes(done, n.id) + LinksFrom(commit.hash, commit.parents[..j], n.id), nodes)
    }

    /** The callback for one parent: a shown parent gets one more child, no other node changes. */
    method LinkParent(commit: Commit, j: nat, ghost done: seq<Commit>, ghost nodes: set<CommitNode>)
      requires Keyed(nodes) && commit.hash in commitMap && j < |commit.parents| && LinkedUpTo(nodes, done, commit, j)
      modifies nodes`children
      ensures LinkedUpTo(nodes, done, commit, j + 1)
      ensures forall n :: n in nodes && n.id != commit.parents[j] ==> n.children == old(n.children)
    {
      var parentHash := commit.parents[j];
      LinksFromStep(commit.hash, commit.parents, j);
      if parentHash in commitMap {
        var parent := commitMap[parentHash];
        parent.children := parent.children + [commitMap[commit.hash]];
      }
      forall n | n in nodes
        ensures n.Spells(ChildHashes(done, n.id) + LinksFrom(commit.hash, commit.parents[..j + 1], n.id), nodes)
      {
        var before := ChildHashes(done, n.id) + LinksFrom(commit.hash, commit.parents[..j], n.id);
        var after := ChildHashes(done, n.id) + LinksFrom(commit.hash, commit.parents[..j + 1], n.id);
        assert after == before + if n.id == parentHash then [commit.hash] else [];
        assert old(n.Spells(before, nodes));
      }
    }

    /** The visits `t`, the first at `y0`, have been made: each node stands where the last visit to it put
        it, all others where they were, and `yPosition` is 150 further per visit. */
    ghost predicate Placed(t: seq<Visit>, y0: int, nodes: set<CommitNode>, before: Places)
      reads `yPosition, nodes`x, nodes`y
    {
      yPosition == y0 + 150 * |t| && Shows(nodes, SettledAll(t, y0, before))
    }

    /** Each node ends where the last visit to it put it; all others keep their place. */
    method LayoutTree(node: CommitNode, x: real, ghost g: Graph, ghost nodes: set<CommitNode>, ghost before: Places)
      requires Drawing(nodes, g) && node in nodes && node.id in g && Shows(nodes, before)
      modifies `yPosition, nodes`x, nodes`y
      ensures Placed(Trace(g, node.id, x), old(yPosition), nodes, before)
      decreases Depth(g, node.id), 2
    {
      ghost var y0 := yPosition;
      node.x := x;
      node.y := yPosition;
      yPosition := yPosition + 150;
      SettledAllOne(Visit(node.id, x), y0, before);
      LayoutChildren(node, x, g, nodes, y0, before);
    }

    /** The loop over the children, run when `node` itself has just been placed. */
    method LayoutChildren(node: CommitNode, x: real, ghost g: Graph, ghost nodes: set<CommitNode>, ghost y0: int, ghost before: Places)
      requires Drawing(nodes, g) && node in nodes && node.id in g
      requires Placed([Visit(node.id, x)], y0, nodes, before)
      modifies `yPosition, nodes`x, nodes`y
      ensures Placed(Trace(g, node.id, x), y0, nodes, before)
      decreases Depth(g, node.id), 1
    {
      BegunEnds(g, node.id, x);
      assert |node.children| == |g[node.id]|;
      for index := 0 to |node.children|
        invariant Placed(Begun(g, node.id, x, index), y0, nodes, before)
      {
        LayoutChild(node, x, index, g, nodes, y0, before);
      }
    }

    /** The body of that loop for one child. */
    method LayoutChild(node: CommitNode, x: real, index: nat, ghost g: Graph, ghost nodes: set<CommitNode>, ghost y0: int, ghost before: Places)
      requires Drawing(nodes, g) && node in nodes && node.id in g && index < |node.children|
      requires Placed(Begun(g, node.id, x, index), y0, nodes, before)
      modifies `yPosition, nodes`x, nodes`y
      ensures Placed(Begun(g, node.id, x, index + 1), y0, nodes, before)
      decreases Depth(g, node.id), 0
    {
      var childNode := node.children[index];
      var childX := x + (index as real - |node.children| as real / 2.0) * 200.0;
      assert childNode.id == g[node.id][index] && childX == ChildX(x, index, |g[node.id]|);
      BelowShrinks(g, node.id, childNode.id);
      ghost var done := Begun(g, node.id, x, index);
      ghost var next := Trace(g, childNode.id, childX);
      ghost var middle := SettledAll(done, y0, before);
      assert yPosition == y0 + 150 * |done|;
      LayoutTree(childNode, childX, g, nodes, middle);
      assert Shows(nodes, SettledAll(next, y0 + 150 * |done|, middle));
      SettledAllAppend(done, next, y0, before);
      BegunStep(g, node.id, x, index);
    }

    /** Lays out everything below the root commit, if there is one. */
    method LayoutFromRoot(root: Option<string>, ghost g: Graph, ghost nodes: set<CommitNode>) returns (ghost places: Places)
      requires Keyed(nodes) && commitMap.Keys == g.Keys && (root.Some? ==> Drawable(g, root.value))
      requires Linked(nodes, g) && Shows(nodes, AtOrigin(g))
      modifies `yPosition, nodes`x, nodes`y
      ensures Shows(nodes, places) && IsLayout(g, root, places, yPosition)
    {
      yPosition := 100;
      places := AtOrigin(g);
      if root.Some? {
        RootIsInPart(g, root.value);
        LayoutTree(commitMap[root.value], 400.0, Part(g, root.value), nodes, places);
        places := SettledAll(Visits(g, root.value), 100, places);
      }
    }

    /** The effect body: build, link, lay out from the first commit without parents. */
    method Effect(data: seq<Commit>) returns (ghost nodes: set<CommitNode>, ghost places: Places)
      requires NoCycleBelowRoot(data)
      modifies this
      ensures Keyed(nodes) && commitMap.Keys == Hashes(data) && Linked(nodes, GraphOf(data))
      ensures forall n :: n in nodes ==> n.commit.hash == n.id && IsLastCommit(data, n.commit)
      ensures RootHash(data).Some? ==> Drawable(GraphOf(data), RootHash(data).value)
      ensures Shows(nodes, places) && IsLayout(GraphOf(data), RootHash(data), places, yPosition)
    {
      if RootHash(data).Some? {
        RootDrawable(data);
      }
      nodes := BuildNodes(data);
      LinkChildren(data, nodes);
      places := LayoutFromRoot(RootHash(data), GraphOf(data), nodes);
    }
  }
}
