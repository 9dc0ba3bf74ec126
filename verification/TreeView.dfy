/** The hierarchy of a space as the tree endpoint returns it: the visible rows
    arrive flat and are nested in memory. */
module TreeView {
  import opened Forest
  import opened Kb
  import opened KbInvariants

  class TreeNode {
    const id: int
    const parentId: int
    const depth: int
    var children: seq<TreeNode>

    constructor (id: int, parentId: int, depth: int)
      ensures this.id == id && this.parentId == parentId && this.depth == depth
    {
      this.id, this.parentId, this.depth, this.children := id, parentId, depth, [];
    }
  }

  /** The nodes under a parent id, in input order. */
  function Kids(nodes: seq<TreeNode>, parent: int): seq<TreeNode> {
    if nodes == [] then []
    else
      var last := nodes[|nodes| - 1];
      Kids(nodes[..|nodes| - 1], parent) + if last.parentId == parent then [last] else []
  }

  /** The node an id stands for: the last one listed under it. */
  predicate Holds(nodes: seq<TreeNode>, n: TreeNode) {
    exists i :: 0 <= i < |nodes| && nodes[i] == n && forall j | i < j < |nodes| :: nodes[j].id != n.id
  }

  /** The links a finished tree has. */
  ghost predicate Built(nodes: seq<TreeNode>, roots: seq<TreeNode>)
    reads nodes
  {
    && roots == Kids(nodes, 0)
    && forall n | n in nodes :: n.children == if n.id != 0 && Holds(nodes, n) then Kids(nodes, n.id) else []
  }

  lemma HoldsAppended(nodes: seq<TreeNode>, last: TreeNode, n: TreeNode)
    requires n in nodes
    ensures Holds(nodes + [last], n) <==> n == last || (n.id != last.id && Holds(nodes, n))
    ensures Holds(nodes + [last], last)
  {
    var all := nodes + [last];
    assert all[|nodes|] == last;
    if n.id != last.id && Holds(nodes, n) {
      var i :| 0 <= i < |nodes| && nodes[i] == n && forall j | i < j < |nodes| :: nodes[j].id != n.id;
      assert all[i] == n;
    }
    if Holds(all, n) && n != last {
      var i :| 0 <= i < |all| && all[i] == n && forall j | i < j < |all| :: all[j].id != n.id;
      assert nodes[i] == n && all[|nodes|].id != n.id;
      assert forall j | i < j < |nodes| :: nodes[j] == all[j];
    }
  }

  /** The index of nodes by id, for which a later node replaces an earlier one. */
  method IndexById(nodes: seq<TreeNode>) returns (byId: map<int, TreeNode>)
    modifies nodes
    ensures forall n | n in nodes :: n.children == [] && n.id in byId && (byId[n.id] == n <==> Holds(nodes, n))
    ensures forall x | x in byId :: byId[x] in nodes && byId[x].id == x
  {
    byId := map[];
    for i := 0 to |nodes|
      invariant forall n | n in nodes[..i] ::
        n.children == [] && n.id in byId && (byId[n.id] == n <==> Holds(nodes[..i], n))
      invariant forall x | x in byId :: byId[x] in nodes && byId[x].id == x
    {
      assert nodes[..i + 1] == nodes[..i] + [nodes[i]];
      forall n | n in nodes[..i] {
        HoldsAppended(nodes[..i], nodes[i], n);
      }
      assert Holds(nodes[..i + 1], nodes[i]) by {
        assert nodes[..i + 1][i] == nodes[i];
      }
      nodes[i].children := [];
      byId := byId[nodes[i].id := nodes[i]];
    }
    assert nodes[..|nodes|] == nodes;
  }

  /** BuildTree. */
  method BuildTree(nodes: seq<TreeNode>) returns (roots: seq<TreeNode>)
    modifies nodes
    ensures Built(nodes, roots)
  {
    var byId := IndexById(nodes);
    roots := [];
    for i := 0 to |nodes|
      invariant roots == Kids(nodes[..i], 0)
      invariant forall n | n in nodes ::
        n.children == if n.id != 0 && byId[n.id] == n then Kids(nodes[..i], n.id) else []
    {
      var node := nodes[i];
      assert nodes[..i + 1][..i] == nodes[..i];
      if node.parentId == 0 {
        roots := roots + [node];
        continue;
      }
      if node.parentId in byId {
        var parent := byId[node.parentId];
        parent.children := parent.children + [node];
      }
    }
    assert nodes[..|nodes|] == nodes;
  }

  // ------------------------------------------------------------ what it means

  /** Going down the links from the roots meets x at nesting level k. */
  ghost predicate NestedAt(nodes: seq<TreeNode>, roots: seq<TreeNode>, x: TreeNode, k: nat)
    reads nodes
    decreases k
  {
    && x in nodes
    && if k == 0 then x in roots else exists y :: y in nodes && NestedAt(nodes, roots, y, k - 1) && x in y.children
  }

  /** The parent chain of x inside the input reaches the top after k parents. */
  ghost predicate TopAt(nodes: seq<TreeNode>, x: TreeNode, k: nat)
    decreases k
  {
    x in nodes && if k == 0 then x.parentId == 0
                  else x.parentId != 0 && exists y :: y in nodes && y.id == x.parentId && TopAt(nodes, y, k - 1)
  }

  /** The ids are the distinct positive keys of rows. */
  ghost predicate Keyed(nodes: seq<TreeNode>) {
    && (forall i | 0 <= i < |nodes| :: nodes[i].id > 0)
    && (forall i, j | 0 <= i < j < |nodes| :: nodes[i].id != nodes[j].id)
  }

  lemma {:induction false} KidsAreFiltered(nodes: seq<TreeNode>, parent: int, x: TreeNode)
    ensures x in Kids(nodes, parent) <==> x in nodes && x.parentId == parent
  {
    if nodes != [] {
      KidsAreFiltered(nodes[..|nodes| - 1], parent, x);
      assert nodes == nodes[..|nodes| - 1] + [nodes[|nodes| - 1]];
    }
  }

  /** Siblings keep the input order, each listed once. */
  lemma {:induction false} KidsKeepOrder(nodes: seq<TreeNode>, parent: int, i: nat, j: nat) returns (p: nat, q: nat)
    requires i < j < |Kids(nodes, parent)|
    ensures p < q < |nodes| && nodes[p] == Kids(nodes, parent)[i] && nodes[q] == Kids(nodes, parent)[j]
  {
    var front := nodes[..|nodes| - 1];
    if j < |Kids(front, parent)| {
      p, q := KidsKeepOrder(front, parent, i, j);
    } else {
      KidsAreFiltered(front, parent, Kids(front, parent)[i]);
      p :| 0 <= p < |front| && front[p] == Kids(front, parent)[i];
      q := |nodes| - 1;
    }
  }

  /** The links of a finished tree, node by node. */
  ghost predicate Linked(nodes: seq<TreeNode>, roots: seq<TreeNode>)
    reads nodes
  {
    && (forall x | x in nodes :: x in roots <==> x.parentId == 0)
    && (forall x, y | x in nodes && y in nodes :: x in y.children <==> x.parentId == y.id)
    && (forall y | y in nodes :: y.id != 0)
  }

  lemma BuiltIsLinked(nodes: seq<TreeNode>, roots: seq<TreeNode>)
    requires Keyed(nodes) && Built(nodes, roots)
    ensures Linked(nodes, roots)
  {
    forall x | x in nodes ensures x in roots <==> x.parentId == 0 {
      KidsAreFiltered(nodes, 0, x);
    }
    forall x, y | x in nodes && y in nodes ensures x in y.children <==> x.parentId == y.id {
      KidsAreFiltered(nodes, y.id, x);
      assert Holds(nodes, y);
    }
  }

  lemma {:induction false} NestedReachesTop(nodes: seq<TreeNode>, roots: seq<TreeNode>, x: TreeNode, k: nat)
    requires Linked(nodes, roots) && NestedAt(nodes, roots, x, k)
    ensures TopAt(nodes, x, k)
    decreases k
  {
    if k > 0 {
      var y :| y in nodes && NestedAt(nodes, roots, y, k - 1) && x in y.children;
      NestedReachesTop(nodes, roots, y, k - 1);
    }
  }

  lemma {:induction false} TopIsNested(nodes: seq<TreeNode>, roots: seq<TreeNode>, x: TreeNode, k: nat)
    requires Linked(nodes, roots) && TopAt(nodes, x, k)
    ensures NestedAt(nodes, roots, x, k)
    decreases k
  {
    if k > 0 {
      var y :| y in nodes && y.id == x.parentId && TopAt(nodes, y, k - 1);
      TopIsNested(nodes, roots, y, k - 1);
    }
  }

  lemma {:induction false} TopIsUnique(nodes: seq<TreeNode>, x: TreeNode, k: nat, l: nat)
    requires Keyed(nodes) && TopAt(nodes, x, k) && TopAt(nodes, x, l)
    ensures k == l
    decreases k
  {
    if k > 0 && l > 0 {
      var y :| y in nodes && y.id == x.parentId && TopAt(nodes, y, k - 1);
      var z :| z in nodes && z.id == x.parentId && TopAt(nodes, z, l - 1);
      assert y == z;
      TopIsUnique(nodes, y, k - 1, l - 1);
    }
  }

  /** Each node is linked from one place only: from the roots, or from its parent. */
  lemma LinkedOnce(nodes: seq<TreeNode>, roots: seq<TreeNode>, x: TreeNode, y: TreeNode, z: TreeNode)
    requires Keyed(nodes) && Built(nodes, roots) && x in nodes && y in nodes && z in nodes
    ensures x in y.children && x in z.children ==> y == z
    ensures x in roots ==> x !in y.children
  {
    KidsAreFiltered(nodes, 0, x);
    KidsAreFiltered(nodes, y.id, x);
    KidsAreFiltered(nodes, z.id, x);
  }

  /** The finished tree holds exactly the nodes whose parent chain inside the input
      reaches the top, at the level of its length; branches of orphans are dropped. */
  lemma TreeIsExact(nodes: seq<TreeNode>, roots: seq<TreeNode>, x: TreeNode)
    requires Keyed(nodes) && Built(nodes, roots) && x in nodes
    ensures forall k: nat :: NestedAt(nodes, roots, x, k) <==> TopAt(nodes, x, k)
  {
    BuiltIsLinked(nodes, roots);
    forall k: nat ensures NestedAt(nodes, roots, x, k) <==> TopAt(nodes, x, k) {
      if NestedAt(nodes, roots, x, k) {
        NestedReachesTop(nodes, roots, x, k);
      } else if TopAt(nodes, x, k) {
        TopIsNested(nodes, roots, x, k);
      }
    }
  }

  /** ... and each of them at one level only. */
  lemma LevelIsUnique(nodes: seq<TreeNode>, roots: seq<TreeNode>, x: TreeNode)
    requires Keyed(nodes) && Built(nodes, roots) && x in nodes
    ensures forall k: nat, l: nat | NestedAt(nodes, roots, x, k) && NestedAt(nodes, roots, x, l) :: k == l
  {
    BuiltIsLinked(nodes, roots);
    forall k: nat, l: nat | NestedAt(nodes, roots, x, k) && NestedAt(nodes, roots, x, l) ensures k == l {
      NestedReachesTop(nodes, roots, x, k);
      NestedReachesTop(nodes, roots, x, l);
      TopIsUnique(nodes, x, k, l);
    }
  }

  // --------------------------------------------------------- over a real space

  /** What treeSQL reads: the live rows of a space except its home page. */
  predicate InTree(kb: State, s: int, a: int)
    requires s in kb.spaces
  {
    Live(kb.articles, a) && kb.articles[a].space == s && a != kb.spaces[s].home
  }

  ghost predicate ReadsTree(nodes: seq<TreeNode>, kb: State, s: int)
    requires s in kb.spaces
  {
    && Keyed(nodes)
    && (forall n | n in nodes :: InTree(kb, s, n.id)
                                 && n.parentId == kb.articles[n.id].parent && n.depth == kb.articles[n.id].depth)
    && (forall a {:trigger InTree(kb, s, a)} | InTree(kb, s, a) :: exists n :: n in nodes && n.id == a)
  }

  lemma {:induction false} SpaceChain(nodes: seq<TreeNode>, kb: State, s: int, x: TreeNode) returns (k: nat)
    requires Inv(kb) && s in kb.spaces && ReadsTree(nodes, kb, s) && x in nodes
    ensures k + 1 == x.depth && TopAt(nodes, x, k)
    decreases x.depth
  {
    assert InTree(kb, s, x.id) && RowOk(kb.articles, x.id) && HomeOk(kb, s);
    k := x.depth - 1;
    if x.parentId != 0 {
      assert RowOk(kb.articles, x.parentId);
      assert InTree(kb, s, x.parentId);
      var y :| y in nodes && y.id == x.parentId;
      var above := SpaceChain(nodes, kb, s, y);
    }
  }

  /** Over the rows of a space the tree drops nothing, and the nesting level of
      every node is the depth its row stores. */
  lemma SpaceTreeIsWhole(nodes: seq<TreeNode>, roots: seq<TreeNode>, kb: State, s: int, x: TreeNode) returns (k: nat)
    requires Inv(kb) && s in kb.spaces && ReadsTree(nodes, kb, s) && Built(nodes, roots) && x in nodes
    ensures k + 1 == x.depth && NestedAt(nodes, roots, x, k)
  {
    k := SpaceChain(nodes, kb, s, x);
    BuiltIsLinked(nodes, roots);
    TopIsNested(nodes, roots, x, k);
  }
}
