/** The recursive queries of the article and space stores, evaluated the way the
    database does: a working table is joined with the children until it is empty. */
module ArticleQueries {
  import opened Wrappers
  import opened Forest
  import opened Kb

  /** A row of the subtree listing a move is checked against. */
  datatype SubtreeNode = SubtreeNode(id: int, depth: int)

  lemma {:induction false} ClosedHasSubtree(t: Table, r: int, s: set<int>, x: int, k: nat)
    requires LiveAt(t, r, x, k) && (Live(t, r) ==> r in s)
    requires forall c | c in t && t[c].live && t[c].parent in s :: c in s
    ensures x in s
    decreases k
  {
    if k > 0 {
      ClosedHasSubtree(t, r, s, t[x].parent, k - 1);
    }
  }

  /** subtree, with the level of each row. */
  method SubtreeQuery(t: Table, r: int) returns (levels: map<int, nat>)
    requires Wf(t)
    ensures levels.Keys == Subtree(t, r)
    ensures forall x | x in levels :: levels[x] == Level(t, r, x)
  {
    levels := map[];
    var work := set x | x in t && x == r && t[x].live;
    var level := 0;
    while work != {}
      invariant work <= t.Keys && levels.Keys <= t.Keys && work !! levels.Keys
      invariant forall x | x in work :: LiveAt(t, r, x, level)
      invariant forall x | x in levels :: LiveAt(t, r, x, levels[x]) && levels[x] < level
      invariant Live(t, r) ==> r in work || r in levels
      invariant forall c | c in t && t[c].live && t[c].parent in levels :: c in work || c in levels
      decreases t.Keys - levels.Keys
    {
      var next := set c | c in t && t[c].live && t[c].parent in work;
      forall c | c in next
        ensures LiveAt(t, r, c, level + 1) && c !in work && c !in levels
      {
        LiveStep(t, r, c, level + 1);
        if c in work { LiveStep(t, r, c, level); }
        if c in levels { LiveStep(t, r, c, levels[c]); }
      }
      levels := levels + map x | x in work :: level;
      work := next;
      level := level + 1;
    }
    forall x | x in Subtree(t, r)
      ensures x in levels
    {
      ClosedHasSubtree(t, r, levels.Keys, x, Level(t, r, x));
    }
    forall x | x in levels
      ensures x in Subtree(t, r) && levels[x] == Level(t, r, x)
    {
      LiveStep(t, r, x, levels[x]);
      LevelIsDepthDifference(t, r, x);
    }
  }

  lemma {:induction false} ClosedHasBuried(t: Table, r: int, s: set<int>, x: int, k: nat)
    requires BuriedAt(t, r, x, k)
    requires forall c | c in t && !t[c].live && t[c].parent in Subtree(t, r) :: c in s
    requires forall c | c in t && t[c].parent in s :: c in s
    ensures x in s
    decreases k
  {
    if k > 0 {
      ClosedHasBuried(t, r, s, t[x].parent, k - 1);
    }
  }

  /** buried, over the rows subtree found. */
  method BuriedQuery(t: Table, r: int, subtree: set<int>) returns (buried: set<int>)
    requires Wf(t) && subtree == Subtree(t, r)
    ensures buried == Buried(t, r)
  {
    buried := {};
    var work := set c | c in t && !t[c].live && t[c].parent in subtree;
    ghost var step: nat := 0;
    assert forall c | c in work :: BuriedAt(t, r, c, 0);
    while work != {}
      invariant work <= t.Keys && buried <= t.Keys && work !! buried
      invariant forall x | x in work :: BuriedAt(t, r, x, step)
      invariant forall x | x in buried :: x in Buried(t, r)
      invariant forall x | x in work + buried :: t[x].parent in subtree || t[x].parent in buried
      invariant forall c | c in t && !t[c].live && t[c].parent in subtree :: c in work || c in buried
      invariant forall c | c in t && t[c].parent in buried :: c in work || c in buried
      decreases t.Keys - buried
    {
      var next := set c | c in t && t[c].parent in work;
      forall c | c in next
        ensures BuriedAt(t, r, c, step + 1) && c !in work && c !in buried
      {
        BuriedStep(t, r, t[c].parent, step);
        if t[c].parent in subtree { LevelIsDepthDifference(t, r, t[c].parent); }
      }
      buried := buried + work;
      work := next;
      step := step + 1;
    }
    forall x | x in Buried(t, r)
      ensures x in buried
    {
      var k: nat :| BuriedAt(t, r, x, k);
      ClosedHasBuried(t, r, buried, x, k);
    }
    assert forall x | x in buried :: x in Buried(t, r);
  }

  lemma {:induction false} ClosedHasBranch(t: Table, r: int, s: set<int>, x: int, k: nat)
    requires AnyAt(t, r, x, k) && r in s
    requires forall c | c in t && t[c].parent in s :: c in s
    ensures x in s
    decreases k
  {
    if k > 0 {
      ClosedHasBranch(t, r, s, t[x].parent, k - 1);
    }
  }

  /** branch, the walk RescopeEmbeddings takes through live and deleted rows. */
  method BranchQuery(t: Table, r: int) returns (branch: set<int>)
    requires Wf(t) && r in t
    ensures branch == Branch(t, r)
  {
    branch := {};
    var work := {r};
    ghost var step: nat := 0;
    while work != {}
      invariant work <= t.Keys && branch <= t.Keys && work !! branch
      invariant forall x | x in work :: AnyAt(t, r, x, step)
      invariant forall x | x in branch :: x in Branch(t, r)
      invariant forall x | x in work + branch :: x == r || t[x].parent in branch
      invariant r in work || r in branch
      invariant forall c | c in t && t[c].parent in branch :: c in work || c in branch
      decreases t.Keys - branch
    {
      var next := set c | c in t && t[c].parent in work;
      forall c | c in next
        ensures AnyAt(t, r, c, step + 1) && c !in work && c !in branch
      {
        if c == r { NoCycle(t, r, step + 1); }
      }
      branch := branch + work;
      work := next;
      step := step + 1;
    }
    forall x | x in Branch(t, r)
      ensures x in branch
    {
      var k: nat :| AnyAt(t, r, x, k);
      ClosedHasBranch(t, r, branch, x, k);
    }
    assert forall x | x in branch :: x in Branch(t, r);
  }

  /** The nodes list every row of the subtree of r with its depth. */
  ghost predicate Lists(nodes: seq<SubtreeNode>, t: Table, r: int) {
    && (forall i | 0 <= i < |nodes| ::
          nodes[i].id in Subtree(t, r) && nodes[i].id in t && nodes[i].depth == t[nodes[i].id].depth)
    && (forall x | x in Subtree(t, r) :: x in t && SubtreeNode(x, t[x].depth) in nodes)
  }

  /** subtreeSQL: the rows come in whatever order the database finds them. */
  method ListSubtree(t: Table, r: int) returns (nodes: seq<SubtreeNode>)
    requires Wf(t)
    ensures Lists(nodes, t, r)
  {
    var levels := SubtreeQuery(t, r);
    nodes := [];
    var left := levels.Keys;
    while left != {}
      invariant left <= levels.Keys
      invariant forall i | 0 <= i < |nodes| ::
        nodes[i].id in levels.Keys - left && nodes[i].depth == t[nodes[i].id].depth
      invariant forall x | x in levels.Keys - left :: SubtreeNode(x, t[x].depth) in nodes
      decreases left
    {
      var x :| x in left;
      nodes := nodes + [SubtreeNode(x, t[x].depth)];
      left := left - {x};
    }
  }

  lemma HeightIsUnique(t: Table, r: int, h1: int, h2: int)
    requires r in t && IsHeight(t, r, h1) && IsHeight(t, r, h2)
    ensures h1 == h2
  {
  }

  /** validateMoveTarget: one pass finds the cycle and the height, then the parent
      is read again under its lock. */
  method CheckMoveTarget(kb: State, domain: int, a: int, nodes: seq<SubtreeNode>, parent: int, target: int)
    returns (refusal: Option<Error>)
    requires a in kb.articles && Lists(nodes, kb.articles, a)
    ensures refusal == ValidateMoveTarget(kb, domain, a, parent, target)
  {
    var height := 0;
    for i := 0 to |nodes|
      invariant forall j | 0 <= j < i :: nodes[j].id != parent && nodes[j].depth - kb.articles[a].depth <= height
      invariant height >= 0
      invariant height == 0 || exists j :: 0 <= j < i && nodes[j].depth - kb.articles[a].depth == height
    {
      if nodes[i].id == parent {
        return Some(MoveCycle);
      }
      var d := nodes[i].depth - kb.articles[a].depth;
      if d > height {
        height := d;
      }
    }
    assert IsHeight(kb.articles, a, height);
    HeightIsUnique(kb.articles, a, height, Height(kb.articles, a));
    refusal := CheckDepth(kb, domain, parent, height);
    if refusal.None? && kb.articles[parent].space != target {
      refusal := Some(ParentMovedMeanwhile);
    }
  }

  // ------------------------------------------------- the check and the guard

  lemma {:induction false} HeightFrom(t: Table, r: int, top: nat) returns (height: int)
    requires Wf(t) && Live(t, r)
    requires forall x | x in Subtree(t, r) && x in t :: t[x].depth - t[r].depth <= top
    ensures IsHeight(t, r, height)
    decreases top
  {
    if top == 0 || exists x :: x in Subtree(t, r) && x in t && t[x].depth - t[r].depth == top {
      height := top;
    } else {
      height := HeightFrom(t, r, top - 1);
    }
  }

  /** Depth differences and walk levels agree on how far a subtree reaches. */
  lemma HeightFits(t: Table, r: int, base: int)
    requires Wf(t) && Live(t, r)
    ensures IsHeight(t, r, Height(t, r))
    ensures Fits(t, r, base) <==> base + Height(t, r) <= MAX_DEPTH
  {
    RootInSubtree(t, r);
    LevelIsDepthDifference(t, r, r);
    forall x | x in Subtree(t, r)
      ensures Level(t, r, x) == t[x].depth - t[r].depth <= 5
    {
      LevelIsDepthDifference(t, r, x);
      assert RowOk(t, x) && RowOk(t, r);
    }
    var height := HeightFrom(t, r, 5);
    HeightIsUnique(t, r, height, Height(t, r));
    if base + height <= MAX_DEPTH {
    } else if height == 0 {
      assert base + Level(t, r, r) > MAX_DEPTH;
    } else {
      var x :| x in Subtree(t, r) && x in t && t[x].depth - t[r].depth == height;
      assert base + Level(t, r, x) > MAX_DEPTH;
    }
  }

  /** The check that explains a refusal passes exactly when the guard of the
      statement would match: for an unchanged version and a live parent of the
      target space that is no home page. */
  lemma CheckMatchesGuard(kb: State, domain: int, a: int, parent: int, target: int)
    requires Wf(kb.articles) && Live(kb.articles, a)
    requires parent != 0 && Visible(kb, domain, parent) && !IsHome(kb, parent) && kb.articles[parent].space == target
    ensures ValidateMoveTarget(kb, domain, a, parent, target).None?
       <==> MoveGuard(kb.articles, a, parent, target, kb.articles[a].ver)
  {
    RootInSubtree(kb.articles, a);
    HeightFits(kb.articles, a, kb.articles[parent].depth + 1);
  }

  /** Hence a move whose checks ran in the state it writes is never refused without
      an explanation: the statement misses only for a changed version. */
  lemma MoveNeverRejectedBlindly(kb: State, domain: int, a: int, parent: int, space: int, mayCreate: bool,
      expectedVer: int)
    requires Wf(kb.articles)
    ensures MoveArticle(kb, domain, a, parent, space, mayCreate, expectedVer) != Refused(MoveRejected)
  {
    if Visible(kb, domain, a) {
      var (target, refusal) := MoveTarget(kb, domain, a, parent, space);
      if parent == 0 {
        TopAlwaysFits(kb.articles, a);
      } else if Visible(kb, domain, parent) && !IsHome(kb, parent) && kb.articles[parent].space == target {
        CheckMatchesGuard(kb, domain, a, parent, target);
      }
    }
  }
}
