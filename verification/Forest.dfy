/** The rows of kb.article and the three statements that reshape the hierarchy:
    the insert, the subtree delete and the subtree move. Every set a recursive
    query computes is defined by the walk that produces it. */
module Forest {

  const MAX_DEPTH := 5

  datatype ArticleType = Page | Faq

  datatype ArticleState = Draft | Active | Inactive

  datatype IndexState = Pending | Indexing | Indexed | Failed

  /** The columns the hierarchy never looks at. */
  datatype Content = Content(typ: ArticleType, state: ArticleState, subject: string, index: IndexState)

  /** One row; parent 0 stands for NULL, a row that is not live is soft-deleted. */
  datatype Article = Article(parent: int, depth: int, space: int, ver: int, live: bool, content: Content)

  type Table = map<int, Article>

  predicate Live(t: Table, x: int) {
    x in t && t[x].live
  }

  // ---------------------------------------------------------------- walks

  /** The walk from r through live rows meets x after k steps down. */
  ghost predicate LiveAt(t: Table, r: int, x: int, k: nat)
    decreases k
  {
    Live(t, x) && if k == 0 then x == r else LiveAt(t, r, t[x].parent, k - 1)
  }

  /** The walk from r through any rows meets x after k steps down. */
  ghost predicate AnyAt(t: Table, r: int, x: int, k: nat)
    decreases k
  {
    x in t && if k == 0 then x == r else AnyAt(t, r, t[x].parent, k - 1)
  }

  /** The walk that starts at the deleted children of the live subtree of r and
      goes on through any rows meets x after k steps down. */
  ghost predicate BuriedAt(t: Table, r: int, x: int, k: nat)
    decreases k
  {
    x in t && if k == 0 then !t[x].live && t[x].parent in Subtree(t, r) else BuriedAt(t, r, t[x].parent, k - 1)
  }

  /** The rows of the query subtree. */
  ghost function Subtree(t: Table, r: int): set<int> {
    set x | x in t && exists k: nat :: LiveAt(t, r, x, k)
  }

  /** The rows of the query buried. */
  ghost function Buried(t: Table, r: int): set<int> {
    set x | x in t && exists k: nat :: BuriedAt(t, r, x, k)
  }

  /** Everything whose parent chain passes through r, r included. */
  ghost function Branch(t: Table, r: int): set<int> {
    set x | x in t && exists k: nat :: AnyAt(t, r, x, k)
  }

  /** The level of a row in the live walk. */
  ghost function Level(t: Table, r: int, x: int): nat
    requires x in Subtree(t, r)
  {
    var k: nat :| LiveAt(t, r, x, k);
    k
  }

  /** Placing r at depth base keeps every live row below it within the ceiling. */
  ghost predicate Fits(t: Table, r: int, base: int) {
    forall x | x in Subtree(t, r) :: base + Level(t, r, x) <= MAX_DEPTH
  }

  // ----------------------------------------------------------- statements

  /** What createRootArticleSQL and createChildArticleSQL insert. */
  function Inserted(t: Table, id: int, parent: int, space: int, content: Content): Table
    requires parent == 0 || parent in t
  {
    t[id := Article(parent, if parent == 0 then 1 else t[parent].depth + 1, space, 0, true, content)]
  }

  /** The guard of the insert: a live parent of the same space, and the depth
      constraint of the table. */
  predicate InsertGuard(t: Table, parent: int, space: int) {
    parent != 0 ==> Live(t, parent) && t[parent].space == space && t[parent].depth + 1 <= MAX_DEPTH
  }

  /** What deleteArticleCTEs leave behind. */
  ghost function Deleted(t: Table, r: int): Table {
    map x | x in t ::
      if x in Subtree(t, r) then t[x].(live := false, content := t[x].content.(state := Inactive)) else t[x]
  }

  /** The depth the root of a move takes. */
  function BaseDepth(t: Table, parent: int): int
    requires parent == 0 || parent in t
  {
    if parent == 0 then 1 else t[parent].depth + 1
  }

  /** What moveSubtreeCTEs leave behind. */
  ghost function Moved(t: Table, r: int, parent: int, space: int): Table
    requires parent == 0 || parent in t
  {
    map x | x in t ::
      if x == r then t[x].(parent := parent, depth := BaseDepth(t, parent), space := space, ver := t[x].ver + 1)
      else if x in Subtree(t, r) then t[x].(depth := BaseDepth(t, parent) + Level(t, r, x), space := space)
      else if x in Buried(t, r) then t[x].(space := space)
      else t[x]
  }

  /** The WHERE of moveUnderRoot and moveToTopRoot. */
  ghost predicate MoveGuard(t: Table, r: int, parent: int, space: int, expectedVer: int) {
    && Live(t, r) && t[r].ver == expectedVer
    && (parent != 0 ==>
          && Live(t, parent) && t[parent].space == space
          && parent != r && parent !in Subtree(t, r))
    && Fits(t, r, BaseDepth(t, parent))
  }

  // ------------------------------------------------------------ invariant

  /** Each row is ranked above its parent, so no parent chain returns to its start. */
  ghost predicate Ranked(t: Table, rank: map<int, nat>) {
    forall x | x in t ::
      x in rank && (t[x].parent in t ==> t[x].parent in rank && rank[t[x].parent] < rank[x])
  }

  ghost predicate Acyclic(t: Table) {
    exists rank: map<int, nat> :: Ranked(t, rank)
  }

  ghost predicate RowOk(t: Table, x: int)
    requires x in t
  {
    var a := t[x];
    && x > 0
    && (a.parent != 0 ==> a.parent in t && t[a.parent].space == a.space)
    && (a.live ==> 1 <= a.depth <= MAX_DEPTH)
    && (a.live && a.parent == 0 ==> a.depth == 1)
    && (a.live && a.parent != 0 ==> t[a.parent].live && a.depth == t[a.parent].depth + 1)
  }

  /** The bounded forest every run keeps. */
  ghost predicate Wf(t: Table) {
    (forall x | x in t :: RowOk(t, x)) && Acyclic(t)
  }

  // ------------------------------------------------- facts about the walks

  lemma {:induction false} LiveStep(t: Table, r: int, x: int, k: nat)
    requires LiveAt(t, r, x, k) && Wf(t)
    ensures Live(t, r) && x in Subtree(t, r)
    ensures t[x].depth == t[r].depth + k && t[x].space == t[r].space
    ensures AnyAt(t, r, x, k)
    ensures k > 0 ==> x != r && t[x].parent in Subtree(t, r)
    decreases k
  {
    if k > 0 {
      LiveStep(t, r, t[x].parent, k - 1);
    }
  }

  /** The level the walk gives a row is its distance in depth from the root. */
  lemma LevelIsDepthDifference(t: Table, r: int, x: int)
    requires Wf(t) && x in Subtree(t, r)
    ensures Live(t, x) && Live(t, r) && t[x].space == t[r].space
    ensures Level(t, r, x) == t[x].depth - t[r].depth
    ensures x == r <==> Level(t, r, x) == 0
    ensures x != r ==> t[x].parent in Subtree(t, r)
  {
    LiveStep(t, r, x, Level(t, r, x));
  }

  lemma RootInSubtree(t: Table, r: int)
    requires Live(t, r)
    ensures r in Subtree(t, r) && r in Branch(t, r)
  {
    assert LiveAt(t, r, r, 0) && AnyAt(t, r, r, 0);
  }

  lemma ChildInSubtree(t: Table, r: int, x: int)
    requires Live(t, x) && t[x].parent in Subtree(t, r)
    ensures x in Subtree(t, r)
  {
    var k: nat :| LiveAt(t, r, t[x].parent, k);
    assert LiveAt(t, r, x, k + 1);
  }

  lemma ChildInBranch(t: Table, r: int, x: int)
    requires x in t && t[x].parent in Branch(t, r)
    ensures x in Branch(t, r)
  {
    var k: nat :| AnyAt(t, r, t[x].parent, k);
    assert AnyAt(t, r, x, k + 1);
  }

  lemma ParentInBranch(t: Table, r: int, x: int)
    requires x in Branch(t, r) && x != r
    ensures t[x].parent in Branch(t, r)
  {
    var k: nat :| AnyAt(t, r, x, k);
    assert AnyAt(t, r, t[x].parent, k - 1);
  }

  lemma {:induction false} BuriedStep(t: Table, r: int, x: int, k: nat)
    requires BuriedAt(t, r, x, k) && Wf(t)
    ensures !t[x].live && x in Branch(t, r) && r in t && t[x].space == t[r].space
    decreases k
  {
    if k == 0 {
      LevelIsDepthDifference(t, r, t[x].parent);
      LiveStep(t, r, t[x].parent, Level(t, r, t[x].parent));
      assert t[x].parent in Branch(t, r);
    } else {
      BuriedStep(t, r, t[x].parent, k - 1);
    }
    ChildInBranch(t, r, x);
  }

  lemma {:induction false} BranchStep(t: Table, r: int, x: int, k: nat)
    requires AnyAt(t, r, x, k) && Wf(t) && Live(t, r)
    ensures x in Subtree(t, r) || x in Buried(t, r)
    decreases k
  {
    if k == 0 {
      RootInSubtree(t, r);
    } else {
      BranchStep(t, r, t[x].parent, k - 1);
      if t[x].parent in Subtree(t, r) {
        if t[x].live {
          ChildInSubtree(t, r, x);
        } else {
          assert BuriedAt(t, r, x, 0);
        }
      } else {
        var j: nat :| BuriedAt(t, r, t[x].parent, j);
        assert BuriedAt(t, r, x, j + 1);
      }
    }
  }

  /** The two walks of a move together find every descendant, live or deleted,
      exactly once: nothing below the root is left in the space it leaves. */
  lemma WalksCoverBranch(t: Table, r: int)
    requires Wf(t) && Live(t, r)
    ensures Subtree(t, r) + Buried(t, r) == Branch(t, r)
    ensures Subtree(t, r) !! Buried(t, r)
    ensures forall x | x in Subtree(t, r) :: t[x].live
    ensures forall x | x in Buried(t, r) :: !t[x].live
    ensures forall x | x in Branch(t, r) :: t[x].space == t[r].space
  {
    forall x | x in Subtree(t, r)
      ensures x in Branch(t, r) && t[x].live && t[x].space == t[r].space
    {
      LiveStep(t, r, x, Level(t, r, x));
    }
    forall x | x in Buried(t, r)
      ensures x in Branch(t, r) && !t[x].live && t[x].space == t[r].space
    {
      var k: nat :| BuriedAt(t, r, x, k);
      BuriedStep(t, r, x, k);
    }
    forall x | x in Branch(t, r)
      ensures x in Subtree(t, r) + Buried(t, r)
    {
      var k: nat :| AnyAt(t, r, x, k);
      BranchStep(t, r, x, k);
    }
  }

  // --------------------------------------------------------- preservation

  lemma InsertKeepsForest(t: Table, id: int, parent: int, space: int, content: Content)
    requires Wf(t) && id > 0 && id !in t && InsertGuard(t, parent, space)
    ensures Wf(Inserted(t, id, parent, space, content))
  {
    var t' := Inserted(t, id, parent, space, content);
    var rank: map<int, nat> :| Ranked(t, rank);
    forall x | x in t'
      ensures RowOk(t', x)
    {
      if x != id { assert RowOk(t, x); }
      if parent != 0 { assert RowOk(t, parent); }
    }
    var rank' := rank[id := if parent == 0 then 0 else rank[parent] + 1];
    forall x | x in t'
      ensures x in rank' && (t'[x].parent in t' ==> t'[x].parent in rank' && rank'[t'[x].parent] < rank'[x])
    {
      if x != id { assert RowOk(t, x); }
    }
    assert Ranked(t', rank');
  }

  lemma DeleteKeepsForest(t: Table, r: int)
    requires Wf(t)
    ensures Wf(Deleted(t, r))
  {
    var t' := Deleted(t, r);
    forall x | x in t'
      ensures RowOk(t', x)
    {
      assert RowOk(t, x);
      if Live(t, x) && t[x].parent in Subtree(t, r) {
        ChildInSubtree(t, r, x);
      }
    }
    var rank: map<int, nat> :| Ranked(t, rank);
    assert Ranked(t', rank);
  }

  /** A guarded move re-ranks the branch it carries above its new parent. */
  lemma MoveKeepsAcyclic(t: Table, r: int, parent: int, space: int)
    requires Wf(t) && Live(t, r) && (parent != 0 ==> Live(t, parent) && parent !in Subtree(t, r))
    ensures Acyclic(Moved(t, r, parent, space))
  {
    WalksCoverBranch(t, r);
    RootInSubtree(t, r);
    var t' := Moved(t, r, parent, space);
    var rank: map<int, nat> :| Ranked(t, rank);
    var lift := if parent == 0 then 0 else rank[parent] + 1;
    var rank' := map x | x in t :: if x in Branch(t, r) then rank[x] + lift else rank[x];
    forall x | x in t' && t'[x].parent in t'
      ensures rank'[t'[x].parent] < rank'[x]
    {
      assert RowOk(t, r);
      if x != r {
        if x in Branch(t, r) {
          ParentInBranch(t, r, x);
        } else if t[x].parent in Branch(t, r) {
          ChildInBranch(t, r, x);
        }
      }
    }
    assert Ranked(t', rank');
  }

  lemma MoveKeepsRow(t: Table, r: int, parent: int, space: int, expectedVer: int, x: int)
    requires Wf(t) && MoveGuard(t, r, parent, space, expectedVer) && x in t
    ensures RowOk(Moved(t, r, parent, space), x)
  {
    WalksCoverBranch(t, r);
    RootInSubtree(t, r);
    LevelIsDepthDifference(t, r, r);
    var t' := Moved(t, r, parent, space);
    var p := t[x].parent;
    assert RowOk(t, x) && RowOk(t, r);
    if parent != 0 { assert RowOk(t, parent); }
    if x in Subtree(t, r) {
      LevelIsDepthDifference(t, r, x);
      if x != r {
        LevelIsDepthDifference(t, r, p);
        assert t'[p].depth == BaseDepth(t, parent) + Level(t, r, p);
      }
    } else if x in Buried(t, r) {
      ParentInBranch(t, r, x);
    } else if p in Branch(t, r) {
      ChildInBranch(t, r, x);
    }
  }

  lemma MoveKeepsForest(t: Table, r: int, parent: int, space: int, expectedVer: int)
    requires Wf(t) && MoveGuard(t, r, parent, space, expectedVer)
    ensures Wf(Moved(t, r, parent, space))
  {
    forall x | x in t
      ensures RowOk(Moved(t, r, parent, space), x)
    {
      MoveKeepsRow(t, r, parent, space, expectedVer, x);
    }
    MoveKeepsAcyclic(t, r, parent, space);
  }

  // ----------------------------------------------------- what the forest is

  lemma {:induction false} ClimbRank(t: Table, rank: map<int, nat>, r: int, x: int, k: nat)
    requires Ranked(t, rank) && AnyAt(t, r, x, k)
    ensures r in t && rank[x] >= rank[r] + k
    decreases k
  {
    if k > 0 {
      ClimbRank(t, rank, r, t[x].parent, k - 1);
    }
  }

  /** No parent chain is cyclic, through live and deleted rows alike. */
  lemma NoCycle(t: Table, x: int, k: nat)
    requires Wf(t) && AnyAt(t, x, x, k)
    ensures k == 0
  {
    var rank: map<int, nat> :| Ranked(t, rank);
    ClimbRank(t, rank, x, x, k);
  }

  /** The top of the chain a row hangs from. */
  lemma {:induction false} ChainReachesTop(t: Table, x: int, rank: map<int, nat>) returns (r: int, k: nat)
    requires (forall y | y in t :: RowOk(t, y)) && Ranked(t, rank) && x in t
    ensures r in t && t[r].parent == 0 && AnyAt(t, r, x, k) && t[r].space == t[x].space
    decreases rank[x]
  {
    assert RowOk(t, x);
    if t[x].parent == 0 {
      r, k := x, 0;
    } else {
      var j: nat;
      r, j := ChainReachesTop(t, t[x].parent, rank);
      k := j + 1;
    }
  }

  /** Every row, deleted ones included, hangs from a top-level row of its own space. */
  lemma EveryRowHasTop(t: Table, x: int)
    requires Wf(t) && x in t
    ensures exists r, k: nat :: r in t && t[r].parent == 0 && t[r].space == t[x].space && AnyAt(t, r, x, k)
  {
    var rank: map<int, nat> :| Ranked(t, rank);
    var r, k := ChainReachesTop(t, x, rank);
  }

  /** Deleting the root of a branch leaves no live row in it, and touches nothing else. */
  lemma DeleteEmptiesBranch(t: Table, r: int, x: int)
    requires Wf(t) && Live(t, r) && x in t
    ensures x in Branch(t, r) ==> !Deleted(t, r)[x].live
    ensures x !in Branch(t, r) ==> Deleted(t, r)[x] == t[x]
  {
    WalksCoverBranch(t, r);
  }

  /** A move to the top level is never refused for its height. */
  lemma TopAlwaysFits(t: Table, r: int)
    requires Wf(t) && Live(t, r)
    ensures Fits(t, r, 1)
  {
    forall x | x in Subtree(t, r)
      ensures 1 + Level(t, r, x) <= MAX_DEPTH
    {
      LevelIsDepthDifference(t, r, x);
      assert RowOk(t, x) && RowOk(t, r);
    }
  }

  /** A move carries the whole branch and nothing else into the new space. */
  lemma MoveCarriesBranch(t: Table, r: int, parent: int, space: int, x: int)
    requires Wf(t) && Live(t, r) && (parent != 0 ==> parent in t) && x in t
    ensures x in Branch(t, r) ==> Moved(t, r, parent, space)[x].space == space
    ensures x !in Branch(t, r) ==> Moved(t, r, parent, space)[x] == t[x]
    ensures Moved(t, r, parent, space)[x].live == t[x].live && Moved(t, r, parent, space)[x].content == t[x].content
    ensures x != r ==> Moved(t, r, parent, space)[x].parent == t[x].parent
  {
    WalksCoverBranch(t, r);
    RootInSubtree(t, r);
  }
}
