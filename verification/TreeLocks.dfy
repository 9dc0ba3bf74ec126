/** Moves and deletes as their separate statements: each reads where the article
    is, takes the tree locks of the spaces involved, reads again and writes. The
    write itself comes in two steps: it walks the rows as they are when it starts,
    and changes the rows as they are when it ends. Any number of moves and deletes
    interleave, with inserts and other writes in between. */
module TreeLocks {
  import opened Forest

  /** Where a transaction stands. `wanted` lists the locks still to take. */
  datatype Txn =
    | Finished
    | MoveStart(a: int, parent: int, space: int, ver: int)
    | MoveLocated(a: int, parent: int, space: int, ver: int, from: int)
    | MoveLocking(a: int, parent: int, ver: int, from: int, to: int, wanted: seq<int>)
    | MoveLocked(a: int, parent: int, ver: int, from: int, to: int)
    | MoveChecked(a: int, parent: int, ver: int, from: int, to: int)
    | MoveListed(a: int, parent: int, ver: int, from: int, to: int, seen: Table)
    | MoveValidated(a: int, parent: int, ver: int, from: int, to: int)
    | MoveWalked(a: int, parent: int, ver: int, from: int, to: int, seen: Table)
    | DeleteStart(a: int, ver: int)
    | DeleteLocking(a: int, ver: int, from: int)
    | DeleteLocked(a: int, ver: int, from: int)
    | DeleteChecked(a: int, ver: int, from: int)
    | DeleteWalked(a: int, ver: int, from: int, seen: Table)

  /** The lock on a space row names the transaction that holds it. */
  datatype State = State(rows: Table, locks: map<int, int>, txns: map<int, Txn>, nextArticle: int)

  datatype Action =
    | Begin(txn: int, first: Txn)
    | Advance(txn: int)
    | Abort(txn: int)
    | Insert(parent: int, space: int, content: Content)
    | Rewrite(article: int, content: Content)
    | Purge(space: int)

  /** lockSpaceTrees: sorted, without repetition. */
  function LockOrder(x: int, y: int): (ids: seq<int>)
    ensures forall i :: i in ids <==> i == x || i == y
    ensures forall i, j | 0 <= i < j < |ids| :: ids[i] < ids[j]
  {
    if x == y then [x] else if x < y then [x, y] else [y, x]
  }

  function Finish(s: State, t: int): State {
    s.(locks := map x | x in s.locks && s.locks[x] != t :: s.locks[x], txns := s.txns[t := Finished])
  }

  /** The lock the next statement waits for, if it takes one. */
  function Wants(txn: Txn): seq<int> {
    match txn
    case MoveLocking(_, _, _, _, _, wanted) => wanted
    case DeleteLocking(_, _, from) => [from]
    case _ => []
  }

  predicate Ready(s: State, t: int)
    requires t in s.txns
  {
    s.txns[t] != Finished && (Wants(s.txns[t]) != [] ==> Wants(s.txns[t])[0] !in s.locks)
  }

  /** The row is in a branch whose write has walked it and has not changed it yet. */
  ghost predicate InFlight(s: State, row: int) {
    exists t :: t in s.txns && (s.txns[t].MoveWalked? || s.txns[t].DeleteWalked?) && row in Branch(s.rows, s.txns[t].a)
  }

  /** An insert that would fall between the two steps of a write into the branch of it
      comes before or after them. */
  ghost predicate Enabled(s: State, action: Action) {
    match action
    case Begin(t, first) => t !in s.txns && (first.MoveStart? || first.DeleteStart?)
    case Advance(t) => t in s.txns && Ready(s, t)
    case Abort(t) => t in s.txns
    case Insert(parent, space, _) => InsertGuard(s.rows, parent, space) && !InFlight(s, parent)
    case Rewrite(a, _) => Live(s.rows, a)
    case Purge(space) => space !in s.locks
  }

  /** The update of a move after the walks, guard and depths of the rows it saw. */
  ghost function MovedAs(t: Table, seen: Table, r: int, parent: int, space: int): Table
    requires parent == 0 || parent in seen
  {
    map x | x in t ::
      if x == r then t[x].(parent := parent, depth := BaseDepth(seen, parent), space := space, ver := t[x].ver + 1)
      else if x in Subtree(seen, r) then t[x].(depth := BaseDepth(seen, parent) + Level(seen, r, x), space := space)
      else if x in Buried(seen, r) then t[x].(space := space)
      else t[x]
  }

  /** The update of a delete after the walk of the rows it saw. */
  ghost function DeletedAs(t: Table, seen: Table, r: int): Table {
    map x | x in t ::
      if x in Subtree(seen, r) then t[x].(live := false, content := t[x].content.(state := Inactive)) else t[x]
  }

  /** article.go, Move: one statement of the transaction. */
  ghost function StepMove(s: State, t: int): State
    requires t in s.txns && Ready(s, t)
  {
    match s.txns[t]
    case MoveStart(a, parent, space, ver) =>
      if !Live(s.rows, a) then Finish(s, t)
      else s.(txns := s.txns[t := MoveLocated(a, parent, space, ver, s.rows[a].space)])
    case MoveLocated(a, parent, space, ver, from) =>
      if parent != 0 && (!Live(s.rows, parent) || (space != 0 && space != s.rows[parent].space)) then Finish(s, t)
      else
        var to := if parent != 0 then s.rows[parent].space else if space != 0 then space else from;
        s.(txns := s.txns[t := MoveLocking(a, parent, ver, from, to, LockOrder(from, to))])
    case MoveLocking(a, parent, ver, from, to, wanted) =>
      if wanted == [] then s.(txns := s.txns[t := MoveLocked(a, parent, ver, from, to)])
      else s.(locks := s.locks[wanted[0] := t], txns := s.txns[t := MoveLocking(a, parent, ver, from, to, wanted[1..])])
    case MoveLocked(a, parent, ver, from, to) =>
      if !Live(s.rows, a) || s.rows[a].space != from then Finish(s, t)
      else s.(txns := s.txns[t := MoveChecked(a, parent, ver, from, to)])
    case MoveChecked(a, parent, ver, from, to) =>
      s.(txns := s.txns[t := MoveListed(a, parent, ver, from, to, s.rows)])
    case MoveListed(a, parent, ver, from, to, seen) =>
      if parent != 0 && (parent in Subtree(seen, a) || !Live(s.rows, parent) || s.rows[parent].space != to
                         || !Fits(seen, a, s.rows[parent].depth + 1)) then Finish(s, t)
      else s.(txns := s.txns[t := MoveValidated(a, parent, ver, from, to)])
    case MoveValidated(a, parent, ver, from, to) =>
      if !MoveGuard(s.rows, a, parent, to, ver) then Finish(s, t)
      else s.(txns := s.txns[t := MoveWalked(a, parent, ver, from, to, s.rows)])
    case MoveWalked(a, parent, ver, from, to, seen) =>
      if !Live(s.rows, a) || s.rows[a].ver != ver || (parent != 0 && parent !in seen) then Finish(s, t)
      else Finish(s.(rows := MovedAs(s.rows, seen, a, parent, to)), t)
    case _ => s
  }

  /** article.go, Delete. */
  ghost function StepDelete(s: State, t: int): State
    requires t in s.txns && Ready(s, t)
  {
    match s.txns[t]
    case DeleteStart(a, ver) =>
      if !Live(s.rows, a) then Finish(s, t) else s.(txns := s.txns[t := DeleteLocking(a, ver, s.rows[a].space)])
    case DeleteLocking(a, ver, from) => s.(locks := s.locks[from := t], txns := s.txns[t := DeleteLocked(a, ver, from)])
    case DeleteLocked(a, ver, from) =>
      if !Live(s.rows, a) || s.rows[a].space != from then Finish(s, t)
      else s.(txns := s.txns[t := DeleteChecked(a, ver, from)])
    case DeleteChecked(a, ver, from) =>
      if !Live(s.rows, a) || s.rows[a].ver != ver then Finish(s, t)
      else s.(txns := s.txns[t := DeleteWalked(a, ver, from, s.rows)])
    case DeleteWalked(a, ver, from, seen) =>
      if !Live(s.rows, a) || s.rows[a].ver != ver then Finish(s, t)
      else Finish(s.(rows := DeletedAs(s.rows, seen, a)), t)
    case _ => s
  }

  predicate IsDelete(txn: Txn) {
    txn.DeleteStart? || txn.DeleteLocking? || txn.DeleteLocked? || txn.DeleteChecked? || txn.DeleteWalked?
  }

  ghost function Next(s: State, action: Action): State
    requires Enabled(s, action)
  {
    match action
    case Begin(t, first) => s.(txns := s.txns[t := first])
    case Advance(t) => if IsDelete(s.txns[t]) then StepDelete(s, t) else StepMove(s, t)
    case Abort(t) => Finish(s, t)
    case Insert(parent, space, content) =>
      s.(rows := Inserted(s.rows, s.nextArticle, parent, space, content), nextArticle := s.nextArticle + 1)
    case Rewrite(a, content) => s.(rows := s.rows[a := s.rows[a].(ver := s.rows[a].ver + 1, content := content)])
    case Purge(space) => s.(rows := map x | x in s.rows && s.rows[x].space != space :: s.rows[x])
  }

  const START := State(map[], map[], map[], 1)

  ghost function Run(s: State, actions: seq<Action>): State
    decreases |actions|
  {
    if actions == [] then s
    else Run(if Enabled(s, actions[0]) then Next(s, actions[0]) else s, actions[1..])
  }

  // ---------------------------------------------------------------- invariant

  predicate Holds(s: State, t: int, space: int) {
    space in s.locks && s.locks[space] == t
  }

  predicate SamePlace(x: Article, y: Article) {
    x.parent == y.parent && x.depth == y.depth && x.space == y.space && x.live == y.live
  }

  /** The branch of r is as it was seen. */
  ghost predicate Sees(seen: Table, t: Table, r: int) {
    && Wf(seen) && Live(seen, r) && Live(t, r) && Branch(seen, r) == Branch(t, r)
    && forall x | x in Branch(t, r) :: SamePlace(seen[x], t[x])
  }

  /** What a transaction knows, by the locks it holds, is still so. */
  ghost predicate TxnOk(s: State, t: int)
    requires t in s.txns
  {
    match s.txns[t]
    case MoveLocking(a, parent, ver, from, to, wanted) =>
      && (forall i, j | 0 <= i < j < |wanted| :: wanted[i] < wanted[j])
      && (from in wanted || Holds(s, t, from)) && (to in wanted || Holds(s, t, to))
      && (forall x, y | Holds(s, t, x) && y in wanted :: x < y) && parent < s.nextArticle
    case MoveLocked(a, parent, ver, from, to) => Holds(s, t, from) && Holds(s, t, to) && parent < s.nextArticle
    case MoveChecked(a, parent, ver, from, to) =>
      && Holds(s, t, from) && Holds(s, t, to) && Live(s.rows, a) && s.rows[a].space == from
      && parent < s.nextArticle
    case MoveListed(a, parent, ver, from, to, seen) =>
      && Holds(s, t, from) && Holds(s, t, to) && Live(s.rows, a) && s.rows[a].space == from
      && parent < s.nextArticle
      && (parent in s.rows && s.rows[parent].space == to && parent !in Subtree(seen, a) ==>
          parent !in Subtree(s.rows, a))
    case MoveValidated(a, parent, ver, from, to) =>
      && Holds(s, t, from) && Holds(s, t, to) && Live(s.rows, a) && s.rows[a].space == from
      && (parent != 0 ==> Live(s.rows, parent) && s.rows[parent].space == to && parent !in Subtree(s.rows, a))
    case MoveWalked(a, parent, ver, from, to, seen) =>
      && Holds(s, t, from) && Holds(s, t, to) && Sees(seen, s.rows, a) && s.rows[a].space == from
      && (parent != 0 ==>
            && Live(s.rows, parent) && s.rows[parent].space == to && parent !in Subtree(s.rows, a)
            && parent in seen && seen[parent].depth == s.rows[parent].depth)
      && Fits(seen, a, BaseDepth(seen, parent))
    case DeleteWalked(a, _, from, seen) => Holds(s, t, from) && Sees(seen, s.rows, a) && s.rows[a].space == from
    case DeleteLocked(_, _, from) => Holds(s, t, from)
    case DeleteChecked(a, _, from) => Holds(s, t, from) && Live(s.rows, a) && s.rows[a].space == from
    case _ => forall x :: !Holds(s, t, x)
  }

  ghost predicate Inv(s: State) {
    && Wf(s.rows) && s.nextArticle > 0 && (forall x | x in s.rows :: x < s.nextArticle)
    && (forall x | x in s.locks :: s.locks[x] in s.txns && s.txns[s.locks[x]] != Finished)
    && (forall t | t in s.txns :: TxnOk(s, t))
  }

  // --------------------------------------------- spaces nobody else touches

  /** The rows of a space are where they were; at most fresh rows joined them. */
  predicate KeepsSpace(t: Table, t': Table, space: int) {
    && (forall x | x in t && t[x].space == space :: x in t' && SamePlace(t[x], t'[x]))
    && (forall x | x in t' && x in t && t'[x].space == space :: SamePlace(t[x], t'[x]))
  }

  lemma {:induction false} ChainStays(t: Table, t': Table, space: int, r: int, x: int, k: nat)
    requires Wf(t) && Wf(t') && KeepsSpace(t, t', space)
    requires LiveAt(t', r, x, k) && x in t && t[x].space == space
    ensures LiveAt(t, r, x, k)
    decreases k
  {
    if k > 0 {
      assert RowOk(t, x) && RowOk(t', x);
      ChainStays(t, t', space, r, t'[x].parent, k - 1);
    }
  }

  lemma NotBelowStays(t: Table, t': Table, r: int, x: int)
    requires Wf(t) && Wf(t') && x in t && KeepsSpace(t, t', t[x].space) && x !in Subtree(t, r)
    ensures x !in Subtree(t', r)
  {
    if x in Subtree(t', r) {
      ChainStays(t, t', t[x].space, r, x, Level(t', r, x));
    }
  }

  lemma MoveKeepsOtherSpaces(t: Table, r: int, parent: int, to: int, space: int)
    requires Wf(t) && Live(t, r) && (parent != 0 ==> parent in t) && space != t[r].space && space != to
    ensures KeepsSpace(t, Moved(t, r, parent, to), space)
  {
    WalksCoverBranch(t, r);
    RootInSubtree(t, r);
  }

  lemma DeleteKeepsOtherSpaces(t: Table, r: int, space: int)
    requires Wf(t) && Live(t, r) && space != t[r].space
    ensures KeepsSpace(t, Deleted(t, r), space)
  {
    WalksCoverBranch(t, r);
  }

  /** Nobody joined the branch of r. */
  ghost predicate NoneJoined(t: Table, t': Table, r: int) {
    forall x | x in t' && x !in t :: t'[x].parent !in Branch(t, r)
  }

  lemma ChildKeepsPlace(t: Table, t': Table, r: int, x: int)
    requires Wf(t) && Wf(t') && Live(t, r) && KeepsSpace(t, t', t[r].space) && NoneJoined(t, t', r)
    requires x in t' && t'[x].parent in Branch(t, r)
    ensures x in t && SamePlace(t[x], t'[x])
  {
    WalksCoverBranch(t, r);
    assert RowOk(t', x) && RowOk(t, t'[x].parent);
  }

  lemma {:induction false} BranchStaysAt(t: Table, t': Table, r: int, x: int, k: nat)
    requires Wf(t) && Wf(t') && Live(t, r) && KeepsSpace(t, t', t[r].space) && NoneJoined(t, t', r)
    ensures AnyAt(t, r, x, k) <==> AnyAt(t', r, x, k)
    decreases k
  {
    WalksCoverBranch(t, r);
    RootInSubtree(t, r);
    if AnyAt(t, r, x, k) {
      assert x in Branch(t, r);
      if k > 0 { BranchStaysAt(t, t', r, t[x].parent, k - 1); }
    } else if k > 0 && x in t' {
      BranchStaysAt(t, t', r, t'[x].parent, k - 1);
      if t'[x].parent in Branch(t, r) { ChildKeepsPlace(t, t', r, x); }
    }
  }

  lemma BranchStays(t: Table, t': Table, r: int)
    requires Wf(t) && Wf(t') && Live(t, r) && KeepsSpace(t, t', t[r].space) && NoneJoined(t, t', r)
    ensures Branch(t', r) == Branch(t, r) && forall x | x in Branch(t, r) :: SamePlace(t[x], t'[x])
  {
    WalksCoverBranch(t, r);
    forall x ensures x in Branch(t, r) <==> x in Branch(t', r) {
      if x in Branch(t, r) {
        var k: nat :| AnyAt(t, r, x, k);
        BranchStaysAt(t, t', r, x, k);
      }
      if x in Branch(t', r) {
        var k: nat :| AnyAt(t', r, x, k);
        BranchStaysAt(t, t', r, x, k);
      }
    }
  }

  lemma SeesStays(seen: Table, t: Table, t': Table, r: int)
    requires Sees(seen, t, r) && Wf(t) && Wf(t') && KeepsSpace(t, t', t[r].space) && NoneJoined(t, t', r)
    ensures Sees(seen, t', r)
  {
    RootInSubtree(t, r);
    BranchStays(t, t', r);
  }

  /** The walks over the rows seen are those over the rows there are. */
  lemma SameWalks(seen: Table, t: Table, r: int)
    requires Sees(seen, t, r) && Wf(t)
    ensures Subtree(seen, r) == Subtree(t, r) && Buried(seen, r) == Buried(t, r)
    ensures forall x | x in Subtree(t, r) :: Level(seen, r, x) == Level(t, r, x)
  {
    WalksCoverBranch(seen, r);
    WalksCoverBranch(t, r);
    forall x | x in Branch(t, r) ensures x in Subtree(seen, r) <==> x in Subtree(t, r) {
      assert SamePlace(seen[x], t[x]);
    }
    RootInSubtree(t, r);
    forall x | x in Subtree(t, r) ensures Level(seen, r, x) == Level(t, r, x) {
      LevelIsDepthDifference(seen, r, x);
      LevelIsDepthDifference(t, r, x);
      assert SamePlace(seen[x], t[x]) && SamePlace(seen[r], t[r]);
    }
  }

  /** Another transaction keeps what it knows when its locks and the spaces under
      them stay as they are. */
  lemma TxnSurvives(s: State, s': State, u: int)
    requires Wf(s.rows) && Wf(s'.rows) && u in s.txns && TxnOk(s, u) && u in s'.txns && s'.txns[u] == s.txns[u]
    requires forall x :: Holds(s', u, x) <==> Holds(s, u, x)
    requires forall x | Holds(s, u, x) :: KeepsSpace(s.rows, s'.rows, x)
    requires s'.nextArticle >= s.nextArticle && forall x | x in s'.rows && x !in s.rows :: x >= s.nextArticle
    requires s.txns[u].MoveWalked? || s.txns[u].DeleteWalked? ==> NoneJoined(s.rows, s'.rows, s.txns[u].a)
    ensures TxnOk(s', u)
  {
    var txn := s.txns[u];
    match txn
    case MoveListed(a, parent, _, _, to, seen) =>
      if parent in s'.rows && s'.rows[parent].space == to && parent !in Subtree(seen, a) {
        NotBelowStays(s.rows, s'.rows, a, parent);
      }
    case MoveValidated(a, parent, _, _, _) =>
      if parent != 0 { NotBelowStays(s.rows, s'.rows, a, parent); }
    case MoveWalked(a, parent, _, _, _, seen) =>
      SeesStays(seen, s.rows, s'.rows, a);
      if parent != 0 { NotBelowStays(s.rows, s'.rows, a, parent); }
    case DeleteWalked(a, _, _, seen) => SeesStays(seen, s.rows, s'.rows, a);
    case _ =>
  }

  /** A write of t touches only the spaces t has locked. */
  lemma WriteKeepsInv(s: State, t: int, rows: Table)
    requires Inv(s) && t in s.txns && Wf(rows) && rows.Keys <= s.rows.Keys
    requires forall u, x | u != t && Holds(s, u, x) :: KeepsSpace(s.rows, rows, x)
    ensures Inv(Finish(s.(rows := rows), t))
  {
    var s' := Finish(s.(rows := rows), t);
    forall u | u in s'.txns ensures TxnOk(s', u) {
      if u != t { TxnSurvives(s, s', u); }
    }
  }

  lemma FinishKeepsInv(s: State, t: int)
    requires Inv(s) && t in s.txns
    ensures Inv(Finish(s, t))
  {
    WriteKeepsInv(s, t, s.rows);
    assert s.(rows := s.rows) == s;
  }

  /** A read, or a lock taken while free, changes nothing for the others. */
  lemma QuietKeepsInv(s: State, t: int, s': State)
    requires Inv(s) && t in s.txns && t in s'.txns && s' == s.(locks := s'.locks, txns := s.txns[t := s'.txns[t]])
    requires TxnOk(s', t) && s'.txns[t] != Finished
    requires forall u, x | u != t :: Holds(s', u, x) <==> Holds(s, u, x)
    ensures Inv(s')
  {
    forall u | u in s'.txns ensures TxnOk(s', u) {
      if u != t { TxnSurvives(s, s', u); }
    }
    forall x | x in s'.locks ensures s'.locks[x] in s'.txns && s'.txns[s'.locks[x]] != Finished {
      assert Holds(s', s'.locks[x], x);
    }
  }

  /** Taking the next lock in order, or none, keeps what the order says. */
  lemma LocksStayOrdered(s: State, t: int, s': State)
    requires t in s.txns && TxnOk(s, t)
    requires s'.locks == s.locks
        || (s.txns[t].MoveLocking? && s.txns[t].wanted != [] && s'.locks == s.locks[s.txns[t].wanted[0] := t])
    ensures s'.locks == s.locks ==> forall x :: Holds(s', t, x) <==> Holds(s, t, x)
    ensures s.txns[t].MoveLocking? && s.txns[t].wanted != [] && s'.locks == s.locks[s.txns[t].wanted[0] := t] ==>
      forall x, y | Holds(s', t, x) && y in s.txns[t].wanted[1..] :: x < y
  {
    forall x ensures s'.locks == s.locks ==> (Holds(s', t, x) <==> Holds(s, t, x)) {}
    if s.txns[t].MoveLocking? && s.txns[t].wanted != [] {
      var wanted := s.txns[t].wanted;
      forall x, y | Holds(s', t, x) && y in wanted[1..] && s'.locks == s.locks[wanted[0] := t] ensures x < y {
        var i :| 0 <= i < |wanted[1..]| && wanted[1..][i] == y;
        assert y == wanted[i + 1];
        if x != wanted[0] { assert Holds(s, t, x) && y in wanted; }
      }
    }
  }

  /** A read leaves its own transaction knowing what it has just read. */
  lemma ReadsKeepTxnOk(s: State, t: int)
    requires Inv(s) && t in s.txns && Ready(s, t) && !IsDelete(s.txns[t]) && !s.txns[t].MoveWalked?
    requires StepMove(s, t) != Finish(s, t)
    requires forall x :: s.txns[t].MoveLocking? || (Holds(StepMove(s, t), t, x) <==> Holds(s, t, x))
    requires var wanted := Wants(s.txns[t]);
             s.txns[t].MoveLocking? && wanted != [] ==>
               forall x, y | Holds(StepMove(s, t), t, x) && y in wanted[1..] :: x < y
    ensures TxnOk(StepMove(s, t), t)
  {
    assert TxnOk(s, t);
  }

  lemma MoveReadsKeepInv(s: State, t: int)
    requires Inv(s) && t in s.txns && Ready(s, t) && !IsDelete(s.txns[t]) && !s.txns[t].MoveWalked?
    ensures Inv(StepMove(s, t))
  {
    assert TxnOk(s, t);
    FinishKeepsInv(s, t);
    var s' := StepMove(s, t);
    if s' != Finish(s, t) {
      LocksStayOrdered(s, t, s');
      ReadsKeepTxnOk(s, t);
      QuietKeepsInv(s, t, s');
    }
  }

  /** After the walks a plan made on the rows seen is the plan for the rows there are. */
  lemma MovePlanHolds(s: State, t: int)
    requires Wf(s.rows) && t in s.txns && s.txns[t].MoveWalked? && TxnOk(s, t)
    ensures var txn := s.txns[t];
            && MovedAs(s.rows, txn.seen, txn.a, txn.parent, txn.to) == Moved(s.rows, txn.a, txn.parent, txn.to)
            && MoveGuard(s.rows, txn.a, txn.parent, txn.to, s.rows[txn.a].ver)
  {
    var txn := s.txns[t];
    SameWalks(txn.seen, s.rows, txn.a);
    RootInSubtree(s.rows, txn.a);
    assert BaseDepth(txn.seen, txn.parent) == BaseDepth(s.rows, txn.parent);
  }

  lemma MoveWriteKeepsInv(s: State, t: int)
    requires Inv(s) && t in s.txns && Ready(s, t) && s.txns[t].MoveWalked?
    ensures Inv(StepMove(s, t))
  {
    var txn := s.txns[t];
    assert TxnOk(s, t);
    FinishKeepsInv(s, t);
    MovePlanHolds(s, t);
    if s.rows[txn.a].ver == txn.ver {
      MoveKeepsForest(s.rows, txn.a, txn.parent, txn.to, txn.ver);
      forall u, x | u != t && Holds(s, u, x)
        ensures KeepsSpace(s.rows, Moved(s.rows, txn.a, txn.parent, txn.to), x)
      {
        MoveKeepsOtherSpaces(s.rows, txn.a, txn.parent, txn.to, x);
      }
      WriteKeepsInv(s, t, Moved(s.rows, txn.a, txn.parent, txn.to));
    }
  }

  lemma DeleteReadsKeepInv(s: State, t: int)
    requires Inv(s) && t in s.txns && Ready(s, t) && IsDelete(s.txns[t]) && !s.txns[t].DeleteWalked?
    ensures Inv(StepDelete(s, t))
  {
    assert TxnOk(s, t);
    FinishKeepsInv(s, t);
    var s' := StepDelete(s, t);
    if s' != Finish(s, t) {
      forall x ensures s'.locks == s.locks ==> (Holds(s', t, x) <==> Holds(s, t, x)) {}
      QuietKeepsInv(s, t, s');
    }
  }

  lemma DeleteWriteKeepsInv(s: State, t: int)
    requires Inv(s) && t in s.txns && Ready(s, t) && s.txns[t].DeleteWalked?
    ensures Inv(StepDelete(s, t))
  {
    var txn := s.txns[t];
    assert TxnOk(s, t);
    FinishKeepsInv(s, t);
    SameWalks(txn.seen, s.rows, txn.a);
    assert DeletedAs(s.rows, txn.seen, txn.a) == Deleted(s.rows, txn.a);
    if s.rows[txn.a].ver == txn.ver {
      DeleteKeepsForest(s.rows, txn.a);
      forall u, x | u != t && Holds(s, u, x) ensures KeepsSpace(s.rows, Deleted(s.rows, txn.a), x) {
        DeleteKeepsOtherSpaces(s.rows, txn.a, x);
      }
      WriteKeepsInv(s, t, Deleted(s.rows, txn.a));
    }
  }

  /** A write outside the protocol leaves every locked space in place. */
  lemma BystanderKeepsInv(s: State, s': State)
    requires Inv(s) && s'.locks == s.locks && s'.txns == s.txns && Wf(s'.rows) && s'.nextArticle >= s.nextArticle
    requires forall x | x in s'.rows :: x < s'.nextArticle && (x !in s.rows ==> x >= s.nextArticle)
    requires forall x | x in s.locks :: KeepsSpace(s.rows, s'.rows, x)
    requires forall x | x in s'.rows && x !in s.rows :: !InFlight(s, s'.rows[x].parent)
    ensures Inv(s')
  {
    forall u | u in s'.txns ensures TxnOk(s', u) {
      TxnSurvives(s, s', u);
    }
  }

  lemma PurgeKeepsForest(t: Table, space: int)
    requires Wf(t)
    ensures Wf(map x | x in t && t[x].space != space :: t[x])
  {
    var t' := map x | x in t && t[x].space != space :: t[x];
    forall x | x in t' ensures RowOk(t', x) {
      assert RowOk(t, x);
    }
    var rank: map<int, nat> :| Ranked(t, rank);
    assert Ranked(t', rank);
  }

  lemma RewriteKeepsForest(t: Table, a: int, content: Content)
    requires Wf(t) && a in t
    ensures Wf(t[a := t[a].(ver := t[a].ver + 1, content := content)])
  {
    var t' := t[a := t[a].(ver := t[a].ver + 1, content := content)];
    forall x | x in t' ensures RowOk(t', x) {
      assert RowOk(t, x);
    }
    var rank: map<int, nat> :| Ranked(t, rank);
    assert Ranked(t', rank);
  }

  lemma BeginKeepsInv(s: State, t: int, first: Txn)
    requires Inv(s) && Enabled(s, Begin(t, first))
    ensures Inv(s.(txns := s.txns[t := first]))
  {
    var s' := s.(txns := s.txns[t := first]);
    forall u | u in s'.txns ensures TxnOk(s', u) {
      if u != t { TxnSurvives(s, s', u); }
    }
  }

  lemma ActionKeepsInv(s: State, action: Action)
    requires Inv(s) && Enabled(s, action)
    ensures Inv(Next(s, action))
  {
    match action
    case Begin(t, first) => BeginKeepsInv(s, t, first);
    case Advance(t) =>
      if s.txns[t].DeleteWalked? { DeleteWriteKeepsInv(s, t); }
      else if IsDelete(s.txns[t]) { DeleteReadsKeepInv(s, t); }
      else if s.txns[t].MoveWalked? { MoveWriteKeepsInv(s, t); }
      else { MoveReadsKeepInv(s, t); }
    case Abort(t) => FinishKeepsInv(s, t);
    case Insert(parent, space, content) =>
      InsertKeepsForest(s.rows, s.nextArticle, parent, space, content);
      BystanderKeepsInv(s, Next(s, action));
    case Rewrite(a, content) =>
      RewriteKeepsForest(s.rows, a, content);
      BystanderKeepsInv(s, Next(s, action));
    case Purge(space) =>
      PurgeKeepsForest(s.rows, space);
      BystanderKeepsInv(s, Next(s, action));
  }

  lemma {:induction false} RunKeepsInv(s: State, actions: seq<Action>)
    requires Inv(s)
    ensures Inv(Run(s, actions))
    decreases |actions|
  {
    if actions != [] {
      if Enabled(s, actions[0]) {
        ActionKeepsInv(s, actions[0]);
        RunKeepsInv(Next(s, actions[0]), actions[1..]);
      } else {
        RunKeepsInv(s, actions[1..]);
      }
    }
  }

  lemma StartHasInv()
    ensures Inv(START)
  {
    assert Ranked(START.rows, map[]);
  }

  // -------------------------------------------------------------- main results

  /** No weave of moves, deletes, inserts, rewrites and purges breaks the forest, though
      each write walks the rows at one moment and changes them at another. */
  lemma NoWeaveBreaksForest(actions: seq<Action>)
    ensures Wf(Run(START, actions).rows)
  {
    StartHasInv();
    RunKeepsInv(START, actions);
  }

  predicate MovesNext(txn: Txn) {
    txn.MoveValidated? || txn.MoveWalked?
  }

  predicate DeletesNext(txn: Txn) {
    txn.DeleteChecked? || txn.DeleteWalked?
  }

  /** From its last check to its last write a move holds the tree lock of the space the
      article is really in and of the space the new parent is really in, a delete that
      of its article. */
  lemma WritesUnderLock(actions: seq<Action>, t: int)
    requires t in Run(START, actions).txns
    ensures var s := Run(START, actions); var txn := s.txns[t];
            && (MovesNext(txn) ==>
                  && Live(s.rows, txn.a) && Holds(s, t, s.rows[txn.a].space)
                  && (txn.parent != 0 ==> Live(s.rows, txn.parent) && Holds(s, t, s.rows[txn.parent].space)))
            && (DeletesNext(txn) ==> Live(s.rows, txn.a) && Holds(s, t, s.rows[txn.a].space))
  {
    StartHasInv();
    RunKeepsInv(START, actions);
    assert TxnOk(Run(START, actions), t);
  }

  /** The cycle check made before the write is still right when it starts: the guard
      of the statement can miss only for a changed version, or for a subtree that an
      insert has deepened meanwhile. */
  lemma CheckHoldsAtWrite(actions: seq<Action>, t: int)
    requires t in Run(START, actions).txns && Run(START, actions).txns[t].MoveValidated?
    ensures var s := Run(START, actions); var txn := s.txns[t];
            && Live(s.rows, txn.a) && (txn.parent != 0 ==> txn.parent in s.rows)
            && (MoveGuard(s.rows, txn.a, txn.parent, txn.to, txn.ver) <==>
                  s.rows[txn.a].ver == txn.ver && Fits(s.rows, txn.a, BaseDepth(s.rows, txn.parent)))
  {
    StartHasInv();
    RunKeepsInv(START, actions);
    var s := Run(START, actions);
    assert TxnOk(s, t);
    RootInSubtree(s.rows, s.txns[t].a);
  }

  /** What a write has walked is still so when it changes the rows: the change it makes
      is the change a walk at that moment would make, under a guard that still holds
      but for the version, which is read again. */
  lemma StaleWalkIsFresh(actions: seq<Action>, t: int)
    requires t in Run(START, actions).txns && Run(START, actions).txns[t].MoveWalked?
    ensures var s := Run(START, actions); var txn := s.txns[t];
            && txn.a in s.rows && (txn.parent != 0 ==> txn.parent in s.rows && txn.parent in txn.seen)
            && MovedAs(s.rows, txn.seen, txn.a, txn.parent, txn.to) == Moved(s.rows, txn.a, txn.parent, txn.to)
            && MoveGuard(s.rows, txn.a, txn.parent, txn.to, s.rows[txn.a].ver)
  {
    StartHasInv();
    RunKeepsInv(START, actions);
    MovePlanHolds(Run(START, actions), t);
  }

  // ------------------------------------- an insert between the steps of a write

  /** A live row under `under`, with the depth it had when it was inserted. */
  lemma LeafOk(t: Table, id: int, under: int, depth: int, space: int, content: Content)
    requires Wf(t) && id > 0 && id !in t && (under != 0 ==> under in t) && 1 <= depth <= MAX_DEPTH
    ensures Wf(t[id := Article(under, depth, space, 0, true, content)]) <==>
            depth == BaseDepth(t, under) && (under != 0 ==> t[under].live && t[under].space == space)
  {
    var t' := t[id := Article(under, depth, space, 0, true, content)];
    if depth == BaseDepth(t, under) && (under != 0 ==> t[under].live && t[under].space == space) {
      InsertKeepsForest(t, id, under, space, content);
      assert t' == Inserted(t, id, under, space, content);
    } else {
      assert t'[id].parent == under;
    }
  }

  lemma UnderInBranch(t: Table, r: int, under: int, space: int)
    requires Wf(t) && Live(t, r) && InsertGuard(t, under, space)
    ensures under in Branch(t, r) ==> under in Subtree(t, r) && space == t[r].space
    ensures under !in Branch(t, r) ==> under !in Subtree(t, r) && under !in Buried(t, r)
    ensures 1 <= BaseDepth(t, under) <= MAX_DEPTH
  {
    WalksCoverBranch(t, r);
    if under in Branch(t, r) { assert RowOk(t, under); }
    if under != 0 { assert RowOk(t, under); }
  }

  lemma UnderMoved(t: Table, r: int, parent: int, space: int, under: int, into: int)
    requires Wf(t) && Live(t, r) && (parent != 0 ==> parent in t) && InsertGuard(t, under, into)
    ensures var moved := Moved(t, r, parent, space);
            under != 0 ==>
              && moved[under].live && moved[under].space == (if under in Branch(t, r) then space else into)
              && moved[under].depth
                 == t[under].depth + if under in Branch(t, r) then BaseDepth(t, parent) - t[r].depth else 0
  {
    UnderInBranch(t, r, under, into);
    LevelIsZero(t, r);
    if under in Subtree(t, r) { LevelIsDepthDifference(t, r, under); }
  }

  lemma LevelIsZero(t: Table, r: int)
    requires Wf(t) && Live(t, r)
    ensures r in Subtree(t, r) && r in Branch(t, r) && Level(t, r, r) == 0
  {
    RootInSubtree(t, r);
    LevelIsDepthDifference(t, r, r);
  }

  lemma InsertThenMove(t: Table, r: int, parent: int, space: int, under: int, into: int, id: int, content: Content)
    requires Wf(t) && Live(t, r) && (parent != 0 ==> parent in t) && InsertGuard(t, under, into) && id !in t
    ensures MovedAs(Inserted(t, id, under, into, content), t, r, parent, space)
         == Moved(t, r, parent, space)[id := Article(under, BaseDepth(t, under), into, 0, true, content)]
  {
  }

  /** Why an insert may not fall between the walk and the change of a move: the row
      stays behind unless it is outside the branch, or the move leaves the branch in
      its space at its depth. */
  lemma StragglerBreaksForest(
      t: Table, r: int, parent: int, space: int, under: int, into: int, id: int, content: Content)
    requires Wf(t) && Live(t, r) && MoveGuard(t, r, parent, space, t[r].ver)
    requires InsertGuard(t, under, into) && id > 0 && id !in t
    ensures Wf(MovedAs(Inserted(t, id, under, into, content), t, r, parent, space)) <==>
            under !in Branch(t, r) || (space == t[r].space && BaseDepth(t, parent) == t[r].depth)
  {
    MoveKeepsForest(t, r, parent, space, t[r].ver);
    UnderInBranch(t, r, under, into);
    UnderMoved(t, r, parent, space, under, into);
    LeafOk(Moved(t, r, parent, space), id, under, BaseDepth(t, under), into, content);
    InsertThenMove(t, r, parent, space, under, into, id, content);
    NoRowIsZero(t);
  }

  lemma NoRowIsZero(t: Table)
    requires Wf(t)
    ensures 0 !in t
  {
    assert forall x | x in t :: RowOk(t, x) && x > 0;
  }

  /** Nor between those of a delete: a row that joins the branch stays live. */
  lemma StragglerOutlivesBranch(t: Table, r: int, under: int, into: int, id: int, content: Content)
    requires Wf(t) && Live(t, r) && InsertGuard(t, under, into) && id > 0 && id !in t
    ensures Wf(DeletedAs(Inserted(t, id, under, into, content), t, r)) <==> under !in Branch(t, r)
  {
    var deleted := Deleted(t, r);
    DeleteKeepsForest(t, r);
    UnderInBranch(t, r, under, into);
    LeafOk(deleted, id, under, BaseDepth(t, under), into, content);
    assert DeletedAs(Inserted(t, id, under, into, content), t, r)
        == deleted[id := Article(under, BaseDepth(t, under), into, 0, true, content)];
  }

  /** Moves about to write never share a space: within one space they run one at a time. */
  lemma MovesAreSerialized(actions: seq<Action>, t: int, u: int)
    requires t in Run(START, actions).txns && MovesNext(Run(START, actions).txns[t])
    requires u in Run(START, actions).txns && MovesNext(Run(START, actions).txns[u]) && t != u
    ensures var s := Run(START, actions);
            {s.txns[t].from, s.txns[t].to} !! {s.txns[u].from, s.txns[u].to}
  {
    StartHasInv();
    RunKeepsInv(START, actions);
    assert TxnOk(Run(START, actions), t) && TxnOk(Run(START, actions), u);
  }

  /** The transaction waits for a lock another one holds. */
  predicate WaitsFor(s: State, t: int, u: int) {
    t in s.txns && u in s.txns && Wants(s.txns[t]) != [] && Holds(s, u, Wants(s.txns[t])[0])
  }

  /** Along a wait the wanted space rises: the holder wants a later one or none. */
  lemma WaitsRise(s: State, t: int, u: int)
    requires Inv(s) && WaitsFor(s, t, u)
    ensures Wants(s.txns[u]) != [] ==> Wants(s.txns[t])[0] < Wants(s.txns[u])[0]
  {
    assert TxnOk(s, u) && Holds(s, u, Wants(s.txns[t])[0]);
    assert Wants(s.txns[u]) != [] ==> Wants(s.txns[u])[0] in Wants(s.txns[u]);
  }

  lemma {:induction false} WaitChainRises(s: State, chain: seq<int>)
    requires Inv(s) && |chain| >= 2
    requires forall i | 0 <= i < |chain| - 1 :: WaitsFor(s, chain[i], chain[i + 1])
    ensures chain[0] in s.txns && chain[|chain| - 1] in s.txns && Wants(s.txns[chain[0]]) != []
    ensures Wants(s.txns[chain[|chain| - 1]]) != [] ==>
            Wants(s.txns[chain[0]])[0] < Wants(s.txns[chain[|chain| - 1]])[0]
  {
    WaitsRise(s, chain[0], chain[1]);
    if |chain| > 2 {
      WaitChainRises(s, chain[1..]);
    }
  }

  /** The waits-for graph has no cycle. */
  lemma NoWaitCycle(actions: seq<Action>, chain: seq<int>)
    requires |chain| >= 2
    requires forall i | 0 <= i < |chain| - 1 :: WaitsFor(Run(START, actions), chain[i], chain[i + 1])
    ensures chain[0] != chain[|chain| - 1]
  {
    StartHasInv();
    RunKeepsInv(START, actions);
    WaitChainRises(Run(START, actions), chain);
  }

  /** Some transaction of a non-empty set wants the largest space of all they want. */
  lemma {:induction false} LargestWanter(s: State, waiting: set<int>) returns (t: int)
    requires waiting != {} && forall u | u in waiting :: u in s.txns && Wants(s.txns[u]) != []
    ensures t in waiting && forall u | u in waiting :: Wants(s.txns[u])[0] <= Wants(s.txns[t])[0]
    decreases waiting
  {
    assert (forall u :: u !in waiting) ==> waiting == {};
    t :| t in waiting;
    var rest := waiting - {t};
    if rest != {} {
      var top := LargestWanter(s, rest);
      if Wants(s.txns[t])[0] < Wants(s.txns[top])[0] { t := top; }
    }
  }

  /** As long as a transaction is unfinished, some unfinished one can go on. */
  lemma NeverStuck(actions: seq<Action>, t: int) returns (next: int)
    requires t in Run(START, actions).txns && Run(START, actions).txns[t] != Finished
    ensures next in Run(START, actions).txns && Ready(Run(START, actions), next)
  {
    StartHasInv();
    RunKeepsInv(START, actions);
    var s := Run(START, actions);
    next := t;
    if !Ready(s, t) {
      var waiting := set u | u in s.txns && s.txns[u] != Finished && Wants(s.txns[u]) != [];
      assert t in waiting;
      var top := LargestWanter(s, waiting);
      next := top;
      if !Ready(s, top) {
        next := s.locks[Wants(s.txns[top])[0]];
        WaitsRise(s, top, next);
      }
    }
  }

  /** How many statements a transaction has left at most. */
  function Left(txn: Txn): nat {
    match txn
    case Finished => 0
    case MoveStart(_, _, _, _) => 10
    case MoveLocated(_, _, _, _, _) => 9
    case MoveLocking(_, _, _, _, _, wanted) => 6 + |wanted|
    case MoveLocked(_, _, _, _, _) => 5
    case MoveChecked(_, _, _, _, _) => 4
    case MoveListed(_, _, _, _, _, _) => 3
    case MoveValidated(_, _, _, _, _) => 2
    case MoveWalked(_, _, _, _, _, _) => 1
    case DeleteStart(_, _) => 5
    case DeleteLocking(_, _, _) => 4
    case DeleteLocked(_, _, _) => 3
    case DeleteChecked(_, _, _) => 2
    case DeleteWalked(_, _, _, _) => 1
  }

  /** Every statement brings its transaction closer to its end and moves no other:
      with NeverStuck, all of them finish under every schedule that keeps advancing. */
  lemma AdvanceMakesProgress(s: State, t: int)
    requires t in s.txns && Ready(s, t)
    ensures var s' := Next(s, Advance(t));
            && s'.txns.Keys == s.txns.Keys && Left(s'.txns[t]) < Left(s.txns[t])
            && forall u | u in s.txns && u != t :: s'.txns[u] == s.txns[u]
  {
  }
}
