/** What a move or delete that runs statement by statement writes in the end: what
    was asked for, with or without other transactions in between. */
module TreeLaws {
  import opened Forest
  import opened TreeLocks

  // ---------------------------------------------------- what a transaction was asked

  /** What each transaction of a run began with. */
  ghost function Asked(s: State, actions: seq<Action>, asked: map<int, Txn>): map<int, Txn>
    decreases |actions|
  {
    if actions == [] then asked
    else if !Enabled(s, actions[0]) then Asked(s, actions[1..], asked)
    else Asked(Next(s, actions[0]), actions[1..],
               if actions[0].Begin? then asked[actions[0].txn := actions[0].first] else asked)
  }

  /** The space asked for at the top level: the one named, else the one the article is in. */
  predicate TopSpace(first: Txn, from: int, to: int)
    requires first.MoveStart?
  {
    first.parent == 0 ==> to == if first.space != 0 then first.space else from
  }

  /** A transaction is about the article, the parent and the version it began with. */
  predicate Pursues(first: Txn, txn: Txn) {
    match txn
    case Finished => true
    case MoveStart(_, _, _, _) => txn == first
    case MoveLocated(a, parent, space, ver, from) => first == MoveStart(a, parent, space, ver)
    case MoveLocking(a, parent, ver, from, to, _) =>
      first.MoveStart? && first == MoveStart(a, parent, first.space, ver) && TopSpace(first, from, to)
    case MoveLocked(a, parent, ver, from, to) =>
      first.MoveStart? && first == MoveStart(a, parent, first.space, ver) && TopSpace(first, from, to)
    case MoveChecked(a, parent, ver, from, to) =>
      first.MoveStart? && first == MoveStart(a, parent, first.space, ver) && TopSpace(first, from, to)
    case MoveListed(a, parent, ver, from, to, _) =>
      first.MoveStart? && first == MoveStart(a, parent, first.space, ver) && TopSpace(first, from, to)
    case MoveValidated(a, parent, ver, from, to) =>
      first.MoveStart? && first == MoveStart(a, parent, first.space, ver) && TopSpace(first, from, to)
    case MoveWalked(a, parent, ver, from, to, _) =>
      first.MoveStart? && first == MoveStart(a, parent, first.space, ver) && TopSpace(first, from, to)
    case DeleteStart(_, _) => txn == first
    case DeleteLocking(a, ver, _) => first == DeleteStart(a, ver)
    case DeleteLocked(a, ver, _) => first == DeleteStart(a, ver)
    case DeleteChecked(a, ver, _) => first == DeleteStart(a, ver)
    case DeleteWalked(a, ver, _, _) => first == DeleteStart(a, ver)
  }

  ghost predicate AllPursue(s: State, asked: map<int, Txn>) {
    forall t | t in s.txns :: t in asked && Pursues(asked[t], s.txns[t])
  }

  lemma MoveStepPursues(s: State, t: int, first: Txn)
    requires t in s.txns && Ready(s, t) && !IsDelete(s.txns[t]) && Pursues(first, s.txns[t])
    ensures var s' := StepMove(s, t);
            && s'.txns.Keys == s.txns.Keys && Pursues(first, s'.txns[t])
            && forall u | u in s.txns && u != t :: s'.txns[u] == s.txns[u]
  {
  }

  lemma DeleteStepPursues(s: State, t: int, first: Txn)
    requires t in s.txns && Ready(s, t) && IsDelete(s.txns[t]) && Pursues(first, s.txns[t])
    ensures var s' := StepDelete(s, t);
            && s'.txns.Keys == s.txns.Keys && Pursues(first, s'.txns[t])
            && forall u | u in s.txns && u != t :: s'.txns[u] == s.txns[u]
  {
  }

  lemma StepPursues(s: State, action: Action, asked: map<int, Txn>)
    requires Enabled(s, action) && AllPursue(s, asked)
    ensures AllPursue(Next(s, action), if action.Begin? then asked[action.txn := action.first] else asked)
  {
    match action
    case Advance(t) =>
      if IsDelete(s.txns[t]) { DeleteStepPursues(s, t, asked[t]); } else { MoveStepPursues(s, t, asked[t]); }
    case _ =>
  }

  lemma {:induction false} RunPursues(s: State, actions: seq<Action>, asked: map<int, Txn>)
    requires AllPursue(s, asked)
    ensures AllPursue(Run(s, actions), Asked(s, actions, asked))
    decreases |actions|
  {
    if actions != [] {
      if Enabled(s, actions[0]) {
        StepPursues(s, actions[0], asked);
        RunPursues(Next(s, actions[0]), actions[1..],
            if actions[0].Begin? then asked[actions[0].txn := actions[0].first] else asked);
      } else {
        RunPursues(s, actions[1..], asked);
      }
    }
  }

  // ------------------------------------------------------ what a write does in a run

  /** In every run the write of a move carries the branch of the article asked for under
      the parent asked for, into the space of the parent, else the one named, else the
      one the article is in; unless the version asked for is gone, when nothing happens. */
  lemma MoveWritesWhatWasAsked(actions: seq<Action>, t: int)
    requires t in Run(START, actions).txns && Run(START, actions).txns[t].MoveWalked?
    ensures var s, asked := Run(START, actions), Asked(START, actions, map[]);
            && t in asked && asked[t].MoveStart? && Enabled(s, Advance(t))
            && (var MoveStart(a, parent, space, ver) := asked[t];
                && Live(s.rows, a) && (parent != 0 ==> Live(s.rows, parent))
                && (var to := if parent != 0 then s.rows[parent].space
                              else if space != 0 then space else s.rows[a].space;
                    Next(s, Advance(t)).rows == if s.rows[a].ver == ver then Moved(s.rows, a, parent, to) else s.rows))
  {
    StartHasInv();
    RunKeepsInv(START, actions);
    RunPursues(START, actions, map[]);
    var s := Run(START, actions);
    assert TxnOk(s, t);
    MovePlanHolds(s, t);
  }

  /** And the write of a delete ends the life of the live rows below the article asked for. */
  lemma DeleteWritesWhatWasAsked(actions: seq<Action>, t: int)
    requires t in Run(START, actions).txns && Run(START, actions).txns[t].DeleteWalked?
    ensures var s, asked := Run(START, actions), Asked(START, actions, map[]);
            && t in asked && asked[t].DeleteStart? && Enabled(s, Advance(t))
            && (var DeleteStart(a, ver) := asked[t];
                && Live(s.rows, a)
                && Next(s, Advance(t)).rows == if s.rows[a].ver == ver then Deleted(s.rows, a) else s.rows)
  {
    StartHasInv();
    RunKeepsInv(START, actions);
    RunPursues(START, actions, map[]);
    var s := Run(START, actions);
    assert TxnOk(s, t);
    SameWalks(s.txns[t].seen, s.rows, s.txns[t].a);
    assert DeletedAs(s.rows, s.txns[t].seen, s.txns[t].a) == Deleted(s.rows, s.txns[t].a);
  }

  // ---------------------------------------------- transactions by themselves

  /** The next k statements of a transaction, one after the other. */
  ghost function Steps(s: State, t: int, k: nat): State
    decreases k
  {
    if k == 0 then s else Steps(if Enabled(s, Advance(t)) then Next(s, Advance(t)) else s, t, k - 1)
  }

  lemma {:induction false} StepsAdd(s: State, t: int, j: nat, k: nat)
    ensures Steps(s, t, j + k) == Steps(Steps(s, t, j), t, k)
    decreases j
  {
    if j > 0 { StepsAdd(if Enabled(s, Advance(t)) then Next(s, Advance(t)) else s, t, j - 1, k); }
  }

  lemma {:induction false} FinishedStays(s: State, t: int, k: nat)
    requires t in s.txns && s.txns[t] == Finished
    ensures Steps(s, t, k) == s
  {
    if k > 0 { FinishedStays(s, t, k - 1); }
  }

  predicate OnlyLocker(s: State, t: int) {
    forall x | x in s.locks :: s.locks[x] == t
  }

  /** The transaction is over, holds nothing, and has left these rows. */
  predicate Over(s: State, t: int, rows: Table) {
    t in s.txns && s.txns[t] == Finished && s.locks == map[] && s.rows == rows
  }

  lemma FinishIsOver(s: State, t: int)
    requires OnlyLocker(s, t)
    ensures Over(Finish(s, t), t, s.rows)
  {
    assert forall x :: x !in Finish(s, t).locks.Keys;
    assert Finish(s, t).locks == map[];
  }

  /** The move can be made: the parent is outside the branch and no live row of it would
      pass the ceiling. */
  ghost predicate Reachable(t: Table, a: int, parent: int)
    requires a in t && (parent != 0 ==> parent in t)
  {
    && parent !in Branch(t, a)
    && forall x | x in Branch(t, a) && x in t && t[x].live ::
         (if parent == 0 then 1 else t[parent].depth + 1) + (t[x].depth - t[a].depth) <= 5
  }

  lemma ReachableFits(t: Table, a: int, parent: int)
    requires Wf(t) && Live(t, a) && (parent != 0 ==> Live(t, parent))
    ensures Reachable(t, a, parent) <==>
            (parent != 0 ==> parent !in Subtree(t, a)) && Fits(t, a, BaseDepth(t, parent))
  {
    WalksCoverBranch(t, a);
    NoRowIsZero(t);
    forall x | x in Subtree(t, a) ensures Level(t, a, x) == t[x].depth - t[a].depth {
      LevelIsDepthDifference(t, a, x);
    }
    if !Reachable(t, a, parent) && parent !in Branch(t, a) {
      var x :| x in Branch(t, a) && x in t && t[x].live && BaseDepth(t, parent) + (t[x].depth - t[a].depth) > 5;
      assert x in Subtree(t, a) && BaseDepth(t, parent) + Level(t, a, x) > MAX_DEPTH;
    }
  }

  /** From the locks to the write, with nobody in between. */
  lemma LockedMoveWrites(s: State, t: int)
    requires Wf(s.rows) && t in s.txns && s.txns[t].MoveLocked? && OnlyLocker(s, t)
    requires var txn := s.txns[t];
             && Live(s.rows, txn.a) && s.rows[txn.a].space == txn.from
             && (txn.parent != 0 ==> Live(s.rows, txn.parent) && s.rows[txn.parent].space == txn.to)
    ensures var txn := s.txns[t];
            Over(Steps(s, t, 5), t,
                 if Reachable(s.rows, txn.a, txn.parent) && s.rows[txn.a].ver == txn.ver then
                   Moved(s.rows, txn.a, txn.parent, txn.to)
                 else s.rows)
  {
    var MoveLocked(a, parent, ver, from, to) := s.txns[t];
    var s1 := s.(txns := s.txns[t := MoveChecked(a, parent, ver, from, to)]);
    var s2 := s.(txns := s.txns[t := MoveListed(a, parent, ver, from, to, s.rows)]);
    assert s1 == Next(s, Advance(t)) && s2 == Next(s1, Advance(t));
    StepsAdd(s, t, 2, 3);
    ReachableFits(s.rows, a, parent);
    ListedMoveWrites(s2, t);
  }

  lemma ListedMoveWrites(s: State, t: int)
    requires Wf(s.rows) && t in s.txns && s.txns[t].MoveListed? && OnlyLocker(s, t) && s.txns[t].seen == s.rows
    requires var txn := s.txns[t];
             Live(s.rows, txn.a) && (txn.parent != 0 ==> Live(s.rows, txn.parent) && s.rows[txn.parent].space == txn.to)
    ensures var txn := s.txns[t];
            Over(Steps(s, t, 3), t,
                 if Reachable(s.rows, txn.a, txn.parent) && s.rows[txn.a].ver == txn.ver then
                   Moved(s.rows, txn.a, txn.parent, txn.to)
                 else s.rows)
  {
    var MoveListed(a, parent, ver, from, to, _) := s.txns[t];
    ReachableFits(s.rows, a, parent);
    if parent == 0 { TopAlwaysFits(s.rows, a); }
    if parent != 0 && !Reachable(s.rows, a, parent) {
      FinishIsOver(s, t);
      FinishedStays(Finish(s, t), t, 2);
      assert Steps(s, t, 3) == Steps(Finish(s, t), t, 2);
    } else {
      var s1 := s.(txns := s.txns[t := MoveValidated(a, parent, ver, from, to)]);
      ValidatedMoveWrites(s1, t);
      assert Steps(s, t, 3) == Steps(s1, t, 2);
    }
  }

  lemma ValidatedMoveWrites(s: State, t: int)
    requires Wf(s.rows) && t in s.txns && s.txns[t].MoveValidated? && OnlyLocker(s, t)
    requires var txn := s.txns[t];
             && Live(s.rows, txn.a)
             && (txn.parent != 0 ==> Live(s.rows, txn.parent) && s.rows[txn.parent].space == txn.to)
             && Reachable(s.rows, txn.a, txn.parent)
    ensures var txn := s.txns[t];
            Over(Steps(s, t, 2), t,
                 if s.rows[txn.a].ver == txn.ver then Moved(s.rows, txn.a, txn.parent, txn.to) else s.rows)
  {
    var MoveValidated(a, parent, ver, from, to) := s.txns[t];
    ReachableFits(s.rows, a, parent);
    RootInSubtree(s.rows, a);
    if s.rows[a].ver != ver {
      FinishIsOver(s, t);
      FinishedStays(Finish(s, t), t, 1);
      assert Steps(s, t, 2) == Steps(Finish(s, t), t, 1);
    } else {
      var s1 := s.(txns := s.txns[t := MoveWalked(a, parent, ver, from, to, s.rows)]);
      WalkedMoveWrites(s1, t);
      assert Steps(s, t, 2) == Steps(s1, t, 1);
    }
  }

  lemma WalkedMoveWrites(s: State, t: int)
    requires t in s.txns && s.txns[t].MoveWalked? && OnlyLocker(s, t) && s.txns[t].seen == s.rows
    requires var txn := s.txns[t];
             Live(s.rows, txn.a) && s.rows[txn.a].ver == txn.ver && (txn.parent != 0 ==> txn.parent in s.rows)
    ensures var txn := s.txns[t]; Over(Steps(s, t, 1), t, Moved(s.rows, txn.a, txn.parent, txn.to))
  {
    var MoveWalked(a, parent, ver, from, to, _) := s.txns[t];
    assert MovedAs(s.rows, s.rows, a, parent, to) == Moved(s.rows, a, parent, to);
    var s1 := s.(rows := Moved(s.rows, a, parent, to));
    FinishIsOver(s1, t);
    assert Next(s, Advance(t)) == Finish(s1, t);
    assert Steps(s, t, 1) == Steps(Finish(s1, t), t, 0);
  }

  /** Taking the locks one after the other. */
  lemma LockingMoveLocks(s: State, t: int)
    requires t in s.txns && s.txns[t].MoveLocking? && OnlyLocker(s, t)
    requires forall i | 0 <= i < |s.txns[t].wanted| :: s.txns[t].wanted[i] !in s.locks
    requires forall i, j | 0 <= i < j < |s.txns[t].wanted| :: s.txns[t].wanted[i] != s.txns[t].wanted[j]
    ensures var txn := s.txns[t]; var s' := Steps(s, t, |txn.wanted| + 1);
            && s'.rows == s.rows && OnlyLocker(s', t) && t in s'.txns
            && s'.txns[t] == MoveLocked(txn.a, txn.parent, txn.ver, txn.from, txn.to)
    decreases |s.txns[t].wanted|
  {
    var wanted := s.txns[t].wanted;
    if wanted != [] {
      assert Wants(s.txns[t])[0] == wanted[0] && wanted[0] !in s.locks;
      assert forall i | 0 <= i < |wanted| - 1 :: wanted[1..][i] == wanted[i + 1];
      LockingMoveLocks(Next(s, Advance(t)), t);
    }
  }

  /** From the first lock to the write, with nobody in between. */
  lemma LockingMoveWrites(s: State, t: int)
    requires Wf(s.rows) && t in s.txns && s.txns[t].MoveLocking? && s.locks == map[]
    requires s.txns[t].wanted == LockOrder(s.txns[t].from, s.txns[t].to)
    requires var txn := s.txns[t];
             && Live(s.rows, txn.a) && s.rows[txn.a].space == txn.from
             && (txn.parent != 0 ==> Live(s.rows, txn.parent) && s.rows[txn.parent].space == txn.to)
    ensures var txn := s.txns[t];
            Over(Steps(s, t, 8), t,
                 if Reachable(s.rows, txn.a, txn.parent) && s.rows[txn.a].ver == txn.ver then
                   Moved(s.rows, txn.a, txn.parent, txn.to)
                 else s.rows)
  {
    var k := |s.txns[t].wanted| + 1;
    LockingMoveLocks(s, t);
    var s1 := Steps(s, t, k);
    LockedMoveWrites(s1, t);
    StepsAdd(s, t, k, 5);
    FinishedStays(Steps(s1, t, 5), t, 8 - k - 5);
    StepsAdd(s, t, k + 5, 8 - k - 5);
  }

  /** A move by itself ends after at most ten statements. It carries the branch to where it
      was asked, if and only if article and parent are live, the space is one the parent
      is in, the branch fits there, and the version is the one asked for. */
  lemma MoveRunsAlone(s: State, t: int, a: int, parent: int, space: int, ver: int)
    requires Wf(s.rows) && t in s.txns && s.txns[t] == MoveStart(a, parent, space, ver) && s.locks == map[]
    ensures Over(Steps(s, t, 10), t,
                 if Live(s.rows, a)
                    && (parent != 0 ==> Live(s.rows, parent) && (space == 0 || space == s.rows[parent].space))
                    && Reachable(s.rows, a, parent) && s.rows[a].ver == ver then
                   Moved(s.rows, a, parent, if parent != 0 then s.rows[parent].space
                                            else if space != 0 then space else s.rows[a].space)
                 else s.rows)
  {
    var s1 := Next(s, Advance(t));
    FinishIsOver(s, t);
    if s1.txns[t] == Finished {
      FinishedStays(s1, t, 9);
    } else {
      var s2 := Next(s1, Advance(t));
      FinishIsOver(s1, t);
      StepsAdd(s, t, 2, 8);
      if s2.txns[t] == Finished {
        FinishedStays(s2, t, 8);
      } else {
        LockingMoveWrites(s2, t);
      }
    }
  }

  /** A delete by itself ends the live rows of the branch, if and only if the article is
      live and the version the one asked for. */
  lemma DeleteRunsAlone(s: State, t: int, a: int, ver: int)
    requires Wf(s.rows) && t in s.txns && s.txns[t] == DeleteStart(a, ver) && s.locks == map[]
    ensures Over(Steps(s, t, 5), t,
                 if Live(s.rows, a) && s.rows[a].ver == ver then Deleted(s.rows, a) else s.rows)
  {
    if !Live(s.rows, a) {
      FinishIsOver(s, t);
      FinishedStays(Finish(s, t), t, 4);
      assert Steps(s, t, 5) == Steps(Finish(s, t), t, 4);
    } else {
      var from := s.rows[a].space;
      var s1 := s.(txns := s.txns[t := DeleteLocking(a, ver, from)]);
      var s2 := s.(locks := s.locks[from := t], txns := s.txns[t := DeleteLocked(a, ver, from)]);
      assert Next(s1, Advance(t)) == s2;
      assert Steps(s, t, 5) == Steps(s1, t, 4) == Steps(s2, t, 3);
      LockedDeleteWrites(s2, t);
    }
  }

  lemma LockedDeleteWrites(s: State, t: int)
    requires t in s.txns && s.txns[t].DeleteLocked? && OnlyLocker(s, t)
    requires Live(s.rows, s.txns[t].a) && s.rows[s.txns[t].a].space == s.txns[t].from
    ensures var txn := s.txns[t];
            Over(Steps(s, t, 3), t, if s.rows[txn.a].ver == txn.ver then Deleted(s.rows, txn.a) else s.rows)
  {
    var DeleteLocked(a, ver, from) := s.txns[t];
    var s1 := s.(txns := s.txns[t := DeleteChecked(a, ver, from)]);
    assert Steps(s, t, 3) == Steps(s1, t, 2);
    if s.rows[a].ver != ver {
      FinishIsOver(s1, t);
      FinishedStays(Finish(s1, t), t, 1);
      assert Steps(s1, t, 2) == Steps(Finish(s1, t), t, 1);
    } else {
      var s2 := s.(txns := s.txns[t := DeleteWalked(a, ver, from, s.rows)]);
      assert Steps(s1, t, 2) == Steps(s2, t, 1);
      WalkedDeleteWrites(s2, t);
    }
  }

  lemma WalkedDeleteWrites(s: State, t: int)
    requires t in s.txns && s.txns[t].DeleteWalked? && OnlyLocker(s, t) && s.txns[t].seen == s.rows
    requires Live(s.rows, s.txns[t].a) && s.rows[s.txns[t].a].ver == s.txns[t].ver
    ensures Over(Steps(s, t, 1), t, Deleted(s.rows, s.txns[t].a))
  {
    var a := s.txns[t].a;
    assert DeletedAs(s.rows, s.rows, a) == Deleted(s.rows, a);
    var s1 := s.(rows := Deleted(s.rows, a));
    FinishIsOver(s1, t);
    assert Next(s, Advance(t)) == Finish(s1, t);
    assert Steps(s, t, 1) == Steps(Finish(s1, t), t, 0);
  }
}