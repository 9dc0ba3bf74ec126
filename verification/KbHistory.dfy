/** What the calls of the knowledge base mean over time: histories only grow,
    versions guard against lost updates, homes stay put, domains do not mix. */
module KbHistory {
  import opened Wrappers
  import opened Forest
  import opened Kb
  import opened KbInvariants
  import Text

  // ------------------------------------------------------- restored versions

  /** The version a restored one was copied from. */
  ghost function SourceIndex(h: seq<Version>, i: int): int
    requires 0 <= i < |h| && VersionOk(h, i) && h[i].restoredFrom != 0
  {
    var j :| 0 <= j < i && h[j].id == h[i].restoredFrom && h[j].subject == h[i].subject && h[j].body == h[i].body;
    j
  }

  /** Following restored_from from any version ends at an authored one, which
      carries the same subject and body. */
  ghost function Origin(h: seq<Version>, i: int, bound: int): (o: int)
    requires HistoryOk(h, bound) && 0 <= i < |h|
    ensures 0 <= o <= i && h[o].restoredFrom == 0
    ensures h[o].subject == h[i].subject && h[o].body == h[i].body
    decreases i
  {
    assert VersionOk(h, i);
    if h[i].restoredFrom == 0 then i else Origin(h, SourceIndex(h, i), bound)
  }

  lemma {:induction false} FindNumberInHistory(h: seq<Version>, skip: int, number: int)
    requires 0 <= skip <= |h| && forall i | 0 <= i < |h| :: h[i].number == i + 1
    ensures FindNumber(h[skip..], number) == if skip < number <= |h| then Some(h[number - 1]) else None
    decreases |h| - skip
  {
    if skip < |h| {
      assert h[skip..][0] == h[skip] && h[skip..][1..] == h[skip + 1..];
      if h[skip].number != number {
        FindNumberInHistory(h, skip + 1, number);
      }
    }
  }

  /** A version number is found exactly when it is one of 1..n, and names the
      version at that place. */
  lemma NumbersAreOneToN(h: seq<Version>, bound: int, number: int)
    requires HistoryOk(h, bound)
    ensures FindNumber(h, number) == if 1 <= number <= |h| then Some(h[number - 1]) else None
  {
    forall i | 0 <= i < |h| ensures h[i].number == i + 1 {
      assert VersionOk(h, i);
    }
    assert h[0..] == h;
    FindNumberInHistory(h, 0, number);
  }

  /** A restore appends one version that repeats the one asked for. */
  lemma RestoreRepeats(kb: State, domain: int, a: int, number: int) returns (next: State)
    requires kb.nextVersion > 0 && HistoryOk(History(kb, a), kb.nextVersion)
    requires Visible(kb, domain, a) && 1 <= number <= |History(kb, a)|
    ensures RestoreVersion(kb, domain, a, number) == Done(next)
    ensures next.nextVersion > 0 && HistoryOk(History(next, a), next.nextVersion) && Visible(next, domain, a)
    ensures |History(next, a)| == |History(kb, a)| + 1 && History(kb, a) <= History(next, a)
    ensures Latest(History(next, a)).body == History(kb, a)[number - 1].body
    ensures next.articles[a].content.subject == History(kb, a)[number - 1].subject
  {
    var h := History(kb, a);
    NumbersAreOneToN(h, kb.nextVersion, number);
    assert VersionOk(h, number - 1);
    var source := h[number - 1];
    AppendKeepsHistory(h, Version(kb.nextVersion, MaxNumber(h) + 1, source.subject, source.body, source.id),
        kb.nextVersion);
    next := RestoreVersion(kb, domain, a, number).next;
  }

  /** Restoring a version and then the one that was latest before brings the
      subject and the body back, at the cost of two more versions. */
  lemma RestoreUndoesRestore(kb: State, domain: int, a: int, number: int) returns (kb1: State, kb2: State)
    requires Inv(kb) && Visible(kb, domain, a) && 1 <= number <= |History(kb, a)|
    ensures RestoreVersion(kb, domain, a, number) == Done(kb1)
    ensures RestoreVersion(kb1, domain, a, |History(kb, a)|) == Done(kb2)
    ensures |History(kb2, a)| == |History(kb, a)| + 2 && Latest(History(kb2, a)).body == Latest(History(kb, a)).body
    ensures a in kb2.articles && kb2.articles[a].content.subject == kb.articles[a].content.subject
  {
    assert SubjectOk(kb, a);
    kb1, kb2 := RestoreTwice(kb, domain, a, number);
  }

  lemma RestoreTwice(kb: State, domain: int, a: int, number: int) returns (kb1: State, kb2: State)
    requires kb.nextVersion > 0 && HistoryOk(History(kb, a), kb.nextVersion)
    requires Visible(kb, domain, a) && 1 <= number <= |History(kb, a)|
    ensures RestoreVersion(kb, domain, a, number) == Done(kb1)
    ensures RestoreVersion(kb1, domain, a, |History(kb, a)|) == Done(kb2)
    ensures |History(kb2, a)| == |History(kb, a)| + 2 && Latest(History(kb2, a)).body == Latest(History(kb, a)).body
    ensures a in kb2.articles && kb2.articles[a].content.subject == Latest(History(kb, a)).subject
  {
    var h := History(kb, a);
    kb1 := RestoreRepeats(kb, domain, a, number);
    assert History(kb1, a)[|h| - 1] == h[|h| - 1];
    kb2 := RestoreRepeats(kb1, domain, a, |h|);
  }

  // ---------------------------------------------------------- append-only

  /** The space belongs to another domain. */
  predicate Foreign(kb: State, domain: int, s: int) {
    s in kb.spaces && kb.spaces[s].domain != domain
  }

  /** An article that was there only grows, and one of another domain stays as it is. */
  predicate ArticleEffect(kb: State, kb': State, domain: int, a: int) {
    && kb'.nextArticle >= kb.nextArticle
    && (a in kb.articles && a in kb'.articles ==>
          && History(kb, a) <= History(kb', a)
          && kb'.articles[a].ver >= kb.articles[a].ver
          && (kb'.articles[a].live ==> kb.articles[a].live)
          && kb'.articles[a].content.typ == kb.articles[a].content.typ)
    && (a in kb.articles && Foreign(kb, domain, kb.articles[a].space) ==>
          a in kb'.articles && kb'.articles[a] == kb.articles[a] && History(kb', a) == History(kb, a))
    && (a !in kb.articles && a < kb.nextArticle ==> a !in kb'.articles)
  }

  /** A space of another domain stays as it is. */
  predicate SpaceEffect(kb: State, kb': State, domain: int, s: int) {
    Foreign(kb, domain, s) ==> s in kb'.spaces && kb'.spaces[s] == kb.spaces[s]
  }

  /** A home page stays put until it is deleted or purged with its space. */
  predicate HomeEffect(kb: State, kb': State, s: int) {
    s in kb.spaces && kb.spaces[s].home != 0 && kb.spaces[s].home in kb.articles ==>
      var home := kb.spaces[s].home;
      || (s !in kb'.spaces && home !in kb'.articles)
      || (s in kb'.spaces && kb'.spaces[s].home == 0 && home in kb'.articles && !kb'.articles[home].live)
      || (s in kb'.spaces && kb'.spaces[s].home == home && home in kb'.articles
          && kb'.articles[home].live == kb.articles[home].live && kb'.articles[home].parent == kb.articles[home].parent
          && kb'.articles[home].depth == kb.articles[home].depth && kb'.articles[home].space == kb.articles[home].space)
  }

  predicate Effects(kb: State, kb': State, domain: int, a: int, s: int) {
    ArticleEffect(kb, kb', domain, a) && SpaceEffect(kb, kb', domain, s) && HomeEffect(kb, kb', s)
  }

  lemma PlacedEffects(kb: State, domain: int, input: CreateInput, subject: string, a: int, s: int)
    requires (a in kb.articles ==> a < kb.nextArticle) && (input.parent != 0 ==> input.parent in kb.articles)
    requires (s in kb.spaces && kb.spaces[s].home != 0 ==> kb.spaces[s].home < kb.nextArticle)
    requires SpaceVisible(kb, domain, input.space) && (input.home ==> kb.spaces[input.space].home == 0)
    ensures Effects(kb, Placed(kb, input, subject), domain, a, s)
  {
  }

  lemma FirstVersionEffects(kb: State, kb1: State, domain: int, id: int, subject: string, body: string, space: int,
      a: int, s: int)
    requires Effects(kb, kb1, domain, a, s) && id !in kb.articles && space in kb1.spaces
    ensures Effects(kb, Publish(AppendVersion(kb1, id, subject, body, 0), id, kb1.nextVersion, space), domain, a, s)
  {
  }

  lemma CreateEffects(kb: State, domain: int, input: CreateInput, a: int, s: int)
    requires Inv(kb) && CreateArticle(kb, domain, input).Done?
    ensures Effects(kb, CreateArticle(kb, domain, input).next, domain, a, s)
  {
    var subject := Text.TrimSpace(input.subject);
    if s in kb.spaces { assert HomeOk(kb, s); }
    PlacedEffects(kb, domain, input, subject, a, s);
    FirstVersionEffects(kb, Placed(kb, input, subject), domain, kb.nextArticle, subject, input.body, input.space, a, s);
    assert CreateArticle(kb, domain, input).next
        == if input.body == "" then Placed(kb, input, subject)
           else Publish(AppendVersion(Placed(kb, input, subject), kb.nextArticle, subject, input.body, 0),
                        kb.nextArticle, kb.nextVersion, input.space);
  }

  lemma RewrittenEffects(kb: State, domain: int, x: int, merged: Content, body: string, a: int, s: int)
    requires Visible(kb, domain, x) && merged.typ == kb.articles[x].content.typ
    ensures Effects(kb, Rewritten(kb, x, merged, body), domain, a, s)
    ensures x in Rewritten(kb, x, merged, body).articles
            && Rewritten(kb, x, merged, body).articles[x].ver == kb.articles[x].ver + 1
  {
  }

  lemma UpdateEffects(kb: State, domain: int, x: int, input: UpdateInput, ver: int, a: int, s: int)
    requires UpdateArticle(kb, domain, x, input, ver).Done?
    ensures Effects(kb, UpdateArticle(kb, domain, x, input, ver).next, domain, a, s)
    ensures var kb' := UpdateArticle(kb, domain, x, input, ver).next;
            kb.articles[x].ver == ver && x in kb'.articles && kb'.articles[x].ver == ver + 1
  {
    var merged := Merge(kb.articles[x].content, Text.TrimSpace(input.subject), input.typ, input.state);
    assert UpdateArticle(kb, domain, x, input, ver).next == Rewritten(kb, x, merged, input.body);
    RewrittenEffects(kb, domain, x, merged, input.body, a, s);
  }

  lemma RestoreEffects(kb: State, domain: int, x: int, number: int, a: int, s: int)
    requires RestoreVersion(kb, domain, x, number).Done?
    ensures Effects(kb, RestoreVersion(kb, domain, x, number).next, domain, a, s)
    ensures var kb' := RestoreVersion(kb, domain, x, number).next;
            x in kb'.articles && kb'.articles[x].ver == kb.articles[x].ver + 1
  {
  }

  lemma ReindexEffects(kb: State, domain: int, x: int, ver: int, a: int, s: int)
    requires Reindex(kb, domain, x, ver).Done?
    ensures Effects(kb, Reindex(kb, domain, x, ver).next, domain, a, s)
    ensures var kb' := Reindex(kb, domain, x, ver).next;
            kb.articles[x].ver == ver && x in kb'.articles && kb'.articles[x].ver == ver + 1
  {
  }

  lemma DeleteEffects(kb: State, domain: int, r: int, ver: int, a: int, s: int)
    requires Inv(kb) && DeleteArticle(kb, domain, r, ver).Done?
    ensures Effects(kb, DeleteArticle(kb, domain, r, ver).next, domain, a, s)
    ensures kb.articles[r].ver == ver
  {
    WalksCoverBranch(kb.articles, r);
    if s in kb.spaces { assert HomeOk(kb, s); }
  }

  /** A row of another domain is outside the branch a move carries. */
  lemma MovedRowEffects(kb: State, domain: int, r: int, parent: int, target: int, a: int, s: int)
    requires Inv(kb) && Visible(kb, domain, r) && SpaceVisible(kb, domain, target) && !IsHome(kb, r)
    requires parent != 0 ==> parent in kb.articles
    ensures Effects(kb, kb.(articles := Moved(kb.articles, r, parent, target)), domain, a, s)
  {
    WalksCoverBranch(kb.articles, r);
    if a in kb.articles { MoveCarriesBranch(kb.articles, r, parent, target, a); }
    if s in kb.spaces && kb.spaces[s].home != 0 {
      assert HomeOk(kb, s);
      HomeOutsideBranch(kb, s, r);
      MoveCarriesBranch(kb.articles, r, parent, target, kb.spaces[s].home);
    }
  }

  lemma MoveEffects(kb: State, domain: int, r: int, parent: int, space: int, mayCreate: bool, ver: int, a: int, s: int)
    requires Inv(kb) && MoveArticle(kb, domain, r, parent, space, mayCreate, ver).Done?
    ensures Effects(kb, MoveArticle(kb, domain, r, parent, space, mayCreate, ver).next, domain, a, s)
    ensures var kb' := MoveArticle(kb, domain, r, parent, space, mayCreate, ver).next;
            kb.articles[r].ver == ver && r in kb'.articles && kb'.articles[r].ver == ver + 1
  {
    var (target, _) := MoveTarget(kb, domain, r, parent, space);
    MovedRowEffects(kb, domain, r, parent, target, a, s);
    MoveAddsOnlyContent(kb, domain, r, parent, target, kb.articles[r].space, a, s);
  }

  /** The work on the index after a move adds nothing to its effects. */
  lemma MoveAddsOnlyContent(kb: State, domain: int, r: int, parent: int, target: int, source: int, a: int, s: int)
    requires r in kb.articles && source in kb.spaces && SpaceVisible(kb, domain, target)
    requires parent != 0 ==> parent in kb.articles
    requires Effects(kb, kb.(articles := Moved(kb.articles, r, parent, target)), domain, a, s)
    ensures var kb' := IndexMoved(kb.(articles := Moved(kb.articles, r, parent, target)), source, target, r,
                                  Subtree(kb.articles, r));
            Effects(kb, kb', domain, a, s) && r in kb'.articles && kb'.articles[r].ver == kb.articles[r].ver + 1
  {
    var moved := kb.(articles := Moved(kb.articles, r, parent, target));
    IndexMovedKeepsPlace(moved, source, target, r, Subtree(kb.articles, r), a);
    IndexMovedKeepsPlace(moved, source, target, r, Subtree(kb.articles, r), r);
    if s in kb.spaces {
      IndexMovedKeepsPlace(moved, source, target, r, Subtree(kb.articles, r), kb.spaces[s].home);
    }
  }

  lemma SpaceRewrittenEffects(kb: State, domain: int, x: int, merged: Space, a: int, s: int)
    requires SpaceVisible(kb, domain, x) && merged.home == kb.spaces[x].home
    ensures Effects(kb, SpaceRewritten(kb, x, merged), domain, a, s)
  {
  }

  lemma UpdateSpaceEffects(kb: State, domain: int, x: int, input: SpaceInput, mask: set<SpaceField>, modelsOk: bool,
      a: int, s: int)
    requires Inv(kb) && UpdateSpace(kb, domain, x, input, mask, modelsOk).Done?
    ensures Effects(kb, UpdateSpace(kb, domain, x, input, mask, modelsOk).next, domain, a, s)
  {
    SpaceRewrittenEffects(kb, domain, x, MergeSpace(kb.spaces[x], input, mask), a, s);
  }

  lemma DeleteSpaceEffects(kb: State, domain: int, x: int, a: int, s: int)
    requires Inv(kb) && DeleteSpace(kb, domain, x).Done?
    ensures Effects(kb, DeleteSpace(kb, domain, x).next, domain, a, s)
  {
    if s in kb.spaces { assert HomeOk(kb, s); }
  }

  lemma CreateSpaceEffects(kb: State, domain: int, input: SpaceInput, modelsOk: bool, a: int, s: int)
    requires Inv(kb) && CreateSpace(kb, domain, input, modelsOk).Done?
    ensures Effects(kb, CreateSpace(kb, domain, input, modelsOk).next, domain, a, s)
  {
  }

  predicate ServiceCall(call: Call) {
    !call.PipelineState? && !call.PipelineVector?
  }

  /** What any service call may do to an article and a space that were there before it:
      nothing is lost, a home page stays put, and another domain sees no change. */
  lemma CallEffects(kb: State, domain: int, call: Call, a: int, s: int)
    requires Inv(kb) && ServiceCall(call)
    ensures Effects(kb, After(kb, domain, call), domain, a, s)
  {
    if Serve(kb, domain, call).Done? {
      match call
      case CallCreate(input) => CreateEffects(kb, domain, input, a, s);
      case CallUpdate(x, input, ver) => UpdateEffects(kb, domain, x, input, ver, a, s);
      case CallRestore(x, number) => RestoreEffects(kb, domain, x, number, a, s);
      case CallReindex(x, ver) => ReindexEffects(kb, domain, x, ver, a, s);
      case CallDelete(x, ver) => DeleteEffects(kb, domain, x, ver, a, s);
      case CallMove(x, parent, space, mayCreate, ver) => MoveEffects(kb, domain, x, parent, space, mayCreate, ver, a,
          s);
      case CallCreateSpace(input, modelsOk) => CreateSpaceEffects(kb, domain, input, modelsOk, a, s);
      case CallUpdateSpace(x, input, mask, modelsOk) => UpdateSpaceEffects(kb, domain, x, input, mask, modelsOk, a, s);
      case CallDeleteSpace(x) => DeleteSpaceEffects(kb, domain, x, a, s);
    }
  }

  /** The pipeline, which serves every domain, still only adds. */
  lemma PipelineEffects(kb: State, domain: int, call: Call, a: int)
    requires Inv(kb) && !ServiceCall(call) && (a in kb.articles ==> !Foreign(kb, domain, kb.articles[a].space))
    ensures ArticleEffect(kb, After(kb, domain, call), domain, a)
  {
  }

  /** The part of the effects that holds of every call, whoever makes it. */
  lemma CallGrows(kb: State, domain: int, call: Call, a: int)
    requires Inv(kb)
    ensures exists d :: ArticleEffect(kb, After(kb, domain, call), d, a)
  {
    if ServiceCall(call) {
      CallEffects(kb, domain, call, a, 0);
    } else {
      var d := if a in kb.articles then kb.spaces[kb.articles[a].space].domain else domain;
      assert After(kb, domain, call) == After(kb, d, call);
      PipelineEffects(kb, d, call, a);
    }
  }

  lemma {:induction false} RunKeepsGone(kb: State, requests: seq<Request>, a: int)
    requires Inv(kb) && a < kb.nextArticle && a !in kb.articles
    ensures a !in Run(kb, requests).articles
    decreases |requests|
  {
    if requests != [] {
      CallKeepsInv(kb, requests[0].domain, requests[0].call);
      CallGrows(kb, requests[0].domain, requests[0].call, a);
      RunKeepsGone(After(kb, requests[0].domain, requests[0].call), requests[1..], a);
    }
  }

  /** Over any run a history is only ever appended to, the version counter never
      falls, a deleted article never comes back to life and no article changes type. */
  lemma {:induction false} RunGrowsArticle(kb: State, requests: seq<Request>, a: int)
    requires Inv(kb) && a in kb.articles && a in Run(kb, requests).articles
    ensures var kb' := Run(kb, requests);
            && History(kb, a) <= History(kb', a)
            && kb'.articles[a].ver >= kb.articles[a].ver
            && (kb'.articles[a].live ==> kb.articles[a].live)
            && kb'.articles[a].content.typ == kb.articles[a].content.typ
    decreases |requests|
  {
    if requests != [] {
      var kb1 := After(kb, requests[0].domain, requests[0].call);
      CallKeepsInv(kb, requests[0].domain, requests[0].call);
      CallGrows(kb, requests[0].domain, requests[0].call, a);
      if a !in kb1.articles {
        assert RowOk(kb.articles, a);
        RunKeepsGone(kb1, requests[1..], a);
      }
      RunGrowsArticle(kb1, requests[1..], a);
    }
  }

  /** The call writes the article a under a client's or the stored version. */
  predicate Rewrites(call: Call, a: int) {
    match call
    case CallUpdate(x, _, _) => x == a
    case CallMove(x, _, _, _, _) => x == a
    case CallRestore(x, _) => x == a
    case CallReindex(x, _) => x == a
    case _ => false
  }

  /** The call is guarded by a version the client read. */
  predicate GuardedBy(call: Call, a: int, ver: int) {
    match call
    case CallUpdate(x, _, v) => x == a && v == ver
    case CallMove(x, _, _, _, v) => x == a && v == ver
    case CallReindex(x, v) => x == a && v == ver
    case CallDelete(x, v) => x == a && v == ver
    case _ => false
  }

  /** Optimistic locking: once a write of an article succeeded, no call guarded
      by the version read before it succeeds at any later point of any run. */
  lemma NoLostUpdate(kb: State, domain: int, call: Call, requests: seq<Request>, a: int, later: Call, domain': int)
    requires Inv(kb) && Rewrites(call, a) && a in kb.articles && Serve(kb, domain, call).Done?
    requires GuardedBy(later, a, kb.articles[a].ver)
    ensures Serve(Run(After(kb, domain, call), requests), domain', later).Refused?
  {
    var kb1 := After(kb, domain, call);
    CallKeepsInv(kb, domain, call);
    RunKeepsInv(kb1, requests);
    RewriteBumps(kb, domain, call, a);
    StaleIsRefused(Run(kb1, requests), domain', later, a, kb.articles[a].ver) by {
      if a in Run(kb1, requests).articles { RunGrowsArticle(kb1, requests, a); }
    }
  }

  lemma RewriteBumps(kb: State, domain: int, call: Call, a: int)
    requires Inv(kb) && Rewrites(call, a) && Serve(kb, domain, call).Done?
    ensures a in kb.articles
    ensures a in After(kb, domain, call).articles && After(kb, domain, call).articles[a].ver == kb.articles[a].ver + 1
  {
    match call
    case CallUpdate(x, input, ver) => UpdateEffects(kb, domain, x, input, ver, a, 0);
    case CallRestore(x, number) => RestoreEffects(kb, domain, x, number, a, 0);
    case CallReindex(x, ver) => ReindexEffects(kb, domain, x, ver, a, 0);
    case CallMove(x, parent, space, mayCreate, ver) => MoveEffects(kb, domain, x, parent, space, mayCreate, ver, a, 0);
  }

  /** A call guarded by a version below the stored one is refused. */
  lemma StaleIsRefused(kb: State, domain: int, call: Call, a: int, ver: int)
    requires Inv(kb) && GuardedBy(call, a, ver) && (a in kb.articles ==> kb.articles[a].ver > ver)
    ensures Serve(kb, domain, call).Refused?
  {
    if Serve(kb, domain, call).Done? {
      match call
      case CallUpdate(x, input, v) => UpdateEffects(kb, domain, x, input, v, a, 0);
      case CallReindex(x, v) => ReindexEffects(kb, domain, x, v, a, 0);
      case CallDelete(x, v) => DeleteEffects(kb, domain, x, v, a, 0);
      case CallMove(x, parent, space, mayCreate, v) => MoveEffects(kb, domain, x, parent, space, mayCreate, v, a, 0);
    }
  }
}
