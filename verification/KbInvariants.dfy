/** What every run of the knowledge base keeps. */
module KbInvariants {
  import opened Wrappers
  import opened Forest
  import opened Kb
  import Text

  // ------------------------------------------------------------- the invariant

  /** The rows form bounded forests, one or more trees to a space that exists. */
  ghost predicate ShapeOk(kb: State) {
    && Wf(kb.articles)
    && kb.nextArticle > 0 && kb.nextVersion > 0 && kb.nextSpace > 0
    && (forall a | a in kb.articles :: a < kb.nextArticle && kb.articles[a].space in kb.spaces)
    && (forall s | s in kb.spaces :: 0 < s < kb.nextSpace)
    && (forall a | a in kb.histories :: a in kb.articles)
  }

  /** Version i of a history: numbered from one, and a restored version repeats
      an earlier version of the same history. */
  ghost predicate VersionOk(h: seq<Version>, i: int)
    requires 0 <= i < |h|
  {
    && h[i].number == i + 1 && h[i].subject != ""
    && (h[i].restoredFrom != 0 ==>
          exists j :: 0 <= j < i && h[j].id == h[i].restoredFrom
                      && h[j].subject == h[i].subject && h[j].body == h[i].body)
  }

  ghost predicate HistoryOk(h: seq<Version>, bound: int) {
    && (forall i | 0 <= i < |h| :: VersionOk(h, i))
    && (forall i | 0 <= i < |h| :: 0 < h[i].id < bound)
    && (forall i, j | 0 <= i < j < |h| :: h[i].id < h[j].id)
  }

  /** The article carries the subject of its latest version. */
  predicate SubjectOk(kb: State, a: int)
    requires a in kb.articles
  {
    var subject := kb.articles[a].content.subject;
    subject != "" && (History(kb, a) != [] ==> Latest(History(kb, a)).subject == subject)
  }

  ghost predicate HistoriesOk(kb: State) {
    && (forall a | a in kb.histories :: HistoryOk(kb.histories[a], kb.nextVersion))
    && (forall a | a in kb.articles :: SubjectOk(kb, a))
  }

  /** The home page of a space: a live top-level page of it, with no live children. */
  ghost predicate HomeOk(kb: State, s: int)
    requires s in kb.spaces
  {
    var home := kb.spaces[s].home;
    home != 0 ==>
      && Live(kb.articles, home)
      && kb.articles[home].space == s && kb.articles[home].parent == 0 && kb.articles[home].content.typ == Page
      && (forall c | c in kb.articles && kb.articles[c].live :: kb.articles[c].parent != home)
  }

  ghost predicate HomesOk(kb: State) {
    forall s | s in kb.spaces :: HomeOk(kb, s)
  }

  /** The latest version was queued while the space searched with the model the
      article's space searches with now. */
  ghost predicate QueuedOk(kb: State, a: int)
    requires a in kb.articles && kb.articles[a].space in kb.spaces
  {
    kb.articles[a].live && History(kb, a) != [] ==>
      exists e :: e in kb.issued && e.article == a && e.version == Latest(History(kb, a)).id
                  && e.model == kb.spaces[kb.articles[a].space].SearchModel()
  }

  ghost predicate AllQueued(kb: State)
    requires ShapeOk(kb)
  {
    forall a | a in kb.articles :: QueuedOk(kb, a)
  }

  /** A vector is scoped to the space of its article, and on a live article it is
      made by the model of that space. */
  ghost predicate VectorOk(kb: State, v: VectorKey)
    requires v in kb.vectors
  {
    && v.article in kb.articles && kb.articles[v.article].space == kb.vectors[v]
    && kb.vectors[v] in kb.spaces
    && (kb.articles[v.article].live ==> v.model == kb.spaces[kb.vectors[v]].embedding)
  }

  ghost predicate VectorsOk(kb: State) {
    forall v | v in kb.vectors :: VectorOk(kb, v)
  }

  ghost predicate Inv(kb: State) {
    ShapeOk(kb) && HistoriesOk(kb) && HomesOk(kb) && AllQueued(kb) && VectorsOk(kb)
  }

  // ------------------------------------------------------------------ versions

  lemma {:induction false} MaxNumberIsLength(h: seq<Version>, bound: int)
    requires HistoryOk(h, bound)
    ensures MaxNumber(h) == |h|
  {
    if h != [] {
      var rest := h[..|h| - 1];
      forall i | 0 <= i < |rest| ensures VersionOk(rest, i) {
        assert VersionOk(h, i);
      }
      MaxNumberIsLength(rest, bound);
      assert VersionOk(h, |h| - 1);
    }
  }

  lemma {:induction false} FindNumberFinds(h: seq<Version>, number: int)
    ensures FindNumber(h, number).Some? ==>
      exists j :: 0 <= j < |h| && h[j] == FindNumber(h, number).value && h[j].number == number
  {
    if h != [] && h[0].number != number {
      FindNumberFinds(h[1..], number);
      if FindNumber(h[1..], number).Some? {
        var j :| 0 <= j < |h[1..]| && h[1..][j] == FindNumber(h[1..], number).value && h[1..][j].number == number;
        assert h[j + 1] == h[1..][j];
      }
    }
  }

  /** Appending under the next number and id keeps a history sound. */
  lemma AppendKeepsHistory(h: seq<Version>, v: Version, bound: int)
    requires HistoryOk(h, bound) && bound > 0
    requires v.id == bound && v.number == MaxNumber(h) + 1 && v.subject != ""
    requires v.restoredFrom != 0 ==>
      exists j :: 0 <= j < |h| && h[j].id == v.restoredFrom && h[j].subject == v.subject && h[j].body == v.body
    ensures HistoryOk(h + [v], bound + 1)
  {
    MaxNumberIsLength(h, bound);
    var h' := h + [v];
    forall i | 0 <= i < |h'| ensures VersionOk(h', i) {
      if i < |h| {
        assert VersionOk(h, i);
        if h[i].restoredFrom != 0 {
          var j :| 0 <= j < i && h[j].id == h[i].restoredFrom && h[j].subject == h[i].subject && h[j].body == h[i].body;
          assert h'[j] == h[j];
        }
      } else if v.restoredFrom != 0 {
        var j :| 0 <= j < |h| && h[j].id == v.restoredFrom && h[j].subject == v.subject && h[j].body == v.body;
        assert h'[j] == h[j];
      }
    }
    forall i, j | 0 <= i < j < |h'| ensures h'[i].id < h'[j].id {
      assert VersionOk(h, i);
    }
  }

  /** Rows that keep their place keep the whole forest. */
  lemma SamePlacesKeepForest(t: Table, t': Table)
    requires Wf(t) && t'.Keys == t.Keys
    requires forall x | x in t :: t'[x].parent == t[x].parent && t'[x].depth == t[x].depth
                                  && t'[x].space == t[x].space && t'[x].live == t[x].live
    ensures Wf(t')
  {
    forall x | x in t' ensures RowOk(t', x) {
      assert RowOk(t, x);
    }
    var rank: map<int, nat> :| Ranked(t, rank);
    assert Ranked(t', rank);
  }

  /** A queued version keeps every other article queued and queues its own. */
  lemma VersionedKeepsInv(kb: State, a: int, content: Content, subject: string, body: string, restoredFrom: int)
    requires Inv(kb) && Live(kb.articles, a)
    requires content.typ == kb.articles[a].content.typ && content.subject == subject && subject != ""
    requires restoredFrom != 0 ==> exists j :: 0 <= j < |History(kb, a)| && History(kb, a)[j].id == restoredFrom
                                    && History(kb, a)[j].subject == subject && History(kb, a)[j].body == body
    ensures Inv(Publish(AppendVersion(WithContent(kb, a, content), a, subject, body, restoredFrom),
                        a, kb.nextVersion, kb.articles[a].space))
  {
    var h := History(kb, a);
    var v := Version(kb.nextVersion, MaxNumber(h) + 1, subject, body, restoredFrom);
    var kb' := Publish(AppendVersion(WithContent(kb, a, content), a, subject, body, restoredFrom),
                       a, kb.nextVersion, kb.articles[a].space);
    SamePlacesKeepForest(kb.articles, kb'.articles);
    assert HistoryOk(h, kb.nextVersion);
    AppendKeepsHistory(h, v, kb.nextVersion);
    assert History(kb', a) == h + [v];
    forall x | x in kb'.articles ensures SubjectOk(kb', x) && QueuedOk(kb', x) {
      KeptRow(kb, kb', a, x);
    }
    forall s | s in kb'.spaces ensures HomeOk(kb', s) {
      assert HomeOk(kb, s);
    }
    KeptVectors(kb, kb', a);
  }

  lemma KeptVectors(kb: State, kb': State, a: int)
    requires VectorsOk(kb) && a in kb.articles && a in kb'.articles
    requires kb'.articles == kb.articles[a := kb'.articles[a]] && kb'.vectors == kb.vectors
    requires kb'.articles[a].space == kb.articles[a].space && kb'.articles[a].live == kb.articles[a].live
    requires kb'.spaces == kb.spaces
    ensures VectorsOk(kb')
  {
    forall w | w in kb'.vectors ensures VectorOk(kb', w) {
      assert VectorOk(kb, w);
    }
  }

  lemma KeptRow(kb: State, kb': State, a: int, x: int)
    requires Inv(kb) && a in kb.articles && a in kb'.articles && x in kb.articles && x in kb'.articles
    requires kb'.spaces == kb.spaces && kb.issued <= kb'.issued
    requires x != a ==> kb'.articles[x] == kb.articles[x] && History(kb', x) == History(kb, x)
    requires kb'.articles[a].space == kb.articles[a].space
    requires History(kb', a) != [] && Latest(History(kb', a)).subject == kb'.articles[a].content.subject != ""
    requires Issued(a, Latest(History(kb', a)).id, kb.articles[a].space,
                    kb.spaces[kb.articles[a].space].SearchModel()) in kb'.issued
    ensures SubjectOk(kb', x) && QueuedOk(kb', x)
  {
    if x != a {
      assert SubjectOk(kb, x) && QueuedOk(kb, x);
    }
  }

  // --------------------------------------------------------- one call at a time

  /** New content without a new version keeps everything, whatever is queued besides. */
  lemma ContentKeepsInv(kb: State, kb': State, a: int)
    requires Inv(kb) && a in kb.articles && a in kb'.articles
    requires kb' == kb.(articles := kb.articles[a := kb'.articles[a]], issued := kb'.issued)
    requires kb.issued <= kb'.issued
    requires var old' := kb.articles[a]; var new' := kb'.articles[a];
             && new'.parent == old'.parent && new'.depth == old'.depth && new'.space == old'.space
             && new'.live == old'.live && new'.content.typ == old'.content.typ && new'.content.subject != ""
             && (History(kb, a) != [] ==> new'.content.subject == old'.content.subject)
    ensures Inv(kb')
  {
    SamePlacesKeepForest(kb.articles, kb'.articles);
    forall x | x in kb'.articles ensures SubjectOk(kb', x) && QueuedOk(kb', x) {
      assert SubjectOk(kb, x) && QueuedOk(kb, x);
    }
    forall s | s in kb'.spaces ensures HomeOk(kb', s) {
      assert HomeOk(kb, s);
    }
    forall w | w in kb'.vectors ensures VectorOk(kb', w) {
      assert VectorOk(kb, w);
    }
  }

  lemma RewrittenKeepsInv(kb: State, a: int, merged: Content, body: string)
    requires Inv(kb) && Live(kb.articles, a) && merged.typ == kb.articles[a].content.typ && merged.subject != ""
    ensures Inv(Rewritten(kb, a, merged, body))
  {
    var h := History(kb, a);
    if body == "" && (merged.subject == kb.articles[a].content.subject || h == []) {
      ContentKeepsInv(kb, WithContent(kb, a, merged), a);
    } else {
      VersionedKeepsInv(kb, a, merged.(index := Pending), merged.subject, if body != "" then body
          else Latest(h).body, 0);
    }
  }

  lemma UpdateKeepsInv(kb: State, domain: int, a: int, input: UpdateInput, expectedVer: int)
    requires Inv(kb) && UpdateArticle(kb, domain, a, input, expectedVer).Done?
    ensures Inv(UpdateArticle(kb, domain, a, input, expectedVer).next)
  {
    assert SubjectOk(kb, a);
    var merged := UpdateRewrites(kb, domain, a, input, expectedVer);
    RewrittenKeepsInv(kb, a, merged, input.body);
  }

  lemma UpdateRewrites(kb: State, domain: int, a: int, input: UpdateInput, expectedVer: int) returns (merged: Content)
    requires UpdateArticle(kb, domain, a, input, expectedVer).Done? && a in kb.articles
    requires kb.articles[a].content.subject != ""
    ensures Visible(kb, domain, a) && merged.typ == kb.articles[a].content.typ && merged.subject != ""
    ensures UpdateArticle(kb, domain, a, input, expectedVer) == Done(Rewritten(kb, a, merged, input.body))
  {
    var subject := Text.TrimSpace(input.subject);
    merged := Merge(kb.articles[a].content, subject, input.typ, input.state);
    MergeKeepsType(kb, a, input, subject);
  }

  lemma MergeKeepsType(kb: State, a: int, input: UpdateInput, subject: string)
    requires a in kb.articles && RejectImmutable(kb, a, input).None? && kb.articles[a].content.subject != ""
    ensures var merged := Merge(kb.articles[a].content, subject, input.typ, input.state);
            merged.typ == kb.articles[a].content.typ && merged.subject != ""
  {
  }

  lemma RestoreKeepsInv(kb: State, domain: int, a: int, number: int)
    requires Inv(kb) && RestoreVersion(kb, domain, a, number).Done?
    ensures Inv(RestoreVersion(kb, domain, a, number).next)
  {
    var h := History(kb, a);
    FindNumberFinds(h, number);
    var source := FindNumber(h, number).value;
    var j :| 0 <= j < |h| && h[j] == source;
    assert VersionOk(h, j);
    var aligned := Merge(kb.articles[a].content, source.subject, None, None).(index := Pending);
    assert WithContent(AppendVersion(kb, a, source.subject, source.body, source.id), a, aligned)
        == AppendVersion(WithContent(kb, a, aligned), a, source.subject, source.body, source.id);
    VersionedKeepsInv(kb, a, aligned, source.subject, source.body, source.id);
  }

  lemma ReindexKeepsInv(kb: State, domain: int, a: int, expectedVer: int)
    requires Inv(kb) && Reindex(kb, domain, a, expectedVer).Done?
    ensures Inv(Reindex(kb, domain, a, expectedVer).next)
  {
    assert SubjectOk(kb, a);
    ContentKeepsInv(kb, Reindex(kb, domain, a, expectedVer).next, a);
  }

  lemma InsertKeepsHomes(kb: State, input: CreateInput, subject: string, s: int)
    requires Inv(kb) && s in kb.spaces && input.space in kb.spaces
    requires InsertGuard(kb.articles, input.parent, input.space) && (input.parent != 0 ==> !IsHome(kb, input.parent))
    requires input.home ==> input.parent == 0 && GetOr(input.typ, Page) == Page && kb.spaces[input.space].home == 0
    ensures HomeOk(Placed(kb, input, subject), s)
  {
    var kb' := Placed(kb, input, subject);
    assert HomeOk(kb, s);
    forall x | x in kb.articles ensures kb.articles[x].parent != kb.nextArticle {
      assert RowOk(kb.articles, x);
    }
    if kb.spaces[s].home != 0 {
      assert kb'.spaces[s].home == kb.spaces[s].home;
    }
  }

  /** A fresh row under a parent that is no home page, before its version. */
  lemma PlacedKeepsInv(kb: State, input: CreateInput, subject: string)
    requires Inv(kb) && input.space in kb.spaces && subject != ""
    requires InsertGuard(kb.articles, input.parent, input.space) && (input.parent != 0 ==> !IsHome(kb, input.parent))
    requires input.home ==> input.parent == 0 && GetOr(input.typ, Page) == Page && kb.spaces[input.space].home == 0
    ensures Inv(Placed(kb, input, subject))
  {
    var id := kb.nextArticle;
    var kb' := Placed(kb, input, subject);
    InsertKeepsForest(kb.articles, id, input.parent, input.space, kb'.articles[id].content);
    forall x | x in kb'.articles ensures SubjectOk(kb', x) && QueuedOk(kb', x) {
      if x != id { assert SubjectOk(kb, x) && QueuedOk(kb, x); }
    }
    forall s | s in kb'.spaces ensures HomeOk(kb', s) {
      InsertKeepsHomes(kb, input, subject, s);
    }
    forall w | w in kb'.vectors ensures VectorOk(kb', w) {
      assert VectorOk(kb, w);
    }
  }

  lemma CreateKeepsInv(kb: State, domain: int, input: CreateInput)
    requires Inv(kb) && CreateArticle(kb, domain, input).Done?
    ensures Inv(CreateArticle(kb, domain, input).next)
  {
    var subject := Text.TrimSpace(input.subject);
    PlacedKeepsInv(kb, input, subject);
    if input.body != "" {
      FirstVersionKeepsInv(Placed(kb, input, subject), kb.nextArticle, subject, input.body);
    }
  }

  /** The first version of a row that keeps its ver, unlike a row an update rewrote. */
  lemma FirstVersionKeepsInv(kb: State, a: int, subject: string, body: string)
    requires Inv(kb) && Live(kb.articles, a) && kb.articles[a].content.subject == subject
    ensures Inv(Publish(AppendVersion(kb, a, subject, body, 0), a, kb.nextVersion, kb.articles[a].space))
  {
    assert SubjectOk(kb, a);
    VersionedKeepsInv(kb, a, kb.articles[a].content, subject, body, 0);
    var bumped := Publish(AppendVersion(WithContent(kb, a, kb.articles[a].content), a, subject, body, 0),
                          a, kb.nextVersion, kb.articles[a].space);
    assert Latest(History(bumped, a)).subject == subject;
    var kb' := Publish(AppendVersion(kb, a, subject, body, 0), a, kb.nextVersion, kb.articles[a].space);
    assert kb'.articles == bumped.articles[a := kb.articles[a]] && kb'.issued == bumped.issued;
    assert kb' == bumped.(articles := bumped.articles[a := kb'.articles[a]], issued := kb'.issued);
    ContentKeepsInv(bumped, kb', a);
  }

  lemma DeleteKeepsInv(kb: State, domain: int, a: int, expectedVer: int)
    requires Inv(kb) && DeleteArticle(kb, domain, a, expectedVer).Done?
    ensures Inv(DeleteArticle(kb, domain, a, expectedVer).next)
  {
    var kb' := DeleteArticle(kb, domain, a, expectedVer).next;
    DeleteKeepsForest(kb.articles, a);
    forall x | x in kb'.articles ensures SubjectOk(kb', x) && QueuedOk(kb', x) {
      assert SubjectOk(kb, x) && QueuedOk(kb, x);
    }
    forall s | s in kb'.spaces ensures HomeOk(kb', s) {
      assert HomeOk(kb, s);
    }
    forall w | w in kb'.vectors ensures VectorOk(kb', w) {
      assert VectorOk(kb, w);
    }
  }

  lemma {:induction false} BranchSurvivesMove(t: Table, r: int, parent: int, space: int, x: int, k: nat)
    requires r in t && (parent != 0 ==> parent in t) && AnyAt(t, r, x, k)
    ensures x in Branch(Moved(t, r, parent, space), r)
    decreases k
  {
    var t' := Moved(t, r, parent, space);
    if x == r {
      assert AnyAt(t', r, r, 0);
    } else {
      BranchSurvivesMove(t, r, parent, space, t[x].parent, k - 1);
      ChildInBranch(t', r, x);
    }
  }

  /** A page that is the home of some space is in no branch but its own. */
  lemma HomeOutsideBranch(kb: State, s: int, r: int)
    requires Inv(kb) && s in kb.spaces && kb.spaces[s].home != 0 && kb.spaces[s].home != r
    ensures kb.spaces[s].home !in Branch(kb.articles, r)
  {
    var home := kb.spaces[s].home;
    assert HomeOk(kb, s);
    if home in Branch(kb.articles, r) {
      ParentInBranch(kb.articles, r, home);
    }
  }

  lemma MovedHomes(kb: State, kb': State, a: int, parent: int, target: int)
    requires Inv(kb) && Live(kb.articles, a) && !IsHome(kb, a)
    requires parent != 0 ==> Live(kb.articles, parent) && !IsHome(kb, parent)
    requires kb'.articles.Keys == kb.articles.Keys && kb'.spaces == kb.spaces
    requires forall x | x in kb.articles ::
      var moved := Moved(kb.articles, a, parent, target)[x];
      kb'.articles[x] == moved.(content := kb'.articles[x].content) && kb'.articles[x].content.typ == moved.content.typ
    ensures HomesOk(kb')
  {
    forall s | s in kb'.spaces ensures HomeOk(kb', s) {
      var home := kb.spaces[s].home;
      assert HomeOk(kb, s);
      if home != 0 {
        HomeOutsideBranch(kb, s, a);
        forall x | x in kb.articles
          ensures x !in Branch(kb.articles, a) ==> Moved(kb.articles, a, parent, target)[x] == kb.articles[x]
          ensures Moved(kb.articles, a, parent, target)[x].live == kb.articles[x].live
          ensures x != a ==> Moved(kb.articles, a, parent, target)[x].parent == kb.articles[x].parent
          ensures Moved(kb.articles, a, parent, target)[x].content == kb.articles[x].content
        {
          MoveCarriesBranch(kb.articles, a, parent, target, x);
        }
      }
    }
  }

  lemma MovedVectors(kb: State, a: int, parent: int, source: int, target: int)
    requires Inv(kb) && Live(kb.articles, a) && (parent != 0 ==> parent in kb.articles)
    requires kb.articles[a].space == source && target in kb.spaces
    ensures VectorsOk(IndexMoved(kb.(articles := Moved(kb.articles, a, parent, target)), source, target, a,
                                 Subtree(kb.articles, a)))
  {
    var moved := kb.(articles := Moved(kb.articles, a, parent, target));
    var kb' := IndexMoved(moved, source, target, a, Subtree(kb.articles, a));
    WalksCoverBranch(kb.articles, a);
    forall v | v in kb'.vectors ensures VectorOk(kb', v) {
      assert VectorOk(kb, v);
      MoveCarriesBranch(kb.articles, a, parent, target, v.article);
      if v.article in Branch(kb.articles, a) {
        var k: nat :| AnyAt(kb.articles, a, v.article, k);
        BranchSurvivesMove(kb.articles, a, parent, target, v.article, k);
      }
    }
  }

  /** A moved row with a version is queued under the model of the target space,
      unless it was already. */
  lemma MovedRowQueued(kb: State, a: int, parent: int, source: int, target: int, x: int)
    requires Inv(kb) && Live(kb.articles, a) && (parent != 0 ==> parent in kb.articles)
    requires kb.articles[a].space == source && target in kb.spaces && x in kb.articles
    ensures var kb' := IndexMoved(kb.(articles := Moved(kb.articles, a, parent, target)), source, target, a,
                                  Subtree(kb.articles, a));
            x in kb'.articles && kb'.articles[x].space in kb'.spaces && SubjectOk(kb', x) && QueuedOk(kb', x)
  {
    var moved := kb.(articles := Moved(kb.articles, a, parent, target));
    var ids := Subtree(kb.articles, a);
    var dropped := ForeignDropped(Rescoped(moved, a), target, kb.spaces[target].embedding, ids);
    var kb' := IndexMoved(moved, source, target, a, ids);
    WalksCoverBranch(kb.articles, a);
    RootInSubtree(kb.articles, a);
    MoveCarriesBranch(kb.articles, a, parent, target, x);
    assert SubjectOk(kb, x) && QueuedOk(kb, x);
    if x in ids && History(kb, x) != [] && kb.spaces[source].SearchModel() != kb.spaces[target].SearchModel() {
      assert x in Targets(dropped, target, ids);
      assert Issued(x, Latest(History(kb, x)).id, target, kb.spaces[target].SearchModel()) in kb'.issued;
    }
  }

  lemma MoveWithinKeepsInv(kb: State, a: int, parent: int, expectedVer: int)
    requires Inv(kb) && Live(kb.articles, a) && !IsHome(kb, a)
    requires MoveGuard(kb.articles, a, parent, kb.articles[a].space, expectedVer)
    requires parent != 0 ==> !IsHome(kb, parent)
    ensures Inv(kb.(articles := Moved(kb.articles, a, parent, kb.articles[a].space)))
  {
    var target := kb.articles[a].space;
    var moved := kb.(articles := Moved(kb.articles, a, parent, target));
    MoveKeepsForest(kb.articles, a, parent, target, expectedVer);
    MovedHomes(kb, moved, a, parent, target);
    WalksCoverBranch(kb.articles, a);
    forall x | x in moved.articles
      ensures moved.articles[x].space == kb.articles[x].space && SubjectOk(moved, x) && QueuedOk(moved, x)
    {
      assert SubjectOk(kb, x) && QueuedOk(kb, x);
      MoveCarriesBranch(kb.articles, a, parent, target, x);
    }
    forall v | v in moved.vectors ensures VectorOk(moved, v) {
      assert VectorOk(kb, v);
      MoveCarriesBranch(kb.articles, a, parent, target, v.article);
    }
  }

  lemma MovedRowsQueued(kb: State, a: int, parent: int, source: int, target: int, expectedVer: int)
    requires Inv(kb) && MoveGuard(kb.articles, a, parent, target, expectedVer)
    requires source == kb.articles[a].space && target in kb.spaces
    ensures var kb' := IndexMoved(kb.(articles := Moved(kb.articles, a, parent, target)), source, target, a,
                                  Subtree(kb.articles, a));
            ShapeOk(kb') && HistoriesOk(kb') && AllQueued(kb')
  {
    var moved := kb.(articles := Moved(kb.articles, a, parent, target));
    var kb' := IndexMoved(moved, source, target, a, Subtree(kb.articles, a));
    MoveKeepsForest(kb.articles, a, parent, target, expectedVer);
    SamePlacesKeepForest(moved.articles, kb'.articles);
    forall x | x in kb'.articles
      ensures kb'.articles[x].space in kb'.spaces && SubjectOk(kb', x) && QueuedOk(kb', x)
    {
      MovedRowQueued(kb, a, parent, source, target, x);
    }
  }

  /** The work on the index after a move rewrites content only. */
  lemma IndexMovedKeepsPlace(kb: State, source: int, target: int, root: int, ids: set<int>, a: int)
    requires source in kb.spaces && target in kb.spaces
    ensures var kb' := IndexMoved(kb, source, target, root, ids);
            && kb'.spaces == kb.spaces && kb'.nextArticle == kb.nextArticle && History(kb', a) == History(kb, a)
            && kb'.articles.Keys == kb.articles.Keys
            && (a in kb.articles ==> kb'.articles[a] == kb.articles[a].(content := kb'.articles[a].content)
                                     && kb'.articles[a].content.typ == kb.articles[a].content.typ)
            && (a in kb.articles && kb.articles[a].space != target ==> kb'.articles[a] == kb.articles[a])
  {
  }

  lemma MoveAcrossHomes(kb: State, a: int, parent: int, source: int, target: int)
    requires Inv(kb) && Live(kb.articles, a) && !IsHome(kb, a)
    requires parent != 0 ==> Live(kb.articles, parent) && !IsHome(kb, parent)
    requires source in kb.spaces && target in kb.spaces
    ensures HomesOk(IndexMoved(kb.(articles := Moved(kb.articles, a, parent, target)), source, target, a,
                               Subtree(kb.articles, a)))
  {
    var moved := kb.(articles := Moved(kb.articles, a, parent, target));
    var ids := Subtree(kb.articles, a);
    var kb' := IndexMoved(moved, source, target, a, ids);
    IndexMovedKeepsPlace(moved, source, target, a, ids, a);
    forall x | x in kb.articles
      ensures kb'.articles[x] == moved.articles[x].(content := kb'.articles[x].content)
      ensures kb'.articles[x].content.typ == moved.articles[x].content.typ
    {
      IndexMovedKeepsPlace(moved, source, target, a, ids, x);
    }
    MovedHomes(kb, kb', a, parent, target);
  }

  lemma MoveAcrossKeepsInv(kb: State, a: int, parent: int, source: int, target: int, expectedVer: int)
    requires Inv(kb) && MoveGuard(kb.articles, a, parent, target, expectedVer) && !IsHome(kb, a)
    requires parent != 0 ==> !IsHome(kb, parent)
    requires source == kb.articles[a].space && target in kb.spaces
    ensures Inv(IndexMoved(kb.(articles := Moved(kb.articles, a, parent, target)), source, target, a,
                           Subtree(kb.articles, a)))
  {
    MovedRowsQueued(kb, a, parent, source, target, expectedVer);
    MoveAcrossHomes(kb, a, parent, source, target);
    MovedVectors(kb, a, parent, source, target);
  }

  lemma MoveKeepsInv(kb: State, domain: int, a: int, parent: int, space: int, mayCreate: bool, expectedVer: int)
    requires Inv(kb) && MoveArticle(kb, domain, a, parent, space, mayCreate, expectedVer).Done?
    ensures Inv(MoveArticle(kb, domain, a, parent, space, mayCreate, expectedVer).next)
  {
    var (target, _) := MoveTarget(kb, domain, a, parent, space);
    var source := kb.articles[a].space;
    if target == source {
      MoveWithinKeepsInv(kb, a, parent, expectedVer);
    } else {
      MoveAcrossKeepsInv(kb, a, parent, source, target, expectedVer);
    }
  }

  lemma CreateSpaceKeepsInv(kb: State, domain: int, input: SpaceInput, modelsOk: bool)
    requires Inv(kb) && CreateSpace(kb, domain, input, modelsOk).Done?
    ensures Inv(CreateSpace(kb, domain, input, modelsOk).next)
  {
    var kb' := CreateSpace(kb, domain, input, modelsOk).next;
    forall x | x in kb'.articles ensures SubjectOk(kb', x) && QueuedOk(kb', x) {
      assert SubjectOk(kb, x) && QueuedOk(kb, x);
    }
    forall s | s in kb'.spaces ensures HomeOk(kb', s) {
      if s in kb.spaces { assert HomeOk(kb, s); }
    }
    forall v | v in kb'.vectors ensures VectorOk(kb', v) {
      assert VectorOk(kb, v);
    }
  }

  lemma RewrittenRowQueued(kb: State, s: int, merged: Space, x: int)
    requires Inv(kb) && s in kb.spaces && x in kb.articles
    ensures var kb' := SpaceRewritten(kb, s, merged);
            x in kb'.articles && kb'.articles[x].space in kb'.spaces && SubjectOk(kb', x) && QueuedOk(kb', x)
  {
    var kb1 := kb.(spaces := kb.spaces[s := merged]);
    var kb' := SpaceRewritten(kb, s, merged);
    assert SubjectOk(kb, x) && QueuedOk(kb, x);
    if kb.articles[x].live && kb.articles[x].space == s && History(kb, x) != []
       && merged.SearchModel() != kb.spaces[s].SearchModel() {
      assert x in Targets(kb1, s, {});
      assert Issued(x, Latest(History(kb, x)).id, s, merged.SearchModel()) in kb'.issued;
    }
  }

  lemma SpaceRewrittenHomes(kb: State, s: int, merged: Space)
    requires Inv(kb) && s in kb.spaces && merged.home == kb.spaces[s].home
    ensures HomesOk(SpaceRewritten(kb, s, merged))
  {
    var kb' := SpaceRewritten(kb, s, merged);
    forall r | r in kb'.spaces ensures HomeOk(kb', r) {
      assert HomeOk(kb, r);
    }
  }

  lemma SpaceRewrittenVectors(kb: State, s: int, merged: Space)
    requires Inv(kb) && s in kb.spaces
    ensures VectorsOk(SpaceRewritten(kb, s, merged))
  {
    var kb' := SpaceRewritten(kb, s, merged);
    forall v | v in kb'.vectors ensures VectorOk(kb', v) {
      assert VectorOk(kb, v);
    }
  }

  lemma SpaceRewrittenKeepsInv(kb: State, s: int, merged: Space)
    requires Inv(kb) && s in kb.spaces && merged.home == kb.spaces[s].home
    ensures Inv(SpaceRewritten(kb, s, merged))
  {
    SpaceRewrittenHomes(kb, s, merged);
    SpaceRewrittenVectors(kb, s, merged);
    var kb' := SpaceRewritten(kb, s, merged);
    SamePlacesKeepForest(kb.articles, kb'.articles);
    forall x | x in kb'.articles
      ensures kb'.articles[x].space in kb'.spaces && SubjectOk(kb', x) && QueuedOk(kb', x)
    {
      RewrittenRowQueued(kb, s, merged, x);
    }
  }

  lemma UpdateSpaceKeepsInv(kb: State, domain: int, s: int, input: SpaceInput, mask: set<SpaceField>, modelsOk: bool)
    requires Inv(kb) && UpdateSpace(kb, domain, s, input, mask, modelsOk).Done?
    ensures Inv(UpdateSpace(kb, domain, s, input, mask, modelsOk).next)
  {
    SpaceRewrittenKeepsInv(kb, s, MergeSpace(kb.spaces[s], input, mask));
  }

  /** Purging a space leaves no row without its parent: the cascade of the
      foreign keys has nothing left to remove. */
  lemma PurgeStaysInSpace(kb: State, s: int, x: int)
    requires Inv(kb) && x in kb.articles && kb.articles[x].parent != 0
    ensures x in RowsOf(kb, s) <==> kb.articles[x].parent in RowsOf(kb, s)
  {
    assert RowOk(kb.articles, x);
  }

  lemma DeleteSpaceKeepsInv(kb: State, domain: int, s: int)
    requires Inv(kb) && DeleteSpace(kb, domain, s).Done?
    ensures Inv(DeleteSpace(kb, domain, s).next)
  {
    var kb' := DeleteSpace(kb, domain, s).next;
    forall x | x in kb'.articles
        ensures RowOk(kb'.articles, x) && SubjectOk(kb', x) && kb'.articles[x].space in kb'.spaces {
      assert RowOk(kb.articles, x) && SubjectOk(kb, x);
      if kb.articles[x].parent != 0 { PurgeStaysInSpace(kb, s, x); }
    }
    var rank: map<int, nat> :| Ranked(kb.articles, rank);
    assert Ranked(kb'.articles, rank);
    forall x | x in kb'.articles ensures QueuedOk(kb', x) {
      assert QueuedOk(kb, x);
    }
    forall r | r in kb'.spaces ensures HomeOk(kb', r) {
      assert HomeOk(kb, r);
    }
    forall v | v in kb'.vectors ensures VectorOk(kb', v) {
      assert VectorOk(kb, v);
    }
  }

  lemma PipelineKeepsInv(kb: State, a: int, index: IndexState)
    requires Inv(kb)
    ensures SetIndexState(kb, a, index).Done? ==> Inv(SetIndexState(kb, a, index).next)
    ensures StoreVector(kb, a).Done? ==> Inv(StoreVector(kb, a).next)
  {
    if SetIndexState(kb, a, index).Done? {
      assert SubjectOk(kb, a);
      ContentKeepsInv(kb, SetIndexState(kb, a, index).next, a);
    }
    if StoreVector(kb, a).Done? {
      var kb' := StoreVector(kb, a).next;
      forall x | x in kb'.articles ensures SubjectOk(kb', x) && QueuedOk(kb', x) {
        assert SubjectOk(kb, x) && QueuedOk(kb, x);
      }
      forall s | s in kb'.spaces ensures HomeOk(kb', s) {
        assert HomeOk(kb, s);
      }
      forall v | v in kb'.vectors ensures VectorOk(kb', v) {
        if v in kb.vectors { assert VectorOk(kb, v); }
      }
    }
  }

  // --------------------------------------------------------------------- runs

  /** One committed call of any kind keeps the whole invariant. */
  lemma CallKeepsInv(kb: State, domain: int, call: Call)
    requires Inv(kb)
    ensures Inv(After(kb, domain, call))
  {
    if Serve(kb, domain, call).Done? {
      match call
      case CallCreate(input) => CreateKeepsInv(kb, domain, input);
      case CallUpdate(a, input, ver) => UpdateKeepsInv(kb, domain, a, input, ver);
      case CallRestore(a, number) => RestoreKeepsInv(kb, domain, a, number);
      case CallReindex(a, ver) => ReindexKeepsInv(kb, domain, a, ver);
      case CallDelete(a, ver) => DeleteKeepsInv(kb, domain, a, ver);
      case CallMove(a, parent, space, mayCreate, ver) =>
        MoveKeepsInv(kb, domain, a, parent, space, mayCreate, ver);
      case CallCreateSpace(input, modelsOk) => CreateSpaceKeepsInv(kb, domain, input, modelsOk);
      case CallUpdateSpace(s, input, mask, modelsOk) => UpdateSpaceKeepsInv(kb, domain, s, input, mask, modelsOk);
      case CallDeleteSpace(s) => DeleteSpaceKeepsInv(kb, domain, s);
      case PipelineState(a, index) => PipelineKeepsInv(kb, a, index);
      case PipelineVector(a) => PipelineKeepsInv(kb, a, Pending);
    }
  }

  lemma EmptyHasInv()
    ensures Inv(EMPTY)
  {
    assert Ranked(EMPTY.articles, map[]);
  }

  lemma {:induction false} RunKeepsInv(kb: State, requests: seq<Request>)
    requires Inv(kb)
    ensures Inv(Run(kb, requests))
    decreases |requests|
  {
    if requests != [] {
      CallKeepsInv(kb, requests[0].domain, requests[0].call);
      RunKeepsInv(After(kb, requests[0].domain, requests[0].call), requests[1..]);
    }
  }

  /** Every state a run of calls reaches from the empty base, in any order and
      for any domains, has the forest, version, home, queue and vector invariants. */
  lemma EveryRunKeepsInv(requests: seq<Request>)
    ensures Inv(Run(EMPTY, requests))
  {
    EmptyHasInv();
    RunKeepsInv(EMPTY, requests);
  }
}
