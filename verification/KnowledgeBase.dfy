/** The article and space services: each method is one transaction body, running
    its statements in order over the tables and rolling back when it refuses. */
module KnowledgeBaseService {
  import opened Wrappers
  import opened Forest
  import opened Kb
  import opened ArticleQueries
  import Text

  /** The method did what the specified outcome says. */
  predicate Agrees(outcome: Outcome, before: State, after: State, refusal: Option<Error>) {
    match outcome
    case Done(next) => refusal == None && after == next
    case Refused(error) => refusal == Some(error) && after == before
  }

  lemma OneMoreEvent(kb: State, rows: set<int>, a: int, space: int)
    requires (forall x | x in rows + {a} :: History(kb, x) != []) && space in kb.spaces && a !in rows
    ensures multiset(LatestEvents(kb, rows + {a}, space))
         == multiset(LatestEvents(kb, rows, space)) + multiset{LatestEvent(kb, a, space)}
  {
    assert LatestEvents(kb, rows + {a}, space) == LatestEvents(kb, rows, space) + {LatestEvent(kb, a, space)};
    assert LatestEvent(kb, a, space) !in LatestEvents(kb, rows, space);
  }

  class KnowledgeBase {
    var articles: Table
    var histories: map<int, seq<Version>>
    var spaces: map<int, Space>
    var issued: multiset<Issued>
    var vectors: map<VectorKey, int>
    var nextArticle: int
    var nextVersion: int
    var nextSpace: int

    constructor ()
      ensures Now() == EMPTY
    {
      articles, histories, spaces, issued, vectors := map[], map[], map[], multiset{}, map[];
      nextArticle, nextVersion, nextSpace := 1, 1, 1;
    }

    function Now(): State
      reads this
    {
      State(articles, histories, spaces, issued, vectors, nextArticle, nextVersion, nextSpace)
    }

    method Rollback(saved: State)
      modifies this
      ensures Now() == saved
    {
      articles, histories, spaces, issued, vectors :=
        saved.articles, saved.histories, saved.spaces, saved.issued, saved.vectors;
      nextArticle, nextVersion, nextSpace := saved.nextArticle, saved.nextVersion, saved.nextSpace;
    }

    // ------------------------------------------------------------ statements

    method InsertRow(parent: int, space: int, content: Content) returns (id: int)
      requires parent != 0 ==> parent in articles
      modifies this`articles, this`nextArticle
      ensures id == old(nextArticle) && nextArticle == id + 1
      ensures articles == Inserted(old(articles), id, parent, space, content)
    {
      id := nextArticle;
      var depth := if parent == 0 then 1 else articles[parent].depth + 1;
      articles := articles[id := Article(parent, depth, space, 0, true, content)];
      nextArticle := nextArticle + 1;
    }

    /** SetHome claims the home page only while there is none. */
    method SetHome(space: int, id: int) returns (claimed: bool)
      requires space in spaces
      modifies this`spaces
      ensures claimed == (old(spaces)[space].home == 0)
      ensures spaces == if claimed then old(spaces)[space := old(spaces)[space].(home := id)] else old(spaces)
    {
      claimed := spaces[space].home == 0;
      if claimed {
        spaces := spaces[space := spaces[space].(home := id)];
      }
    }

    method CreateVersion(a: int, subject: string, body: string, restoredFrom: int) returns (id: int)
      modifies this`histories, this`nextVersion
      ensures id == old(nextVersion) && Now() == AppendVersion(old(Now()), a, subject, body, restoredFrom)
    {
      id := nextVersion;
      nextVersion := nextVersion + 1;
      var h := if a in histories then histories[a] else [];
      var last := 0;
      for i := 0 to |h|
        invariant last == MaxNumber(h[..i])
      {
        assert h[..i + 1][..i] == h[..i];
        if h[i].number > last {
          last := h[i].number;
        }
      }
      assert h[..|h|] == h;
      histories := histories[a := h + [Version(id, last + 1, subject, body, restoredFrom)]];
    }

    method PublishReindex(a: int, version: int, space: int)
      requires space in spaces
      modifies this`issued
      ensures Now() == Publish(old(Now()), a, version, space)
    {
      var searched := if spaces[space].vectorSearch then spaces[space].embedding else 0;
      issued := issued + multiset{Issued(a, version, space, searched)};
    }

    /** The guarded rewrite of one row. */
    method UpdateRow(a: int, content: Content, expectedVer: int) returns (written: bool)
      requires a in articles
      modifies this`articles
      ensures written == (old(articles)[a].ver == expectedVer)
      ensures Now() == if written then WithContent(old(Now()), a, content) else old(Now())
    {
      written := articles[a].ver == expectedVer;
      if written {
        articles := articles[a := articles[a].(ver := articles[a].ver + 1, content := content)];
      }
    }

    method MarkArticlesPending(space: int, ids: set<int>) returns (targets: set<int>)
      requires space in spaces
      modifies this`articles
      ensures targets == Targets(old(Now()), space, ids)
      ensures articles == SpaceReindexed(old(Now()), space, ids).articles
    {
      targets := set a | a in articles && articles[a].live && articles[a].space == space
                         && a in histories && histories[a] != [] && (ids == {} || a in ids);
      assert targets == Targets(Now(), space, ids);
      articles := map a | a in articles ::
        if a in targets then articles[a].(content := articles[a].content.(index := Pending)) else articles[a];
    }

    /** One event a target, in whatever order the targets came back. */
    method PublishLatest(targets: set<int>, space: int)
      requires space in spaces && forall a | a in targets :: History(Now(), a) != []
      modifies this`issued
      ensures issued == old(issued) + multiset(LatestEvents(old(Now()), targets, space))
    {
      ghost var kb := Now();
      var left := targets;
      ghost var sent: set<int> := {};
      while left != {}
        invariant left + sent == targets && left !! sent
        invariant issued == kb.issued + multiset(LatestEvents(kb, sent, space))
        decreases left
      {
        assert (forall x :: x !in left) ==> left == {};
        var a :| a in left;
        var h := histories[a];
        OneMoreEvent(kb, sent, a, space);
        PublishReindex(a, h[|h| - 1].id, space);
        sent := sent + {a};
        left := left - {a};
      }
      assert sent == targets;
    }

    method RequestSpaceReindex(space: int, ids: set<int>)
      requires space in spaces
      modifies this`articles, this`issued
      ensures Now() == SpaceReindexed(old(Now()), space, ids)
    {
      ghost var kb := Now();
      var targets := MarkArticlesPending(space, ids);
      ghost var marked := Now();
      assert LatestEvents(marked, targets, space) == LatestEvents(kb, targets, space);
      PublishLatest(targets, space);
    }

    method DropForeign(space: int, keep: int, ids: set<int>)
      modifies this`vectors
      ensures Now() == ForeignDropped(old(Now()), space, keep, ids)
    {
      vectors := map v | v in vectors
        && !(vectors[v] == space && v.model != keep && (ids == {} || v.article in ids)) :: vectors[v];
    }

    method Rescope(root: int)
      requires Wf(articles) && root in articles
      modifies this`vectors
      ensures Now() == Rescoped(old(Now()), root)
    {
      var branch := BranchQuery(articles, root);
      vectors := map v | v in vectors ::
        if v.article in branch && v.article in articles then articles[v.article].space else vectors[v];
    }

    /** deleteArticleCTEs: nothing happens when the guard of the root misses. */
    method DeleteSubtree(a: int, expectedVer: int) returns (deleted: bool)
      requires Wf(articles) && Live(articles, a)
      modifies this`articles, this`spaces
      ensures deleted == (old(articles)[a].ver == expectedVer)
      ensures articles == if deleted then Deleted(old(articles), a) else old(articles)
      ensures spaces == if deleted then (map s | s in old(spaces) ::
                          if old(spaces)[s].home in Subtree(old(articles), a) then old(spaces)[s].(home := 0)
                          else old(spaces)[s]) else old(spaces)
    {
      deleted := articles[a].ver == expectedVer;
      if deleted {
        var levels := SubtreeQuery(articles, a);
        articles := map x | x in articles ::
          if x in levels then articles[x].(live := false, content := articles[x].content.(state := Inactive))
          else articles[x];
        spaces := map s | s in spaces ::
          if spaces[s].home in levels then spaces[s].(home := 0) else spaces[s];
      }
    }

    /** moveSubtreeCTEs: the walks, the guard of the root, then the three updates. */
    method MoveSubtree(a: int, parent: int, space: int, expectedVer: int) returns (moved: bool)
      requires Wf(articles) && Live(articles, a)
      modifies this`articles
      ensures moved <==> MoveGuard(old(articles), a, parent, space, expectedVer)
      ensures articles == if moved then Moved(old(articles), a, parent, space) else old(articles)
    {
      var levels := SubtreeQuery(articles, a);
      var buried := BuriedQuery(articles, a, levels.Keys);
      RootInSubtree(articles, a);
      moved := articles[a].ver == expectedVer;
      if moved && parent != 0 {
        moved := parent in articles && articles[parent].live && articles[parent].space == space
                 && parent != a && parent !in levels;
      }
      if moved {
        var base := if parent == 0 then 1 else articles[parent].depth + 1;
        moved := forall x | x in levels :: base + levels[x] <= MAX_DEPTH;
        if moved {
          articles := map x | x in articles ::
            if x == a then Article(parent, base, space, articles[x].ver + 1, articles[x].live, articles[x].content)
            else if x in levels then articles[x].(depth := base + levels[x], space := space)
            else if x in buried then articles[x].(space := space)
            else articles[x];
        }
      }
    }

    // ----------------------------------------------------------- transactions

    method CreateArticle(domain: int, input: CreateInput) returns (refusal: Option<Error>)
      modifies this
      ensures Agrees(Kb.CreateArticle(old(Now()), domain, input), old(Now()), Now(), refusal)
    {
      var saved := Now();
      var subject := Text.TrimSpace(input.subject);
      if subject == "" {
        return Some(SubjectRequired);
      }
      refusal := ValidateHome(input);
      if refusal.Some? {
        return;
      }
      if input.parent != 0 {
        refusal := CheckDepth(Now(), domain, input.parent, 0);
        if refusal.Some? {
          return;
        }
      }
      if !SpaceVisible(Now(), domain, input.space)
         || (input.parent != 0 && articles[input.parent].space != input.space) {
        return Some(NotFound);
      }
      var id := InsertRow(input.parent, input.space,
          Content(GetOr(input.typ, Page), GetOr(input.state, Draft), subject, Pending));
      if input.home {
        var claimed := SetHome(input.space, id);
        if !claimed {
          Rollback(saved);
          return Some(HomeExists);
        }
      }
      assert Now() == Placed(saved, input, subject);
      if input.body != "" {
        var version := CreateVersion(id, subject, input.body, 0);
        PublishReindex(id, version, input.space);
      }
    }

    method UpdateArticle(domain: int, a: int, input: UpdateInput, expectedVer: int) returns (refusal: Option<Error>)
      modifies this
      ensures Agrees(Kb.UpdateArticle(old(Now()), domain, a, input, expectedVer), old(Now()), Now(), refusal)
    {
      var subject := Text.TrimSpace(input.subject);
      if subject == "" && input.subjectMasked {
        return Some(SubjectRequired);
      }
      if !Visible(Now(), domain, a) {
        return Some(NotFound);
      }
      refusal := RejectImmutable(Now(), a, input);
      if refusal.Some? {
        return;
      }
      var current := articles[a];
      var merged := Merge(current.content, subject, input.typ, input.state);
      if !CanChangeState(current.content.state, merged.state) {
        return Some(StateTransition);
      }
      if IsHome(Now(), a) && merged.typ == Faq {
        return Some(HomeType);
      }
      var next: Option<string> := None;
      if input.body != "" {
        next := Some(input.body);
      } else if merged.subject != current.content.subject {
        next := RetitleLatest(a);
      }
      var written := WriteRevision(a, merged, next, expectedVer);
      refusal := if written then None else Some(VersionConflict);
    }

    /** retitleLatest: the latest body, to go on under a new subject. */
    method RetitleLatest(a: int) returns (body: Option<string>)
      ensures body == if History(Now(), a) == [] then None else Some(Latest(History(Now(), a)).body)
    {
      var h := if a in histories then histories[a] else [];
      body := if h == [] then None else Some(h[|h| - 1].body);
    }

    /** The row, then the next version and its event when there is a next body. */
    method WriteRevision(a: int, merged: Content, next: Option<string>, expectedVer: int) returns (written: bool)
      requires a in articles && articles[a].space in spaces
      modifies this
      ensures written == (old(articles)[a].ver == expectedVer)
      ensures Now() == if written then Revised(old(Now()), a, merged, next) else old(Now())
    {
      written := UpdateRow(a, if next.Some? then merged.(index := Pending) else merged, expectedVer);
      if written && next.Some? {
        var version := CreateVersion(a, merged.subject, next.value, 0);
        PublishReindex(a, version, articles[a].space);
      }
    }

    method RestoreVersion(domain: int, a: int, number: int) returns (refusal: Option<Error>)
      modifies this
      ensures Agrees(Kb.RestoreVersion(old(Now()), domain, a, number), old(Now()), Now(), refusal)
    {
      if !Visible(Now(), domain, a) {
        return Some(NotFound);
      }
      var current := articles[a];
      var source := FindNumber(History(Now(), a), number);
      if source.None? {
        return Some(NotFound);
      }
      var version := CreateVersion(a, source.value.subject, source.value.body, source.value.id);
      var aligned := Merge(current.content, source.value.subject, None, None).(index := Pending);
      var written := UpdateRow(a, aligned, current.ver);
      PublishReindex(a, version, current.space);
      refusal := None;
    }

    method Reindex(domain: int, a: int, expectedVer: int) returns (refusal: Option<Error>)
      modifies this
      ensures Agrees(Kb.Reindex(old(Now()), domain, a, expectedVer), old(Now()), Now(), refusal)
    {
      if !Visible(Now(), domain, a) {
        return Some(NotFound);
      }
      var current := articles[a];
      if current.content.index != Failed {
        return Some(ReindexNotFailed);
      }
      var h := History(Now(), a);
      if h == [] {
        return Some(ReindexNoVersion);
      }
      var written := UpdateRow(a, current.content.(index := Pending), expectedVer);
      if !written {
        return Some(VersionConflict);
      }
      PublishReindex(a, h[|h| - 1].id, current.space);
      refusal := None;
    }

    method DeleteArticle(domain: int, a: int, expectedVer: int) returns (refusal: Option<Error>)
      requires Wf(articles)
      modifies this
      ensures Agrees(Kb.DeleteArticle(old(Now()), domain, a, expectedVer), old(Now()), Now(), refusal)
    {
      if !Visible(Now(), domain, a) {
        return Some(NotFound);
      }
      var deleted := DeleteSubtree(a, expectedVer);
      refusal := if deleted then None else Some(VersionConflict);
    }

    method MoveArticle(domain: int, a: int, parent: int, space: int, mayCreate: bool, expectedVer: int)
      returns (refusal: Option<Error>)
      requires Wf(articles)
      modifies this
      ensures Agrees(Kb.MoveArticle(old(Now()), domain, a, parent, space, mayCreate, expectedVer), old(Now()), Now(),
          refusal)
    {
      if !Visible(Now(), domain, a) {
        return Some(NotFound);
      }
      var source := articles[a].space;
      var (target, unresolved) := MoveTarget(Now(), domain, a, parent, space);
      if unresolved.Some? {
        return unresolved;
      }
      if target != source && !mayCreate {
        return Some(MoveCreateDenied);
      }
      if IsHome(Now(), a) {
        return Some(HomeMove);
      }
      if target != source {
        if !SpaceVisible(Now(), domain, target) {
          return Some(NotFound);
        }
        if spaces[source].language != spaces[target].language {
          return Some(MoveLanguage);
        }
      }
      var nodes := ListSubtree(articles, a);
      if parent != 0 {
        refusal := CheckMoveTarget(Now(), domain, a, nodes, parent, target);
        if refusal.Some? {
          return;
        }
      }
      var conflict := articles[a].ver != expectedVer;
      var moved := MoveSubtree(a, parent, target, expectedVer);
      if !moved {
        return Some(if conflict then VersionConflict else MoveRejected);
      }
      refusal := None;
      if target != source {
        MoveIndex(source, target, a, nodes, old(Now()), parent, expectedVer);
      }
    }

    /** moveIndex over the listed subtree. */
    method MoveIndex(source: int, target: int, root: int, nodes: seq<SubtreeNode>,
                     ghost before: State, ghost parent: int, ghost ver: int)
      requires Wf(before.articles) && MoveGuard(before.articles, root, parent, target, ver)
      requires Lists(nodes, before.articles, root)
      requires Now() == before.(articles := Moved(before.articles, root, parent, target))
      requires source in spaces && target in spaces
      modifies this
      ensures Now() == IndexMoved(old(Now()), source, target, root, Subtree(before.articles, root))
    {
      MoveKeepsForest(before.articles, root, parent, target, ver);
      Rescope(root);
      var ids := set i | 0 <= i < |nodes| :: nodes[i].id;
      assert ids == Subtree(before.articles, root) by {
        forall x | x in Subtree(before.articles, root) ensures x in ids {
          assert SubtreeNode(x, before.articles[x].depth) in nodes;
        }
      }
      DropForeign(target, spaces[target].embedding, ids);
      if spaces[source].SearchModel() != spaces[target].SearchModel() {
        RequestSpaceReindex(target, ids);
      }
    }

    method CreateSpace(domain: int, input: SpaceInput, modelsOk: bool) returns (refusal: Option<Error>)
      modifies this
      ensures Agrees(Kb.CreateSpace(old(Now()), domain, input, modelsOk), old(Now()), Now(), refusal)
    {
      if input.rerank && input.reranker == 0 {
        return Some(RerankerRequired);
      }
      if (input.embedding != 0 || input.reranker != 0) && !modelsOk {
        return Some(ModelRefused);
      }
      spaces := spaces[nextSpace := Space(domain, input.language, 0, input.embedding, input.reranker,
                                          input.vectorSearch, input.rerank)];
      nextSpace := nextSpace + 1;
      refusal := None;
    }

    method UpdateSpace(domain: int, s: int, input: SpaceInput, mask: set<SpaceField>, modelsOk: bool)
      returns (refusal: Option<Error>)
      modifies this
      ensures Agrees(Kb.UpdateSpace(old(Now()), domain, s, input, mask, modelsOk), old(Now()), Now(), refusal)
    {
      if !SpaceVisible(Now(), domain, s) {
        return Some(NotFound);
      }
      var current := spaces[s];
      var merged := MergeSpace(current, input, mask);
      if merged.language != current.language {
        return Some(LanguageImmutable);
      }
      if merged.rerank && merged.reranker == 0 {
        return Some(RerankerRequired);
      }
      var embeddingToValidate := if merged.embedding == current.embedding then 0 else merged.embedding;
      var rerankerToValidate := if merged.reranker == current.reranker then 0 else merged.reranker;
      if (embeddingToValidate != 0 || rerankerToValidate != 0) && !modelsOk {
        return Some(ModelRefused);
      }
      spaces := spaces[s := merged];
      if merged.SearchModel() != current.SearchModel() {
        RequestSpaceReindex(s, {});
      }
      if merged.embedding != current.embedding {
        DropForeign(s, merged.embedding, {});
      }
      refusal := None;
    }

    method DeleteSpace(domain: int, s: int) returns (refusal: Option<Error>)
      modifies this
      ensures Agrees(Kb.DeleteSpace(old(Now()), domain, s), old(Now()), Now(), refusal)
    {
      if !SpaceVisible(Now(), domain, s) {
        return Some(NotFound);
      }
      var rows := set a | a in articles && articles[a].space == s;
      assert rows == RowsOf(Now(), s);
      if exists a | a in rows :: articles[a].live && articles[a].content.state == Active {
        return Some(ArticlesExist);
      }
      articles := articles - rows;
      histories := histories - rows;
      vectors := map v | v in vectors && v.article !in rows :: vectors[v];
      spaces := spaces - {s};
      refusal := None;
    }
  }
}
