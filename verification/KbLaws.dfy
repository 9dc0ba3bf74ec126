/** What each call of the knowledge base stores and which refusal answers which
    input, told of the tables and the arguments alone. */
module KbLaws {
  import opened Wrappers
  import opened Forest
  import opened Kb
  import opened KbInvariants
  import opened KbHistory
  import opened ArticleQueries
  import Text

  // -------------------------------------------------------------- vocabulary

  /** A live article in a space of the domain. */
  predicate Found(kb: State, domain: int, a: int) {
    a in kb.articles && kb.articles[a].live && kb.articles[a].space in kb.spaces
    && kb.spaces[kb.articles[a].space].domain == domain
  }

  predicate SpaceFound(kb: State, domain: int, s: int) {
    s in kb.spaces && kb.spaces[s].domain == domain
  }

  /** The model a space searches with, 0 for none. */
  function Searched(kb: State, s: int): int
    requires s in kb.spaces
  {
    if kb.spaces[s].vectorSearch then kb.spaces[s].embedding else 0
  }

  /** The article is the home page of its space. */
  predicate HomePage(kb: State, a: int) {
    a in kb.articles && kb.articles[a].space in kb.spaces && kb.spaces[kb.articles[a].space].home == a
  }

  /** The outcome is this refusal exactly under this condition. */
  predicate Answers(outcome: Outcome, error: Error, condition: bool) {
    outcome == Refused(error) <==> condition
  }

  /** Nothing but the article a, its history and the queue has changed. */
  predicate OnlyArticle(kb: State, next: State, a: int) {
    && next.articles.Keys == kb.articles.Keys + {a}
    && (forall x | x in kb.articles && x != a :: next.articles[x] == kb.articles[x])
    && (forall x | x in kb.histories && x != a :: x in next.histories && next.histories[x] == kb.histories[x])
    && (forall x | x in next.histories && x != a :: x in kb.histories)
    && next.vectors == kb.vectors && next.nextSpace == kb.nextSpace
  }

  /** A version under the next number and id joins the history of a and is queued for
      the space, with the model that searches. */
  predicate NewVersion(kb: State, next: State, a: int, space: int, subject: string, body: string, restoredFrom: int)
    requires space in kb.spaces
  {
    var h := History(kb, a);
    && a in next.histories
    && next.histories[a] == h + [Version(kb.nextVersion, |h| + 1, subject, body, restoredFrom)]
    && next.nextVersion == kb.nextVersion + 1
    && next.issued == kb.issued + multiset{Issued(a, kb.nextVersion, space, Searched(kb, space))}
  }

  predicate NoVersion(kb: State, next: State) {
    next.histories == kb.histories && next.nextVersion == kb.nextVersion && next.issued == kb.issued
  }

  lemma VersionAdded(kb: State, kb1: State, a: int, space: int, subject: string, body: string, restoredFrom: int)
    requires kb1.histories == kb.histories && kb1.nextVersion == kb.nextVersion && kb1.issued == kb.issued
    requires space in kb.spaces && space in kb1.spaces && Searched(kb1, space) == Searched(kb, space)
    requires MaxNumber(History(kb, a)) == |History(kb, a)|
    ensures var next := Publish(AppendVersion(kb1, a, subject, body, restoredFrom), a, kb.nextVersion, space);
            && NewVersion(kb, next, a, space, subject, body, restoredFrom)
            && next == kb1.(histories := next.histories, nextVersion := next.nextVersion, issued := next.issued)
            && next.histories == kb.histories[a := next.histories[a]]
  {
  }

  /** The row of a has this content under the next version, and only a has changed. */
  predicate Rewrote(kb: State, next: State, a: int, content: Content)
    requires a in kb.articles
  {
    && OnlyArticle(kb, next, a) && next.spaces == kb.spaces && next.nextArticle == kb.nextArticle
    && next.articles[a] == kb.articles[a].(ver := kb.articles[a].ver + 1, content := content)
  }

  lemma VersionedRow(kb: State, a: int, content: Content, body: string, restoredFrom: int)
    requires a in kb.articles && kb.articles[a].space in kb.spaces && MaxNumber(History(kb, a)) == |History(kb, a)|
    ensures var space, kb1 := kb.articles[a].space, WithContent(kb, a, content);
            var next := Publish(AppendVersion(kb1, a, content.subject, body, restoredFrom), a, kb.nextVersion, space);
            Rewrote(kb, next, a, content) && NewVersion(kb, next, a, space, content.subject, body, restoredFrom)
  {
    VersionAdded(kb, WithContent(kb, a, content), a, kb.articles[a].space, content.subject, body, restoredFrom);
  }

  // ----------------------------------------------------------------- creating

  /** A created article is exactly what was asked for: the trimmed subject, the body as
      its first version, the type and state given or an article in draft, one level
      below its parent; and nothing else changes but a home page that was not set. */
  lemma CreateStores(kb: State, domain: int, input: CreateInput)
    requires Inv(kb) && CreateArticle(kb, domain, input).Done?
    ensures var next, id := CreateArticle(kb, domain, input).next, kb.nextArticle;
            && id !in kb.articles && OnlyArticle(kb, next, id) && next.nextArticle == id + 1
            && (input.parent != 0 ==> input.parent in kb.articles) && input.space in kb.spaces
            && next.articles[id] == Article(
                 input.parent, if input.parent == 0 then 1 else kb.articles[input.parent].depth + 1, input.space,
                 0, true,
                 Content(if input.typ.Some? then input.typ.value else Page,
                         if input.state.Some? then input.state.value else Draft,
                         Text.TrimSpace(input.subject), Pending))
            && (if input.body != "" then
                  NewVersion(kb, next, id, input.space, Text.TrimSpace(input.subject), input.body, 0)
                else NoVersion(kb, next))
            && next.spaces
               == if input.home then kb.spaces[input.space := kb.spaces[input.space].(home := id)] else kb.spaces
  {
    var subject := Text.TrimSpace(input.subject);
    var kb1 := Placed(kb, input, subject);
    assert kb.nextArticle !in kb.histories;
    VersionAdded(kb, kb1, kb.nextArticle, input.space, subject, input.body, 0);
    assert CreateArticle(kb, domain, input).next
        == if input.body == "" then kb1
           else Publish(AppendVersion(kb1, kb.nextArticle, subject, input.body, 0),
                        kb.nextArticle, kb.nextVersion, input.space);
  }

  lemma CreateAnswers(kb: State, domain: int, input: CreateInput)
    requires Inv(kb)
    ensures var out := CreateArticle(kb, domain, input);
            var named := Text.TrimSpace(input.subject) != "";
            var top := input.parent == 0;
            var under := input.parent;
            && Answers(out, SubjectRequired, !named)
            && Answers(out, HomeNested, named && input.home && !top)
            && Answers(out, HomeType, named && input.home && top && input.typ == Some(Faq))
            && (named && !(input.home && (!top || input.typ == Some(Faq))) ==>
                  && Answers(out, HomeParent, !top && Found(kb, domain, under) && HomePage(kb, under))
                  && Answers(out, DepthExceeded,
                       !top && Found(kb, domain, under) && !HomePage(kb, under) && kb.articles[under].depth >= 5)
                  && Answers(out, NotFound,
                       if top then !SpaceFound(kb, domain, input.space)
                       else !Found(kb, domain, under)
                            || (!HomePage(kb, under) && kb.articles[under].depth < 5
                                && kb.articles[under].space != input.space))
                  && Answers(out, HomeExists,
                       SpaceFound(kb, domain, input.space) && input.home && kb.spaces[input.space].home != 0)
                  && (out.Done? <==>
                        && SpaceFound(kb, domain, input.space) && (input.home ==> kb.spaces[input.space].home == 0)
                        && (!top ==> Found(kb, domain, under) && !HomePage(kb, under) && kb.articles[under].depth < 5
                                     && kb.articles[under].space == input.space)))
  {
  }

  // ----------------------------------------------------------------- updating

  /** The subject an update leaves: the trimmed one, or the stored one without any. */
  function NewSubject(kb: State, a: int, input: UpdateInput): string
    requires a in kb.articles
  {
    var subject := Text.TrimSpace(input.subject);
    if subject != "" then subject else kb.articles[a].content.subject
  }

  /** The type stays, the state is the one given or stays, and a new version is still
      to be indexed. */
  function UpdatedContent(kb: State, a: int, input: UpdateInput, versioned: bool): Content
    requires a in kb.articles
  {
    var content := kb.articles[a].content;
    Content(content.typ, if input.state.Some? then input.state.value else content.state, NewSubject(kb, a, input),
            if versioned then Pending else content.index)
  }

  lemma UpdateSteps(kb: State, domain: int, a: int, input: UpdateInput, ver: int)
    requires UpdateArticle(kb, domain, a, input, ver).Done?
    ensures a in kb.articles && kb.articles[a].space in kb.spaces
    ensures var row, h, subject := kb.articles[a], History(kb, a), NewSubject(kb, a, input);
            UpdateArticle(kb, domain, a, input, ver).next
            == if input.body != "" || (subject != row.content.subject && h != []) then
                 Publish(AppendVersion(WithContent(kb, a, UpdatedContent(kb, a, input, true)), a, subject,
                                       if input.body != "" then input.body else h[|h| - 1].body, 0),
                         a, kb.nextVersion, row.space)
               else WithContent(kb, a, UpdatedContent(kb, a, input, false))
  {
  }

  /** A given body is stored as it was given, under the subject the article then has;
      a new subject without a body goes on with the latest one, if there is any; and
      anything else leaves history and queue alone. */
  lemma UpdateStores(kb: State, domain: int, a: int, input: UpdateInput, ver: int)
    requires Inv(kb) && UpdateArticle(kb, domain, a, input, ver).Done?
    ensures var next := UpdateArticle(kb, domain, a, input, ver).next;
            && a in kb.articles && kb.articles[a].space in kb.spaces
            && (var row, h := kb.articles[a], History(kb, a);
                var subject := NewSubject(kb, a, input);
                var versioned := input.body != "" || (subject != row.content.subject && h != []);
                && Rewrote(kb, next, a, UpdatedContent(kb, a, input, versioned))
                && (if versioned then
                      NewVersion(kb, next, a, row.space, subject,
                                 if input.body != "" then input.body else h[|h| - 1].body, 0)
                    else NoVersion(kb, next)))
  {
    var h := History(kb, a);
    UpdateSteps(kb, domain, a, input, ver);
    MaxNumberIsLength(h, kb.nextVersion);
    if input.body != "" || h != [] {
      VersionedRow(kb, a, UpdatedContent(kb, a, input, true), if input.body != "" then input.body else h[|h| - 1].body,
          0);
    }
  }

  lemma UpdateAnswers(kb: State, domain: int, a: int, input: UpdateInput, ver: int)
    requires Inv(kb)
    ensures var out := UpdateArticle(kb, domain, a, input, ver);
            var named := Text.TrimSpace(input.subject) != "" || !input.subjectMasked;
            && Answers(out, SubjectRequired, !named)
            && Answers(out, NotFound, named && !Found(kb, domain, a))
            && (named && Found(kb, domain, a) ==>
                  var row := kb.articles[a];
                  var homeOk := input.home ==> HomePage(kb, a);
                  var parentOk := input.parent == 0 || input.parent == row.parent;
                  var spaceOk := input.space == 0 || input.space == row.space;
                  var typeOk := input.typ.Some? ==> input.typ.value == row.content.typ;
                  var stateOk := input.state == Some(Draft) ==> row.content.state == Draft;
                  && Answers(out, HomeImmutable, !homeOk)
                  && Answers(out, ParentImmutable, homeOk && !parentOk)
                  && Answers(out, SpaceImmutable, homeOk && parentOk && !spaceOk)
                  && Answers(out, TypeImmutable, homeOk && parentOk && spaceOk && !typeOk)
                  && Answers(out, StateTransition, homeOk && parentOk && spaceOk && typeOk && !stateOk)
                  && Answers(out, VersionConflict,
                       homeOk && parentOk && spaceOk && typeOk && stateOk && row.ver != ver)
                  && (out.Done? <==> homeOk && parentOk && spaceOk && typeOk && stateOk && row.ver == ver))
  {
    if (Text.TrimSpace(input.subject) != "" || !input.subjectMasked) && Found(kb, domain, a) {
      UpdateDecision(kb, domain, a, input, ver);
    }
  }

  /** The checks of an update, in their order. */
  lemma UpdateDecision(kb: State, domain: int, a: int, input: UpdateInput, ver: int)
    requires Inv(kb) && Found(kb, domain, a) && (Text.TrimSpace(input.subject) != "" || !input.subjectMasked)
    ensures var out, row := UpdateArticle(kb, domain, a, input, ver), kb.articles[a];
            if input.home && !HomePage(kb, a) then out == Refused(HomeImmutable)
            else if input.parent != 0 && input.parent != row.parent then out == Refused(ParentImmutable)
            else if input.space != 0 && input.space != row.space then out == Refused(SpaceImmutable)
            else if input.typ.Some? && input.typ.value != row.content.typ then out == Refused(TypeImmutable)
            else if input.state == Some(Draft) && row.content.state != Draft then out == Refused(StateTransition)
            else if row.ver != ver then out == Refused(VersionConflict)
            else out.Done?
  {
    if HomePage(kb, a) { assert HomeOk(kb, kb.articles[a].space); }
  }

  /** A restore appends what the numbered version says, marked as its copy, and gives
      the article its subject. */
  lemma RestoreStores(kb: State, domain: int, a: int, number: int)
    requires Inv(kb)
    ensures var out := RestoreVersion(kb, domain, a, number);
            var h := History(kb, a);
            && (out.Done? <==> Found(kb, domain, a) && 1 <= number <= |h|) && (out.Refused? ==> out.error == NotFound)
            && (out.Done? ==>
                  var source, row := h[number - 1], kb.articles[a];
                  && Rewrote(kb, out.next, a, Content(row.content.typ, row.content.state, source.subject, Pending))
                  && NewVersion(kb, out.next, a, row.space, source.subject, source.body, source.id))
  {
    var h := History(kb, a);
    MaxNumberIsLength(h, kb.nextVersion);
    NumbersAreOneToN(h, kb.nextVersion, number);
    if 1 <= number <= |h| { assert VersionOk(h, number - 1); }
  }

  /** Only a failed article with a version is queued again, and it is its latest one. */
  lemma ReindexQueues(kb: State, domain: int, a: int, ver: int)
    requires Inv(kb)
    ensures var out := Reindex(kb, domain, a, ver);
            var h := History(kb, a);
            && Answers(out, NotFound, !Found(kb, domain, a))
            && (Found(kb, domain, a) ==>
                  var row := kb.articles[a];
                  var failed := row.content.index == Failed;
                  && Answers(out, ReindexNotFailed, !failed)
                  && Answers(out, ReindexNoVersion, failed && h == [])
                  && Answers(out, VersionConflict, failed && h != [] && row.ver != ver)
                  && (out.Done? <==> failed && h != [] && row.ver == ver)
                  && (out.Done? ==>
                        out.next == kb.(
                          articles := kb.articles[a := row.(ver := ver + 1, content := row.content.(index := Pending))],
                          issued := kb.issued
                            + multiset{Issued(a, h[|h| - 1].id, row.space, Searched(kb, row.space))})))
  {
  }

  // ----------------------------------------------------------------- deleting

  /** The rows a walk down from a through any rows meets, the live ones. */
  ghost predicate InLiveBranch(kb: State, a: int, x: int) {
    x in Branch(kb.articles, a) && x in kb.articles && kb.articles[x].live
  }

  lemma LiveBranchIsSubtree(kb: State, a: int)
    requires Wf(kb.articles) && Live(kb.articles, a)
    ensures forall x :: InLiveBranch(kb, a, x) <==> x in Subtree(kb.articles, a)
  {
    WalksCoverBranch(kb.articles, a);
  }

  /** A delete ends the life of every row of the branch, clears the home pages among
      them, and changes nothing else. */
  lemma DeleteEnds(kb: State, domain: int, a: int, ver: int)
    requires Inv(kb)
    ensures var out := DeleteArticle(kb, domain, a, ver);
            && Answers(out, NotFound, !Found(kb, domain, a))
            && (Found(kb, domain, a) ==>
                  && Answers(out, VersionConflict, kb.articles[a].ver != ver)
                  && (out.Done? <==> kb.articles[a].ver == ver))
            && (out.Done? ==>
                  var next := out.next;
                  && next == kb.(articles := next.articles, spaces := next.spaces)
                  && next.articles.Keys == kb.articles.Keys && next.spaces.Keys == kb.spaces.Keys
                  && (forall x | x in kb.articles ::
                        next.articles[x]
                        == if InLiveBranch(kb, a, x) then
                             kb.articles[x].(live := false, content := kb.articles[x].content.(state := Inactive))
                           else kb.articles[x])
                  && (forall s | s in kb.spaces ::
                        next.spaces[s]
                        == if InLiveBranch(kb, a, kb.spaces[s].home) then kb.spaces[s].(home := 0) else kb.spaces[s]))
  {
    if Found(kb, domain, a) { LiveBranchIsSubtree(kb, a); }
  }

  // ------------------------------------------------------------------ queueing

  /** The rows go back to pending and the latest version of each is queued once. */
  ghost predicate QueuedAgain(kb: State, next: State, rows: set<int>, space: int)
    requires space in kb.spaces
  {
    && next == kb.(articles := next.articles, issued := next.issued) && next.articles.Keys == kb.articles.Keys
    && (forall x | x in kb.articles ::
          next.articles[x]
          == if x in rows then kb.articles[x].(content := kb.articles[x].content.(index := Pending))
             else kb.articles[x])
    && (forall e: Issued ::
          next.issued[e] == kb.issued[e]
            + if e.article in rows && IsLatest(kb, e, space, Searched(kb, space)) then 1 else 0)
  }

  /** The event asks for the latest version of its article. */
  predicate IsLatest(kb: State, e: Issued, space: int, model: int) {
    var h := History(kb, e.article);
    h != [] && e.version == h[|h| - 1].id && e.space == space && e.model == model
  }

  lemma ReindexedIsQueued(kb: State, space: int, ids: set<int>)
    requires space in kb.spaces
    ensures QueuedAgain(kb, SpaceReindexed(kb, space, ids), Targets(kb, space, ids), space)
  {
  }

  // ------------------------------------------------------------------- moving

  /** The space a move goes to: that of the new parent; at the top level the one named;
      without either the one the article is in. */
  function Destination(kb: State, a: int, parent: int, space: int): int
    requires a in kb.articles && (parent != 0 ==> parent in kb.articles)
  {
    if parent != 0 then kb.articles[parent].space else if space != 0 then space else kb.articles[a].space
  }

  /** Too deep: under the parent some row of the branch would pass the ceiling. */
  ghost predicate TooDeep(kb: State, a: int, parent: int)
    requires a in kb.articles && parent in kb.articles
  {
    exists x :: InLiveBranch(kb, a, x)
                && kb.articles[parent].depth + 1 + (kb.articles[x].depth - kb.articles[a].depth) > 5
  }

  lemma TooDeepExactly(kb: State, a: int, parent: int)
    requires Inv(kb) && Live(kb.articles, a) && parent in kb.articles
    ensures TooDeep(kb, a, parent) <==> kb.articles[parent].depth + 1 + Height(kb.articles, a) > MAX_DEPTH
  {
    var base := kb.articles[parent].depth + 1;
    HeightFits(kb.articles, a, base);
    LiveBranchIsSubtree(kb, a);
    forall x | x in Subtree(kb.articles, a)
      ensures Level(kb.articles, a, x) == kb.articles[x].depth - kb.articles[a].depth
    {
      LevelIsDepthDifference(kb.articles, a, x);
    }
    if TooDeep(kb, a, parent) {
      var x :| InLiveBranch(kb, a, x) && base + (kb.articles[x].depth - kb.articles[a].depth) > 5;
      assert base + Level(kb.articles, a, x) > MAX_DEPTH;
    }
    if !Fits(kb.articles, a, base) {
      var x :| x in Subtree(kb.articles, a) && base + Level(kb.articles, a, x) > MAX_DEPTH;
      assert InLiveBranch(kb, a, x);
    }
  }

  lemma MoveAnswers(kb: State, domain: int, a: int, parent: int, space: int, mayCreate: bool, ver: int)
    requires Inv(kb)
    ensures var out := MoveArticle(kb, domain, a, parent, space, mayCreate, ver);
            && (!Found(kb, domain, a) || (parent != 0 && !Found(kb, domain, parent)) ==> out == Refused(NotFound))
            && (Found(kb, domain, a) && (parent != 0 ==> Found(kb, domain, parent)) ==>
                  var from, to := kb.articles[a].space, Destination(kb, a, parent, space);
                  var nameOk := parent == 0 || space == 0 || space == kb.articles[parent].space;
                  var createOk := to == from || mayCreate;
                  var toOk := SpaceFound(kb, domain, to);
                  var early := nameOk && createOk && !HomePage(kb, a) && toOk;
                  var languageOk := toOk ==> kb.spaces[from].language == kb.spaces[to].language;
                  var cycle := parent in Branch(kb.articles, a);
                  var deep := parent != 0 && TooDeep(kb, a, parent);
                  && Answers(out, MoveParentSpace, !nameOk)
                  && Answers(out, MoveCreateDenied, nameOk && !createOk)
                  && Answers(out, HomeMove, nameOk && createOk && HomePage(kb, a))
                  && Answers(out, NotFound, nameOk && createOk && !HomePage(kb, a) && !toOk)
                  && Answers(out, MoveLanguage, early && !languageOk)
                  && Answers(out, MoveCycle, early && languageOk && cycle)
                  && Answers(out, HomeParent, early && languageOk && !cycle && HomePage(kb, parent))
                  && Answers(out, DepthExceeded, early && languageOk && !cycle && !HomePage(kb, parent) && deep)
                  && Answers(out, VersionConflict,
                       early && languageOk && !cycle && !HomePage(kb, parent) && !deep && kb.articles[a].ver != ver)
                  && (out.Done? <==>
                       early && languageOk && !cycle && !HomePage(kb, parent) && !deep && kb.articles[a].ver == ver))
  {
    if Found(kb, domain, a) && (parent != 0 ==> Found(kb, domain, parent)) {
      MoveDecision(kb, domain, a, parent, space, mayCreate, ver);
      assert 0 !in kb.articles;
    }
  }

  /** The checks of a move, in their order. */
  lemma MoveDecision(kb: State, domain: int, a: int, parent: int, space: int, mayCreate: bool, ver: int)
    requires Inv(kb) && Found(kb, domain, a) && (parent != 0 ==> Found(kb, domain, parent))
    ensures var out := MoveArticle(kb, domain, a, parent, space, mayCreate, ver);
            var from, to := kb.articles[a].space, Destination(kb, a, parent, space);
            if parent != 0 && space != 0 && space != kb.articles[parent].space then out == Refused(MoveParentSpace)
            else if to != from && !mayCreate then out == Refused(MoveCreateDenied)
            else if HomePage(kb, a) then out == Refused(HomeMove)
            else if !SpaceFound(kb, domain, to) then out == Refused(NotFound)
            else if kb.spaces[from].language != kb.spaces[to].language then out == Refused(MoveLanguage)
            else if parent in Branch(kb.articles, a) then out == Refused(MoveCycle)
            else if HomePage(kb, parent) then out == Refused(HomeParent)
            else if parent != 0 && TooDeep(kb, a, parent) then out == Refused(DepthExceeded)
            else if kb.articles[a].ver != ver then out == Refused(VersionConflict)
            else out.Done?
  {
    MoveNeverRejectedBlindly(kb, domain, a, parent, space, mayCreate, ver);
    if parent == 0 {
      assert parent !in kb.articles;
    } else {
      TargetAnswers(kb, domain, a, parent);
    }
  }

  lemma TargetAnswers(kb: State, domain: int, a: int, parent: int)
    requires Inv(kb) && Found(kb, domain, a) && Found(kb, domain, parent)
    ensures ValidateMoveTarget(kb, domain, a, parent, kb.articles[parent].space)
         == if parent in Branch(kb.articles, a) then Some(MoveCycle)
            else if HomePage(kb, parent) then Some(HomeParent)
            else if TooDeep(kb, a, parent) then Some(DepthExceeded) else None
  {
    LiveBranchIsSubtree(kb, a);
    TooDeepExactly(kb, a, parent);
  }

  /** The row of the branch needs indexing anew behind a move: it is live, has a version,
      and the spaces do not search with the same model. */
  ghost predicate Requeued(kb: State, a: int, to: int, x: int)
    requires a in kb.articles && kb.articles[a].space in kb.spaces && to in kb.spaces
  {
    InLiveBranch(kb, a, x) && History(kb, x) != [] && Searched(kb, kb.articles[a].space) != Searched(kb, to)
  }

  /** Where a row of the branch stands behind a move: only the root has a new parent and
      a new version, live rows keep their distance to it in depth, and every row is in
      the space of the root. */
  function Carried(kb: State, a: int, parent: int, to: int, x: int): Article
    requires a in kb.articles && (parent != 0 ==> parent in kb.articles) && x in kb.articles
  {
    var row := kb.articles[x];
    var depth := if parent == 0 then 1 else kb.articles[parent].depth + 1;
    row.(parent := if x == a then parent else row.parent, ver := if x == a then row.ver + 1 else row.ver,
         depth := if row.live then row.depth + (depth - kb.articles[a].depth) else row.depth, space := to)
  }

  lemma RowIsCarried(kb: State, a: int, parent: int, to: int, x: int)
    requires Wf(kb.articles) && Live(kb.articles, a) && (parent != 0 ==> parent in kb.articles) && x in kb.articles
    ensures Moved(kb.articles, a, parent, to)[x]
         == if x in Branch(kb.articles, a) then Carried(kb, a, parent, to, x) else kb.articles[x]
  {
    WalksCoverBranch(kb.articles, a);
    RootInSubtree(kb.articles, a);
    if x in Subtree(kb.articles, a) { LevelIsDepthDifference(kb.articles, a, x); }
  }

  /** The rows behind a move. */
  ghost predicate MovedRows(kb: State, next: State, a: int, parent: int, to: int)
    requires a in kb.articles && (parent != 0 ==> parent in kb.articles)
    requires kb.articles[a].space in kb.spaces && to in kb.spaces
  {
    && next.articles.Keys == kb.articles.Keys
    && forall x | x in kb.articles ::
         next.articles[x]
         == if x !in Branch(kb.articles, a) then kb.articles[x]
            else if Requeued(kb, a, to, x) then
              Carried(kb, a, parent, to, x).(content := kb.articles[x].content.(index := Pending))
            else Carried(kb, a, parent, to, x)
  }

  /** The vectors behind a move: those of the branch are scoped to its space, and of the
      live rows only those of the model of the space are left. */
  ghost predicate MovedVectorsOf(kb: State, next: State, a: int, to: int)
    requires to in kb.spaces
  {
    && (forall v | v in next.vectors :: v in kb.vectors)
    && (forall v | v in kb.vectors ::
          && (v in next.vectors <==> InLiveBranch(kb, a, v.article) ==> v.model == kb.spaces[to].embedding)
          && (v in next.vectors ==>
                next.vectors[v] == if v.article in Branch(kb.articles, a) then to else kb.vectors[v]))
  }

  /** The queue behind a move: the latest version of each row that needs it, once. */
  ghost predicate MovedQueue(kb: State, next: State, a: int, to: int)
    requires a in kb.articles && kb.articles[a].space in kb.spaces && to in kb.spaces
  {
    forall e: Issued ::
      next.issued[e] == kb.issued[e]
        + if Requeued(kb, a, to, e.article) && IsLatest(kb, e, to, Searched(kb, to)) then 1 else 0
  }

  /** A move carries the whole branch, and nothing else, under the parent asked for and
      into the space of that parent, else the one named, else its own; its vectors and
      its place in the queue follow. */
  lemma MoveStores(kb: State, domain: int, a: int, parent: int, space: int, mayCreate: bool, ver: int)
    requires Inv(kb) && MoveArticle(kb, domain, a, parent, space, mayCreate, ver).Done?
    ensures var next := MoveArticle(kb, domain, a, parent, space, mayCreate, ver).next;
            && a in kb.articles && (parent != 0 ==> parent in kb.articles) && kb.articles[a].space in kb.spaces
            && (var to := Destination(kb, a, parent, space);
                && to in kb.spaces && MovedRows(kb, next, a, parent, to) && MovedVectorsOf(kb, next, a, to)
                && MovedQueue(kb, next, a, to))
            && next == kb.(articles := next.articles, vectors := next.vectors, issued := next.issued)
  {
    MoveAnswers(kb, domain, a, parent, space, mayCreate, ver);
    var to := Destination(kb, a, parent, space);
    MoveIs(kb, domain, a, parent, space, mayCreate, ver);
    forall x | x in kb.articles
      ensures Moved(kb.articles, a, parent, to)[x]
           == if x in Branch(kb.articles, a) then Carried(kb, a, parent, to, x) else kb.articles[x]
    {
      RowIsCarried(kb, a, parent, to, x);
    }
    LiveBranchIsSubtree(kb, a);
    if to == kb.articles[a].space {
      MoveWithin(kb, a, parent);
    } else {
      MoveAcross(kb, a, parent, to);
    }
  }

  lemma MoveIs(kb: State, domain: int, a: int, parent: int, space: int, mayCreate: bool, ver: int)
    requires Inv(kb) && MoveArticle(kb, domain, a, parent, space, mayCreate, ver).Done?
    requires a in kb.articles && (parent != 0 ==> parent in kb.articles)
    ensures var from, to := kb.articles[a].space, Destination(kb, a, parent, space);
            && from in kb.spaces && to in kb.spaces
            && (var moved := kb.(articles := Moved(kb.articles, a, parent, to));
                MoveArticle(kb, domain, a, parent, space, mayCreate, ver).next
                == if to == from then moved else IndexMoved(moved, from, to, a, Subtree(kb.articles, a)))
  {
  }

  lemma MoveWithin(kb: State, a: int, parent: int)
    requires Inv(kb) && Live(kb.articles, a) && (parent != 0 ==> parent in kb.articles)
    requires forall x | x in kb.articles :: Moved(kb.articles, a, parent, kb.articles[a].space)[x]
               == if x in Branch(kb.articles, a) then Carried(kb, a, parent, kb.articles[a].space, x)
                  else kb.articles[x]
    ensures var to := kb.articles[a].space; var next := kb.(articles := Moved(kb.articles, a, parent, to));
            MovedRows(kb, next, a, parent, to) && MovedVectorsOf(kb, next, a, to) && MovedQueue(kb, next, a, to)
  {
    WalksCoverBranch(kb.articles, a);
    forall v | v in kb.vectors ensures VectorOk(kb, v) {}
  }

  lemma MoveAcross(kb: State, a: int, parent: int, to: int)
    requires Inv(kb) && Live(kb.articles, a) && (parent != 0 ==> parent in kb.articles) && to in kb.spaces
    requires to != kb.articles[a].space
    requires forall x | x in kb.articles :: Moved(kb.articles, a, parent, to)[x]
               == if x in Branch(kb.articles, a) then Carried(kb, a, parent, to, x) else kb.articles[x]
    requires forall x :: InLiveBranch(kb, a, x) <==> x in Subtree(kb.articles, a)
    ensures var next := IndexMoved(kb.(articles := Moved(kb.articles, a, parent, to)), kb.articles[a].space, to, a,
                                   Subtree(kb.articles, a));
            && MovedRows(kb, next, a, parent, to) && MovedVectorsOf(kb, next, a, to) && MovedQueue(kb, next, a, to)
            && next == kb.(articles := next.articles, vectors := next.vectors, issued := next.issued)
  {
    var kb1 := ForeignDropped(Rescoped(kb.(articles := Moved(kb.articles, a, parent, to)), a), to,
                              kb.spaces[to].embedding, Subtree(kb.articles, a));
    VectorsFollow(kb, a, parent, to);
    RootInSubtree(kb.articles, a);
    RequeuedTargets(kb, kb1, a, to);
    ReindexedIsQueued(kb1, to, Subtree(kb.articles, a));
    if Searched(kb, kb.articles[a].space) == Searched(kb, to) {
      AcrossQuietly(kb, kb1, a, parent, to);
    } else {
      AcrossQueued(kb, kb1, SpaceReindexed(kb1, to, Subtree(kb.articles, a)), a, parent, to);
    }
  }

  lemma AcrossQuietly(kb: State, kb1: State, a: int, parent: int, to: int)
    requires Inv(kb) && Live(kb.articles, a) && (parent != 0 ==> parent in kb.articles) && to in kb.spaces
    requires Searched(kb, kb.articles[a].space) == Searched(kb, to)
    requires kb1 == kb.(articles := kb1.articles, vectors := kb1.vectors) && kb1.articles.Keys == kb.articles.Keys
    requires forall x | x in kb.articles :: kb1.articles[x]
               == if x in Branch(kb.articles, a) then Carried(kb, a, parent, to, x) else kb.articles[x]
    ensures MovedRows(kb, kb1, a, parent, to) && MovedQueue(kb, kb1, a, to)
  {
  }

  lemma AcrossQueued(kb: State, kb1: State, next: State, a: int, parent: int, to: int)
    requires Inv(kb) && Live(kb.articles, a) && (parent != 0 ==> parent in kb.articles) && to in kb.spaces
    requires Searched(kb, kb.articles[a].space) != Searched(kb, to)
    requires kb1 == kb.(articles := kb1.articles, vectors := kb1.vectors) && kb1.articles.Keys == kb.articles.Keys
    requires forall x | x in kb.articles :: kb1.articles[x]
               == if x in Branch(kb.articles, a) then Carried(kb, a, parent, to, x) else kb.articles[x]
    requires QueuedAgain(kb1, next, (set x | x in kb.articles && InLiveBranch(kb, a, x) && History(kb, x) != []), to)
    ensures MovedRows(kb, next, a, parent, to) && MovedQueue(kb, next, a, to)
  {
    var rows := set x | x in kb.articles && InLiveBranch(kb, a, x) && History(kb, x) != [];
    forall x ensures x in rows <==> Requeued(kb, a, to, x) {}
    QueuedRows(kb, kb1, next, rows, a, parent, to);
    QueuedEvents(kb, kb1, next, rows, a, to);
  }

  lemma QueuedRows(kb: State, kb1: State, next: State, rows: set<int>, a: int, parent: int, to: int)
    requires a in kb.articles && (parent != 0 ==> parent in kb.articles)
    requires kb.articles[a].space in kb.spaces && to in kb.spaces && to in kb1.spaces
    requires kb1.articles.Keys == kb.articles.Keys && QueuedAgain(kb1, next, rows, to)
    requires forall x | x in kb.articles :: kb1.articles[x]
               == if x in Branch(kb.articles, a) then Carried(kb, a, parent, to, x) else kb.articles[x]
    requires forall x :: x in rows <==> Requeued(kb, a, to, x)
    ensures MovedRows(kb, next, a, parent, to)
  {
  }

  lemma QueuedEvents(kb: State, kb1: State, next: State, rows: set<int>, a: int, to: int)
    requires a in kb.articles && kb.articles[a].space in kb.spaces && to in kb.spaces
    requires kb1 == kb.(articles := kb1.articles, vectors := kb1.vectors) && QueuedAgain(kb1, next, rows, to)
    requires forall x :: x in rows <==> Requeued(kb, a, to, x)
    ensures MovedQueue(kb, next, a, to)
  {
    forall e: Issued ensures IsLatest(kb1, e, to, Searched(kb1, to)) <==> IsLatest(kb, e, to, Searched(kb, to)) {}
  }

  /** The rows a move queues are the live ones of its branch with a version. */
  lemma RequeuedTargets(kb: State, kb1: State, a: int, to: int)
    requires Inv(kb) && Live(kb.articles, a) && to in kb.spaces
    requires kb1 == kb.(articles := kb1.articles, vectors := kb1.vectors) && kb1.articles.Keys == kb.articles.Keys
    requires forall x | x in Branch(kb.articles, a) ::
               kb1.articles[x].space == to && kb1.articles[x].live == kb.articles[x].live
    requires forall x :: InLiveBranch(kb, a, x) <==> x in Subtree(kb.articles, a)
    ensures Targets(kb1, to, Subtree(kb.articles, a))
         == set x | x in kb.articles && InLiveBranch(kb, a, x) && History(kb, x) != []
    ensures forall x :: History(kb1, x) == History(kb, x)
  {
    RootInSubtree(kb.articles, a);
  }

  lemma VectorsFollow(kb: State, a: int, parent: int, to: int)
    requires Inv(kb) && Live(kb.articles, a) && (parent != 0 ==> parent in kb.articles) && to in kb.spaces
    requires forall x | x in kb.articles :: Moved(kb.articles, a, parent, to)[x]
               == if x in Branch(kb.articles, a) then Carried(kb, a, parent, to, x) else kb.articles[x]
    requires forall x :: InLiveBranch(kb, a, x) <==> x in Subtree(kb.articles, a)
    ensures MovedVectorsOf(kb, ForeignDropped(Rescoped(kb.(articles := Moved(kb.articles, a, parent, to)), a), to,
                                              kb.spaces[to].embedding, Subtree(kb.articles, a)), a, to)
  {
    SameBranch(kb.articles, a, parent, to);
    RootInSubtree(kb.articles, a);
    forall v | v in kb.vectors ensures VectorOk(kb, v) {}
  }

  lemma {:induction false} BranchWasThere(t: Table, r: int, parent: int, space: int, x: int, k: nat)
    requires r in t && (parent != 0 ==> parent in t) && AnyAt(Moved(t, r, parent, space), r, x, k)
    ensures x in Branch(t, r)
    decreases k
  {
    if x == r {
      assert AnyAt(t, r, r, 0);
    } else {
      BranchWasThere(t, r, parent, space, t[x].parent, k - 1);
      ChildInBranch(t, r, x);
    }
  }

  /** A move changes nothing of who is below the root. */
  lemma SameBranch(t: Table, r: int, parent: int, space: int)
    requires r in t && (parent != 0 ==> parent in t)
    ensures Branch(Moved(t, r, parent, space), r) == Branch(t, r)
  {
    var t' := Moved(t, r, parent, space);
    forall x ensures x in Branch(t', r) <==> x in Branch(t, r) {
      if x in Branch(t, r) {
        var k: nat :| AnyAt(t, r, x, k);
        BranchSurvivesMove(t, r, parent, space, x, k);
      }
      if x in Branch(t', r) {
        var k: nat :| AnyAt(t', r, x, k);
        BranchWasThere(t, r, parent, space, x, k);
      }
    }
  }

  // ------------------------------------------------------------------- spaces

  /** A space is created for the domain as given, with no home page, unless it reranks
      without a model or a model it takes did not pass the gate. */
  lemma CreateSpaceStores(kb: State, domain: int, input: SpaceInput, modelsOk: bool)
    requires Inv(kb)
    ensures var out := CreateSpace(kb, domain, input, modelsOk);
            var ranks := input.rerank ==> input.reranker != 0;
            var gated := (input.embedding == 0 && input.reranker == 0) || modelsOk;
            && Answers(out, RerankerRequired, !ranks) && Answers(out, ModelRefused, ranks && !gated)
            && (out.Done? <==> ranks && gated)
            && (out.Done? ==>
                  && kb.nextSpace !in kb.spaces
                  && out.next == kb.(nextSpace := kb.nextSpace + 1, spaces := kb.spaces[kb.nextSpace := Space(
                       domain, input.language, 0, input.embedding, input.reranker, input.vectorSearch, input.rerank)]))
  {
  }

  predicate Names(mask: set<SpaceField>, field: SpaceField) {
    mask == {} || field in mask
  }

  /** Each field the mask names, or every one without a mask, is taken from the input;
      the language only when it is given. */
  predicate Overlays(row: Space, merged: Space, input: SpaceInput, mask: set<SpaceField>) {
    && merged.domain == row.domain && merged.home == row.home
    && merged.language == (if Names(mask, Language) && input.language != "" then input.language else row.language)
    && merged.embedding == (if Names(mask, EmbeddingModel) then input.embedding else row.embedding)
    && merged.reranker == (if Names(mask, RerankerModel) then input.reranker else row.reranker)
    && merged.vectorSearch == (if Names(mask, VectorSearch) then input.vectorSearch else row.vectorSearch)
    && merged.rerank == (if Names(mask, Rerank) then input.rerank else row.rerank)
  }

  /** The live article of the space with a version is queued again for what the space
      searches with now. */
  predicate Awaits(kb: State, next: State, s: int, x: int)
    requires s in kb.spaces && s in next.spaces
  {
    x in kb.articles && kb.articles[x].live && kb.articles[x].space == s && History(kb, x) != []
    && Searched(next, s) != Searched(kb, s)
  }

  /** What follows from a space having been rewritten as it now is. */
  ghost predicate SpaceFollows(kb: State, next: State, s: int)
    requires s in kb.spaces && s in next.spaces
  {
    && next == kb.(spaces := next.spaces, articles := next.articles, issued := next.issued, vectors := next.vectors)
    && next.articles.Keys == kb.articles.Keys
    && (forall x | x in kb.articles ::
          next.articles[x]
          == if Awaits(kb, next, s, x) then kb.articles[x].(content := kb.articles[x].content.(index := Pending))
             else kb.articles[x])
    && (forall e: Issued ::
          next.issued[e] == kb.issued[e]
            + if Awaits(kb, next, s, e.article) && IsLatest(kb, e, s, Searched(next, s)) then 1 else 0)
    && (forall v :: v in next.vectors <==>
          && v in kb.vectors
          && (kb.vectors[v] == s && next.spaces[s].embedding != kb.spaces[s].embedding ==>
                v.model == next.spaces[s].embedding))
    && (forall v | v in next.vectors :: next.vectors[v] == kb.vectors[v])
  }

  /** An update overlays the fields it names; when the space then searches with another
      model its articles are queued, and when it has another model only vectors of that
      one are left in it. */
  lemma UpdateSpaceStores(
      kb: State, domain: int, s: int, input: SpaceInput, mask: set<SpaceField>, modelsOk: bool)
    requires Inv(kb) && UpdateSpace(kb, domain, s, input, mask, modelsOk).Done?
    ensures var next := UpdateSpace(kb, domain, s, input, mask, modelsOk).next;
            && s in kb.spaces && s in next.spaces && next.spaces == kb.spaces[s := next.spaces[s]]
            && Overlays(kb.spaces[s], next.spaces[s], input, mask) && SpaceFollows(kb, next, s)
  {
    RewrittenFollows(kb, s, MergeSpace(kb.spaces[s], input, mask));
  }

  lemma RewrittenFollows(kb: State, s: int, merged: Space)
    requires Inv(kb) && s in kb.spaces
    ensures var next := SpaceRewritten(kb, s, merged);
            next.spaces == kb.spaces[s := merged] && SpaceFollows(kb, next, s)
  {
    var kb1 := kb.(spaces := kb.spaces[s := merged]);
    ReindexedIsQueued(kb1, s, {});
    var kb2 := if Searched(kb1, s) != Searched(kb, s) then SpaceReindexed(kb1, s, {}) else kb1;
    RowsFollow(kb, kb1, kb2, s, Targets(kb1, s, {}));
    var keep := merged.embedding;
    var kb3 := if keep != kb.spaces[s].embedding then ForeignDropped(kb2, s, keep, {}) else kb2;
    assert SpaceRewritten(kb, s, merged) == kb3;
    VectorsDrop(kb, kb1, kb2, kb3, s);
  }

  lemma VectorsDrop(kb: State, kb1: State, kb2: State, kb3: State, s: int)
    requires s in kb.spaces && s in kb1.spaces && kb1 == kb.(spaces := kb1.spaces)
    requires kb2.articles.Keys == kb.articles.Keys && kb2 == kb1.(articles := kb2.articles, issued := kb2.issued)
    requires kb3 == if kb1.spaces[s].embedding != kb.spaces[s].embedding then
                      ForeignDropped(kb2, s, kb1.spaces[s].embedding, {})
                    else kb2
    requires forall x | x in kb.articles ::
               kb2.articles[x]
               == if Awaits(kb, kb1, s, x) then kb.articles[x].(content := kb.articles[x].content.(index := Pending))
                  else kb.articles[x]
    requires forall e: Issued ::
               kb2.issued[e] == kb.issued[e]
                 + if Awaits(kb, kb1, s, e.article) && IsLatest(kb, e, s, Searched(kb1, s)) then 1 else 0
    ensures kb3.spaces == kb1.spaces && SpaceFollows(kb, kb3, s)
  {
    assert kb3.articles == kb2.articles && kb3.issued == kb2.issued;
    forall x ensures Awaits(kb, kb3, s, x) <==> Awaits(kb, kb1, s, x) {}
  }

  lemma RowsFollow(kb: State, kb1: State, kb2: State, s: int, rows: set<int>)
    requires s in kb.spaces && s in kb1.spaces && kb1 == kb.(spaces := kb1.spaces)
    requires rows == Targets(kb1, s, {})
    requires if Searched(kb1, s) != Searched(kb, s) then QueuedAgain(kb1, kb2, rows, s) else kb2 == kb1
    ensures kb2.articles.Keys == kb.articles.Keys && kb2 == kb1.(articles := kb2.articles, issued := kb2.issued)
    ensures forall x | x in kb.articles ::
              kb2.articles[x]
              == if Awaits(kb, kb1, s, x) then kb.articles[x].(content := kb.articles[x].content.(index := Pending))
                 else kb.articles[x]
    ensures forall e: Issued ::
              kb2.issued[e] == kb.issued[e]
                + if Awaits(kb, kb1, s, e.article) && IsLatest(kb, e, s, Searched(kb1, s)) then 1 else 0
  {
  }

  lemma UpdateSpaceAnswers(
      kb: State, domain: int, s: int, input: SpaceInput, mask: set<SpaceField>, modelsOk: bool, merged: Space)
    requires Inv(kb) && (s in kb.spaces ==> Overlays(kb.spaces[s], merged, input, mask))
    ensures var out := UpdateSpace(kb, domain, s, input, mask, modelsOk);
            && Answers(out, NotFound, !SpaceFound(kb, domain, s))
            && (SpaceFound(kb, domain, s) ==>
                  var row := kb.spaces[s];
                  var languageOk := merged.language == row.language;
                  var ranks := merged.rerank ==> merged.reranker != 0;
                  var takes := (merged.embedding != row.embedding && merged.embedding != 0)
                               || (merged.reranker != row.reranker && merged.reranker != 0);
                  && Answers(out, LanguageImmutable, !languageOk)
                  && Answers(out, RerankerRequired, languageOk && !ranks)
                  && Answers(out, ModelRefused, languageOk && ranks && takes && !modelsOk)
                  && (out.Done? <==> languageOk && ranks && (takes ==> modelsOk)))
  {
  }

  /** Some live article of the space is active. */
  ghost predicate HasActive(kb: State, s: int) {
    exists x :: x in kb.articles && kb.articles[x].space == s && kb.articles[x].live
                && kb.articles[x].content.state == Active
  }

  /** Everything of the space is gone, and nothing else. */
  ghost predicate Purged(kb: State, next: State, s: int) {
    && next == kb.(spaces := next.spaces, articles := next.articles, histories := next.histories,
                   vectors := next.vectors)
    && next.spaces == kb.spaces - {s}
    && (forall x :: x in next.articles <==> x in kb.articles && kb.articles[x].space != s)
    && (forall x | x in next.articles :: x in kb.articles && next.articles[x] == kb.articles[x])
    && (forall x :: x in next.histories <==> x in kb.histories && x in kb.articles && kb.articles[x].space != s)
    && (forall x | x in next.histories :: x in kb.histories && next.histories[x] == kb.histories[x])
    && (forall v :: v in next.vectors <==> v in kb.vectors && kb.vectors[v] != s)
    && (forall v | v in next.vectors :: v in kb.vectors && next.vectors[v] == kb.vectors[v])
  }

  /** A space goes with all its rows, their histories and vectors, unless one of its live
      articles is active. */
  lemma DeleteSpacePurges(kb: State, domain: int, s: int)
    requires Inv(kb)
    ensures var out := DeleteSpace(kb, domain, s);
            && Answers(out, NotFound, !SpaceFound(kb, domain, s))
            && Answers(out, ArticlesExist, SpaceFound(kb, domain, s) && HasActive(kb, s))
            && (out.Done? <==> SpaceFound(kb, domain, s) && !HasActive(kb, s))
            && (out.Done? ==> Purged(kb, out.next, s))
  {
    ActiveIsSeen(kb, s);
    var out := DeleteSpace(kb, domain, s);
    if out.Done? {
      var rows := RowsOf(kb, s);
      assert out.next == kb.(articles := kb.articles - rows, histories := kb.histories - rows,
                             vectors := map v | v in kb.vectors && v.article !in rows :: kb.vectors[v],
                             spaces := kb.spaces - {s});
      RowsArePurged(kb, s, out.next);
    }
  }

  lemma ActiveIsSeen(kb: State, s: int)
    ensures HasActive(kb, s) <==>
            exists a | a in RowsOf(kb, s) :: kb.articles[a].live && kb.articles[a].content.state == Active
  {
    if HasActive(kb, s) {
      var x :| x in kb.articles && kb.articles[x].space == s && kb.articles[x].live
               && kb.articles[x].content.state == Active;
      assert x in RowsOf(kb, s);
    }
  }

  lemma RowsArePurged(kb: State, s: int, next: State)
    requires Inv(kb) && s in kb.spaces
    requires var rows := RowsOf(kb, s);
             next == kb.(articles := kb.articles - rows, histories := kb.histories - rows,
                         vectors := map v | v in kb.vectors && v.article !in rows :: kb.vectors[v],
                         spaces := kb.spaces - {s})
    ensures Purged(kb, next, s)
  {
    forall v | v in kb.vectors ensures v.article in RowsOf(kb, s) <==> kb.vectors[v] == s {
      assert VectorOk(kb, v);
    }
    assert forall x | x in kb.histories :: x in kb.articles;
  }
}
