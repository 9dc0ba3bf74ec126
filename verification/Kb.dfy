/** The knowledge base as a state machine: each service call is one committed
    transaction, which either yields a new state or refuses and leaves the old one. */
module Kb {
  import opened Wrappers
  import opened Forest
  import Text

  /** One row of kb.article_version; restoredFrom 0 stands for NULL. The three
      renderings of a body travel together and are one value here. */
  datatype Version = Version(id: int, number: int, subject: string, body: string, restoredFrom: int)

  /** One row of kb.space; model references and the home page are 0 for NULL. */
  datatype Space = Space(domain: int, language: string, home: int, embedding: int, reranker: int,
                         vectorSearch: bool, rerank: bool)
  {
    /** model.Space.SearchModelID. */
    function SearchModel(): int {
      if vectorSearch then embedding else 0
    }
  }

  /** A reindex event together with a history variable: the model its space
      searched with when the event was issued. */
  datatype Issued = Issued(article: int, version: int, space: int, model: int)

  /** A vector: of an article, made by a model. Its space is the value of the map. */
  datatype VectorKey = VectorKey(article: int, model: int)

  datatype State = State(
    articles: Table,
    histories: map<int, seq<Version>>,
    spaces: map<int, Space>,
    issued: multiset<Issued>,
    vectors: map<VectorKey, int>,
    nextArticle: int,
    nextVersion: int,
    nextSpace: int)

  datatype Error =
    | NotFound | VersionConflict | SubjectRequired
    | HomeNested | HomeType | HomeParent | HomeMove | HomeExists | HomeImmutable
    | DepthExceeded | MoveCycle | MoveRejected | MoveLanguage | MoveParentSpace
    | ParentMovedMeanwhile | MoveCreateDenied
    | ParentImmutable | SpaceImmutable | TypeImmutable | StateTransition
    | ReindexNotFailed | ReindexNoVersion
    | LanguageImmutable | RerankerRequired | ModelRefused | ArticlesExist

  datatype Outcome = Done(next: State) | Refused(error: Error)

  // ---------------------------------------------------------------- reads

  function History(kb: State, a: int): seq<Version> {
    if a in kb.histories then kb.histories[a] else []
  }

  /** A live article of the domain: what every scoped read finds. */
  predicate Visible(kb: State, domain: int, a: int) {
    Live(kb.articles, a) && kb.articles[a].space in kb.spaces
    && kb.spaces[kb.articles[a].space].domain == domain
  }

  predicate SpaceVisible(kb: State, domain: int, s: int) {
    s in kb.spaces && kb.spaces[s].domain == domain
  }

  predicate IsHome(kb: State, a: int) {
    a in kb.articles && kb.articles[a].space in kb.spaces && kb.spaces[kb.articles[a].space].home == a
  }

  /** COALESCE(max(version_number), 0). */
  function MaxNumber(h: seq<Version>): int {
    if h == [] then 0
    else
      var rest := MaxNumber(h[..|h| - 1]);
      if h[|h| - 1].number > rest then h[|h| - 1].number else rest
  }

  /** The version a newest-first listing starts with. */
  function Latest(h: seq<Version>): Version
    requires h != []
  {
    h[|h| - 1]
  }

  // ------------------------------------------------------ shared statements

  function WithContent(kb: State, a: int, content: Content): State
    requires a in kb.articles
  {
    kb.(articles := kb.articles[a := kb.articles[a].(ver := kb.articles[a].ver + 1, content := content)])
  }

  function AppendVersion(kb: State, a: int, subject: string, body: string, restoredFrom: int): State {
    var h := History(kb, a);
    kb.(histories := kb.histories[a := h + [Version(kb.nextVersion, MaxNumber(h) + 1, subject, body, restoredFrom)]],
        nextVersion := kb.nextVersion + 1)
  }

  function Publish(kb: State, a: int, version: int, space: int): State
    requires space in kb.spaces
  {
    kb.(issued := kb.issued + multiset{Issued(a, version, space, kb.spaces[space].SearchModel())})
  }

  /** The rows MarkArticlesPending touches; no ids stands for the whole space. */
  function Targets(kb: State, space: int, ids: set<int>): set<int> {
    set a | a in kb.articles && kb.articles[a].live && kb.articles[a].space == space
            && History(kb, a) != [] && (ids == {} || a in ids)
  }

  /** The event that queues the latest version of an article in a space. */
  function LatestEvent(kb: State, a: int, space: int): Issued
    requires History(kb, a) != [] && space in kb.spaces
  {
    Issued(a, Latest(History(kb, a)).id, space, kb.spaces[space].SearchModel())
  }

  function LatestEvents(kb: State, rows: set<int>, space: int): set<Issued>
    requires (forall a | a in rows :: History(kb, a) != []) && space in kb.spaces
  {
    set a | a in rows :: LatestEvent(kb, a, space)
  }

  /** requestSpaceReindex: the targets go back to pending and the latest version
      of each is queued. */
  function SpaceReindexed(kb: State, space: int, ids: set<int>): State
    requires space in kb.spaces
  {
    var targets := Targets(kb, space, ids);
    kb.(articles := map a | a in kb.articles ::
          if a in targets then kb.articles[a].(content := kb.articles[a].content.(index := Pending))
          else kb.articles[a],
        issued := kb.issued + multiset(LatestEvents(kb, targets, space)))
  }

  /** DropForeignEmbeddings; no ids stands for the whole space. */
  function ForeignDropped(kb: State, space: int, keep: int, ids: set<int>): State {
    kb.(vectors := map v | v in kb.vectors
          && !(kb.vectors[v] == space && v.model != keep && (ids == {} || v.article in ids)) :: kb.vectors[v])
  }

  /** RescopeEmbeddings: the vectors of the branch follow their articles. */
  ghost function Rescoped(kb: State, r: int): State {
    var branch := Branch(kb.articles, r);
    kb.(vectors := map v | v in kb.vectors ::
          if v.article in branch && v.article in kb.articles then kb.articles[v.article].space else kb.vectors[v])
  }

  /** checkDepth: None accepts the placement. */
  function CheckDepth(kb: State, domain: int, parent: int, height: int): Option<Error> {
    if !Visible(kb, domain, parent) then Some(NotFound)
    else if IsHome(kb, parent) then Some(HomeParent)
    else if kb.articles[parent].depth + 1 + height > MAX_DEPTH then Some(DepthExceeded)
    else None
  }

  // ------------------------------------------------------------- article calls

  datatype CreateInput = CreateInput(space: int, parent: int, typ: Option<ArticleType>, state: Option<ArticleState>,
                                     subject: string, home: bool, body: string)

  function GetOr<T>(o: Option<T>, default: T): T {
    if o.Some? then o.value else default
  }

  /** validateHome. */
  function ValidateHome(input: CreateInput): Option<Error> {
    if !input.home then None
    else if input.parent != 0 then Some(HomeNested)
    else if input.typ == Some(Faq) then Some(HomeType)
    else None
  }

  /** The inserted row, claimed as the home page when asked to be one. */
  function Placed(kb: State, input: CreateInput, subject: string): State
    requires (input.parent != 0 ==> input.parent in kb.articles) && input.space in kb.spaces
  {
    var id := kb.nextArticle;
    var content := Content(GetOr(input.typ, Page), GetOr(input.state, Draft), subject, Pending);
    kb.(articles := Inserted(kb.articles, id, input.parent, input.space, content),
        nextArticle := id + 1,
        spaces := if input.home then kb.spaces[input.space := kb.spaces[input.space].(home := id)] else kb.spaces)
  }

  function CreateArticle(kb: State, domain: int, input: CreateInput): Outcome {
    var subject := Text.TrimSpace(input.subject);
    if subject == "" then Refused(SubjectRequired)
    else if ValidateHome(input).Some? then Refused(ValidateHome(input).value)
    else if input.parent != 0 && CheckDepth(kb, domain, input.parent, 0).Some? then
      Refused(CheckDepth(kb, domain, input.parent, 0).value)
    else if !SpaceVisible(kb, domain, input.space)
            || (input.parent != 0 && kb.articles[input.parent].space != input.space) then Refused(NotFound)
    else if input.home && kb.spaces[input.space].home != 0 then Refused(HomeExists)
    else
      var kb1 := Placed(kb, input, subject);
      if input.body == "" then Done(kb1)
      else Done(Publish(AppendVersion(kb1, kb.nextArticle, subject, input.body, 0),
                        kb.nextArticle, kb.nextVersion, input.space))
  }

  datatype UpdateInput = UpdateInput(home: bool, parent: int, space: int, typ: Option<ArticleType>,
                                     state: Option<ArticleState>, subject: string, subjectMasked: bool, body: string)

  /** rejectImmutableInput. */
  function RejectImmutable(kb: State, a: int, input: UpdateInput): Option<Error>
    requires a in kb.articles
  {
    var current := kb.articles[a];
    if input.home && !IsHome(kb, a) then Some(HomeImmutable)
    else if input.parent != 0 && input.parent != current.parent then Some(ParentImmutable)
    else if input.space != 0 && input.space != current.space then Some(SpaceImmutable)
    else if input.typ.Some? && input.typ.value != current.content.typ then Some(TypeImmutable)
    else None
  }

  /** model.Article.Merge, over the columns kept here. */
  function Merge(current: Content, subject: string, typ: Option<ArticleType>, state: Option<ArticleState>): Content {
    Content(GetOr(typ, current.typ), GetOr(state, current.state),
            if subject != "" then subject else current.subject, current.index)
  }

  /** model.CanChangeState. */
  predicate CanChangeState(from: ArticleState, to: ArticleState) {
    from == to || to != Draft
  }

  /** The merged row, with a version and an event when there is a next body. */
  function Revised(kb: State, a: int, merged: Content, next: Option<string>): State
    requires a in kb.articles && kb.articles[a].space in kb.spaces
  {
    match next
    case None => WithContent(kb, a, merged)
    case Some(body) =>
      Publish(AppendVersion(WithContent(kb, a, merged.(index := Pending)), a, merged.subject, body, 0),
              a, kb.nextVersion, kb.articles[a].space)
  }

  /** A new subject alone goes into a version with the latest body. */
  function Rewritten(kb: State, a: int, merged: Content, body: string): State
    requires a in kb.articles && kb.articles[a].space in kb.spaces
  {
    var h := History(kb, a);
    Revised(kb, a, merged,
            if body != "" then Some(body)
            else if merged.subject == kb.articles[a].content.subject || h == [] then None
            else Some(Latest(h).body))
  }

  function UpdateArticle(kb: State, domain: int, a: int, input: UpdateInput, expectedVer: int): Outcome {
    var subject := Text.TrimSpace(input.subject);
    if subject == "" && input.subjectMasked then Refused(SubjectRequired)
    else if !Visible(kb, domain, a) then Refused(NotFound)
    else if RejectImmutable(kb, a, input).Some? then Refused(RejectImmutable(kb, a, input).value)
    else
      var current := kb.articles[a];
      var merged := Merge(current.content, subject, input.typ, input.state);
      if !CanChangeState(current.content.state, merged.state) then Refused(StateTransition)
      else if IsHome(kb, a) && merged.typ == Faq then Refused(HomeType)
      else if current.ver != expectedVer then Refused(VersionConflict)
      else Done(Rewritten(kb, a, merged, input.body))
  }

  /** The version of a history with a number, as the store looks it up. */
  function FindNumber(h: seq<Version>, number: int): Option<Version> {
    if h == [] then None
    else if h[0].number == number then Some(h[0])
    else FindNumber(h[1..], number)
  }

  function RestoreVersion(kb: State, domain: int, a: int, number: int): Outcome {
    if !Visible(kb, domain, a) then Refused(NotFound)
    else
      var source := FindNumber(History(kb, a), number);
      if source.None? then Refused(NotFound)
      else
        var current := kb.articles[a];
        var aligned := Merge(current.content, source.value.subject, None, None).(index := Pending);
        Done(Publish(
          WithContent(AppendVersion(kb, a, source.value.subject, source.value.body, source.value.id), a, aligned),
          a, kb.nextVersion, current.space))
  }

  function Reindex(kb: State, domain: int, a: int, expectedVer: int): Outcome {
    if !Visible(kb, domain, a) then Refused(NotFound)
    else if kb.articles[a].content.index != Failed then Refused(ReindexNotFailed)
    else if History(kb, a) == [] then Refused(ReindexNoVersion)
    else if kb.articles[a].ver != expectedVer then Refused(VersionConflict)
    else Done(Publish(WithContent(kb, a, kb.articles[a].content.(index := Pending)),
                      a, Latest(History(kb, a)).id, kb.articles[a].space))
  }

  /** deleteArticleCTEs: the subtree goes and no space keeps it as its home. */
  ghost function DeleteArticle(kb: State, domain: int, a: int, expectedVer: int): Outcome {
    if !Visible(kb, domain, a) then Refused(NotFound)
    else if kb.articles[a].ver != expectedVer then Refused(VersionConflict)
    else
      var tree := Subtree(kb.articles, a);
      Done(kb.(articles := Deleted(kb.articles, a),
               spaces := map s | s in kb.spaces ::
                 if kb.spaces[s].home in tree then kb.spaces[s].(home := 0) else kb.spaces[s]))
  }

  /** moveTargetSpace: the space of the new parent, else the one named, else the current one. */
  function MoveTarget(kb: State, domain: int, a: int, parent: int, space: int): (int, Option<Error>)
    requires a in kb.articles
  {
    if parent == 0 then (if space != 0 then space else kb.articles[a].space, None)
    else if !Visible(kb, domain, parent) then (0, Some(NotFound))
    else if space != 0 && space != kb.articles[parent].space then (0, Some(MoveParentSpace))
    else (kb.articles[parent].space, None)
  }

  /** The largest depth difference validateMoveTarget finds, never below 0. */
  ghost predicate IsHeight(t: Table, r: int, height: int)
    requires r in t
  {
    && (forall x | x in Subtree(t, r) && x in t :: t[x].depth - t[r].depth <= height)
    && (height == 0 || exists x :: x in Subtree(t, r) && x in t && t[x].depth - t[r].depth == height)
    && height >= 0
  }

  ghost function Height(t: Table, r: int): int
    requires r in t
  {
    if height: int :| IsHeight(t, r, height) then height else 0
  }

  /** validateMoveTarget. */
  ghost function ValidateMoveTarget(kb: State, domain: int, a: int, parent: int, target: int): Option<Error>
    requires a in kb.articles
  {
    if parent in Subtree(kb.articles, a) then Some(MoveCycle)
    else if CheckDepth(kb, domain, parent, Height(kb.articles, a)).Some? then
      CheckDepth(kb, domain, parent, Height(kb.articles, a))
    else if kb.articles[parent].space != target then Some(ParentMovedMeanwhile)
    else None
  }

  /** moveIndex, run after the rows moved. */
  ghost function IndexMoved(kb: State, source: int, target: int, root: int, ids: set<int>): State
    requires source in kb.spaces && target in kb.spaces
  {
    var kb1 := ForeignDropped(Rescoped(kb, root), target, kb.spaces[target].embedding, ids);
    if kb.spaces[source].SearchModel() == kb.spaces[target].SearchModel() then kb1
    else SpaceReindexed(kb1, target, ids)
  }

  ghost function MoveArticle(kb: State, domain: int, a: int, parent: int, space: int, mayCreate: bool,
      expectedVer: int): Outcome {
    if !Visible(kb, domain, a) then Refused(NotFound)
    else
      var (target, refusal) := MoveTarget(kb, domain, a, parent, space);
      var source := kb.articles[a].space;
      if refusal.Some? then Refused(refusal.value)
      else if target != source && !mayCreate then Refused(MoveCreateDenied)
      else if IsHome(kb, a) then Refused(HomeMove)
      else if target != source && !SpaceVisible(kb, domain, target) then Refused(NotFound)
      else if target != source && kb.spaces[source].language != kb.spaces[target].language then Refused(MoveLanguage)
      else if parent != 0 && ValidateMoveTarget(kb, domain, a, parent, target).Some? then
        Refused(ValidateMoveTarget(kb, domain, a, parent, target).value)
      else if kb.articles[a].ver != expectedVer then Refused(VersionConflict)
      else if !MoveGuard(kb.articles, a, parent, target, expectedVer) then Refused(MoveRejected)
      else
        var kb1 := kb.(articles := Moved(kb.articles, a, parent, target));
        if target == source then Done(kb1)
        else Done(IndexMoved(kb1, source, target, a, Subtree(kb.articles, a)))
  }

  // --------------------------------------------------------------- space calls

  datatype SpaceField = Language | EmbeddingModel | RerankerModel | VectorSearch | Rerank

  datatype SpaceInput = SpaceInput(language: string, embedding: int, reranker: int, vectorSearch: bool, rerank: bool)

  /** model.Space.Merge: an empty mask stands for every field. */
  function MergeSpace(current: Space, input: SpaceInput, mask: set<SpaceField>): Space {
    current.(
      language := if (mask == {} || Language in mask) && input.language != "" then input.language else current.language,
      embedding := if mask == {} || EmbeddingModel in mask then input.embedding else current.embedding,
      reranker := if mask == {} || RerankerModel in mask then input.reranker else current.reranker,
      vectorSearch := if mask == {} || VectorSearch in mask then input.vectorSearch else current.vectorSearch,
      rerank := if mask == {} || Rerank in mask then input.rerank else current.rerank)
  }

  /** The model gate is a parameter: modelsOk is the verdict of
      requireValidatedModels on the references the call takes. */
  function CreateSpace(kb: State, domain: int, input: SpaceInput, modelsOk: bool): Outcome {
    if input.rerank && input.reranker == 0 then Refused(RerankerRequired)
    else if (input.embedding != 0 || input.reranker != 0) && !modelsOk then Refused(ModelRefused)
    else Done(kb.(
      spaces := kb.spaces[kb.nextSpace := Space(domain, input.language, 0, input.embedding, input.reranker,
                                                input.vectorSearch, input.rerank)],
      nextSpace := kb.nextSpace + 1))
  }

  /** The rewritten space; a change of the search model queues its articles, a
      change of the model drops the vectors of any other. */
  function SpaceRewritten(kb: State, s: int, merged: Space): State
    requires s in kb.spaces
  {
    var kb1 := kb.(spaces := kb.spaces[s := merged]);
    var kb2 := if merged.SearchModel() != kb.spaces[s].SearchModel() then SpaceReindexed(kb1, s, {}) else kb1;
    if merged.embedding != kb.spaces[s].embedding then ForeignDropped(kb2, s, merged.embedding, {}) else kb2
  }

  function UpdateSpace(kb: State, domain: int, s: int, input: SpaceInput, mask: set<SpaceField>,
      modelsOk: bool): Outcome {
    if !SpaceVisible(kb, domain, s) then Refused(NotFound)
    else
      var current := kb.spaces[s];
      var merged := MergeSpace(current, input, mask);
      var takesModel := (merged.embedding != current.embedding && merged.embedding != 0)
                        || (merged.reranker != current.reranker && merged.reranker != 0);
      if merged.language != current.language then Refused(LanguageImmutable)
      else if merged.rerank && merged.reranker == 0 then Refused(RerankerRequired)
      else if takesModel && !modelsOk then Refused(ModelRefused)
      else Done(SpaceRewritten(kb, s, merged))
  }

  /** The rows of a space, live and deleted: what PurgeArticles removes. */
  function RowsOf(kb: State, s: int): set<int> {
    set a | a in kb.articles && kb.articles[a].space == s
  }

  /** PurgeArticles with what cascades from it, then the space row. */
  function DeleteSpace(kb: State, domain: int, s: int): Outcome {
    if !SpaceVisible(kb, domain, s) then Refused(NotFound)
    else if exists a | a in RowsOf(kb, s) :: kb.articles[a].live && kb.articles[a].content.state == Active then
      Refused(ArticlesExist)
    else
      var rows := RowsOf(kb, s);
      Done(kb.(articles := kb.articles - rows,
               histories := kb.histories - rows,
               vectors := map v | v in kb.vectors && v.article !in rows :: kb.vectors[v],
               spaces := kb.spaces - {s}))
  }

  // ------------------------------------------------------ the indexing pipeline

  /** The pipeline owns the index state of an article. */
  function SetIndexState(kb: State, a: int, index: IndexState): Outcome {
    if a !in kb.articles then Refused(NotFound)
    else Done(kb.(articles := kb.articles[a := kb.articles[a].(content := kb.articles[a].content.(index := index))]))
  }

  /** The pipeline stores a vector of a live article, made by the model its space has. */
  function StoreVector(kb: State, a: int): Outcome {
    if !Live(kb.articles, a) || kb.articles[a].space !in kb.spaces
        || kb.spaces[kb.articles[a].space].embedding == 0 then
      Refused(NotFound)
    else
      var s := kb.articles[a].space;
      Done(kb.(vectors := kb.vectors[VectorKey(a, kb.spaces[s].embedding) := s]))
  }

  // ------------------------------------------------------------------ runs

  datatype Call =
    | CallCreate(create: CreateInput)
    | CallUpdate(article: int, update: UpdateInput, ver: int)
    | CallRestore(article: int, number: int)
    | CallReindex(article: int, ver: int)
    | CallDelete(article: int, ver: int)
    | CallMove(article: int, parent: int, space: int, mayCreate: bool, ver: int)
    | CallCreateSpace(input: SpaceInput, modelsOk: bool)
    | CallUpdateSpace(space: int, input: SpaceInput, mask: set<SpaceField>, modelsOk: bool)
    | CallDeleteSpace(space: int)
    | PipelineState(article: int, index: IndexState)
    | PipelineVector(article: int)

  ghost function Serve(kb: State, domain: int, call: Call): Outcome {
    match call
    case CallCreate(input) => CreateArticle(kb, domain, input)
    case CallUpdate(a, input, ver) => UpdateArticle(kb, domain, a, input, ver)
    case CallRestore(a, number) => RestoreVersion(kb, domain, a, number)
    case CallReindex(a, ver) => Reindex(kb, domain, a, ver)
    case CallDelete(a, ver) => DeleteArticle(kb, domain, a, ver)
    case CallMove(a, parent, space, mayCreate, ver) => MoveArticle(kb, domain, a, parent, space, mayCreate, ver)
    case CallCreateSpace(input, modelsOk) => CreateSpace(kb, domain, input, modelsOk)
    case CallUpdateSpace(s, input, mask, modelsOk) => UpdateSpace(kb, domain, s, input, mask, modelsOk)
    case CallDeleteSpace(s) => DeleteSpace(kb, domain, s)
    case PipelineState(a, index) => SetIndexState(kb, a, index)
    case PipelineVector(a) => StoreVector(kb, a)
  }

  /** A refused call rolls back. */
  ghost function After(kb: State, domain: int, call: Call): State {
    match Serve(kb, domain, call)
    case Done(next) => next
    case Refused(_) => kb
  }

  datatype Request = Request(domain: int, call: Call)

  const EMPTY := State(map[], map[], map[], multiset{}, map[], 1, 1, 1)

  ghost function Run(kb: State, requests: seq<Request>): State
    decreases |requests|
  {
    if requests == [] then kb
    else Run(After(kb, requests[0].domain, requests[0].call), requests[1..])
  }
}
