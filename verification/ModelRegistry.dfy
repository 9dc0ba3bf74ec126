/** The model registry and the spaces that refer to it, as transactions whose
    statements interleave. A transaction sees committed rows and the rows it locked;
    its own write becomes visible when it commits and lets its locks go. */
module ModelRegistry {
  import opened Wrappers

  // ------------------------------------------------------- the registration

  datatype ModelType = EmbeddingType | RerankerType

  datatype Provider = Gemini | OpenAI | Cohere | Azure | BgeM3 | E5 | BgeReranker | Byom | Unrecognized(name: string)

  /** An address after parsing: absent, absolute over http or https, or not an
      absolute URL without query and fragment. */
  datatype Endpoint = NoEndpoint | Http(address: string) | Https(address: string) | Malformed(raw: string)

  /** What a model is; a model in use keeps it. */
  datatype Identity = Identity(provider: Provider, ref: string, selfHosted: bool, dimensions: int)

  /** The resource a stored credential was handed in for stands for the credential. */
  datatype Resource = Resource(provider: Provider, endpoint: Endpoint)

  /** One row of kb.embedding_model; domain 0 is a global model. */
  datatype Model = Model(domain: int, typ: ModelType, name: string, identity: Identity, endpoint: Endpoint,
                         key: Option<Resource>, stamped: bool)

  predicate IsCloud(p: Provider) {
    p == Gemini || p == OpenAI || p == Cohere || p == Azure
  }

  predicate IsEmbedded(p: Provider) {
    p == BgeM3 || p == E5 || p == BgeReranker || p == Byom
  }

  predicate ProviderServes(p: Provider, typ: ModelType) {
    if typ == RerankerType then p == Cohere || p == BgeReranker || p == Byom else p != BgeReranker
  }

  /** validateInput without the key rules: the registration matrix. */
  predicate ValidRegistration(m: Model) {
    var p := m.identity.provider;
    && m.name != ""
    && (IsCloud(p) || IsEmbedded(p)) && m.identity.selfHosted == IsEmbedded(p) && ProviderServes(p, m.typ)
    && m.identity.ref != ""
    && (if m.typ == RerankerType then m.identity.dimensions == 0
        else m.identity.dimensions == 768 || m.identity.dimensions == 1024)
    && !m.endpoint.Malformed?
    && (IsEmbedded(p) || p == Azure ==> m.endpoint != NoEndpoint)
    && (p == Azure ==> m.endpoint.Https?)
  }

  /** validateKey. */
  predicate ValidKey(m: Model, keyGiven: bool, create: bool) {
    if IsEmbedded(m.identity.provider) then !keyGiven else !create || keyGiven
  }

  /** The fields an update names. */
  datatype Change = Change(typ: Option<ModelType>, name: Option<string>, provider: Option<Provider>,
      ref: Option<string>,
                           selfHosted: Option<bool>, dimensions: Option<int>, endpoint: Option<Endpoint>,
                               keyGiven: bool)

  function Pick<T>(o: Option<T>, old': T): T {
    if o.Some? then o.value else old'
  }

  /** model.EmbeddingModel.Merge. */
  function Overlay(m: Model, c: Change): Model {
    m.(typ := Pick(c.typ, m.typ), name := Pick(c.name, m.name), endpoint := Pick(c.endpoint, m.endpoint),
       identity := Identity(Pick(c.provider, m.identity.provider), Pick(c.ref, m.identity.ref),
                            Pick(c.selfHosted, m.identity.selfHosted), Pick(c.dimensions, m.identity.dimensions)))
  }

  /** keyFollowsResource. */
  predicate KeyFollowsResource(found: Model, merged: Model, keyGiven: bool) {
    || merged.identity.provider != Azure || keyGiven
    || (found.identity.provider == merged.identity.provider && found.endpoint == merged.endpoint)
  }

  datatype Validation = Keep | Reset | Stamp

  /** revalidate, with the verdict of the probe it may make. */
  function Revalidate(found: Model, merged: Model, keyGiven: bool, inUse: bool, probeOk: bool): Option<Validation> {
    var identity := found.identity != merged.identity;
    var connection := found.endpoint != merged.endpoint || keyGiven;
    if !identity && !connection then Some(Keep)
    else if !inUse then Some(Reset)
    else if identity || !probeOk then None
    else Some(Stamp)
  }

  /** sameRegistration. */
  predicate SameRegistration(a: Model, b: Model) {
    a.typ == b.typ && a.name == b.name && a.identity == b.identity && a.endpoint == b.endpoint
  }

  /** The row an update leaves: the type column is not part of the statement, and
      the credential is cleared, kept or replaced. */
  function Written(row: Model, merged: Model, keyGiven: bool, validation: Validation): Model {
    row.(name := merged.name, identity := merged.identity, endpoint := merged.endpoint,
         stamped := match validation case Keep => row.stamped case Reset => false case Stamp => true,
         key := if IsEmbedded(merged.identity.provider) then None
                else if !keyGiven then row.key
                else Some(Resource(merged.identity.provider, merged.endpoint)))
  }

  // -------------------------------------------------------------- the system

  /** The references of a space row, 0 for NULL. */
  datatype Refs = Refs(domain: int, embedding: int, reranker: int)

  /** Where a transaction stands and what it has read. */
  datatype Txn =
    | Finished
    | UpdateStart(domain: int, id: int, change: Change)
    | UpdateFound(domain: int, id: int, change: Change, found: Model)
    | UpdateProbing(domain: int, id: int, change: Change, found: Model, inUse: bool)
    | UpdateDecided(domain: int, id: int, merged: Model, keyGiven: bool, found: Model, inUse: bool,
                    validation: Validation)
    | UpdateLocked(domain: int, id: int, merged: Model, keyGiven: bool, found: Model, inUse: bool,
                    validation: Validation)
    | UpdateChecked(domain: int, id: int, merged: Model, keyGiven: bool, found: Model, inUse: bool,
                    validation: Validation, used: bool)
    | DeleteStart(domain: int, id: int)
    | DeleteLocked(domain: int, id: int)
    | DeleteChecked(domain: int, id: int, used: bool)
    | ValidateStart(domain: int, id: int)
    | ValidateProbed(domain: int, id: int)
    | SpaceStart(domain: int, space: int, embedding: Option<int>, reranker: Option<int>)
    | SpaceMerged(domain: int, space: int, refs: Refs, gateE: int, gateR: int)
    | SpaceHalfGated(domain: int, space: int, refs: Refs, gateE: int, gateR: int)
    | SpaceGated(domain: int, space: int, refs: Refs, gateE: int, gateR: int)

  /** Locks name the transaction that holds them. */
  datatype State = State(models: map<int, Model>, spaces: map<int, Refs>,
                         modelLocks: map<int, int>, spaceLocks: map<int, int>,
                         txns: map<int, Txn>, nextModel: int, nextSpace: int)

  predicate Visible(s: State, domain: int, id: int) {
    id in s.models && (s.models[id].domain == domain || s.models[id].domain == 0)
  }

  /** InUse looks at the spaces of the domain. */
  predicate InUse(s: State, id: int, domain: int) {
    exists x | x in s.spaces :: s.spaces[x].domain == domain
        && (s.spaces[x].embedding == id || s.spaces[x].reranker == id)
  }

  predicate Free(s: State, t: int, id: int) {
    id in s.modelLocks ==> s.modelLocks[id] == t
  }

  function Release(s: State, t: int): State {
    s.(modelLocks := map m | m in s.modelLocks && s.modelLocks[m] != t :: s.modelLocks[m],
       spaceLocks := map x | x in s.spaceLocks && s.spaceLocks[x] != t :: s.spaceLocks[x],
       txns := s.txns[t := Finished])
  }

  /** requireValidatedModel under its lock. */
  predicate GateOk(s: State, domain: int, id: int, typ: ModelType) {
    Visible(s, domain, id) && s.models[id].typ == typ && s.models[id].stamped
  }

  datatype Action =
    | Register(domain: int, model: Model, keyGiven: bool)
    | Start(txn: int, first: Txn)
    | Advance(txn: int, probeOk: bool)
    | Abort(txn: int)
    | DropSpace(space: int)

  predicate IsStart(t: Txn) {
    t.UpdateStart? || t.DeleteStart? || t.ValidateStart? || t.SpaceStart?
  }

  /** The next statement of the transaction does not wait for a lock. */
  predicate Ready(s: State, t: int)
    requires t in s.txns
  {
    match s.txns[t]
    case Finished => false
    case UpdateDecided(_, id, _, _, _, _, _) => Free(s, t, id)
    case DeleteStart(_, id) => Free(s, t, id)
    case ValidateProbed(_, id) => Free(s, t, id)
    case SpaceStart(_, x, _, _) => x !in s.spaceLocks
    case SpaceMerged(_, _, _, gateE, _) => gateE == 0 || Free(s, t, gateE)
    case SpaceHalfGated(_, _, _, _, gateR) => gateR == 0 || Free(s, t, gateR)
    case _ => true
  }

  predicate Enabled(s: State, a: Action) {
    match a
    case Register(domain, m, keyGiven) => domain > 0 && ValidRegistration(m) && ValidKey(m, keyGiven, true)
    case Start(t, first) => t !in s.txns && IsStart(first) && first.domain > 0
    case Advance(t, _) => t in s.txns && Ready(s, t)
    case Abort(t) => t in s.txns
    case DropSpace(x) => x in s.spaces && x !in s.spaceLocks
  }

  // ---------------------------------------------------------- the transactions

  function LockModel(s: State, t: int, id: int, next: Txn): State {
    s.(modelLocks := s.modelLocks[id := t], txns := s.txns[t := next])
  }

  /** embedding_model.go, Update, statement by statement. */
  function StepUpdate(s: State, t: int, probeOk: bool): State
    requires t in s.txns
  {
    match s.txns[t]
    case UpdateStart(domain, id, change) =>
      if !Visible(s, domain, id) || s.models[id].domain == 0 then Release(s, t)
      else
        var merged := Overlay(s.models[id], change);
        if merged.typ != s.models[id].typ || !ValidRegistration(merged) || !ValidKey(merged, change.keyGiven, false)
           || !KeyFollowsResource(s.models[id], merged, change.keyGiven) then Release(s, t)
        else s.(txns := s.txns[t := UpdateFound(domain, id, change, s.models[id])])
    case UpdateFound(domain, id, change, found) =>
      s.(txns := s.txns[t := UpdateProbing(domain, id, change, found, InUse(s, id, domain))])
    case UpdateProbing(domain, id, change, found, inUse) =>
      var merged := Overlay(found, change);
      var validation := Revalidate(found, merged, change.keyGiven, inUse, probeOk);
      if validation.None? then Release(s, t)
      else s.(txns := s.txns[t := UpdateDecided(domain, id, merged, change.keyGiven, found, inUse, validation.value)])
    case UpdateDecided(domain, id, merged, keyGiven, found, inUse, validation) =>
      if !Visible(s, domain, id) then Release(s, t)
      else LockModel(s, t, id, UpdateLocked(domain, id, merged, keyGiven, found, inUse, validation))
    case UpdateLocked(domain, id, merged, keyGiven, found, inUse, validation) =>
      s.(txns := s.txns[t := UpdateChecked(domain, id, merged, keyGiven, found, inUse, validation,
          InUse(s, id, domain))])
    case UpdateChecked(domain, id, merged, keyGiven, found, inUse, validation, used) =>
      if id !in s.models || !SameRegistration(found, s.models[id]) || (used && !inUse && validation == Reset)
         || s.models[id].domain != domain then Release(s, t)
      else Release(s.(models := s.models[id := Written(s.models[id], merged, keyGiven, validation)]), t)
    case _ => s
  }

  /** Delete and Validate. */
  function StepModel(s: State, t: int, probeOk: bool): State
    requires t in s.txns
  {
    match s.txns[t]
    case DeleteStart(domain, id) =>
      if !Visible(s, domain, id) || s.models[id].domain == 0 then Release(s, t)
      else LockModel(s, t, id, DeleteLocked(domain, id))
    case DeleteLocked(domain, id) =>
      s.(txns := s.txns[t := DeleteChecked(domain, id, InUse(s, id, domain))])
    case DeleteChecked(domain, id, used) =>
      if used || id !in s.models || s.models[id].domain != domain then Release(s, t)
      else Release(s.(models := s.models - {id}), t)
    case ValidateStart(domain, id) =>
      if !Visible(s, domain, id) || s.models[id].domain == 0 || !probeOk then Release(s, t)
      else s.(txns := s.txns[t := ValidateProbed(domain, id)])
    case ValidateProbed(domain, id) =>
      if id !in s.models || s.models[id].domain != domain then Release(s, t)
      else Release(s.(models := s.models[id := s.models[id].(stamped := true)]), t)
    case _ => s
  }

  /** space.go, Create (space 0) and Update, as far as the references go. */
  function StepSpace(s: State, t: int): State
    requires t in s.txns
  {
    match s.txns[t]
    case SpaceStart(domain, 0, embedding, reranker) =>
      var refs := Refs(domain, Pick(embedding, 0), Pick(reranker, 0));
      s.(txns := s.txns[t := SpaceMerged(domain, 0, refs, refs.embedding, refs.reranker)])
    case SpaceStart(domain, x, embedding, reranker) =>
      if x !in s.spaces || s.spaces[x].domain != domain then Release(s, t)
      else
        var current := s.spaces[x];
        var refs := Refs(domain, Pick(embedding, current.embedding), Pick(reranker, current.reranker));
        s.(spaceLocks := s.spaceLocks[x := t],
           txns := s.txns[t := SpaceMerged(domain, x, refs,
             if refs.embedding == current.embedding then 0 else refs.embedding,
             if refs.reranker == current.reranker then 0 else refs.reranker)])
    case SpaceMerged(domain, x, refs, gateE, gateR) =>
      if gateE == 0 then s.(txns := s.txns[t := SpaceHalfGated(domain, x, refs, gateE, gateR)])
      else if !GateOk(s, domain, gateE, EmbeddingType) then Release(s, t)
      else LockModel(s, t, gateE, SpaceHalfGated(domain, x, refs, gateE, gateR))
    case SpaceHalfGated(domain, x, refs, gateE, gateR) =>
      if gateR == 0 then s.(txns := s.txns[t := SpaceGated(domain, x, refs, gateE, gateR)])
      else if !GateOk(s, domain, gateR, RerankerType) then Release(s, t)
      else LockModel(s, t, gateR, SpaceGated(domain, x, refs, gateE, gateR))
    case SpaceGated(_, x, refs, _, _) =>
      if x == 0 then Release(s.(spaces := s.spaces[s.nextSpace := refs], nextSpace := s.nextSpace + 1), t)
      else Release(s.(spaces := s.spaces[x := refs]), t)
    case _ => s
  }

  function Next(s: State, a: Action): State
    requires Enabled(s, a)
  {
    match a
    case Register(domain, m, keyGiven) =>
      var key := if keyGiven then Some(Resource(m.identity.provider, m.endpoint)) else None;
      s.(models := s.models[s.nextModel := m.(domain := domain, key := key, stamped := false)],
          nextModel := s.nextModel + 1)
    case Start(t, first) => s.(txns := s.txns[t := first])
    case Advance(t, probeOk) =>
      var txn := s.txns[t];
      if txn.UpdateStart? || txn.UpdateFound? || txn.UpdateProbing? || txn.UpdateDecided? || txn.UpdateLocked?
         || txn.UpdateChecked? then StepUpdate(s, t, probeOk)
      else if txn.SpaceStart? || txn.SpaceMerged? || txn.SpaceHalfGated? || txn.SpaceGated? then StepSpace(s, t)
      else StepModel(s, t, probeOk)
    case Abort(t) => Release(s, t)
    case DropSpace(x) => s.(spaces := s.spaces - {x})
  }

  /** Global models are seeded validated, before anything runs. */
  predicate Seeded(s: State) {
    && s.spaces == map[] && s.modelLocks == map[] && s.spaceLocks == map[] && s.txns == map[]
    && s.nextSpace > 0 && s.nextModel > 0
    && forall m | m in s.models :: 0 < m < s.nextModel && ModelOk(s.models[m])
  }

  function Run(s: State, actions: seq<Action>): State
    decreases |actions|
  {
    if actions == [] then s
    else Run(if Enabled(s, actions[0]) then Next(s, actions[0]) else s, actions[1..])
  }

  // --------------------------------------------------------------- invariant

  /** A registered model is within the matrix, an embedded one holds no credential,
      and the credential of an azure model was given for the resource it is at. */
  predicate ModelOk(m: Model) {
    && ValidRegistration(m)
    && (IsEmbedded(m.identity.provider) ==> m.key.None?)
    && (m.identity.provider == Azure && m.key.Some? ==> m.key.value == Resource(Azure, m.endpoint))
  }

  predicate RefOk(s: State, domain: int, id: int, typ: ModelType) {
    id != 0 ==> GateOk(s, domain, id, typ)
  }

  predicate RefsOk(s: State, x: int)
    requires x in s.spaces
  {
    var refs := s.spaces[x];
    refs.domain > 0 && RefOk(s, refs.domain, refs.embedding, EmbeddingType)
        && RefOk(s, refs.domain, refs.reranker, RerankerType)
  }

  predicate Holds(s: State, t: int, id: int) {
    id in s.modelLocks && s.modelLocks[id] == t
  }

  /** What an update has decided about the merged registration. */
  predicate DecisionOk(domain: int, merged: Model, keyGiven: bool, found: Model, inUse: bool, validation: Validation) {
    && ValidRegistration(merged) && merged.typ == found.typ && KeyFollowsResource(found, merged, keyGiven)
    && (validation == Reset ==> !inUse)
    && (validation != Reset ==> merged.identity == found.identity)
  }

  /** A space transaction holds its space and keeps or gates each reference. */
  predicate SpaceTxnOk(s: State, t: int, domain: int, x: int, refs: Refs, gateE: int, gateR: int) {
    && domain > 0 && refs.domain == domain
    && (x != 0 ==> x in s.spaceLocks && s.spaceLocks[x] == t && x in s.spaces && s.spaces[x].domain == domain)
    && (refs.embedding != gateE ==> gateE == 0 && x != 0 && refs.embedding == s.spaces[x].embedding)
    && (refs.reranker != gateR ==> gateR == 0 && x != 0 && refs.reranker == s.spaces[x].reranker)
  }

  predicate TxnOk(s: State, t: int)
    requires t in s.txns
  {
    match s.txns[t]
    case UpdateStart(domain, _, _) => domain > 0
    case UpdateFound(domain, id, change, found) =>
      domain > 0 && DecisionOk(domain, Overlay(found, change), change.keyGiven, found, false, Reset)
    case UpdateProbing(domain, id, change, found, inUse) =>
      domain > 0 && DecisionOk(domain, Overlay(found, change), change.keyGiven, found, false, Reset)
    case UpdateDecided(domain, id, merged, keyGiven, found, inUse, validation) =>
      domain > 0 && DecisionOk(domain, merged, keyGiven, found, inUse, validation)
    case UpdateLocked(domain, id, merged, keyGiven, found, inUse, validation) =>
      domain > 0 && DecisionOk(domain, merged, keyGiven, found, inUse, validation) && Holds(s, t, id)
    case UpdateChecked(domain, id, merged, keyGiven, found, inUse, validation, used) =>
      domain > 0 && DecisionOk(domain, merged, keyGiven, found, inUse, validation) && Holds(s, t, id)
      && (!used ==> !InUse(s, id, domain))
    case DeleteStart(domain, _) => domain > 0
    case DeleteLocked(domain, id) => domain > 0 && Holds(s, t, id)
    case DeleteChecked(domain, id, used) => domain > 0 && Holds(s, t, id) && (!used ==> !InUse(s, id, domain))
    case SpaceStart(domain, _, _, _) => domain > 0
    case SpaceMerged(domain, x, refs, gateE, gateR) => SpaceTxnOk(s, t, domain, x, refs, gateE, gateR)
    case SpaceHalfGated(domain, x, refs, gateE, gateR) =>
      && SpaceTxnOk(s, t, domain, x, refs, gateE, gateR)
      && (gateE != 0 ==> Holds(s, t, gateE) && GateOk(s, domain, gateE, EmbeddingType))
    case SpaceGated(domain, x, refs, gateE, gateR) =>
      && SpaceTxnOk(s, t, domain, x, refs, gateE, gateR)
      && (gateE != 0 ==> Holds(s, t, gateE) && GateOk(s, domain, gateE, EmbeddingType))
      && (gateR != 0 ==> Holds(s, t, gateR) && GateOk(s, domain, gateR, RerankerType))
    case _ => true
  }

  ghost predicate Inv(s: State) {
    && s.nextModel > 0 && s.nextSpace > 0
    && (forall m | m in s.modelLocks :: m > 0)
    && (forall m | m in s.models :: 0 < m < s.nextModel && ModelOk(s.models[m]))
    && (forall x | x in s.spaces :: 0 < x < s.nextSpace && RefsOk(s, x))
    && (forall t | t in s.txns :: TxnOk(s, t))
  }

  /** No reference of a space is lost, and no referenced model changes what it is. */
  predicate StableFor(s: State, s': State, x: int)
    requires x in s.spaces
  {
    && StableModel(s, s', s.spaces[x].embedding)
    && StableModel(s, s', s.spaces[x].reranker)
  }

  predicate StableModel(s: State, s': State, m: int) {
    m in s.models ==>
      && m in s'.models
      && s'.models[m].identity == s.models[m].identity && s'.models[m].typ == s.models[m].typ
      && s'.models[m].domain == s.models[m].domain && (s.models[m].stamped ==> s'.models[m].stamped)
  }

  // ------------------------------------------------------------- preservation

  /** What the step of one transaction must leave to another: its locks, the rows
      under them, and no new use of a model it locked. */
  ghost predicate Respects(s: State, s': State, u: int) {
    && (forall m | Holds(s, u, m) :: Holds(s', u, m) && StableModel(s, s', m))
    && (forall x | x in s.spaceLocks && s.spaceLocks[x] == u ::
          x in s'.spaceLocks && s'.spaceLocks[x] == u
              && (x in s.spaces ==> x in s'.spaces && s'.spaces[x] == s.spaces[x]))
    && (forall m, d | Holds(s, u, m) && InUse(s', m, d) :: InUse(s, m, d))
  }

  lemma TxnSurvives(s: State, s': State, u: int)
    requires u in s.txns && TxnOk(s, u) && u in s'.txns && s'.txns[u] == s.txns[u] && Respects(s, s', u)
    ensures TxnOk(s', u)
  {
  }

  lemma ReleaseRespects(s: State, t: int, u: int)
    requires u != t
    ensures Respects(s, Release(s, t), u)
  {
    var s' := Release(s, t);
    forall m, d | Holds(s, u, m) && InUse(s', m, d) ensures InUse(s, m, d) {
      var x :| x in s'.spaces && s'.spaces[x].domain == d
          && (s'.spaces[x].embedding == m || s'.spaces[x].reranker == m);
    }
  }

  lemma ReleaseKeepsInv(s: State, t: int)
    requires Inv(s)
    ensures Inv(Release(s, t))
  {
    var s' := Release(s, t);
    forall u | u in s'.txns ensures TxnOk(s', u) {
      if u != t {
        ReleaseRespects(s, t, u);
        TxnSurvives(s, s', u);
      }
    }
    forall x | x in s'.spaces ensures RefsOk(s', x) {
      assert RefsOk(s, x);
    }
  }

  lemma SameSpacesSameUse(s: State, s': State, m: int, d: int)
    requires s.spaces == s'.spaces
    ensures InUse(s', m, d) <==> InUse(s, m, d)
  {
  }

  /** A step that writes no row: it may take a free lock and go on. */
  lemma QuietStepKeepsInv(s: State, t: int, s': State)
    requires Inv(s) && t in s.txns && t in s'.txns
    requires s' == s.(modelLocks := s'.modelLocks, txns := s.txns[t := s'.txns[t]]) && TxnOk(s', t)
    requires forall m | m in s.modelLocks && s.modelLocks[m] != t ::
      m in s'.modelLocks && s'.modelLocks[m] == s.modelLocks[m]
    requires forall m | m in s'.modelLocks :: m > 0
    ensures Inv(s')
  {
    forall u | u in s'.txns ensures TxnOk(s', u) {
      if u != t {
        forall m, d ensures InUse(s', m, d) <==> InUse(s, m, d) { SameSpacesSameUse(s, s', m, d); }
        TxnSurvives(s, s', u);
      }
    }
    forall x | x in s'.spaces ensures RefsOk(s', x) {
      assert RefsOk(s, x);
    }
  }

  /** Writing or removing one model row that no gate can miss. */
  lemma ModelWriteKeepsInv(s: State, t: int, id: int, row: Option<Model>)
    requires Inv(s) && id in s.models && Free(s, t, id) && (row.Some? ==> ModelOk(row.value))
    requires (row.Some? && row.value.typ == s.models[id].typ && row.value.domain == s.models[id].domain
              && (s.models[id].stamped ==> row.value.stamped))
          || (s.models[id].domain > 0 && !InUse(s, id, s.models[id].domain))
    ensures Inv(s.(models := if row.Some? then s.models[id := row.value] else s.models - {id},
                   txns := s.txns[t := Finished]))
  {
    var s' := s.(models := if row.Some? then s.models[id := row.value]
        else s.models - {id}, txns := s.txns[t := Finished]);
    forall u | u in s'.txns ensures TxnOk(s', u) {
      if u != t {
        forall m, d ensures InUse(s', m, d) <==> InUse(s, m, d) { SameSpacesSameUse(s, s', m, d); }
        TxnSurvives(s, s', u);
      }
    }
    forall x | x in s'.spaces ensures RefsOk(s', x) {
      assert RefsOk(s, x);
    }
  }

  lemma UpdateReadsKeepInv(s: State, t: int, probeOk: bool)
    requires Inv(s) && t in s.txns && Ready(s, t)
    requires s.txns[t].UpdateStart? || s.txns[t].UpdateFound? || s.txns[t].UpdateProbing?
    ensures Inv(StepUpdate(s, t, probeOk))
  {
    assert TxnOk(s, t);
    ReleaseKeepsInv(s, t);
    var s' := StepUpdate(s, t, probeOk);
    if s' != Release(s, t) {
      QuietStepKeepsInv(s, t, s');
    }
  }

  lemma UpdateLocksKeepInv(s: State, t: int, probeOk: bool)
    requires Inv(s) && t in s.txns && Ready(s, t) && (s.txns[t].UpdateDecided? || s.txns[t].UpdateLocked?)
    ensures Inv(StepUpdate(s, t, probeOk))
  {
    assert TxnOk(s, t);
    ReleaseKeepsInv(s, t);
    var s' := StepUpdate(s, t, probeOk);
    if s' != Release(s, t) {
      SameSpacesSameUse(s, s', s.txns[t].id, s.txns[t].domain);
      QuietStepKeepsInv(s, t, s');
    }
  }

  /** The row an update writes is a good one, keeps its type, and loses its stamp
      only by a reset. */
  lemma WrittenIsGood(row: Model, domain: int, merged: Model, keyGiven: bool, found: Model, inUse: bool,
      validation: Validation)
    requires ModelOk(row) && DecisionOk(domain, merged, keyGiven, found, inUse, validation)
        && SameRegistration(found, row)
    ensures var row' := Written(row, merged, keyGiven, validation);
            ModelOk(row') && row'.typ == row.typ && row'.domain == row.domain
            && (validation != Reset ==> row'.identity == row.identity && (row.stamped ==> row'.stamped))
  {
  }

  lemma WriteAndRelease(s: State, t: int, id: int, row: Option<Model>)
    requires Inv(s) && t in s.txns && id in s.models && Holds(s, t, id) && (row.Some? ==> ModelOk(row.value))
    requires (row.Some? && row.value.typ == s.models[id].typ && row.value.domain == s.models[id].domain
              && (s.models[id].stamped ==> row.value.stamped))
          || (s.models[id].domain > 0 && !InUse(s, id, s.models[id].domain))
    ensures Inv(Release(s.(models := if row.Some? then s.models[id := row.value] else s.models - {id}), t))
  {
    ModelWriteKeepsInv(s, t, id, row);
    var s1 := s.(models := if row.Some? then s.models[id := row.value] else s.models - {id});
    ReleaseKeepsInv(s1.(txns := s.txns[t := Finished]), t);
    assert Release(s1.(txns := s.txns[t := Finished]), t) == Release(s1, t);
  }

  lemma UpdateWriteKeepsInv(s: State, t: int, probeOk: bool)
    requires Inv(s) && t in s.txns && s.txns[t].UpdateChecked?
    ensures Inv(StepUpdate(s, t, probeOk))
  {
    assert TxnOk(s, t);
    ReleaseKeepsInv(s, t);
    var txn := s.txns[t];
    if txn.id in s.models && SameRegistration(txn.found, s.models[txn.id]) && s.models[txn.id].domain == txn.domain
       && !(txn.used && !txn.inUse && txn.validation == Reset) {
      assert ModelOk(s.models[txn.id]);
      WrittenIsGood(s.models[txn.id], txn.domain, txn.merged, txn.keyGiven, txn.found, txn.inUse, txn.validation);
      WriteAndRelease(s, t, txn.id, Some(Written(s.models[txn.id], txn.merged, txn.keyGiven, txn.validation)));
    }
  }

  lemma DeleteKeepsInv(s: State, t: int, probeOk: bool)
    requires Inv(s) && t in s.txns && s.txns[t].DeleteChecked?
    ensures Inv(StepModel(s, t, probeOk))
  {
    assert TxnOk(s, t);
    ReleaseKeepsInv(s, t);
    var txn := s.txns[t];
    if txn.id in s.models && s.models[txn.id].domain == txn.domain && !txn.used {
      WriteAndRelease(s, t, txn.id, None);
    }
  }

  /** The stamp of a validation takes the row lock for its one statement. */
  lemma StampKeepsInv(s: State, t: int, probeOk: bool)
    requires Inv(s) && t in s.txns && Ready(s, t) && s.txns[t].ValidateProbed?
    ensures Inv(StepModel(s, t, probeOk))
  {
    ReleaseKeepsInv(s, t);
    var txn := s.txns[t];
    if txn.id in s.models && s.models[txn.id].domain == txn.domain {
      var row := s.models[txn.id].(stamped := true);
      assert ModelOk(s.models[txn.id]);
      ModelWriteKeepsInv(s, t, txn.id, Some(row));
      var s1 := s.(models := s.models[txn.id := row]);
      ReleaseKeepsInv(s1.(txns := s.txns[t := Finished]), t);
      assert Release(s1.(txns := s.txns[t := Finished]), t) == Release(s1, t);
    }
  }

  lemma ModelReadsKeepInv(s: State, t: int, probeOk: bool)
    requires Inv(s) && t in s.txns && Ready(s, t)
    requires s.txns[t].DeleteStart? || s.txns[t].DeleteLocked? || s.txns[t].ValidateStart?
    ensures Inv(StepModel(s, t, probeOk))
  {
    assert TxnOk(s, t);
    ReleaseKeepsInv(s, t);
    var s' := StepModel(s, t, probeOk);
    if s' != Release(s, t) {
      SameSpacesSameUse(s, s', s.txns[t].id, s.txns[t].domain);
      QuietStepKeepsInv(s, t, s');
    }
  }

  lemma SpaceStartKeepsInv(s: State, t: int)
    requires Inv(s) && t in s.txns && Ready(s, t) && s.txns[t].SpaceStart?
    ensures Inv(StepSpace(s, t))
  {
    assert TxnOk(s, t);
    ReleaseKeepsInv(s, t);
    var s' := StepSpace(s, t);
    if s' != Release(s, t) {
      forall m, d ensures InUse(s', m, d) <==> InUse(s, m, d) { SameSpacesSameUse(s, s', m, d); }
      forall u | u in s'.txns ensures TxnOk(s', u) {
        if u != t {
          TxnSurvives(s, s', u);
        }
      }
      forall x | x in s'.spaces ensures RefsOk(s', x) {
        assert RefsOk(s, x);
      }
    }
  }

  lemma SpaceGatesKeepInv(s: State, t: int)
    requires Inv(s) && t in s.txns && Ready(s, t) && (s.txns[t].SpaceMerged? || s.txns[t].SpaceHalfGated?)
    ensures Inv(StepSpace(s, t))
  {
    assert TxnOk(s, t);
    ReleaseKeepsInv(s, t);
    var s' := StepSpace(s, t);
    if s' != Release(s, t) {
      QuietStepKeepsInv(s, t, s');
    }
  }

  /** The references a gated space transaction writes are good, and none of them is
      new to a model somebody else has locked. */
  lemma SpaceWriteKeepsInv(s: State, t: int)
    requires Inv(s) && t in s.txns && s.txns[t].SpaceGated?
    ensures Inv(StepSpace(s, t))
  {
    var txn := s.txns[t];
    assert TxnOk(s, t);
    var at := if txn.space == 0 then s.nextSpace else txn.space;
    var s1 := s.(spaces := s.spaces[at := txn.refs], nextSpace := if txn.space == 0 then at + 1 else s.nextSpace,
                 txns := s.txns[t := Finished]);
    if txn.space != 0 { assert RefsOk(s, txn.space); }
    forall u | u in s1.txns ensures TxnOk(s1, u) {
      if u != t {
        forall m, d | Holds(s, u, m) && InUse(s1, m, d) ensures InUse(s, m, d) {
          NewUseIsGated(s, s1, t, u, m, d, at);
        }
        TxnSurvives(s, s1, u);
      }
    }
    forall x | x in s1.spaces ensures RefsOk(s1, x) {
      if x != at { assert RefsOk(s, x); }
    }
    ReleaseKeepsInv(s1, t);
    assert StepSpace(s, t) == Release(s1, t);
  }

  lemma NewUseIsGated(s: State, s1: State, t: int, u: int, m: int, d: int, at: int)
    requires Inv(s) && t in s.txns && s.txns[t].SpaceGated? && u != t
    requires at == if s.txns[t].space == 0 then s.nextSpace else s.txns[t].space
    requires s1.spaces == s.spaces[at := s.txns[t].refs] && Holds(s, u, m) && InUse(s1, m, d)
    ensures InUse(s, m, d)
  {
    assert TxnOk(s, t);
    var x :| x in s1.spaces && s1.spaces[x].domain == d && (s1.spaces[x].embedding == m || s1.spaces[x].reranker == m);
    if x == at {
      assert s.txns[t].space != 0;
      assert x in s.spaces && s.spaces[x].domain == d;
    }
  }

  lemma AdvanceKeepsInv(s: State, t: int, probeOk: bool)
    requires Inv(s) && Enabled(s, Advance(t, probeOk))
    ensures Inv(Next(s, Advance(t, probeOk)))
  {
    var txn := s.txns[t];
    if txn.UpdateStart? || txn.UpdateFound? || txn.UpdateProbing? { UpdateReadsKeepInv(s, t, probeOk); }
    else if txn.UpdateDecided? || txn.UpdateLocked? { UpdateLocksKeepInv(s, t, probeOk); }
    else if txn.UpdateChecked? { UpdateWriteKeepsInv(s, t, probeOk); }
    else if txn.SpaceStart? { SpaceStartKeepsInv(s, t); }
    else if txn.SpaceMerged? || txn.SpaceHalfGated? { SpaceGatesKeepInv(s, t); }
    else if txn.SpaceGated? { SpaceWriteKeepsInv(s, t); }
    else if txn.DeleteChecked? { DeleteKeepsInv(s, t, probeOk); }
    else if txn.ValidateProbed? { StampKeepsInv(s, t, probeOk); }
    else { ModelReadsKeepInv(s, t, probeOk); }
  }

  lemma OtherActionKeepsInv(s: State, a: Action)
    requires Inv(s) && Enabled(s, a) && (a.Register? || a.Start? || a.DropSpace?)
    ensures Inv(Next(s, a))
  {
    var s' := Next(s, a);
    forall u | u in s'.txns ensures TxnOk(s', u) {
      if u in s.txns {
        forall m, d | Holds(s, u, m) && InUse(s', m, d) ensures InUse(s, m, d) {
          var x :| x in s'.spaces && s'.spaces[x].domain == d
              && (s'.spaces[x].embedding == m || s'.spaces[x].reranker == m);
        }
        TxnSurvives(s, s', u);
      }
    }
    forall x | x in s'.spaces ensures RefsOk(s', x) {
      assert RefsOk(s, x);
    }
  }

  lemma ActionKeepsInv(s: State, a: Action)
    requires Inv(s) && Enabled(s, a)
    ensures Inv(Next(s, a))
  {
    match a
    case Advance(t, probeOk) => AdvanceKeepsInv(s, t, probeOk);
    case Abort(t) => ReleaseKeepsInv(s, t);
    case _ => OtherActionKeepsInv(s, a);
  }

  lemma {:induction false} RunKeepsInv(s: State, actions: seq<Action>)
    requires Inv(s)
    ensures Inv(Run(s, actions))
    decreases |actions|
  {
    if actions != [] {
      if Enabled(s, actions[0]) {
        ActionKeepsInv(s, actions[0]);
        RunKeepsInv(Next(s, actions[0]), actions[1..]);
      } else {
        RunKeepsInv(s, actions[1..]);
      }
    }
  }

  // ------------------------------------------------------------ main results

  /** The providers that run beside the service. */
  predicate Local(p: Provider) {
    p in [BgeM3, E5, BgeReranker, Byom]
  }

  /** What a registered model looks like, field by field. */
  predicate WithinMatrix(m: Model) {
    var p := m.identity.provider;
    && m.name != "" && m.identity.ref != ""
    && (Local(p) || p in [Gemini, OpenAI, Cohere, Azure]) && (m.identity.selfHosted <==> Local(p))
    && (m.typ == RerankerType ==> p in [Cohere, BgeReranker, Byom] && m.identity.dimensions == 0)
    && (m.typ == EmbeddingType ==> p != BgeReranker && m.identity.dimensions in [768, 1024])
    && !m.endpoint.Malformed? && (Local(p) ==> m.endpoint != NoEndpoint) && (p == Azure ==> m.endpoint.Https?)
  }

  /** In every interleaving each model reference of a space names a registered model
      the domain can see, of the role it fills, with its stamp set. */
  lemma ReferencesAreGood(s: State, actions: seq<Action>, x: int)
    requires Seeded(s) && x in Run(s, actions).spaces
    ensures var r := Run(s, actions);
            var domain, embedding, reranker := r.spaces[x].domain, r.spaces[x].embedding, r.spaces[x].reranker;
            && (embedding != 0 ==>
                  && embedding in r.models && r.models[embedding].typ == EmbeddingType && r.models[embedding].stamped
                  && (r.models[embedding].domain == domain || r.models[embedding].domain == 0))
            && (reranker != 0 ==>
                  && reranker in r.models && r.models[reranker].typ == RerankerType && r.models[reranker].stamped
                  && (r.models[reranker].domain == domain || r.models[reranker].domain == 0))
  {
    RunKeepsInv(s, actions);
    assert RefsOk(Run(s, actions), x);
  }

  lemma UpdateReadsLeaveModels(s: State, t: int, probeOk: bool)
    requires t in s.txns && !s.txns[t].UpdateChecked?
    ensures StepUpdate(s, t, probeOk).models == s.models
  {
  }

  lemma ModelReadsLeaveModels(s: State, t: int, probeOk: bool)
    requires t in s.txns && !s.txns[t].DeleteChecked? && !s.txns[t].ValidateProbed?
    ensures StepModel(s, t, probeOk).models == s.models
  {
  }

  lemma SpaceLeavesModels(s: State, t: int)
    requires t in s.txns
    ensures StepSpace(s, t).models == s.models
  {
  }

  /** Only three statements write to the registry. */
  lemma OthersLeaveModels(s: State, a: Action)
    requires Enabled(s, a) && !a.Register?
    requires a.Advance? ==>
      !s.txns[a.txn].UpdateChecked? && !s.txns[a.txn].DeleteChecked? && !s.txns[a.txn].ValidateProbed?
    ensures Next(s, a).models == s.models
  {
    if a.Advance? {
      UpdateReadsLeaveModels(s, a.txn, a.probeOk);
      SpaceLeavesModels(s, a.txn);
      ModelReadsLeaveModels(s, a.txn, a.probeOk);
    }
  }

  /** The step that rewrites a model while a space refers to it leaves what the
      model is, and its stamp; nothing deletes it. */
  lemma UsedModelIsStable(s: State, a: Action, x: int)
    requires Inv(s) && Enabled(s, a) && x in s.spaces
    ensures StableFor(s, Next(s, a), x)
  {
    if a.Advance? && s.txns[a.txn].UpdateChecked? {
      UpdateIsStable(s, a.txn, a.probeOk, x);
    } else if a.Advance? && s.txns[a.txn].DeleteChecked? {
      DeleteIsStable(s, a.txn, a.probeOk, x);
    } else if a.Advance? && s.txns[a.txn].ValidateProbed? {
      StampIsStable(s, a.txn, a.probeOk, x);
    } else if a.Register? {
      RegisterIsStable(s, a, x);
    } else {
      OthersLeaveModels(s, a);
    }
  }

  lemma StampIsStable(s: State, t: int, probeOk: bool, x: int)
    requires Inv(s) && t in s.txns && s.txns[t].ValidateProbed? && x in s.spaces
    ensures StableFor(s, StepModel(s, t, probeOk), x)
  {
  }

  lemma RegisterIsStable(s: State, a: Action, x: int)
    requires Inv(s) && a.Register? && Enabled(s, a) && x in s.spaces
    ensures StableFor(s, Next(s, a), x)
  {
  }

  lemma DeleteIsStable(s: State, t: int, probeOk: bool, x: int)
    requires Inv(s) && t in s.txns && s.txns[t].DeleteChecked? && x in s.spaces
    ensures StableFor(s, StepModel(s, t, probeOk), x)
  {
    var txn := s.txns[t];
    assert TxnOk(s, t);
    if txn.id in s.models && s.models[txn.id].domain == txn.domain
       && (s.spaces[x].embedding == txn.id || s.spaces[x].reranker == txn.id) {
      UseIsSeen(s, x, txn.id, txn.domain);
    }
  }

  lemma UseIsSeen(s: State, x: int, m: int, d: int)
    requires Inv(s) && x in s.spaces && (s.spaces[x].embedding == m || s.spaces[x].reranker == m)
    requires m in s.models && s.models[m].domain == d && d > 0
    ensures InUse(s, m, d)
  {
    assert RefsOk(s, x);
  }

  lemma UpdateIsStable(s: State, t: int, probeOk: bool, x: int)
    requires Inv(s) && t in s.txns && s.txns[t].UpdateChecked? && x in s.spaces
    ensures StableFor(s, StepUpdate(s, t, probeOk), x)
  {
    var txn := s.txns[t];
    assert TxnOk(s, t);
    if txn.id in s.models && s.models[txn.id].domain == txn.domain
       && (s.spaces[x].embedding == txn.id || s.spaces[x].reranker == txn.id) {
      UseIsSeen(s, x, txn.id, txn.domain);
    }
  }

  /** Over every run: as long as a space refers to a model, each step it takes part
      in leaves provider, model_ref, self-hosted flag and dimensions alone. */
  lemma UsedModelIsStableInRun(s: State, actions: seq<Action>, a: Action, x: int)
    requires Seeded(s) && Enabled(Run(s, actions), a) && x in Run(s, actions).spaces
    ensures StableFor(Run(s, actions), Next(Run(s, actions), a), x)
  {
    RunKeepsInv(s, actions);
    UsedModelIsStable(Run(s, actions), a, x);
  }

  /** Every row of the registry stays within the matrix; a self-hosted provider is
      stored without a credential, and azure is never sent the credential of another
      resource, however updates interleave. */
  lemma CredentialsStayHome(s: State, actions: seq<Action>, m: int)
    requires Seeded(s) && m in Run(s, actions).models
    ensures var row := Run(s, actions).models[m];
            && WithinMatrix(row)
            && (Local(row.identity.provider) ==> row.key.None?)
            && (row.identity.provider == Azure && row.key.Some? ==> row.key.value == Resource(Azure, row.endpoint))
  {
    RunKeepsInv(s, actions);
  }
}
