/** What the transactions of the model registry do when nothing comes between their
    statements, and where the stamp of a model comes from. */
module ModelLaws {
  import opened Wrappers
  import opened ModelRegistry

  // ------------------------------------------------------------------- stamps

  /** The model a probe has just answered for. */
  function JustProbed(s: State, a: Action): set<int>
    requires Enabled(s, a)
  {
    if !a.Advance? || !a.probeOk then {}
    else
      match s.txns[a.txn]
      case ValidateStart(_, id) => {id}
      case UpdateProbing(_, id, _, _, _) => {id}
      case _ => {}
  }

  /** The models a probe answers for in a run. */
  function Probed(s: State, actions: seq<Action>): set<int>
    decreases |actions|
  {
    if actions == [] then {}
    else if Enabled(s, actions[0]) then JustProbed(s, actions[0]) + Probed(Next(s, actions[0]), actions[1..])
    else Probed(s, actions[1..])
  }

  /** A transaction about to stamp a model has had it probed. */
  predicate StampsOnlyProbed(txn: Txn, probed: set<int>) {
    match txn
    case ValidateProbed(_, id) => id in probed
    case UpdateDecided(_, id, _, _, _, _, validation) => validation == Stamp ==> id in probed
    case UpdateLocked(_, id, _, _, _, _, validation) => validation == Stamp ==> id in probed
    case UpdateChecked(_, id, _, _, _, _, validation, _) => validation == Stamp ==> id in probed
    case _ => true
  }

  predicate AllProbed(s: State, probed: set<int>) {
    && (forall m | m in s.models && s.models[m].stamped :: m in probed)
    && (forall t | t in s.txns :: StampsOnlyProbed(s.txns[t], probed))
  }

  lemma UpdateStampsProbed(s: State, t: int, probeOk: bool, probed: set<int>)
    requires Enabled(s, Advance(t, probeOk)) && AllProbed(s, probed)
    ensures AllProbed(StepUpdate(s, t, probeOk), probed + JustProbed(s, Advance(t, probeOk)))
  {
    assert StampsOnlyProbed(s.txns[t], probed);
  }

  lemma ModelStampsProbed(s: State, t: int, probeOk: bool, probed: set<int>)
    requires Enabled(s, Advance(t, probeOk)) && AllProbed(s, probed)
    ensures AllProbed(StepModel(s, t, probeOk), probed + JustProbed(s, Advance(t, probeOk)))
  {
    assert StampsOnlyProbed(s.txns[t], probed);
  }

  lemma SpaceStampsProbed(s: State, t: int, probed: set<int>)
    requires t in s.txns && AllProbed(s, probed)
    ensures AllProbed(StepSpace(s, t), probed)
  {
  }

  lemma StepStampsProbed(s: State, a: Action, probed: set<int>)
    requires Enabled(s, a) && AllProbed(s, probed)
    ensures AllProbed(Next(s, a), probed + JustProbed(s, a))
  {
    if a.Advance? {
      UpdateStampsProbed(s, a.txn, a.probeOk, probed);
      ModelStampsProbed(s, a.txn, a.probeOk, probed);
      SpaceStampsProbed(s, a.txn, probed);
    }
  }

  lemma {:induction false} RunStampsProbed(s: State, actions: seq<Action>, probed: set<int>)
    requires AllProbed(s, probed)
    ensures AllProbed(Run(s, actions), probed + Probed(s, actions))
    decreases |actions|
  {
    if actions != [] {
      if Enabled(s, actions[0]) {
        var now := JustProbed(s, actions[0]);
        StepStampsProbed(s, actions[0], probed);
        RunStampsProbed(Next(s, actions[0]), actions[1..], probed + now);
        assert probed + now + Probed(Next(s, actions[0]), actions[1..]) == probed + Probed(s, actions);
      } else {
        RunStampsProbed(s, actions[1..], probed);
      }
    }
  }

  /** No model carries a stamp it was not seeded with unless a probe answered for it. */
  lemma StampsAreEarned(s: State, actions: seq<Action>, m: int)
    requires Seeded(s) && m in Run(s, actions).models && Run(s, actions).models[m].stamped
    ensures (m in s.models && s.models[m].stamped) || m in Probed(s, actions)
  {
    var seeded := set x | x in s.models && s.models[x].stamped;
    RunStampsProbed(s, actions, seeded);
  }

  // -------------------------------------------------- transactions by themselves

  predicate Idle(s: State) {
    s.modelLocks == map[] && s.spaceLocks == map[]
  }

  function Advanced(s: State, t: int, probeOk: bool): State {
    if Enabled(s, Advance(t, probeOk)) then Next(s, Advance(t, probeOk)) else s
  }

  /** The transaction begins and takes k steps, probes answering as told. */
  function Alone(s: State, t: int, first: Txn, probeOk: bool, k: nat): State {
    if k == 0 then s.(txns := s.txns[t := first]) else Advanced(Alone(s, t, first, probeOk, k - 1), t, probeOk)
  }

  /** Nobody else holds a lock. */
  predicate OnlyLocker(s: State, t: int) {
    && (forall m | m in s.modelLocks :: s.modelLocks[m] == t)
    && (forall x | x in s.spaceLocks :: s.spaceLocks[x] == t)
  }

  lemma ReleasedIsIdle(s: State, t: int)
    requires OnlyLocker(s, t)
    ensures Idle(Release(s, t))
  {
    var s' := Release(s, t);
    assert forall m :: m !in s'.modelLocks.Keys;
    assert forall x :: x !in s'.spaceLocks.Keys;
    assert s'.modelLocks == map[] && s'.spaceLocks == map[];
  }

  /** A finished transaction takes no further step. */
  lemma DoneStays(s: State, t: int, probeOk: bool)
    requires t in s.txns && s.txns[t] == Finished
    ensures Advanced(s, t, probeOk) == s
  {
  }

  // ------------------------------------------------------------------- spaces

  /** A registered model of the domain or of all, of this role, with its stamp. */
  predicate Usable(s: State, domain: int, id: int, typ: ModelType) {
    id in s.models && (s.models[id].domain == domain || s.models[id].domain == 0)
    && s.models[id].typ == typ && s.models[id].stamped
  }

  /** The references a space has, none when it is new. */
  function Had(s: State, domain: int, x: int): Refs {
    if x in s.spaces then s.spaces[x] else Refs(domain, 0, 0)
  }

  function Taken(had: Refs, domain: int, embedding: Option<int>, reranker: Option<int>): Refs {
    Refs(domain, if embedding.Some? then embedding.value else had.embedding,
         if reranker.Some? then reranker.value else had.reranker)
  }

  /** The gate lets a reference through that the space had, that is none, or is usable. */
  predicate Passes(s: State, domain: int, had: int, id: int, typ: ModelType) {
    id == 0 || id == had || Usable(s, domain, id, typ)
  }

  lemma SpaceStarts(s: State, t: int)
    requires Inv(s) && Idle(s) && t in s.txns && s.txns[t].SpaceStart?
    ensures var s', txn := Advanced(s, t, false), s.txns[t];
            var had, x := Had(s, txn.domain, txn.space), txn.space;
            var takes := Taken(had, txn.domain, txn.embedding, txn.reranker);
            && OnlyLocker(s', t) && s'.models == s.models && s'.spaces == s.spaces && s'.nextSpace == s.nextSpace
            && t in s'.txns
            && if x == 0 || (x in s.spaces && s.spaces[x].domain == txn.domain) then
                 s'.txns[t] == SpaceMerged(txn.domain, x, takes,
                                           if takes.embedding == had.embedding then 0 else takes.embedding,
                                           if takes.reranker == had.reranker then 0 else takes.reranker)
               else s'.txns[t] == Finished && Idle(s')
  {
    assert Enabled(s, Advance(t, false));
    ReleasedIsIdle(s, t);
  }

  lemma SpaceGates(s: State, t: int)
    requires OnlyLocker(s, t) && t in s.txns && (s.txns[t].SpaceMerged? || s.txns[t].SpaceHalfGated?)
    ensures var s', txn := Advanced(s, t, false), s.txns[t];
            && OnlyLocker(s', t) && s'.models == s.models && s'.spaces == s.spaces && s'.nextSpace == s.nextSpace
            && t in s'.txns
            && (var passes := if txn.SpaceMerged? then Passes(s, txn.domain, 0, txn.gateE, EmbeddingType)
                              else Passes(s, txn.domain, 0, txn.gateR, RerankerType);
                if !passes then s'.txns[t] == Finished && Idle(s')
                else if txn.SpaceMerged? then
                  s'.txns[t] == SpaceHalfGated(txn.domain, txn.space, txn.refs, txn.gateE, txn.gateR)
                else s'.txns[t] == SpaceGated(txn.domain, txn.space, txn.refs, txn.gateE, txn.gateR))
  {
    assert Enabled(s, Advance(t, false));
    ReleasedIsIdle(s, t);
  }

  lemma SpaceWrites(s: State, t: int)
    requires OnlyLocker(s, t) && t in s.txns && s.txns[t].SpaceGated?
    ensures var s', txn := Advanced(s, t, false), s.txns[t];
            && Idle(s') && s'.models == s.models
            && s'.spaces == s.spaces[(if txn.space == 0 then s.nextSpace else txn.space) := txn.refs]
  {
    var txn := s.txns[t];
    var s1 := s.(spaces := s.spaces[(if txn.space == 0 then s.nextSpace else txn.space) := txn.refs],
                 nextSpace := if txn.space == 0 then s.nextSpace + 1 else s.nextSpace);
    assert Enabled(s, Advance(t, false)) && Advanced(s, t, false) == Release(s1, t);
    ReleasedIsIdle(s1, t);
  }

  /** A space, new as 0 or of the domain, takes exactly the references asked for, if each
      it did not have is usable; otherwise nothing happens. */
  lemma SpaceTakesModels(s: State, t: int, domain: int, x: int, embedding: Option<int>, reranker: Option<int>)
    requires Inv(s) && Idle(s) && t !in s.txns && domain > 0
    ensures var s' := Alone(s, t, SpaceStart(domain, x, embedding, reranker), false, 4);
            var had := Had(s, domain, x);
            var takes := Taken(had, domain, embedding, reranker);
            var allowed :=
              && (x == 0 || (x in s.spaces && s.spaces[x].domain == domain))
              && Passes(s, domain, had.embedding, takes.embedding, EmbeddingType)
              && Passes(s, domain, had.reranker, takes.reranker, RerankerType);
            && s'.models == s.models && Idle(s')
            && s'.spaces == if allowed then s.spaces[(if x == 0 then s.nextSpace else x) := takes] else s.spaces
  {
    var first := SpaceStart(domain, x, embedding, reranker);
    var s0, s1 := Alone(s, t, first, false, 0), Alone(s, t, first, false, 1);
    var s2, s3 := Alone(s, t, first, false, 2), Alone(s, t, first, false, 3);
    StartKeepsInv(s, t, first);
    SpaceStarts(s0, t);
    assert s1 == Advanced(s0, t, false);
    if s1.txns[t] == Finished {
      FinishedStays(s, t, first, false);
    } else {
      SpaceGates(s1, t);
      if s2.txns[t] == Finished {
        FinishedStays(s, t, first, false);
      } else {
        SpaceGates(s2, t);
        if s3.txns[t] == Finished {
          FinishedStays(s, t, first, false);
        } else {
          SpaceWrites(s3, t);
        }
      }
    }
  }

  lemma StartKeepsInv(s: State, t: int, first: Txn)
    requires Inv(s) && t !in s.txns && IsStart(first) && first.domain > 0
    ensures Inv(s.(txns := s.txns[t := first]))
  {
    OtherActionKeepsInv(s, Start(t, first));
  }

  /** Once finished, always so. */
  lemma FinishedStays(s: State, t: int, first: Txn, probeOk: bool)
    ensures forall k: nat | k <= 5 && t in Alone(s, t, first, probeOk, k).txns
                            && Alone(s, t, first, probeOk, k).txns[t] == Finished ::
              Alone(s, t, first, probeOk, k + 1) == Alone(s, t, first, probeOk, k)
  {
    forall k: nat | k <= 5 && t in Alone(s, t, first, probeOk, k).txns
                    && Alone(s, t, first, probeOk, k).txns[t] == Finished
      ensures Alone(s, t, first, probeOk, k + 1) == Alone(s, t, first, probeOk, k)
    {
      DoneStays(Alone(s, t, first, probeOk, k), t, probeOk);
    }
  }

  // ------------------------------------------------------------------- models

  predicate Owned(s: State, domain: int, id: int) {
    id in s.models && s.models[id].domain == domain
  }

  predicate Used(s: State, domain: int, id: int) {
    exists x :: x in s.spaces && s.spaces[x].domain == domain
                && (s.spaces[x].embedding == id || s.spaces[x].reranker == id)
  }

  /** A model is registered exactly within the matrix, with a key exactly for a provider
      that needs one, and without a stamp. */
  lemma RegisterAdds(s: State, domain: int, m: Model, keyGiven: bool)
    ensures Enabled(s, Register(domain, m, keyGiven)) <==>
            domain > 0 && WithinMatrix(m) && (keyGiven <==> !Local(m.identity.provider))
    ensures Enabled(s, Register(domain, m, keyGiven)) ==>
            Next(s, Register(domain, m, keyGiven)) == s.(nextModel := s.nextModel + 1, models := s.models[
              s.nextModel := Model(domain, m.typ, m.name, m.identity, m.endpoint,
                                   if keyGiven then Some(Resource(m.identity.provider, m.endpoint)) else None, false)])
  {
  }

  /** A model of the domain is deleted if and only if no space of it uses the model. */
  lemma DeleteUnusedOnly(s: State, t: int, domain: int, id: int)
    requires Inv(s) && Idle(s) && t !in s.txns && domain > 0
    ensures var s' := Alone(s, t, DeleteStart(domain, id), false, 3);
            && s'.spaces == s.spaces && Idle(s')
            && s'.models == if Owned(s, domain, id) && !Used(s, domain, id) then s.models - {id} else s.models
  {
    var first := DeleteStart(domain, id);
    var s0, s1 := Alone(s, t, first, false, 0), Alone(s, t, first, false, 1);
    var s2 := Alone(s, t, first, false, 2);
    assert s1 == Advanced(s0, t, false) && Enabled(s0, Advance(t, false));
    if Owned(s, domain, id) {
      assert s1.models == s.models && s1.txns[t] == DeleteLocked(domain, id);
      DeleteDecides(s1, t, domain, id);
      assert s2 == Advanced(s1, t, false);
      assert Used(s1, domain, id) <==> Used(s, domain, id);
    } else {
      ReleasedIsIdle(s0, t);
      DoneStays(s1, t, false);
    }
  }

  lemma DeleteDecides(s: State, t: int, domain: int, id: int)
    requires OnlyLocker(s, t) && t in s.txns && s.txns[t] == DeleteLocked(domain, id) && Owned(s, domain, id)
    ensures var s' := Advanced(Advanced(s, t, false), t, false);
            && s'.spaces == s.spaces && Idle(s')
            && s'.models == if Used(s, domain, id) then s.models else s.models - {id}
  {
    assert Enabled(s, Advance(t, false));
    var s1 := Advanced(s, t, false);
    assert InUse(s, id, domain) <==> Used(s, domain, id);
    assert Enabled(s1, Advance(t, false));
    ReleasedIsIdle(s1, t);
    ReleasedIsIdle(s1.(models := s1.models - {id}), t);
  }

  /** A validation stamps a model of the domain if and only if its probe succeeds, and
      changes nothing else. */
  lemma ValidateStamps(s: State, t: int, domain: int, id: int, probeOk: bool)
    requires Inv(s) && Idle(s) && t !in s.txns && domain > 0
    ensures var s' := Alone(s, t, ValidateStart(domain, id), probeOk, 2);
            && s'.spaces == s.spaces && Idle(s')
            && s'.models == if Owned(s, domain, id) && probeOk then s.models[id := s.models[id].(stamped := true)]
                            else s.models
  {
    var first := ValidateStart(domain, id);
    var s0, s1 := Alone(s, t, first, probeOk, 0), Alone(s, t, first, probeOk, 1);
    assert s1 == Advanced(s0, t, probeOk) && Enabled(s0, Advance(t, probeOk));
    if Owned(s, domain, id) && probeOk {
      assert Enabled(s1, Advance(t, probeOk));
      ReleasedIsIdle(s1, t);
    } else {
      ReleasedIsIdle(s0, t);
      FinishedStays(s, t, first, probeOk);
    }
  }

  function Given<T>(change: Option<T>, had: T): T {
    if change.Some? then change.value else had
  }

  /** The registration with the fields the update names. */
  function Renewed(row: Model, c: Change): Model {
    Model(row.domain, Given(c.typ, row.typ), Given(c.name, row.name),
          Identity(Given(c.provider, row.identity.provider), Given(c.ref, row.identity.ref),
                   Given(c.selfHosted, row.identity.selfHosted), Given(c.dimensions, row.identity.dimensions)),
          Given(c.endpoint, row.endpoint), row.key, row.stamped)
  }

  /** The update of a model, used by spaces or not, that goes through. */
  predicate MayUpdate(row: Model, c: Change, used: bool, probeOk: bool) {
    var m := Renewed(row, c);
    && MayChange(row, c)
    && (used ==> m.identity == row.identity && (m.endpoint != row.endpoint || c.keyGiven ==> probeOk))
  }

  /** The row it leaves: a stamp goes with the identity or connection it was given for,
      unless the model is used and was probed; a key goes with a provider that has none,
      and otherwise is the one given or the one there was. */
  function Updated(row: Model, c: Change, used: bool): Model {
    var m := Renewed(row, c);
    m.(stamped := if m.identity == row.identity && m.endpoint == row.endpoint && !c.keyGiven then row.stamped else used,
       key := if Local(m.identity.provider) then None
              else if c.keyGiven then Some(Resource(m.identity.provider, m.endpoint)) else row.key)
  }

  function NextValidation(row: Model, c: Change, used: bool): Validation {
    var m := Renewed(row, c);
    if m.identity == row.identity && m.endpoint == row.endpoint && !c.keyGiven then Keep
    else if used then Stamp else Reset
  }

  /** What the update may do to the registration, before it is known whether it is used. */
  predicate MayChange(row: Model, c: Change) {
    var m := Renewed(row, c);
    && m.typ == row.typ && WithinMatrix(m) && (Local(m.identity.provider) ==> !c.keyGiven)
    && (m.identity.provider == Azure && !c.keyGiven ==>
          row.identity.provider == Azure && row.endpoint == m.endpoint)
  }

  lemma UpdateIsFound(s: State, t: int, domain: int, id: int, c: Change, probeOk: bool)
    requires Idle(s) && t in s.txns && s.txns[t] == UpdateStart(domain, id, c) && domain > 0
    ensures var s' := Advanced(s, t, probeOk);
            s' == if Owned(s, domain, id) && MayChange(s.models[id], c) then
                    s.(txns := s.txns[t := UpdateFound(domain, id, c, s.models[id])])
                  else s.(txns := s.txns[t := Finished])
  {
    ReleasedIsIdle(s, t);
    assert Enabled(s, Advance(t, probeOk));
    if Owned(s, domain, id) { assert Overlay(s.models[id], c) == Renewed(s.models[id], c); }
  }

  lemma UpdateIsProbed(s: State, t: int, probeOk: bool)
    requires Idle(s) && t in s.txns && s.txns[t].UpdateFound?
    ensures var txn := s.txns[t];
            var used := Used(s, txn.domain, txn.id);
            Advanced(s, t, probeOk)
            == s.(txns := s.txns[t := UpdateProbing(txn.domain, txn.id, txn.change, txn.found, used)])
  {
    assert Enabled(s, Advance(t, probeOk));
    assert InUse(s, s.txns[t].id, s.txns[t].domain) <==> Used(s, s.txns[t].domain, s.txns[t].id);
  }

  lemma UpdateIsValidated(s: State, t: int, probeOk: bool)
    requires Idle(s) && t in s.txns && s.txns[t].UpdateProbing?
    requires MayChange(s.txns[t].found, s.txns[t].change)
    ensures var txn := s.txns[t];
            Advanced(s, t, probeOk)
            == if MayUpdate(txn.found, txn.change, txn.inUse, probeOk) then
                 s.(txns := s.txns[t := UpdateDecided(
                   txn.domain, txn.id, Renewed(txn.found, txn.change), txn.change.keyGiven, txn.found, txn.inUse,
                   NextValidation(txn.found, txn.change, txn.inUse))])
               else s.(txns := s.txns[t := Finished])
  {
    ReleasedIsIdle(s, t);
    assert Enabled(s, Advance(t, probeOk));
    assert Overlay(s.txns[t].found, s.txns[t].change) == Renewed(s.txns[t].found, s.txns[t].change);
  }

  lemma UpdateIsDecided(s: State, t: int, domain: int, id: int, c: Change, probeOk: bool)
    requires Idle(s) && t !in s.txns && domain > 0
    ensures var s' := Alone(s, t, UpdateStart(domain, id, c), probeOk, 3);
            && s'.models == s.models && s'.spaces == s.spaces && Idle(s') && t in s'.txns
            && s'.txns[t] == if Owned(s, domain, id) && MayUpdate(s.models[id], c, Used(s, domain, id), probeOk) then
                 UpdateDecided(domain, id, Renewed(s.models[id], c), c.keyGiven, s.models[id], Used(s, domain, id),
                               NextValidation(s.models[id], c, Used(s, domain, id)))
               else Finished
  {
    var first := UpdateStart(domain, id, c);
    var s0, s1 := Alone(s, t, first, probeOk, 0), Alone(s, t, first, probeOk, 1);
    var s2 := Alone(s, t, first, probeOk, 2);
    UpdateIsFound(s0, t, domain, id, c, probeOk);
    assert s1 == Advanced(s0, t, probeOk);
    if s1.txns[t] == Finished {
      DoneStays(s1, t, probeOk);
    } else {
      UpdateIsProbed(s1, t, probeOk);
      assert Used(s1, domain, id) <==> Used(s, domain, id);
      UpdateIsValidated(s2, t, probeOk);
    }
  }

  lemma UpdateIsWritten(s: State, t: int, probeOk: bool)
    requires Idle(s) && t in s.txns && s.txns[t].UpdateDecided?
    requires var txn := s.txns[t];
             && Owned(s, txn.domain, txn.id) && txn.found == s.models[txn.id]
             && txn.inUse == Used(s, txn.domain, txn.id)
    ensures var txn := s.txns[t];
            var s' := Advanced(Advanced(Advanced(s, t, probeOk), t, probeOk), t, probeOk);
            && s'.spaces == s.spaces && Idle(s')
            && s'.models == s.models[txn.id := Written(s.models[txn.id], txn.merged, txn.keyGiven, txn.validation)]
  {
    var txn := s.txns[t];
    var s1 := Advanced(s, t, probeOk);
    assert Enabled(s, Advance(t, probeOk)) && Enabled(s1, Advance(t, probeOk));
    var s2 := Advanced(s1, t, probeOk);
    assert InUse(s1, txn.id, txn.domain) <==> Used(s, txn.domain, txn.id);
    assert Enabled(s2, Advance(t, probeOk));
    var row := Written(s.models[txn.id], txn.merged, txn.keyGiven, txn.validation);
    ReleasedIsIdle(s2.(models := s.models[txn.id := row]), t);
  }

  /** An update rewrites exactly the row of the model, with the fields it names, or
      nothing when it may not. */
  lemma UpdateRewritesModel(s: State, t: int, domain: int, id: int, c: Change, probeOk: bool)
    requires Inv(s) && Idle(s) && t !in s.txns && domain > 0
    ensures var s' := Alone(s, t, UpdateStart(domain, id, c), probeOk, 6);
            var used := Used(s, domain, id);
            && s'.spaces == s.spaces && Idle(s')
            && s'.models == if Owned(s, domain, id) && MayUpdate(s.models[id], c, used, probeOk) then
                              s.models[id := Updated(s.models[id], c, used)]
                            else s.models
  {
    var first := UpdateStart(domain, id, c);
    UpdateIsDecided(s, t, domain, id, c, probeOk);
    var s3 := Alone(s, t, first, probeOk, 3);
    if s3.txns[t] == Finished {
      FinishedStays(s, t, first, probeOk);
      assert Alone(s, t, first, probeOk, 4) == s3 && Alone(s, t, first, probeOk, 5) == s3;
    } else {
      UpdateIsWritten(s3, t, probeOk);
      assert Alone(s, t, first, probeOk, 4) == Advanced(s3, t, probeOk);
      assert Alone(s, t, first, probeOk, 5) == Advanced(Advanced(s3, t, probeOk), t, probeOk);
    }
  }
}
