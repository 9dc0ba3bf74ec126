/** From a committed change to the broker: service calls write their events into the
    outbox in the transaction of the change, and the relay forwards them. */
module Indexing {
  import opened Forest
  import opened Kb
  import opened Outbox
  import KbInvariants
  import R = Relay
  import Text
  import References

  /** The knowledge base, the outbox with its relay and broker, and which event each
      outbox row carries; the relay never decodes it. */
  datatype World = World(kb: State, relay: R.State, carries: map<Pos, Issued>)

  datatype Action =
    | Commit(tx: nat, domain: int, call: Call, rows: seq<Issued>)
    | Forward(step: R.Step)

  /** ReindexRoutingKey: the decimal article id. */
  function RoutingKey(article: int): (key: string)
    ensures key != ""
  {
    if article < 0 then "-" + Text.Itoa(-article) else Text.Itoa(article)
  }

  /** The key is the article, in decimal. */
  lemma KeyNamesArticle(article: nat)
    ensures var key := RoutingKey(article);
            && (forall i | 0 <= i < |key| :: References.IsHexDigit(key[i])) && References.Value(key, 10) == article
  {
    References.ItoaValue(article);
  }

  /** PublishReindex: one row an event, each with its routing key. */
  function RowsOf(events: seq<Issued>): (rows: seq<R.Row>)
    ensures |rows| == |events|
    ensures forall i | 0 <= i < |events| :: rows[i] == R.Row(RoutingKey(events[i].article))
  {
    seq(|events|, i requires 0 <= i < |events| => R.Row(RoutingKey(events[i].article)))
  }

  function Carried(tx: nat, events: seq<Issued>): map<Pos, Issued> {
    map i: nat | i < |events| :: Pos(tx, i) := events[i]
  }

  /** A call that succeeds commits with exactly the events it issued, in some order;
      one that is refused rolls back, which is a step of the relay's outbox. */
  ghost predicate Enabled(w: World, action: Action) {
    match action
    case Commit(tx, domain, call, rows) =>
      && tx in w.relay.open && Serve(w.kb, domain, call).Done?
      && multiset(rows) == Serve(w.kb, domain, call).next.issued - w.kb.issued
    case Forward(step) => !step.Commit? && R.Enabled(w.relay, step)
  }

  ghost function Next(w: World, action: Action): World
    requires Enabled(w, action)
  {
    match action
    case Commit(tx, domain, call, rows) =>
      World(Serve(w.kb, domain, call).next, R.Next(w.relay, R.Commit(tx, RowsOf(rows))), w.carries + Carried(tx, rows))
    case Forward(step) => w.(relay := R.Next(w.relay, step))
  }

  const START := World(EMPTY, R.START, map[])

  ghost function Run(w: World, actions: seq<Action>): World
    decreases |actions|
  {
    if actions == [] then w
    else Run(if Enabled(w, actions[0]) then Next(w, actions[0]) else w, actions[1..])
  }

  // ---------------------------------------------------------------- invariant

  predicate Holds(carries: map<Pos, Issued>, e: Issued) {
    exists p :: p in carries && carries[p] == e
  }

  predicate Matches(committed: map<Pos, R.Row>, carries: map<Pos, Issued>) {
    && carries.Keys == committed.Keys
    && forall p | p in carries :: committed[p].key == RoutingKey(carries[p].article)
  }

  /** Every issued event is carried by a committed row under the key of its article. */
  ghost predicate Inv(w: World) {
    && KbInvariants.Inv(w.kb) && R.Inv(w.relay)
    && Matches(w.relay.committed, w.carries)
    && (forall e | e in w.kb.issued :: Holds(w.carries, e))
  }

  lemma CarriedMatches(tx: nat, rows: seq<Issued>)
    ensures Matches(R.NewRows(tx, RowsOf(rows)), Carried(tx, rows))
    ensures forall p | p in Carried(tx, rows) :: p.tx == tx
  {
    var committed, carries := R.NewRows(tx, RowsOf(rows)), Carried(tx, rows);
    forall p | p in carries ensures p in committed && committed[p].key == RoutingKey(carries[p].article) {
      assert committed[p] == RowsOf(rows)[p.offset] && carries[p] == rows[p.offset];
    }
    forall p | p in committed ensures p in carries {}
  }

  /** The rows of an open transaction have fresh positions. */
  lemma OpenIsFresh(relay: R.State, tx: nat)
    requires R.Inv(relay) && tx in relay.open
    ensures forall p | p in relay.committed :: p.tx != tx
  {
  }

  lemma MatchesTogether(c1: map<Pos, R.Row>, k1: map<Pos, Issued>, c2: map<Pos, R.Row>, k2: map<Pos, Issued>)
    requires Matches(c1, k1) && Matches(c2, k2)
    ensures Matches(c1 + c2, k1 + k2)
  {
  }

  lemma HoldsTogether(k1: map<Pos, Issued>, k2: map<Pos, Issued>, e: Issued)
    requires k1.Keys !! k2.Keys && (Holds(k1, e) || Holds(k2, e))
    ensures Holds(k1 + k2, e)
  {
    if Holds(k2, e) {
      var p :| p in k2 && k2[p] == e;
      assert (k1 + k2)[p] == e;
    } else {
      var p :| p in k1 && k1[p] == e;
      assert (k1 + k2)[p] == e;
    }
  }

  lemma RowCarries(tx: nat, rows: seq<Issued>, e: Issued)
    requires e in rows
    ensures Holds(Carried(tx, rows), e)
  {
    var i: nat :| i < |rows| && rows[i] == e;
    assert Pos(tx, i) in Carried(tx, rows);
  }

  /** ... so they displace nothing, and each event is carried. */
  lemma CommitAddsRows(committed: map<Pos, R.Row>, carries: map<Pos, Issued>, tx: nat, rows: seq<Issued>, e: Issued)
    requires Matches(committed, carries) && forall p | p in committed :: p.tx != tx
    ensures Matches(committed + R.NewRows(tx, RowsOf(rows)), carries + Carried(tx, rows))
    ensures Holds(carries, e) || e in rows ==> Holds(carries + Carried(tx, rows), e)
  {
    CarriedMatches(tx, rows);
    MatchesTogether(committed, carries, R.NewRows(tx, RowsOf(rows)), Carried(tx, rows));
    if e in rows { RowCarries(tx, rows, e); }
    if Holds(carries, e) || e in rows { HoldsTogether(carries, Carried(tx, rows), e); }
  }

  lemma CommitKeepsInv(w: World, tx: nat, domain: int, call: Call, rows: seq<Issued>)
    requires Inv(w) && Enabled(w, Commit(tx, domain, call, rows))
    ensures Inv(Next(w, Commit(tx, domain, call, rows)))
  {
    var w' := Next(w, Commit(tx, domain, call, rows));
    KbInvariants.CallKeepsInv(w.kb, domain, call);
    R.WritersKeepInv(w.relay, R.Commit(tx, RowsOf(rows)));
    OpenIsFresh(w.relay, tx);
    CarriedMatches(tx, rows);
    MatchesTogether(w.relay.committed, w.carries, R.NewRows(tx, RowsOf(rows)), Carried(tx, rows));
    forall e | e in w'.kb.issued ensures Holds(w'.carries, e) {
      assert e in w.kb.issued || e in multiset(rows);
      CommitAddsRows(w.relay.committed, w.carries, tx, rows, e);
    }
  }

  lemma ForwardKeepsInv(w: World, step: R.Step)
    requires Inv(w) && Enabled(w, Forward(step))
    ensures Inv(Next(w, Forward(step)))
  {
    if step.Begin? || step.Rollback? { R.WritersKeepInv(w.relay, step); } else { R.RelayKeepsInv(w.relay, step); }
    var w' := Next(w, Forward(step));
    assert w'.relay.committed == w.relay.committed;
    forall e | e in w'.kb.issued ensures Holds(w'.carries, e) {
      assert Holds(w.carries, e);
    }
  }

  lemma {:induction false} RunKeepsInv(w: World, actions: seq<Action>)
    requires Inv(w)
    ensures Inv(Run(w, actions))
    decreases |actions|
  {
    if actions != [] {
      if Enabled(w, actions[0]) {
        match actions[0] {
          case Commit(tx, domain, call, rows) => CommitKeepsInv(w, tx, domain, call, rows);
          case Forward(step) => ForwardKeepsInv(w, step);
        }
        RunKeepsInv(Next(w, actions[0]), actions[1..]);
      } else {
        RunKeepsInv(w, actions[1..]);
      }
    }
  }

  // ------------------------------------------------------------- main result

  /** The broker has the row, or the outbox still has it ahead of the relay. */
  predicate OnItsWay(s: R.State, p: Pos) {
    || R.Delivery(R.ReindexExchange, p) in s.delivered
    || (p in s.table && !Acked(s.cursor, p))
  }

  /** No article is forgotten: in every run of service calls, failures, crashes and
      cleanups, the latest version of every live article is on its way to indexing
      under the model its space searches with now, or has reached the broker. */
  lemma NoArticleIsForgotten(actions: seq<Action>, a: int) returns (p: Pos)
    requires Live(Run(START, actions).kb.articles, a) && History(Run(START, actions).kb, a) != []
    ensures var w := Run(START, actions);
            && p in w.carries && w.carries[p].article == a
            && w.carries[p].version == Latest(History(w.kb, a)).id
            && w.kb.articles[a].space in w.kb.spaces
            && w.carries[p].model == w.kb.spaces[w.kb.articles[a].space].SearchModel()
            && OnItsWay(w.relay, p)
  {
    var w := Run(START, actions);
    KbInvariants.EmptyHasInv();
    RunKeepsInv(START, actions);
    assert KbInvariants.QueuedOk(w.kb, a);
    var e :| e in w.kb.issued && e.article == a && e.version == Latest(History(w.kb, a)).id
             && e.model == w.kb.spaces[w.kb.articles[a].space].SearchModel();
    assert Holds(w.carries, e);
    p :| p in w.carries && w.carries[p] == e;
    assert p in w.relay.committed && w.relay.committed[p].key != "";
  }
}
