/** The relay: one leader at a time reads the outbox in order, hands each row to
    the broker and advances the acknowledged offset. */
module Relay {
  import opened Outbox

  /** What the relay needs of a row: the routing key, empty when the writer left none. */
  datatype Row = Row(key: string)

  datatype Exchange = ReindexExchange | DeadLetter

  /** A message the broker has. */
  datatype Delivery = Delivery(exchange: Exchange, pos: Pos)

  const RETRY_LIMIT := 5

  /** Where a row goes: set aside only when no retry could ever publish it. */
  function Destination(row: Row): Exchange {
    if row.key == "" then DeadLetter else ReindexExchange
  }

  // ------------------------------------------------------------ one message

  datatype Failure = Undeliverable | BrokerDown

  datatype Attempt = Sent | Failed(why: Failure)

  /** poisoned and retryable split the failures between them. */
  predicate Poisoned(why: Failure) {
    why == Undeliverable
  }

  predicate Retryable(why: Failure) {
    why != Undeliverable
  }

  /** The copies the broker got from failed tries. */
  function Arrived(d: Delivery, failures: seq<bool>): seq<Delivery> {
    if failures == [] then []
    else Arrived(d, failures[..|failures| - 1]) + (if failures[|failures| - 1] then [d] else [])
  }

  /** ... and from the one that went through, if one did. */
  function Copies(d: Delivery, failures: seq<bool>, acked: bool): seq<Delivery> {
    Arrived(d, failures) + (if acked then [d] else [])
  }

  lemma OneFailure(d: Delivery, arrived: bool)
    ensures Arrived(d, [arrived]) == if arrived then [d] else []
  {
    assert [arrived][..0] == [];
  }

  function Retries(row: Row): nat {
    if row.key == "" then 0 else RETRY_LIMIT
  }

  /** How the handling of a row can end: acknowledged after at most as many failures as
      there are retries, given back after one more; a row without a key gets one try. */
  predicate Handling(row: Row, failures: seq<bool>, acked: bool) {
    if acked then |failures| <= Retries(row) else |failures| == Retries(row) + 1
  }

  function Each(exchange: Exchange, messages: seq<Pos>): seq<Delivery> {
    seq(|messages|, i requires 0 <= i < |messages| => Delivery(exchange, messages[i]))
  }

  /** The broker: a publication that fails may still have arrived. */
  class Broker {
    var log: seq<Delivery>

    constructor ()
      ensures log == []
    {
      log := [];
    }

    method Publish(exchange: Exchange, pos: Pos) returns (ok: bool)
      modifies this
      ensures log == old(log) || log == old(log) + [Delivery(exchange, pos)]
      ensures ok ==> log == old(log) + [Delivery(exchange, pos)]
    {
      ok := *;
      var arrived: bool := *;
      if ok || arrived {
        log := log + [Delivery(exchange, pos)];
      }
    }

    /** brokerPublisher.Publish: in order, stopping at the first failure, which may
        still have arrived. */
    method PublishAll(exchange: Exchange, messages: seq<Pos>) returns (sent: nat)
      modifies this
      ensures sent <= |messages|
      ensures log == old(log) + Each(exchange, messages[..sent])
           || (sent < |messages| && log == old(log) + Each(exchange, messages[..sent + 1]))
    {
      sent := 0;
      while sent < |messages|
        invariant 0 <= sent <= |messages|
        invariant log == old(log) + Each(exchange, messages[..sent])
      {
        assert Each(exchange, messages[..sent + 1])
            == Each(exchange, messages[..sent]) + [Delivery(exchange, messages[sent])];
        var ok := Publish(exchange, messages[sent]);
        if !ok {
          return;
        }
        sent := sent + 1;
      }
    }

    /** forward. */
    method Forward(row: Row, pos: Pos) returns (result: Attempt)
      modifies this
      ensures log == old(log) || log == old(log) + [Delivery(ReindexExchange, pos)]
      ensures result == Sent ==> log == old(log) + [Delivery(ReindexExchange, pos)]
      ensures row.key == "" ==> result == Failed(Undeliverable) && log == old(log)
      ensures row.key != "" ==> result != Failed(Undeliverable)
    {
      if row.key == "" {
        return Failed(Undeliverable);
      }
      var ok := Publish(ReindexExchange, pos);
      result := if ok then Sent else Failed(BrokerDown);
    }

    /** The handler behind its middleware: retries closest to it, the poison queue
        around them. True acknowledges the row, false leaves it to be read again.
        `failures` lists the tries that failed, and whether they arrived all the same. */
    method Handle(row: Row, pos: Pos) returns (acked: bool, ghost failures: seq<bool>)
      modifies this
      ensures Handling(row, failures, acked)
      ensures log == old(log) + Copies(Delivery(Destination(row), pos), failures, acked)
    {
      ghost var d := Delivery(Destination(row), pos);
      failures := [];
      var result := Forward(row, pos);
      if result == Failed(BrokerDown) { failures := [log != old(log)]; }
      OneFailure(d, log != old(log));
      var retries := 0;
      while result.Failed? && Retryable(result.why) && retries < RETRY_LIMIT
        invariant 0 <= retries <= RETRY_LIMIT
        invariant row.key == "" ==> result == Failed(Undeliverable) && failures == [] && log == old(log)
        invariant row.key != "" ==> result != Failed(Undeliverable)
        invariant result == Sent ==> |failures| == retries
        invariant result == Failed(BrokerDown) ==> |failures| == retries + 1
        invariant log == old(log) + Copies(d, failures, result == Sent)
      {
        ghost var before := log;
        result := Forward(row, pos);
        if result == Failed(BrokerDown) { failures := failures + [log != before]; }
        retries := retries + 1;
      }
      acked := result == Sent;
      if result.Failed? && Poisoned(result.why) {
        acked := Publish(DeadLetter, pos);
        if !acked { failures := [log != old(log)]; }
        OneFailure(d, log != old(log));
      }
    }
  }

  // --------------------------------------------------------------- every run

  /** What the leader is doing. */
  datatype Flight = Idle | Trying(pos: Pos, tries: nat) | Handled(pos: Pos)

  /** The outbox, the writers' open transactions, the relay and what the broker
      has. Every row ever committed is remembered beside the table. */
  datatype State = State(
    nextTx: nat,
    open: set<nat>,
    table: map<Pos, Row>,
    committed: map<Pos, Row>,
    cursor: Cursor,
    flight: Flight,
    delivered: seq<Delivery>)

  datatype Step =
    | Begin
    | Commit(tx: nat, rows: seq<Row>)
    | Rollback(tx: nat)
    | Read(pos: Pos)
    | PublishOk
    | PublishFailed(arrived: bool)
    | Ack
    | Crash
    | Cleanup(pos: Pos)

  /** The row the subscriber reads next: the first past the cursor of a transaction
      older than every open one. */
  predicate IsNext(s: State, p: Pos) {
    && p in s.table && !Acked(s.cursor, p)
    && (forall tx | tx in s.open :: p.tx < tx)
    && forall q | q in s.table && !Acked(s.cursor, q) :: q == p || Before(p, q)
  }

  function NewRows(tx: nat, rows: seq<Row>): map<Pos, Row> {
    map i: nat | i < |rows| :: Pos(tx, i) := rows[i]
  }

  predicate Enabled(s: State, step: Step) {
    match step
    case Begin => true
    case Commit(tx, _) => tx in s.open
    case Rollback(tx) => tx in s.open
    case Read(p) => s.flight == Idle && IsNext(s, p)
    case PublishOk => s.flight.Trying? && s.flight.pos in s.table
    case PublishFailed(_) => s.flight.Trying? && s.flight.pos in s.table
    case Ack => s.flight.Handled?
    case Crash => true
    case Cleanup(p) => p in s.table && Acked(s.cursor, p)
  }

  function Copy(s: State, p: Pos): seq<Delivery>
    requires p in s.table
  {
    [Delivery(Destination(s.table[p]), p)]
  }

  /** A failure that outlasts the retries gives the row back; a row without a key
      gets one try at the dead-letter exchange. */
  function Next(s: State, step: Step): State
    requires Enabled(s, step)
  {
    match step
    case Begin => s.(nextTx := s.nextTx + 1, open := s.open + {s.nextTx})
    case Commit(tx, rows) =>
      s.(open := s.open - {tx}, table := s.table + NewRows(tx, rows), committed := s.committed + NewRows(tx, rows))
    case Rollback(tx) => s.(open := s.open - {tx})
    case Read(p) => s.(flight := Trying(p, 0))
    case PublishOk => s.(flight := Handled(s.flight.pos), delivered := s.delivered + Copy(s, s.flight.pos))
    case PublishFailed(arrived) =>
      var p := s.flight.pos;
      var flight := if s.table[p].key == "" || s.flight.tries >= RETRY_LIMIT then Idle
                    else Trying(p, s.flight.tries + 1);
      s.(flight := flight, delivered := if arrived then s.delivered + Copy(s, p) else s.delivered)
    case Ack => s.(flight := Idle, cursor := At(s.flight.pos))
    case Crash => s.(flight := Idle)
    case Cleanup(p) => s.(table := s.table - {p})
  }

  const START := State(0, {}, map[], map[], Nowhere, Idle, [])

  /** A run takes the enabled steps of a schedule and skips the others. */
  function Run(s: State, schedule: seq<Step>): State
    decreases |schedule|
  {
    if schedule == [] then s
    else Run(if Enabled(s, schedule[0]) then Next(s, schedule[0]) else s, schedule[1..])
  }

  /** The steps of one handling: its failed tries, then the one that went through. */
  function StepsOf(failures: seq<bool>, acked: bool): (steps: seq<Step>)
    ensures |steps| == |failures| + if acked then 1 else 0
  {
    if failures != [] then [PublishFailed(failures[0])] + StepsOf(failures[1..], acked)
    else if acked then [PublishOk] else []
  }

  lemma {:induction false} ArrivedFirst(d: Delivery, failures: seq<bool>)
    requires failures != []
    ensures Arrived(d, failures) == (if failures[0] then [d] else []) + Arrived(d, failures[1..])
  {
    if |failures| == 1 {
      assert failures[..0] == [] && failures[1..] == [];
    } else {
      var front := failures[..|failures| - 1];
      ArrivedFirst(d, front);
      assert front[1..] == failures[1..][..|failures| - 2];
    }
  }

  lemma {:induction false} RestIsRun(s: State, failures: seq<bool>, acked: bool)
    requires s.flight.Trying? && s.flight.pos in s.table
    requires var retries, done := Retries(s.table[s.flight.pos]), s.flight.tries + |failures|;
             s.flight.tries <= retries && if acked then done <= retries else done == retries + 1
    ensures var p := s.flight.pos;
            Run(s, StepsOf(failures, acked))
            == s.(flight := if acked then Handled(p) else Idle,
                  delivered := s.delivered + Copies(Delivery(Destination(s.table[p]), p), failures, acked))
    decreases |failures|
  {
    var p := s.flight.pos;
    var d := Delivery(Destination(s.table[p]), p);
    if failures == [] {
      assert StepsOf([], true) == [PublishOk] && [PublishOk][1..] == [];
      assert Copies(d, [], true) == [d];
    } else {
      var next := Next(s, PublishFailed(failures[0]));
      ArrivedFirst(d, failures);
      assert StepsOf(failures, acked)[1..] == StepsOf(failures[1..], acked);
      if next.flight.Trying? {
        RestIsRun(next, failures[1..], acked);
      } else {
        assert failures[1..] == [] && StepsOf([], acked) == [];
      }
    }
  }

  /** Every way the handler can end is a run of the relay's steps from the moment the
      row was read, with the same copies at the broker and the same verdict. */
  lemma HandlingIsRun(s: State, p: Pos, failures: seq<bool>, acked: bool)
    requires s.flight == Idle && IsNext(s, p) && Handling(s.table[p], failures, acked)
    ensures Run(s, [Read(p)] + StepsOf(failures, acked))
         == s.(flight := if acked then Handled(p) else Idle,
               delivered := s.delivered + Copies(Delivery(Destination(s.table[p]), p), failures, acked))
  {
    var steps := [Read(p)] + StepsOf(failures, acked);
    assert steps[1..] == StepsOf(failures, acked);
    RestIsRun(Next(s, Read(p)), failures, acked);
  }

  predicate Has(s: State, p: Pos)
    requires p in s.committed
  {
    Delivery(Destination(s.committed[p]), p) in s.delivered
  }

  /** The transaction is settled: older than every open and every future one. */
  predicate Settled(s: State, tx: nat) {
    tx < s.nextTx && forall o | o in s.open :: tx < o
  }

  /** No committed row stands between the cursor and p. */
  predicate IsFirstPending(s: State, p: Pos) {
    && p in s.table && !Acked(s.cursor, p) && Settled(s, p.tx)
    && forall q | q in s.committed && !Acked(s.cursor, q) :: q == p || Before(p, q)
  }

  /** Delivery j is the first of its row: then every earlier one is of an earlier row. */
  predicate FirstInOrder(delivered: seq<Delivery>, j: int)
    requires 0 <= j < |delivered|
  {
    (forall i | 0 <= i < j :: delivered[i].pos != delivered[j].pos) ==>
      forall i | 0 <= i < j :: Before(delivered[i].pos, delivered[j].pos)
  }

  ghost predicate Inv(s: State) {
    && (forall tx | tx in s.open :: tx < s.nextTx)
    && (forall p | p in s.table :: p in s.committed && s.table[p] == s.committed[p])
    && (forall p | p in s.committed :: p.tx < s.nextTx && p.tx !in s.open && (p in s.table || Acked(s.cursor, p)))
    && (s.cursor.At? ==> Settled(s, s.cursor.pos.tx))
    && (s.flight.Trying? || s.flight.Handled? ==> IsFirstPending(s, s.flight.pos))
    && (s.flight.Handled? ==> Has(s, s.flight.pos))
    && (forall p | p in s.committed && Acked(s.cursor, p) :: Has(s, p))
    && (forall d | d in s.delivered :: d.pos in s.committed && d.exchange == Destination(s.committed[d.pos]))
    && (forall d | d in s.delivered :: Acked(s.cursor, d.pos) || IsFirstPending(s, d.pos))
    && (forall j | 0 <= j < |s.delivered| :: FirstInOrder(s.delivered, j))
  }

  /** A copy of the first pending row keeps first deliveries in order. */
  lemma CopyKeepsOrder(s: State, p: Pos)
    requires Inv(s) && IsFirstPending(s, p)
    ensures forall j | 0 <= j < |s.delivered + Copy(s, p)| :: FirstInOrder(s.delivered + Copy(s, p), j)
    ensures forall d | d in s.delivered + Copy(s, p) :: d in s.delivered || d == Copy(s, p)[0]
  {
    var after := s.delivered + Copy(s, p);
    forall j | 0 <= j < |after| ensures FirstInOrder(after, j) {
      if j < |s.delivered| {
        assert FirstInOrder(s.delivered, j);
        assert forall i | 0 <= i <= j :: after[i] == s.delivered[i];
      } else {
        forall i | 0 <= i < j ensures after[i].pos == p || Before(after[i].pos, p) {
          assert after[i] == s.delivered[i] && s.delivered[i] in s.delivered;
        }
      }
    }
  }

  lemma CommitKeepsInv(s: State, tx: nat, rows: seq<Row>)
    requires Inv(s) && tx in s.open
    ensures Inv(Next(s, Commit(tx, rows)))
  {
  }

  lemma WritersKeepInv(s: State, step: Step)
    requires Inv(s) && (step.Begin? || step.Commit? || step.Rollback?) && Enabled(s, step)
    ensures Inv(Next(s, step))
  {
    if step.Commit? { CommitKeepsInv(s, step.tx, step.rows); }
  }

  lemma SentKeepsInv(s: State)
    requires Inv(s) && Enabled(s, PublishOk)
    ensures Inv(Next(s, PublishOk))
  {
    CopyKeepsOrder(s, s.flight.pos);
  }

  lemma FailedKeepsInv(s: State, arrived: bool)
    requires Inv(s) && Enabled(s, PublishFailed(arrived))
    ensures Inv(Next(s, PublishFailed(arrived)))
  {
    CopyKeepsOrder(s, s.flight.pos);
  }

  lemma AckKeepsInv(s: State)
    requires Inv(s) && s.flight.Handled?
    ensures Inv(Next(s, Ack))
  {
  }

  lemma RelayKeepsInv(s: State, step: Step)
    requires Inv(s) && !(step.Begin? || step.Commit? || step.Rollback?) && Enabled(s, step)
    ensures Inv(Next(s, step))
  {
    match step
    case PublishOk => SentKeepsInv(s);
    case PublishFailed(arrived) => FailedKeepsInv(s, arrived);
    case Ack => AckKeepsInv(s);
    case _ =>
  }

  lemma {:induction false} RunKeepsInv(s: State, schedule: seq<Step>)
    requires Inv(s)
    ensures Inv(Run(s, schedule))
    decreases |schedule|
  {
    if schedule != [] {
      var step := schedule[0];
      if Enabled(s, step) {
        if step.Begin? || step.Commit? || step.Rollback? { WritersKeepInv(s, step); } else { RelayKeepsInv(s, step); }
        RunKeepsInv(Next(s, step), schedule[1..]);
      } else {
        RunKeepsInv(s, schedule[1..]);
      }
    }
  }

  /** At least once: whatever commits, fails, crashes or is cleaned up, a committed
      row at or below the acknowledged offset has reached the reindex exchange, or
      the dead-letter exchange exactly when it carries no routing key. */
  lemma DeliveredAtLeastOnce(schedule: seq<Step>, p: Pos)
    requires var s := Run(START, schedule); p in s.committed && Acked(s.cursor, p)
    ensures var s := Run(START, schedule);
            Delivery(if s.committed[p].key == "" then DeadLetter else ReindexExchange, p) in s.delivered
  {
    RunKeepsInv(START, schedule);
  }

  /** Nothing is set aside that could be published, and nothing is made up. */
  lemma NothingMisrouted(schedule: seq<Step>, d: Delivery)
    requires d in Run(START, schedule).delivered
    ensures var s := Run(START, schedule);
            d.pos in s.committed && (d.exchange == DeadLetter <==> s.committed[d.pos].key == "")
  {
    RunKeepsInv(START, schedule);
  }

  /** First deliveries follow the order of the outbox. */
  lemma FirstDeliveriesInOrder(schedule: seq<Step>, i: int, j: int)
    requires 0 <= i < j < |Run(START, schedule).delivered|
    requires forall k | 0 <= k < j ::
               Run(START, schedule).delivered[k].pos != Run(START, schedule).delivered[j].pos
    ensures Before(Run(START, schedule).delivered[i].pos, Run(START, schedule).delivered[j].pos)
  {
    RunKeepsInv(START, schedule);
    assert FirstInOrder(Run(START, schedule).delivered, j);
  }

  /** Nothing unacknowledged is ever removed. */
  lemma UnackedStays(schedule: seq<Step>, p: Pos)
    requires var s := Run(START, schedule); p in s.committed && !Acked(s.cursor, p)
    ensures var s := Run(START, schedule); p in s.table && s.table[p] == s.committed[p]
  {
    RunKeepsInv(START, schedule);
  }

  /** A row without a key blocks nothing: once the broker answers, the next row,
      whichever it is, is read, delivered and acknowledged in three steps. */
  lemma NextRowGetsThrough(s: State, p: Pos)
    requires s.flight == Idle && IsNext(s, p)
    ensures var s' := Run(s, [Read(p), PublishOk, Ack]);
            s'.cursor == At(p) && s'.flight == Idle && s'.delivered == s.delivered + Copy(s, p)
  {
    var s1 := Next(s, Read(p));
    var s2 := Next(s1, PublishOk);
    var s3 := Next(s2, Ack);
    assert [Read(p), PublishOk, Ack][1..] == [PublishOk, Ack];
    assert [PublishOk, Ack][1..] == [Ack];
    assert Run(s3, [Ack][1..]) == s3;
    assert Run(s2, [Ack]) == s3;
    assert Run(s1, [PublishOk, Ack]) == s3;
  }

  /** A commit stores its rows in their order, and what it stored stays remembered. */
  lemma CommitStores(s: State, tx: nat, rows: seq<Row>, p: Pos)
    requires Inv(s) && tx in s.open
    ensures var s' := Next(s, Commit(tx, rows));
            && (p in s'.committed <==> p in s.committed || (p.tx == tx && p.offset < |rows|))
            && (p in s'.table <==> p in s.table || (p.tx == tx && p.offset < |rows|))
            && (p.tx == tx && p.offset < |rows| ==> s'.committed[p] == s'.table[p] == rows[p.offset])
            && (p in s.committed ==> s'.committed[p] == s.committed[p]) && tx !in s'.open
  {
    if p.tx == tx && p.offset < |rows| {
      assert p == Pos(tx, p.offset);
    }
  }

  /** A row with a key is tried six times before it is given back, one without once. */
  lemma TriesBeforeGivingBack(row: Row, failures: seq<bool>)
    ensures Handling(row, failures, false) <==> |failures| == if row.key == "" then 1 else 6
  {
  }

  // ------------------------------------------------------------------ progress

  /** The rows still before the relay. */
  function Pending(s: State): set<Pos> {
    set p | p in s.table && !Acked(s.cursor, p)
  }

  /** A non-empty set of positions has a first one. */
  lemma {:induction false} FirstOf(rows: set<Pos>) returns (p: Pos)
    requires rows != {}
    ensures p in rows && forall q | q in rows :: q == p || Before(p, q)
    decreases rows
  {
    assert (forall q :: q !in rows) ==> rows == {};
    p :| p in rows;
    var rest := rows - {p};
    assert forall q | q in rows :: q == p || q in rest;
    if rest != {} {
      var first := FirstOf(rest);
      if Before(first, p) { p := first; }
    }
  }

  /** While a settled row is pending some row is next, and it is not behind it. */
  lemma SomeRowIsNext(s: State, p: Pos) returns (next: Pos)
    requires Inv(s) && p in s.committed && !Acked(s.cursor, p) && Settled(s, p.tx)
    ensures IsNext(s, next) && (next == p || Before(next, p))
  {
    assert p in Pending(s);
    next := FirstOf(Pending(s));
    forall q | q in s.table && !Acked(s.cursor, q) ensures q == next || Before(next, q) {
      assert q in Pending(s);
    }
  }

  /** The steps of a relay that finds its broker up. */
  predicate Undisturbed(step: Step) {
    step.Read? || step.PublishOk? || step.Ack?
  }

  lemma RunOfThree(s: State, p: Pos, more: seq<Step>)
    requires s.flight == Idle && IsNext(s, p)
    ensures Run(s, [Read(p), PublishOk, Ack] + more) == Run(Run(s, [Read(p), PublishOk, Ack]), more)
  {
    var s1 := Next(s, Read(p));
    var s2 := Next(s1, PublishOk);
    var s3 := Next(s2, Ack);
    var all := [Read(p), PublishOk, Ack] + more;
    assert all[1..] == [PublishOk, Ack] + more && ([PublishOk, Ack] + more)[1..] == [Ack] + more;
    assert ([Ack] + more)[1..] == more;
    assert [Read(p), PublishOk, Ack][1..] == [PublishOk, Ack] && [PublishOk, Ack][1..] == [Ack] && [Ack][1..] == [];
    assert Run(s, all) == Run(s1, [PublishOk, Ack] + more) == Run(s2, [Ack] + more) == Run(s3, more);
    assert Run(s, [Read(p), PublishOk, Ack]) == Run(s1, [PublishOk, Ack]) == Run(s2, [Ack]) == s3;
  }

  lemma ThreeStepsAck(s: State, p: Pos)
    requires Inv(s) && s.flight == Idle && IsNext(s, p)
    ensures var s' := Run(s, [Read(p), PublishOk, Ack]);
            Inv(s') && s'.flight == Idle && s'.committed == s.committed && s'.open == s.open
            && s'.nextTx == s.nextTx && Acked(s'.cursor, p) && Pending(s') < Pending(s)
  {
    NextRowGetsThrough(s, p);
    RunKeepsInv(s, [Read(p), PublishOk, Ack]);
    ThreeStepsKeep(s, p);
    var s' := Run(s, [Read(p), PublishOk, Ack]);
    assert p in Pending(s) && p !in Pending(s');
    forall q | q in Pending(s') ensures q in Pending(s) {}
  }

  lemma ThreeStepsKeep(s: State, p: Pos)
    requires s.flight == Idle && IsNext(s, p)
    ensures var s' := Run(s, [Read(p), PublishOk, Ack]);
            s' == s.(cursor := At(p), delivered := s.delivered + Copy(s, p))
  {
    var s1 := Next(s, Read(p));
    var s2 := Next(s1, PublishOk);
    assert [Read(p), PublishOk, Ack][1..] == [PublishOk, Ack] && [PublishOk, Ack][1..] == [Ack] && [Ack][1..] == [];
    assert Run(s2, [Ack]) == Next(s2, Ack);
  }

  /** From every reachable state in which a committed row is settled, a relay that finds
      its broker up gets to it, after however many rows stand before it. */
  lemma {:induction false} EveryRowGetsThrough(s: State, p: Pos) returns (more: seq<Step>)
    requires Inv(s) && s.flight == Idle && p in s.committed && Settled(s, p.tx)
    ensures (forall i | 0 <= i < |more| :: Undisturbed(more[i])) && |more| <= 3 * |Pending(s)|
    ensures var s' := Run(s, more); p in s'.committed && Acked(s'.cursor, p) && Has(s', p)
    decreases Pending(s)
  {
    if Acked(s.cursor, p) {
      more := [];
    } else {
      var next := SomeRowIsNext(s, p);
      var s' := Run(s, [Read(next), PublishOk, Ack]);
      ThreeStepsAck(s, next);
      FewerPending(Pending(s'), Pending(s));
      var rest := EveryRowGetsThrough(s', p);
      RunOfThree(s, next, rest);
      more := [Read(next), PublishOk, Ack] + rest;
    }
  }

  lemma FewerPending(a: set<Pos>, b: set<Pos>)
    requires a < b
    ensures |a| + 1 <= |b|
  {
    var p :| p in b && p !in a;
    assert a <= b - {p};
    SubsetSize(a, b - {p});
  }

  lemma {:induction false} SubsetSize(a: set<Pos>, b: set<Pos>)
    requires a <= b
    ensures |a| <= |b|
    decreases b
  {
    if a != {} {
      var p :| p in a;
      SubsetSize(a - {p}, b - {p});
    }
  }
}
