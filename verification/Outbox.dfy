/** The outbox table and its cleanup. */
module Outbox {

  /** The key of an outbox row: rows are read in the order of their transactions. */
  datatype Pos = Pos(tx: nat, offset: nat)

  predicate Before(a: Pos, b: Pos) {
    a.tx < b.tx || (a.tx == b.tx && a.offset < b.offset)
  }

  /** The acknowledged offset of the relay; a group that never acknowledged has none. */
  datatype Cursor = Nowhere | At(pos: Pos)

  predicate Acked(cursor: Cursor, p: Pos) {
    cursor.At? && (p == cursor.pos || Before(p, cursor.pos))
  }

  /** The rows Backlog counts and takes the oldest of, with their creation times. */
  function Backlog(rows: map<Pos, int>, cursor: Cursor): map<Pos, int> {
    map p | p in rows && !Acked(cursor, p) :: rows[p]
  }

  /** Some batch of the doomed rows, all of them when they fit: a LIMIT without an order. */
  method TakeBatch(doomed: set<Pos>, batch: int) returns (taken: set<Pos>)
    requires batch >= 0
    ensures taken <= doomed && |taken| <= batch && (|taken| < batch ==> taken == doomed)
  {
    taken := {};
    while taken != doomed && |taken| < batch
      invariant taken <= doomed && |taken| <= batch
      decreases doomed - taken
    {
      assert exists p :: p in doomed - taken by {
        assert doomed - taken != {};
      }
      var p :| p in doomed - taken;
      taken := taken + {p};
    }
  }

  lemma FewerRows(rows: map<Pos, int>, gone: set<Pos>)
    requires gone <= rows.Keys
    ensures |rows - gone| == |rows| - |gone|
  {
    assert (rows - gone).Keys == rows.Keys - gone;
    assert rows.Keys == (rows.Keys - gone) + gone;
  }

  class Table {
    /** The creation time of every row. */
    var rows: map<Pos, int>
    var cursor: Cursor
    var clock: int

    constructor ()
      ensures rows == map[] && cursor == Nowhere
    {
      rows, cursor, clock := map[], Nowhere, 0;
    }

    /** Each statement reads the clock anew. */
    method ReadClock() returns (now: int)
      modifies this`clock
      ensures now == clock >= old(clock)
    {
      var passed :| passed >= 0;
      clock := clock + passed;
      now := clock;
    }

    /** One delete statement. */
    method DeleteBatch(retention: int, batch: int) returns (deleted: int)
      requires batch >= 1
      modifies this`rows, this`clock
      ensures clock >= old(clock) && rows.Keys <= old(rows).Keys && forall p | p in rows :: rows[p] == old(rows)[p]
      ensures 0 <= deleted <= batch && |rows| == old(|rows|) - deleted
      ensures forall p | p in old(rows) && p !in rows :: Acked(cursor, p) && old(rows)[p] < clock - retention
      ensures deleted < batch ==> forall p | p in rows && Acked(cursor, p) :: rows[p] >= clock - retention
    {
      var now := ReadClock();
      var doomed := set p | p in rows && Acked(cursor, p) && rows[p] < now - retention;
      var taken := TakeBatch(doomed, batch);
      FewerRows(rows, taken);
      rows := rows - taken;
      deleted := |taken|;
    }

    /** CleanupOutbox: full batches until one comes back short or the caller, as `done`
        tells after each batch, has given up. It removes acknowledged rows past
        retention only, reports how many, leaves none that was past retention when it
        began unless it was cancelled, and never touches the backlog. */
    method CleanupOutbox(retention: int, batch: int, done: nat -> bool)
      returns (total: int, cancelled: bool, batches: nat)
      requires batch >= 1
      modifies this`rows, this`clock
      ensures rows.Keys <= old(rows).Keys && forall p | p in rows :: rows[p] == old(rows)[p]
      ensures total == old(|rows|) - |rows|
      ensures forall p | p in old(rows) && p !in rows :: Acked(cursor, p) && old(rows)[p] < clock - retention
      ensures !cancelled ==> forall p | p in rows && Acked(cursor, p) :: rows[p] >= old(clock) - retention
      ensures batches >= 1 && forall i: nat | 1 <= i < batches :: !done(i)
      ensures if cancelled then done(batches) && total == batches * batch
              else (batches - 1) * batch <= total < batches * batch
      ensures Backlog(rows, cursor) == Backlog(old(rows), cursor)
    {
      total, batches := 0, 0;
      while true
        invariant clock >= old(clock)
        invariant rows.Keys <= old(rows).Keys && forall p | p in rows :: rows[p] == old(rows)[p]
        invariant total == old(|rows|) - |rows| == batches * batch
        invariant forall p | p in old(rows) && p !in rows :: Acked(cursor, p) && old(rows)[p] < clock - retention
        invariant forall i: nat | 1 <= i <= batches :: !done(i)
        decreases |rows|
      {
        var deleted := DeleteBatch(retention, batch);
        total := total + deleted;
        batches := batches + 1;
        if deleted < batch {
          return total, false, batches;
        }
        if done(batches) {
          return total, true, batches;
        }
      }
    }
  }
}
