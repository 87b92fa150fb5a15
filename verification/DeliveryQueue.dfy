/**
 One recipient's durable queue as a value: the rows still stored, ordered by
 delivery id, and the three cursors of relay_delivery_state. Every operation of
 the delivery store is specified here as a function on this value.
 */
module DeliveryQueue {
  import opened Base
  import opened Bytes

  const MAX_QUEUED_DELIVERIES := 4096
  const MAX_QUEUED_BYTES := 64 * 1024 * 1024

  /** A stored row; expiresAt is in Unix milliseconds. */
  datatype Row = Row(id: int, envelope: seq<byte>, expiresAt: int)

  datatype Queue = Queue(rows: seq<Row>, next: int, acknowledged: int, unavailable: int) {
    function HighWater(): int { next - 1 }
    function Floor(): int { Max(acknowledged, unavailable) }
  }

  /** What a sender handed over; the n-th submission gets delivery id n. */
  datatype Submission = Submission(envelope: seq<byte>, expiresAt: int)

  datatype StoredDelivery = StoredDelivery(id: int, envelope: seq<byte>)

  datatype Batch = Batch(highWater: int, resetRequired: bool, deliveries: seq<StoredDelivery>)

  datatype QueueError = InvalidRequest | UnknownRecipient | SequenceExhausted | CursorAhead | NoDeliveryState

  const FRESH := Queue([], 1, 0, 0)

  // ---------------------------------------------------------------- invariant

  predicate Ordered(rows: seq<Row>) {
    forall i, j | 0 <= i < j < |rows| :: rows[i].id < rows[j].id
  }

  function Ids(rows: seq<Row>): set<int> {
    set r | r in rows :: r.id
  }

  /** Cursor ranges, and stored ids strictly between the acknowledged cursor and next. */
  predicate Bounded(q: Queue) {
    && 0 <= q.acknowledged < q.next
    && 0 <= q.unavailable < q.next
    && q.next <= MAX_INT64
    && (forall r | r in q.rows :: q.acknowledged < r.id < q.next)
  }

  /** Every id above both cursors is stored, and the unavailable id itself is not. */
  predicate Covered(q: Queue) {
    && (forall id | q.Floor() < id < q.next :: id in Ids(q.rows))
    && q.unavailable !in Ids(q.rows)
  }

  predicate Inv(q: Queue) {
    Ordered(q.rows) && Bounded(q) && Covered(q)
  }

  predicate Recorded(r: Row, log: seq<Submission>) {
    1 <= r.id <= |log| && log[r.id - 1] == Submission(r.envelope, r.expiresAt)
  }

  /** The queue holds part of an append-only log: row n is submission n, unchanged. */
  predicate Refines(q: Queue, log: seq<Submission>) {
    q.next == |log| + 1 && forall r | r in q.rows :: Recorded(r, log)
  }

  // --------------------------------------------------------------- operations

  /** The rows with id above the cursor. */
  function After(rows: seq<Row>, cursor: int): (r: seq<Row>)
    ensures |r| <= |rows| && forall x | x in r :: x in rows
  {
    if rows == [] || rows[0].id > cursor then rows else After(rows[1..], cursor)
  }

  function Unexpired(rows: seq<Row>, now: int): (r: seq<Row>)
    ensures forall x :: x in r <==> x in rows && x.expiresAt > now
  {
    if rows == [] then []
    else if rows[0].expiresAt <= now then Unexpired(rows[1..], now)
    else [rows[0]] + Unexpired(rows[1..], now)
  }

  /** The highest expired id, or 0 when nothing has expired. */
  function ExpiredThrough(rows: seq<Row>, now: int): (id: int)
    ensures id == 0 || exists x :: x in rows && x.id == id && x.expiresAt <= now
    ensures forall x | x in rows && x.expiresAt <= now :: x.id <= id
  {
    if rows == [] then 0
    else
      var rest := ExpiredThrough(rows[1..], now);
      if rows[0].expiresAt <= now then Max(rows[0].id, rest) else rest
  }

  /** compactExpiredDeliveries: drops expired rows and records the history lost with them. */
  function Compact(q: Queue, now: int): Queue {
    q.(rows := Unexpired(q.rows, now), unavailable := Max(q.unavailable, ExpiredThrough(q.rows, now)))
  }

  function TotalBytes(rows: seq<Row>): nat {
    if rows == [] then 0 else |rows[0].envelope| + TotalBytes(rows[1..])
  }

  predicate Fits(rows: seq<Row>) {
    |rows| <= MAX_QUEUED_DELIVERIES && TotalBytes(rows) <= MAX_QUEUED_BYTES
  }

  /** Removes the oldest row and marks it unavailable. */
  function EvictOldest(q: Queue): Queue
    requires q.rows != []
  {
    q.(rows := q.rows[1..], unavailable := Max(q.unavailable, q.rows[0].id))
  }

  /** enforceDeliveryCapacity: evicts oldest rows until both limits hold. */
  function Evict(q: Queue): (r: Queue)
    ensures Fits(r.rows)
    decreases |q.rows|
  {
    if Fits(q.rows) then q else Evict(EvictOldest(q))
  }

  function Insert(q: Queue, envelope: seq<byte>, expiresAt: int): Queue {
    q.(rows := q.rows + [Row(q.next, envelope, expiresAt)], next := q.next + 1)
  }

  function Append(q: Queue, envelope: seq<byte>, expiresAt: int, now: int): Result<(Queue, int), QueueError> {
    if q.next < 1 || q.next == MAX_INT64 then Err(SequenceExhausted)
    else Ok((Evict(Insert(Compact(q, now), envelope, expiresAt)), q.next))
  }

  /** acknowledgeThrough: drops rows up to the cursor and advances the acknowledged cursor. */
  function AcknowledgeThrough(q: Queue, cursor: int): Queue {
    q.(rows := After(q.rows, cursor), acknowledged := Max(q.acknowledged, cursor))
  }

  function Acknowledge(q: Queue, cursor: int): Result<Queue, QueueError> {
    if cursor >= q.next then Err(CursorAhead)
    else if cursor > q.acknowledged then Ok(AcknowledgeThrough(q, cursor))
    else Ok(q)
  }

  /** The first rows above the cursor, at most limit of them, without their expiry. */
  function Page(rows: seq<Row>, cursor: int, limit: nat): (p: seq<StoredDelivery>)
    ensures |p| == Min(|After(rows, cursor)|, limit)
    ensures forall i | 0 <= i < |p| ::
              p[i].id == After(rows, cursor)[i].id && p[i].envelope == After(rows, cursor)[i].envelope
  {
    var above := After(rows, cursor);
    seq(Min(|above|, limit), i requires 0 <= i < |above| => StoredDelivery(above[i].id, above[i].envelope))
  }

  function Resume(q: Queue, cursor: int, now: int, limit: nat): Result<(Queue, Batch), QueueError> {
    var c := Compact(q, now);
    if cursor > c.HighWater() then Err(CursorAhead)
    else if cursor < c.Floor() then Ok((c, Batch(c.HighWater(), true, [])))
    else
      var acked := if cursor > c.acknowledged then AcknowledgeThrough(c, cursor) else c;
      Ok((acked, Batch(c.HighWater(), false, Page(acked.rows, cursor, limit))))
  }

  /** ReadDeliveries compares its position with the unavailable cursor only. */
  function Read(q: Queue, after: int, now: int, limit: nat): (Queue, Batch) {
    var c := Compact(q, now);
    if after < c.unavailable then (c, Batch(c.HighWater(), true, []))
    else (c, Batch(c.HighWater(), false, Page(c.rows, after, limit)))
  }

  // ------------------------------------------------------ every step keeps Inv

  /** The row with a given id. */
  ghost function RowWith(rows: seq<Row>, id: int): (r: Row)
    requires id in Ids(rows)
    ensures r in rows && r.id == id
  {
    var r :| r in rows && r.id == id;
    r
  }

  lemma OrderedCons(first: Row, rest: seq<Row>)
    requires Ordered(rest) && forall x | x in rest :: first.id < x.id
    ensures Ordered([first] + rest)
  {
  }

  lemma {:induction false} UnexpiredOrdered(rows: seq<Row>, now: int)
    requires Ordered(rows)
    ensures Ordered(Unexpired(rows, now))
  {
    if rows != [] {
      UnexpiredOrdered(rows[1..], now);
      if rows[0].expiresAt > now { OrderedCons(rows[0], Unexpired(rows[1..], now)); }
    }
  }

  /** Ids identify rows of an ordered table. */
  lemma SameRow(rows: seq<Row>, r: Row, s: Row)
    requires Ordered(rows) && r in rows && s in rows && r.id == s.id
    ensures r == s
  {
  }

  lemma CompactCovered(q: Queue, now: int)
    requires Inv(q)
    ensures Covered(Compact(q, now))
  {
    var c := Compact(q, now);
    forall id | c.Floor() < id < c.next ensures id in Ids(c.rows) {
      var r := RowWith(q.rows, id);
      assert r in c.rows;
    }
    if c.unavailable != q.unavailable {
      var e :| e in q.rows && e.id == c.unavailable && e.expiresAt <= now;
      forall r | r in c.rows ensures r.id != c.unavailable {
        if r.id == c.unavailable { SameRow(q.rows, e, r); }
      }
    } else {
      forall r | r in c.rows ensures r.id != c.unavailable { assert r.id in Ids(q.rows); }
    }
  }

  lemma CompactInv(q: Queue, now: int)
    requires Inv(q)
    ensures Inv(Compact(q, now))
  {
    UnexpiredOrdered(q.rows, now);
    CompactCovered(q, now);
  }

  lemma EvictOldestInv(q: Queue)
    requires Inv(q) && q.rows != []
    ensures Inv(EvictOldest(q))
  {
    var r := EvictOldest(q);
    assert q.rows == [q.rows[0]] + r.rows;
    forall id | r.Floor() < id < r.next ensures id in Ids(r.rows) {
      var x := RowWith(q.rows, id);
      assert x in r.rows;
    }
    forall x | x in r.rows ensures x.id != r.unavailable {
      assert x.id in Ids(q.rows);
    }
  }

  lemma {:induction false} EvictInv(q: Queue)
    requires Inv(q)
    ensures Inv(Evict(q))
    ensures Evict(q).next == q.next && Evict(q).acknowledged == q.acknowledged
    decreases |q.rows|
  {
    if !Fits(q.rows) {
      EvictOldestInv(q);
      EvictInv(EvictOldest(q));
    }
  }

  lemma InsertInv(q: Queue, envelope: seq<byte>, expiresAt: int)
    requires Inv(q) && q.next < MAX_INT64
    ensures Inv(Insert(q, envelope, expiresAt))
  {
    var r := Insert(q, envelope, expiresAt);
    var added := Row(q.next, envelope, expiresAt);
    forall id | r.Floor() < id < r.next ensures id in Ids(r.rows) {
      var x := if id == q.next then added else RowWith(q.rows, id);
      assert x in r.rows;
    }
    forall x | x in r.rows ensures x.id != r.unavailable {
      if x != added { assert x.id in Ids(q.rows); }
    }
  }

  lemma AppendInv(q: Queue, envelope: seq<byte>, expiresAt: int, now: int)
    requires Inv(q) && Append(q, envelope, expiresAt, now).Ok?
    ensures Inv(Append(q, envelope, expiresAt, now).value.0)
    ensures Append(q, envelope, expiresAt, now).value.0.next == q.next + 1
    ensures Append(q, envelope, expiresAt, now).value.0.acknowledged == q.acknowledged
  {
    CompactInv(q, now);
    InsertInv(Compact(q, now), envelope, expiresAt);
    EvictInv(Insert(Compact(q, now), envelope, expiresAt));
  }

  /** On an ordered table, After keeps exactly the rows above the cursor. */
  lemma {:induction false} AfterExact(rows: seq<Row>, cursor: int)
    requires Ordered(rows)
    ensures Ordered(After(rows, cursor))
    ensures forall x :: x in After(rows, cursor) <==> x in rows && x.id > cursor
  {
    if rows != [] && rows[0].id <= cursor {
      AfterExact(rows[1..], cursor);
      assert rows == [rows[0]] + rows[1..];
    }
  }

  lemma AcknowledgeThroughInv(q: Queue, cursor: int)
    requires Inv(q) && q.acknowledged < cursor < q.next
    ensures Inv(AcknowledgeThrough(q, cursor))
  {
    var r := AcknowledgeThrough(q, cursor);
    AfterExact(q.rows, cursor);
    forall id | r.Floor() < id < r.next ensures id in Ids(r.rows) {
      var x := RowWith(q.rows, id);
      assert x in r.rows;
    }
    forall x | x in r.rows ensures x.id != r.unavailable {
      assert x.id in Ids(q.rows);
    }
  }

  lemma ResumeInv(q: Queue, cursor: int, now: int, limit: nat)
    requires Inv(q) && Resume(q, cursor, now, limit).Ok?
    ensures Inv(Resume(q, cursor, now, limit).value.0)
    ensures Resume(q, cursor, now, limit).value.0.next == q.next
  {
    CompactInv(q, now);
    var c := Compact(q, now);
    if c.Floor() <= cursor && cursor > c.acknowledged { AcknowledgeThroughInv(c, cursor); }
  }

  lemma ReadInv(q: Queue, after: int, now: int, limit: nat)
    requires Inv(q)
    ensures Inv(Read(q, after, now, limit).0)
    ensures Read(q, after, now, limit).0.next == q.next
    ensures Read(q, after, now, limit).0.acknowledged == q.acknowledged
  {
    CompactInv(q, now);
  }

  lemma AcknowledgeInv(q: Queue, cursor: int)
    requires Inv(q) && Acknowledge(q, cursor).Ok?
    ensures Inv(Acknowledge(q, cursor).value)
    ensures Acknowledge(q, cursor).value.next == q.next
    ensures Acknowledge(q, cursor).value.acknowledged == Max(q.acknowledged, cursor)
  {
    if q.acknowledged < cursor { AcknowledgeThroughInv(q, cursor); }
  }

  // ------------------------------------------------ refinement of the full log

  lemma RowsRefine(q: Queue, rows: seq<Row>, log: seq<Submission>)
    requires Refines(q, log) && forall r | r in rows :: r in q.rows
    ensures forall r | r in rows :: Recorded(r, log)
  {
  }

  lemma CompactRefines(q: Queue, now: int, log: seq<Submission>)
    requires Refines(q, log)
    ensures Refines(Compact(q, now), log)
  {
    RowsRefine(q, Unexpired(q.rows, now), log);
  }

  lemma {:induction false} EvictRefines(q: Queue, log: seq<Submission>)
    requires Refines(q, log)
    ensures Refines(Evict(q), log)
    decreases |q.rows|
  {
    if !Fits(q.rows) {
      EvictRefines(EvictOldest(q), log);
    }
  }

  lemma AppendRefines(q: Queue, envelope: seq<byte>, expiresAt: int, now: int, log: seq<Submission>)
    requires Refines(q, log) && Append(q, envelope, expiresAt, now).Ok?
    ensures Refines(Append(q, envelope, expiresAt, now).value.0, log + [Submission(envelope, expiresAt)])
  {
    CompactRefines(q, now, log);
    EvictRefines(Insert(Compact(q, now), envelope, expiresAt), log + [Submission(envelope, expiresAt)]);
  }

  lemma AcknowledgeRefines(q: Queue, cursor: int, log: seq<Submission>)
    requires Refines(q, log) && Acknowledge(q, cursor).Ok?
    ensures Refines(Acknowledge(q, cursor).value, log)
  {
    RowsRefine(q, After(q.rows, cursor), log);
  }

  // ----------------------------------------------------- no silent gap in reads

  /** An ordered table that covers an interval of ids is exactly that interval. */
  lemma {:induction false} Contiguous(rows: seq<Row>, low: int, next: int)
    requires Ordered(rows) && low < next
    requires forall r | r in rows :: low < r.id < next
    requires forall id | low < id < next :: id in Ids(rows)
    ensures |rows| == next - 1 - low
    ensures forall i | 0 <= i < |rows| :: rows[i].id == low + 1 + i
    decreases next - low
  {
    assert rows == [] || (rows[0] in rows && low < rows[0].id < next);
    if low + 1 < next {
      var first := RowWith(rows, low + 1);
      assert rows[0] == first;
      var rest := rows[1..];
      assert rows == [first] + rest;
      forall id | low + 1 < id < next ensures id in Ids(rest) {
        var r := RowWith(rows, id);
        assert r in rest;
      }
      Contiguous(rest, low + 1, next);
    }
  }

  /** At or above the unavailable cursor, the rows above a position are one block with no hole. */
  lemma AfterContiguous(q: Queue, cursor: int)
    requires Inv(q) && q.unavailable <= cursor < q.next
    ensures |After(q.rows, cursor)| == q.next - 1 - Max(cursor, q.acknowledged)
    ensures forall i | 0 <= i < |After(q.rows, cursor)| ::
              After(q.rows, cursor)[i].id == Max(cursor, q.acknowledged) + 1 + i
  {
    var above, low := After(q.rows, cursor), Max(cursor, q.acknowledged);
    AfterExact(q.rows, cursor);
    forall id | low < id < q.next ensures id in Ids(above) {
      var r := RowWith(q.rows, id);
      assert r in above;
    }
    Contiguous(above, low, q.next);
  }

  /** The id at the floor is gone: either acknowledged or lost. */
  lemma FloorNotStored(q: Queue)
    requires Inv(q)
    ensures q.Floor() !in Ids(q.rows)
  {
    forall r | r in q.rows ensures r.id != q.Floor() {
      assert r.id in Ids(q.rows);
    }
  }

  // ------------------------------------------- what each operation keeps and drops

  /** A row with this id is stored and has not expired. */
  predicate Present(rows: seq<Row>, id: int, now: int) {
    exists r :: r in rows && r.id == id && r.expiresAt > now
  }

  /** The mark is the old one or the id of a dropped row, and no dropped row lies above it. */
  ghost predicate Marks(q: Queue, rows: seq<Row>, n: Queue) {
    && q.unavailable <= n.unavailable
    && (forall r | r in rows && r !in n.rows :: r.id <= n.unavailable)
    && (n.unavailable == q.unavailable || exists r :: r in rows && r !in n.rows && r.id == n.unavailable)
  }

  /** Compaction drops exactly the expired rows and marks the highest of them. */
  lemma CompactExact(q: Queue, now: int)
    ensures var n := Compact(q, now);
            && (forall r :: r in n.rows <==> r in q.rows && r.expiresAt > now)
            && (Ordered(q.rows) ==> Ordered(n.rows))
            && (0 <= q.unavailable ==> Marks(q, q.rows, n)) && n.next == q.next && n.acknowledged == q.acknowledged
  {
    if Ordered(q.rows) { UnexpiredOrdered(q.rows, now); }
  }

  /** An acknowledgement keeps exactly the rows above its cursor and leaves the unavailable mark alone. */
  lemma AcknowledgeExact(q: Queue, cursor: int)
    requires Inv(q)
    ensures Acknowledge(q, cursor).Ok? <==> cursor <= q.HighWater()
    ensures Acknowledge(q, cursor).Ok? ==>
              var n := Acknowledge(q, cursor).value;
              && (forall r :: r in n.rows <==> r in q.rows && r.id > cursor) && Ordered(n.rows)
              && n.acknowledged == Max(q.acknowledged, cursor) && n.next == q.next && n.unavailable == q.unavailable
  {
    AfterExact(q.rows, cursor);
  }

  lemma CompactPresent(q: Queue, id: int, now: int)
    ensures id in Ids(Compact(q, now).rows) <==> Present(q.rows, id, now)
  {
    CompactExact(q, now);
    if id in Ids(Compact(q, now).rows) {
      var r := RowWith(Compact(q, now).rows, id);
      assert r in q.rows && r.id == id && r.expiresAt > now;
    }
  }

  lemma ResumeRows(q: Queue, cursor: int, now: int, limit: nat)
    requires Inv(q) && 0 <= cursor <= q.HighWater()
    ensures var (n, b) := Resume(q, cursor, now, limit).value;
            && (forall r :: r in n.rows <==> r in q.rows && r.expiresAt > now && (b.resetRequired || r.id > cursor))
            && n.unavailable == Compact(q, now).unavailable && n.next == q.next
  {
    CompactInv(q, now);
    CompactExact(q, now);
    AfterExact(Compact(q, now).rows, cursor);
  }

  /**
   Exact reset. A resume at a cursor not above the high-water asks for a reset if and only if
   some id the cursor still needs has no unexpired row; otherwise it returns the contiguous
   block that starts right after the cursor, and acknowledges the cursor. Either way it drops
   expired rows and acknowledged ones and nothing else.
   */
  lemma ResumeExact(q: Queue, cursor: int, now: int, limit: nat)
    requires Inv(q) && 0 <= cursor <= q.HighWater()
    ensures var r := Resume(q, cursor, now, limit);
            && r.Ok?
            && r.value.1.highWater == q.HighWater()
            && (r.value.1.resetRequired <==>
                exists id :: cursor < id <= q.HighWater() && !Present(q.rows, id, now))
            && (r.value.1.resetRequired ==>
                  r.value.1.deliveries == [] && r.value.0.acknowledged == q.acknowledged)
            && (!r.value.1.resetRequired ==>
                  && q.acknowledged <= cursor == r.value.0.acknowledged
                  && |r.value.1.deliveries| == Min(q.HighWater() - cursor, limit)
                  && forall i | 0 <= i < |r.value.1.deliveries| :: r.value.1.deliveries[i].id == cursor + 1 + i)
            && (forall x :: x in r.value.0.rows <==>
                  x in q.rows && x.expiresAt > now && (r.value.1.resetRequired || x.id > cursor))
  {
    CompactInv(q, now);
    var c := Compact(q, now);
    ResumeRows(q, cursor, now, limit);
    if cursor < c.Floor() {
      FloorNotStored(c);
      CompactPresent(q, c.Floor(), now);
    } else {
      var acked := if cursor > c.acknowledged then AcknowledgeThrough(c, cursor) else c;
      if cursor > c.acknowledged { AcknowledgeThroughInv(c, cursor); }
      AfterContiguous(acked, cursor);
      forall id | cursor < id <= q.HighWater() ensures Present(q.rows, id, now) { CompactPresent(q, id, now); }
    }
  }

  /** History above the position was evicted or has expired. */
  predicate LostAbove(q: Queue, after: int, now: int) {
    after < q.unavailable || exists r :: r in q.rows && r.expiresAt <= now && r.id > after
  }

  /**
   A live read starts at the first id that is neither sent nor acknowledged, and has no hole after
   it. It asks for a reset exactly when history above its position was lost, and then only; it drops
   expired rows and nothing else.
   */
  lemma ReadExact(q: Queue, after: int, now: int, limit: nat)
    requires Inv(q) && 0 <= after <= q.HighWater()
    ensures var (c, b) := Read(q, after, now, limit);
            && b.highWater == q.HighWater()
            && (b.resetRequired <==> LostAbove(q, after, now))
            && (b.resetRequired ==> b.deliveries == [])
            && (!b.resetRequired ==>
                  && |b.deliveries| == Min(q.HighWater() - Max(after, q.acknowledged), limit)
                  && forall i | 0 <= i < |b.deliveries| ::
                       b.deliveries[i].id == Max(after, q.acknowledged) + 1 + i)
            && (forall x :: x in c.rows <==> x in q.rows && x.expiresAt > now)
            && c.acknowledged == q.acknowledged && c.next == q.next
  {
    CompactInv(q, now);
    CompactExact(q, now);
    var c := Compact(q, now);
    if c.unavailable <= after { AfterContiguous(c, after); }
  }

  /** Whatever a read skips without asking for a reset, the client has acknowledged. */
  lemma ReadMissesNothing(q: Queue, after: int, now: int, limit: nat, id: int)
    requires Inv(q) && 0 <= after < id <= q.HighWater() && !Present(q.rows, id, now)
    ensures Read(q, after, now, limit).1.resetRequired || id <= q.acknowledged
  {
    CompactInv(q, now);
    CompactPresent(q, id, now);
  }

  /**
   The "unreported gap" outcome of a read - nothing to send, more history claimed, no
   reset - happens if and only if the client has acknowledged everything beyond the
   writer's position.
   */
  lemma GapIff(q: Queue, after: int, now: int, limit: nat)
    requires Inv(q) && 0 <= after <= q.HighWater() && limit > 0
    ensures var (c, b) := Read(q, after, now, limit);
            (|b.deliveries| == 0 && b.highWater > after && !b.resetRequired) <==>
            (q.unavailable <= after < q.acknowledged && q.acknowledged == q.HighWater())
  {
    ReadExact(q, after, now, limit);
    if q.acknowledged == q.HighWater() {
      assert forall r | r in q.rows :: false;
    }
  }

  /** Row-by-row meaning of a page: the exact bytes submitted under that id, not expired at now. */
  predicate Genuine(d: StoredDelivery, log: seq<Submission>, now: int) {
    && 1 <= d.id <= |log|
    && d.envelope == log[d.id - 1].envelope
    && log[d.id - 1].expiresAt > now
  }

  lemma PageGenuine(q: Queue, cursor: int, limit: nat, log: seq<Submission>, now: int)
    requires Refines(q, log) && forall r | r in q.rows :: r.expiresAt > now
    ensures forall d | d in Page(q.rows, cursor, limit) :: Genuine(d, log, now)
  {
    var above, page := After(q.rows, cursor), Page(q.rows, cursor, limit);
    forall i | 0 <= i < |page| ensures Genuine(page[i], log, now) {
      assert above[i] in above && Recorded(above[i], log);
    }
  }

  /** A live read returns only genuine, unexpired deliveries. */
  lemma ReadGenuine(q: Queue, after: int, now: int, limit: nat, log: seq<Submission>)
    requires Refines(q, log)
    ensures Refines(Read(q, after, now, limit).0, log)
    ensures forall d | d in Read(q, after, now, limit).1.deliveries :: Genuine(d, log, now)
  {
    CompactRefines(q, now, log);
    PageGenuine(Compact(q, now), after, limit, log, now);
  }

  /** So does a resume. */
  lemma ResumeGenuine(q: Queue, cursor: int, now: int, limit: nat, log: seq<Submission>)
    requires Refines(q, log) && Resume(q, cursor, now, limit).Ok?
    ensures Refines(Resume(q, cursor, now, limit).value.0, log)
    ensures forall d | d in Resume(q, cursor, now, limit).value.1.deliveries :: Genuine(d, log, now)
  {
    CompactRefines(q, now, log);
    var r := Resume(q, cursor, now, limit).value.0;
    PageGenuine(r, cursor, limit, log, now);
  }

  // ------------------------------------------------------------------ capacity

  /** Eviction drops the shortest prefix of oldest rows that restores both limits. */
  lemma {:induction false} EvictShortest(q: Queue)
    ensures var kept := Evict(q).rows;
            && |kept| <= |q.rows|
            && kept == q.rows[|q.rows| - |kept|..]
            && Fits(kept)
            && forall j | 0 <= j < |q.rows| - |kept| :: !Fits(q.rows[j..])
    decreases |q.rows|
  {
    if !Fits(q.rows) {
      EvictShortest(EvictOldest(q));
      var kept := Evict(q).rows;
      forall j | 0 <= j < |q.rows| - |kept| ensures !Fits(q.rows[j..]) {
        if j == 0 {
          assert q.rows[0..] == q.rows;
        } else {
          assert q.rows[j..] == q.rows[1..][j - 1..];
        }
      }
    } else {
      assert q.rows[0..] == q.rows;
    }
  }

  /** A row that fits on its own survives its own append, so the id just returned is readable. */
  lemma NewestKept(q: Queue)
    requires q.rows != [] && |q.rows[|q.rows| - 1].envelope| <= MAX_QUEUED_BYTES
    ensures Evict(q).rows != [] && Evict(q).rows[|Evict(q).rows| - 1] == q.rows[|q.rows| - 1]
  {
    EvictShortest(q);
    var newest := q.rows[|q.rows| - 1..];
    assert newest[1..] == [];
    assert TotalBytes(newest) == |newest[0].envelope| + TotalBytes(newest[1..]);
    assert Fits(newest);
  }

  // ------------------------------------------- everything a stored queue promises

  predicate Sound(q: Queue, log: seq<Submission>) {
    Inv(q) && Fits(q.rows) && Refines(q, log)
  }

  /** One more row dropped at the front, older than all the rest. */
  lemma MarksOldest(q: Queue, m: Queue, n: Queue)
    requires q.rows != [] && q.rows == [q.rows[0]] + m.rows && m.unavailable == Max(q.unavailable, q.rows[0].id)
    requires (forall r | r in n.rows :: r in m.rows) && q.rows[0] !in m.rows && Marks(m, m.rows, n)
    ensures Marks(q, q.rows, n)
  {
    if n.unavailable == m.unavailable && m.unavailable != q.unavailable {
      assert q.rows[0] in q.rows && q.rows[0] !in n.rows && q.rows[0].id == n.unavailable;
    }
  }

  lemma {:induction false} EvictMarks(q: Queue)
    requires Ordered(q.rows)
    ensures Marks(q, q.rows, Evict(q)) && Evict(q).next == q.next && Evict(q).acknowledged == q.acknowledged
    ensures forall r | r in Evict(q).rows :: r in q.rows
    decreases |q.rows|
  {
    hide Marks;
    if Fits(q.rows) {
      MarksSame(q);
    } else {
      var m := EvictOldest(q);
      assert q.rows == [q.rows[0]] + m.rows;
      assert q.rows[0] !in m.rows;
      EvictMarks(m);
      MarksOldest(q, m, Evict(q));
    }
  }

  lemma MarksSame(q: Queue)
    ensures Marks(q, q.rows, q)
  {
  }

  /** The unexpired rows with the new one at the end. */
  function Candidates(q: Queue, envelope: seq<byte>, expiresAt: int, now: int): seq<Row> {
    Unexpired(q.rows, now) + [Row(q.next, envelope, expiresAt)]
  }

  /** At most 4096 rows and 64 MiB. */
  predicate InLimits(rows: seq<Row>) {
    |rows| <= 4096 && TotalBytes(rows) <= 67_108_864
  }

  /**
   An append takes the next id and keeps the unexpired rows and the new one, but for the shortest
   oldest prefix whose removal restores both limits. The mark covers exactly what was dropped.
   */
  lemma AppendExact(q: Queue, envelope: seq<byte>, expiresAt: int, now: int)
    requires Inv(q)
    ensures Append(q, envelope, expiresAt, now).Ok? <==> q.next < MAX_INT64
    ensures Append(q, envelope, expiresAt, now).Ok? ==>
              var (n, id) := Append(q, envelope, expiresAt, now).value;
              var all := Candidates(q, envelope, expiresAt, now);
              && id == q.next && n.next == q.next + 1 && n.acknowledged == q.acknowledged
              && |n.rows| <= |all| && n.rows == all[|all| - |n.rows|..] && InLimits(n.rows)
              && (forall j | 0 <= j < |all| - |n.rows| :: !InLimits(all[j..]))
              && Marks(q, q.rows + [Row(q.next, envelope, expiresAt)], n)
  {
    hide Inv, Marks, Unexpired, ExpiredThrough, Evict, Ordered, TotalBytes;
    assert 1 <= q.next <= MAX_INT64 by { NextPositive(q); }
    if q.next < MAX_INT64 {
      var m := Insert(Compact(q, now), envelope, expiresAt);
      assert m.rows == Candidates(q, envelope, expiresAt, now);
      EvictShortest(m);
      assert Ordered(m.rows) by { CandidatesOrdered(q, envelope, expiresAt, now); }
      EvictMarks(m);
      AppendMarks(q, envelope, expiresAt, now);
    }
  }

  lemma NextPositive(q: Queue)
    requires Inv(q)
    ensures 1 <= q.next <= MAX_INT64
  {
  }

  lemma CandidatesOrdered(q: Queue, envelope: seq<byte>, expiresAt: int, now: int)
    requires Inv(q) && q.next < MAX_INT64
    ensures Ordered(Candidates(q, envelope, expiresAt, now))
  {
    CompactInv(q, now);
    InsertInv(Compact(q, now), envelope, expiresAt);
  }

  lemma AppendMarks(q: Queue, envelope: seq<byte>, expiresAt: int, now: int)
    requires Inv(q) && q.next < MAX_INT64
    ensures Marks(q, q.rows + [Row(q.next, envelope, expiresAt)], Evict(Insert(Compact(q, now), envelope, expiresAt)))
  {
    var c, added := Compact(q, now), Row(q.next, envelope, expiresAt);
    CompactExact(q, now);
    CandidatesOrdered(q, envelope, expiresAt, now);
    var m := Insert(c, envelope, expiresAt);
    EvictMarks(m);
    MarksChain(q, c, m, Evict(m), added);
  }

  /** Dropping in two passes marks what both dropped. */
  lemma MarksChain(q: Queue, c: Queue, m: Queue, n: Queue, added: Row)
    requires Marks(q, q.rows, c) && m.rows == c.rows + [added] && m.unavailable == c.unavailable && Marks(m, m.rows, n)
    requires (forall r | r in c.rows :: r in q.rows) && (forall r | r in n.rows :: r in m.rows) && added !in q.rows
    ensures Marks(q, q.rows + [added], n)
  {
    var all := q.rows + [added];
    forall r | r in all && r !in n.rows ensures r.id <= n.unavailable {
      if r in m.rows {} else { assert r in q.rows && r !in c.rows; }
    }
    if n.unavailable != m.unavailable {
      var r :| r in m.rows && r !in n.rows && r.id == n.unavailable;
      assert r in all;
    } else if c.unavailable != q.unavailable {
      var r :| r in q.rows && r !in c.rows && r.id == c.unavailable;
      assert r in all && r !in m.rows;
    }
  }

  lemma AppendSound(q: Queue, envelope: seq<byte>, expiresAt: int, now: int, log: seq<Submission>)
    requires Sound(q, log) && Append(q, envelope, expiresAt, now).Ok?
    ensures Sound(Append(q, envelope, expiresAt, now).value.0, log + [Submission(envelope, expiresAt)])
    ensures |envelope| <= MAX_QUEUED_BYTES ==>
              Row(q.next, envelope, expiresAt) in Append(q, envelope, expiresAt, now).value.0.rows
  {
    AppendInv(q, envelope, expiresAt, now);
    AppendRefines(q, envelope, expiresAt, now, log);
    if |envelope| <= MAX_QUEUED_BYTES { NewestKept(Insert(Compact(q, now), envelope, expiresAt)); }
  }

  // Removing rows never breaks a limit that already holds.

  lemma {:induction false} UnexpiredFits(rows: seq<Row>, now: int)
    requires Fits(rows)
    ensures Fits(Unexpired(rows, now))
    ensures |Unexpired(rows, now)| <= |rows| && TotalBytes(Unexpired(rows, now)) <= TotalBytes(rows)
  {
    if rows != [] {
      UnexpiredFits(rows[1..], now);
      var rest := Unexpired(rows[1..], now);
      assert ([rows[0]] + rest)[1..] == rest;
    }
  }

  lemma {:induction false} AfterFits(rows: seq<Row>, cursor: int)
    requires Fits(rows)
    ensures Fits(After(rows, cursor))
  {
    if rows != [] && rows[0].id <= cursor { AfterFits(rows[1..], cursor); }
  }

  lemma ResumeSound(q: Queue, cursor: int, now: int, limit: nat, log: seq<Submission>)
    requires Sound(q, log) && Resume(q, cursor, now, limit).Ok?
    ensures Sound(Resume(q, cursor, now, limit).value.0, log)
  {
    ResumeInv(q, cursor, now, limit);
    ResumeGenuine(q, cursor, now, limit, log);
    UnexpiredFits(q.rows, now);
    AfterFits(Compact(q, now).rows, cursor);
  }

  lemma ReadSound(q: Queue, after: int, now: int, limit: nat, log: seq<Submission>)
    requires Sound(q, log)
    ensures Sound(Read(q, after, now, limit).0, log)
  {
    ReadInv(q, after, now, limit);
    ReadGenuine(q, after, now, limit, log);
    UnexpiredFits(q.rows, now);
  }

  lemma AcknowledgeSound(q: Queue, cursor: int, log: seq<Submission>)
    requires Sound(q, log) && Acknowledge(q, cursor).Ok?
    ensures Sound(Acknowledge(q, cursor).value, log)
  {
    AcknowledgeInv(q, cursor);
    AcknowledgeRefines(q, cursor, log);
    AfterFits(q.rows, cursor);
  }
}
