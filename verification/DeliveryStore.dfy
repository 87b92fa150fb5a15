/**
 The durable delivery store. Each method is one transaction: it works on a copy of
 the recipient's queue and writes it back only on commit, so an error changes nothing.
 */
module DeliveryStore {
  import opened Base
  import opened Bytes
  import opened DeliveryQueue

  datatype Peer = Peer(workspaceId: Id16, deviceId: Id16)

  class Store {
    /** Registered devices; both delivery tables refer to them by foreign key. */
    var devices: set<Peer>
    var queues: map<Peer, Queue>
    /** Everything ever submitted, per recipient. */
    ghost var logs: map<Peer, seq<Submission>>

    ghost predicate Valid()
      reads this
    {
      && queues.Keys == logs.Keys <= devices
      && (forall p | p in queues :: Sound(queues[p], logs[p]))
    }

    /** The queue a method sees after ensureDeliveryState. */
    function QueueOf(p: Peer): Queue
      reads this
    {
      if p in queues then queues[p] else FRESH
    }

    ghost function LogOf(p: Peer): seq<Submission>
      reads this
    {
      if p in logs then logs[p] else []
    }

    constructor (devices: set<Peer>)
      ensures Valid() && this.devices == devices && queues == map[] && logs == map[]
    {
      this.devices := devices;
      queues := map[];
      logs := map[];
    }

    /** Ends a transaction on one recipient's rows. */
    method Commit(recipient: Peer, q: Queue, ghost log: seq<Submission>)
      requires Valid() && recipient in devices && Sound(q, log)
      modifies this`queues, this`logs
      ensures Valid()
      ensures queues == old(queues)[recipient := q] && logs == old(logs)[recipient := log]
    {
      queues := queues[recipient := q];
      logs := logs[recipient := log];
    }

    method AppendDelivery(recipient: Peer, envelope: seq<byte>, expiresAt: Instant, now: Instant)
      returns (r: Result<int, QueueError>)
      requires Valid()
      modifies this`queues, this`logs
      ensures Valid()
      ensures r.Err? <==>
              || envelope == [] || expiresAt == ZERO_INSTANT || now == ZERO_INSTANT || expiresAt <= now
              || recipient !in devices || old(QueueOf(recipient)).next == MAX_INT64
      ensures r == Err(InvalidRequest) <==>
              envelope == [] || expiresAt == ZERO_INSTANT || now == ZERO_INSTANT || expiresAt <= now
      ensures r.Err? && r.error != InvalidRequest ==>
                r.error == if recipient !in devices then UnknownRecipient else SequenceExhausted
      ensures r.Err? ==> queues == old(queues) && logs == old(logs)
      ensures r.Ok? ==>
                && Append(old(QueueOf(recipient)), envelope, Millis(expiresAt), Millis(now))
                   == Ok((QueueOf(recipient), r.value))
                && queues == old(queues)[recipient := QueueOf(recipient)]
                && logs == old(logs)[recipient := old(LogOf(recipient)) + [Submission(envelope, Millis(expiresAt))]]
                && r.value == |LogOf(recipient)|
                && (|envelope| <= MAX_QUEUED_BYTES ==>
                      Row(r.value, envelope, Millis(expiresAt)) in QueueOf(recipient).rows)
    {
      if |envelope| == 0 || expiresAt == ZERO_INSTANT || now == ZERO_INSTANT || expiresAt <= now {
        return Err(InvalidRequest);
      }
      if recipient !in devices { return Err(UnknownRecipient); }
      var q := QueueOf(recipient);
      if q.next < 1 || q.next == MAX_INT64 { return Err(SequenceExhausted); }
      AppendSound(q, envelope, Millis(expiresAt), Millis(now), LogOf(recipient));
      var compacted := CompactExpired(q, Millis(now));
      var stored := EnforceCapacity(Insert(compacted, envelope, Millis(expiresAt)));
      Commit(recipient, stored, LogOf(recipient) + [Submission(envelope, Millis(expiresAt))]);
      r := Ok(q.next);
    }

    method ResumeDeliveries(recipient: Peer, cursor: nat, now: Instant, limit: int)
      returns (r: Result<Batch, QueueError>)
      requires Valid()
      modifies this`queues, this`logs
      ensures Valid()
      ensures r.Err? <==>
              || cursor > MAX_INT64 || now == ZERO_INSTANT || limit < 1 || limit > 256
              || recipient !in devices || cursor > old(QueueOf(recipient)).HighWater()
      ensures r == Err(InvalidRequest) <==> cursor > MAX_INT64 || now == ZERO_INSTANT || limit < 1 || limit > 256
      ensures r.Err? && r.error != InvalidRequest ==>
                r.error == if recipient !in devices then UnknownRecipient else CursorAhead
      ensures r.Err? ==> queues == old(queues) && logs == old(logs)
      ensures r.Ok? ==>
                && Resume(old(QueueOf(recipient)), cursor, Millis(now), limit) == Ok((QueueOf(recipient), r.value))
                && queues == old(queues)[recipient := QueueOf(recipient)]
                && logs == old(logs)[recipient := old(LogOf(recipient))]
    {
      if cursor > MAX_INT64 || now == ZERO_INSTANT || limit < 1 || limit > 256 {
        return Err(InvalidRequest);
      }
      if recipient !in devices { return Err(UnknownRecipient); }
      var q := QueueOf(recipient);
      var outcome := RunResume(q, cursor, Millis(now), limit);
      if outcome.Err? { return Err(outcome.error); }
      ResumeSound(q, cursor, Millis(now), limit, LogOf(recipient));
      Commit(recipient, outcome.value.0, LogOf(recipient));
      r := Ok(outcome.value.1);
    }

    method ReadDeliveries(recipient: Peer, after: nat, now: Instant, limit: int)
      returns (r: Result<Batch, QueueError>)
      requires Valid()
      modifies this`queues, this`logs
      ensures Valid()
      ensures r.Err? <==>
              after > MAX_INT64 || now == ZERO_INSTANT || limit < 1 || limit > 256 || recipient !in old(queues)
      ensures r == Err(InvalidRequest) <==> after > MAX_INT64 || now == ZERO_INSTANT || limit < 1 || limit > 256
      ensures r.Err? && r.error != InvalidRequest ==> r.error == NoDeliveryState
      ensures r.Err? ==> queues == old(queues)
      ensures r.Ok? ==>
                && Read(old(QueueOf(recipient)), after, Millis(now), limit) == (QueueOf(recipient), r.value)
                && queues == old(queues)[recipient := QueueOf(recipient)]
      ensures logs == old(logs)
    {
      if after > MAX_INT64 || now == ZERO_INSTANT || limit < 1 || limit > 256 {
        return Err(InvalidRequest);
      }
      if recipient !in queues { return Err(NoDeliveryState); }
      var q := QueueOf(recipient);
      var stored, batch := RunRead(q, after, Millis(now), limit);
      ReadSound(q, after, Millis(now), limit, LogOf(recipient));
      Commit(recipient, stored, LogOf(recipient));
      r := Ok(batch);
    }

    method AcknowledgeDelivery(recipient: Peer, cursor: nat) returns (r: Result<(), QueueError>)
      requires Valid()
      modifies this`queues, this`logs
      ensures Valid()
      ensures r.Err? <==>
              || cursor == 0 || cursor > MAX_INT64
              || recipient !in devices || cursor > old(QueueOf(recipient)).HighWater()
      ensures r == Err(InvalidRequest) <==> cursor == 0 || cursor > MAX_INT64
      ensures r.Err? && r.error != InvalidRequest ==>
                r.error == if recipient !in devices then UnknownRecipient else CursorAhead
      ensures r.Err? ==> queues == old(queues) && logs == old(logs)
      ensures r.Ok? ==>
                && DeliveryQueue.Acknowledge(old(QueueOf(recipient)), cursor) == Ok(QueueOf(recipient))
                && queues == old(queues)[recipient := QueueOf(recipient)]
                && logs == old(logs)[recipient := old(LogOf(recipient))]
    {
      if cursor == 0 || cursor > MAX_INT64 { return Err(InvalidRequest); }
      if recipient !in devices { return Err(UnknownRecipient); }
      var q := QueueOf(recipient);
      if cursor >= q.next { return Err(CursorAhead); }
      AcknowledgeSound(q, cursor, LogOf(recipient));
      if cursor > q.acknowledged { q := AcknowledgeThrough(q, cursor); }
      Commit(recipient, q, LogOf(recipient));
      r := Ok(());
    }
  }

  /** The body of the resume transaction. */
  method RunResume(q: Queue, cursor: int, now: int, limit: nat) returns (r: Result<(Queue, Batch), QueueError>)
    ensures r == Resume(q, cursor, now, limit)
  {
    var c := CompactExpired(q, now);
    if cursor > c.HighWater() { return Err(CursorAhead); }
    if cursor < c.Floor() { return Ok((c, Batch(c.HighWater(), true, []))); }
    var highWater := c.HighWater();
    if cursor > c.acknowledged { c := AcknowledgeThrough(c, cursor); }
    var page := CollectPage(c.rows, cursor, limit);
    r := Ok((c, Batch(highWater, false, page)));
  }

  /** The body of the read transaction. */
  method RunRead(q: Queue, after: int, now: int, limit: nat) returns (c: Queue, batch: Batch)
    ensures (c, batch) == Read(q, after, now, limit)
  {
    c := CompactExpired(q, now);
    batch := Batch(c.HighWater(), false, []);
    if after < c.unavailable {
      batch := batch.(resetRequired := true);
    } else {
      var page := CollectPage(c.rows, after, limit);
      batch := batch.(deliveries := page);
    }
  }

  /** compactExpiredDeliveries: find the highest expired id, delete the expired rows, mark the loss. */
  method CompactExpired(q: Queue, now: int) returns (r: Queue)
    ensures r == Compact(q, now)
    ensures forall x :: x in r.rows <==> x in q.rows && x.expiresAt > now
    ensures (0 <= q.unavailable ==> Marks(q, q.rows, r)) && r.next == q.next && r.acknowledged == q.acknowledged
  {
    hide Marks;
    var kept: seq<Row>, through := [], 0;
    for i := |q.rows| downto 0
      invariant kept == Unexpired(q.rows[i..], now)
      invariant through == ExpiredThrough(q.rows[i..], now)
    {
      assert q.rows[i..][1..] == q.rows[i + 1..];
      if q.rows[i].expiresAt <= now {
        through := Max(q.rows[i].id, through);
      } else {
        kept := [q.rows[i]] + kept;
      }
    }
    assert q.rows[0..] == q.rows;
    r := q.(rows := kept, unavailable := Max(q.unavailable, through));
    CompactExact(q, now);
  }

  /** enforceDeliveryCapacity: measures, and evicts the oldest row until both limits hold. */
  method EnforceCapacity(q: Queue) returns (r: Queue)
    ensures r == Evict(q)
  {
    r := q;
    while !Fits(r.rows)
      invariant Evict(r) == Evict(q)
      decreases |r.rows|
    {
      r := EvictOldest(r);
    }
  }

  /** Reads result rows one by one, in id order, up to the limit. */
  method CollectPage(rows: seq<Row>, cursor: int, limit: nat) returns (page: seq<StoredDelivery>)
    ensures page == Page(rows, cursor, limit)
  {
    page := [];
    var above := After(rows, cursor);
    var i := 0;
    while i < |above| && i < limit
      invariant 0 <= i <= |above| && i <= limit
      invariant |page| == i
      invariant forall k | 0 <= k < i :: page[k] == StoredDelivery(above[k].id, above[k].envelope)
    {
      page := page + [StoredDelivery(above[i].id, above[i].envelope)];
      i := i + 1;
    }
  }
}
