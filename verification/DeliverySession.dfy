/**
 One live connection draining one recipient's queue. The writer loop is cut at every
 point where another goroutine can run: taking a signal, each store transaction and
 each frame written are separate steps, and appends, wake-ups and acknowledgements of
 others fall between any two of them. A run is any sequence of actions.
 */
module DeliverySession {
  import opened Base
  import opened Bytes
  import opened DeliveryQueue
  import EnvelopeFrame
  import RelayDelivery
  import RoutingHeader

  const DELIVERY_BATCH_SIZE := 64

  datatype Cause = UnreportedGap | EncodingFailed | Refused(error: QueueError) | Closed

  /** Where the writer goroutine stands. */
  datatype Writer =
    | Idle
    | Resuming(cursor: int)
    | Reading(draining: bool)
    | Draining(batch: Batch, written: nat)
    | Stopped(cause: Cause)

  datatype Event =
    | Asked(cursor: int)
    | Resumed(cursor: int)
    | Sent(id: int, envelope: seq<byte>)
    | CaughtUp(highWater: int)
    | ResetSent(highWater: int)
    | Acked(cursor: int)

  /** What the client has seen and said, newest event outermost. */
  datatype History = Nothing | Then(earlier: History, event: Event)

  datatype Session = Session(
    queue: Queue,
    log: seq<Submission>,
    writer: Writer,
    sentCursor: int,
    cursorInitialized: bool,
    durableWake: bool,           // the one-slot wake channel holds a token
    resumeRequest: Option<int>,  // the one-slot resume channel
    committing: nat,             // senders between commit and wake-up
    history: History)

  datatype Action =
    | Submit(frame: seq<byte>, expiresAt: int, now: int)
    | Wake
    | AskResume(cursor: int)
    | Acknowledge(cursor: int)
    | TakeResume
    | DoResume(now: int)
    | TakeWake
    | DoRead(now: int)
    | WriteNext
    | Stop

  predicate ValidFrame(envelope: seq<byte>) {
    EnvelopeFrame.Decode(envelope).Ok?
  }

  /** EncodeDelivery succeeds. */
  predicate Encodable(d: StoredDelivery) {
    0 < d.id <= MAX_INT64 && ValidFrame(d.envelope)
  }

  /** EncodeCaughtUp and EncodeResetRequired succeed. */
  predicate EncodableCursor(cursor: int) {
    0 <= cursor <= MAX_INT64
  }

  lemma EncodableIff(d: StoredDelivery)
    requires 0 <= d.id < 0x1_0000_0000_0000_0000
    ensures Encodable(d) <==> RelayDelivery.DeliveryMessage(d.id, d.envelope).Ok?
    ensures EncodableCursor(d.id) <==> RelayDelivery.Control(RelayDelivery.CAUGHT_UP_MAGIC, d.id, true).Ok?
    ensures EncodableCursor(d.id) <==> RelayDelivery.Control(RelayDelivery.RESET_MAGIC, d.id, true).Ok?
  {
  }

  // ---------------------------------------------------------------------- steps

  function SubmitStep(s: Session, frame: seq<byte>, expiresAt: int, now: int): Session {
    if ValidFrame(frame) && expiresAt > now && Append(s.queue, frame, expiresAt, now).Ok? then
      s.(queue := Append(s.queue, frame, expiresAt, now).value.0,
         log := s.log + [Submission(frame, expiresAt)],
         committing := s.committing + 1)
    else s
  }

  function AcknowledgeStep(s: Session, cursor: int): Session {
    if !s.writer.Stopped? && 0 < cursor <= MAX_INT64 && DeliveryQueue.Acknowledge(s.queue, cursor).Ok? then
      s.(queue := DeliveryQueue.Acknowledge(s.queue, cursor).value, history := Then(s.history, Acked(cursor)))
    else s
  }

  function ResumeStep(s: Session, cursor: int, now: int): Session {
    match Resume(s.queue, cursor, now, DELIVERY_BATCH_SIZE)
    case Err(e) => s.(writer := Stopped(Refused(e)))
    case Ok((q, batch)) =>
      s.(queue := q, cursorInitialized := true, sentCursor := cursor, writer := Draining(batch, 0),
         history := if batch.resetRequired then s.history else Then(s.history, Resumed(cursor)))
  }

  /** The gap check belongs to the drain loop only; a first read goes straight to it. */
  function ReadStep(s: Session, draining: bool, now: int): Session {
    var (q, batch) := Read(s.queue, s.sentCursor, now, DELIVERY_BATCH_SIZE);
    if draining && |batch.deliveries| == 0 && batch.highWater > s.sentCursor && !batch.resetRequired then
      s.(queue := q, writer := Stopped(UnreportedGap))
    else
      s.(queue := q, writer := Draining(batch, 0))
  }

  /** One turn of drainBatch. */
  function WriteStep(s: Session, batch: Batch, written: nat): Session {
    if batch.resetRequired then
      if !EncodableCursor(batch.highWater) then s.(writer := Stopped(EncodingFailed))
      else s.(writer := Idle, cursorInitialized := false, history := Then(s.history, ResetSent(batch.highWater)))
    else if written < |batch.deliveries| then
      var d := batch.deliveries[written];
      if !Encodable(d) then s.(writer := Stopped(EncodingFailed))
      else s.(writer := Draining(batch, written + 1), sentCursor := d.id,
              history := Then(s.history, Sent(d.id, d.envelope)))
    else if s.sentCursor >= batch.highWater then
      if !EncodableCursor(batch.highWater) then s.(writer := Stopped(EncodingFailed))
      else s.(writer := Idle, history := Then(s.history, CaughtUp(batch.highWater)))
    else s.(writer := Reading(true))
  }

  /** An action that is not enabled leaves the session unchanged. */
  function Step(s: Session, a: Action): Session {
    match a
    case Submit(frame, expiresAt, now) => SubmitStep(s, frame, expiresAt, now)
    case Wake =>
      if s.committing == 0 then s
      else s.(committing := s.committing - 1, durableWake := s.durableWake || !s.writer.Stopped?)
    case AskResume(cursor) =>
      if s.writer.Stopped? || s.resumeRequest.Some? || cursor < 0 || cursor > MAX_INT64 then s
      else s.(resumeRequest := Some(cursor))
    case Acknowledge(cursor) => AcknowledgeStep(s, cursor)
    case TakeResume =>
      if s.writer.Idle? && s.resumeRequest.Some? then
        s.(writer := Resuming(s.resumeRequest.value), resumeRequest := None,
           history := Then(s.history, Asked(s.resumeRequest.value)))
      else s
    case DoResume(now) => if s.writer.Resuming? then ResumeStep(s, s.writer.cursor, now) else s
    case TakeWake =>
      if s.writer.Idle? && s.durableWake then
        s.(durableWake := false, writer := if s.cursorInitialized then Reading(false) else Idle)
      else s
    case DoRead(now) => if s.writer.Reading? then ReadStep(s, s.writer.draining, now) else s
    case WriteNext => if s.writer.Draining? then WriteStep(s, s.writer.batch, s.writer.written) else s
    case Stop => if s.writer.Stopped? then s else s.(writer := Stopped(Closed))
  }

  function Run(s: Session, actions: seq<Action>): Session
    decreases |actions|
  {
    if actions == [] then s else Run(Step(s, actions[0]), actions[1..])
  }

  /** A session as registration leaves it, over any queue the store can hold. */
  predicate Start(s: Session) {
    && Inv(s.queue) && Refines(s.queue, s.log)
    && (forall i | 0 <= i < |s.log| :: ValidFrame(s.log[i].envelope))
    && s.writer == Idle && s.sentCursor == 0 && !s.cursorInitialized
    && !s.durableWake && s.resumeRequest == None && s.history == Nothing
  }

  // ------------------------------------------------------- what histories promise

  /** The position the client has reached in the current segment. */
  function Position(h: History): Option<int> {
    match h
    case Nothing => None
    case Then(_, Resumed(c)) => Some(c)
    case Then(_, Sent(id, _)) => Some(id)
    case Then(_, ResetSent(_)) => None
    case Then(earlier, _) => Position(earlier)
  }

  /** The highest cursor the client has ever acknowledged; base is from before this connection. */
  function AckLevel(h: History, base: int): int {
    match h
    case Nothing => base
    case Then(earlier, Acked(c)) => Max(c, AckLevel(earlier, base))
    case Then(earlier, Resumed(c)) => Max(c, AckLevel(earlier, base))
    case Then(earlier, _) => AckLevel(earlier, base)
  }

  /** The client never acknowledges past what the current segment has sent it. */
  predicate Disciplined(h: History) {
    match h
    case Nothing => true
    case Then(earlier, Acked(c)) =>
      Disciplined(earlier) && (Position(earlier).Some? ==> c <= Position(earlier).value)
    case Then(earlier, _) => Disciplined(earlier)
  }

  /**
   Ids only move forward and skip acknowledged ids at most, a caught-up marker names the position,
   and a segment starts at or above everything acknowledged before it.
   */
  predicate Legal(h: History, base: int) {
    match h
    case Nothing => true
    case Then(earlier, Sent(id, _)) =>
      && Legal(earlier, base)
      && Position(earlier).Some? && id > Position(earlier).value
      && (id == Position(earlier).value + 1 || id - 1 <= AckLevel(earlier, base))
    case Then(earlier, CaughtUp(highWater)) => Legal(earlier, base) && Position(earlier) == Some(highWater)
    case Then(earlier, Resumed(c)) => Legal(earlier, base) && AckLevel(earlier, base) <= c
    case Then(earlier, _) => Legal(earlier, base)
  }

  /** No id is skipped at all. */
  predicate Gapless(h: History) {
    match h
    case Nothing => true
    case Then(earlier, Sent(id, _)) => Gapless(earlier) && Position(earlier) == Some(id - 1)
    case Then(earlier, _) => Gapless(earlier)
  }

  /** Every frame sent carries the bytes submitted under its id. */
  predicate Faithful(h: History, log: seq<Submission>) {
    match h
    case Nothing => true
    case Then(earlier, Sent(id, envelope)) =>
      Faithful(earlier, log) && 1 <= id <= |log| && log[id - 1].envelope == envelope
    case Then(earlier, _) => Faithful(earlier, log)
  }

  /** The cursor of the current segment's resume, and the ids sent since. */
  function ResumedAt(h: History): Option<int> {
    match h
    case Nothing => None
    case Then(_, Resumed(c)) => Some(c)
    case Then(_, ResetSent(_)) => None
    case Then(earlier, _) => ResumedAt(earlier)
  }

  function SentSince(h: History): seq<int> {
    match h
    case Nothing => []
    case Then(_, Resumed(_)) => []
    case Then(_, ResetSent(_)) => []
    case Then(earlier, Sent(id, _)) => SentSince(earlier) + [id]
    case Then(earlier, _) => SentSince(earlier)
  }

  /** The client acknowledged the id after the current segment's resume. */
  predicate AckedSince(h: History, id: int) {
    match h
    case Nothing => false
    case Then(_, Resumed(_)) => false
    case Then(_, ResetSent(_)) => false
    case Then(earlier, Acked(c)) => c >= id || AckedSince(earlier, id)
    case Then(earlier, _) => AckedSince(earlier, id)
  }

  /** The newest event apart from the client's acknowledgements. */
  function LastWord(h: History): Option<Event> {
    match h
    case Nothing => None
    case Then(earlier, Acked(_)) => LastWord(earlier)
    case Then(_, e) => Some(e)
  }

  /** One history continues another. */
  predicate Continued(h: History, whole: History) {
    h == whole || (whole.Then? && Continued(h, whole.earlier))
  }

  // ------------------------------------------------------------ inductive invariant

  /** A segment is open: frames written now continue it. */
  predicate Live(s: Session) {
    s.cursorInitialized && !s.writer.Stopped? && !(s.writer.Draining? && s.writer.batch.resetRequired)
  }

  predicate Stored(s: Session) {
    && Inv(s.queue) && Refines(s.queue, s.log)
    && (forall i | 0 <= i < |s.log| :: ValidFrame(s.log[i].envelope))
    && 0 <= s.sentCursor <= s.queue.HighWater()
    && (s.writer.Resuming? ==> 0 <= s.writer.cursor)
    && (s.resumeRequest.Some? ==> 0 <= s.resumeRequest.value)
    && (s.writer.Draining? || s.writer.Reading? ==> s.cursorInitialized)
  }

  predicate Copied(d: StoredDelivery, log: seq<Submission>) {
    1 <= d.id <= |log| && log[d.id - 1].envelope == d.envelope
  }

  /** The batch in hand is one contiguous block of genuine rows that continues the position. */
  predicate BatchFits(b: Batch, written: nat, sentCursor: int, highWater: int, log: seq<Submission>) {
    && written <= |b.deliveries|
    && (b.resetRequired ==> b.deliveries == [])
    && 0 <= b.highWater <= highWater
    && (forall d | d in b.deliveries :: Copied(d, log))
    && (forall i | 0 <= i < |b.deliveries| :: b.deliveries[i].id == b.deliveries[0].id + i <= b.highWater)
    && (if written == 0 then b.deliveries == [] || sentCursor < b.deliveries[0].id
        else sentCursor == b.deliveries[written - 1].id)
    && (!b.resetRequired ==> sentCursor <= b.highWater)
  }

  predicate Drained(s: Session) {
    s.writer.Draining? ==>
      BatchFits(s.writer.batch, s.writer.written, s.sentCursor, s.queue.HighWater(), s.log)
  }

  /** The first id of an unopened batch follows the position, or only acknowledged ids lie between. */
  predicate Continues(s: Session, base: int) {
    s.writer.Draining? && s.writer.written == 0 && s.writer.batch.deliveries != [] ==>
      && (|| s.writer.batch.deliveries[0].id == s.sentCursor + 1
          || s.writer.batch.deliveries[0].id - 1 <= AckLevel(s.history, base))
      && (Disciplined(s.history) ==> s.writer.batch.deliveries[0].id == s.sentCursor + 1)
  }

  predicate Tracked(s: Session, base: int) {
    && (Live(s) ==> Position(s.history) == Some(s.sentCursor))
    && s.queue.acknowledged == AckLevel(s.history, base)
    && (Live(s) && Disciplined(s.history) ==> s.queue.acknowledged <= s.sentCursor)
    && (Disciplined(s.history) ==> s.writer != Stopped(UnreportedGap))
    && s.writer != Stopped(EncodingFailed)
  }

  predicate Told(s: Session, base: int) {
    && Legal(s.history, base)
    && (Disciplined(s.history) ==> Gapless(s.history))
    && Faithful(s.history, s.log)
  }

  /** Whatever the writer has not seen is announced by a token or a sender still on its way. */
  predicate Announced(s: Session) {
    var announced := s.durableWake || s.committing > 0;
    && (s.writer.Idle? && s.cursorInitialized ==> s.sentCursor == s.queue.HighWater() || announced)
    && (s.writer.Draining? && !s.writer.batch.resetRequired ==>
          s.writer.batch.highWater == s.queue.HighWater() || announced)
  }

  /**
   A writer at rest has answered: an open segment ends in a caught-up marker at its position, and
   without one the last word is a reset, or nothing was ever asked.
   */
  predicate Answered(s: Session) {
    s.writer.Idle? ==>
      if s.cursorInitialized then LastWord(s.history) == Some(CaughtUp(s.sentCursor))
      else LastWord(s.history).None? || LastWord(s.history).value.ResetSent?
  }

  predicate Invariant(s: Session, base: int) {
    && Stored(s) && Drained(s) && Continues(s, base) && Tracked(s, base) && Told(s, base) && Announced(s)
    && Answered(s)
  }

  // --------------------------------------------------------- every step preserves it

  lemma {:induction false} FaithfulGrows(h: History, log: seq<Submission>, more: seq<Submission>)
    requires Faithful(h, log)
    ensures Faithful(h, log + more)
  {
    if h.Then? { FaithfulGrows(h.earlier, log, more); }
  }

  lemma SubmitKeepsStore(s: Session, frame: seq<byte>, expiresAt: int, now: int)
    requires Stored(s) && ValidFrame(frame) && Append(s.queue, frame, expiresAt, now).Ok?
    ensures var q := Append(s.queue, frame, expiresAt, now).value.0;
            && Stored(s.(queue := q, log := s.log + [Submission(frame, expiresAt)]))
            && q.next == s.queue.next + 1 && q.acknowledged == s.queue.acknowledged
  {
    AppendInv(s.queue, frame, expiresAt, now);
    AppendRefines(s.queue, frame, expiresAt, now, s.log);
  }

  /** A longer queue and log change nothing about what was sent, and the sender announces the rest. */
  lemma GrowthKeepsHistory(s: Session, q: Queue, added: Submission, base: int)
    requires Drained(s) && Continues(s, base) && Tracked(s, base) && Told(s, base) && Announced(s)
    requires q.next == s.queue.next + 1 && q.acknowledged == s.queue.acknowledged
    ensures var t := s.(queue := q, log := s.log + [added], committing := s.committing + 1);
            Drained(t) && Continues(t, base) && Tracked(t, base) && Told(t, base) && Announced(t)
  {
    FaithfulGrows(s.history, s.log, [added]);
  }

  lemma SubmitPreserves(s: Session, frame: seq<byte>, expiresAt: int, now: int, base: int)
    requires Invariant(s, base)
    ensures Invariant(SubmitStep(s, frame, expiresAt, now), base)
  {
    if ValidFrame(frame) && expiresAt > now && Append(s.queue, frame, expiresAt, now).Ok? {
      SubmitKeepsStore(s, frame, expiresAt, now);
      GrowthKeepsHistory(s, Append(s.queue, frame, expiresAt, now).value.0, Submission(frame, expiresAt), base);
    }
  }

  lemma AcknowledgePreserves(s: Session, cursor: int, base: int)
    requires Invariant(s, base)
    ensures Invariant(AcknowledgeStep(s, cursor), base)
  {
    if !s.writer.Stopped? && 0 < cursor <= MAX_INT64 && DeliveryQueue.Acknowledge(s.queue, cursor).Ok? {
      AcknowledgeInv(s.queue, cursor);
      AcknowledgeRefines(s.queue, cursor, s.log);
    }
  }

  lemma GenuineCopied(b: Batch, log: seq<Submission>, now: int)
    requires forall d | d in b.deliveries :: Genuine(d, log, now)
    ensures forall d | d in b.deliveries :: Copied(d, log)
  {
  }

  /** The batch of a resume that needs no reset starts right above the cursor. */
  predicate Fresh(b: Batch, cursor: int) {
    forall i | 0 <= i < |b.deliveries| :: b.deliveries[i].id == cursor + 1 + i <= b.highWater
  }

  lemma FreshFits(b: Batch, cursor: int, highWater: int, log: seq<Submission>)
    requires Fresh(b, cursor) && 0 <= cursor <= b.highWater == highWater && !b.resetRequired
    requires forall d | d in b.deliveries :: Copied(d, log)
    ensures BatchFits(b, 0, cursor, highWater, log)
  {
  }

  /** A new segment starts at its cursor, at or above everything acknowledged. */
  lemma ResumedKeepsHistory(s: Session, q: Queue, b: Batch, cursor: int, base: int)
    requires Tracked(s, base) && Told(s, base) && s.queue.acknowledged <= cursor == q.acknowledged
    requires Fresh(b, cursor) && !b.resetRequired && b.highWater == q.HighWater()
    ensures var t := s.(queue := q, cursorInitialized := true, sentCursor := cursor, writer := Draining(b, 0),
                        history := Then(s.history, Resumed(cursor)));
            Continues(t, base) && Tracked(t, base) && Told(t, base) && Announced(t) && Answered(t)
  {
  }

  lemma ResetKeepsHistory(s: Session, q: Queue, b: Batch, cursor: int, base: int)
    requires Tracked(s, base) && Told(s, base) && s.queue.acknowledged == q.acknowledged
    requires b.resetRequired && b.deliveries == [] && 0 <= b.highWater == q.HighWater()
    ensures var t := s.(queue := q, cursorInitialized := true, sentCursor := cursor, writer := Draining(b, 0));
            && Drained(t) && Continues(t, base) && Tracked(t, base) && Told(t, base) && Announced(t) && Answered(t)
  {
  }

  lemma ResumePreserves(s: Session, cursor: int, now: int, base: int)
    requires Invariant(s, base) && s.writer == Resuming(cursor)
    ensures Invariant(ResumeStep(s, cursor, now), base)
  {
    hide ValidFrame, Inv, Refines, Present;
    if cursor <= s.queue.HighWater() {
      hide Resume, Continues, Tracked, Told, Announced, Answered, BatchFits, Copied;
      ResumeExact(s.queue, cursor, now, DELIVERY_BATCH_SIZE);
      ResumeInv(s.queue, cursor, now, DELIVERY_BATCH_SIZE);
      ResumeGenuine(s.queue, cursor, now, DELIVERY_BATCH_SIZE, s.log);
      var (q, b) := Resume(s.queue, cursor, now, DELIVERY_BATCH_SIZE).value;
      GenuineCopied(b, s.log, now);
      if b.resetRequired {
        ResetKeepsHistory(s, q, b, cursor, base);
      } else {
        FreshFits(b, cursor, q.HighWater(), s.log);
        ResumedKeepsHistory(s, q, b, cursor, base);
      }
    }
  }

  lemma ReadPreserves(s: Session, now: int, base: int)
    requires Invariant(s, base) && s.writer.Reading?
    ensures Invariant(ReadStep(s, s.writer.draining, now), base)
  {
    hide ValidFrame, Read, Inv, Refines, LostAbove, Legal, Faithful, Gapless, LastWord;
    assert Inv(s.queue) && Refines(s.queue, s.log);
    ReadExact(s.queue, s.sentCursor, now, DELIVERY_BATCH_SIZE);
    ReadInv(s.queue, s.sentCursor, now, DELIVERY_BATCH_SIZE);
    ReadGenuine(s.queue, s.sentCursor, now, DELIVERY_BATCH_SIZE, s.log);
    var (q, b) := Read(s.queue, s.sentCursor, now, DELIVERY_BATCH_SIZE);
    GenuineCopied(b, s.log, now);
  }

  lemma WriteResetPreserves(s: Session, base: int)
    requires Invariant(s, base) && s.writer.Draining? && s.writer.batch.resetRequired
    ensures Invariant(WriteStep(s, s.writer.batch, s.writer.written), base)
  {
  }

  lemma WriteDeliveryKeepsStore(s: Session)
    requires Stored(s) && Drained(s) && Announced(s)
    requires s.writer.Draining? && !s.writer.batch.resetRequired && s.writer.written < |s.writer.batch.deliveries|
    ensures Encodable(s.writer.batch.deliveries[s.writer.written])
    ensures var t := WriteStep(s, s.writer.batch, s.writer.written); Stored(t) && Drained(t) && Announced(t)
  {
    var d := s.writer.batch.deliveries[s.writer.written];
    assert Copied(d, s.log);
  }

  lemma WriteDeliveryKeepsHistory(s: Session, base: int)
    requires Drained(s) && Continues(s, base) && Tracked(s, base) && Told(s, base) && s.cursorInitialized
    requires s.writer.Draining? && !s.writer.batch.resetRequired && s.writer.written < |s.writer.batch.deliveries|
    ensures var b, k := s.writer.batch, s.writer.written;
            var d := b.deliveries[k];
            var t := s.(writer := Draining(b, k + 1), sentCursor := d.id,
                        history := Then(s.history, Sent(d.id, d.envelope)));
            Continues(t, base) && Tracked(t, base) && Told(t, base)
  {
    var b, k := s.writer.batch, s.writer.written;
    assert Copied(b.deliveries[k], s.log);
    assert k > 0 ==> b.deliveries[k].id == s.sentCursor + 1;
    assert s.sentCursor < b.deliveries[k].id;
  }

  lemma WriteEndKeepsHistory(s: Session, base: int)
    requires Drained(s) && Tracked(s, base) && Told(s, base) && Announced(s) && s.cursorInitialized
    requires s.writer.Draining? && !s.writer.batch.resetRequired && s.writer.written == |s.writer.batch.deliveries|
    requires EncodableCursor(s.writer.batch.highWater)
    ensures var t := WriteStep(s, s.writer.batch, s.writer.written);
            Drained(t) && Continues(t, base) && Tracked(t, base) && Told(t, base) && Announced(t) && Answered(t)
  {
  }

  lemma WriteEndPreserves(s: Session, base: int)
    requires Invariant(s, base)
    requires s.writer.Draining? && !s.writer.batch.resetRequired && s.writer.written >= |s.writer.batch.deliveries|
    ensures Invariant(WriteStep(s, s.writer.batch, s.writer.written), base)
  {
    WriteEndKeepsHistory(s, base);
  }

  lemma WritePreserves(s: Session, base: int)
    requires Invariant(s, base) && s.writer.Draining?
    ensures Invariant(WriteStep(s, s.writer.batch, s.writer.written), base)
  {
    if s.writer.batch.resetRequired {
      WriteResetPreserves(s, base);
    } else if s.writer.written < |s.writer.batch.deliveries| {
      WriteDeliveryKeepsHistory(s, base);
      WriteDeliveryKeepsStore(s);
    } else {
      WriteEndPreserves(s, base);
    }
  }

  /** The actions that only pass signals do not touch the store, and the history only notes the request taken. */
  lemma SignalPreserves(s: Session, a: Action, base: int)
    requires Invariant(s, base) && (a.Wake? || a.AskResume? || a.TakeResume? || a.TakeWake? || a.Stop?)
    ensures Invariant(Step(s, a), base)
  {
    hide ValidFrame, Inv, Refines, BatchFits;
    var n := Step(s, a);
    assert n.queue == s.queue && n.log == s.log && n.sentCursor == s.sentCursor;
    assert n.history == s.history || n.history == Then(s.history, Asked(s.resumeRequest.value));
    assert Stored(n) && Drained(n) && Continues(n, base);
    assert Tracked(n, base) && Told(n, base);
  }

  lemma StepPreserves(s: Session, a: Action, base: int)
    requires Invariant(s, base)
    ensures Invariant(Step(s, a), base)
  {
    if a.Submit? {
      SubmitPreserves(s, a.frame, a.expiresAt, a.now, base);
    } else if a.Acknowledge? {
      AcknowledgePreserves(s, a.cursor, base);
    } else if a.DoResume? {
      if s.writer.Resuming? { ResumePreserves(s, s.writer.cursor, a.now, base); }
    } else if a.DoRead? {
      if s.writer.Reading? { ReadPreserves(s, a.now, base); }
    } else if a.WriteNext? {
      if s.writer.Draining? { WritePreserves(s, base); }
    } else {
      SignalPreserves(s, a, base);
    }
  }

  lemma {:induction false} RunPreserves(s: Session, actions: seq<Action>, base: int)
    requires Invariant(s, base)
    ensures Invariant(Run(s, actions), base)
    decreases |actions|
  {
    if actions != [] {
      StepPreserves(s, actions[0], base);
      RunPreserves(Step(s, actions[0]), actions[1..], base);
    }
  }

  lemma StartInvariant(s: Session)
    requires Start(s)
    ensures Invariant(s, s.queue.acknowledged)
  {
  }

  // ------------------------------------------------------------------ main theorems

  predicate Ascending(from: int, ids: seq<int>) {
    && (forall i | 0 <= i < |ids| :: ids[i] > from)
    && (forall i, j | 0 <= i < j < |ids| :: ids[i] < ids[j])
  }

  /** The segment since the last resume, in terms of the ids that reached the client. */
  predicate SegmentSound(h: History)
    requires ResumedAt(h).Some?
  {
    var c, ids := ResumedAt(h).value, SentSince(h);
    && Ascending(c, ids)
    && Position(h) == Some(if ids == [] then c else ids[|ids| - 1])
    && (forall id | c < id <= Position(h).value && id !in ids :: AckedSince(h, id))
  }

  /** Above the resume cursor, what has been acknowledged at all was acknowledged in this segment. */
  lemma {:induction false} AckedInSegment(h: History, id: int, base: int)
    requires Legal(h, base) && ResumedAt(h).Some? && ResumedAt(h).value < id <= AckLevel(h, base)
    ensures AckedSince(h, id)
  {
    match h
    case Then(earlier, Resumed(c)) =>
    case Then(earlier, Sent(_, _)) => AckedInSegment(earlier, id, base);
    case Then(earlier, CaughtUp(_)) => AckedInSegment(earlier, id, base);
    case Then(earlier, Asked(_)) => AckedInSegment(earlier, id, base);
    case Then(earlier, Acked(c)) => if c < id { AckedInSegment(earlier, id, base); }
  }

  lemma SkippedWasAcked(earlier: History, id: int, envelope: seq<byte>, skipped: int, base: int)
    requires Legal(Then(earlier, Sent(id, envelope)), base) && ResumedAt(earlier).Some? && SegmentSound(earlier)
    requires ResumedAt(earlier).value < skipped < id && skipped !in SentSince(earlier)
    ensures AckedSince(earlier, skipped)
  {
    if skipped > Position(earlier).value { AckedInSegment(earlier, skipped, base); }
  }

  /** One more id sent keeps the segment sound. */
  lemma SentMeans(earlier: History, id: int, envelope: seq<byte>, base: int)
    requires Legal(Then(earlier, Sent(id, envelope)), base) && ResumedAt(earlier).Some? && SegmentSound(earlier)
    ensures SegmentSound(Then(earlier, Sent(id, envelope)))
  {
    var h := Then(earlier, Sent(id, envelope));
    assert SentSince(h) == SentSince(earlier) + [id];
    forall skipped | ResumedAt(h).value < skipped <= id && skipped !in SentSince(h) ensures AckedSince(h, skipped) {
      assert id in SentSince(h) && forall i | i in SentSince(earlier) :: i in SentSince(h);
      SkippedWasAcked(earlier, id, envelope, skipped, base);
    }
  }

  /** An event that is no frame of the segment keeps it sound. */
  lemma OtherMeans(earlier: History, e: Event)
    requires (e.CaughtUp? || e.Asked? || e.Acked?) && ResumedAt(earlier).Some? && SegmentSound(earlier)
    ensures SegmentSound(Then(earlier, e))
  {
    hide Ascending;
    var h := Then(earlier, e);
    assert ResumedAt(h) == ResumedAt(earlier) && SentSince(h) == SentSince(earlier) && Position(h) == Position(earlier);
    assert forall id | AckedSince(earlier, id) :: AckedSince(h, id);
  }

  lemma {:induction false} LegalMeans(h: History, base: int)
    requires Legal(h, base) && ResumedAt(h).Some?
    ensures SegmentSound(h)
  {
    if !h.event.Resumed? {
      hide SegmentSound;
      LegalMeans(h.earlier, base);
      if h.event.Sent? {
        SentMeans(h.earlier, h.event.id, h.event.envelope, base);
      } else {
        OtherMeans(h.earlier, h.event);
      }
    }
  }

  lemma {:induction false} GaplessMeans(h: History, base: int)
    requires Legal(h, base) && Gapless(h) && ResumedAt(h).Some?
    ensures var c, ids := ResumedAt(h).value, SentSince(h);
            && Position(h) == Some(c + |ids|)
            && (forall i | 0 <= i < |ids| :: ids[i] == c + 1 + i)
  {
    match h
    case Then(earlier, Resumed(c)) =>
    case Then(earlier, Sent(id, _)) =>
      LegalMeans(earlier, base);
      GaplessMeans(earlier, base);
    case Then(earlier, CaughtUp(_)) => GaplessMeans(earlier, base);
    case Then(earlier, Asked(_)) => GaplessMeans(earlier, base);
    case Then(earlier, Acked(_)) => GaplessMeans(earlier, base);
  }

  /**
   No silent gap. In every run, the ids sent since the last resume at c strictly increase
   from c, every id skipped was acknowledged by the client itself since that resume, every
   frame carries the bytes submitted under its id, and encoding a frame never fails.
   */
  lemma NoSilentGap(s: Session, actions: seq<Action>)
    requires Start(s)
    ensures var t := Run(s, actions);
            && Legal(t.history, s.queue.acknowledged)
            && Faithful(t.history, t.log)
            && t.writer != Stopped(EncodingFailed)
            && (ResumedAt(t.history).Some? ==> SegmentSound(t.history))
  {
    RunPreserves(s, actions, s.queue.acknowledged);
    var t := Run(s, actions);
    if ResumedAt(t.history).Some? { LegalMeans(t.history, s.queue.acknowledged); }
  }

  /**
   For a client that never acknowledges past what it was sent, the ids are exactly
   c+1, c+2, ... and the "unreported gap" error cannot occur.
   */
  lemma DisciplinedIsGapless(s: Session, actions: seq<Action>)
    requires Start(s) && Disciplined(Run(s, actions).history)
    ensures var t := Run(s, actions);
            && t.writer != Stopped(UnreportedGap)
            && (ResumedAt(t.history).Some? ==>
                  var c, ids := ResumedAt(t.history).value, SentSince(t.history);
                  forall i | 0 <= i < |ids| :: ids[i] == c + 1 + i)
  {
    RunPreserves(s, actions, s.queue.acknowledged);
    var t := Run(s, actions);
    if ResumedAt(t.history).Some? { GaplessMeans(t.history, s.queue.acknowledged); }
  }

  lemma {:induction false} LegalBefore(h: History, whole: History, base: int)
    requires Legal(whole, base) && Continued(h, whole)
    ensures Legal(h, base)
  {
    if h != whole { LegalBefore(h, whole.earlier, base); }
  }

  lemma {:induction false} PositionIsResumed(h: History, base: int)
    requires Legal(h, base) && Position(h).Some?
    ensures ResumedAt(h).Some?
  {
    match h
    case Then(earlier, Resumed(_)) =>
    case Then(earlier, Sent(_, _)) => PositionIsResumed(earlier, base);
    case Then(earlier, CaughtUp(_)) => PositionIsResumed(earlier, base);
    case Then(earlier, Asked(_)) => PositionIsResumed(earlier, base);
    case Then(earlier, Acked(_)) => PositionIsResumed(earlier, base);
  }

  /** In every run each caught-up marker names exactly the last id sent before it, or the resume cursor. */
  lemma CaughtUpIsExact(s: Session, actions: seq<Action>, h: History, highWater: int)
    requires Start(s) && Continued(Then(h, CaughtUp(highWater)), Run(s, actions).history)
    ensures ResumedAt(h).Some?
    ensures highWater == if SentSince(h) == [] then ResumedAt(h).value else SentSince(h)[|SentSince(h)| - 1]
  {
    RunPreserves(s, actions, s.queue.acknowledged);
    LegalBefore(Then(h, CaughtUp(highWater)), Run(s, actions).history, s.queue.acknowledged);
    PositionIsResumed(h, s.queue.acknowledged);
    LegalMeans(h, s.queue.acknowledged);
  }

  /**
   No lost wake-up. When the writer of an open segment waits, its wake channel is empty and
   no sender is between commit and wake-up, everything the queue holds has been sent, and the
   client has been told that it is caught up there.
   */
  lemma NoLostWakeup(s: Session, actions: seq<Action>)
    requires Start(s)
    ensures var t := Run(s, actions);
            t.writer.Idle? && t.cursorInitialized && !t.durableWake && t.committing == 0 ==>
              && t.sentCursor == t.queue.HighWater() && Position(t.history) == Some(t.queue.HighWater())
              && LastWord(t.history) == Some(CaughtUp(t.queue.HighWater()))
  {
    RunPreserves(s, actions, s.queue.acknowledged);
  }

  /** In every run no resume request goes unanswered and no drained segment goes without its caught-up marker. */
  lemma AlwaysAnswered(s: Session, actions: seq<Action>)
    requires Start(s)
    ensures Answered(Run(s, actions))
  {
    RunPreserves(s, actions, s.queue.acknowledged);
  }

  // --------------------------------------------- when the gap error does occur

  /** A read inside the drain loop ends in the gap error exactly when the client ran ahead of the writer. */
  lemma GapStepIff(t: Session, now: int)
    requires Inv(t.queue) && 0 <= t.sentCursor <= t.queue.HighWater() && t.writer == Reading(true)
    ensures Step(t, DoRead(now)).writer == Stopped(UnreportedGap) <==>
            t.queue.unavailable <= t.sentCursor < t.queue.acknowledged == t.queue.HighWater()
  {
    GapIff(t.queue, t.sentCursor, now, DELIVERY_BATCH_SIZE);
  }

  lemma {:induction false} RunConcat(s: Session, first: seq<Action>, second: seq<Action>)
    ensures Run(s, first + second) == Run(Run(s, first), second)
    decreases |first|
  {
    if first != [] {
      assert (first + second)[1..] == first[1..] + second;
      RunConcat(Step(s, first[0]), first[1..], second);
    } else {
      assert first + second == second;
    }
  }

  lemma RunThree(s: Session, a: Action, b: Action, c: Action)
    ensures Run(s, [a, b, c]) == Step(Step(Step(s, a), b), c)
  {
    assert [a, b, c][1..] == [b, c] && [b, c][1..] == [c] && [c][1..] == [];
    var t := Step(Step(s, a), b);
    assert Run(t, [c]) == Run(Step(t, c), []);
    assert Run(Step(s, a), [b, c]) == Run(t, [c]);
  }

  lemma ResumeFresh(t: Session)
    requires t.queue == FRESH && t.sentCursor == 0
    ensures ResumeStep(t, 0, 0) == t.(cursorInitialized := true, writer := Draining(Batch(0, false, []), 0),
                                      history := Then(t.history, Resumed(0)))
  {
    assert Compact(FRESH, 0) == FRESH;
    assert Page([], 0, DELIVERY_BATCH_SIZE) == [];
  }

  /** Resuming an empty queue at zero hands the writer an empty batch. */
  lemma ResumeEmpty(s: Session)
    requires s.queue == FRESH && s.sentCursor == 0 && s.writer == Idle && s.resumeRequest == None
    ensures Run(s, [AskResume(0), TakeResume, DoResume(0)])
            == s.(cursorInitialized := true, writer := Draining(Batch(0, false, []), 0),
                  history := Then(Then(s.history, Asked(0)), Resumed(0)))
  {
    RunThree(s, AskResume(0), TakeResume, DoResume(0));
    ResumeFresh(s.(writer := Resuming(0), history := Then(s.history, Asked(0))));
  }

  lemma AppendFirst(frame: seq<byte>)
    requires |frame| <= MAX_QUEUED_BYTES
    ensures Append(FRESH, frame, 1, 0) == Ok((Queue([Row(1, frame, 1)], 2, 0, 0), 1))
  {
    assert Compact(FRESH, 0) == FRESH;
    var one := [Row(1, frame, 1)];
    assert one[1..] == [] && TotalBytes(one) == |frame| + TotalBytes(one[1..]);
    assert Insert(FRESH, frame, 1).rows == one;
    assert Fits(one);
  }

  lemma SubmitFirst(t: Session, frame: seq<byte>)
    requires t.queue == FRESH && ValidFrame(frame)
    ensures SubmitStep(t, frame, 1, 0)
            == t.(queue := Queue([Row(1, frame, 1)], 2, 0, 0), log := t.log + [Submission(frame, 1)],
                  committing := t.committing + 1)
  {
    assert |frame| <= EnvelopeFrame.MAX_FRAME_SIZE;
    AppendFirst(frame);
  }

  lemma AcknowledgeFirst(t: Session, frame: seq<byte>)
    requires t.queue == Queue([Row(1, frame, 1)], 2, 0, 0) && t.writer.Idle?
    ensures AcknowledgeStep(t, 1) == t.(queue := Queue([], 2, 1, 0), history := Then(t.history, Acked(1)))
  {
    var one := [Row(1, frame, 1)];
    assert After(one, 1) == After(one[1..], 1) == [];
  }

  /** The writer tells the client it is caught up at zero. */
  function CaughtUpAtZero(t: Session): Session {
    t.(writer := Idle, history := Then(t.history, CaughtUp(0)))
  }

  lemma WriteNothing(t: Session)
    requires t.writer == Draining(Batch(0, false, []), 0) && t.sentCursor == 0
    ensures Step(t, WriteNext) == CaughtUpAtZero(t)
  {
  }

  lemma StoreAndAcknowledge(t: Session, frame: seq<byte>) returns (u: Session)
    requires t.queue == FRESH && ValidFrame(frame) && t.writer.Idle?
    ensures u == Step(Step(t, Submit(frame, 1, 0)), Acknowledge(1))
    ensures u.queue == Queue([], 2, 1, 0) && u.sentCursor == t.sentCursor && u.writer == Idle
    ensures u.committing > 0 && u.cursorInitialized == t.cursorInitialized
  {
    SubmitFirst(t, frame);
    AcknowledgeFirst(SubmitStep(t, frame, 1, 0), frame);
    u := AcknowledgeStep(SubmitStep(t, frame, 1, 0), 1);
  }

  /** One delivery is stored and acknowledged while the writer still stands at zero. */
  lemma AcknowledgeUnsent(t: Session, frame: seq<byte>) returns (u: Session)
    requires t.queue == FRESH && ValidFrame(frame) && t.sentCursor == 0
    requires t.writer == Draining(Batch(0, false, []), 0)
    ensures u == Run(t, [WriteNext, Submit(frame, 1, 0), Acknowledge(1)])
    ensures u.queue == Queue([], 2, 1, 0) && u.sentCursor == 0 && u.writer == Idle
    ensures u.committing > 0 && u.cursorInitialized == t.cursorInitialized
  {
    WriteNothing(t);
    u := StoreAndAcknowledge(CaughtUpAtZero(t), frame);
    RunThree(t, WriteNext, Submit(frame, 1, 0), Acknowledge(1));
  }

  lemma ReadNothing(t: Session, draining: bool)
    requires t.queue == Queue([], 2, 1, 0) && t.sentCursor == 0
    ensures ReadStep(t, draining, 0) == t.(writer := if draining then Stopped(UnreportedGap)
                                                     else Draining(Batch(1, false, []), 0))
  {
    assert Compact(t.queue, 0) == t.queue;
    assert Page([], 0, DELIVERY_BATCH_SIZE) == [];
  }

  lemma WakeUp(u: Session) returns (v: Session)
    requires u.queue == Queue([], 2, 1, 0) && u.sentCursor == 0 && u.writer == Idle
    requires u.committing > 0 && u.cursorInitialized
    ensures v == Run(u, [Wake, TakeWake, DoRead(0)])
    ensures v.writer == Draining(Batch(1, false, []), 0) && v.queue == u.queue && v.sentCursor == 0
  {
    RunThree(u, Wake, TakeWake, DoRead(0));
    var woken := Step(Step(u, Wake), TakeWake);
    assert woken.writer == Reading(false);
    ReadNothing(woken, false);
    v := ReadStep(woken, false, 0);
  }

  lemma FindGap(v: Session)
    requires v.queue == Queue([], 2, 1, 0) && v.sentCursor == 0
    requires v.writer == Draining(Batch(1, false, []), 0)
    ensures Run(v, [WriteNext, DoRead(0), Stop]).writer == Stopped(UnreportedGap)
  {
    RunThree(v, WriteNext, DoRead(0), Stop);
    ReadNothing(v.(writer := Reading(true)), true);
  }

  /** Some envelope is well-formed: all identities and the ciphertext made of ones. */
  lemma SomeFrame() returns (frame: seq<byte>)
    ensures ValidFrame(frame)
  {
    var id16, id32: seq<byte> := seq(16, _ => 1), seq(32, _ => 1);
    assert id16[0] != 0 && id32[0] != 0;
    var header := RoutingHeader.Header(id16, id16, id16, id32, id32, id16, 1, 0, 1);
    RoutingHeader.DecodeEncoded(header);
    var key: seq<byte> := seq(65, _ => 4);
    var envelope := EnvelopeFrame.Frame(RoutingHeader.Layout(header), key, id16);
    EnvelopeFrame.DecodeEncoded(envelope);
    frame := EnvelopeFrame.Layout(envelope);
  }

  /** A client that acknowledges a delivery it was never sent can drive the writer into the gap error. */
  lemma GapIsReachable(s: Session) returns (actions: seq<Action>)
    requires Start(s) && s.queue == FRESH
    ensures Run(s, actions).writer == Stopped(UnreportedGap)
  {
    var frame := SomeFrame();
    var first := [AskResume(0), TakeResume, DoResume(0)];
    var second := [WriteNext, Submit(frame, 1, 0), Acknowledge(1)];
    var third := [Wake, TakeWake, DoRead(0)];
    var fourth := [WriteNext, DoRead(0), Stop];
    ResumeEmpty(s);
    var u := AcknowledgeUnsent(Run(s, first), frame);
    var v := WakeUp(u);
    FindGap(v);
    RunConcat(s, first, second);
    RunConcat(s, first + second, third);
    RunConcat(s, first + second + third, fourth);
    actions := first + second + third + fourth;
  }
}
