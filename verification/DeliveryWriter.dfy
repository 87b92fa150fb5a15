/**
 The writer of one connection as an object, with the channels it shares with senders and with the
 reader. Each method is one step; the ghost list of actions is the interleaving so far, so the
 object is always in a state the session machine can reach.
 */
module DeliveryWriter {
  import opened Base
  import opened Bytes
  import opened DeliveryQueue
  import opened DeliverySession
  import DeliveryStore

  lemma OneMore(s: Session, actions: seq<Action>, a: Action)
    ensures Run(s, actions + [a]) == Step(Run(s, actions), a)
  {
    RunConcat(s, actions, [a]);
    var t := Run(s, actions);
    assert Run(t, [a]) == Run(Step(t, a), []);
  }

  // ---------------------------------------------- what the steps of a run bring about

  /** The queue's high-water is the length of the log, and its acknowledged cursor is the client's doing. */
  lemma StoredMeans(s: Session, actions: seq<Action>)
    requires Start(s)
    ensures var t := Run(s, actions);
            && t.queue.HighWater() == |t.log| < MAX_INT64 && 0 <= t.sentCursor <= |t.log|
            && t.queue.acknowledged == AckLevel(t.history, s.queue.acknowledged)
  {
    RunPreserves(s, actions, s.queue.acknowledged);
  }

  /** A valid frame that has not expired is logged and stored, while ids last; any other changes nothing. */
  predicate Submitted(t: Session, n: Session, frame: seq<byte>, expiresAt: int, now: int) {
    && n.history == t.history
    && if ValidFrame(frame) && expiresAt > now && |t.log| + 1 < MAX_INT64 then
         && n.log == t.log + [Submission(frame, expiresAt)]
         && n.queue.HighWater() == |n.log| && n.committing == t.committing + 1
       else n == t
  }

  lemma SubmitMeans(s: Session, actions: seq<Action>, frame: seq<byte>, expiresAt: int, now: int)
    requires Start(s)
    ensures Submitted(Run(s, actions), SubmitStep(Run(s, actions), frame, expiresAt, now), frame, expiresAt, now)
  {
    RunPreserves(s, actions, s.queue.acknowledged);
    var t := Run(s, actions);
    if Append(t.queue, frame, expiresAt, now).Ok? { AppendInv(t.queue, frame, expiresAt, now); }
  }

  /** A resume is refused above the high-water, resets exactly when history is missing, and else opens a segment. */
  predicate ResumedOr(t: Session, n: Session, cursor: int, now: int) {
    && (n.writer.Stopped? <==> cursor > |t.log|)
    && (!n.writer.Stopped? ==>
          && n.writer.Draining? && n.writer.batch.highWater == |t.log| && n.sentCursor == cursor
          && (n.writer.batch.resetRequired <==>
                exists id :: cursor < id <= |t.log| && !Present(t.queue.rows, id, now))
          && (n.writer.batch.resetRequired ==> n.history == t.history)
          && (!n.writer.batch.resetRequired ==>
                && n.history == Then(t.history, Resumed(cursor))
                && |n.writer.batch.deliveries| == Min(|t.log| - cursor, 64)))
  }

  lemma ResumeEffect(t: Session, cursor: int, now: int)
    requires Inv(t.queue) && t.queue.HighWater() == |t.log| && 0 <= cursor
    ensures ResumedOr(t, ResumeStep(t, cursor, now), cursor, now)
  {
    if cursor <= t.queue.HighWater() { ResumeExact(t.queue, cursor, now, DELIVERY_BATCH_SIZE); }
  }

  lemma ResumeMeans(s: Session, actions: seq<Action>, cursor: int, now: int)
    requires Start(s) && Run(s, actions).writer == Resuming(cursor)
    ensures ResumedOr(Run(s, actions), ResumeStep(Run(s, actions), cursor, now), cursor, now)
  {
    assert Stored(Run(s, actions)) by { RunPreserves(s, actions, s.queue.acknowledged); }
    ResumeEffect(Run(s, actions), cursor, now);
  }

  /** A read resets exactly when history above the sent cursor was lost; else its batch runs to the high-water. */
  predicate ReadOr(t: Session, n: Session, now: int) {
    && (n.writer == Stopped(UnreportedGap) ==> !Disciplined(n.history))
    && (n.writer == Stopped(UnreportedGap) <==>
          t.writer == Reading(true) && t.queue.unavailable <= t.sentCursor < t.queue.acknowledged == |t.log|)
    && (n.writer != Stopped(UnreportedGap) ==>
          && n.writer.Draining? && n.writer.batch.highWater == |t.log|
          && (n.writer.batch.resetRequired <==> LostAbove(t.queue, t.sentCursor, now))
          && (!n.writer.batch.resetRequired ==>
                |n.writer.batch.deliveries|
                == Min(|t.log| - Max(t.sentCursor, t.queue.acknowledged), 64)))
  }

  lemma ReadEffect(t: Session, now: int)
    requires Inv(t.queue) && t.queue.HighWater() == |t.log| && 0 <= t.sentCursor <= |t.log| && t.writer.Reading?
    requires var n := ReadStep(t, t.writer.draining, now);
             n.writer == Stopped(UnreportedGap) ==> !Disciplined(n.history)
    ensures ReadOr(t, ReadStep(t, t.writer.draining, now), now)
  {
    ReadExact(t.queue, t.sentCursor, now, DELIVERY_BATCH_SIZE);
    GapIff(t.queue, t.sentCursor, now, DELIVERY_BATCH_SIZE);
  }

  lemma ReadMeans(s: Session, actions: seq<Action>, now: int)
    requires Start(s) && Run(s, actions).writer.Reading?
    ensures ReadOr(Run(s, actions), Step(Run(s, actions), DoRead(now)), now)
  {
    hide Read, ReadOr, Inv, Refines, ValidFrame, Disciplined;
    var t := Run(s, actions);
    assert Stored(t) by {
      StartInvariant(s);
      RunPreserves(s, actions, s.queue.acknowledged);
    }
    StoredMeans(s, actions);
    GapNeedsIndiscipline(s, actions, now);
    ReadEffect(t, now);
  }

  /** The gap error is the client's doing. */
  lemma GapNeedsIndiscipline(s: Session, actions: seq<Action>, now: int)
    requires Start(s)
    ensures var n := Step(Run(s, actions), DoRead(now));
            n.writer == Stopped(UnreportedGap) ==> !Disciplined(n.history)
  {
    hide Stored, Drained, Continues, Told, Announced, Answered;
    StartInvariant(s);
    RunPreserves(s, actions, s.queue.acknowledged);
    StepPreserves(Run(s, actions), DoRead(now), s.queue.acknowledged);
  }

  /** What a frame adds to what the client has seen. */
  predicate FrameOk(t: Session, n: Session, e: Event)
    requires t.writer.Draining?
  {
    match e
    case Sent(id, envelope) =>
      && !t.writer.batch.resetRequired
      && 0 <= t.sentCursor < id == n.sentCursor <= |n.log| && n.log[id - 1].envelope == envelope
    case CaughtUp(highWater) =>
      && highWater == n.sentCursor == t.writer.batch.highWater && n.writer.Idle?
      && n.cursorInitialized == t.cursorInitialized
    case ResetSent(highWater) =>
      t.writer.batch.resetRequired && highWater == t.writer.batch.highWater && n.writer.Idle? && !n.cursorInitialized
    case _ => false
  }

  /** One frame goes out, unless the batch is used up and there is more to read. */
  predicate WroteOne(t: Session, n: Session)
    requires t.writer.Draining?
  {
    if n.history == t.history then
      && n.writer == Reading(true) && !t.writer.batch.resetRequired
      && t.writer.written == |t.writer.batch.deliveries| && t.sentCursor < t.writer.batch.highWater
    else n.history.Then? && n.history.earlier == t.history && FrameOk(t, n, n.history.event)
  }

  lemma WriteEffect(t: Session)
    requires t.writer.Draining? && t.sentCursor >= 0 && t.writer.batch.highWater <= MAX_INT64
    requires BatchFits(t.writer.batch, t.writer.written, t.sentCursor, |t.log|, t.log)
    requires forall i | 0 <= i < |t.log| :: ValidFrame(t.log[i].envelope)
    requires |t.log| <= MAX_INT64
    ensures WroteOne(t, WriteStep(t, t.writer.batch, t.writer.written))
  {
    hide ValidFrame;
    var b, k := t.writer.batch, t.writer.written;
    if !b.resetRequired && k < |b.deliveries| {
      assert Copied(b.deliveries[k], t.log);
      assert t.sentCursor < b.deliveries[k].id;
    }
  }

  lemma WriteMeans(s: Session, actions: seq<Action>)
    requires Start(s) && Run(s, actions).writer.Draining?
    ensures var t := Run(s, actions); WroteOne(t, WriteStep(t, t.writer.batch, t.writer.written))
  {
    var t := Run(s, actions);
    assert Stored(t) && Drained(t) && |t.log| <= MAX_INT64 by { RunPreserves(s, actions, s.queue.acknowledged); }
    WriteEffect(t);
  }

  /** Whatever happens next, the history stays legal and faithful and encoding does not fail. */
  lemma HistoryMeans(s: Session, actions: seq<Action>)
    requires Start(s)
    ensures var t := Run(s, actions);
            && Legal(t.history, s.queue.acknowledged) && Faithful(t.history, t.log)
            && t.writer != Stopped(EncodingFailed) && Answered(t)
  {
    RunPreserves(s, actions, s.queue.acknowledged);
  }

  class Connection {
    var queue: Queue
    var writer: Writer
    var sentCursor: int
    var cursorInitialized: bool
    var durableWake: bool
    var resumeRequest: Option<int>
    var committing: nat
    ghost var log: seq<Submission>
    ghost var history: History
    /** The session as it was registered, and every step since. */
    ghost var origin: Session
    ghost var actions: seq<Action>

    ghost function Current(): Session
      reads this
    {
      Session(queue, log, writer, sentCursor, cursorInitialized, durableWake, resumeRequest, committing, history)
    }

    ghost predicate Valid()
      reads this
    {
      Start(origin) && Current() == Run(origin, actions)
    }

    constructor (queue: Queue, ghost log: seq<Submission>, committing: nat)
      requires Inv(queue) && Refines(queue, log)
      requires forall i | 0 <= i < |log| :: ValidFrame(log[i].envelope)
      ensures Valid() && actions == [] && history == Nothing
      ensures this.queue == queue && this.log == log && this.committing == committing
    {
      this.queue, this.log, this.committing := queue, log, committing;
      writer, sentCursor, cursorInitialized := Idle, 0, false;
      durableWake, resumeRequest, history := false, None, Nothing;
      origin := Session(queue, log, Idle, 0, false, false, None, committing, Nothing);
      actions := [];
    }

    /** No wake-up is lost: a quiet connection has sent everything and said so. */
    lemma QuietIsCaughtUp()
      requires Valid()
      ensures writer.Idle? && cursorInitialized && !durableWake && committing == 0 ==>
                && sentCursor == |log| && Position(history) == Some(|log|)
                && LastWord(history) == Some(CaughtUp(|log|))
    {
      NoLostWakeup(origin, actions);
      StoredMeans(origin, actions);
    }

    /** A sender commits an envelope for this recipient; it has yet to wake the writer. */
    method Submit(frame: seq<byte>, expiresAt: int, now: int) returns (stored: bool)
      requires Valid()
      modifies this
      ensures Valid() && origin == old(origin) && actions == old(actions) + [Action.Submit(frame, expiresAt, now)]
      ensures Current() == Step(old(Current()), Action.Submit(frame, expiresAt, now))
      ensures stored <==> ValidFrame(frame) && expiresAt > now && |old(log)| + 1 < MAX_INT64
      ensures stored ==>
                && log == old(log) + [Submission(frame, expiresAt)] && queue.HighWater() == |log|
                && committing == old(committing) + 1
      ensures !stored ==> Current() == old(Current())
      ensures history == old(history)
    {
      hide ValidFrame, Start;
      SubmitMeans(origin, actions, frame, expiresAt, now);
      OneMore(origin, actions, Action.Submit(frame, expiresAt, now));
      actions := actions + [Action.Submit(frame, expiresAt, now)];
      stored := ValidFrame(frame) && expiresAt > now && Append(queue, frame, expiresAt, now).Ok?;
      if stored {
        queue := Append(queue, frame, expiresAt, now).value.0;
        log := log + [Submission(frame, expiresAt)];
        committing := committing + 1;
      }
    }

    /** The sender puts a token into the one-slot wake channel, unless one is there or the session is over. */
    method Wake()
      requires Valid() && committing > 0
      modifies this
      ensures Valid() && origin == old(origin) && actions == old(actions) + [Action.Wake]
      ensures Current() == Step(old(Current()), Action.Wake)
      ensures durableWake <==> old(durableWake) || !writer.Stopped?
      ensures committing == old(committing) - 1 && writer == old(writer)
      ensures history == old(history) && queue == old(queue) && sentCursor == old(sentCursor)
    {
      hide Start, ValidFrame;
      OneMore(origin, actions, Action.Wake);
      actions := actions + [Action.Wake];
      committing := committing - 1;
      durableWake := durableWake || !writer.Stopped?;
    }

    /** The reader hands a resume request over, if the one-slot channel is free. */
    method AskResume(cursor: int) returns (taken: bool)
      requires Valid()
      modifies this
      ensures Valid() && origin == old(origin) && actions == old(actions) + [Action.AskResume(cursor)]
      ensures Current() == Step(old(Current()), Action.AskResume(cursor))
      ensures taken <==> !old(writer).Stopped? && old(resumeRequest).None? && 0 <= cursor <= MAX_INT64
      ensures taken ==> resumeRequest == Some(cursor)
      ensures !taken ==> resumeRequest == old(resumeRequest)
      ensures history == old(history)
    {
      hide Start, ValidFrame;
      OneMore(origin, actions, Action.AskResume(cursor));
      actions := actions + [Action.AskResume(cursor)];
      taken := !writer.Stopped? && resumeRequest.None? && 0 <= cursor <= MAX_INT64;
      if taken { resumeRequest := Some(cursor); }
    }

    /** The reader records an acknowledgement; the acknowledged cursor only rises. */
    method Acknowledge(cursor: int) returns (taken: bool)
      requires Valid()
      modifies this
      ensures Valid() && origin == old(origin) && actions == old(actions) + [Action.Acknowledge(cursor)]
      ensures Current() == Step(old(Current()), Action.Acknowledge(cursor))
      ensures taken <==> !old(writer).Stopped? && 0 < cursor <= |log|
      ensures taken ==> history == Then(old(history), Acked(cursor))
      ensures taken ==> queue.acknowledged == Max(old(queue.acknowledged), cursor)
      ensures !taken ==> Current() == old(Current())
    {
      hide Start, ValidFrame;
      StoredMeans(origin, actions);
      OneMore(origin, actions, Action.Acknowledge(cursor));
      actions := actions + [Action.Acknowledge(cursor)];
      taken := !writer.Stopped? && 0 < cursor <= MAX_INT64 && DeliveryQueue.Acknowledge(queue, cursor).Ok?;
      if taken {
        queue := DeliveryQueue.Acknowledge(queue, cursor).value;
        history := Then(history, Acked(cursor));
      }
    }

    /** The resume arm of the select: the writer takes the cursor the client asked for, and the slot is free again. */
    method TakeResume()
      requires Valid() && writer.Idle? && resumeRequest.Some?
      modifies this
      ensures Valid() && origin == old(origin) && actions == old(actions) + [Action.TakeResume]
      ensures Current() == Step(old(Current()), Action.TakeResume)
      ensures writer == Resuming(old(resumeRequest.value)) && resumeRequest.None?
      ensures history == Then(old(history), Asked(old(resumeRequest.value))) && queue == old(queue)
    {
      hide Start, ValidFrame;
      OneMore(origin, actions, Action.TakeResume);
      actions := actions + [Action.TakeResume];
      writer := Resuming(resumeRequest.value);
      history := Then(history, Asked(resumeRequest.value));
      resumeRequest := None;
    }

    /** The store resume: refused above the high-water, a reset exactly when history is missing, else a new segment. */
    method DoResume(now: int)
      requires Valid() && writer.Resuming?
      modifies this
      ensures Valid() && origin == old(origin) && actions == old(actions) + [Action.DoResume(now)]
      ensures Current() == Step(old(Current()), Action.DoResume(now))
      ensures ResumedOr(old(Current()), Current(), old(writer.cursor), now)
    {
      hide Start, ResumedOr;
      ResumeMeans(origin, actions, writer.cursor, now);
      OneMore(origin, actions, Action.DoResume(now));
      actions := actions + [Action.DoResume(now)];
      var cursor := writer.cursor;
      var outcome := DeliveryStore.RunResume(queue, cursor, now, DELIVERY_BATCH_SIZE);
      match outcome
      case Err(e) => writer := Stopped(Refused(e));
      case Ok((q, batch)) =>
        queue, cursorInitialized, sentCursor, writer := q, true, cursor, Draining(batch, 0);
        if !batch.resetRequired { history := Then(history, Resumed(cursor)); }
    }

    /** The wake arm of the select: the token is spent, and with an open segment the writer goes on to read. */
    method TakeWake()
      requires Valid() && writer.Idle? && durableWake
      modifies this
      ensures Valid() && origin == old(origin) && actions == old(actions) + [Action.TakeWake]
      ensures Current() == Step(old(Current()), Action.TakeWake)
      ensures !durableWake && (writer == Reading(false) <==> cursorInitialized)
      ensures (writer.Idle? <==> !cursorInitialized)
      ensures history == old(history) && queue == old(queue)
    {
      hide Start, ValidFrame;
      OneMore(origin, actions, Action.TakeWake);
      actions := actions + [Action.TakeWake];
      durableWake := false;
      if cursorInitialized { writer := Reading(false); }
    }

    /** The store read with its gap check: the error occurs only if the client acknowledged what it was not sent. */
    method DoRead(now: int)
      requires Valid() && writer.Reading?
      modifies this
      ensures Valid() && origin == old(origin) && actions == old(actions) + [Action.DoRead(now)]
      ensures Current() == Step(old(Current()), Action.DoRead(now))
      ensures ReadOr(old(Current()), Current(), now)
      ensures history == old(history) && sentCursor == old(sentCursor)
    {
      hide Start, ValidFrame;
      ReadMeans(origin, actions, now);
      OneMore(origin, actions, Action.DoRead(now));
      actions := actions + [Action.DoRead(now)];
      var draining := writer.draining;
      var q, batch := DeliveryStore.RunRead(queue, sentCursor, now, DELIVERY_BATCH_SIZE);
      queue := q;
      if draining && |batch.deliveries| == 0 && batch.highWater > sentCursor && !batch.resetRequired {
        writer := Stopped(UnreportedGap);
      } else {
        writer := Draining(batch, 0);
      }
    }

    /** One turn of drainBatch: at most one frame goes out, and it continues what the client has seen. */
    method WriteNext()
      requires Valid() && writer.Draining?
      modifies this
      ensures Valid() && origin == old(origin) && actions == old(actions) + [Action.WriteNext]
      ensures Current() == Step(old(Current()), Action.WriteNext)
      ensures WroteOne(old(Current()), Current()) && Answered(Current())
      ensures Legal(history, origin.queue.acknowledged) && Faithful(history, log) && writer != Stopped(EncodingFailed)
    {
      hide ValidFrame, Start, Legal, Faithful, LastWord, Answered, WroteOne, Run;
      OneMore(origin, actions, Action.WriteNext);
      ghost var before := actions;
      actions := actions + [Action.WriteNext];
      var batch, written := writer.batch, writer.written;
      if batch.resetRequired {
        if EncodableCursor(batch.highWater) {
          history := Then(history, ResetSent(batch.highWater));
          writer, cursorInitialized := Idle, false;
        } else {
          writer := Stopped(EncodingFailed);
        }
      } else if written < |batch.deliveries| {
        var d := batch.deliveries[written];
        if Encodable(d) {
          history := Then(history, Sent(d.id, d.envelope));
          sentCursor := d.id;
          writer := Draining(batch, written + 1);
        } else {
          writer := Stopped(EncodingFailed);
        }
      } else if sentCursor >= batch.highWater {
        if EncodableCursor(batch.highWater) {
          history := Then(history, CaughtUp(batch.highWater));
          writer := Idle;
        } else {
          writer := Stopped(EncodingFailed);
        }
      } else {
        writer := Reading(true);
      }
      WriteMeans(origin, before);
      HistoryMeans(origin, actions);
    }

    /** The session ends; nothing more reaches the client. */
    method Stop()
      requires Valid()
      modifies this
      ensures Valid() && origin == old(origin) && actions == old(actions) + [Action.Stop]
      ensures Current() == Step(old(Current()), Action.Stop)
      ensures writer.Stopped? && history == old(history)
    {
      hide Start, ValidFrame;
      OneMore(origin, actions, Action.Stop);
      actions := actions + [Action.Stop];
      if !writer.Stopped? { writer := Stopped(Closed); }
    }
  }
}
