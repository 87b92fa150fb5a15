/** Durable routing: from a submitted frame to a stored row of the named recipient. */
module Routing {
  import opened Base
  import opened Bytes
  import opened DeliveryQueue
  import opened DeliveryStore
  import EnvelopeFrame
  import RelayDelivery
  import RoutingHeader

  datatype RouteError =
    | BadFrame(frame: EnvelopeFrame.FrameError)
    | SenderMismatch
    | BadHeader(header: RoutingHeader.HeaderError)
    | Unauthorized
    | AlreadyExpired
    | NotStored(store: QueueError)

  /** validateRoutedEnvelope: the authenticated sender must be the one the header names. */
  function ValidateRouted(sender: Peer, encoded: seq<byte>): Result<(Peer, RoutingHeader.Header), RouteError> {
    match EnvelopeFrame.Decode(encoded)
    case Err(e) => Err(BadFrame(e))
    case Ok(frame) =>
      if frame.routingHeader[8..24] != sender.workspaceId || frame.routingHeader[24..40] != sender.deviceId then
        Err(SenderMismatch)
      else match RoutingHeader.Decode(frame.routingHeader)
        case Err(e) => Err(BadHeader(e))
        case Ok(h) => Ok((Peer(h.workspaceId, h.recipientDeviceId), h))
  }

  /** The header inside a frame, when both decode. */
  function HeaderOf(encoded: seq<byte>): Option<RoutingHeader.Header> {
    match EnvelopeFrame.Decode(encoded)
    case Err(_) => None
    case Ok(frame) =>
      match RoutingHeader.Decode(frame.routingHeader) case Err(_) => None case Ok(h) => Some(h)
  }

  /** An accepted frame names its real sender, stays in the sender's workspace, and can live at most a day. */
  lemma RoutedStaysInWorkspace(sender: Peer, encoded: seq<byte>)
    requires ValidateRouted(sender, encoded).Ok?
    ensures var (recipient, h) := ValidateRouted(sender, encoded).value;
            && HeaderOf(encoded) == Some(h)
            && recipient.workspaceId == sender.workspaceId == h.workspaceId
            && recipient.deviceId == h.recipientDeviceId
            && h.senderDeviceId == sender.deviceId
            && h.createdAt < h.expiresAt <= h.createdAt + RoutingHeader.MAX_TTL_MILLIS
  {
    var (_, h) := ValidateRouted(sender, encoded).value;
    RoutingHeader.AcceptedHeader(EnvelopeFrame.Decode(encoded).value.routingHeader);
    RoutingHeader.ValidTimes(h);
  }

  /** The header starts at the fifth byte of its frame. */
  lemma InHeader(encoded: seq<byte>, low: nat, high: nat)
    requires low <= high <= 160 && |encoded| >= 164
    ensures encoded[4..164][low..high] == encoded[4 + low..4 + high]
  {
    var h := encoded[4..164];
    forall i | 0 <= i < high - low ensures h[low..high][i] == encoded[4 + low..4 + high][i] {
      assert h[low..high][i] == h[low + i] == encoded[4 + low + i];
    }
  }

  lemma HeaderInFrame(encoded: seq<byte>)
    requires EnvelopeFrame.WellFormed(encoded)
    ensures |encoded| >= 164 && EnvelopeFrame.Decode(encoded).Ok?
    ensures EnvelopeFrame.Decode(encoded).value.routingHeader == encoded[4..164]
    ensures var r := RoutingHeader.Decode(encoded[4..164]);
            && r.Ok? && r.value.workspaceId == encoded[12..28]
            && r.value.recipientDeviceId == encoded[44..60] && r.value.expiresAt == Value(encoded[156..164])
  {
    hide RoutingHeader.Decode, RoutingHeader.WellFormed, EnvelopeFrame.Decode;
    EnvelopeFrame.AcceptedIff(encoded);
    RoutingHeader.AcceptedIff(encoded[4..164]);
    InHeader(encoded, 8, 24);
    InHeader(encoded, 40, 56);
    InHeader(encoded, 152, 160);
  }

  /** The frame names this sender. */
  predicate Names(encoded: seq<byte>, sender: Peer) {
    |encoded| >= 164 && encoded[12..28] == sender.workspaceId && encoded[28..44] == sender.deviceId
  }

  /** On the wire: the frame is well-formed and names its sender; the recipient and the expiry are read from it. */
  lemma RoutedIff(sender: Peer, encoded: seq<byte>)
    ensures var r := ValidateRouted(sender, encoded);
            && (r.Ok? <==> EnvelopeFrame.WellFormed(encoded) && Names(encoded, sender))
            && (r.Ok? ==>
                  && r.value.0 == Peer(encoded[12..28], encoded[44..60])
                  && r.value.1.expiresAt == Value(encoded[156..164]))
            && (r.Err? && EnvelopeFrame.WellFormed(encoded) ==> r.error == SenderMismatch)
            && (!EnvelopeFrame.WellFormed(encoded) ==> r.Err? && r.error.BadFrame?)
  {
    hide EnvelopeFrame.WellFormed, EnvelopeFrame.Decode, RoutingHeader.Decode;
    EnvelopeFrame.AcceptedIff(encoded);
    if EnvelopeFrame.WellFormed(encoded) {
      HeaderInFrame(encoded);
      InHeader(encoded, 8, 24);
      InHeader(encoded, 24, 40);
    }
  }

  /** A frame that decodes also has a valid header, so the second header check never fails. */
  lemma HeaderCheckedTwice(sender: Peer, encoded: seq<byte>)
    ensures !(ValidateRouted(sender, encoded).Err? && ValidateRouted(sender, encoded).error.BadHeader?)
  {
  }

  /** A log entry that came through routing: the frame itself names this recipient and this expiry. */
  predicate Routed(recipient: Peer, sub: Submission) {
    match HeaderOf(sub.envelope)
    case None => false
    case Some(h) => Peer(h.workspaceId, h.recipientDeviceId) == recipient && h.expiresAt == sub.expiresAt
  }

  predicate AllRouted(logs: map<Peer, seq<Submission>>) {
    forall p | p in logs :: forall sub | sub in logs[p] :: Routed(p, sub)
  }

  /** Every row of a queue filled by routing encodes as a delivery frame that still decodes to itself. */
  lemma StoredRowEncodes(recipient: Peer, q: Queue, log: seq<Submission>, row: Row)
    requires Sound(q, log) && row in q.rows && (forall sub | sub in log :: Routed(recipient, sub))
    ensures 0 < row.id <= MAX_INT64
    ensures RelayDelivery.DeliveryMessage(row.id, row.envelope).Ok?
  {
    assert Recorded(row, log);
    assert log[row.id - 1] in log;
    assert Routed(recipient, log[row.id - 1]);
  }

  lemma RoutedExtends(logs: map<Peer, seq<Submission>>, p: Peer, before: seq<Submission>, sub: Submission)
    requires AllRouted(logs) && Routed(p, sub) && before == (if p in logs then logs[p] else [])
    ensures AllRouted(logs[p := before + [sub]])
  {
  }

  lemma FrameBounds(encoded: seq<byte>)
    requires EnvelopeFrame.Decode(encoded).Ok?
    ensures 0 < |encoded| <= MAX_QUEUED_BYTES
  {
  }

  /** Stores one frame of bounded size: the row is readable under the id returned, others are untouched. */
  method Deposit(store: Store, recipient: Peer, encoded: seq<byte>, expiresMs: nat, now: Instant)
    returns (r: Result<int, QueueError>)
    requires store.Valid() && 0 < |encoded| <= MAX_QUEUED_BYTES
    modifies store`queues, store`logs
    ensures store.Valid()
    ensures r.Ok? <==>
            && now != ZERO_INSTANT && expiresMs * 1_000_000 > now
            && recipient in store.devices && old(store.QueueOf(recipient)).next < MAX_INT64
    ensures r.Err? ==> store.queues == old(store.queues) && store.logs == old(store.logs)
    ensures r.Ok? ==>
              && store.logs
              == old(store.logs)[recipient := old(store.LogOf(recipient)) + [Submission(encoded, expiresMs)]]
              && r.value == |store.LogOf(recipient)|
              && Row(r.value, encoded, expiresMs) in store.QueueOf(recipient).rows
              && (forall p | p != recipient :: store.QueueOf(p) == old(store.QueueOf(p)))
  {
    var expiresAt: Instant := expiresMs * 1_000_000;
    assert Millis(expiresAt) == expiresMs;
    r := store.AppendDelivery(recipient, encoded, expiresAt, now);
  }

  /** RouteDurable, inside an admitted operation; authorization of the recipient is an input. */
  method RouteDurable(store: Store, sender: Peer, encoded: seq<byte>, now: Instant, authorized: Peer -> bool)
    returns (r: Result<(Peer, int), RouteError>)
    requires store.Valid() && AllRouted(store.logs)
    modifies store`queues, store`logs
    ensures store.Valid() && AllRouted(store.logs)
    ensures r.Ok? <==>
            && ValidateRouted(sender, encoded).Ok?
            && var (recipient, header) := ValidateRouted(sender, encoded).value;
               && authorized(recipient)
               && now != ZERO_INSTANT && header.expiresAt * 1_000_000 > now
               && recipient in store.devices && old(store.QueueOf(recipient)).next < MAX_INT64
    ensures r.Err? ==> store.queues == old(store.queues) && store.logs == old(store.logs)
    ensures ValidateRouted(sender, encoded).Err? ==> r == Err(ValidateRouted(sender, encoded).error)
    ensures ValidateRouted(sender, encoded).Ok? ==>
              var (recipient, header) := ValidateRouted(sender, encoded).value;
              && (r == Err(Unauthorized) <==> !authorized(recipient))
              && (r == Err(AlreadyExpired) <==> authorized(recipient) && header.expiresAt * 1_000_000 <= now)
    ensures r.Ok? ==>
              var (recipient, id) := r.value;
              && ValidateRouted(sender, encoded).Ok?
              && recipient == ValidateRouted(sender, encoded).value.0
              && authorized(recipient)
              && id == |store.LogOf(recipient)|
              && Row(id, encoded, ValidateRouted(sender, encoded).value.1.expiresAt) in store.QueueOf(recipient).rows
              && (forall p | p != recipient :: store.QueueOf(p) == old(store.QueueOf(p)))
  {
    var routed := ValidateRouted(sender, encoded);
    if routed.Err? { return Err(routed.error); }
    var (recipient, header) := routed.value;
    if !authorized(recipient) { return Err(Unauthorized); }
    if header.expiresAt * 1_000_000 <= now { return Err(AlreadyExpired); }
    FrameBounds(encoded);
    assert Routed(recipient, Submission(encoded, header.expiresAt));
    RoutedExtends(store.logs, recipient, store.LogOf(recipient), Submission(encoded, header.expiresAt));
    var stored := Deposit(store, recipient, encoded, header.expiresAt, now);
    if stored.Err? { return Err(NotStored(stored.error)); }
    r := Ok((recipient, stored.value));
  }
}
