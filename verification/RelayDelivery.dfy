/** Relay Delivery v1: the client and server transport controls around envelopes. */
module RelayDelivery {
  import opened Base
  import opened Bytes
  import EnvelopeFrame

  const CONTROL_SIZE := 12
  const SUBMISSION_PREFIX_SIZE := 4

  const SUBMISSION_MAGIC: seq<byte> := [0x53, 0x4E, 0x51, 0x31] // SNQ1
  const RESUME_MAGIC: seq<byte> := [0x53, 0x4E, 0x43, 0x31]     // SNC1
  const ACK_MAGIC: seq<byte> := [0x53, 0x4E, 0x43, 0x32]        // SNC2
  const DELIVERY_MAGIC: seq<byte> := [0x53, 0x4E, 0x44, 0x31]   // SND1
  const CAUGHT_UP_MAGIC: seq<byte> := [0x53, 0x4E, 0x44, 0x32]  // SND2
  const RESET_MAGIC: seq<byte> := [0x53, 0x4E, 0x52, 0x31]      // SNR1

  type Magic = s: seq<byte> | |s| == 4 witness seq(4, _ => 0)

  datatype ClientMessage =
    | EnvelopeOnline(envelope: seq<byte>)
    | EnvelopeDurable(envelope: seq<byte>)
    | Resume(cursor: Uint64)
    | Acknowledge(cursor: Uint64)

  datatype DeliveryError =
    | BadEnvelope(cause: EnvelopeFrame.FrameError)
    | Unsupported
    | CursorOutOfRange
    | ZeroAcknowledgement
    | DeliveryIdOutOfRange

  function DecodeClientMessage(s: seq<byte>): Result<ClientMessage, DeliveryError> {
    if |s| >= EnvelopeFrame.MIN_FRAME_SIZE && s[..4] == EnvelopeFrame.MAGIC then
      match EnvelopeFrame.Decode(s)
      case Err(e) => Err(BadEnvelope(e))
      case Ok(_) => Ok(EnvelopeOnline(s))
    else if |s| >= SUBMISSION_PREFIX_SIZE + EnvelopeFrame.MIN_FRAME_SIZE && s[..4] == SUBMISSION_MAGIC then
      match EnvelopeFrame.Decode(s[SUBMISSION_PREFIX_SIZE..])
      case Err(e) => Err(BadEnvelope(e))
      case Ok(_) => Ok(EnvelopeDurable(s[SUBMISSION_PREFIX_SIZE..]))
    else if |s| != CONTROL_SIZE then Err(Unsupported)
    else
      var cursor := ReadUint64(s[4..12]);
      if cursor > MAX_INT64 then Err(CursorOutOfRange)
      else if s[..4] == RESUME_MAGIC then Ok(Resume(cursor))
      else if s[..4] == ACK_MAGIC then
        if cursor == 0 then Err(ZeroAcknowledgement) else Ok(Acknowledge(cursor))
      else Err(Unsupported)
  }

  /** What encodeControl writes: a magic and a cursor. */
  function Control(magic: Magic, cursor: Uint64, allowZero: bool): Result<seq<byte>, DeliveryError> {
    if cursor > MAX_INT64 || (!allowZero && cursor == 0) then Err(CursorOutOfRange)
    else Ok(magic + Uint64Bytes(cursor))
  }

  method EncodeControl(magic: Magic, cursor: Uint64, allowZero: bool)
    returns (r: Result<seq<byte>, DeliveryError>)
    ensures r == Control(magic, cursor, allowZero)
  {
    if cursor > MAX_INT64 || (!allowZero && cursor == 0) { return Err(CursorOutOfRange); }
    var encoded := Assemble(magic, Uint64Bytes(cursor));
    r := Ok(encoded);
  }

  function DurableSubmission(envelope: seq<byte>): Result<seq<byte>, DeliveryError> {
    match EnvelopeFrame.Decode(envelope)
    case Err(e) => Err(BadEnvelope(e))
    case Ok(_) => Ok(SUBMISSION_MAGIC + envelope)
  }

  method EncodeDurableSubmission(envelope: seq<byte>) returns (r: Result<seq<byte>, DeliveryError>)
    ensures r == DurableSubmission(envelope)
  {
    var frame := EnvelopeFrame.Decode(envelope);
    if frame.Err? { return Err(BadEnvelope(frame.error)); }
    var encoded := Assemble(SUBMISSION_MAGIC, envelope);
    r := Ok(encoded);
  }

  /** The delivery frame SND1 || id || envelope. */
  function DeliveryMessage(id: Uint64, envelope: seq<byte>): Result<seq<byte>, DeliveryError> {
    if id == 0 || id > MAX_INT64 then Err(DeliveryIdOutOfRange)
    else match EnvelopeFrame.Decode(envelope)
      case Err(e) => Err(BadEnvelope(e))
      case Ok(_) => Ok(DELIVERY_MAGIC + Uint64Bytes(id) + envelope)
  }

  method EncodeDelivery(id: Uint64, envelope: seq<byte>) returns (r: Result<seq<byte>, DeliveryError>)
    ensures r == DeliveryMessage(id, envelope)
  {
    if id == 0 || id > MAX_INT64 { return Err(DeliveryIdOutOfRange); }
    var frame := EnvelopeFrame.Decode(envelope);
    if frame.Err? { return Err(BadEnvelope(frame.error)); }
    var encoded := Assemble(DELIVERY_MAGIC, Uint64Bytes(id));
    encoded := Assemble(encoded, envelope);
    r := Ok(encoded);
  }

  /** The client-side encoder for each kind of message. */
  function EncodeClientMessage(m: ClientMessage): Result<seq<byte>, DeliveryError> {
    match m
    case EnvelopeOnline(e) =>
      (match EnvelopeFrame.Decode(e) case Err(c) => Err(BadEnvelope(c)) case Ok(_) => Ok(e))
    case EnvelopeDurable(e) => DurableSubmission(e)
    case Resume(c) => Control(RESUME_MAGIC, c, true)
    case Acknowledge(c) => Control(ACK_MAGIC, c, false)
  }

  lemma ControlOffsets(magic: Magic, cursor: Uint64)
    ensures var s := magic + Uint64Bytes(cursor);
            |s| == CONTROL_SIZE && s[..4] == magic && s[4..12] == Uint64Bytes(cursor)
  {
  }

  lemma EnvelopeShape(e: seq<byte>)
    requires EnvelopeFrame.Decode(e).Ok?
    ensures |e| >= EnvelopeFrame.MIN_FRAME_SIZE && e[..4] == EnvelopeFrame.MAGIC
  {
    assert e[..4] == e[0..4];
  }

  /** Each client encoder's output decodes to the very message encoded, so to its own kind and no other. */
  lemma DecodeEncoded(m: ClientMessage)
    requires EncodeClientMessage(m).Ok?
    ensures DecodeClientMessage(EncodeClientMessage(m).value) == Ok(m)
  {
    match m
    case EnvelopeOnline(e) => EnvelopeShape(e);
    case EnvelopeDurable(e) =>
      EnvelopeShape(e);
      var s := SUBMISSION_MAGIC + e;
      assert s[..4] == SUBMISSION_MAGIC && s[4..] == e;
      assert SUBMISSION_MAGIC[2] != EnvelopeFrame.MAGIC[2];
    case Resume(c) => ControlOffsets(RESUME_MAGIC, c);
    case Acknowledge(c) =>
      ControlOffsets(ACK_MAGIC, c);
      assert ACK_MAGIC[3] != RESUME_MAGIC[3];
  }

  /** Every accepted client byte string is the encoding of the message it decodes to. */
  lemma EncodeDecoded(s: seq<byte>)
    requires DecodeClientMessage(s).Ok?
    ensures EncodeClientMessage(DecodeClientMessage(s).value) == Ok(s)
  {
    var m := DecodeClientMessage(s).value;
    match m
    case EnvelopeOnline(_) =>
    case EnvelopeDurable(e) =>
      assert s == s[..4] + s[4..];
    case Resume(c) =>
      assert s == s[..4] + s[4..12];
    case Acknowledge(c) =>
      assert s == s[..4] + s[4..12];
  }

  /** The wire formats of the four client messages. */
  predicate Denotes(s: seq<byte>, m: ClientMessage) {
    match m
    case EnvelopeOnline(e) => s == e && EnvelopeFrame.WellFormed(e)
    case EnvelopeDurable(e) =>
      |s| >= 4 && s[..4] == [0x53, 0x4E, 0x51, 0x31] && s[4..] == e && EnvelopeFrame.WellFormed(e)
    case Resume(c) => |s| == 12 && s[..4] == [0x53, 0x4E, 0x43, 0x31] && Value(s[4..]) == c <= MAX_INT64
    case Acknowledge(c) => |s| == 12 && s[..4] == [0x53, 0x4E, 0x43, 0x32] && 1 <= Value(s[4..]) == c <= MAX_INT64
  }

  /** A client message decodes to exactly what its bytes denote, and to nothing when they denote nothing. */
  lemma DecodesIff(s: seq<byte>, m: ClientMessage)
    ensures DecodeClientMessage(s) == Ok(m) <==> Denotes(s, m)
  {
    hide EnvelopeFrame.Decode, EnvelopeFrame.WellFormed;
    EnvelopeFrame.AcceptedIff(s);
    if EnvelopeFrame.WellFormed(s) { Shape(s); }
    if |s| >= 4 {
      EnvelopeFrame.AcceptedIff(s[4..]);
      if EnvelopeFrame.WellFormed(s[4..]) { Shape(s[4..]); }
    }
    if |s| == 12 { assert s[4..] == s[4..12]; }
  }

  lemma Shape(s: seq<byte>)
    requires EnvelopeFrame.WellFormed(s)
    ensures |s| >= EnvelopeFrame.MIN_FRAME_SIZE && s[..4] == EnvelopeFrame.MAGIC
  {
  }

  /** A delivery frame is made exactly for a positive id and an accepted envelope, and holds both in place. */
  lemma DeliveryFormat(id: Uint64, envelope: seq<byte>)
    ensures DeliveryMessage(id, envelope).Ok? <==> 1 <= id <= MAX_INT64 && EnvelopeFrame.WellFormed(envelope)
    ensures DeliveryMessage(id, envelope).Ok? ==>
              var s := DeliveryMessage(id, envelope).value;
              && |s| == 12 + |envelope| && s[..4] == [0x53, 0x4E, 0x44, 0x31]
              && Value(s[4..12]) == id && s[12..] == envelope
  {
    hide EnvelopeFrame.Decode, EnvelopeFrame.WellFormed;
    EnvelopeFrame.AcceptedIff(envelope);
    var s := DELIVERY_MAGIC + Uint64Bytes(id) + envelope;
    assert s[4..12] == Uint64Bytes(id);
  }

  /** The caught-up and reset controls name their cursor, and no two kinds of server frame can be confused. */
  lemma ServerControls(cursor: Uint64)
    ensures var c, r := Control(CAUGHT_UP_MAGIC, cursor, true), Control(RESET_MAGIC, cursor, true);
            && (c.Ok? <==> cursor <= MAX_INT64) && (r.Ok? <==> cursor <= MAX_INT64)
            && (c.Ok? ==> |c.value| == 12 && c.value[..4] == [0x53, 0x4E, 0x44, 0x32] && Value(c.value[4..]) == cursor)
            && (r.Ok? ==> |r.value| == 12 && r.value[..4] == [0x53, 0x4E, 0x52, 0x31] && Value(r.value[4..]) == cursor)
  {
    ControlOffsets(CAUGHT_UP_MAGIC, cursor);
    ControlOffsets(RESET_MAGIC, cursor);
  }
}
