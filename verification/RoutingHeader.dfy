/** The fixed 160-byte Routing Header v1 codec. */
module RoutingHeader {
  import opened Base
  import opened Bytes

  const ENCODED_SIZE := 160
  const SUITE_ID := 1
  const MAX_TTL_MILLIS := 24 * 60 * 60 * 1000
  const MAX_SAFE_MILLIS := 0x1F_FFFF_FFFF_FFFF

  /** "SNH1" */
  const MAGIC: seq<byte> := [0x53, 0x4E, 0x48, 0x31]

  datatype Header = Header(
    workspaceId: Id16,
    senderDeviceId: Id16,
    recipientDeviceId: Id16,
    senderKeyId: Id32,
    recipientKeyId: Id32,
    messageId: Id16,
    sequence: Uint64,
    createdAt: Uint64,
    expiresAt: Uint64)

  datatype HeaderError =
    | BadLength | BadMagic | BadSuite | BadFlags
    | ZeroWorkspace | ZeroSender | ZeroRecipient | ZeroSenderKey | ZeroRecipientKey | ZeroMessage
    | BadSequence | BadTimestamp | ExpiryBeforeCreation | LifetimeTooLong

  /** The first structural limit a header breaks, if any. */
  function Validate(h: Header): Option<HeaderError> {
    if AllZero(h.workspaceId) then Some(ZeroWorkspace)
    else if AllZero(h.senderDeviceId) then Some(ZeroSender)
    else if AllZero(h.recipientDeviceId) then Some(ZeroRecipient)
    else if AllZero(h.senderKeyId) then Some(ZeroSenderKey)
    else if AllZero(h.recipientKeyId) then Some(ZeroRecipientKey)
    else if AllZero(h.messageId) then Some(ZeroMessage)
    else if h.sequence == 0 || h.sequence > MAX_INT64 then Some(BadSequence)
    else if h.createdAt > MAX_SAFE_MILLIS || h.expiresAt > MAX_SAFE_MILLIS then Some(BadTimestamp)
    else if h.expiresAt <= h.createdAt then Some(ExpiryBeforeCreation)
    else if h.expiresAt - h.createdAt > MAX_TTL_MILLIS then Some(LifetimeTooLong)
    else None
  }

  /** Magic, suite 1 and zero flags: the first eight bytes of every header. */
  const PREAMBLE: seq<byte> := MAGIC + [0, 1, 0, 0]

  function Identities(h: Header): (s: seq<byte>)
    ensures |s| == 128
  {
    h.workspaceId + h.senderDeviceId + h.recipientDeviceId + h.senderKeyId + h.recipientKeyId + h.messageId
  }

  function Numbers(h: Header): (s: seq<byte>)
    ensures |s| == 24
  {
    Uint64Bytes(h.sequence) + Uint64Bytes(h.createdAt) + Uint64Bytes(h.expiresAt)
  }

  /** The one canonical byte layout of a header. */
  function Layout(h: Header): (s: seq<byte>)
    ensures |s| == ENCODED_SIZE
  {
    PREAMBLE + Identities(h) + Numbers(h)
  }

  method FillIdentities(encoded: array<byte>, h: Header)
    requires encoded.Length == ENCODED_SIZE
    modifies encoded
    ensures encoded[..136] == old(encoded[..8]) + Identities(h)
  {
    Blit(encoded, 8, h.workspaceId);
    Blit(encoded, 24, h.senderDeviceId);
    Blit(encoded, 40, h.recipientDeviceId);
    Blit(encoded, 56, h.senderKeyId);
    Blit(encoded, 88, h.recipientKeyId);
    Blit(encoded, 120, h.messageId);
  }

  method FillNumbers(encoded: array<byte>, h: Header)
    requires encoded.Length == ENCODED_SIZE
    modifies encoded
    ensures encoded[..] == old(encoded[..136]) + Numbers(h)
  {
    Blit(encoded, 136, Uint64Bytes(h.sequence));
    Blit(encoded, 144, Uint64Bytes(h.createdAt));
    Blit(encoded, 152, Uint64Bytes(h.expiresAt));
    assert encoded[..] == encoded[..160];
  }

  /** Fills the fixed array in place, part by part. */
  method Encode(h: Header) returns (r: Result<seq<byte>, HeaderError>)
    ensures r == match Validate(h) case Some(e) => Err(e) case None => Ok(Layout(h))
  {
    var invalid := Validate(h);
    if invalid.Some? { return Err(invalid.value); }
    var encoded := new byte[ENCODED_SIZE](_ => 0);
    Blit(encoded, 0, MAGIC);
    Blit(encoded, 4, [0, SUITE_ID]);
    Blit(encoded, 6, [0, 0]);
    assert encoded[..8] == PREAMBLE;
    FillIdentities(encoded, h);
    FillNumbers(encoded, h);
    r := Ok(encoded[..]);
  }

  /** The fields at their fixed offsets, before validation. */
  function Fields(s: seq<byte>): Header
    requires |s| == ENCODED_SIZE
  {
    Header(s[8..24], s[24..40], s[40..56], s[56..88], s[88..120], s[120..136],
           ReadUint64(s[136..144]), ReadUint64(s[144..152]), ReadUint64(s[152..160]))
  }

  function Decode(s: seq<byte>): Result<Header, HeaderError> {
    if |s| != ENCODED_SIZE then Err(BadLength)
    else if s[0..4] != MAGIC then Err(BadMagic)
    else if s[4..6] != [0, SUITE_ID] then Err(BadSuite)
    else if s[6..8] != [0, 0] then Err(BadFlags)
    else match Validate(Fields(s))
      case Some(e) => Err(e)
      case None => Ok(Fields(s))
  }

  lemma PreambleIff(s: seq<byte>)
    requires |s| == ENCODED_SIZE
    ensures s[..8] == PREAMBLE <==> s[0..4] == MAGIC && s[4..6] == [0, SUITE_ID] && s[6..8] == [0, 0]
  {
    assert s[..8] == s[0..4] + s[4..6] + s[6..8];
    if s[..8] == PREAMBLE {
      assert s[0..4] == PREAMBLE[0..4] && s[4..6] == PREAMBLE[4..6] && s[6..8] == PREAMBLE[6..8];
    }
  }

  lemma IdentityOffsets(h: Header)
    ensures var i := Identities(h);
            && i[0..16] == h.workspaceId && i[16..32] == h.senderDeviceId && i[32..48] == h.recipientDeviceId
            && i[48..80] == h.senderKeyId && i[80..112] == h.recipientKeyId && i[112..128] == h.messageId
  {
  }

  lemma FieldsOfLayout(h: Header)
    ensures Fields(Layout(h)) == h
  {
    var s := Layout(h);
    var i, n := Identities(h), Numbers(h);
    assert s[8..136] == i && s[136..160] == n;
    IdentityOffsets(h);
    assert s[8..24] == i[0..16] && s[24..40] == i[16..32] && s[40..56] == i[32..48];
    assert s[56..88] == i[48..80] && s[88..120] == i[80..112] && s[120..136] == i[112..128];
    assert s[136..144] == n[0..8] == Uint64Bytes(h.sequence);
    assert s[144..152] == n[8..16] == Uint64Bytes(h.createdAt);
    assert s[152..160] == n[16..24] == Uint64Bytes(h.expiresAt);
  }

  lemma NumbersOfFields(s: seq<byte>)
    requires |s| == ENCODED_SIZE
    ensures Numbers(Fields(s)) == s[136..160]
  {
    assert s[136..160] == s[136..144] + s[144..152] + s[152..160];
  }

  lemma IdentitiesOfFields(s: seq<byte>)
    requires |s| == ENCODED_SIZE
    ensures Identities(Fields(s)) == s[8..136]
  {
    assert s[8..136] == s[8..24] + s[24..40] + s[40..56] + s[56..88] + s[88..120] + s[120..136];
  }

  lemma LayoutOfFields(s: seq<byte>)
    requires |s| == ENCODED_SIZE && s[..8] == PREAMBLE
    ensures Layout(Fields(s)) == s
  {
    hide Identities, Numbers, Fields;
    IdentitiesOfFields(s);
    NumbersOfFields(s);
    assert s == s[..8] + s[8..136] + s[136..160];
  }

  /** Decoding undoes encoding on every valid header. */
  lemma DecodeEncoded(h: Header)
    requires Validate(h).None?
    ensures Decode(Layout(h)) == Ok(h)
  {
    assert Layout(h)[..8] == PREAMBLE;
    PreambleIff(Layout(h));
    FieldsOfLayout(h);
  }

  /** Every accepted byte string is the layout of the valid header it decodes to. */
  lemma EncodeDecoded(s: seq<byte>)
    requires Decode(s).Ok?
    ensures Validate(Decode(s).value).None? && Layout(Decode(s).value) == s
  {
    PreambleIff(s);
    LayoutOfFields(s);
  }

  lemma ValidTimes(h: Header)
    requires Validate(h).None?
    ensures h.createdAt < h.expiresAt <= h.createdAt + MAX_TTL_MILLIS
  {
  }

  /** What acceptance says about the raw bytes a router compares before decoding. */
  lemma AcceptedHeader(s: seq<byte>)
    requires Decode(s).Ok?
    ensures |s| == ENCODED_SIZE
    ensures var h := Decode(s).value;
            h.workspaceId == s[8..24] && h.senderDeviceId == s[24..40] && Validate(h).None?
  {
  }

  /** The wire format: what each of the 160 bytes of an accepted header must be. */
  predicate WellFormed(s: seq<byte>) {
    && |s| == 160 && s[..8] == [0x53, 0x4E, 0x48, 0x31, 0, 1, 0, 0]
    && !AllZero(s[8..24]) && !AllZero(s[24..40]) && !AllZero(s[40..56])
    && !AllZero(s[56..88]) && !AllZero(s[88..120]) && !AllZero(s[120..136])
    && 1 <= Value(s[136..144]) <= MAX_INT64
    && Value(s[144..152]) < Value(s[152..160]) <= 9_007_199_254_740_991
    && Value(s[152..160]) - Value(s[144..152]) <= 86_400_000
  }

  /** Exactly the well-formed byte strings are accepted, and each field is read from its place on the wire. */
  lemma AcceptedIff(s: seq<byte>)
    ensures Decode(s).Ok? <==> WellFormed(s)
    ensures Decode(s).Ok? ==>
              var h := Decode(s).value;
              && h.workspaceId == s[8..24] && h.senderDeviceId == s[24..40] && h.recipientDeviceId == s[40..56]
              && h.senderKeyId == s[56..88] && h.recipientKeyId == s[88..120] && h.messageId == s[120..136]
              && h.sequence == Value(s[136..144]) && h.createdAt == Value(s[144..152])
              && h.expiresAt == Value(s[152..160])
  {
    if |s| == ENCODED_SIZE { PreambleIff(s); }
  }
}
