/** The length-prefixed Encrypted Envelope v1 transport frame. */
module EnvelopeFrame {
  import opened Base
  import opened Bytes
  import RoutingHeader

  const PREFIX_SIZE := 233
  const MIN_CIPHERTEXT_SIZE := 16
  const MAX_CIPHERTEXT_SIZE := 512 * 1024
  const MIN_FRAME_SIZE := PREFIX_SIZE + MIN_CIPHERTEXT_SIZE
  const MAX_FRAME_SIZE := PREFIX_SIZE + MAX_CIPHERTEXT_SIZE

  /** "SNE1" */
  const MAGIC: seq<byte> := [0x53, 0x4E, 0x45, 0x31]

  type HeaderBytes = s: seq<byte> | |s| == 160 witness seq(160, _ => 0)
  type PointBytes = s: seq<byte> | |s| == 65 witness seq(65, _ => 0)

  datatype Frame = Frame(routingHeader: HeaderBytes, encapsulatedKey: PointBytes, ciphertext: seq<byte>)

  datatype FrameError =
    | BadSize | BadMagic | BadCiphertextLength | LengthMismatch
    | BadHeader(cause: RoutingHeader.HeaderError) | BadPoint

  function Validate(f: Frame): Option<FrameError> {
    match RoutingHeader.Decode(f.routingHeader)
    case Err(e) => Some(BadHeader(e))
    case Ok(_) =>
      if f.encapsulatedKey[0] != 0x04 then Some(BadPoint)
      else if |f.ciphertext| < MIN_CIPHERTEXT_SIZE || |f.ciphertext| > MAX_CIPHERTEXT_SIZE then
        Some(BadCiphertextLength)
      else None
  }

  /** The canonical byte layout of a frame. */
  function Layout(f: Frame): (s: seq<byte>)
    requires |f.ciphertext| < 0x1_0000_0000
    ensures |s| == PREFIX_SIZE + |f.ciphertext|
  {
    MAGIC + f.routingHeader + f.encapsulatedKey + Uint32Bytes(|f.ciphertext|) + f.ciphertext
  }

  method Encode(f: Frame) returns (r: Result<seq<byte>, FrameError>)
    ensures r == match Validate(f) case Some(e) => Err(e) case None => Ok(Layout(f))
  {
    var invalid := Validate(f);
    if invalid.Some? { return Err(invalid.value); }
    var encoded := Assemble(MAGIC, f.routingHeader);
    encoded := Assemble(encoded, f.encapsulatedKey);
    encoded := Assemble(encoded, Uint32Bytes(|f.ciphertext|));
    encoded := Assemble(encoded, f.ciphertext);
    r := Ok(encoded);
  }

  /** The frame parts at their offsets, before validation. */
  function Parts(s: seq<byte>): Frame
    requires |s| >= PREFIX_SIZE
  {
    Frame(s[4..164], s[164..229], s[233..])
  }

  function Decode(s: seq<byte>): Result<Frame, FrameError> {
    if |s| < MIN_FRAME_SIZE || |s| > MAX_FRAME_SIZE then Err(BadSize)
    else if s[0..4] != MAGIC then Err(BadMagic)
    else
      var size := ReadUint32(s[229..233]);
      if size < MIN_CIPHERTEXT_SIZE || size > MAX_CIPHERTEXT_SIZE then Err(BadCiphertextLength)
      else if |s| != PREFIX_SIZE + size then Err(LengthMismatch)
      else match Validate(Parts(s))
        case Some(e) => Err(e)
        case None => Ok(Parts(s))
  }

  lemma LayoutOffsets(f: Frame)
    requires |f.ciphertext| < 0x1_0000_0000
    ensures var s := Layout(f);
            && s[0..4] == MAGIC && s[4..164] == f.routingHeader && s[164..229] == f.encapsulatedKey
            && s[229..233] == Uint32Bytes(|f.ciphertext|) && s[233..] == f.ciphertext
  {
  }

  lemma LayoutOfParts(s: seq<byte>)
    requires PREFIX_SIZE <= |s| <= MAX_FRAME_SIZE && s[0..4] == MAGIC
    requires ReadUint32(s[229..233]) == |s| - PREFIX_SIZE
    ensures Layout(Parts(s)) == s
  {
    assert s == s[0..4] + s[4..164] + s[164..229] + s[229..233] + s[233..];
  }

  lemma ValidSize(f: Frame)
    requires Validate(f).None?
    ensures MIN_CIPHERTEXT_SIZE <= |f.ciphertext| <= MAX_CIPHERTEXT_SIZE
  {
  }

  /** Decoding undoes encoding on every valid frame. */
  lemma DecodeEncoded(f: Frame)
    requires Validate(f).None?
    ensures Decode(Layout(f)) == Ok(f)
  {
    hide Validate, Layout;
    ValidSize(f);
    LayoutOffsets(f);
    assert Parts(Layout(f)) == f;
  }

  /** Every accepted byte string is the layout of the valid frame it decodes to. */
  lemma EncodeDecoded(s: seq<byte>)
    requires Decode(s).Ok?
    ensures Validate(Decode(s).value).None? && Layout(Decode(s).value) == s
    ensures MIN_FRAME_SIZE <= |s| <= MAX_FRAME_SIZE
  {
    LayoutOfParts(s);
  }

  /** The wire format: magic, header, uncompressed point, and the length of the ciphertext that follows. */
  predicate WellFormed(s: seq<byte>) {
    && 233 + 16 <= |s| <= 233 + 524_288 && s[..4] == [0x53, 0x4E, 0x45, 0x31]
    && RoutingHeader.WellFormed(s[4..164]) && s[164] == 4 && Value(s[229..233]) == |s| - 233
  }

  /** Exactly the well-formed byte strings are accepted, and each part is read from its place on the wire. */
  lemma AcceptedIff(s: seq<byte>)
    ensures Decode(s).Ok? <==> WellFormed(s)
    ensures Decode(s).Ok? ==> Decode(s).value == Frame(s[4..164], s[164..229], s[233..])
  {
    hide RoutingHeader.WellFormed, RoutingHeader.Decode;
    if |s| >= MIN_FRAME_SIZE {
      RoutingHeader.AcceptedIff(s[4..164]);
      assert s[..4] == s[0..4];
      assert s[164] == s[164..229][0];
    }
  }
}
