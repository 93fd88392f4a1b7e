/** The 20-byte Bluefin header: two printers and one parser. */
module Header {
  import opened Bytes

  const HEADER_SIZE: nat := 20

  datatype PacketType =
    | ClientHello
    | ServerHello
    | ClientAck
    | Data
    | Ack
    | Fin
    | FinAck

  /** Every type other than Data is header-only on the wire. */
  predicate IsControl(t: PacketType) {
    t != Data
  }

  datatype WireError =
    | TooShort             // fewer than 20 bytes handed to a packet parser
    | HeaderLength         // a header slice that is not exactly 20 bytes
    | UnknownType          // type nibble above 6: the parser panics
    | MissingPayload       // the header promises more bytes than there are
    | TrailingBytes        // fewer than 20 bytes left after the last packet

  datatype Result<+T> = Ok(value: T) | Err(error: WireError)

  type mask = x: int | 0 <= x < 128

  datatype SecurityFields = SecurityFields(encrypted: bool, mask: mask)

  datatype Header = Header(
    version: byte,
    typeField: PacketType,
    typeSpecific: u16,
    security: SecurityFields,
    src: u32,
    dst: u32,
    packetNumber: u64)

  const DEFAULT_SECURITY := SecurityFields(false, 0)

  function NewHeader(src: u32, dst: u32, t: PacketType, typeSpecific: u16, security: SecurityFields): Header {
    Header(0, t, typeSpecific, security, src, dst, 0)
  }

  function TypeCode(t: PacketType): byte {
    match t
    case ClientHello => 0
    case ServerHello => 1
    case ClientAck => 2
    case Data => 3
    case Ack => 4
    case Fin => 5
    case FinAck => 6
  }

  function TypeFromCode(code: byte): Option<PacketType> {
    match code
    case 0 => Some(ClientHello)
    case 1 => Some(ServerHello)
    case 2 => Some(ClientAck)
    case 3 => Some(Data)
    case 4 => Some(Ack)
    case 5 => Some(Fin)
    case 6 => Some(FinAck)
    case _ => None
  }

  /** `(version << 4) | type` on a u8: the four high bits of the version fall off. */
  function FirstByte(h: Header): byte {
    (h.version * 16) % 256 + TypeCode(h.typeField)
  }

  function EncodeSecurity(s: SecurityFields): byte {
    if s.encrypted then 128 + s.mask else s.mask
  }

  function DecodeSecurity(b: byte): SecurityFields {
    SecurityFields(b / 128 != 0, b % 128)
  }

  function EncodeHeader(h: Header): (b: seq<byte>)
    ensures |b| == HEADER_SIZE
  {
    [FirstByte(h)]
    + ToBe(h.typeSpecific, 2)
    + [EncodeSecurity(h.security)]
    + ToBe(h.src, 4)
    + ToBe(h.dst, 4)
    + ToBe(h.packetNumber, 8)
  }

  lemma FieldBounds(b: seq<byte>)
    requires |b| == HEADER_SIZE
    ensures FromBe(b[1..3]) < 0x1_0000
    ensures FromBe(b[4..8]) < 0x1_0000_0000
    ensures FromBe(b[8..12]) < 0x1_0000_0000
    ensures FromBe(b[12..20]) < U64_LIMIT
  {
    Pow256Values();
    ToBeFromBe(b[1..3]);
    ToBeFromBe(b[4..8]);
    ToBeFromBe(b[8..12]);
    ToBeFromBe(b[12..20]);
  }

  function DecodeHeader(b: seq<byte>): Result<Header> {
    if |b| != HEADER_SIZE then Err(HeaderLength)
    else match TypeFromCode(b[0] % 16)
      case None => Err(UnknownType)
      case Some(t) =>
        FieldBounds(b);
        Ok(Header(b[0] / 16, t, FromBe(b[1..3]), DecodeSecurity(b[3]),
                  FromBe(b[4..8]), FromBe(b[8..12]), FromBe(b[12..20])))
  }

  lemma EncodedFields(h: Header)
    ensures var b := EncodeHeader(h);
            && b[0] == FirstByte(h)
            && b[1..3] == ToBe(h.typeSpecific, 2)
            && b[3] == EncodeSecurity(h.security)
            && b[4..8] == ToBe(h.src, 4)
            && b[8..12] == ToBe(h.dst, 4)
            && b[12..20] == ToBe(h.packetNumber, 8)
  {
  }

  lemma FirstByteFields(h: Header)
    ensures FirstByte(h) / 16 == h.version % 16
    ensures FirstByte(h) % 16 == TypeCode(h.typeField)
  {
    assert (h.version * 16) % 256 == 16 * (h.version % 16);
  }

  lemma NumberFields(h: Header)
    ensures FromBe(ToBe(h.typeSpecific, 2)) == h.typeSpecific
    ensures FromBe(ToBe(h.src, 4)) == h.src
    ensures FromBe(ToBe(h.dst, 4)) == h.dst
    ensures FromBe(ToBe(h.packetNumber, 8)) == h.packetNumber
  {
    Pow256Values();
    FromBeToBe(h.typeSpecific, 2);
    FromBeToBe(h.src, 4);
    FromBeToBe(h.dst, 4);
    FromBeToBe(h.packetNumber, 8);
  }

  /** What a decoder sees of an encoded header: everything but the version's high nibble. */
  lemma DecodeOfEncode(h: Header)
    ensures DecodeHeader(EncodeHeader(h)) == Ok(h.(version := h.version % 16))
  {
    var b := EncodeHeader(h);
    EncodedFields(h);
    FirstByteFields(h);
    NumberFields(h);
    assert TypeFromCode(b[0] % 16) == Some(h.typeField);
    assert DecodeSecurity(b[3]) == h.security;
  }

  /** The header round-trips exactly when its version fits the four bits it is given. */
  lemma HeaderRoundTrip(h: Header)
    ensures DecodeHeader(EncodeHeader(h)) == Ok(h) <==> h.version < 16
  {
    DecodeOfEncode(h);
  }

  /** Version 16 comes back as version 0. */
  lemma WideVersionLost(h: Header)
    requires h.version == 16
    ensures DecodeHeader(EncodeHeader(h)) == Ok(h.(version := 0))
  {
    DecodeOfEncode(h);
  }

  lemma SingleBytes(first: byte, security: byte, h: Header)
    requires h.version == first / 16 && TypeFromCode(first % 16) == Some(h.typeField)
    requires h.security == DecodeSecurity(security)
    ensures FirstByte(h) == first && EncodeSecurity(h.security) == security && h.version < 16
  {
  }

  /** Every header the parser accepts is printed back to the very bytes it came from. */
  lemma EncodeOfDecode(b: seq<byte>)
    requires DecodeHeader(b).Ok?
    ensures EncodeHeader(DecodeHeader(b).value) == b
    ensures DecodeHeader(b).value.version < 16
  {
    var h := DecodeHeader(b).value;
    ToBeFromBe(b[1..3]);
    ToBeFromBe(b[4..8]);
    ToBeFromBe(b[8..12]);
    ToBeFromBe(b[12..20]);
    SingleBytes(b[0], b[3], h);
    assert b == [b[0]] + b[1..3] + [b[3]] + b[4..8] + b[8..12] + b[12..20];
  }

  method CopyInto(dst: array<byte>, at: nat, src: seq<byte>)
    requires at + |src| <= dst.Length
    modifies dst
    ensures dst[..] == old(dst[..at]) + src + old(dst[at + |src|..])
  {
    for i := 0 to |src|
      invariant dst[..at] == old(dst[..at])
      invariant dst[at..at + i] == src[..i]
      invariant dst[at + i..] == old(dst[at + i..])
    {
      dst[at + i] := src[i];
      assert dst[at..at + i + 1] == dst[at..at + i] + [src[i]];
    }
    assert dst[..] == dst[..at] + dst[at..at + |src|] + dst[at + |src|..];
  }

  /** The in-place printer writes the bytes of the allocating one and nothing else. */
  method SerialiseHeaderInto(h: Header, buf: array<byte>) returns (written: nat)
    requires buf.Length >= HEADER_SIZE
    modifies buf
    ensures written == HEADER_SIZE
    ensures buf[..HEADER_SIZE] == EncodeHeader(h)
    ensures buf[HEADER_SIZE..] == old(buf[HEADER_SIZE..])
  {
    ghost var tail := buf[HEADER_SIZE..];
    buf[0] := FirstByte(h);
    assert buf[HEADER_SIZE..] == tail;
    CopyInto(buf, 1, ToBe(h.typeSpecific, 2));
    assert buf[HEADER_SIZE..] == tail;
    assert buf[..3] == [FirstByte(h)] + ToBe(h.typeSpecific, 2);
    buf[3] := EncodeSecurity(h.security);
    assert buf[HEADER_SIZE..] == tail;
    assert buf[..4] == [FirstByte(h)] + ToBe(h.typeSpecific, 2) + [EncodeSecurity(h.security)];
    CopyInto(buf, 4, ToBe(h.src, 4));
    assert buf[HEADER_SIZE..] == tail;
    assert buf[..8] == [FirstByte(h)] + ToBe(h.typeSpecific, 2) + [EncodeSecurity(h.security)] + ToBe(h.src, 4);
    CopyInto(buf, 8, ToBe(h.dst, 4));
    assert buf[HEADER_SIZE..] == tail;
    CopyInto(buf, 12, ToBe(h.packetNumber, 8));
    assert buf[..12] == [FirstByte(h)] + ToBe(h.typeSpecific, 2) + [EncodeSecurity(h.security)]
                        + ToBe(h.src, 4) + ToBe(h.dst, 4);
    assert buf[..20] == buf[..12] + buf[12..20];
    written := HEADER_SIZE;
  }
}
