/** Packets and packet streams: what a UDP datagram carries. */
module Packet {
  import opened Bytes
  import opened Header

  datatype Packet = Packet(header: Header, payload: seq<byte>)

  function EncodePacket(p: Packet): seq<byte> {
    EncodeHeader(p.header) + p.payload
  }

  /** The bytes of a datagram made of the given packets. */
  function EncodeAll(ps: seq<Packet>): seq<byte> {
    if ps == [] then [] else EncodePacket(ps[0]) + EncodeAll(ps[1..])
  }

  lemma {:induction false} EncodeAllAppend(a: seq<Packet>, b: seq<Packet>)
    ensures EncodeAll(a + b) == EncodeAll(a) + EncodeAll(b)
  {
    if a == [] {
      assert a + b == b;
    } else {
      assert (a + b)[1..] == a[1..] + b;
      EncodeAllAppend(a[1..], b);
    }
  }

  lemma EncodeAllSnoc(a: seq<Packet>, p: Packet)
    ensures EncodeAll(a + [p]) == EncodeAll(a) + EncodePacket(p)
  {
    EncodeAllAppend(a, [p]);
    assert EncodeAll([p]) == EncodePacket(p) + EncodeAll([]);
  }

  /** The single-packet parser of the handshake path: all that follows the header is payload. */
  function Deserialise(b: seq<byte>): Result<Packet> {
    if |b| < HEADER_SIZE then Err(TooShort)
    else match DecodeHeader(b[..HEADER_SIZE])
      case Err(e) => Err(e)
      case Ok(h) => Ok(Packet(h, b[HEADER_SIZE..]))
  }

  lemma DeserialiseRoundTrip(p: Packet)
    ensures Deserialise(EncodePacket(p)) == Ok(p) <==> p.header.version < 16
  {
    assert EncodePacket(p)[..HEADER_SIZE] == EncodeHeader(p.header);
    assert EncodePacket(p)[HEADER_SIZE..] == p.payload;
    HeaderRoundTrip(p.header);
    DecodeOfEncode(p.header);
  }

  // ---- the stream parser as a function on the remaining bytes ----

  /** Number of payload bytes a header announces to the stream parser. */
  function Announced(h: Header): nat {
    if IsControl(h.typeField) then 0 else h.typeSpecific
  }

  /** The first packet of `b`, or why there is none. */
  function ParseOne(b: seq<byte>): (r: Result<Packet>)
    requires |b| >= HEADER_SIZE
    ensures r.Ok? ==> HEADER_SIZE + |r.value.payload| <= |b|
  {
    match DecodeHeader(b[..HEADER_SIZE])
    case Err(e) => Err(e)
    case Ok(h) =>
      if IsControl(h.typeField) then Ok(Packet(h, []))
      else if HEADER_SIZE >= |b| || 19 + h.typeSpecific >= |b| then Err(MissingPayload)
      else Ok(Packet(h, b[HEADER_SIZE..HEADER_SIZE + h.typeSpecific]))
  }

  function Prepend(ps: seq<Packet>, r: Result<seq<Packet>>): Result<seq<Packet>> {
    match r
    case Err(e) => Err(e)
    case Ok(rest) => Ok(ps + rest)
  }

  lemma PrependPrepend(a: seq<Packet>, b: seq<Packet>, r: Result<seq<Packet>>)
    ensures Prepend(a, Prepend(b, r)) == Prepend(a + b, r)
  {
    if r.Ok? {
      assert a + (b + r.value) == a + b + r.value;
    }
  }

  function ParseTail(b: seq<byte>): Result<seq<Packet>>
    decreases |b|
  {
    if b == [] then Ok([])
    else if |b| < HEADER_SIZE then Err(TrailingBytes)
    else match ParseOne(b)
      case Err(e) => Err(e)
      case Ok(p) => Prepend([p], ParseTail(b[HEADER_SIZE + |p.payload|..]))
  }

  function Parse(b: seq<byte>): Result<seq<Packet>> {
    if |b| < HEADER_SIZE then Err(TooShort) else ParseTail(b)
  }

  // ---- which packet lists survive the wire ----

  predicate WellFormed(p: Packet) {
    && p.header.version < 16
    && |p.payload| == Announced(p.header)
  }

  predicate AllWellFormed(ps: seq<Packet>) {
    forall i :: 0 <= i < |ps| ==> WellFormed(ps[i])
  }

  /** The bounds test of the parser rejects a data header with nothing behind it, so an
      empty data packet is readable everywhere but at the end of a datagram. */
  predicate EndsInEmptyData(ps: seq<Packet>) {
    ps != [] && ps[|ps| - 1].header.typeField == Data && ps[|ps| - 1].payload == []
  }

  lemma ParseOneOfEncoded(p: Packet, rest: seq<byte>)
    requires WellFormed(p)
    ensures ParseOne(EncodePacket(p) + rest) ==
            if p.header.typeField == Data && p.payload == [] && rest == []
            then Err(MissingPayload) else Ok(p)
  {
    var b := EncodePacket(p) + rest;
    assert b[..HEADER_SIZE] == EncodeHeader(p.header);
    HeaderRoundTrip(p.header);
    assert b[HEADER_SIZE..HEADER_SIZE + |p.payload|] == p.payload;
  }

  lemma {:induction false} ParseOfEncoded(ps: seq<Packet>)
    requires AllWellFormed(ps)
    ensures ParseTail(EncodeAll(ps)) ==
            if EndsInEmptyData(ps) then Err(MissingPayload) else Ok(ps)
  {
    if ps != [] {
      var p, rest := ps[0], EncodeAll(ps[1..]);
      ParseOfEncoded(ps[1..]);
      ParseOneOfEncoded(p, rest);
      assert EncodeAll(ps)[HEADER_SIZE + |p.payload|..] == rest;
      assert ps == [p] + ps[1..];
      if ps[1..] != [] {
        assert rest != [];
      }
    }
  }

  lemma EncodedOne(b: seq<byte>, p: Packet)
    requires |b| >= HEADER_SIZE && ParseOne(b) == Ok(p)
    ensures WellFormed(p)
    ensures EncodePacket(p) == b[..HEADER_SIZE + |p.payload|]
  {
    EncodeOfDecode(b[..HEADER_SIZE]);
  }

  lemma {:induction false} EncodedOfParse(b: seq<byte>)
    requires ParseTail(b).Ok?
    ensures var ps := ParseTail(b).value;
            && AllWellFormed(ps) && !EndsInEmptyData(ps) && EncodeAll(ps) == b
    decreases |b|
  {
    if b != [] {
      var p := ParseOne(b).value;
      var rest := b[HEADER_SIZE + |p.payload|..];
      EncodedOfParse(rest);
      EncodedOne(b, p);
      assert b == b[..HEADER_SIZE + |p.payload|] + rest;
      var ps := ParseTail(rest).value;
      assert ([p] + ps)[1..] == ps;
    }
  }

  /** Parser and printer determine each other completely: a byte string parses to `ps`
      exactly when it is the printed form of `ps` and `ps` is a non-empty list of
      well-formed packets that does not end in an empty data packet. */
  lemma ParserInvertsPrinter(b: seq<byte>, ps: seq<Packet>)
    ensures Parse(b) == Ok(ps) <==>
            && ps != [] && AllWellFormed(ps) && !EndsInEmptyData(ps)
            && b == EncodeAll(ps)
  {
    if Parse(b) == Ok(ps) {
      EncodedOfParse(b);
    }
    if ps != [] && AllWellFormed(ps) && !EndsInEmptyData(ps) && b == EncodeAll(ps) {
      ParseOfEncoded(ps);
    }
  }

  /** The parser wants at least one byte behind the header of a data packet, so an empty one
      at the end of a datagram cannot be read back. */
  lemma EmptyDataUnreadable(h: Header)
    requires h.typeField == Data && h.typeSpecific == 0
    ensures Parse(EncodePacket(Packet(h, []))) == Err(MissingPayload)
  {
  }

  // ---- the cursor loops ----

  /** Loop invariant of both parsers: `got` is the decoding of the bytes before the cursor,
      and the result depends on the rest alone. */
  ghost predicate ParsedUpTo(b: seq<byte>, cursor: nat, got: seq<Packet>)
    requires cursor <= |b|
  {
    && EncodeAll(got) == b[..cursor]
    && ParseTail(b) == Prepend(got, ParseTail(b[cursor..]))
  }

  lemma ParsedNothing(b: seq<byte>)
    ensures ParsedUpTo(b, 0, [])
  {
    assert b[0..] == b;
    var t := ParseTail(b);
    if t.Ok? {
      assert [] + t.value == t.value;
    }
  }

  lemma EncodedOneMore(b: seq<byte>, cursor: nat, got: seq<Packet>, p: Packet)
    requires cursor + HEADER_SIZE <= |b|
    requires EncodeAll(got) == b[..cursor]
    requires ParseOne(b[cursor..]) == Ok(p)
    ensures EncodeAll(got + [p]) == b[..cursor + HEADER_SIZE + |p.payload|]
  {
    EncodedOne(b[cursor..], p);
    EncodeAllSnoc(got, p);
    assert b[..cursor + HEADER_SIZE + |p.payload|] == b[..cursor] + b[cursor..][..HEADER_SIZE + |p.payload|];
  }

  lemma ParsedOneMore(b: seq<byte>, cursor: nat, got: seq<Packet>, p: Packet)
    requires cursor + HEADER_SIZE <= |b|
    requires ParsedUpTo(b, cursor, got)
    requires ParseOne(b[cursor..]) == Ok(p)
    ensures ParsedUpTo(b, cursor + HEADER_SIZE + |p.payload|, got + [p])
  {
    EncodedOneMore(b, cursor, got, p);
    assert b[cursor..][HEADER_SIZE + |p.payload|..] == b[cursor + HEADER_SIZE + |p.payload|..];
    PrependPrepend(got, [p], ParseTail(b[cursor + HEADER_SIZE + |p.payload|..]));
  }

  lemma ParseStops(b: seq<byte>, cursor: nat, got: seq<Packet>)
    requires cursor <= |b| && ParsedUpTo(b, cursor, got)
    ensures cursor + HEADER_SIZE <= |b| && ParseOne(b[cursor..]).Err? ==>
              ParseTail(b) == Err(ParseOne(b[cursor..]).error)
    ensures cursor < |b| < cursor + HEADER_SIZE ==> ParseTail(b) == Err(TrailingBytes)
    ensures cursor == |b| ==> ParseTail(b) == Ok(got)
  {
    if cursor == |b| {
      assert got + [] == got;
    }
  }

  /** The loop body that both stream parsers share: one packet at the cursor. */
  method ReadPacketAt(bytes: seq<byte>, cursor: nat) returns (r: Result<Packet>)
    requires cursor + 20 <= |bytes|
    ensures r == ParseOne(bytes[cursor..])
  {
    assert bytes[cursor..][..HEADER_SIZE] == bytes[cursor..cursor + 20];
    var header := DecodeHeader(bytes[cursor..cursor + 20]);
    if header.Err? {
      return Err(header.error);
    }
    match header.value.typeField {
      case Data =>
        var payloadLen := header.value.typeSpecific;
        if cursor + 20 >= |bytes| || cursor + 19 + payloadLen >= |bytes| {
          return Err(MissingPayload);
        }
        assert bytes[cursor..][20..20 + payloadLen] == bytes[cursor + 20..cursor + 20 + payloadLen];
        r := Ok(Packet(header.value, bytes[cursor + 20..cursor + 20 + payloadLen]));
      case _ =>
        r := Ok(Packet(header.value, []));
    }
  }

  method FromBytes(bytes: seq<byte>) returns (r: Result<seq<Packet>>)
    ensures r == Parse(bytes)
  {
    if |bytes| < HEADER_SIZE {
      return Err(TooShort);
    }
    var packets: seq<Packet> := [];
    var cursor := 0;
    ParsedNothing(bytes);
    while cursor < |bytes| && cursor + 20 <= |bytes|
      invariant 0 <= cursor <= |bytes|
      invariant ParsedUpTo(bytes, cursor, packets)
      decreases |bytes| - cursor
    {
      var packet := ReadPacketAt(bytes, cursor);
      if packet.Err? {
        ParseStops(bytes, cursor, packets);
        return Err(packet.error);
      }
      ParsedOneMore(bytes, cursor, packets, packet.value);
      packets := packets + [packet.value];
      cursor := cursor + 20 + |packet.value.payload|;
    }
    ParseStops(bytes, cursor, packets);
    if cursor != |bytes| {
      return Err(TrailingBytes);
    }
    r := Ok(packets);
  }

  /** `packets'` is `packets` and then the decoding of a prefix of `buf`. */
  ghost predicate Appends(packets: seq<Packet>, packets': seq<Packet>, buf: seq<byte>) {
    packets <= packets' && EncodeAll(packets'[|packets|..]) <= buf
  }

  /** The zero-copy parser's loop invariant: what it has appended is what it has parsed. */
  ghost predicate Progress(buf: seq<byte>, cursor: nat, packets: seq<Packet>, packets': seq<Packet>) {
    cursor <= |buf| && packets <= packets' && ParsedUpTo(buf, cursor, packets'[|packets|..])
  }

  lemma ProgressStart(buf: seq<byte>, packets: seq<Packet>)
    ensures Progress(buf, 0, packets, packets)
  {
    ParsedNothing(buf);
  }

  lemma ProgressStep(buf: seq<byte>, cursor: nat, packets: seq<Packet>, packets': seq<Packet>, p: Packet)
    requires Progress(buf, cursor, packets, packets') && cursor + 20 <= |buf|
    requires ParseOne(buf[cursor..]) == Ok(p)
    ensures Progress(buf, cursor + 20 + |p.payload|, packets, packets' + [p])
  {
    ParsedOneMore(buf, cursor, packets'[|packets|..], p);
    assert (packets' + [p])[|packets|..] == packets'[|packets|..] + [p];
  }

  lemma ProgressEnd(buf: seq<byte>, cursor: nat, packets: seq<Packet>, packets': seq<Packet>)
    requires Progress(buf, cursor, packets, packets')
    ensures Appends(packets, packets', buf)
    ensures cursor + 20 <= |buf| && ParseOne(buf[cursor..]).Err? ==> ParseTail(buf) == Err(ParseOne(buf[cursor..]).error)
    ensures cursor < |buf| < cursor + 20 ==> ParseTail(buf) == Err(TrailingBytes)
    ensures cursor == |buf| ==> ParseTail(buf).Ok? && packets' == packets + ParseTail(buf).value
  {
  }

  /** The loop of the zero-copy parser, up to the first packet that does not parse. */
  method AppendPackets(buf: seq<byte>, packets: seq<Packet>)
    returns (packets': seq<Packet>, cursor: nat, error: Option<WireError>)
    ensures Progress(buf, cursor, packets, packets')
    ensures error.None? ==> |buf| < cursor + 20
    ensures error.Some? ==> ParseTail(buf) == Err(error.value)
  {
    packets', cursor, error := packets, 0, None;
    ProgressStart(buf, packets);
    while cursor < |buf| && cursor + 20 <= |buf|
      invariant Progress(buf, cursor, packets, packets')
      decreases |buf| - cursor
    {
      var packet := ReadPacketAt(buf, cursor);
      if packet.Err? {
        ProgressEnd(buf, cursor, packets, packets');
        return packets', cursor, Some(packet.error);
      }
      ProgressStep(buf, cursor, packets, packets', packet.value);
      packets' := packets' + [packet.value];
      cursor := cursor + 20 + |packet.value.payload|;
    }
  }

  /** The zero-copy parser appends to the caller's vector. On success it appends exactly
      the parsed packets; on failure what it has appended so far stays behind, and that
      is always the decoding of a prefix of the datagram. */
  method FromBytesInto(buf: seq<byte>, packets: seq<Packet>) returns (packets': seq<Packet>, r: Result<nat>)
    ensures match Parse(buf)
            case Ok(ps) => packets' == packets + ps && r == Ok(|ps|)
            case Err(e) => r == Err(e)
    ensures Appends(packets, packets', buf)
  {
    if |buf| < HEADER_SIZE {
      ProgressStart(buf, packets);
      ProgressEnd(buf, 0, packets, packets);
      return packets, Err(TooShort);
    }
    var cursor, error;
    packets', cursor, error := AppendPackets(buf, packets);
    ProgressEnd(buf, cursor, packets, packets');
    if error.Some? {
      return packets', Err(error.value);
    }
    if cursor != |buf| {
      return packets', Err(TrailingBytes);
    }
    r := Ok(|packets'| - |packets|);
  }

  method SerialisePacketInto(p: Packet, buf: array<byte>) returns (written: nat)
    requires buf.Length >= |EncodePacket(p)|
    modifies buf
    ensures written == |EncodePacket(p)|
    ensures buf[..written] == EncodePacket(p)
    ensures buf[written..] == old(buf[written..])
  {
    var n := SerialiseHeaderInto(p.header, buf);
    ghost var mid := buf[..];
    CopyInto(buf, HEADER_SIZE, p.payload);
    written := HEADER_SIZE + |p.payload|;
    assert buf[written..] == mid[HEADER_SIZE..][|p.payload|..];
  }
}
