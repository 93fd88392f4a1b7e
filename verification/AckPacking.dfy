/** Packing queued acks into datagrams of header-only packets. */
module AckPacking {
  import opened Bytes
  import opened Header
  import opened Packet

  const MAX_DATAGRAM: nat := 15200

  datatype AckData = AckData(base: u64, count: nat)

  /** The count travels in 16 bits. */
  function AckPacket(src: u32, dst: u32, a: AckData): Packet {
    Packet(NewHeader(src, dst, Ack, a.count % 0x1_0000, DEFAULT_SECURITY).(packetNumber := a.base), [])
  }

  function AckPackets(src: u32, dst: u32, acks: seq<AckData>): (ps: seq<Packet>)
    ensures |ps| == |acks|
  {
    seq(|acks|, i requires 0 <= i < |acks| => AckPacket(src, dst, acks[i]))
  }

  /** How many acks fit behind `length` bytes. */
  function Fit(length: nat): nat {
    if length <= MAX_DATAGRAM then (MAX_DATAGRAM - length) / 20 else 0
  }

  lemma AckWireSnoc(src: u32, dst: u32, acks: seq<AckData>, a: AckData)
    ensures EncodeAll(AckPackets(src, dst, acks + [a]))
            == EncodeAll(AckPackets(src, dst, acks)) + EncodeHeader(AckPacket(src, dst, a).header)
  {
    var p := AckPacket(src, dst, a);
    assert AckPackets(src, dst, acks + [a]) == AckPackets(src, dst, acks) + [p];
    EncodeAllSnoc(AckPackets(src, dst, acks), p);
    assert EncodePacket(p) == EncodeHeader(p.header);
  }

  lemma {:induction false} AckWireLength(src: u32, dst: u32, acks: seq<AckData>)
    ensures |EncodeAll(AckPackets(src, dst, acks))| == 20 * |acks|
  {
    if acks != [] {
      AckWireLength(src, dst, acks[1..]);
      assert AckPackets(src, dst, acks)[1..] == AckPackets(src, dst, acks[1..]);
    }
  }

  method ConsumeAcksInto(queue0: seq<AckData>, src: u32, dst: u32, bytes0: seq<byte>)
    returns (queue: seq<AckData>, bytes: seq<byte>, produced: bool)
    ensures var k := Min(|queue0|, Fit(|bytes0|));
            queue == queue0[k..] && bytes == bytes0 + EncodeAll(AckPackets(src, dst, queue0[..k]))
    ensures produced <==> queue0 != [] && bytes != []
  {
    queue, bytes := queue0, bytes0;
    if queue == [] {
      return queue, bytes, false;
    }
    var header := NewHeader(src, dst, Ack, 0, DEFAULT_SECURITY);
    ghost var k := 0;
    while queue != []
      invariant 0 <= k <= |queue0| && queue == queue0[k..]
      invariant k <= Fit(|bytes0|)
      invariant bytes == bytes0 + EncodeAll(AckPackets(src, dst, queue0[..k]))
      invariant |bytes| == |bytes0| + 20 * k
      invariant header.(typeSpecific := 0, packetNumber := 0) == NewHeader(src, dst, Ack, 0, DEFAULT_SECURITY)
      decreases |queue|
    {
      if |bytes| + 20 > MAX_DATAGRAM {
        break;
      }
      var ack := queue[0];
      queue := queue[1..];
      header := header.(packetNumber := ack.base, typeSpecific := ack.count % 0x1_0000);
      AckWireSnoc(src, dst, queue0[..k], ack);
      Assoc(bytes0, EncodeAll(AckPackets(src, dst, queue0[..k])), EncodeHeader(header));
      assert queue0[..k + 1] == queue0[..k] + [ack];
      bytes := bytes + EncodeHeader(header);
      k := k + 1;
    }
    produced := bytes != [];
  }

  /** The older ack packer pops before it checks the room and puts the ack back. */
  method ConsumeAcks(queue0: seq<AckData>, src: u32, dst: u32)
    returns (queue: seq<AckData>, datagram: Option<seq<byte>>)
    ensures var k := Min(|queue0|, Fit(0));
            && queue == queue0[k..]
            && datagram == if queue0 == [] then None else Some(EncodeAll(AckPackets(src, dst, queue0[..k])))
  {
    var bytes := [];
    var header := NewHeader(src, dst, Ack, 0, DEFAULT_SECURITY);
    queue := queue0;
    ghost var k := 0;
    while queue != [] && |bytes| <= MAX_DATAGRAM
      invariant 0 <= k <= |queue0| && queue == queue0[k..]
      invariant k <= Fit(0)
      invariant bytes == EncodeAll(AckPackets(src, dst, queue0[..k]))
      invariant |bytes| == 20 * k
      invariant header.(typeSpecific := 0, packetNumber := 0) == NewHeader(src, dst, Ack, 0, DEFAULT_SECURITY)
      decreases |queue|
    {
      var data := queue[0];
      queue := queue[1..];
      header := header.(packetNumber := data.base, typeSpecific := data.count % 0x1_0000);
      if |bytes| + 20 <= MAX_DATAGRAM {
        AckWireSnoc(src, dst, queue0[..k], data);
        assert queue0[..k + 1] == queue0[..k] + [data];
        bytes := bytes + EncodeHeader(header);
        k := k + 1;
      } else {
        queue := [data] + queue;
        break;
      }
    }
    datagram := if |bytes| == 0 then None else Some(bytes);
  }

  /** The old ack packer and the new one, from the same queue. */
  method AckPackersAgree(queue: seq<AckData>, src: u32, dst: u32)
    returns (legacy: Option<seq<byte>>, current: seq<byte>, legacyRest: seq<AckData>, currentRest: seq<AckData>)
    ensures current == (match legacy case Some(d) => d case None => [])
    ensures legacy.Some? <==> queue != []
    ensures legacyRest == currentRest
  {
    legacyRest, legacy := ConsumeAcks(queue, src, dst);
    var produced;
    currentRest, current, produced := ConsumeAcksInto(queue, src, dst, []);
    if queue == [] {
      assert AckPackets(src, dst, queue[..0]) == [];
    }
  }

  lemma AcksParse(src: u32, dst: u32, acks: seq<AckData>)
    requires acks != []
    ensures Parse(EncodeAll(AckPackets(src, dst, acks))) == Ok(AckPackets(src, dst, acks))
  {
    var ps := AckPackets(src, dst, acks);
    assert AllWellFormed(ps) && !EndsInEmptyData(ps);
    ParserInvertsPrinter(EncodeAll(ps), ps);
  }

  lemma CountSurvives(src: u32, dst: u32, acks: seq<AckData>, i: nat)
    requires i < |acks|
    ensures AckPackets(src, dst, acks)[i].header.typeSpecific == acks[i].count <==> acks[i].count < 0x1_0000
  {
  }

  /** An ack datagram parses back to its acks, in order; a count survives exactly when it
      fits 16 bits. */
  lemma AckDatagramParses(src: u32, dst: u32, acks: seq<AckData>)
    requires acks != []
    ensures Parse(EncodeAll(AckPackets(src, dst, acks))) == Ok(AckPackets(src, dst, acks))
    ensures forall i :: 0 <= i < |acks| ==>
              (AckPackets(src, dst, acks)[i].header.typeSpecific == acks[i].count <==> acks[i].count < 0x1_0000)
  {
    AcksParse(src, dst, acks);
    forall i | 0 <= i < |acks|
      ensures AckPackets(src, dst, acks)[i].header.typeSpecific == acks[i].count <==> acks[i].count < 0x1_0000
    {
      CountSurvives(src, dst, acks, i);
    }
  }
}
