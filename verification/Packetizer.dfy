/** Packing queued payloads into datagrams: at most ten packets of at most 1500 payload
    bytes each. Both packers are proved against one simple specification: take the first
    15000 queued bytes, or all of them if there are fewer, and cut them every 1500 bytes. */
module Packetizer {
  import opened Bytes
  import opened Header
  import opened Packet

  const MAX_PAYLOAD: nat := 1500
  const MAX_PACKETS: nat := 10
  const MAX_DATAGRAM: nat := MAX_PACKETS * (HEADER_SIZE + MAX_PAYLOAD)
  const MAX_DATAGRAM_PAYLOAD: nat := MAX_PACKETS * MAX_PAYLOAD

  // ---- specification ----

  /** `s` cut every 1500 bytes. */
  function Chunks(s: seq<byte>): (c: seq<seq<byte>>)
    ensures forall i :: 0 <= i < |c| ==> 0 < |c[i]| <= MAX_PAYLOAD
  {
    if s == [] then []
    else
      var k := Min(MAX_PAYLOAD, |s|);
      [s[..k]] + Chunks(s[k..])
  }

  lemma {:induction false} ChunksConcat(s: seq<byte>)
    ensures Concat(Chunks(s)) == s
    ensures |Chunks(s)| == CeilDiv(|s|, 1500)
    ensures forall i :: 0 <= i < |Chunks(s)| - 1 ==> |Chunks(s)[i]| == MAX_PAYLOAD
    decreases |s|
  {
    if s != [] {
      var k := Min(MAX_PAYLOAD, |s|);
      ChunksConcat(s[k..]);
      assert Chunks(s)[1..] == Chunks(s[k..]);
      assert s == s[..k] + s[k..];
      forall i | 0 <= i < |Chunks(s)| - 1
        ensures |Chunks(s)[i]| == MAX_PAYLOAD
      {
        if i > 0 {
          assert Chunks(s)[i] == Chunks(s[k..])[i - 1];
        }
      }
    }
  }

  /** A list of chunks that a packer may have emitted: every one full but perhaps the last. */
  predicate Cut(em: seq<seq<byte>>) {
    && (forall i :: 0 <= i < |em| ==> 0 < |em[i]| <= MAX_PAYLOAD)
    && (forall i :: 0 <= i < |em| - 1 ==> |em[i]| == MAX_PAYLOAD)
  }

  predicate AllFull(em: seq<seq<byte>>) {
    forall i :: 0 <= i < |em| ==> |em[i]| == MAX_PAYLOAD
  }

  /** Cutting is unique: such a list is the chunking of its own bytes. */
  lemma {:induction false} CutIsChunks(em: seq<seq<byte>>)
    requires Cut(em)
    ensures Chunks(Concat(em)) == em
  {
    if em != [] {
      var s := Concat(em);
      CutIsChunks(em[1..]);
      if |em| == 1 {
        assert em == [em[0]] && Concat(em[1..]) == [];
      } else {
        assert em[1..][0] == em[1];
      }
      var k := Min(MAX_PAYLOAD, |s|);
      assert k == |em[0]|;
      assert s[..k] == em[0] && s[k..] == Concat(em[1..]);
    }
  }

  lemma {:induction false} FullLength(em: seq<seq<byte>>)
    requires AllFull(em)
    ensures |Concat(em)| == 1500 * |em|
  {
    if em != [] {
      FullLength(em[1..]);
    }
  }

  /** A data packet as the packers build it: the length is cast to 16 bits and the
      number is a 64-bit counter. */
  function DataPacket(src: u32, dst: u32, packetNumber: nat, payload: seq<byte>): Packet {
    Packet(DataHeader(src, dst, packetNumber, |payload|), payload)
  }

  function DataHeader(src: u32, dst: u32, packetNumber: nat, length: nat): Header {
    NewHeader(src, dst, Data, length % 0x1_0000, DEFAULT_SECURITY).(packetNumber := packetNumber % 0x1_0000_0000_0000_0000)
  }

  /** Data packets with consecutive numbers from `first`, one per chunk. */
  function DataPackets(src: u32, dst: u32, first: nat, chunks: seq<seq<byte>>): (ps: seq<Packet>)
    ensures |ps| == |chunks|
  {
    seq(|chunks|, i requires 0 <= i < |chunks| => DataPacket(src, dst, first + i, chunks[i]))
  }

  function Wire(src: u32, dst: u32, first: nat, chunks: seq<seq<byte>>): seq<byte> {
    EncodeAll(DataPackets(src, dst, first, chunks))
  }

  function Taken(queue: seq<seq<byte>>): seq<byte> {
    Concat(queue)[..Min(|Concat(queue)|, MAX_DATAGRAM_PAYLOAD)]
  }

  lemma TakenChunks(queue: seq<seq<byte>>)
    ensures |Chunks(Taken(queue))| <= MAX_PACKETS
  {
    ChunksConcat(Taken(queue));
  }

  /** The datagram a packer must produce. */
  function Datagram(src: u32, dst: u32, first: nat, queue: seq<seq<byte>>): seq<byte> {
    Wire(src, dst, first, Chunks(Taken(queue)))
  }

  // ---- what a packer has emitted so far ----

  lemma WireAppend(src: u32, dst: u32, first: nat, a: seq<seq<byte>>, mid: nat, b: seq<seq<byte>>)
    requires mid == first + |a|
    ensures Wire(src, dst, first, a + b) == Wire(src, dst, first, a) + Wire(src, dst, mid, b)
  {
    assert DataPackets(src, dst, first, a + b) == DataPackets(src, dst, first, a) + DataPackets(src, dst, mid, b);
    EncodeAllAppend(DataPackets(src, dst, first, a), DataPackets(src, dst, mid, b));
  }

  lemma WireOne(src: u32, dst: u32, first: nat, chunk: seq<byte>)
    ensures Wire(src, dst, first, [chunk]) == EncodePacket(DataPacket(src, dst, first, chunk))
  {
    var ps := DataPackets(src, dst, first, [chunk]);
    assert ps == [DataPacket(src, dst, first, chunk)];
    assert EncodeAll(ps) == EncodePacket(ps[0]) + EncodeAll([]);
  }

  /** One more packet: on the wire and in the byte count. */
  lemma EmitOne(src: u32, dst: u32, first: nat, em: seq<seq<byte>>, next: nat, chunk: seq<byte>, ans0: seq<byte>)
    requires next == first + |em|
    ensures ans0 + Wire(src, dst, first, em + [chunk])
            == ans0 + Wire(src, dst, first, em) + EncodePacket(DataPacket(src, dst, next, chunk))
    ensures Concat(em + [chunk]) == Concat(em) + chunk
  {
    ConcatSnoc(em, chunk);
    WireOne(src, dst, next, chunk);
    WireAppend(src, dst, first, em, next, [chunk]);
    Assoc(ans0, Wire(src, dst, first, em), Wire(src, dst, next, [chunk]));
  }

  lemma {:induction false} CutLength(em: seq<seq<byte>>)
    requires Cut(em)
    ensures |Concat(em)| <= 1500 * |em|
    ensures |Concat(em)| == 1500 * |em| ==> AllFull(em)
  {
    if em != [] {
      CutLength(em[1..]);
      assert em == [em[0]] + em[1..];
    }
  }

  /** What has been emitted is what the specification asks for, once either nothing is left
      or ten full packets are out. */
  lemma EmittedAll(queue: seq<seq<byte>>, em: seq<seq<byte>>, rest: seq<byte>)
    requires |em| <= MAX_PACKETS && Cut(em)
    requires Concat(em) + rest == Concat(queue)
    requires rest != [] ==> |em| == MAX_PACKETS && AllFull(em)
    ensures em == Chunks(Taken(queue))
    ensures |Concat(em)| == |Taken(queue)|
    ensures rest == Concat(queue)[|Taken(queue)|..]
  {
    CutIsChunks(em);
    CutLength(em);
    if rest != [] {
      FullLength(em);
    }
    assert Taken(queue) == Concat(em);
  }

  lemma DatagramEmpty(src: u32, dst: u32, first: nat, queue: seq<seq<byte>>)
    ensures Datagram(src, dst, first, queue) == [] <==> Concat(queue) == []
    ensures [] + Datagram(src, dst, first, queue) == Datagram(src, dst, first, queue)
  {
  }

  // ---- the packers ----

  /** Header and payload appended to the datagram without building a packet first. */
  method SerializePacketDirect(ans: seq<byte>, header: Header, payload: seq<byte>) returns (ans': seq<byte>)
    ensures ans' == ans + EncodePacket(Packet(header, payload))
  {
    ans' := ans + EncodeHeader(header);
    ans' := ans' + payload;
    assert ans' == ans + (EncodeHeader(header) + payload);
  }

  /** One emit site: as many bytes as payload limit and room allow go out as one packet. */
  method EmitChunk(src: u32, dst: u32, running: seq<byte>, remaining: nat, next: nat, ans: seq<byte>)
    returns (take: nat, running': seq<byte>, next': nat, ans': seq<byte>)
    requires remaining >= 20
    ensures take == Min(|running|, Min(MAX_PAYLOAD, remaining - 20))
    ensures running' == running[take..]
    ensures next' == next + 1
    ensures ans' == ans + EncodePacket(DataPacket(src, dst, next, running[..take]))
  {
    take := Min(|running|, Min(MAX_PAYLOAD, remaining - 20));
    var header := NewHeader(src, dst, Data, 0, DEFAULT_SECURITY);
    header := header.(packetNumber := next % 0x1_0000_0000_0000_0000, typeSpecific := take % 0x1_0000);
    ans' := SerializePacketDirect(ans, header, running[..take]);
    running' := running[take..];
    next' := next + 1;
  }

  /** The emit loop with which both packers end: packets while bytes and room remain.
      The guard only asks for 20 bytes of room; an empty packet never goes out because the
      room is a multiple of 1520 for as long as bytes are left. */
  method DrainRunning(src: u32, dst: u32, running0: seq<byte>, remaining0: nat, next0: nat, ans0: seq<byte>)
    returns (running: seq<byte>, next: nat, ans: seq<byte>, packed: nat, ghost em: seq<seq<byte>>)
    requires remaining0 % 1520 == 0
    ensures packed == Min(|running0|, 1500 * (remaining0 / 1520)) && running == running0[packed..]
    ensures ans == ans0 + Wire(src, dst, next0, Chunks(running0[..packed]))
    ensures next == next0 + |Chunks(running0[..packed])|
    ensures 1520 * |em| <= remaining0
    ensures Cut(em)
    ensures ans == ans0 + Wire(src, dst, next0, em)
    ensures Concat(em) + running == running0
    ensures running != [] ==> AllFull(em) && 1520 * |em| == remaining0
    ensures next == next0 + |em| && packed == |Concat(em)|
  {
    running, next, ans, packed, em := running0, next0, ans0, 0, [];
    var remaining: nat := remaining0;
    ghost var room := remaining0 / 1520;
    while running != [] && remaining >= 20
      invariant Cut(em) && |em| <= room
      invariant ans == ans0 + Wire(src, dst, next0, em)
      invariant Concat(em) + running == running0
      invariant running != [] ==> AllFull(em) && packed == 1500 * |em|
      invariant next == next0 + |em| && packed == |Concat(em)|
      invariant remaining + 20 * |em| + packed == remaining0
      decreases |running|
    {
      assert remaining == 1520 * (room - |em|);
      ghost var before, nextBefore := running, next;
      var take;
      take, running, next, ans := EmitChunk(src, dst, running, remaining, next, ans);
      EmitOne(src, dst, next0, em, nextBefore, before[..take], ans0);
      MoveBoundary(Concat(em), before, take);
      em := em + [before[..take]];
      remaining := remaining - (take + 20);
      packed := packed + take;
    }
    Drained(em, running, running0, room);
  }

  /** What the loop has emitted is the cut of what it has taken. */
  lemma Drained(em: seq<seq<byte>>, running: seq<byte>, running0: seq<byte>, room: nat)
    requires Cut(em) && |em| <= room && Concat(em) + running == running0
    requires running != [] ==> AllFull(em) && |em| == room
    ensures var packed := |Concat(em)|;
            && packed == Min(|running0|, 1500 * room)
            && running == running0[packed..]
            && em == Chunks(running0[..packed])
  {
    CutIsChunks(em);
    CutLength(em);
    if running != [] {
      FullLength(em);
    }
    assert running0[..|Concat(em)|] == Concat(em);
  }

  lemma FillOne(src: u32, dst: u32, first: nat, em: seq<seq<byte>>, next: nat, running: seq<byte>, take: nat, rest: seq<byte>, ans0: seq<byte>)
    requires next == first + |em| && |running| >= take == 1500 && AllFull(em)
    ensures AllFull(em + [running[..take]])
    ensures ans0 + Wire(src, dst, first, em + [running[..take]])
            == ans0 + Wire(src, dst, first, em) + EncodePacket(DataPacket(src, dst, next, running[..take]))
    ensures Concat(em) + (running + rest) == Concat(em + [running[..take]]) + (running[take..] + rest)
  {
    EmitOne(src, dst, first, em, next, running[..take], ans0);
    MoveHead(Concat(em), running, take, rest);
  }

  lemma FillMerge(running: seq<byte>, queue: seq<seq<byte>>)
    requires queue != []
    ensures running + Concat(queue) == running + queue[0] + Concat(queue[1..])
  {
  }

  /** Full packets followed by a drained tail leave exactly what the specification leaves. */
  lemma FillDrained(src: u32, dst: u32, first: nat, queue0: seq<seq<byte>>, ans0: seq<byte>,
                    em: seq<seq<byte>>, running: seq<byte>, queue: seq<seq<byte>>, remaining: int, next: nat,
                    em2: seq<seq<byte>>, running2: seq<byte>)
    requires |em| <= 10 && AllFull(em) && remaining == 1520 * (10 - |em|) && next == first + |em|
    requires Concat(em) + (running + Concat(queue)) == Concat(queue0)
    requires 1520 * |em2| <= remaining && Cut(em2)
    requires Concat(em2) + running2 == running
    requires running2 != [] ==> AllFull(em2) && 1520 * |em2| == remaining
    requires queue != [] ==> |running| >= remaining - 20
    ensures ans0 + Wire(src, dst, first, em) + Wire(src, dst, next, em2) == ans0 + Datagram(src, dst, first, queue0)
    ensures |em| + |em2| == |Chunks(Taken(queue0))|
    ensures 1500 * |em| + |Concat(em2)| == |Taken(queue0)|
    ensures running2 + Concat(queue) == Concat(queue0)[|Taken(queue0)|..]
  {
    FullLength(em);
    CutLength(em2);
    WireAppend(src, dst, first, em, next, em2);
    Assoc(ans0, Wire(src, dst, first, em), Wire(src, dst, next, em2));
    ConcatAppend(em, em2);
    Regroup(Concat(em), Concat(em2), running2, Concat(queue));
    EmittedAll(queue0, em + em2, running2 + Concat(queue));
  }

  /** How both packers end: drain what is running, put what is left of it back in front. */
  method FinishDatagram(src: u32, dst: u32, running0: seq<byte>, queue1: seq<seq<byte>>, remaining: nat, next1: nat, ans1: seq<byte>,
                        ghost first: nat, ghost queue0: seq<seq<byte>>, ghost ans0: seq<byte>, ghost em: seq<seq<byte>>)
    returns (queue: seq<seq<byte>>, next: nat, ans: seq<byte>, more: nat)
    requires |em| <= 10 && AllFull(em) && remaining == 1520 * (10 - |em|) && next1 == first + |em|
    requires ans1 == ans0 + Wire(src, dst, first, em)
    requires Concat(em) + (running0 + Concat(queue1)) == Concat(queue0)
    requires queue1 != [] ==> |running0| >= remaining - 20
    ensures ans == ans0 + Datagram(src, dst, first, queue0)
    ensures next == first + |Chunks(Taken(queue0))|
    ensures 1500 * |em| + more == |Taken(queue0)|
    ensures Concat(queue) == Concat(queue0)[|Taken(queue0)|..]
  {
    var running;
    ghost var em2;
    running, next, ans, more, em2 := DrainRunning(src, dst, running0, remaining, next1, ans1);
    FillDrained(src, dst, first, queue0, ans0, em, running0, queue1, remaining, next1, em2, running);
    queue := queue1;
    if running != [] {
      queue := [running] + queue;
    }
  }

  /** The hot-path packer. */
  method ConsumeDataInto(queue0: seq<seq<byte>>, next0: nat, src: u32, dst: u32, ans0: seq<byte>)
    returns (queue: seq<seq<byte>>, next: nat, ans: seq<byte>, packed: nat)
    ensures packed == |Taken(queue0)|
    ensures ans == ans0 + Datagram(src, dst, next0, queue0)
    ensures next == next0 + |Chunks(Taken(queue0))|
    ensures Concat(queue) == Concat(queue0)[packed..]
    ensures packed == 0 <==> Concat(queue0) == []
  {
    queue, next, ans, packed := queue0, next0, ans0, 0;
    if queue == [] {
      return;
    }
    var running := queue[0];
    queue := queue[1..];
    var remaining: nat := MAX_DATAGRAM;
    ghost var em: seq<seq<byte>>, total := [], Concat(queue0);

    while queue != [] && remaining > 20
      invariant |em| <= 10 && AllFull(em) && remaining == 1520 * (10 - |em|)
      invariant next == next0 + |em| && packed == 1500 * |em|
      invariant ans == ans0 + Wire(src, dst, next0, em)
      invariant Concat(em) + (running + Concat(queue)) == total
      decreases |queue|, remaining
    {
      if |running| >= remaining - 20 {
        var more;
        queue, next, ans, more := FinishDatagram(src, dst, running, queue, remaining, next, ans, next0, queue0, ans0, em);
        packed := packed + more;
        return;
      }

      if |running| >= MAX_PAYLOAD {
        ghost var before, nextBefore := running, next;
        var take;
        take, running, next, ans := EmitChunk(src, dst, running, remaining, next, ans);
        FillOne(src, dst, next0, em, nextBefore, before, take, Concat(queue), ans0);
        em := em + [before[..take]];
        remaining := remaining - (take + 20);
        packed := packed + take;
        continue;
      }

      var data := queue[0];
      FillMerge(running, queue);
      queue := queue[1..];
      running := running + data;
      if |running| > MAX_PAYLOAD {
        ghost var before, nextBefore := running, next;
        var take;
        take, running, next, ans := EmitChunk(src, dst, running, remaining, next, ans);
        FillOne(src, dst, next0, em, nextBefore, before, take, Concat(queue), ans0);
        em := em + [before[..take]];
        remaining := remaining - (take + 20);
        packed := packed + take;
      }
    }

    var more;
    queue, next, ans, more := FinishDatagram(src, dst, running, queue, remaining, next, ans, next0, queue0, ans0, em);
    packed := packed + more;
  }

  /** The older packer, which starts with nothing running and returns a fresh vector. */
  method ConsumeData(queue0: seq<seq<byte>>, next0: nat, src: u32, dst: u32)
    returns (queue: seq<seq<byte>>, next: nat, datagram: Option<seq<byte>>)
    ensures datagram == if Concat(queue0) == [] then None else Some(Datagram(src, dst, next0, queue0))
    ensures next == next0 + |Chunks(Taken(queue0))|
    ensures Concat(queue) == Concat(queue0)[|Taken(queue0)|..]
  {
    var ans := [];
    queue, next := queue0, next0;
    var remaining: nat := MAX_DATAGRAM;
    var running := [];
    ghost var em: seq<seq<byte>>, total := [], Concat(queue0);
    while queue != [] && remaining > 20
      invariant |em| <= 10 && AllFull(em) && remaining == 1520 * (10 - |em|) && next == next0 + |em|
      invariant ans == [] + Wire(src, dst, next0, em)
      invariant Concat(em) + (running + Concat(queue)) == total
      decreases |queue|, remaining
    {
      if |running| >= remaining - 20 {
        var more;
        queue, next, ans, more := FinishDatagram(src, dst, running, queue, remaining, next, ans, next0, queue0, [], em);
        DatagramEmpty(src, dst, next0, queue0);
        return queue, next, Some(ans);
      }

      if |running| >= MAX_PAYLOAD {
        ghost var before, nextBefore := running, next;
        var take;
        take, running, next, ans := EmitChunk(src, dst, running, remaining, next, ans);
        FillOne(src, dst, next0, em, nextBefore, before, take, Concat(queue), []);
        em := em + [before[..take]];
        remaining := remaining - (take + 20);
        continue;
      }

      var data := queue[0];
      FillMerge(running, queue);
      queue := queue[1..];
      running := running + data;
      if |running| > MAX_PAYLOAD {
        ghost var before, nextBefore := running, next;
        var take;
        take, running, next, ans := EmitChunk(src, dst, running, remaining, next, ans);
        FillOne(src, dst, next0, em, nextBefore, before, take, Concat(queue), []);
        em := em + [before[..take]];
        remaining := remaining - (take + 20);
      }
    }

    var more;
    queue, next, ans, more := FinishDatagram(src, dst, running, queue, remaining, next, ans, next0, queue0, [], em);
    DatagramEmpty(src, dst, next0, queue0);
    datagram := if ans == [] then None else Some(ans);
  }

  // ---- what the receiver makes of a datagram ----

  function Payloads(ps: seq<Packet>): seq<seq<byte>> {
    seq(|ps|, i requires 0 <= i < |ps| => ps[i].payload)
  }

  lemma PayloadsOfDataPackets(src: u32, dst: u32, first: nat, chunks: seq<seq<byte>>)
    ensures Payloads(DataPackets(src, dst, first, chunks)) == chunks
  {
  }

  lemma DataPacketsWellFormed(src: u32, dst: u32, first: nat, chunks: seq<seq<byte>>)
    requires forall i :: 0 <= i < |chunks| ==> |chunks[i]| <= MAX_PAYLOAD
    ensures AllWellFormed(DataPackets(src, dst, first, chunks))
  {
  }

  lemma {:induction false} EncodedLength(ps: seq<Packet>)
    ensures |EncodeAll(ps)| == 20 * |ps| + |Concat(Payloads(ps))|
  {
    if ps != [] {
      EncodedLength(ps[1..]);
      assert Payloads(ps)[1..] == Payloads(ps[1..]);
    }
  }

  /** The packets of a datagram, as they must come out of the parser. */
  ghost predicate ConsecutiveData(ps: seq<Packet>, src: u32, dst: u32, first: nat, s: seq<byte>) {
    && Concat(Payloads(ps)) == s
    && forall i :: 0 <= i < |ps| ==> IsDataPacket(ps[i], src, dst, first + i, i == |ps| - 1)
  }

  /** Only the last packet of a datagram may be short, and none is empty. */
  predicate IsDataPacket(p: Packet, src: u32, dst: u32, number: nat, last: bool) {
    && p.header.typeField == Data && p.header.src == src && p.header.dst == dst
    && p.header.packetNumber == number
    && 0 < |p.payload| <= MAX_PAYLOAD
    && (!last ==> |p.payload| == MAX_PAYLOAD)
  }

  lemma WireParses(src: u32, dst: u32, first: nat, chunks: seq<seq<byte>>)
    requires chunks != [] && Cut(chunks)
    ensures Parse(Wire(src, dst, first, chunks)) == Ok(DataPackets(src, dst, first, chunks))
    ensures |Wire(src, dst, first, chunks)| == 20 * |chunks| + |Concat(chunks)|
  {
    var ps := DataPackets(src, dst, first, chunks);
    DataPacketsWellFormed(src, dst, first, chunks);
    assert ps[|ps| - 1].payload == chunks[|chunks| - 1];
    ParserInvertsPrinter(EncodeAll(ps), ps);
    PayloadsOfDataPackets(src, dst, first, chunks);
    EncodedLength(ps);
  }

  lemma DataPacketAt(src: u32, dst: u32, first: nat, chunks: seq<seq<byte>>, i: nat)
    requires i < |chunks| && first + i < U64_LIMIT
    ensures var p := DataPackets(src, dst, first, chunks)[i];
            && p.header.typeField == Data && p.header.src == src && p.header.dst == dst
            && p.header.packetNumber == first + i
            && p.payload == chunks[i]
  {
  }

  lemma DataPacketsConsecutive(src: u32, dst: u32, first: nat, chunks: seq<seq<byte>>)
    requires Cut(chunks) && first + |chunks| <= U64_LIMIT
    ensures ConsecutiveData(DataPackets(src, dst, first, chunks), src, dst, first, Concat(chunks))
  {
    var ps := DataPackets(src, dst, first, chunks);
    PayloadsOfDataPackets(src, dst, first, chunks);
    forall i | 0 <= i < |ps|
      ensures IsDataPacket(ps[i], src, dst, first + i, i == |ps| - 1)
    {
      DataPacketAt(src, dst, first, chunks, i);
    }
  }

  lemma ChunksCut(s: seq<byte>)
    ensures Cut(Chunks(s)) && Concat(Chunks(s)) == s && |Chunks(s)| == CeilDiv(|s|, 1500)
  {
  }

  /** A packed datagram fits in 15200 bytes and parses back to data packets with the given
      ids and consecutive numbers ending just before the new counter, whose payloads are
      exactly the bytes taken. */
  lemma DatagramParses(src: u32, dst: u32, first: nat, queue: seq<seq<byte>>)
    requires Concat(queue) != []
    requires first + |Chunks(Taken(queue))| <= U64_LIMIT
    ensures var d, ps := Datagram(src, dst, first, queue), DataPackets(src, dst, first, Chunks(Taken(queue)));
            && |d| <= MAX_DATAGRAM
            && Parse(d) == Ok(ps)
            && ConsecutiveData(ps, src, dst, first, Taken(queue))
            && |ps| == CeilDiv(|Taken(queue)|, 1500)
  {
    var t := Taken(queue);
    assert 0 < |t| <= 15000;
    ChunksParse(src, dst, first, t);
  }

  lemma ChunksParse(src: u32, dst: u32, first: nat, t: seq<byte>)
    requires 0 < |t| <= 15000 && first + |Chunks(t)| <= U64_LIMIT
    ensures var d, ps := Wire(src, dst, first, Chunks(t)), DataPackets(src, dst, first, Chunks(t));
            && |d| <= MAX_DATAGRAM
            && Parse(d) == Ok(ps)
            && ConsecutiveData(ps, src, dst, first, t)
            && |ps| == CeilDiv(|t|, 1500)
  {
    ChunksCut(t);
    WireParses(src, dst, first, Chunks(t));
    DataPacketsConsecutive(src, dst, first, Chunks(t));
  }

  /** Sum of the announced lengths along a datagram, stopping where it is malformed. */
  function AnnouncedBytes(d: seq<byte>): nat
    decreases |d|
  {
    if |d| < 20 then 0
    else
      var n := FromBe(d[1..3]);
      if 20 + n > |d| then 0 else n + AnnouncedBytes(d[20 + n..])
  }

  method PayloadBytesInDatagram(datagram: seq<byte>) returns (total: nat)
    ensures total == AnnouncedBytes(datagram)
  {
    total := 0;
    var cursor := 0;
    assert datagram[0..] == datagram;
    while cursor + 20 <= |datagram|
      invariant cursor <= |datagram|
      invariant total + AnnouncedBytes(datagram[cursor..]) == AnnouncedBytes(datagram)
      decreases |datagram| - cursor
    {
      var payloadLen := FromBe([datagram[cursor + 1], datagram[cursor + 2]]);
      assert datagram[cursor..][1..3] == [datagram[cursor + 1], datagram[cursor + 2]];
      if cursor + 20 + payloadLen > |datagram| {
        break;
      }
      assert datagram[cursor..][20 + payloadLen..] == datagram[cursor + 20 + payloadLen..];
      total := total + payloadLen;
      cursor := cursor + 20 + payloadLen;
    }
  }

  lemma {:induction false} AnnouncedIsPayload(ps: seq<Packet>)
    requires AllWellFormed(ps)
    requires forall i :: 0 <= i < |ps| ==> ps[i].header.typeField == Data
    ensures AnnouncedBytes(EncodeAll(ps)) == |Concat(Payloads(ps))|
  {
    if ps != [] {
      var d, p := EncodeAll(ps), ps[0];
      EncodedFields(p.header);
      NumberFields(p.header);
      assert d[1..3] == EncodeHeader(p.header)[1..3];
      assert d[20 + |p.payload|..] == EncodeAll(ps[1..]);
      AnnouncedIsPayload(ps[1..]);
      assert Payloads(ps)[1..] == Payloads(ps[1..]);
    }
  }

  /** The audit walk over a packed datagram recovers the count the packer returned. */
  lemma AuditAgrees(src: u32, dst: u32, first: nat, queue: seq<seq<byte>>)
    ensures AnnouncedBytes(Datagram(src, dst, first, queue)) == |Taken(queue)|
  {
    var chunks := Chunks(Taken(queue));
    ChunksConcat(Taken(queue));
    PayloadsOfDataPackets(src, dst, first, chunks);
    DataPacketsWellFormed(src, dst, first, chunks);
    AnnouncedIsPayload(DataPackets(src, dst, first, chunks));
  }

  /** The old packer and the new one, from the same queue: same bytes, same counter, same
      bytes left. */
  method PackersAgree(queue: seq<seq<byte>>, next: nat, src: u32, dst: u32)
    returns (legacy: Option<seq<byte>>, current: seq<byte>, legacyRest: seq<seq<byte>>, currentRest: seq<seq<byte>>, legacyNext: nat, currentNext: nat)
    ensures current == (match legacy case Some(d) => d case None => [])
    ensures legacy.Some? <==> current != []
    ensures Concat(legacyRest) == Concat(currentRest) && legacyNext == currentNext
  {
    legacyRest, legacyNext, legacy := ConsumeData(queue, next, src, dst);
    var packed;
    currentRest, currentNext, current, packed := ConsumeDataInto(queue, next, src, dst, []);
    DatagramEmpty(src, dst, next, queue);
    assert [] + Datagram(src, dst, next, queue) == Datagram(src, dst, next, queue);
  }

  // ---- packing until nothing is left ----

  /** Repeated packing stops after exactly ceil(total / 15000) datagrams. Together they
      parse to the whole queue cut every 1500 bytes, numbered without a gap. */
  method PackAll(queue0: seq<seq<byte>>, next0: nat, src: u32, dst: u32)
    returns (datagrams: seq<seq<byte>>, next: nat)
    ensures |datagrams| == CeilDiv(|Concat(queue0)|, 15000)
    ensures Concat(datagrams) == Wire(src, dst, next0, Chunks(Concat(queue0)))
    ensures next == next0 + |Chunks(Concat(queue0))|
  {
    var queue := queue0;
    datagrams, next := [], next0;
    ghost var total, done := Concat(queue0), [];
    PackStart(src, dst, next0, total);
    while true
      invariant PackProgress(src, dst, next0, total, done, Concat(queue), datagrams, next)
      decreases |Concat(queue)|
    {
      ghost var before, nextBefore := queue, next;
      var datagram, packed;
      queue, next, datagram, packed := ConsumeDataInto(queue, next, src, dst, []);
      if packed == 0 {
        PackEnd(src, dst, next0, total, done, datagrams, next);
        break;
      }
      PackNext(src, dst, next0, total, done, before, datagrams, nextBefore, datagram);
      done := done + Taken(before);
      datagrams := datagrams + [datagram];
    }
  }

  /** Full datagrams until the bytes run out. */
  predicate Counted(total: nat, done: nat, datagrams: nat) {
    if done < total then done == 15000 * datagrams else datagrams == CeilDiv(total, 15000)
  }

  /** `done` has been packed into `datagrams`, `rest` is still queued. */
  ghost predicate PackProgress(src: u32, dst: u32, first: nat, total: seq<byte>, done: seq<byte>, rest: seq<byte>,
                               datagrams: seq<seq<byte>>, next: nat) {
    && done + rest == total
    && Counted(|total|, |done|, |datagrams|)
    && next == first + |Chunks(done)|
    && Concat(datagrams) == Wire(src, dst, first, Chunks(done))
  }

  lemma PackStart(src: u32, dst: u32, first: nat, total: seq<byte>)
    ensures PackProgress(src, dst, first, total, [], total, [], first)
  {
    assert [] + total == total;
  }

  lemma PackEnd(src: u32, dst: u32, first: nat, total: seq<byte>, done: seq<byte>, datagrams: seq<seq<byte>>, next: nat)
    requires PackProgress(src, dst, first, total, done, [], datagrams, next)
    ensures done == total
  {
    assert done + [] == done;
  }

  lemma OneMoreDatagram(total: nat, done: nat, datagrams: nat, packed: nat)
    requires Counted(total, done, datagrams) && done < total && packed == Min(total - done, 15000)
    ensures Counted(total, done + packed, datagrams + 1) && done % 1500 == 0
  {
    WholeChunks(done, datagrams);
    if done + packed == total {
      CeilIs(total, datagrams + 1);
    }
  }

  lemma WholeChunks(done: nat, datagrams: nat)
    requires done == 15000 * datagrams
    ensures done % 1500 == 0
  {
    assert done == 1500 * (10 * datagrams);
  }

  lemma CeilIs(total: nat, n: nat)
    requires 15000 * n - 15000 < total <= 15000 * n
    ensures CeilDiv(total, 15000) == n
  {
    var k := CeilDiv(total, 15000);
    assert total + 14999 == 15000 * k + (total + 14999) % 15000;
  }

  lemma PackNext(src: u32, dst: u32, first: nat, total: seq<byte>, done: seq<byte>, queue: seq<seq<byte>>,
                 datagrams: seq<seq<byte>>, next: nat, datagram: seq<byte>)
    requires PackProgress(src, dst, first, total, done, Concat(queue), datagrams, next) && Concat(queue) != []
    requires datagram == [] + Datagram(src, dst, next, queue)
    ensures PackProgress(src, dst, first, total, done + Taken(queue), Concat(queue)[|Taken(queue)|..],
                         datagrams + [datagram], next + |Chunks(Taken(queue))|)
  {
    var t := Taken(queue);
    MoveBoundary(done, Concat(queue), |t|);
    OneMoreDatagram(|total|, |done|, |datagrams|, |t|);
    CutMore(src, dst, first, done, t, next);
    ConcatSnoc(datagrams, datagram);
    assert datagram == Wire(src, dst, next, Chunks(t));
  }

  /** Cutting more bytes behind whole chunks adds their packets to the wire. */
  lemma CutMore(src: u32, dst: u32, first: nat, a: seq<byte>, b: seq<byte>, next: nat)
    requires |a| % 1500 == 0 && next == first + |Chunks(a)|
    ensures Wire(src, dst, first, Chunks(a + b)) == Wire(src, dst, first, Chunks(a)) + Wire(src, dst, next, Chunks(b))
    ensures |Chunks(a + b)| == |Chunks(a)| + |Chunks(b)|
  {
    ChunksAppend(a, b);
    WireAppend(src, dst, first, Chunks(a), next, Chunks(b));
  }

  /** Cutting commutes with concatenation at a 1500-byte boundary. */
  lemma {:induction false} ChunksAppend(a: seq<byte>, b: seq<byte>)
    requires |a| % 1500 == 0
    ensures Chunks(a + b) == Chunks(a) + Chunks(b)
    decreases |a|
  {
    if a == [] {
      assert a + b == b;
    } else {
      ChunksAppend(a[1500..], b);
      assert (a + b)[..1500] == a[..1500];
      assert (a + b)[1500..] == a[1500..] + b;
    }
  }
}
