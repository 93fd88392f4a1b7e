/** What every run of arrivals and reads delivers, whatever arrives and however the two
    read calls are mixed. */
module RingRuns {
  import opened Bytes
  import opened Packet
  import opened Ring

  datatype Event =
    | Arrive(packet: Packet)
    | ReadInto(len: nat)
    | ReadPieces(maxPackets: nat)

  /** The buffer with its history: every byte handed out, and the payload of every packet
      number that was ever accepted. */
  datatype History = History(ring: Ring, out: seq<byte>, accepted: map<nat, seq<byte>>)

  function Start(start: nat): History {
    History(Fresh(start), [], map[])
  }

  function Step(h: History, e: Event): (h': History)
    requires |h.ring.slots| == CAPACITY
    ensures |h'.ring.slots| == CAPACITY
  {
    match e
    case Arrive(p) =>
      var (ring, outcome) := BufferIn(h.ring, p);
      History(ring, h.out, if outcome == Accepted then h.accepted[p.header.packetNumber := p.payload] else h.accepted)
    case ReadInto(len) =>
      var (ring, read) := Consume(h.ring, len);
      History(ring, if read.Some? then h.out + read.value.bytes else h.out, h.accepted)
    case ReadPieces(maxPackets) =>
      var (ring, read) := ConsumeBytes(h.ring, maxPackets);
      History(ring, if read.Some? then h.out + read.value.0.bytes else h.out, h.accepted)
  }

  function Run(h: History, events: seq<Event>): (h': History)
    requires |h.ring.slots| == CAPACITY
    ensures |h'.ring.slots| == CAPACITY
    decreases |events|
  {
    if events == [] then h else Run(Step(h, events[0]), events[1..])
  }

  /** The accepted payloads of the numbers in `[lo, hi)`, in number order. */
  ghost function Stream(accepted: map<nat, seq<byte>>, lo: nat, hi: nat): seq<byte>
    requires lo <= hi && forall x :: lo <= x < hi ==> x in accepted
    decreases hi
  {
    if lo == hi then [] else Stream(accepted, lo, hi - 1) + accepted[hi - 1]
  }

  ghost predicate Inv(h: History, start: nat) {
    && Valid(h.ring)
    && start <= h.ring.next
    && (forall x :: x in h.accepted ==> start <= x < h.ring.next + CAPACITY)
    && (forall x :: start <= x < h.ring.next ==> x in h.accepted)
    && (forall i :: 0 <= i < CAPACITY ==>
          match h.ring.slots[i]
          case Some(p) => h.ring.next + i in h.accepted && h.accepted[h.ring.next + i] == p.payload
          case None => h.ring.next + i !in h.accepted)
    && h.out + CarryBytes(h.ring) == Stream(h.accepted, start, h.ring.next)
  }

  lemma {:induction false} StreamFrame(a: map<nat, seq<byte>>, b: map<nat, seq<byte>>, lo: nat, hi: nat)
    requires lo <= hi
    requires forall x :: lo <= x < hi ==> x in a && x in b && a[x] == b[x]
    ensures Stream(a, lo, hi) == Stream(b, lo, hi)
    decreases hi
  {
    if lo != hi {
      StreamFrame(a, b, lo, hi - 1);
    }
  }

  lemma {:induction false} StreamRun(h: History, start: nat, k: nat, end: nat)
    requires Inv(h, start) && k <= RunLength(h.ring.slots) && end == h.ring.next + k
    ensures forall x :: start <= x < end ==> x in h.accepted
    ensures Stream(h.accepted, start, end)
            == Stream(h.accepted, start, h.ring.next) + Concat(RunPayloads(h.ring.slots, k))
  {
    if k > 0 {
      StreamRun(h, start, k - 1, end - 1);
      StreamRunNext(h, start, k, end);
      RunSnoc(h.ring.slots, k - 1);
      ConcatSnoc(RunPayloads(h.ring.slots, k - 1), h.accepted[end - 1]);
      Assoc(Stream(h.accepted, start, h.ring.next), Concat(RunPayloads(h.ring.slots, k - 1)), h.accepted[end - 1]);
    }
  }

  lemma StreamRunNext(h: History, start: nat, k: nat, end: nat)
    requires Inv(h, start) && 0 < k <= RunLength(h.ring.slots) && end == h.ring.next + k
    requires forall x :: start <= x < end - 1 ==> x in h.accepted
    ensures h.ring.slots[k - 1].Some? && end - 1 in h.accepted && h.accepted[end - 1] == h.ring.slots[k - 1].value.payload
    ensures Stream(h.accepted, start, end) == Stream(h.accepted, start, end - 1) + h.accepted[end - 1]
  {
    RunDrop(h.ring.slots, k);
  }

  /** Removing the first `k` packets keeps the invariant if what they held is handed out or carried. */
  lemma AdvanceKeepsInv(h: History, start: nat, k: nat, carry: Option<seq<byte>>, out: seq<byte>)
    requires Inv(h, start) && k <= RunLength(h.ring.slots)
    requires carry.Some? ==> carry.value != []
    requires out + (if carry.Some? then carry.value else [])
             == h.out + (CarryBytes(h.ring) + Concat(RunPayloads(h.ring.slots, k)))
    ensures Inv(History(Advance(h.ring, k, carry), out, h.accepted), start)
  {
    StreamRun(h, start, k, h.ring.next + k);
    AdvanceNumbered(h.ring, k, carry);
    Assoc(h.out, CarryBytes(h.ring), Concat(RunPayloads(h.ring.slots, k)));
  }

  lemma ArriveKeepsInv(h: History, start: nat, p: Packet)
    requires Inv(h, start)
    ensures Inv(Step(h, Arrive(p)), start)
    ensures BufferIn(h.ring, p).1 == Accepted <==>
            && h.ring.next <= p.header.packetNumber < h.ring.next + CAPACITY
            && p.header.packetNumber !in h.accepted
  {
    var n, h' := p.header.packetNumber, Step(h, Arrive(p));
    if h.ring.next <= n < h.ring.next + CAPACITY {
      assert h.ring.slots[n - h.ring.next].Some? <==> n in h.accepted;
    }
    StreamFrame(h.accepted, h'.accepted, start, h.ring.next);
  }

  /** A read that the carry-over alone covers. */
  lemma CarryReadKeepsInv(h: History, start: nat, len: nat)
    requires Inv(h, start) && |CarryBytes(h.ring)| > len
    ensures Inv(Step(h, ReadInto(len)), start)
  {
  }

  /** What the step of any other copying read comes to. */
  lemma ReadIntoResult(h: History, len: nat, k: nat, all: seq<byte>)
    requires |h.ring.slots| == CAPACITY && |CarryBytes(h.ring)| <= len
    requires k == PacketsFor(h.ring.slots, len - |CarryBytes(h.ring)|)
    requires all == CarryBytes(h.ring) + Concat(RunPayloads(h.ring.slots, k))
    ensures Step(h, ReadInto(len))
            == History(Advance(h.ring, k, if |all| > len then Some(all[len..]) else None),
                       h.out + all[..Min(len, |all|)], h.accepted)
  {
  }

  lemma ReadIntoKeepsInv(h: History, start: nat, len: nat)
    requires Inv(h, start)
    ensures Inv(Step(h, ReadInto(len)), start)
  {
    var c := CarryBytes(h.ring);
    if |c| > len {
      CarryReadKeepsInv(h, start, len);
    } else {
      var k := PacketsFor(h.ring.slots, len - |c|);
      var all := c + Concat(RunPayloads(h.ring.slots, k));
      var m := Min(len, |all|);
      var rest := if |all| > len then Some(all[len..]) else None;
      ReadIntoResult(h, len, k, all);
      MoveBoundary(h.out, all, m);
      assert (if rest.Some? then rest.value else []) == all[m..];
      AdvanceKeepsInv(h, start, k, rest, h.out + all[..m]);
    }
  }

  lemma ReadPiecesResult(h: History, maxPackets: nat, k: nat)
    requires |h.ring.slots| == CAPACITY
    requires var n := |CarryPieces(h.ring)|;
             k == if maxPackets <= n then 0 else Min(RunLength(h.ring.slots), maxPackets - n)
    ensures Step(h, ReadPieces(maxPackets))
            == History(Advance(h.ring, k, None),
                       h.out + (CarryBytes(h.ring) + Concat(RunPayloads(h.ring.slots, k))), h.accepted)
  {
    var c, run := CarryPieces(h.ring), RunPayloads(h.ring.slots, k);
    ConcatAppend(c, run);
    assert Concat(c) == CarryBytes(h.ring);
    assert h.out + [] == h.out;
  }

  lemma ReadPiecesKeepsInv(h: History, start: nat, maxPackets: nat)
    requires Inv(h, start)
    ensures Inv(Step(h, ReadPieces(maxPackets)), start)
  {
    var n := |CarryPieces(h.ring)|;
    var k := if maxPackets <= n then 0 else Min(RunLength(h.ring.slots), maxPackets - n);
    var out := h.out + (CarryBytes(h.ring) + Concat(RunPayloads(h.ring.slots, k)));
    ReadPiecesResult(h, maxPackets, k);
    assert out + [] == out;
    AdvanceKeepsInv(h, start, k, None, out);
  }

  lemma StepKeepsInv(h: History, start: nat, e: Event)
    requires Inv(h, start)
    ensures Inv(Step(h, e), start)
  {
    match e
    case Arrive(p) => ArriveKeepsInv(h, start, p);
    case ReadInto(len) => ReadIntoKeepsInv(h, start, len);
    case ReadPieces(maxPackets) => ReadPiecesKeepsInv(h, start, maxPackets);
  }

  /** Whatever arrives and however it is read: the bytes handed out, followed by the
      carry-over, are the accepted payloads of the numbers `start`, `start + 1`, ... up to
      the next expected one, each exactly once and in order. */
  lemma {:induction false} EveryRunDelivers(h: History, start: nat, events: seq<Event>)
    requires Inv(h, start)
    ensures Inv(Run(h, events), start)
    ensures forall x :: x in h.accepted ==>
              x in Run(h, events).accepted && Run(h, events).accepted[x] == h.accepted[x]
    ensures h.out <= Run(h, events).out
    decreases |events|
  {
    if events != [] {
      StepKeepsInv(h, start, events[0]);
      var h' := Step(h, events[0]);
      if events[0].Arrive? {
        ArriveKeepsInv(h, start, events[0].packet);
      }
      EveryRunDelivers(h', start, events[1..]);
    }
  }

  lemma StartInv(start: nat)
    ensures Inv(Start(start), start)
  {
  }

  // ---- what one read returns ----

  /** Every byte that can be read without a gap: the carry-over, then the run at the head. */
  function Available(r: Ring): seq<byte> {
    CarryBytes(r) + Concat(RunPayloads(r.slots, RunLength(r.slots)))
  }

  /** What was handed out and what is available make up the accepted payloads up to the first gap. */
  lemma OutThenAvailable(h: History, start: nat, end: nat)
    requires Inv(h, start) && end == h.ring.next + RunLength(h.ring.slots)
    ensures forall x :: start <= x < end ==> x in h.accepted
    ensures h.out + Available(h.ring) == Stream(h.accepted, start, end)
  {
    var k := RunLength(h.ring.slots);
    StreamRun(h, start, k, end);
    Assoc(h.out, CarryBytes(h.ring), Concat(RunPayloads(h.ring.slots, k)));
  }

  lemma {:induction false} PacketsForCovers(slots: seq<Option<Packet>>, want: nat)
    ensures var k := PacketsFor(slots, want);
            var part, full := Concat(RunPayloads(slots, k)), Concat(RunPayloads(slots, RunLength(slots)));
            part <= full && (part == full || |part| >= want)
  {
    if want == 0 || slots == [] || slots[0].None? {
    } else {
      var payload := slots[0].value.payload;
      var want' := want - Min(want, |payload|);
      PacketsForCovers(slots[1..], want');
      var k, n := PacketsFor(slots[1..], want'), RunLength(slots[1..]);
      assert RunPayloads(slots, k + 1)[1..] == RunPayloads(slots[1..], k);
      assert RunPayloads(slots, n + 1)[1..] == RunPayloads(slots[1..], n);
      assert payload + Concat(RunPayloads(slots[1..], k)) <= payload + Concat(RunPayloads(slots[1..], n));
    }
  }

  /** A read returns exactly the first `len` available bytes, or all of them if there are
      fewer; it fails exactly when that is nothing. */
  lemma ReadIsPrefix(r: Ring, len: nat)
    requires Valid(r)
    ensures var expected := Available(r)[..Min(len, |Available(r)|)];
            match Consume(r, len).1
            case Some(read) => read.bytes == expected
            case None => expected == []
  {
    var c := CarryBytes(r);
    if |c| <= len {
      PacketsForCovers(r.slots, len - |c|);
    }
  }

  lemma ReadKeepsRunEnd(h: History, len: nat)
    requires |h.ring.slots| == CAPACITY
    ensures var r, r' := h.ring, Step(h, ReadInto(len)).ring;
            r'.next + RunLength(r'.slots) == r.next + RunLength(r.slots)
  {
    var c := CarryBytes(h.ring);
    if |c| <= len {
      AdvanceRun(h.ring, PacketsFor(h.ring.slots, len - |c|), Step(h, ReadInto(len)).ring.carry);
    }
  }

  /** What was read and what can be read, as long as nothing arrives. */
  ghost predicate Whole(h: History, start: nat, all: seq<byte>, had: nat) {
    Inv(h, start) && h.out + Available(h.ring) == all && had <= |all| && h.out == all[..had]
  }

  lemma ReadKeepsWhole(h: History, start: nat, all: seq<byte>, had: nat, len: nat)
    requires Whole(h, start, all, had)
    ensures Whole(Step(h, ReadInto(len)), start, all, Min(|all|, had + len))
  {
    var h', end := Step(h, ReadInto(len)), h.ring.next + RunLength(h.ring.slots);
    StepKeepsInv(h, start, ReadInto(len));
    ReadKeepsRunEnd(h, len);
    OutThenAvailable(h, start, end);
    OutThenAvailable(h', start, end);
    ReadIsPrefix(h.ring, len);
    TakeMore(h.out, Available(h.ring), len);
  }

  lemma TakeMore(out: seq<byte>, more: seq<byte>, len: nat)
    ensures out + more[..Min(len, |more|)] == (out + more)[..Min(|out + more|, |out| + len)]
  {
  }

  /** The buffer after a sequence of copying reads. */
  function AfterReads(h: History, lens: seq<nat>): (h': History)
    requires |h.ring.slots| == CAPACITY
    ensures |h'.ring.slots| == CAPACITY
  {
    if lens == [] then h else Step(AfterReads(h, lens[..|lens| - 1]), ReadInto(lens[|lens| - 1]))
  }

  function Total(lens: seq<nat>): nat {
    if lens == [] then 0 else Total(lens[..|lens| - 1]) + lens[|lens| - 1]
  }

  /** With nothing arriving in between, any sequence of reads hands out exactly the next
      bytes, up to the sum of their lengths or to the first gap. */
  lemma {:induction false} ReadsTakeNext(h: History, start: nat, all: seq<byte>, had: nat, lens: seq<nat>)
    requires Whole(h, start, all, had)
    ensures Whole(AfterReads(h, lens), start, all, Min(|all|, had + Total(lens)))
  {
    if lens != [] {
      var front, last := lens[..|lens| - 1], lens[|lens| - 1];
      ReadsTakeNext(h, start, all, had, front);
      ReadKeepsWhole(AfterReads(h, front), start, all, Min(|all|, had + Total(front)), last);
    }
  }

  /** The packets a read names are exactly the packets it removes, so an acknowledgement of
      `(base, count)` fits the 16 bits it travels in. */
  lemma ReadNamesRemoved(r: Ring, len: nat)
    requires Valid(r) && Consume(r, len).1.Some?
    ensures var (r', read) := Consume(r, len);
            && r'.next == r.next + read.value.count
            && read.value.count <= CAPACITY
            && (read.value.count > 0 ==> read.value.base == r.next)
  {
  }

  lemma ReadPiecesNamesRemoved(r: Ring, maxPackets: nat)
    requires Valid(r) && ConsumeBytes(r, maxPackets).1.Some?
    ensures var (r', read) := ConsumeBytes(r, maxPackets);
            && r'.next == r.next + read.value.0.count
            && read.value.0.count <= CAPACITY
            && (read.value.0.count > 0 ==> read.value.0.base == r.next)
  {
  }

  ghost predicate NoEmptyPayload(r: Ring) {
    forall i :: 0 <= i < |r.slots| && r.slots[i].Some? ==> r.slots[i].value.payload != []
  }

  /** Readiness matches consumption. With no empty payload buffered, a read of a positive
      length succeeds exactly when `peek` does, and a failing read changes nothing. */
  lemma PeekPredictsRead(r: Ring, len: nat)
    requires Valid(r) && NoEmptyPayload(r) && len > 0
    ensures Consume(r, len).1.Some? <==> Peek(r)
    ensures Consume(r, len).1.None? ==> Consume(r, len).0 == r
  {
  }

  /** After a successful `peek`, the one read that fails is that of no bytes with nothing carried over. */
  lemma ReadFailsExactly(r: Ring, len: nat)
    requires Valid(r) && NoEmptyPayload(r) && Peek(r)
    ensures Consume(r, len).1.None? <==> len == 0 && r.carry.None?
  {
    if len > 0 {
      PeekPredictsRead(r, len);
    }
  }

  /** In general, `peek` promises a byte to a positive-length read exactly when some
      packet of the run at the head, or the carry-over, has one. */
  lemma PeekPromiseExact(r: Ring, len: nat)
    requires Valid(r) && len > 0 && Peek(r)
    ensures Consume(r, len).1.Some? <==> Available(r) != []
  {
    ReadIsPrefix(r, len);
  }

  /** A lone empty data packet at the head breaks the promise: `peek` succeeds, the read
      fails, and the failing read has nevertheless moved the window. */
  lemma EmptyPacketBreaksPeek(p: Packet, len: nat)
    requires p.payload == [] && len > 0
    ensures var r := BufferIn(Fresh(p.header.packetNumber), p).0;
            && Peek(r)
            && Consume(r, len).1.None?
            && Consume(r, len).0.next == r.next + 1
  {
    var r := BufferIn(Fresh(p.header.packetNumber), p).0;
    assert r.slots[1..][0] == None;
    assert RunPayloads(r.slots, 1) == [p.payload] + RunPayloads(r.slots[1..], 0);
    assert Concat(RunPayloads(r.slots, 1)) == p.payload + Concat([]);
    assert PacketsFor(r.slots, len) == 1 + PacketsFor(r.slots[1..], len);
  }
}
