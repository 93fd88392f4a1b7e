/** The reassembly buffer as a value: what each operation does to it, and what every run
    of operations delivers. `OrderedBytes` is proved to behave like this. */
module Ring {
  import opened Bytes
  import opened Packet

  const CAPACITY: nat := 2000

  /** `slots[i]` is the place for packet number `next + i`. */
  datatype Ring = Ring(next: nat, slots: seq<Option<Packet>>, carry: Option<seq<byte>>)

  /** Every occupied slot holds the packet number its place stands for. */
  ghost predicate Numbered(r: Ring) {
    && |r.slots| == CAPACITY
    && forall i :: 0 <= i < |r.slots| && r.slots[i].Some? ==>
         r.slots[i].value.header.packetNumber == r.next + i
  }

  ghost predicate Valid(r: Ring) {
    Numbered(r) && (r.carry.Some? ==> r.carry.value != [])
  }

  function Nones(k: nat): (s: seq<Option<Packet>>)
    ensures |s| == k && forall i :: 0 <= i < k ==> s[i] == None
  {
    seq(k, _ => None)
  }

  function Fresh(start: nat): (r: Ring)
    ensures Valid(r)
  {
    Ring(start, Nones(CAPACITY), None)
  }

  datatype BufferOutcome = Accepted | UnexpectedNumber | Full | Duplicate

  function BufferIn(r: Ring, p: Packet): (Ring, BufferOutcome)
    requires |r.slots| == CAPACITY
  {
    var n := p.header.packetNumber;
    if n < r.next then (r, UnexpectedNumber)
    else if n - r.next >= CAPACITY then (r, Full)
    else if r.slots[n - r.next].Some? then (r, Duplicate)
    else (r.(slots := r.slots[n - r.next := Some(p)]), Accepted)
  }

  predicate Peek(r: Ring)
    requires |r.slots| == CAPACITY
  {
    r.carry.Some? || r.slots[0].Some?
  }

  // ---- what can be read ----

  function CarryBytes(r: Ring): seq<byte> {
    if r.carry.Some? then r.carry.value else []
  }

  /** Length of the gap-free run at the head. */
  function RunLength(slots: seq<Option<Packet>>): (k: nat)
    ensures k <= |slots|
  {
    if slots == [] || slots[0].None? then 0 else 1 + RunLength(slots[1..])
  }

  /** Payloads of the first `k` packets of the run. */
  function RunPayloads(slots: seq<Option<Packet>>, k: nat): (s: seq<seq<byte>>)
    requires k <= RunLength(slots)
    ensures |s| == k
  {
    if k == 0 then [] else [slots[0].value.payload] + RunPayloads(slots[1..], k - 1)
  }

  /** How many packets a read of `want` bytes opens. */
  function PacketsFor(slots: seq<Option<Packet>>, want: nat): (k: nat)
    ensures k <= RunLength(slots)
  {
    if want == 0 || slots == [] || slots[0].None? then 0
    else 1 + PacketsFor(slots[1..], want - Min(want, |slots[0].value.payload|))
  }

  function Advance(r: Ring, k: nat, carry: Option<seq<byte>>): Ring
    requires k <= |r.slots|
  {
    Ring(r.next + k, r.slots[k..] + Nones(k), carry)
  }

  /** What a successful read reports: packets removed, number of the first, bytes handed out. */
  datatype Read = Read(count: nat, base: u64, bytes: seq<byte>)

  function HeadNumber(r: Ring): u64
    requires |r.slots| == CAPACITY
  {
    if r.slots[0].Some? then r.slots[0].value.header.packetNumber else 0
  }

  function Consume(r: Ring, len: nat): (Ring, Option<Read>)
    requires |r.slots| == CAPACITY
  {
    var c := CarryBytes(r);
    if |c| > len then (r.(carry := Some(c[len..])), Some(Read(0, 0, c[..len])))
    else
      var k := PacketsFor(r.slots, len - |c|);
      var all := c + Concat(RunPayloads(r.slots, k));
      var rest := if |all| > len then Some(all[len..]) else None;
      var out := all[..Min(len, |all|)];
      (Advance(r, k, rest), if out == [] then None else Some(Read(k, HeadNumber(r), out)))
  }

  function CarryPieces(r: Ring): seq<seq<byte>> {
    if r.carry.Some? then [r.carry.value] else []
  }

  function ConsumeBytes(r: Ring, maxPackets: nat): (Ring, Option<(Read, seq<seq<byte>>)>)
    requires |r.slots| == CAPACITY
  {
    var c := CarryPieces(r);
    var k := if maxPackets <= |c| then 0 else Min(RunLength(r.slots), maxPackets - |c|);
    var pieces := c + RunPayloads(r.slots, k);
    (Advance(r, k, None),
     if pieces == [] then None else Some((Read(k, HeadNumber(r), Concat(pieces)), pieces)))
  }

  /** The pieces of a zero-copy read, appended to what the caller already has. */
  lemma PiecesOut(r: Ring, k: nat, out: seq<seq<byte>>)
    requires |r.slots| == CAPACITY && k <= RunLength(r.slots)
    ensures var run := RunPayloads(r.slots, k);
            && out + CarryPieces(r) + run == out + (CarryPieces(r) + run)
            && |Concat(CarryPieces(r) + run)| == |CarryBytes(r)| + |Concat(run)|
            && Advance(r.(carry := None), k, None) == Advance(r, k, None)
  {
    ConcatAppend(CarryPieces(r), RunPayloads(r.slots, k));
  }

  lemma AdvanceNumbered(r: Ring, k: nat, carry: Option<seq<byte>>)
    requires Numbered(r) && k <= CAPACITY
    ensures Numbered(Advance(r, k, carry))
  {
  }

  lemma ConsumeValid(r: Ring, len: nat)
    requires Valid(r)
    ensures Valid(Consume(r, len).0)
  {
  }

  // ---- runs of slots ----

  lemma {:induction false} RunDrop(slots: seq<Option<Packet>>, k: nat)
    requires k <= RunLength(slots)
    ensures RunLength(slots) == k + RunLength(slots[k..])
    ensures forall i :: 0 <= i < k ==> slots[i].Some?
  {
    if k == 0 {
      assert slots[0..] == slots;
    } else {
      RunDrop(slots[1..], k - 1);
      assert slots[1..][k - 1..] == slots[k..];
      assert forall i :: 1 <= i < k ==> slots[i] == slots[1..][i - 1];
    }
  }

  lemma {:induction false} RunSnoc(slots: seq<Option<Packet>>, k: nat)
    requires k < |slots| && k <= RunLength(slots) && slots[k].Some?
    ensures k < RunLength(slots)
    ensures RunPayloads(slots, k + 1) == RunPayloads(slots, k) + [slots[k].value.payload]
  {
    RunDrop(slots, k);
    if k > 0 {
      assert slots[1..][k - 1] == slots[k];
      RunDrop(slots[1..], k - 1);
      RunSnoc(slots[1..], k - 1);
    }
  }

  // ---- the read loops, one packet at a time ----

  /** The head slot is freed and the window moves on by one. */
  function Shift(r: Ring, carry: Option<seq<byte>>): (r': Ring)
    requires |r.slots| == CAPACITY
    ensures |r'.slots| == CAPACITY
  {
    Ring(r.next + 1, r.slots[1..] + [None], carry)
  }

  /** A read in progress: the buffer and the bytes handed out so far. */
  datatype Reading = Reading(ring: Ring, out: seq<byte>)

  function OpenHead(s: Reading, len: nat): (s': Reading)
    requires |s.ring.slots| == CAPACITY && s.ring.slots[0].Some? && |s.out| <= len
    ensures |s'.ring.slots| == CAPACITY && |s'.out| <= len
  {
    var payload, room := s.ring.slots[0].value.payload, len - |s.out|;
    if |payload| > room
    then Reading(Shift(s.ring, Some(payload[room..])), s.out + payload[..room])
    else Reading(Shift(s.ring, None), s.out + payload)
  }

  function OpenAll(s: Reading, len: nat): Reading
    requires |s.ring.slots| == CAPACITY && |s.out| <= len
    decreases RunLength(s.ring.slots)
  {
    if s.ring.slots[0].None? || |s.out| >= len then s
    else
      TrailingNone(s.ring.slots[1..]);
      OpenAll(OpenHead(s, len), len)
  }

  lemma {:induction false} TrailingNone(slots: seq<Option<Packet>>)
    ensures RunLength(slots + [None]) == RunLength(slots)
  {
    if slots == [] {
      assert slots + [None] == [None];
    } else if slots[0].Some? {
      assert (slots + [None])[1..] == slots[1..] + [None];
      TrailingNone(slots[1..]);
    }
  }

  lemma {:induction false} TrailingNones(slots: seq<Option<Packet>>, k: nat)
    ensures RunLength(slots + Nones(k)) == RunLength(slots)
  {
    if k == 0 {
      assert slots + Nones(0) == slots;
    } else {
      TrailingNones(slots, k - 1);
      TrailingNone(slots + Nones(k - 1));
      assert slots + Nones(k) == slots + Nones(k - 1) + [None];
    }
  }

  /** Removing packets from the head leaves the end of the run where it is. */
  lemma AdvanceRun(r: Ring, k: nat, carry: Option<seq<byte>>)
    requires |r.slots| == CAPACITY && k <= RunLength(r.slots)
    ensures var r' := Advance(r, k, carry);
            r'.next + RunLength(r'.slots) == r.next + RunLength(r.slots)
  {
    RunDrop(r.slots, k);
    TrailingNones(r.slots[k..], k);
  }

  lemma {:induction false} TrailingNoneReads(slots: seq<Option<Packet>>, want: nat, k: nat)
    requires k <= RunLength(slots)
    ensures RunLength(slots + [None]) == RunLength(slots)
    ensures PacketsFor(slots + [None], want) == PacketsFor(slots, want)
    ensures RunPayloads(slots + [None], k) == RunPayloads(slots, k)
  {
    TrailingNone(slots);
    if slots == [] {
      assert slots + [None] == [None];
    } else if slots[0].Some? {
      assert (slots + [None])[1..] == slots[1..] + [None];
      TrailingNoneReads(slots[1..], want - Min(want, |slots[0].value.payload|), if k == 0 then 0 else k - 1);
    }
  }

  lemma ShiftAdvance(r: Ring, k: nat, c0: Option<seq<byte>>, c: Option<seq<byte>>)
    requires |r.slots| == CAPACITY && k < CAPACITY
    ensures Advance(Shift(r, c0), k, c) == Advance(r, k + 1, c)
  {
  }

  lemma AdvanceShift(r: Ring, k: nat)
    requires |r.slots| == CAPACITY && k < CAPACITY
    ensures Shift(Advance(r, k, None), None) == Advance(r, k + 1, None)
    ensures Advance(r, k, None).slots[0] == r.slots[k]
  {
  }

  /** Popping stops where the closed form stops. */
  lemma PopDone(r: Ring, maxPackets: nat, k: nat)
    requires |r.slots| == CAPACITY && k <= RunLength(r.slots) && k <= maxPackets
    requires k == CAPACITY || k == maxPackets || r.slots[k].None?
    ensures k == Min(RunLength(r.slots), maxPackets)
  {
    RunDrop(r.slots, k);
  }

  lemma ConsumeBytesValid(r: Ring, maxPackets: nat)
    requires Valid(r)
    ensures Valid(ConsumeBytes(r, maxPackets).0)
  {
  }

  /** The closed form of a read: open the fewest packets that cover the request, hand out
      a prefix of what they hold, keep the rest as carry-over. */
  function Covered(s: Reading, len: nat): Reading
    requires |s.ring.slots| == CAPACITY && |s.out| <= len
  {
    var k := PacketsFor(s.ring.slots, len - |s.out|);
    var all := s.out + Concat(RunPayloads(s.ring.slots, k));
    Reading(Advance(s.ring, k, if |all| > len then Some(all[len..]) else None), all[..Min(len, |all|)])
  }

  lemma CoveredNothing(s: Reading, len: nat)
    requires |s.ring.slots| == CAPACITY && s.ring.carry == None && |s.out| <= len
    requires s.ring.slots[0].None? || |s.out| == len
    ensures Covered(s, len) == s
  {
  }

  lemma CoveredPartly(s: Reading, len: nat)
    requires |s.ring.slots| == CAPACITY && |s.out| < len && s.ring.slots[0].Some?
    requires |s.ring.slots[0].value.payload| > len - |s.out|
    ensures Covered(s, len) == OpenHead(s, len)
  {
    var payload, room := s.ring.slots[0].value.payload, len - |s.out|;
    assert PacketsFor(s.ring.slots, room) == 1;
    assert Concat(RunPayloads(s.ring.slots, 1)) == payload by {
      assert RunPayloads(s.ring.slots, 1) == [payload] + RunPayloads(s.ring.slots[1..], 0);
      assert Concat([payload]) == payload + Concat([]);
    }
    var all := s.out + payload;
    assert all[len..] == payload[room..] && all[..len] == s.out + payload[..room];
    assert Nones(1) == [None];
  }

  lemma CoveredWholly(s: Reading, len: nat)
    requires |s.ring.slots| == CAPACITY && |s.out| < len && s.ring.slots[0].Some?
    requires |s.ring.slots[0].value.payload| <= len - |s.out|
    ensures Covered(s, len) == Covered(OpenHead(s, len), len)
  {
    var slots, payload := s.ring.slots, s.ring.slots[0].value.payload;
    var want := len - |s.out| - |payload|;
    var k := PacketsFor(slots[1..], want);
    TrailingNoneReads(slots[1..], want, k);
    var tail := RunPayloads(slots[1..], k);
    assert Concat(RunPayloads(slots, k + 1)) == payload + Concat(tail) by {
      assert RunPayloads(slots, k + 1)[1..] == tail;
    }
    Assoc(s.out, payload, Concat(tail));
    var all := s.out + payload + Concat(tail);
    ShiftAdvance(s.ring, k, None, if |all| > len then Some(all[len..]) else None);
  }

  lemma {:induction false} OpenAllIsCovered(s: Reading, len: nat)
    requires |s.ring.slots| == CAPACITY && s.ring.carry == None && |s.out| <= len
    ensures OpenAll(s, len) == Covered(s, len)
    decreases RunLength(s.ring.slots)
  {
    if s.ring.slots[0].None? || |s.out| >= len {
      CoveredNothing(s, len);
    } else {
      TrailingNone(s.ring.slots[1..]);
      if |s.ring.slots[0].value.payload| > len - |s.out| {
        CoveredPartly(s, len);
      } else {
        CoveredWholly(s, len);
        OpenAllIsCovered(OpenHead(s, len), len);
      }
    }
  }

  /** Invariant of the read loop after `ix` packets. */
  ghost predicate ReadProgress(start: Reading, s: Reading, ix: nat, len: nat) {
    && Numbered(start.ring) && start.ring.carry == None && |start.out| <= len
    && Numbered(s.ring) && |s.out| <= len
    && ix <= CAPACITY && s.ring.next == start.ring.next + ix
    && (forall i :: CAPACITY - ix <= i < CAPACITY ==> s.ring.slots[i] == None)
    && (s.ring.carry.Some? ==> |s.out| == len)
    && OpenAll(s, len) == OpenAll(start, len)
  }

  ghost predicate ReadFinished(start: Reading, s: Reading, ix: nat, len: nat) {
    ReadProgress(start, s, ix, len) && (ix == CAPACITY || s.ring.slots[0].None? || |s.out| >= len)
  }

  lemma ReadStep(start: Reading, s: Reading, ix: nat, len: nat)
    requires ReadProgress(start, s, ix, len)
    requires s.ring.slots[0].Some? && |s.out| < len
    ensures ix < CAPACITY
    ensures ReadProgress(start, OpenHead(s, len), ix + 1, len)
  {
  }

  lemma ReadDone(r0: Ring, len: nat, s: Reading, ix: nat)
    requires Valid(r0) && |CarryBytes(r0)| <= len
    requires ReadFinished(Reading(r0.(carry := None), CarryBytes(r0)), s, ix, len)
    ensures Consume(r0, len).0 == s.ring
    ensures Consume(r0, len).1 == if s.out == [] then None else Some(Read(ix, HeadNumber(r0), s.out))
  {
    var start := Reading(r0.(carry := None), CarryBytes(r0));
    OpenAllIsCovered(start, len);
    assert s == Covered(start, len);
  }
}
