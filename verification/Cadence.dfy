/** Which packets are acknowledged, and how far the sender's ack window can move. An ack names
    only the packets of the read that triggers it, so the window stops for good before the
    first read that triggered none. */
module Cadence {
  import opened Bytes
  import opened Packet
  import opened Ring
  import opened RingRuns
  import opened Transfer
  import P = Pipeline
  import A = AckPacking
  import W = Window

  // ---- the acks of a sequence of reads ----

  function Sum(taken: seq<nat>): nat {
    if taken == [] then 0 else Sum(taken[..|taken| - 1]) + taken[|taken| - 1]
  }

  /** The number of the first packet after these reads. */
  function Base(first: nat, taken: seq<nat>): nat {
    first + Sum(taken)
  }

  /** Whether a read of `count` packets after these reads is acknowledged. */
  predicate Triggers(first: nat, taken: seq<nat>, count: nat) {
    Base(first, taken) != 0 && Carry(first, taken) + count >= ACK_EVERY
  }

  /** Packets counted since the last ack. */
  function Carry(first: nat, taken: seq<nat>): nat {
    if taken == [] then 0
    else
      var front, last := taken[..|taken| - 1], taken[|taken| - 1];
      if Base(first, front) != 0 && Carry(first, front) + last >= ACK_EVERY then 0 else Carry(first, front) + last
  }

  /** The acks these reads trigger, in order. */
  function Triggered(first: nat, taken: seq<nat>): seq<(nat, nat)> {
    if taken == [] then []
    else
      var front, last := taken[..|taken| - 1], taken[|taken| - 1];
      if Triggers(first, front, last) then Triggered(first, front) + [(Base(first, front), last)]
      else Triggered(first, front)
  }

  function Names(acks: seq<A.AckData>): (s: seq<(nat, nat)>)
    ensures |s| == |acks|
  {
    seq(|acks|, i requires 0 <= i < |acks| => (acks[i].base as nat, acks[i].count))
  }

  function Sent(acksSent: seq<seq<A.AckData>>): seq<(nat, nat)> {
    if acksSent == [] then [] else Sent(acksSent[..|acksSent| - 1]) + Names(acksSent[|acksSent| - 1])
  }

  /** The acks queued so far, sent or not, are those the reads so far have triggered. */
  ghost predicate Counted(w: World) {
    && w.start == w.pipe.conn.first
    && w.consumed == Carry(w.start, w.taken)
    && Tallied(w.start, w.taken, w.history.ring.next)
    && Sent(w.acksSent) + Names(w.acks) == Triggered(w.start, w.taken)
  }

  /** The receiver has moved on by what the reads took. */
  ghost predicate Tallied(first: nat, taken: seq<nat>, next: nat) {
    && (forall i :: 0 <= i < |taken| ==> 0 < taken[i] <= CAPACITY)
    && next == Base(first, taken)
  }

  // ---- ... is kept by every step ----

  lemma SnocReads(first: nat, taken: seq<nat>, count: nat)
    ensures Sum(taken + [count]) == Sum(taken) + count
    ensures Carry(first, taken + [count]) == if Triggers(first, taken, count) then 0 else Carry(first, taken) + count
    ensures Triggered(first, taken + [count])
            == if Triggers(first, taken, count) then Triggered(first, taken) + [(Base(first, taken), count)]
               else Triggered(first, taken)
  {
    assert (taken + [count])[..|taken|] == taken;
  }

  lemma NoteCarry(acks: seq<A.AckData>, result: Option<Read>, first: nat, taken: seq<nat>)
    requires result.Some? && result.value.count > 0 ==> result.value.base == Base(first, taken)
    ensures NoteRead(Carry(first, taken), acks, result).0 == Carry(first, AddRead(taken, result))
  {
    if result.Some? && result.value.count > 0 {
      SnocReads(first, taken, result.value.count);
    }
  }

  lemma SnocName(sent: seq<(nat, nat)>, acks: seq<A.AckData>, a: A.AckData)
    ensures sent + Names(acks + [a]) == sent + Names(acks) + [(a.base as nat, a.count)]
  {
    assert Names(acks + [a]) == Names(acks) + [(a.base as nat, a.count)];
  }

  lemma NoteAcks(sent: seq<(nat, nat)>, acks: seq<A.AckData>, result: Option<Read>, first: nat, taken: seq<nat>)
    requires result.Some? && result.value.count > 0 ==> result.value.base == Base(first, taken)
    requires sent + Names(acks) == Triggered(first, taken)
    ensures sent + Names(NoteRead(Carry(first, taken), acks, result).1) == Triggered(first, AddRead(taken, result))
  {
    if result.Some? && result.value.count > 0 {
      var read := result.value;
      SnocReads(first, taken, read.count);
      if Triggers(first, taken, read.count) {
        SnocName(sent, acks, A.AckData(read.base, read.count));
      }
    }
  }

  /** A read that fails has taken no packet: there is no empty one to take. */
  lemma NothingRead(h: History, call: Call)
    requires Valid(h.ring) && NoEmptyPayload(h.ring) && ReadResult(h.ring, call).None?
    ensures Step(h, ReadEvent(call)).ring.next == h.ring.next
  {
    if call.Into? && call.len > 0 {
      PeekPredictsRead(h.ring, call.len);
    }
  }

  predicate Advances(result: Option<Read>, next: nat, next': nat) {
    match result
    case None => next' == next
    case Some(read) =>
      && next' == next + read.count && read.count <= CAPACITY
      && (read.count > 0 ==> read.base == next)
  }

  lemma TallyRead(result: Option<Read>, first: nat, taken: seq<nat>, next: nat, next': nat)
    requires Tallied(first, taken, next) && Advances(result, next, next')
    ensures Tallied(first, AddRead(taken, result), next')
  {
    if result.Some? && result.value.count > 0 {
      SnocReads(first, taken, result.value.count);
    }
  }

  /** What a read adds to the counts: nothing, or how far the receiver moved on. */
  lemma ReadCounts(w: World, call: Call)
    requires Transfer.Inv(w)
    ensures Advances(ReadResult(w.history.ring, call), w.history.ring.next, Step(w.history, ReadEvent(call)).ring.next)
  {
    ReadAdvances(w.history, call);
    if ReadResult(w.history.ring, call).None? {
      BufferedNonEmpty(w.pipe, w.history, w.start);
      NothingRead(w.history, call);
    }
  }

  lemma ConsumeCounted(w: World, call: Call)
    requires Transfer.Inv(w) && Counted(w)
    ensures Counted(ConsumeStep(w, call))
  {
    var result := ReadResult(w.history.ring, call);
    ReadCounts(w, call);
    NoteCarry(w.acks, result, w.start, w.taken);
    NoteAcks(Sent(w.acksSent), w.acks, result, w.start, w.taken);
    TallyRead(result, w.start, w.taken, w.history.ring.next, Step(w.history, ReadEvent(call)).ring.next);
  }

  lemma SendNames(acksSent: seq<seq<A.AckData>>, acks: seq<A.AckData>, k: nat)
    requires k <= |acks|
    ensures Sent(acksSent + [acks[..k]]) + Names(acks[k..]) == Sent(acksSent) + Names(acks)
  {
    assert (acksSent + [acks[..k]])[..|acksSent|] == acksSent;
    assert Names(acks) == Names(acks[..k]) + Names(acks[k..]);
  }

  // ---- the window and the acknowledged ranges ----

  ghost predicate Separated(ranges: seq<(nat, nat)>) {
    forall j, k :: 0 <= j < k < |ranges| ==> ranges[j].0 + ranges[j].1 <= ranges[k].0
  }

  /** The window has passed the whole range, or holds all of it, or holds none of it. */
  ghost predicate Whole(window: W.Window, range: (nat, nat)) {
    || range.0 + range.1 <= window.smallest
    || (&& window.smallest <= range.0
        && (|| (forall x :: range.0 <= x < range.0 + range.1 ==> x in window.acked)
            || (forall x :: range.0 <= x < range.0 + range.1 ==> x !in window.acked)))
  }

  predicate Inside(range: (nat, nat), x: nat) {
    range.0 <= x < range.0 + range.1
  }

  ghost predicate Named(ranges: seq<(nat, nat)>, x: nat) {
    exists k :: 0 <= k < |ranges| && Inside(ranges[k], x)
  }

  /** The window holds and has passed whole ranges, and nothing else. */
  ghost predicate ByRange(window: W.Window, first: nat, ranges: seq<(nat, nat)>) {
    && (forall k :: 0 <= k < |ranges| ==> Whole(window, ranges[k]))
    && (forall x :: x in window.acked || first <= x < window.smallest ==> Named(ranges, x))
  }

  ghost predicate Cadent(w: World) {
    Counted(w) && ByRange(w.window, w.start, Triggered(w.start, w.taken))
  }

  lemma {:induction false} TriggeredSeparated(first: nat, taken: seq<nat>)
    ensures Separated(Triggered(first, taken))
    ensures forall k :: 0 <= k < |Triggered(first, taken)| ==>
      Triggered(first, taken)[k].0 + Triggered(first, taken)[k].1 <= Base(first, taken)
    decreases |taken|
  {
    if taken != [] {
      TriggeredSeparated(first, taken[..|taken| - 1]);
    }
  }

  lemma NamedMore(ranges: seq<(nat, nat)>, range: (nat, nat), x: nat)
    requires Named(ranges, x)
    ensures Named(ranges + [range], x)
  {
    var k :| 0 <= k < |ranges| && Inside(ranges[k], x);
    assert Inside((ranges + [range])[k], x);
  }

  /** A range beyond everything the window has seen. */
  lemma RangeAhead(window: W.Window, first: nat, ranges: seq<(nat, nat)>, range: (nat, nat))
    requires ByRange(window, first, ranges) && window.smallest <= range.0
    requires forall x :: x in window.acked ==> x < range.0
    ensures ByRange(window, first, ranges + [range])
  {
    forall x | x in window.acked || first <= x < window.smallest
      ensures Named(ranges + [range], x)
    {
      NamedMore(ranges, range, x);
    }
    assert Whole(window, range);
  }

  lemma ReadByRange(window: W.Window, result: Option<Read>, first: nat, taken: seq<nat>)
    requires ByRange(window, first, Triggered(first, taken)) && window.smallest <= Base(first, taken)
    requires forall x :: x in window.acked ==> x < Base(first, taken)
    ensures ByRange(window, first, Triggered(first, AddRead(taken, result)))
  {
    if result.Some? && result.value.count > 0 {
      SnocReads(first, taken, result.value.count);
      if Triggers(first, taken, result.value.count) {
        RangeAhead(window, first, Triggered(first, taken), (Base(first, taken), result.value.count));
      }
    }
  }

  lemma ConsumeByRange(w: World, call: Call)
    requires Transfer.Inv(w) && Cadent(w)
    ensures ByRange(w.window, w.start, Triggered(w.start, AddRead(w.taken, ReadResult(w.history.ring, call))))
  {
    ReadByRange(w.window, ReadResult(w.history.ring, call), w.start, w.taken);
  }

  /** Inserting a range that the window treats as a whole adds all of it or nothing. */
  lemma InsertWhole(window: W.Window, range: (nat, nat))
    requires Whole(window, range)
    ensures var window' := W.InsertRange(window, range.0, range.1).0;
            && window'.smallest == window.smallest
            && (|| window' == window
                || (&& (forall x :: range.0 <= x < range.0 + range.1 ==> x !in window.acked)
                    && window'.acked == window.acked + W.Interval(range.0, range.0 + range.1)))
  {
    var (base, count) := range;
    if count > 0 && window.smallest <= base && base + count <= window.smallest + W.MAX_WINDOW {
      W.RangeIsLoop(window, base, count);
      if base !in window.acked {
        W.EachFits(window, base, count);
      }
    }
  }

  lemma InsertByRange(window: W.Window, first: nat, ranges: seq<(nat, nat)>, i: nat)
    requires ByRange(window, first, ranges) && Separated(ranges) && i < |ranges|
    ensures ByRange(W.InsertRange(window, ranges[i].0, ranges[i].1).0, first, ranges)
  {
    var window' := W.InsertRange(window, ranges[i].0, ranges[i].1).0;
    InsertWhole(window, ranges[i]);
    if window' != window {
      forall k | 0 <= k < |ranges|
        ensures Whole(window', ranges[k])
      {
        assert Whole(window, ranges[k]);
        assert k == i || ranges[k].0 + ranges[k].1 <= ranges[i].0 || ranges[i].0 + ranges[i].1 <= ranges[k].0;
      }
      forall x | x in window'.acked || first <= x < window'.smallest
        ensures Named(ranges, x)
      {
        if x !in window.acked && x in window'.acked {
          assert Inside(ranges[i], x);
        }
      }
    }
  }

  function RangeOf(p: Packet): (nat, nat) {
    (p.header.packetNumber as nat, p.header.typeSpecific as nat)
  }

  lemma {:induction false} AckAllByRange(window: W.Window, first: nat, ranges: seq<(nat, nat)>, ps: seq<Packet>)
    requires ByRange(window, first, ranges) && Separated(ranges)
    requires forall i :: 0 <= i < |ps| ==> RangeOf(ps[i]) in ranges
    ensures ByRange(AckAll(window, ps), first, ranges)
    decreases |ps|
  {
    if ps != [] {
      assert RangeOf(ps[0]) in ranges;
      var k :| 0 <= k < |ranges| && ranges[k] == RangeOf(ps[0]);
      InsertByRange(window, first, ranges, k);
      AckAllByRange(W.InsertRange(window, ps[0].header.packetNumber, ps[0].header.typeSpecific).0, first, ranges, ps[1..]);
    }
  }

  lemma {:induction false} SentNames(acksSent: seq<seq<A.AckData>>, j: nat, i: nat)
    requires j < |acksSent| && i < |acksSent[j]|
    ensures (acksSent[j][i].base as nat, acksSent[j][i].count) in Sent(acksSent)
    decreases |acksSent|
  {
    var n := |acksSent| - 1;
    if j < n {
      SentNames(acksSent[..n], j, i);
    } else {
      assert Names(acksSent[n])[i] in Names(acksSent[n]);
    }
  }

  /** The packets of an ack datagram on the wire are acks that reads have triggered. */
  lemma ArrivingRanges(w: World, j: nat)
    requires Transfer.Inv(w) && Counted(w) && j < |w.acksSent|
    ensures var ps := Received(AckDatagram(w.pipe.conn, w.acksSent[j]));
            forall i :: 0 <= i < |ps| ==> RangeOf(ps[i]) in Triggered(w.start, w.taken)
  {
    var acks := w.acksSent[j];
    A.AckDatagramParses(w.pipe.conn.dst, w.pipe.conn.src, acks);
    var ps := A.AckPackets(w.pipe.conn.dst, w.pipe.conn.src, acks);
    forall i | 0 <= i < |ps|
      ensures RangeOf(ps[i]) in Triggered(w.start, w.taken)
    {
      assert Earned(acks[i], w.start, w.history.ring.next);
      SentNames(w.acksSent, j, i);
      assert RangeOf(ps[i]) in Sent(w.acksSent);
    }
  }

  lemma SlideByRange(window: W.Window, first: nat, ranges: seq<(nat, nat)>)
    requires ByRange(window, first, ranges)
    ensures ByRange(W.ConsumeAcks(window).0, first, ranges)
  {
    var window' := W.ConsumeAcks(window).0;
    W.FrontierCorrect(window.acked, window.smallest);
    forall k | 0 <= k < |ranges|
      ensures Whole(window', ranges[k])
    {
      SlideWhole(window, ranges[k]);
    }
  }

  lemma SlideWhole(window: W.Window, range: (nat, nat))
    requires Whole(window, range)
    ensures Whole(W.ConsumeAcks(window).0, range)
  {
    W.FrontierCorrect(window.acked, window.smallest);
    var f := W.Frontier(window.acked, window.smallest);
    if window.smallest <= range.0 < f && range.1 > 0 {
      assert range.0 in window.acked;
      assert !Inside(range, f);
    }
  }

  // ---- every step keeps it ----

  lemma AckStepCadent(w: World, e: AckEvent)
    requires Transfer.Inv(w) && Cadent(w) && AckStep(w, e).Some?
    ensures Cadent(AckStep(w, e).value)
  {
    var ranges := Triggered(w.start, w.taken);
    match e
    case SendAcks(drained) => SendNames(w.acksSent, w.acks, Min(drained, A.Fit(0)));
    case ArriveAcks(j) =>
      TriggeredSeparated(w.start, w.taken);
      ArrivingRanges(w, j);
      AckAllByRange(w.window, w.start, ranges, Received(AckDatagram(w.pipe.conn, w.acksSent[j])));
    case SlideWindow => SlideByRange(w.window, w.start, ranges);
  }

  lemma SenderCadent(w: World, e: SenderEvent)
    requires Transfer.Inv(w) && Cadent(w) && SenderStep(w, e).Some?
    ensures Cadent(SenderStep(w, e).value) && SenderStep(w, e).value.taken == w.taken
  {
    SenderKeepsInv(w, e);
    SenderFrame(w, e);
  }

  lemma ArrivalCadent(w: World, e: ArrivalEvent)
    requires |w.history.ring.slots| == CAPACITY && Cadent(w) && ArrivalStep(w, e).Some?
    ensures Cadent(ArrivalStep(w, e).value) && ArrivalStep(w, e).value.taken == w.taken
  {
    ArrivalFrame(w, e);
  }

  lemma ReaderCadent(w: World, e: ReaderEvent)
    requires Transfer.Inv(w) && Cadent(w) && ReaderStep(w, e).Some?
    ensures Cadent(ReaderStep(w, e).value) && w.taken <= ReaderStep(w, e).value.taken
  {
    if e.ConsumeNow? {
      ConsumeCounted(w, w.reader.call);
      ConsumeByRange(w, w.reader.call);
    } else {
      ReaderFrame(w, e);
    }
  }

  lemma HappenCadent(w: World, e: Happening)
    requires Transfer.Inv(w) && Cadent(w) && Happen(w, e).Some?
    ensures Cadent(Happen(w, e).value) && w.taken <= Happen(w, e).value.taken
  {
    match e
    case AtSender(sender) => SenderCadent(w, sender);
    case Arrives(arrival) => ArrivalCadent(w, arrival);
    case AtReader(reader) => ReaderCadent(w, reader);
    case OfAcks(ack) => AckStepCadent(w, ack); AckFrame(w, ack);
  }

  lemma {:induction false} EveryRunCadent(w: World, trace: seq<Happening>)
    requires Transfer.Inv(w) && Cadent(w) && Transfer.Run(w, trace).Some?
    ensures Transfer.Inv(Transfer.Run(w, trace).value) && Cadent(Transfer.Run(w, trace).value)
    ensures w.taken <= Transfer.Run(w, trace).value.taken && Transfer.Run(w, trace).value.start == w.start
    decreases |trace|
  {
    if trace != [] {
      HappenKeepsInv(w, trace[0]);
      HappenCadent(w, trace[0]);
      EveryRunCadent(Happen(w, trace[0]).value, trace[1..]);
    }
  }

  lemma InitCadent(conn: P.Conn, callers: nat)
    ensures Cadent(Transfer.Init(conn, callers, conn.first))
  {
  }

  lemma ReachableCadent(w: World, conn: P.Conn, callers: nat)
    requires Reachable(w, conn, callers, conn.first)
    ensures Transfer.Inv(w) && Cadent(w) && w.pipe.conn == conn && w.start == conn.first
  {
    var w0 := Transfer.Init(conn, callers, conn.first);
    var trace :| Transfer.Run(w0, trace) == Some(w);
    Transfer.InitInv(conn, callers, conn.first);
    InitCadent(conn, callers);
    EveryRunCadent(w0, trace);
    ReachableInv(w, conn, callers, conn.first);
  }

  /** Over every run: the acks ever queued, in order, are those of the reads that brought the
      count since the last ack to two hundred, each naming the packets of that read alone. */
  lemma AcksExactly(w: World, conn: P.Conn, callers: nat)
    requires Reachable(w, conn, callers, conn.first)
    ensures Sent(w.acksSent) + Names(w.acks) == Triggered(conn.first, w.taken)
    ensures w.history.ring.next == conn.first + Sum(w.taken)
  {
    ReachableCadent(w, conn, callers);
  }

  // ---- which reads are acknowledged ----

  lemma {:induction false} SumOrder(taken: seq<nat>, i: nat, j: nat)
    requires i < j <= |taken|
    ensures Sum(taken[..i]) + taken[i] <= Sum(taken[..j])
    decreases j
  {
    assert taken[..j][..j - 1] == taken[..j - 1];
    if i < j - 1 {
      SumOrder(taken, i, j - 1);
    }
  }

  lemma {:induction false} TriggeredAt(first: nat, taken: seq<nat>, k: nat) returns (j: nat)
    requires k < |Triggered(first, taken)|
    ensures j < |taken| && Triggers(first, taken[..j], taken[j])
    ensures Triggered(first, taken)[k] == (Base(first, taken[..j]), taken[j])
    decreases |taken|
  {
    var n := |taken| - 1;
    if k < |Triggered(first, taken[..n])| {
      j := TriggeredAt(first, taken[..n], k);
      assert taken[..n][..j] == taken[..j];
    } else {
      j := n;
    }
  }

  lemma {:induction false} TriggeredHas(first: nat, taken: seq<nat>, j: nat)
    requires j < |taken| && Triggers(first, taken[..j], taken[j])
    ensures (Base(first, taken[..j]), taken[j]) in Triggered(first, taken)
    decreases |taken|
  {
    var n := |taken| - 1;
    if j < n {
      assert taken[..n][..j] == taken[..j];
      TriggeredHas(first, taken[..n], j);
    }
  }

  /** A read whose first packet is acknowledged was acknowledged itself. */
  lemma NamedTriggers(first: nat, taken: seq<nat>, i: nat)
    requires i < |taken| && taken[i] > 0 && Named(Triggered(first, taken), Base(first, taken[..i]))
    ensures Triggers(first, taken[..i], taken[i])
  {
    var k :| 0 <= k < |Triggered(first, taken)| && Inside(Triggered(first, taken)[k], Base(first, taken[..i]));
    var j := TriggeredAt(first, taken, k);
    if i < j {
      SumOrder(taken, i, j);
    } else if j < i {
      SumOrder(taken, j, i);
    }
  }

  /** The first reads are all acknowledged exactly if each is large enough by itself. */
  ghost predicate AllLarge(first: nat, taken: seq<nat>, m: nat)
    requires m <= |taken|
  {
    (m > 0 ==> first != 0) && forall i :: 0 <= i < m ==> taken[i] >= ACK_EVERY
  }

  lemma BaseNext(first: nat, taken: seq<nat>, m: nat)
    requires m < |taken|
    ensures Base(first, taken[..m + 1]) == Base(first, taken[..m]) + taken[m]
  {
    assert taken[..m + 1][..m] == taken[..m];
  }

  lemma CarryNext(first: nat, taken: seq<nat>, m: nat)
    requires m < |taken|
    ensures Carry(first, taken[..m + 1])
            == if Triggers(first, taken[..m], taken[m]) then 0 else Carry(first, taken[..m]) + taken[m]
  {
    SnocReads(first, taken[..m], taken[m]);
    assert taken[..m] + [taken[m]] == taken[..m + 1];
  }

  lemma {:induction false} AllTriggered(first: nat, taken: seq<nat>, m: nat)
    requires m <= |taken| && forall i :: 0 <= i < m ==> Triggers(first, taken[..i], taken[i])
    ensures AllLarge(first, taken, m) && Carry(first, taken[..m]) == 0
    decreases m
  {
    if m > 0 {
      AllTriggered(first, taken, m - 1);
      CarryNext(first, taken, m - 1);
      assert Triggers(first, taken[..m - 1], taken[m - 1]);
      if m == 1 {
        assert taken[..0] == [];
      }
    }
  }

  lemma {:induction false} LargeTriggers(first: nat, taken: seq<nat>, m: nat)
    requires m < |taken| && AllLarge(first, taken, m + 1)
    ensures Triggers(first, taken[..m], taken[m])
    decreases m
  {
    if m > 0 {
      LargeTriggers(first, taken, m - 1);
      CarryNext(first, taken, m - 1);
    }
  }

  // ---- exactly how far the window moves ----

  lemma PassedNeedsLarge(window: W.Window, first: nat, taken: seq<nat>, m: nat)
    requires ByRange(window, first, Triggered(first, taken)) && forall i :: 0 <= i < |taken| ==> taken[i] > 0
    requires m < |taken| && Base(first, taken[..m]) < window.smallest
    ensures AllLarge(first, taken, m + 1)
  {
    forall i | 0 <= i < m + 1
      ensures Triggers(first, taken[..i], taken[i])
    {
      if i < m {
        SumOrder(taken, i, m);
      }
      assert Named(Triggered(first, taken), Base(first, taken[..i]));
      NamedTriggers(first, taken, i);
    }
    AllTriggered(first, taken, m + 1);
  }

  lemma {:induction false} AckAllGrows(window: W.Window, ps: seq<Packet>)
    ensures AckAll(window, ps).smallest == window.smallest && window.acked <= AckAll(window, ps).acked
    decreases |ps|
  {
    if ps != [] {
      W.RangeGrows(window, ps[0].header.packetNumber, ps[0].header.typeSpecific);
      AckAllGrows(W.InsertRange(window, ps[0].header.packetNumber, ps[0].header.typeSpecific).0, ps[1..]);
    }
  }

  /** A range that starts where the window does is inserted at least there. */
  lemma RangeInsertsBase(window: W.Window, count: nat)
    requires 0 < count <= W.MAX_WINDOW
    ensures window.smallest in W.InsertRange(window, window.smallest, count).0.acked
  {
    var base := window.smallest;
    W.RangeIsLoop(window, base, count);
    if W.InsertOne(window, base).1 == W.Done {
      W.EachGrows(W.InsertOne(window, base).0, base + 1, count - 1);
    }
  }

  lemma {:induction false} AckAllInserts(window: W.Window, ps: seq<Packet>, i: nat)
    requires i < |ps| && ps[i].header.packetNumber == window.smallest && 0 < ps[i].header.typeSpecific <= W.MAX_WINDOW
    ensures window.smallest in AckAll(window, ps).acked
    decreases |ps|
  {
    var base, count := ps[0].header.packetNumber, ps[0].header.typeSpecific;
    var window' := W.InsertRange(window, base, count).0;
    W.RangeGrows(window, base, count);
    if i == 0 {
      RangeInsertsBase(window, count);
      AckAllGrows(window', ps[1..]);
    } else {
      AckAllInserts(window', ps[1..], i - 1);
    }
  }

  /** The window after an ack datagram has arrived and the window has slid. */
  function Moved(w: World, j: nat): W.Window
    requires j < |w.acksSent|
  {
    W.ConsumeAcks(AckAll(w.window, Received(AckDatagram(w.pipe.conn, w.acksSent[j])))).0
  }

  lemma DeliveryInserts(window: W.Window, conn: P.Conn, acks: seq<A.AckData>, i: nat)
    requires i < |acks| && acks[i].base == window.smallest && 0 < acks[i].count <= CAPACITY
    ensures var window' := AckAll(window, Received(AckDatagram(conn, acks)));
            window'.smallest == window.smallest && window.smallest in window'.acked
  {
    var ps := A.AckPackets(conn.dst, conn.src, acks);
    A.AckDatagramParses(conn.dst, conn.src, acks);
    AckAllInserts(window, ps, i);
    AckAllGrows(window, ps);
  }

  lemma SentRange(w: World, j: nat, i: nat)
    requires Transfer.Inv(w) && Cadent(w) && j < |w.acksSent| && i < |w.acksSent[j]|
    ensures w.acksSent[j][i].count <= CAPACITY
    ensures Whole(AckStep(w, ArriveAcks(j)).value.window, (w.acksSent[j][i].base as nat, w.acksSent[j][i].count))
  {
    assert Earned(w.acksSent[j][i], w.start, w.history.ring.next);
    SentNames(w.acksSent, j, i);
    assert (w.acksSent[j][i].base as nat, w.acksSent[j][i].count) in Triggered(w.start, w.taken);
    AckStepCadent(w, ArriveAcks(j));
  }

  /** An ack datagram on the wire that names the start of the window need only arrive. */
  lemma DeliveryPasses(w: World, j: nat, i: nat)
    requires Transfer.Inv(w) && Cadent(w) && j < |w.acksSent| && i < |w.acksSent[j]|
    requires w.acksSent[j][i].base == w.window.smallest && w.acksSent[j][i].count > 0
    ensures Moved(w, j).smallest >= w.window.smallest + w.acksSent[j][i].count
  {
    SentRange(w, j, i);
    DeliveryInserts(w.window, w.pipe.conn, w.acksSent[j], i);
    WholePasses(AckStep(w, ArriveAcks(j)).value.window, (w.acksSent[j][i].base as nat, w.acksSent[j][i].count));
  }

  lemma WholePasses(window: W.Window, range: (nat, nat))
    requires Whole(window, range) && range.0 == window.smallest && range.1 > 0 && range.0 in window.acked
    ensures W.ConsumeAcks(window).0.smallest >= range.0 + range.1
  {
    W.FrontierCorrect(window.acked, window.smallest);
    assert !Inside(range, W.Frontier(window.acked, window.smallest));
  }

  lemma {:induction false} SentAt(acksSent: seq<seq<A.AckData>>, range: (nat, nat)) returns (j: nat, i: nat)
    requires range in Sent(acksSent)
    ensures j < |acksSent| && i < |acksSent[j]|
    ensures (acksSent[j][i].base as nat, acksSent[j][i].count) == range
    decreases |acksSent|
  {
    var n := |acksSent| - 1;
    if range in Sent(acksSent[..n]) {
      j, i := SentAt(acksSent[..n], range);
    } else {
      j := n;
      i :| 0 <= i < |Names(acksSent[n])| && Names(acksSent[n])[i] == range;
    }
  }

  lemma DeliverAndSlide(w: World, j: nat) returns (trace: seq<Happening>, w': World)
    requires |w.history.ring.slots| == CAPACITY && j < |w.acksSent|
    ensures Transfer.Run(w, trace) == Some(w')
    ensures w' == w.(window := Moved(w, j), largest := w'.largest)
  {
    var w1 := AckStep(w, ArriveAcks(j)).value;
    w' := AckStep(w1, SlideWindow).value;
    trace := [OfAcks(ArriveAcks(j)), OfAcks(SlideWindow)];
    assert trace[1..] == [OfAcks(SlideWindow)] && trace[1..][1..] == [];
    assert Happen(w, trace[0]) == Some(w1);
    assert Transfer.Run(w1, trace[1..]) == Some(w');
  }

  /** The window can pass a read that was acknowledged, once it has come so far. */
  lemma PassRead(w: World, m: nat) returns (trace: seq<Happening>, w': World)
    requires Transfer.Inv(w) && Cadent(w) && w.acks == [] && m < |w.taken| && AllLarge(w.start, w.taken, m + 1)
    requires w.window.smallest >= Base(w.start, w.taken[..m])
    ensures Transfer.Run(w, trace) == Some(w') && w' == w.(window := w'.window, largest := w'.largest)
    ensures w'.window.smallest >= Base(w.start, w.taken[..m + 1])
  {
    BaseNext(w.start, w.taken, m);
    var range := (Base(w.start, w.taken[..m]), w.taken[m]);
    LargeTriggers(w.start, w.taken, m);
    TriggeredHas(w.start, w.taken, m);
    if w.window.smallest >= range.0 + range.1 {
      trace, w' := [], w;
    } else {
      assert Whole(w.window, range);
      assert Sent(w.acksSent) + [] == Sent(w.acksSent);
      var j, i := SentAt(w.acksSent, range);
      DeliveryPasses(w, j, i);
      trace, w' := DeliverAndSlide(w, j);
    }
  }

  lemma {:induction false} PassReads(w: World, m: nat) returns (trace: seq<Happening>, w': World)
    requires Transfer.Inv(w) && Cadent(w) && w.acks == [] && m <= |w.taken| && AllLarge(w.start, w.taken, m)
    ensures Transfer.Run(w, trace) == Some(w') && w' == w.(window := w'.window, largest := w'.largest)
    ensures w'.window.smallest >= Base(w.start, w.taken[..m])
    decreases m
  {
    if m == 0 {
      trace, w' := [], w;
    } else {
      var before, w1 := PassReads(w, m - 1);
      EveryRunCadent(w, before);
      var after;
      after, w' := PassRead(w1, m - 1);
      trace := before + after;
      RunAppend(w, before, after);
    }
  }

  /** All queued acks can be sent. */
  lemma {:induction false} SendAll(w: World) returns (trace: seq<Happening>, w': World)
    requires |w.history.ring.slots| == CAPACITY
    ensures Transfer.Run(w, trace) == Some(w') && w'.acks == [] && w' == w.(acks := [], acksSent := w'.acksSent)
    decreases |w.acks|
  {
    if w.acks == [] {
      trace, w' := [], w;
    } else {
      var e := OfAcks(SendAcks(|w.acks|));
      var w1 := Happen(w, e).value;
      var rest;
      rest, w' := SendAll(w1);
      trace := [e] + rest;
      assert trace[1..] == rest;
    }
  }

  /** The window has passed packet `x`, or some continuation makes it. */
  ghost predicate CanPass(w: World, x: nat)
    requires |w.history.ring.slots| == CAPACITY
  {
    exists trace :: Transfer.Run(w, trace).Some? && Transfer.Run(w, trace).value.window.smallest > x
  }

  lemma LargePasses(w: World, m: nat, x: nat)
    requires Transfer.Inv(w) && Cadent(w) && m <= |w.taken| && AllLarge(w.start, w.taken, m)
    requires x < Base(w.start, w.taken[..m])
    ensures CanPass(w, x)
  {
    var trace, w1 := SendAll(w);
    EveryRunCadent(w, trace);
    var more, w2 := PassReads(w1, m);
    RunAppend(w, trace, more);
    assert Transfer.Run(w, trace + more).Some?;
  }

  lemma CadentNeedsLarge(w: World, taken: seq<nat>, m: nat)
    requires Cadent(w) && taken <= w.taken && m < |taken| && Base(w.start, taken[..m]) < w.window.smallest
    ensures AllLarge(w.start, taken, m + 1)
  {
    assert w.taken[..m] == taken[..m];
    PassedNeedsLarge(w.window, w.start, w.taken, m);
  }

  lemma OnlyLargePass(w: World, m: nat, x: nat, trace: seq<Happening>)
    requires Transfer.Inv(w) && Cadent(w) && m < |w.taken| && Base(w.start, w.taken[..m]) <= x
    requires Transfer.Run(w, trace).Some? && Transfer.Run(w, trace).value.window.smallest > x
    ensures AllLarge(w.start, w.taken, m + 1)
  {
    EveryRunCadent(w, trace);
    CadentNeedsLarge(Transfer.Run(w, trace).value, w.taken, m);
  }

  lemma PassedIff(w: World, m: nat, x: nat)
    requires Transfer.Inv(w) && Cadent(w) && m < |w.taken|
    requires Base(w.start, w.taken[..m]) <= x < Base(w.start, w.taken[..m + 1])
    ensures CanPass(w, x) <==> AllLarge(w.start, w.taken, m + 1)
  {
    if CanPass(w, x) {
      var trace :| Transfer.Run(w, trace).Some? && Transfer.Run(w, trace).value.window.smallest > x;
      OnlyLargePass(w, m, x, trace);
    }
    if AllLarge(w.start, w.taken, m + 1) {
      LargePasses(w, m + 1, x);
    }
  }

  /** Over every run, for every packet that has been read: the sender's window can still pass
      it, or has passed it, if and only if the first number is not zero and every read so far,
      up to and with the one that took it, took at least two hundred packets. Otherwise the
      window never passes it, whatever happens. */
  lemma PassedExactly(w: World, conn: P.Conn, callers: nat, m: nat, x: nat)
    requires Reachable(w, conn, callers, conn.first) && m < |w.taken|
    requires Base(conn.first, w.taken[..m]) <= x < Base(conn.first, w.taken[..m + 1])
    ensures CanPass(w, x) <==> conn.first != 0 && forall i :: 0 <= i <= m ==> w.taken[i] >= ACK_EVERY
  {
    ReachableCadent(w, conn, callers);
    PassedIff(w, m, x);
  }

  lemma FirstTaken(w: World, conn: P.Conn, callers: nat)
    requires Reachable(w, conn, callers, conn.first) && w.taken != []
    ensures Base(conn.first, w.taken[..0]) == conn.first < Base(conn.first, w.taken[..1])
  {
    ReachableCadent(w, conn, callers);
    BaseNext(conn.first, w.taken, 0);
  }

  /** In particular the window moves at all exactly if the first read was large. */
  lemma WindowMovesExactly(w: World, conn: P.Conn, callers: nat)
    requires Reachable(w, conn, callers, conn.first) && w.taken != []
    ensures CanPass(w, conn.first) <==> w.taken[0] >= ACK_EVERY && conn.first != 0
  {
    FirstTaken(w, conn, callers);
    PassedExactly(w, conn, callers, 0, conn.first);
  }
}
