/** What every run of a transfer guarantees to the reader and to the writer. */
module Delivery {
  import opened Bytes
  import opened Packet
  import opened Packetizer
  import opened Ring
  import opened RingRuns
  import opened Transfer
  import P = Pipeline

  // ---- bytes in order ----

  lemma {:induction false} StreamIsConcat(pieces: seq<seq<byte>>, accepted: map<nat, seq<byte>>, lo: nat, hi: nat)
    requires hi == lo + |pieces|
    requires forall x :: lo <= x < hi ==> x in accepted && accepted[x] == pieces[x - lo]
    ensures Stream(accepted, lo, hi) == Concat(pieces)
    decreases hi
  {
    if lo < hi {
      var front, last := pieces[..|pieces| - 1], pieces[|pieces| - 1];
      StreamIsConcat(front, accepted, lo, hi - 1);
      assert accepted[hi - 1] == last && front + [last] == pieces;
      ConcatSnoc(front, last);
    }
  }

  lemma StreamIsPackets(pipe: P.Pipe, accepted: map<nat, seq<byte>>, lo: nat, hi: nat)
    requires Sourced(pipe, accepted) && pipe.conn.first <= lo <= hi <= pipe.conn.first + |Packets(pipe)|
    requires forall x :: lo <= x < hi ==> x in accepted
    ensures Stream(accepted, lo, hi) == Concat(Packets(pipe)[lo - pipe.conn.first..hi - pipe.conn.first])
  {
    StreamIsConcat(Packets(pipe)[lo - pipe.conn.first..hi - pipe.conn.first], accepted, lo, hi);
  }

  /** The delivered numbers are numbers that were packed. */
  lemma DeliveredWerePacked(pipe: P.Pipe, h: History, start: nat)
    requires RingRuns.Inv(h, start) && Sourced(pipe, h.accepted)
    ensures h.ring.next > start ==>
              pipe.conn.first <= start && h.ring.next <= pipe.conn.first + |Packets(pipe)|
  {
    if h.ring.next > start {
      assert start in h.accepted && h.ring.next - 1 in h.accepted;
    }
  }

  /** The bytes handed to the reader, followed by the carry-over, are the payloads of the
      packets from the receiver's start to its next expected number. */
  lemma DeliveredArePackets(pipe: P.Pipe, h: History, start: nat)
    requires RingRuns.Inv(h, start) && Sourced(pipe, h.accepted)
    requires pipe.conn.first <= start <= pipe.conn.first + |Packets(pipe)|
    ensures h.ring.next <= pipe.conn.first + |Packets(pipe)|
    ensures h.out + CarryBytes(h.ring)
            == Concat(Packets(pipe)[start - pipe.conn.first..h.ring.next - pipe.conn.first])
  {
    DeliveredWerePacked(pipe, h, start);
    StreamIsPackets(pipe, h.accepted, start, h.ring.next);
  }

  lemma ConcatPrefix(a: seq<seq<byte>>, k: nat)
    requires k <= |a|
    ensures Concat(a[..k]) <= Concat(a)
  {
    assert a == a[..k] + a[k..];
    ConcatAppend(a[..k], a[k..]);
  }

  /** With matching starts, the reader has a prefix of what the writer accepted. */
  lemma DeliveredIsPrefix(pipe: P.Pipe, h: History)
    requires P.BytesInv(pipe) && RingRuns.Inv(h, pipe.conn.first) && Sourced(pipe, h.accepted)
    ensures h.out + CarryBytes(h.ring) <= Concat(pipe.accepted)
    ensures h.out <= Concat(pipe.accepted)
  {
    DeliveredArePackets(pipe, h, pipe.conn.first);
    ConcatPrefix(Packets(pipe), h.ring.next - pipe.conn.first);
  }

  /** What has been read is a prefix of what was accepted for sending, if the receiver
      starts at the sender's first number. If it starts later, the packets before its start
      are missing and the rest is in order; if it starts earlier, nothing is delivered. */
  ghost predicate InOrder(pipe: P.Pipe, h: History, start: nat) {
    var first, next, packets := pipe.conn.first, h.ring.next, Packets(pipe);
    && (start == first ==> h.out <= Concat(pipe.accepted))
    && (next > start ==>
          && first <= start <= next <= first + |packets|
          && h.out + CarryBytes(h.ring) == Concat(packets[start - first..next - first]))
    && start <= next
    && (next == start ==> h.out == [])
  }

  lemma DeliveredInOrder(pipe: P.Pipe, h: History, start: nat)
    requires P.BytesInv(pipe) && RingRuns.Inv(h, start) && Sourced(pipe, h.accepted)
    ensures InOrder(pipe, h, start)
  {
    DeliveredWerePacked(pipe, h, start);
    if h.ring.next > start {
      DeliveredArePackets(pipe, h, start);
    }
    if start == pipe.conn.first {
      DeliveredIsPrefix(pipe, h);
    }
  }

  /** Over every interleaving of senders, tasks, network and readers, delivery is in order. */
  lemma EveryRunDeliversInOrder(w: World, conn: P.Conn, callers: nat, start: nat)
    requires Reachable(w, conn, callers, start)
    ensures w.pipe.conn == conn && InOrder(w.pipe, w.history, start)
  {
    ReachableBytes(w, conn, callers, start);
    DeliveredInOrder(w.pipe, w.history, start);
  }

  // ---- acknowledgements ----

  /** Over every run: the sender's ack window has passed only numbers whose payloads have
      left the reassembly buffer towards the reader, and holds no others. */
  lemma EveryAckIsEarned(w: World, conn: P.Conn, callers: nat, start: nat, x: nat)
    requires Reachable(w, conn, callers, start)
    requires x in w.window.acked || conn.first <= x < w.window.smallest
    ensures start <= x < w.history.ring.next && x in w.history.accepted
  {
    ReachableInv(w, conn, callers, start);
  }

  /** Over every run: the largest acknowledged number that is published names a packet whose
      payload, like all before it, has left the reassembly buffer. */
  lemma LargestAckIsEarned(w: World, conn: P.Conn, callers: nat, start: nat)
    requires Reachable(w, conn, callers, start) && w.largest != 0
    ensures conn.first <= w.largest < w.history.ring.next
    ensures forall x :: conn.first <= x <= w.largest ==> start <= x && x in w.history.accepted
  {
    ReachableInv(w, conn, callers, start);
  }

  /** Over every run: the window of a sender whose receiver starts after its first number
      never moves. */
  lemma LateStartFreezesWindow(w: World, conn: P.Conn, callers: nat, start: nat)
    requires Reachable(w, conn, callers, start) && start > conn.first
    ensures w.window.smallest == conn.first
  {
    ReachableInv(w, conn, callers, start);
  }

  // ---- readiness ----

  /** Over every run: a read that is about to consume panics if and only if it is a copying
      read of length zero and nothing is carried over. */
  lemma PanicsExactly(w: World, conn: P.Conn, callers: nat, start: nat)
    requires Reachable(w, conn, callers, start) && w.reader.Consuming?
    ensures ReaderStep(w, ConsumeNow).Some?
    ensures ReaderStep(w, ConsumeNow).value.reader.Panicked? <==>
            w.reader.call == Into(0) && w.history.ring.carry.None?
  {
    ConsumingHasData(w, conn, callers, start);
    ReachableBytes(w, conn, callers, start);
    if w.reader.call.Into? {
      FailedUnwrapExactly(w, w.reader.call.len);
    }
    assert ConsumeStep(w, w.reader.call).reader == AfterRead(w.reader.call, ReadResult(w.history.ring, w.reader.call));
  }

  lemma ConsumingHasData(w: World, conn: P.Conn, callers: nat, start: nat)
    requires Reachable(w, conn, callers, start) && w.reader.Consuming?
    ensures Peek(w.history.ring)
  {
    ReachableInv(w, conn, callers, start);
  }

  // ---- end of stream ----

  /** Everything accepted for sending has been packed, and every packet has arrived. */
  ghost predicate AllArrived(pipe: P.Pipe, accepted: map<nat, seq<byte>>) {
    && Concat(P.Unpacked(pipe)) == []
    && forall x :: pipe.conn.first <= x < pipe.conn.first + |Packets(pipe)| ==> x in accepted
  }

  /** The packets up to the next expected number hold everything accepted for sending
      exactly if they are all there is. */
  lemma WholeExactly(packets: seq<seq<byte>>, rest: seq<byte>, k: nat)
    requires k <= |packets| && forall i :: 0 <= i < |packets| ==> packets[i] != []
    ensures Concat(packets[..k]) == Concat(packets) + rest <==> k == |packets| && rest == []
  {
    assert packets == packets[..k] + packets[k..];
    ConcatAppend(packets[..k], packets[k..]);
    NonEmptyConcat(packets[k..]);
  }

  lemma DrainedExactly(pipe: P.Pipe, h: History)
    requires P.BytesInv(pipe) && RingRuns.Inv(h, pipe.conn.first) && Sourced(pipe, h.accepted)
    requires forall j :: 0 <= j < |pipe.groups| ==> Cut(pipe.groups[j])
    requires h.ring.carry.None?
    ensures h.out == Concat(pipe.accepted) <==>
            h.ring.next == pipe.conn.first + |Packets(pipe)| && Concat(P.Unpacked(pipe)) == []
  {
    DeliveredArePackets(pipe, h, pipe.conn.first);
    P.FlattenNonEmpty(pipe.groups);
    WholeExactly(Packets(pipe), Concat(P.Unpacked(pipe)), h.ring.next - pipe.conn.first);
    assert h.out + [] == h.out;
  }

  /** Over every run: with neither carry-over nor a packet at the head, all that was accepted
      for sending has been handed out if and only if `AllArrived`. */
  lemma NothingToReadExactly(w: World, conn: P.Conn, callers: nat)
    requires Reachable(w, conn, callers, conn.first) && !Peek(w.history.ring)
    ensures w.history.out == Concat(w.pipe.accepted) <==> AllArrived(w.pipe, w.history.accepted)
  {
    ReachableBytes(w, conn, callers, conn.first);
    DrainedExactly(w.pipe, w.history);
    assert w.history.ring.next !in w.history.accepted by {
      assert w.history.ring.slots[0].None?;
    }
    DeliveredArePackets(w.pipe, w.history, conn.first);
  }

  lemma {:induction false} RunLengthIs(slots: seq<Option<Packet>>, k: nat)
    requires k <= |slots| && forall i :: 0 <= i < k ==> slots[i].Some?
    requires k < |slots| ==> slots[k].None?
    ensures RunLength(slots) == k
  {
    if k > 0 {
      RunLengthIs(slots[1..], k - 1);
    }
  }

  lemma AllArrivedRun(pipe: P.Pipe, h: History)
    requires RingRuns.Inv(h, pipe.conn.first) && Sourced(pipe, h.accepted) && AllArrived(pipe, h.accepted)
    ensures pipe.conn.first + |Packets(pipe)| == h.ring.next + RunLength(h.ring.slots)
  {
    var next, end := h.ring.next, pipe.conn.first + |Packets(pipe)|;
    DeliveredArePackets(pipe, h, pipe.conn.first);
    if end > next {
      assert end - 1 in h.accepted;
    }
    RunLengthIs(h.ring.slots, end - next);
  }

  lemma AllArrivedStream(pipe: P.Pipe, accepted: map<nat, seq<byte>>, end: nat)
    requires P.BytesInv(pipe) && Sourced(pipe, accepted) && AllArrived(pipe, accepted)
    requires end == pipe.conn.first + |Packets(pipe)|
    ensures Stream(accepted, pipe.conn.first, end) == Concat(pipe.accepted)
  {
    StreamIsPackets(pipe, accepted, pipe.conn.first, end);
    assert Packets(pipe)[0..|Packets(pipe)|] == Packets(pipe);
    assert Concat(Packets(pipe)) + [] == Concat(Packets(pipe));
  }

  /** Once everything has arrived, what has been read and what can be read without waiting
      make up exactly what was accepted for sending. */
  lemma AllArrivedAvailable(pipe: P.Pipe, h: History)
    requires P.BytesInv(pipe) && RingRuns.Inv(h, pipe.conn.first) && Sourced(pipe, h.accepted)
    requires AllArrived(pipe, h.accepted)
    ensures h.out + Available(h.ring) == Concat(pipe.accepted)
  {
    var end := pipe.conn.first + |Packets(pipe)|;
    AllArrivedRun(pipe, h);
    OutThenAvailable(h, pipe.conn.first, end);
    AllArrivedStream(pipe, h.accepted, end);
  }

  /** `AllArrived` is stable: as long as nothing new is accepted for sending, no step of any
      participant undoes it. */
  lemma AllArrivedStays(w: World, e: Happening)
    requires Transfer.Inv(w) && AllArrived(w.pipe, w.history.accepted)
    requires Happen(w, e).Some? && Happen(w, e).value.pipe.accepted == w.pipe.accepted
    ensures AllArrived(Happen(w, e).value.pipe, Happen(w, e).value.history.accepted)
  {
    match e
    case AtSender(sender) => SenderKeepsArrived(w, sender);
    case Arrives(arrival) => ArrivalFrame(w, arrival);
    case AtReader(reader) => ReaderFrame(w, reader);
    case OfAcks(ack) => AckFrame(w, ack);
  }

  lemma SenderKeepsArrived(w: World, e: SenderEvent)
    requires P.Inv(w.pipe) && AllArrived(w.pipe, w.history.accepted)
    requires SenderStep(w, e).Some? && SenderStep(w, e).value.pipe.accepted == w.pipe.accepted
    ensures AllArrived(SenderStep(w, e).value.pipe, SenderStep(w, e).value.history.accepted)
  {
    var w' := SenderStep(w, e).value;
    SenderFrame(w, e);
    if w'.pipe != w.pipe {
      var event :| P.Step(w.pipe, event) == Some(w'.pipe);
      WriterKeepsArrived(w.pipe, event, w.history.accepted);
    }
  }

  /** With everything packed, nothing more is packed and nothing is unpacked again. */
  lemma StillAllPacked(groups: seq<seq<seq<byte>>>, groups': seq<seq<seq<byte>>>, all: seq<byte>, rest: seq<byte>)
    requires groups' == groups || exists g :: groups' == groups + [g]
    requires forall j :: 0 <= j < |groups'| ==> groups'[j] != [] && Cut(groups'[j])
    requires Concat(P.Flatten(groups)) == all == Concat(P.Flatten(groups')) + rest
    ensures groups' == groups && rest == []
  {
    if groups' != groups {
      var g :| groups' == groups + [g];
      assert groups'[|groups|] == g && groups'[..|groups|] == groups;
      ConcatAppend(P.Flatten(groups), g);
      assert false;
    }
  }

  lemma WriterKeepsArrived(pipe: P.Pipe, e: P.Event, accepted: map<nat, seq<byte>>)
    requires P.Inv(pipe) && AllArrived(pipe, accepted)
    requires P.Step(pipe, e).Some? && P.Step(pipe, e).value.accepted == pipe.accepted
    ensures AllArrived(P.Step(pipe, e).value, accepted)
  {
    var pipe' := P.Step(pipe, e).value;
    P.StepKeepsInv(pipe, e);
    P.StepGrows(pipe, e);
    assert Concat(P.Flatten(pipe.groups)) + [] == Concat(P.Flatten(pipe.groups));
    StillAllPacked(pipe.groups, pipe'.groups, Concat(pipe.accepted), Concat(P.Unpacked(pipe')));
  }
}
