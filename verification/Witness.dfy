/** Concrete runs of a transfer. */
module Witness {
  import opened Bytes
  import opened Packetizer
  import opened Ring
  import opened RingRuns
  import opened Transfer
  import opened Delivery
  import opened Ending
  import P = Pipeline
  import C = Cadence

  // ---- one byte, sent and flushed ----

  function Lift(trace: seq<P.Event>): seq<Happening> {
    if trace == [] then [] else [AtSender(Writer(trace[0]))] + Lift(trace[1..])
  }

  lemma {:induction false} LiftRun(w: World, trace: seq<P.Event>)
    requires |w.history.ring.slots| == CAPACITY && P.Run(w.pipe, trace).Some?
    requires forall i :: 0 <= i < |trace| ==> !trace[i].MarkClosed? && !trace[i].Reserve?
    ensures Transfer.Run(w, Lift(trace)) == Some(w.(pipe := P.Run(w.pipe, trace).value))
    decreases |trace|
  {
    if trace != [] {
      var w1 := w.(pipe := P.Step(w.pipe, trace[0]).value);
      RunFirst(w, AtSender(Writer(trace[0])), w1, Lift(trace[1..]));
      LiftRun(w1, trace[1..]);
    }
  }

  /** A new connection on which one byte has been sent and flushed, and nothing has arrived. */
  ghost predicate OneByteOut(w: World, conn: P.Conn) {
    && Reachable(w, conn, 1, conn.first)
    && w.history == Start(conn.first) && w.reader == Free && w.acks == [] && w.acksSent == []
    && w.consumed == 0 && w.taken == []
    && w.pipe.groups == [[[7]]] && |w.pipe.wire| == 1 && w.pipe.accepted == [[7]] && w.pipe.pending == 0
    && P.WireBytes(w.pipe.wire) == [7]
  }

  lemma SendTraceIsOpen()
    ensures forall i :: 0 <= i < |P.SEND_TRACE| ==> !P.SEND_TRACE[i].MarkClosed? && !P.SEND_TRACE[i].Reserve?
  {
  }

  lemma SentByte(conn: P.Conn) returns (w: World)
    requires conn.first + MAX_PACKETS < U64_LIMIT
    ensures P.Run(P.Init(conn, 1), P.SEND_TRACE).Some?
    ensures w == Transfer.Init(conn, 1, conn.first).(pipe := P.Run(P.Init(conn, 1), P.SEND_TRACE).value)
    ensures Reachable(w, conn, 1, conn.first)
  {
    var w0 := Transfer.Init(conn, 1, conn.first);
    P.FlushedYetStale(conn);
    SendTraceIsOpen();
    LiftRun(w0, P.SEND_TRACE);
    w := w0.(pipe := P.Run(w0.pipe, P.SEND_TRACE).value);
    assert Transfer.Run(w0, Lift(P.SEND_TRACE)) == Some(w);
  }

  lemma SendOneByte(conn: P.Conn) returns (w: World)
    requires conn.first + MAX_PACKETS < U64_LIMIT
    ensures OneByteOut(w, conn) && !w.fin && w.closes == [Open] && w.eofs == [] && w.window.smallest == conn.first
  {
    P.FlushedYetStale(conn);
    w := SentByte(conn);
    assert w.closes == [Open];
  }

  lemma Then(w: World, conn: P.Conn, e: Happening, w': World)
    requires Reachable(w, conn, 1, conn.first) && Happen(w, e) == Some(w')
    ensures Reachable(w', conn, 1, conn.first)
  {
    RunFirst(w, e, w', []);
    ReachableThen(w, conn, 1, conn.first, [e] + [], w');
  }

  /** The close call runs, and its Fin arrives ahead of the data. */
  lemma CloseAndArrive(w: World, conn: P.Conn) returns (w': World)
    requires OneByteOut(w, conn) && w.closes == [Open]
    ensures OneByteOut(w', conn) && w'.fin && w'.pipe.closed && w'.pipe.reserved && w'.eofs == w.eofs
  {
    var w1 := w.(closes := [Flushed]);
    assert w.closes[0 := Flushed] == [Flushed];
    Then(w, conn, AtSender(Closer(0, SeeFlushed)), w1);
    var w2 := w1.(pipe := P.Step(w1.pipe, P.MarkClosed).value, closes := [Forbidden]);
    assert w1.closes[0 := Forbidden] == [Forbidden];
    Then(w1, conn, AtSender(Closer(0, Forbid)), w2);
    var w3 := w2.(pipe := P.Step(w2.pipe, P.Reserve).value, closes := [Numbered]);
    assert w2.closes[0 := Numbered] == [Numbered];
    Then(w2, conn, AtSender(Closer(0, Number)), w3);
    var w4 := w3.(finSent := true);
    Then(w3, conn, AtSender(Closer(0, SendFin)), w4);
    w' := w4.(fin := true);
    Then(w4, conn, Arrives(ArriveFin), w');
  }

  lemma FirstGroupParses(conn: P.Conn, groups: seq<seq<seq<byte>>>, wire: seq<seq<byte>>, outgoing: seq<(seq<byte>, nat)>)
    requires P.WireInv(conn, groups, wire, outgoing) && wire != [] && groups != []
    ensures Received(wire[0]) == DataPackets(conn.src, conn.dst, conn.first, groups[0])
  {
    P.WireParsesTo(conn, groups, wire, outgoing, 0);
    assert groups[..0] == [];
  }

  lemma OneByteParses(w: World, conn: P.Conn)
    requires OneByteOut(w, conn)
    ensures Received(w.pipe.wire[0]) == DataPackets(conn.src, conn.dst, conn.first, [[7]])
  {
    ReachableInv(w, conn, 1, conn.first);
    FirstGroupParses(conn, [[[7]]], w.pipe.wire, P.Outgoing(w.pipe));
  }

  lemma OneByteArrived(h: History, first: u64, src: u32, dst: u32)
    requires h == Start(first)
    ensures var h' := ArriveAll(h, DataPackets(src, dst, first, [[7]]));
            first in h'.accepted && h'.ring.carry.None?
  {
    var ps := DataPackets(src, dst, first, [[7]]);
    DataPacketAt(src, dst, first, [[7]], 0);
    assert ps[1..] == [];
    assert ArriveAll(h, ps) == Step(h, Arrive(ps[0]));
  }

  lemma AllSent(w: World, conn: P.Conn)
    requires OneByteOut(w, conn)
    ensures w.pipe.conn == conn
    ensures Concat(P.Unpacked(w.pipe)) == [] && Packets(w.pipe) == [[7]] && Concat([[7]]) == [7]
  {
    ReachableBytes(w, conn, 1, conn.first);
    P.OneByteTaken();
    assert P.Flatten([[[7]]]) == P.Flatten([]) + [[7]];
  }

  lemma AcceptedAll(pipe: P.Pipe, accepted: map<nat, seq<byte>>)
    requires Concat(P.Unpacked(pipe)) == [] && |Packets(pipe)| == 1 && pipe.conn.first in accepted
    ensures AllArrived(pipe, accepted)
  {
  }

  lemma ArrivalAccepts(w: World, conn: P.Conn)
    requires OneByteOut(w, conn)
    ensures var h := ArriveAll(w.history, Received(w.pipe.wire[0]));
            AllArrived(w.pipe, h.accepted) && h.out == [] && h.ring.next == conn.first && h.ring.carry.None?
  {
    OneByteParses(w, conn);
    OneByteArrived(w.history, conn.first, conn.src, conn.dst);
    ArrivalLeaves(w.history, Received(w.pipe.wire[0]));
    AllSent(w, conn);
    AcceptedAll(w.pipe, ArriveAll(w.history, Received(w.pipe.wire[0])).accepted);
  }

  /** Its datagram arrives. */
  lemma DataArrives(w: World, conn: P.Conn) returns (w': World)
    requires OneByteOut(w, conn)
    ensures Reachable(w', conn, 1, conn.first) && AllArrived(w'.pipe, w'.history.accepted)
    ensures w' == w.(history := w'.history) && w'.history.out == [] && w'.history.ring.next == conn.first
    ensures w'.history.ring.carry.None?
    ensures Complete(w', conn, [[7]]) && Concat([[7]]) == [7]
  {
    w' := w.(history := ArriveAll(w.history, Received(w.pipe.wire[0])));
    Then(w, conn, Arrives(ArriveData(0)), w');
    ArrivalAccepts(w, conn);
    AllSent(w, conn);
    ReachableComplete(w', conn, 1);
  }

  lemma ArrivedIsReady(w: World, conn: P.Conn)
    requires Complete(w, conn, [[7]]) && w.history.out == [] && Concat([[7]]) == [7]
    ensures Peek(w.history.ring)
  {
    if !Peek(w.history.ring) {
      CompletePrefix(w, conn, [[7]]);
    }
  }

  /** A read of one byte then returns it. */
  lemma ByteIsRead(w: World, conn: P.Conn)
    requires Complete(w, conn, [[7]]) && w.history.out == [] && Concat([[7]]) == [7] && Peek(w.history.ring)
    ensures ConsumeStep(w, Into(1)).history.out == [7]
  {
    ReadExtends(w, conn, [[7]], Into(1));
    assert ConsumeStep(w, Into(1)).history == Step(w.history, ReadInto(1));
  }

  /** A read before any Fin has arrived. */
  lemma QuietRead(w: World, conn: P.Conn, call: Call) returns (w': World)
    requires Reachable(w, conn, 1, conn.first) && w.reader.Free? && !w.fin && Peek(w.history.ring)
    ensures Reachable(w', conn, 1, conn.first) && w' == ConsumeStep(w, call)
  {
    var w1, w2 := w.(reader := Polled(call)), w.(reader := Consuming(call));
    Then(w, conn, AtReader(Poll(call)), w1);
    Then(w1, conn, AtReader(LoadFlag), w2);
    w' := ConsumeStep(w2, call);
    Then(w2, conn, AtReader(ConsumeNow), w');
    assert ConsumeStep(w2, call) == ConsumeStep(w, call);
  }

  // ---- an empty read can panic ----

  /** One byte is sent and arrives, and a read into an empty buffer panics, though the
      reader was told there is data. */
  lemma EmptyReadPanics(conn: P.Conn) returns (w: World, w': World)
    requires conn.first + MAX_PACKETS < U64_LIMIT
    ensures Reachable(w, conn, 1, conn.first) && w.reader.Free? && Peek(w.history.ring)
    ensures Reachable(w', conn, 1, conn.first) && w' == ConsumeStep(w, Into(0)) && w'.reader == Panicked(Into(0))
  {
    var w0 := SendOneByte(conn);
    w := DataArrives(w0, conn);
    ArrivedIsReady(w, conn);
    w' := QuietRead(w, conn, Into(0));
    ReachableBytes(w, conn, 1, conn.first);
    FailedUnwrapExactly(w, 0);
  }

  // ---- a Fin can overtake data ----

  /** What can go wrong: a byte is sent and flushed, the connection is closed, and the Fin
      arrives first. A read then reports the end of the stream, with nothing read; the
      datagram arrives, and the next read returns the byte after all. */
  lemma EofBeforeData(conn: P.Conn) returns (w: World, w': World, w'': World)
    requires conn.first + MAX_PACKETS < U64_LIMIT
    ensures OneByteOut(w, conn) && w.fin && w.pipe.closed && w.pipe.reserved && w.eofs == []
    ensures Reachable(w', conn, 1, conn.first) && w' == AfterCall(w, Into(1))
    ensures w'.eofs == [0] && w'.history.out == []
    ensures Reachable(w'', conn, 1, conn.first) && w''.eofs == [0] && w''.history.out == [7]
  {
    w := SendOneByte(conn);
    w := CloseAndArrive(w, conn);
    w' := EofReported(w, conn);
    w'' := LateRead(w', conn);
  }

  lemma EofReported(w: World, conn: P.Conn) returns (w': World)
    requires OneByteOut(w, conn) && w.fin
    ensures OneByteOut(w', conn) && w' == AfterCall(w, Into(1)) && w' == w.(eofs := w.eofs + [0])
  {
    assert !Peek(w.history.ring);
    CallRuns(w, Into(1));
    w' := AfterCall(w, Into(1));
    ReachableThen(w, conn, 1, conn.first, CallSteps(false, Into(1)), w');
  }

  lemma LateRead(w: World, conn: P.Conn) returns (w': World)
    requires OneByteOut(w, conn) && w.fin
    ensures Reachable(w', conn, 1, conn.first) && w'.eofs == w.eofs && w'.history.out == [7]
  {
    var w1 := DataArrives(w, conn);
    ArrivedIsReady(w1, conn);
    ByteIsRead(w1, conn);
    CallRuns(w1, Into(1));
    w' := AfterCall(w1, Into(1));
    ReachableThen(w1, conn, 1, conn.first, CallSteps(true, Into(1)), w');
  }

  // ---- a small first read is never acknowledged ----

  /** The one-byte read takes one packet, and queues no ack. */
  lemma ByteIsCounted(w: World, conn: P.Conn, w': World)
    requires Complete(w, conn, [[7]]) && Concat([[7]]) == [7] && |Packets(w.pipe)| == 1 && Peek(w.history.ring)
    requires w.history.out == [] && w.history.ring.next == conn.first && w.taken == [] && w.consumed == 0 && w.acks == []
    requires w' == ConsumeStep(w, Into(1)) && Transfer.Inv(w')
    ensures w'.taken == [1] && w'.acks == []
  {
    ByteIsRead(w, conn);
    ReadAdvances(w.history, Into(1));
    ReadExtends(w, conn, [[7]], Into(1));
    DeliveredWerePacked(w.pipe, w'.history, conn.first);
    if w'.history.ring.next == conn.first {
      DeliveredInOrder(w.pipe, w'.history, conn.first);
    }
  }

  /** One byte is sent, arrives and is read. All that was sent has been read, and yet no ack
      has been queued, and however the run goes on the sender's window stays where it was. */
  lemma ReadButNeverAcked(conn: P.Conn) returns (w: World)
    requires conn.first + MAX_PACKETS < U64_LIMIT
    ensures Reachable(w, conn, 1, conn.first)
    ensures w.history.out == Concat(w.pipe.accepted) == [7]
    ensures w.acks == [] && w.acksSent == [] && w.window.smallest == conn.first
    ensures forall trace :: Transfer.Run(w, trace).Some? ==> Transfer.Run(w, trace).value.window.smallest == conn.first
  {
    var w0 := SendOneByte(conn);
    var w1 := DataArrives(w0, conn);
    ArrivedIsReady(w1, conn);
    w := QuietRead(w1, conn, Into(1));
    ByteIsRead(w1, conn);
    AllSent(w0, conn);
    ReadOnce(w1, conn, w);
    C.WindowMovesExactly(w, conn, 1);
    forall trace | Transfer.Run(w, trace).Some?
      ensures Transfer.Run(w, trace).value.window.smallest == conn.first
    {
      ReachableThen(w, conn, 1, conn.first, trace, Transfer.Run(w, trace).value);
      ReachableInv(Transfer.Run(w, trace).value, conn, 1, conn.first);
    }
  }

  lemma ReadOnce(w: World, conn: P.Conn, w': World)
    requires Complete(w, conn, [[7]]) && Concat([[7]]) == [7] && |Packets(w.pipe)| == 1 && Peek(w.history.ring)
    requires w.history.out == [] && w.history.ring.next == conn.first && w.taken == [] && w.consumed == 0 && w.acks == []
    requires w' == ConsumeStep(w, Into(1)) && Reachable(w', conn, 1, conn.first)
    ensures w'.taken == [1] && w'.acks == []
  {
    ReachableInv(w', conn, 1, conn.first);
    ByteIsCounted(w, conn, w');
  }
}
