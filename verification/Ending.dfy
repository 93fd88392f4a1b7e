/** The end of the stream: what a reader has been handed whenever a read reports zero, and
    how reads get there. */
module Ending {
  import opened Bytes
  import opened Ring
  import opened RingRuns
  import opened Transfer
  import opened Delivery
  import P = Pipeline
  import D = Drain

  // ---- a Fin comes from a close call ----

  /** Reports of the end follow a Fin that arrived, which follows one that was sent, which
      follows the ban on further sends. */
  ghost predicate FinInv(w: World) {
    && (w.eofs != [] ==> w.fin)
    && (w.fin ==> w.finSent)
    && (w.finSent ==> w.pipe.closed)
    && (forall i :: 0 <= i < |w.closes| && (w.closes[i].Forbidden? || w.closes[i].Numbered?) ==> w.pipe.closed)
  }

  lemma ClosedStays(pipe: P.Pipe, e: P.Event)
    requires P.Step(pipe, e).Some?
    ensures pipe.closed ==> P.Step(pipe, e).value.closed
  {
  }

  lemma SenderKeepsFin(w: World, e: SenderEvent)
    requires FinInv(w) && SenderStep(w, e).Some?
    ensures FinInv(SenderStep(w, e).value)
  {
    if e.Writer? {
      ClosedStays(w.pipe, e.event);
    }
  }

  lemma ReaderKeepsFin(w: World, e: ReaderEvent)
    requires Transfer.Inv(w) && FinInv(w) && ReaderStep(w, e).Some?
    ensures FinInv(ReaderStep(w, e).value)
  {
    ReaderFrame(w, e);
    assert w.reader.EofCheck? ==> w.fin;
  }

  lemma HappenKeepsFin(w: World, e: Happening)
    requires Transfer.Inv(w) && FinInv(w) && Happen(w, e).Some?
    ensures FinInv(Happen(w, e).value)
  {
    match e
    case AtSender(sender) => SenderKeepsFin(w, sender);
    case Arrives(arrival) => ArrivalFrame(w, arrival);
    case AtReader(reader) => ReaderKeepsFin(w, reader);
    case OfAcks(ack) => AckFrame(w, ack);
  }

  lemma {:induction false} EveryRunKeepsFin(w: World, trace: seq<Happening>)
    requires Transfer.Inv(w) && FinInv(w) && Transfer.Run(w, trace).Some?
    ensures FinInv(Transfer.Run(w, trace).value)
    decreases |trace|
  {
    if trace != [] {
      HappenKeepsInv(w, trace[0]);
      HappenKeepsFin(w, trace[0]);
      EveryRunKeepsFin(Happen(w, trace[0]).value, trace[1..]);
    }
  }

  /** Over every run: no read reports the end of the stream before a Fin has arrived, and
      none arrives before a close call has forbidden further sends and sent it. */
  lemma EofNeedsFin(w: World, conn: P.Conn, callers: nat, start: nat)
    requires Reachable(w, conn, callers, start)
    ensures w.eofs != [] ==> w.fin
    ensures w.fin ==> w.finSent && w.pipe.closed
  {
    var w0 := Transfer.Init(conn, callers, start);
    var trace :| Transfer.Run(w0, trace) == Some(w);
    Transfer.InitInv(conn, callers, start);
    EveryRunKeepsFin(w0, trace);
  }

  /** Over every run: a read reports the end of the stream only after a Fin that was sent by
      a close call has arrived, and the report is true, all that was accepted for sending
      having been read, if and only if everything was packed and every packet has arrived. */
  lemma EofTruthfulExactly(w: World, conn: P.Conn, callers: nat, e: Happening)
    requires Reachable(w, conn, callers, conn.first) && Happen(w, e).Some? && Happen(w, e).value.eofs != w.eofs
    ensures w.fin && w.finSent && w.pipe.closed
    ensures Happen(w, e).value.eofs == w.eofs + [|w.history.out|]
    ensures w.history.out == Concat(w.pipe.accepted) <==> AllArrived(w.pipe, w.history.accepted)
  {
    HappenGrows(w, e);
    CheckNeedsFlag(w, conn, callers, conn.first);
    EofNeedsFin(w, conn, callers, conn.first);
    NothingToReadExactly(w, conn, callers);
  }

  lemma CheckNeedsFlag(w: World, conn: P.Conn, callers: nat, start: nat)
    requires Reachable(w, conn, callers, start) && w.reader.EofCheck?
    ensures w.fin
  {
    ReachableInv(w, conn, callers, start);
  }

  // ---- once everything has arrived ----

  lemma HappenGrows(w: World, e: Happening)
    requires |w.history.ring.slots| == CAPACITY && Happen(w, e).Some?
    ensures w.pipe.accepted <= Happen(w, e).value.pipe.accepted
    ensures Happen(w, e).value.eofs == w.eofs || Happen(w, e).value.eofs == w.eofs + [|w.history.out|]
    ensures Happen(w, e).value.eofs != w.eofs ==> !Peek(w.history.ring) && w.reader.EofCheck?
  {
    match e
    case AtSender(sender) =>
      SenderFrame(w, sender);
      if Happen(w, e).value.pipe != w.pipe {
        var event :| P.Step(w.pipe, event) == Some(Happen(w, e).value.pipe);
        P.StepGrows(w.pipe, event);
      }
    case Arrives(arrival) => ArrivalFrame(w, arrival);
    case AtReader(reader) => ReaderFrame(w, reader);
    case OfAcks(ack) => AckFrame(w, ack);
  }

  lemma {:induction false} RunGrows(w: World, trace: seq<Happening>)
    requires |w.history.ring.slots| == CAPACITY && Transfer.Run(w, trace).Some?
    ensures w.pipe.accepted <= Transfer.Run(w, trace).value.pipe.accepted
    ensures w.eofs <= Transfer.Run(w, trace).value.eofs
    decreases |trace|
  {
    if trace != [] {
      HappenGrows(w, trace[0]);
      RunGrows(Happen(w, trace[0]).value, trace[1..]);
    }
  }

  lemma NothingAvailable(r: Ring)
    requires |r.slots| == CAPACITY && !Peek(r)
    ensures Available(r) == []
  {
    assert RunLength(r.slots) == 0;
  }

  /** With everything there and nothing left to read, everything has been read. */
  lemma NothingLeft(w: World)
    requires Transfer.Inv(w) && w.start == w.pipe.conn.first && AllArrived(w.pipe, w.history.accepted)
    requires !Peek(w.history.ring)
    ensures w.history.out == Concat(w.pipe.accepted)
  {
    AllArrivedAvailable(w.pipe, w.history);
    NothingAvailable(w.history.ring);
    assert w.history.out + [] == w.history.out;
  }

  /** The state in which everything has arrived, and stays so. */
  ghost predicate Complete(w: World, conn: P.Conn, sent: seq<seq<byte>>) {
    && Transfer.Inv(w) && w.pipe.conn == conn && w.start == conn.first
    && w.pipe.accepted == sent && AllArrived(w.pipe, w.history.accepted)
  }

  lemma CompleteStays(w: World, conn: P.Conn, sent: seq<seq<byte>>, e: Happening)
    requires Complete(w, conn, sent) && Happen(w, e).Some? && Happen(w, e).value.pipe.accepted == sent
    ensures Complete(Happen(w, e).value, conn, sent)
    ensures Happen(w, e).value.eofs == w.eofs || Happen(w, e).value.eofs == w.eofs + [|Concat(sent)|]
  {
    HappenKeepsInv(w, e);
    AllArrivedStays(w, e);
    HappenGrows(w, e);
    if Happen(w, e).value.eofs != w.eofs {
      NothingLeft(w);
    }
  }

  /** `later` adds reports to `eofs` only at position `n`. */
  ghost predicate AddsAt(eofs: seq<nat>, later: seq<nat>, n: nat) {
    eofs <= later && forall i :: |eofs| <= i < |later| ==> later[i] == n
  }

  lemma AddsOne(eofs: seq<nat>, next: seq<nat>, later: seq<nat>, n: nat)
    requires (next == eofs || next == eofs + [n]) && AddsAt(next, later, n)
    ensures AddsAt(eofs, later, n)
  {
  }

  lemma {:induction false} CompleteForGood(w: World, conn: P.Conn, sent: seq<seq<byte>>, trace: seq<Happening>)
    requires Complete(w, conn, sent) && Transfer.Run(w, trace).Some?
    requires Transfer.Run(w, trace).value.pipe.accepted == sent
    ensures Complete(Transfer.Run(w, trace).value, conn, sent)
    ensures AddsAt(w.eofs, Transfer.Run(w, trace).value.eofs, |Concat(sent)|)
    decreases |trace|
  {
    if trace != [] {
      var w1 := Happen(w, trace[0]).value;
      HappenGrows(w, trace[0]);
      RunGrows(w1, trace[1..]);
      CompleteStays(w, conn, sent, trace[0]);
      CompleteForGood(w1, conn, sent, trace[1..]);
      AddsOne(w.eofs, w1.eofs, Transfer.Run(w1, trace[1..]).value.eofs, |Concat(sent)|);
    }
  }

  /** If everything accepted for sending has arrived before the Fin, then in whatever way the
      run goes on, as long as nothing more is accepted: every read that reports the end of
      the stream does so after all of it has been read, and whenever there is nothing to
      read, all of it has been. */
  lemma EofAfterWholeStream(w: World, conn: P.Conn, callers: nat, trace: seq<Happening>, w': World)
    requires Reachable(w, conn, callers, conn.first) && AllArrived(w.pipe, w.history.accepted) && !w.fin
    requires Transfer.Run(w, trace) == Some(w') && w'.pipe.accepted == w.pipe.accepted
    ensures forall i :: 0 <= i < |w'.eofs| ==> w'.eofs[i] == |Concat(w.pipe.accepted)|
    ensures w'.history.out <= Concat(w.pipe.accepted)
    ensures !Peek(w'.history.ring) ==> w'.history.out == Concat(w.pipe.accepted)
  {
    ReachableComplete(w, conn, callers);
    EofNeedsFin(w, conn, callers, conn.first);
    CompleteReports(w, conn, w.pipe.accepted, trace, w');
  }

  lemma CompleteReports(w: World, conn: P.Conn, sent: seq<seq<byte>>, trace: seq<Happening>, w': World)
    requires Complete(w, conn, sent) && w.eofs == [] && Transfer.Run(w, trace) == Some(w') && w'.pipe.accepted == sent
    ensures forall i :: 0 <= i < |w'.eofs| ==> w'.eofs[i] == |Concat(sent)|
    ensures w'.history.out <= Concat(sent)
    ensures !Peek(w'.history.ring) ==> w'.history.out == Concat(sent)
  {
    CompleteForGood(w, conn, sent, trace);
    CompletePrefix(w', conn, sent);
  }

  /** No send can succeed any more: new ones are refused, and each that got past the ban has
      been enqueued or has failed. */
  predicate NoMoreSends(pipe: P.Pipe) {
    pipe.closed && D.Settled(pipe.sends)
  }

  lemma NoMoreStays(pipe: P.Pipe, e: P.Event)
    requires NoMoreSends(pipe) && P.Step(pipe, e).Some?
    ensures NoMoreSends(P.Step(pipe, e).value) && P.Step(pipe, e).value.accepted == pipe.accepted
  {
  }

  lemma HappenAcceptsNone(w: World, e: Happening)
    requires |w.history.ring.slots| == CAPACITY && NoMoreSends(w.pipe) && Happen(w, e).Some?
    ensures var w' := Happen(w, e).value;
            NoMoreSends(w'.pipe) && w'.pipe.accepted == w.pipe.accepted
  {
    match e
    case AtSender(sender) =>
      SenderFrame(w, sender);
      if Happen(w, e).value.pipe != w.pipe {
        var event :| P.Step(w.pipe, event) == Some(Happen(w, e).value.pipe);
        NoMoreStays(w.pipe, event);
      }
    case Arrives(arrival) => ArrivalFrame(w, arrival);
    case AtReader(reader) => ReaderFrame(w, reader);
    case OfAcks(ack) => AckFrame(w, ack);
  }

  /** Over every run: once a close call has forbidden sends and none is under way, what has
      been accepted stays what it is. */
  lemma {:induction false} NothingMoreAccepted(w: World, trace: seq<Happening>)
    requires |w.history.ring.slots| == CAPACITY && NoMoreSends(w.pipe) && Transfer.Run(w, trace).Some?
    ensures Transfer.Run(w, trace).value.pipe.accepted == w.pipe.accepted
    decreases |trace|
  {
    if trace != [] {
      HappenAcceptsNone(w, trace[0]);
      NothingMoreAccepted(Happen(w, trace[0]).value, trace[1..]);
    }
  }

  /** So if moreover everything has arrived and no Fin has, every later report of the end of
      the stream, in whatever way the run goes on, is truthful. */
  lemma EofAfterClose(w: World, conn: P.Conn, callers: nat, trace: seq<Happening>, w': World)
    requires Reachable(w, conn, callers, conn.first) && AllArrived(w.pipe, w.history.accepted) && !w.fin
    requires NoMoreSends(w.pipe) && Transfer.Run(w, trace) == Some(w')
    ensures w'.pipe.accepted == w.pipe.accepted
    ensures forall i :: 0 <= i < |w'.eofs| ==> w'.eofs[i] == |Concat(w'.pipe.accepted)|
    ensures !Peek(w'.history.ring) ==> w'.history.out == Concat(w'.pipe.accepted)
  {
    NothingMoreAccepted(w, trace);
    EofAfterWholeStream(w, conn, callers, trace, w');
  }

  lemma CompletePrefix(w: World, conn: P.Conn, sent: seq<seq<byte>>)
    requires Complete(w, conn, sent)
    ensures w.history.out <= Concat(sent)
    ensures !Peek(w.history.ring) ==> w.history.out == Concat(sent)
  {
    DeliveredIsPrefix(w.pipe, w.history);
    if !Peek(w.history.ring) {
      NothingLeft(w);
    }
  }

  // ---- reads get there ----

  predicate Positive(call: Call) {
    match call
    case Into(len) => len > 0
    case Pieces(maxPackets) => maxPackets > 0
  }

  /** The bytes a call asks for at least. */
  function Least(call: Call): nat {
    match call
    case Into(len) => len
    case Pieces(_) => 1
  }

  lemma PiecesExtend(h: History, maxPackets: nat)
    requires Valid(h.ring) && NoEmptyPayload(h.ring) && Peek(h.ring) && maxPackets > 0
    ensures |Step(h, ReadPieces(maxPackets)).out| > |h.out|
    ensures ConsumeBytes(h.ring, maxPackets).1.Some?
  {
    var n := |CarryPieces(h.ring)|;
    var k := if maxPackets <= n then 0 else Min(RunLength(h.ring.slots), maxPackets - n);
    ReadPiecesResult(h, maxPackets, k);
    if h.ring.carry.None? {
      assert RunPayloads(h.ring.slots, k)[0] == h.ring.slots[0].value.payload;
    }
  }

  lemma IntoExtends(pipe: P.Pipe, h: History, len: nat)
    requires P.BytesInv(pipe) && RingRuns.Inv(h, pipe.conn.first) && Sourced(pipe, h.accepted)
    requires AllArrived(pipe, h.accepted) && NoEmptyPayload(h.ring) && Peek(h.ring) && len > 0
    ensures |Step(h, ReadInto(len)).out| == Min(|Concat(pipe.accepted)|, |h.out| + len) > |h.out|
    ensures Consume(h.ring, len).1.Some?
  {
    AllArrivedAvailable(pipe, h);
    PeekPredictsRead(h.ring, len);
    ReadIsPrefix(h.ring, len);
    SomeRead(h.ring, len);
  }

  lemma SomeRead(r: Ring, len: nat)
    requires |r.slots| == CAPACITY && len > 0 && Consume(r, len).1.Some?
    ensures Consume(r, len).1.value.bytes != []
  {
  }

  lemma StepPrefix(pipe: P.Pipe, h: History, e: Event)
    requires P.BytesInv(pipe) && RingRuns.Inv(h, pipe.conn.first) && Sourced(pipe, h.accepted) && !e.Arrive?
    ensures h.out <= Step(h, e).out <= Concat(pipe.accepted)
  {
    StepKeepsInv(h, pipe.conn.first, e);
    DeliveredIsPrefix(pipe, Step(h, e));
  }

  /** Once everything has arrived, a read of a positive amount that was told there is data
      hands out the next bytes of the stream: exactly as many as it asked for or as are left
      if it copies, at least one if it hands out payloads. */
  ghost predicate Extends(h: History, h': History, all: seq<byte>, call: Call) {
    && h.out < h'.out <= all
    && |h'.out| >= Min(|all|, |h.out| + Least(call))
    && (call.Into? ==> |h'.out| == Min(|all|, |h.out| + call.len))
  }

  lemma ReadExtends(w: World, conn: P.Conn, sent: seq<seq<byte>>, call: Call)
    requires Complete(w, conn, sent) && Peek(w.history.ring) && Positive(call)
    ensures Extends(w.history, Step(w.history, ReadEvent(call)), Concat(sent), call)
    ensures ReadResult(w.history.ring, call).Some?
  {
    BufferedNonEmpty(w.pipe, w.history, w.start);
    StepPrefix(w.pipe, w.history, ReadEvent(call));
    match call
    case Into(len) => IntoExtends(w.pipe, w.history, len);
    case Pieces(maxPackets) => PiecesExtend(w.history, maxPackets);
  }

  lemma ConsumeExtends(w: World, conn: P.Conn, sent: seq<seq<byte>>, call: Call)
    requires Complete(w, conn, sent) && w.reader == Consuming(call) && Positive(call)
    ensures ReaderStep(w, ConsumeNow) == Some(ConsumeStep(w, call))
    ensures Extends(w.history, ConsumeStep(w, call).history, Concat(sent), call)
  {
    ConsumingReady(w);
    ReadExtends(w, conn, sent, call);
    assert ConsumeStep(w, call).history == Step(w.history, ReadEvent(call));
  }

  lemma ConsumingReady(w: World)
    requires Transfer.Inv(w) && w.reader.Consuming?
    ensures Peek(w.history.ring)
  {
  }

  /** Over every run that goes on from a reachable state in which everything has arrived, as
      long as nothing more is accepted for sending: every consuming step of a read of a
      positive amount extends what was read along the stream. */
  lemma EveryReadExtends(w: World, conn: P.Conn, callers: nat, trace: seq<Happening>, w': World, call: Call)
    requires Reachable(w, conn, callers, conn.first) && AllArrived(w.pipe, w.history.accepted)
    requires Transfer.Run(w, trace) == Some(w') && w'.pipe.accepted == w.pipe.accepted
    requires w'.reader == Consuming(call) && Positive(call)
    ensures ReaderStep(w', ConsumeNow) == Some(ConsumeStep(w', call))
    ensures Extends(w'.history, ConsumeStep(w', call).history, Concat(w.pipe.accepted), call)
  {
    ReachableComplete(w, conn, callers);
    CompleteForGood(w, conn, w.pipe.accepted, trace);
    ConsumeExtends(w', conn, w.pipe.accepted, call);
  }

  lemma ReachableComplete(w: World, conn: P.Conn, callers: nat)
    requires Reachable(w, conn, callers, conn.first) && AllArrived(w.pipe, w.history.accepted)
    ensures Complete(w, conn, w.pipe.accepted)
  {
    ReachableInv(w, conn, callers, conn.first);
  }

  // ---- whole read calls after the Fin ----

  /** The steps of one read call of a free reader, with the flag up. */
  function CallSteps(ready: bool, call: Call): seq<Happening> {
    [AtReader(Poll(call))] + ([AtReader(LoadFlag)] + ([AtReader(PeekAtEof)] + (if ready then [AtReader(ConsumeNow)] + [] else [])))
  }

  function AfterCall(w: World, call: Call): (w': World)
    requires |w.history.ring.slots| == CAPACITY
    ensures |w'.history.ring.slots| == CAPACITY
  {
    if Peek(w.history.ring) then ConsumeStep(w, call) else w.(eofs := w.eofs + [|w.history.out|])
  }

  lemma RunFirst(w: World, e: Happening, w1: World, rest: seq<Happening>)
    requires |w.history.ring.slots| == CAPACITY && Happen(w, e) == Some(w1)
    ensures Transfer.Run(w, [e] + rest) == Transfer.Run(w1, rest)
  {
    assert ([e] + rest)[1..] == rest;
  }

  lemma CallRuns(w: World, call: Call)
    requires |w.history.ring.slots| == CAPACITY && w.reader.Free? && w.fin
    ensures Transfer.Run(w, CallSteps(Peek(w.history.ring), call)) == Some(AfterCall(w, call))
  {
    var ready := Peek(w.history.ring);
    var last: seq<Happening> := if ready then [AtReader(ConsumeNow)] + [] else [];
    var w1, w2 := w.(reader := Polled(call)), w.(reader := EofCheck(call));
    RunFirst(w, AtReader(Poll(call)), w1, [AtReader(LoadFlag)] + ([AtReader(PeekAtEof)] + last));
    RunFirst(w1, AtReader(LoadFlag), w2, [AtReader(PeekAtEof)] + last);
    if ready {
      var w3 := w.(reader := Consuming(call));
      RunFirst(w2, AtReader(PeekAtEof), w3, last);
      RunFirst(w3, AtReader(ConsumeNow), ConsumeStep(w3, call), []);
      assert ConsumeStep(w3, call) == ConsumeStep(w, call);
    } else {
      RunFirst(w2, AtReader(PeekAtEof), AfterCall(w, call), last);
    }
  }

  function AfterCalls(w: World, calls: seq<Call>): (w': World)
    requires |w.history.ring.slots| == CAPACITY
    ensures |w'.history.ring.slots| == CAPACITY
  {
    if calls == [] then w else AfterCall(AfterCalls(w, calls[..|calls| - 1]), calls[|calls| - 1])
  }

  function LeastOf(calls: seq<Call>): nat {
    if calls == [] then 0 else LeastOf(calls[..|calls| - 1]) + Least(calls[|calls| - 1])
  }

  predicate AllPositive(calls: seq<Call>) {
    calls == [] || (AllPositive(calls[..|calls| - 1]) && Positive(calls[|calls| - 1]))
  }

  /** All of the calls copy. */
  predicate AllInto(calls: seq<Call>) {
    calls == [] || (AllInto(calls[..|calls| - 1]) && calls[|calls| - 1].Into?)
  }

  /** Reading on, with the flag up and everything there. */
  ghost predicate ReadingOn(w: World, conn: P.Conn, sent: seq<seq<byte>>, least: nat, exact: bool) {
    && Complete(w, conn, sent) && w.reader.Free? && w.fin && w.history.out <= Concat(sent)
    && |w.history.out| >= Min(|Concat(sent)|, least)
    && (exact ==> |w.history.out| == Min(|Concat(sent)|, least))
  }

  lemma OneRead(w: World, conn: P.Conn, sent: seq<seq<byte>>, least: nat, exact: bool, call: Call)
    requires ReadingOn(w, conn, sent, least, exact) && Positive(call) && Peek(w.history.ring)
    requires Complete(ConsumeStep(w, call), conn, sent)
    ensures ReadingOn(ConsumeStep(w, call), conn, sent, least + Least(call), exact && call.Into?)
  {
    ReadExtends(w, conn, sent, call);
    assert ConsumeStep(w, call).history == Step(w.history, ReadEvent(call));
    assert ConsumeStep(w, call).reader == Free;
  }

  lemma OneCall(w: World, conn: P.Conn, sent: seq<seq<byte>>, least: nat, exact: bool, call: Call)
    requires ReadingOn(w, conn, sent, least, exact) && Positive(call)
    ensures ReadingOn(AfterCall(w, call), conn, sent, least + Least(call), exact && call.Into?)
  {
    CallRuns(w, call);
    RunKeeps(w, conn, sent, CallSteps(Peek(w.history.ring), call));
    if Peek(w.history.ring) {
      OneRead(w, conn, sent, least, exact, call);
    } else {
      NothingLeft(w);
    }
  }

  lemma RunKeeps(w: World, conn: P.Conn, sent: seq<seq<byte>>, trace: seq<Happening>)
    requires Complete(w, conn, sent) && Transfer.Run(w, trace).Some? && Transfer.Run(w, trace).value.pipe.accepted == sent
    ensures Complete(Transfer.Run(w, trace).value, conn, sent)
  {
    CompleteForGood(w, conn, sent, trace);
  }

  lemma {:induction false} CallsReadOn(w: World, conn: P.Conn, sent: seq<seq<byte>>, had: nat, calls: seq<Call>, least: nat)
    requires ReadingOn(w, conn, sent, had, true) && AllPositive(calls) && least == had + LeastOf(calls)
    ensures ReadingOn(AfterCalls(w, calls), conn, sent, least, AllInto(calls))
  {
    if calls != [] {
      var front, last := calls[..|calls| - 1], calls[|calls| - 1];
      var before := had + LeastOf(front);
      CallsReadOn(w, conn, sent, had, front, before);
      OneCall(AfterCalls(w, front), conn, sent, before, AllInto(front), last);
    }
  }

  lemma {:induction false} CallsAreSteps(w: World, conn: P.Conn, callers: nat, sent: seq<seq<byte>>, had: nat, calls: seq<Call>)
    requires ReadingOn(w, conn, sent, had, true) && AllPositive(calls) && Reachable(w, conn, callers, conn.first)
    ensures Reachable(AfterCalls(w, calls), conn, callers, conn.first)
  {
    if calls != [] {
      var front, last := calls[..|calls| - 1], calls[|calls| - 1];
      var w1 := AfterCalls(w, front);
      CallsReadOn(w, conn, sent, had, front, had + LeastOf(front));
      CallsAreSteps(w, conn, callers, sent, had, front);
      CallRuns(w1, last);
      ReachableThen(w1, conn, callers, conn.first, CallSteps(Peek(w1.history.ring), last), AfterCall(w1, last));
    }
  }

  lemma ReachableReading(w: World, conn: P.Conn, callers: nat)
    requires Reachable(w, conn, callers, conn.first) && AllArrived(w.pipe, w.history.accepted)
    requires w.reader.Free? && w.fin
    ensures ReadingOn(w, conn, w.pipe.accepted, |w.history.out|, true)
  {
    ReachableComplete(w, conn, callers);
    CompletePrefix(w, conn, w.pipe.accepted);
  }

  /** With the flag up and everything there, any sequence of read calls of positive amounts,
      of both kinds, made step by step by the reader itself, hands out the stream in order:
      exactly up to the sum of the lengths if all of them copy, and at least a byte per call
      that hands out payloads. So the whole stream is read in the end. */
  lemma CallsFinishStream(w: World, conn: P.Conn, callers: nat, calls: seq<Call>)
    requires Reachable(w, conn, callers, conn.first) && AllArrived(w.pipe, w.history.accepted)
    requires w.reader.Free? && w.fin && AllPositive(calls)
    ensures Reachable(AfterCalls(w, calls), conn, callers, conn.first)
    ensures ReadingOn(AfterCalls(w, calls), conn, w.pipe.accepted, |w.history.out| + LeastOf(calls), AllInto(calls))
  {
    ReachableReading(w, conn, callers);
    CallsReadOn(w, conn, w.pipe.accepted, |w.history.out|, calls, |w.history.out| + LeastOf(calls));
    CallsAreSteps(w, conn, callers, w.pipe.accepted, |w.history.out|, calls);
  }
}
