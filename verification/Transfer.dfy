/** One direction of a connection, end to end: the writer pipeline of one peer, a network
    that loses, duplicates and reorders, the reassembly buffer and reader of the other peer,
    and the acknowledgements on their way back. */
module Transfer {
  import opened Bytes
  import opened Packet
  import opened Packetizer
  import opened Ring
  import opened RingRuns
  import P = Pipeline
  import A = AckPacking
  import W = Window

  const ACK_EVERY: nat := 200

  /** A read call, copying into a buffer or handing out whole payloads. */
  datatype Call = Into(len: nat) | Pieces(maxPackets: nat)

  /** Where the reader is: polled ready, about to look for the end of the stream, about to
      consume. `Panicked` is the state after a failed unwrap. */
  datatype Reader = Free | Polled(call: Call) | EofCheck(call: Call) | Consuming(call: Call) | Panicked(call: Call)

  /** Where a `close` call of the writing peer is: it has seen the flush counter at zero,
      forbidden further sends, reserved a number for its Fin. */
  datatype Closing = Open | Flushed | Forbidden | Numbered

  /** `acksSent` are the ack datagrams ever put on the wire, as the acks they carry.
      `taken` is how many packets each read that took any took, `eofs` how many bytes had
      been read each time a read reported the end of the stream. */
  datatype World = World(
    pipe: P.Pipe,
    start: nat,
    history: History,
    fin: bool,
    reader: Reader,
    consumed: nat,
    acks: seq<A.AckData>,
    acksSent: seq<seq<A.AckData>>,
    window: W.Window,
    largest: nat,
    taken: seq<nat>,
    eofs: seq<nat>,
    closes: seq<Closing>,
    finSent: bool)

  datatype CloseStep = SeeFlushed | Forbid | Number | SendFin

  datatype SenderEvent = Writer(event: P.Event) | Closer(id: nat, step: CloseStep)

  datatype ArrivalEvent = ArriveData(j: nat) | ArriveFin

  datatype ReaderEvent = Poll(call: Call) | LoadFlag | PeekAtEof | ConsumeNow

  datatype AckEvent = SendAcks(drained: nat) | ArriveAcks(j: nat) | SlideWindow

  datatype Happening =
    | AtSender(sender: SenderEvent)
    | Arrives(arrival: ArrivalEvent)
    | AtReader(reader: ReaderEvent)
    | OfAcks(ack: AckEvent)

  /** The receiver expects `start` first; the sender's ack window begins at its first number. */
  function Init(conn: P.Conn, callers: nat, start: nat): World {
    World(P.Init(conn, callers), start, Start(start), false, Free, 0, [], [], W.Window(conn.first, {}), 0,
          [], [], seq(callers, _ => Open), false)
  }

  // ---- receiving ----

  function ArriveAll(h: History, ps: seq<Packet>): (h': History)
    requires |h.ring.slots| == CAPACITY
    ensures |h'.ring.slots| == CAPACITY
    decreases |ps|
  {
    if ps == [] then h else ArriveAll(Step(h, Arrive(ps[0])), ps[1..])
  }

  function AckAll(w: W.Window, ps: seq<Packet>): W.Window
    decreases |ps|
  {
    if ps == [] then w
    else AckAll(W.InsertRange(w, ps[0].header.packetNumber, ps[0].header.typeSpecific).0, ps[1..])
  }

  function AckDatagram(conn: P.Conn, acks: seq<A.AckData>): seq<byte> {
    EncodeAll(A.AckPackets(conn.dst, conn.src, acks))
  }

  function Received(datagram: seq<byte>): seq<Packet> {
    match Parse(datagram)
    case Ok(ps) => ps
    case Err(_) => []
  }

  // ---- reading ----

  /** What a read reports, whichever call it is: None is the empty-buffer error. */
  function ReadResult(r: Ring, call: Call): Option<Read>
    requires |r.slots| == CAPACITY
  {
    match call
    case Into(len) => Consume(r, len).1
    case Pieces(maxPackets) =>
      match ConsumeBytes(r, maxPackets).1
      case None => None
      case Some((read, _)) => Some(read)
  }

  function ReadEvent(call: Call): Event {
    match call
    case Into(len) => ReadInto(len)
    case Pieces(maxPackets) => ReadPieces(maxPackets)
  }

  /** Counts what a read consumed. Once enough has been consumed since the last ack, the
      packets of this very read are acknowledged and the count starts again. */
  function NoteRead(consumed: nat, acks: seq<A.AckData>, result: Option<Read>): (nat, seq<A.AckData>) {
    match result
    case None => (consumed, acks)
    case Some(read) =>
      if read.count > 0 && read.base != 0 && consumed + read.count >= ACK_EVERY
      then (0, acks + [A.AckData(read.base, read.count)])
      else (consumed + read.count, acks)
  }

  /** A copying read unwraps its result. */
  function AfterRead(call: Call, result: Option<Read>): Reader {
    if result.None? && call.Into? then Panicked(call) else Free
  }

  /** The counts of the reads that took packets, with this one if it did. */
  function AddRead(taken: seq<nat>, result: Option<Read>): seq<nat> {
    if result.Some? && result.value.count > 0 then taken + [result.value.count] else taken
  }

  function ConsumeStep(w: World, call: Call): (w': World)
    requires |w.history.ring.slots| == CAPACITY
    ensures |w'.history.ring.slots| == CAPACITY
  {
    var result := ReadResult(w.history.ring, call);
    var (consumed, acks) := NoteRead(w.consumed, w.acks, result);
    w.(history := Step(w.history, ReadEvent(call)), reader := AfterRead(call, result),
       consumed := consumed, acks := acks, taken := AddRead(w.taken, result))
  }

  // ---- closing ----

  /** One step of a `close` call: flush first, then no more sends, then a number, then the Fin,
      as often as it is sent again. */
  function CloserStep(w: World, id: nat, step: CloseStep): Option<World> {
    if id >= |w.closes| then None
    else match step
      case SeeFlushed =>
        if w.closes[id].Open? && w.pipe.pending == 0 then Some(w.(closes := w.closes[id := Flushed])) else None
      case Forbid =>
        if w.closes[id].Flushed?
        then Some(w.(pipe := P.Step(w.pipe, P.MarkClosed).value, closes := w.closes[id := Forbidden])) else None
      case Number =>
        if w.closes[id].Forbidden?
        then Some(w.(pipe := P.Step(w.pipe, P.Reserve).value, closes := w.closes[id := Numbered])) else None
      case SendFin =>
        if w.closes[id].Numbered? then Some(w.(finSent := true)) else None
  }

  function SenderStep(w: World, e: SenderEvent): Option<World> {
    match e
    case Writer(event) =>
      if event.MarkClosed? || event.Reserve? then None
      else (match P.Step(w.pipe, event)
            case None => None
            case Some(pipe) => Some(w.(pipe := pipe)))
    case Closer(id, step) => CloserStep(w, id, step)
  }

  function ArrivalStep(w: World, e: ArrivalEvent): (r: Option<World>)
    requires |w.history.ring.slots| == CAPACITY
    ensures r.Some? ==> |r.value.history.ring.slots| == CAPACITY
  {
    match e
    case ArriveData(j) =>
      if j < |w.pipe.wire| then Some(w.(history := ArriveAll(w.history, Received(w.pipe.wire[j])))) else None
    case ArriveFin => if w.finSent then Some(w.(fin := true)) else None
  }

  function ReaderStep(w: World, e: ReaderEvent): (r: Option<World>)
    requires |w.history.ring.slots| == CAPACITY
    ensures r.Some? ==> |r.value.history.ring.slots| == CAPACITY
  {
    match e
    case Poll(call) =>
      if w.reader.Free? && (Peek(w.history.ring) || w.fin) then Some(w.(reader := Polled(call))) else None
    case LoadFlag =>
      if w.reader.Polled?
      then Some(w.(reader := if w.fin then EofCheck(w.reader.call) else Consuming(w.reader.call))) else None
    case PeekAtEof =>
      if !w.reader.EofCheck? then None
      else if Peek(w.history.ring) then Some(w.(reader := Consuming(w.reader.call)))
      else Some(w.(reader := Free, eofs := w.eofs + [|w.history.out|]))
    case ConsumeNow =>
      if w.reader.Consuming? then Some(ConsumeStep(w, w.reader.call)) else None
  }

  function AckStep(w: World, e: AckEvent): Option<World> {
    match e
    case SendAcks(drained) =>
      if drained == 0 || drained > |w.acks| then None
      else
        var k := Min(drained, A.Fit(0));
        Some(w.(acks := w.acks[k..], acksSent := w.acksSent + [w.acks[..k]]))
    case ArriveAcks(j) =>
      if j < |w.acksSent|
      then Some(w.(window := AckAll(w.window, Received(AckDatagram(w.pipe.conn, w.acksSent[j]))))) else None
    case SlideWindow =>
      var (window, r) := W.ConsumeAcks(w.window);
      Some(w.(window := window, largest := if r.Some? then r.value.largest else w.largest))
  }

  function Happen(w: World, e: Happening): (r: Option<World>)
    requires |w.history.ring.slots| == CAPACITY
    ensures r.Some? ==> |r.value.history.ring.slots| == CAPACITY
  {
    match e
    case AtSender(sender) => SenderStep(w, sender)
    case Arrives(arrival) => ArrivalStep(w, arrival)
    case AtReader(reader) => ReaderStep(w, reader)
    case OfAcks(ack) => AckStep(w, ack)
  }

  function Run(w: World, trace: seq<Happening>): (r: Option<World>)
    requires |w.history.ring.slots| == CAPACITY
    ensures r.Some? ==> |r.value.history.ring.slots| == CAPACITY
    decreases |trace|
  {
    if trace == [] then Some(w)
    else match Happen(w, trace[0])
      case None => None
      case Some(w') => Run(w', trace[1..])
  }

  // ---- invariant ----

  /** Payloads of all data packets ever packed; packet `first + i` carries the `i`-th. */
  function Packets(pipe: P.Pipe): seq<seq<byte>> {
    P.Flatten(pipe.groups)
  }

  /** Everything the receiver has accepted is what the sender packed under that number. */
  ghost predicate Sourced(pipe: P.Pipe, accepted: map<nat, seq<byte>>) {
    forall x :: x in accepted ==>
      && pipe.conn.first <= x < pipe.conn.first + |Packets(pipe)|
      && accepted[x] == Packets(pipe)[x - pipe.conn.first]
  }

  /** An ack names packets that have left the reassembly buffer towards the reader. */
  predicate Earned(a: A.AckData, start: nat, next: nat) {
    start <= a.base && a.base + a.count <= next && a.count <= CAPACITY
  }

  ghost predicate AcksInv(acks: seq<A.AckData>, acksSent: seq<seq<A.AckData>>, start: nat, next: nat) {
    && (forall i :: 0 <= i < |acks| ==> Earned(acks[i], start, next))
    && (forall j :: 0 <= j < |acksSent| ==> acksSent[j] != [])
    && (forall j, i :: 0 <= j < |acksSent| && 0 <= i < |acksSent[j]| ==> Earned(acksSent[j][i], start, next))
  }

  ghost predicate WindowInv(window: W.Window, first: nat, start: nat, next: nat) {
    && W.ValidWindow(window)
    && first <= window.smallest
    && (forall x :: x in window.acked ==> start <= x < next)
    && (window.smallest == first || (start <= first && window.smallest <= next))
  }

  ghost predicate ReaderInv(reader: Reader, ring: Ring, fin: bool)
    requires |ring.slots| == CAPACITY
  {
    && (reader.Polled? ==> Peek(ring) || fin)
    && (reader.EofCheck? ==> fin)
    && (reader.Consuming? ==> Peek(ring))
    && (reader.Panicked? ==> reader.call == Into(0))
  }

  ghost predicate Inv(w: World) {
    && P.Inv(w.pipe)
    && RingRuns.Inv(w.history, w.start)
    && Sourced(w.pipe, w.history.accepted)
    && AcksInv(w.acks, w.acksSent, w.start, w.history.ring.next)
    && WindowInv(w.window, w.pipe.conn.first, w.start, w.history.ring.next)
    && (w.largest == 0 || w.pipe.conn.first <= w.largest == w.window.smallest - 1)
    && ReaderInv(w.reader, w.history.ring, w.fin)
  }

  // ---- every step keeps it ----

  /** The packets grow at the end only, so what was sourced stays sourced. */
  lemma WriterKeepsPackets(pipe: P.Pipe, e: P.Event)
    requires P.Step(pipe, e).Some?
    ensures Packets(pipe) <= Packets(P.Step(pipe, e).value)
  {
  }

  lemma {:induction false} ChunkAt(groups: seq<seq<seq<byte>>>, j: nat, i: nat)
    requires j < |groups| && i < |groups[j]|
    ensures |P.Flatten(groups[..j])| + i < |P.Flatten(groups)|
    ensures P.Flatten(groups)[|P.Flatten(groups[..j])| + i] == groups[j][i]
  {
    var n := |groups| - 1;
    if j < n {
      ChunkAt(groups[..n], j, i);
      assert groups[..n][..j] == groups[..j];
    }
  }

  /** A packet that carries what was packed under its number. */
  ghost predicate Genuine(first: nat, packets: seq<seq<byte>>, p: Packet) {
    && first <= p.header.packetNumber < first + |packets|
    && p.payload == packets[p.header.packetNumber - first]
  }

  lemma GroupIsGenuine(conn: P.Conn, groups: seq<seq<seq<byte>>>, j: nat, i: nat)
    requires j < |groups| && i < |groups[j]| && conn.first + |P.Flatten(groups)| <= U64_LIMIT
    ensures Genuine(conn.first, P.Flatten(groups),
                    DataPackets(conn.src, conn.dst, conn.first + |P.Flatten(groups[..j])|, groups[j])[i])
  {
    ChunkAt(groups, j, i);
    DataPacketAt(conn.src, conn.dst, conn.first + |P.Flatten(groups[..j])|, groups[j], i);
  }

  /** Every packet a receiver parses out of a datagram on the wire is genuine. */
  lemma WireIsGenuine(conn: P.Conn, groups: seq<seq<seq<byte>>>, wire: seq<seq<byte>>, outgoing: seq<(seq<byte>, nat)>, j: nat)
    requires P.WireInv(conn, groups, wire, outgoing) && j < |wire|
    requires conn.first + |P.Flatten(groups)| <= U64_LIMIT
    ensures forall i :: 0 <= i < |Received(wire[j])| ==> Genuine(conn.first, P.Flatten(groups), Received(wire[j])[i])
  {
    P.WireParsesTo(conn, groups, wire, outgoing, j);
    forall i | 0 <= i < |groups[j]|
      ensures Genuine(conn.first, P.Flatten(groups), Received(wire[j])[i])
    {
      GroupIsGenuine(conn, groups, j, i);
    }
  }

  lemma {:induction false} ArriveAllKeeps(pipe: P.Pipe, h: History, start: nat, ps: seq<Packet>)
    requires RingRuns.Inv(h, start) && Sourced(pipe, h.accepted)
    requires forall i :: 0 <= i < |ps| ==> Genuine(pipe.conn.first, Packets(pipe), ps[i])
    ensures var h' := ArriveAll(h, ps);
            && RingRuns.Inv(h', start) && Sourced(pipe, h'.accepted)
            && h'.ring.next == h.ring.next && h'.out == h.out
            && (Peek(h.ring) ==> Peek(h'.ring))
            && (forall x :: x in h.accepted ==> x in h'.accepted)
    decreases |ps|
  {
    if ps != [] {
      assert Genuine(pipe.conn.first, Packets(pipe), ps[0]);
      ArriveKeepsInv(h, start, ps[0]);
      ArriveAllKeeps(pipe, Step(h, Arrive(ps[0])), start, ps[1..]);
    }
  }

  lemma SourcedGrows(pipe: P.Pipe, pipe': P.Pipe, accepted: map<nat, seq<byte>>)
    requires Sourced(pipe, accepted) && pipe'.conn == pipe.conn && Packets(pipe) <= Packets(pipe')
    ensures Sourced(pipe', accepted)
  {
  }

  lemma PipeMoves(w: World, pipe: P.Pipe, closes: seq<Closing>, finSent: bool)
    requires Inv(w) && P.Inv(pipe) && pipe.conn == w.pipe.conn && Sourced(pipe, w.history.accepted)
    ensures Inv(w.(pipe := pipe, closes := closes, finSent := finSent))
  {
  }

  /** What a step of the pipeline keeps, as far as the other end is concerned. */
  lemma PipeSteps(pipe: P.Pipe, e: P.Event, accepted: map<nat, seq<byte>>)
    requires P.Inv(pipe) && Sourced(pipe, accepted) && P.Step(pipe, e).Some?
    ensures var pipe' := P.Step(pipe, e).value;
            P.Inv(pipe') && pipe'.conn == pipe.conn && Sourced(pipe', accepted)
  {
    P.StepKeepsInv(pipe, e);
    WriterKeepsPackets(pipe, e);
    SourcedGrows(pipe, P.Step(pipe, e).value, accepted);
  }

  /** A step of the sending side touches the pipeline and the close calls alone. */
  lemma SenderFrame(w: World, e: SenderEvent)
    requires SenderStep(w, e).Some?
    ensures var w' := SenderStep(w, e).value;
            && w' == w.(pipe := w'.pipe, closes := w'.closes, finSent := w'.finSent)
            && (w'.pipe == w.pipe || exists event :: P.Step(w.pipe, event) == Some(w'.pipe))
  {
    match e
    case Writer(event) => assert P.Step(w.pipe, event).Some?;
    case Closer(_, Forbid) => assert P.Step(w.pipe, P.MarkClosed).Some?;
    case Closer(_, Number) => assert P.Step(w.pipe, P.Reserve).Some?;
    case Closer(_, _) =>
  }

  lemma {:induction false} ArrivalLeaves(h: History, ps: seq<Packet>)
    requires |h.ring.slots| == CAPACITY
    ensures var h' := ArriveAll(h, ps);
            h'.ring.next == h.ring.next && h'.out == h.out && forall x :: x in h.accepted ==> x in h'.accepted
    decreases |ps|
  {
    if ps != [] {
      ArrivalLeaves(Step(h, Arrive(ps[0])), ps[1..]);
    }
  }

  /** An arrival touches the reassembly buffer or the flag alone, and only adds to them. */
  lemma ArrivalFrame(w: World, e: ArrivalEvent)
    requires |w.history.ring.slots| == CAPACITY && ArrivalStep(w, e).Some?
    ensures var w' := ArrivalStep(w, e).value;
            && w' == w.(history := w'.history, fin := w'.fin) && (w.fin ==> w'.fin)
            && w'.history.ring.next == w.history.ring.next && w'.history.out == w.history.out
            && forall x :: x in w.history.accepted ==> x in w'.history.accepted
  {
    if e.ArriveData? {
      ArrivalLeaves(w.history, Received(w.pipe.wire[e.j]));
    }
  }

  /** A step of the reader touches what it has read, its counters and its own state alone. */
  lemma ReaderFrame(w: World, e: ReaderEvent)
    requires |w.history.ring.slots| == CAPACITY && ReaderStep(w, e).Some?
    ensures var w' := ReaderStep(w, e).value;
            && w' == w.(history := w'.history, reader := w'.reader, consumed := w'.consumed, acks := w'.acks,
                        taken := w'.taken, eofs := w'.eofs)
            && (!e.ConsumeNow? ==> w' == w.(reader := w'.reader, eofs := w'.eofs))
            && w'.history.accepted == w.history.accepted
  {
  }

  lemma AckFrame(w: World, e: AckEvent)
    requires AckStep(w, e).Some?
    ensures var w' := AckStep(w, e).value;
            w' == w.(acks := w'.acks, acksSent := w'.acksSent, window := w'.window, largest := w'.largest)
  {
  }

  lemma ArriveDataKeepsInv(w: World, j: nat)
    requires Inv(w) && j < |w.pipe.wire|
    ensures Inv(w.(history := ArriveAll(w.history, Received(w.pipe.wire[j]))))
  {
    WireIsGenuine(w.pipe.conn, w.pipe.groups, w.pipe.wire, P.Outgoing(w.pipe), j);
    ArriveAllKeeps(w.pipe, w.history, w.start, Received(w.pipe.wire[j]));
  }

  lemma {:induction false} PacketsNonEmpty(groups: seq<seq<seq<byte>>>, i: nat)
    requires forall j :: 0 <= j < |groups| ==> Cut(groups[j])
    requires i < |P.Flatten(groups)|
    ensures 0 < |P.Flatten(groups)[i]| <= MAX_PAYLOAD
  {
    var front := groups[..|groups| - 1];
    if i < |P.Flatten(front)| {
      PacketsNonEmpty(front, i);
    }
  }

  /** The packers never emit an empty packet, so none is ever buffered. */
  lemma BufferedNonEmpty(pipe: P.Pipe, h: History, start: nat)
    requires RingRuns.Inv(h, start) && Sourced(pipe, h.accepted)
    requires forall j :: 0 <= j < |pipe.groups| ==> Cut(pipe.groups[j])
    ensures NoEmptyPayload(h.ring)
  {
    forall i | 0 <= i < |h.ring.slots| && h.ring.slots[i].Some?
      ensures h.ring.slots[i].value.payload != []
    {
      PacketsNonEmpty(pipe.groups, h.ring.next + i - pipe.conn.first);
    }
  }

  /** A read names what it removes. */
  lemma ReadAdvances(h: History, call: Call)
    requires Valid(h.ring)
    ensures var h' := Step(h, ReadEvent(call));
            && h.ring.next <= h'.ring.next && h'.accepted == h.accepted
            && match ReadResult(h.ring, call)
               case None => true
               case Some(read) =>
                 && h'.ring.next == h.ring.next + read.count && read.count <= CAPACITY
                 && (read.count > 0 ==> read.base == h.ring.next)
  {
  }

  lemma NoteReadKeeps(consumed: nat, acks: seq<A.AckData>, acksSent: seq<seq<A.AckData>>, result: Option<Read>,
                      start: nat, next: nat, next': nat)
    requires AcksInv(acks, acksSent, start, next) && start <= next <= next'
    requires match result
             case None => true
             case Some(read) =>
               && next' == next + read.count && read.count <= CAPACITY
               && (read.count > 0 ==> read.base == next)
    ensures AcksInv(NoteRead(consumed, acks, result).1, acksSent, start, next')
  {
  }

  /** A copying read that was told there is data fails exactly if it asks for none and
      there is no carry-over. */
  lemma FailedUnwrapExactly(w: World, len: nat)
    requires RingRuns.Inv(w.history, w.start) && Sourced(w.pipe, w.history.accepted) && Peek(w.history.ring)
    requires forall j :: 0 <= j < |w.pipe.groups| ==> Cut(w.pipe.groups[j])
    ensures ReadResult(w.history.ring, Into(len)).None? <==> len == 0 && w.history.ring.carry.None?
  {
    BufferedNonEmpty(w.pipe, w.history, w.start);
    ReadFailsExactly(w.history.ring, len);
  }

  lemma ConsumeKeepsInv(w: World, call: Call)
    requires Inv(w) && Peek(w.history.ring)
    ensures Inv(ConsumeStep(w, call))
  {
    var h, h', result := w.history, Step(w.history, ReadEvent(call)), ReadResult(w.history.ring, call);
    StepKeepsInv(h, w.start, ReadEvent(call));
    ReadAdvances(h, call);
    NoteReadKeeps(w.consumed, w.acks, w.acksSent, result, w.start, h.ring.next, h'.ring.next);
    assert ReaderInv(AfterRead(call, result), h'.ring, w.fin) by {
      if call.Into? {
        FailedUnwrapExactly(w, call.len);
      }
    }
  }

  lemma SendAcksKeeps(acks: seq<A.AckData>, acksSent: seq<seq<A.AckData>>, start: nat, next: nat, k: nat)
    requires AcksInv(acks, acksSent, start, next) && 0 < k <= |acks|
    ensures AcksInv(acks[k..], acksSent + [acks[..k]], start, next)
  {
  }

  ghost predicate EarnedPacket(p: Packet, start: nat, next: nat) {
    start <= p.header.packetNumber && p.header.packetNumber + p.header.typeSpecific <= next
  }

  lemma {:induction false} AckAllKeeps(window: W.Window, first: nat, start: nat, next: nat, ps: seq<Packet>)
    requires WindowInv(window, first, start, next)
    requires forall i :: 0 <= i < |ps| ==> EarnedPacket(ps[i], start, next)
    ensures WindowInv(AckAll(window, ps), first, start, next)
    ensures AckAll(window, ps).smallest == window.smallest
    decreases |ps|
  {
    if ps != [] {
      var base, count := ps[0].header.packetNumber, ps[0].header.typeSpecific;
      assert EarnedPacket(ps[0], start, next);
      W.RangeGrows(window, base, count);
      AckAllKeeps(W.InsertRange(window, base, count).0, first, start, next, ps[1..]);
    }
  }

  lemma AckDatagramEarned(conn: P.Conn, acks: seq<A.AckData>, start: nat, next: nat)
    requires acks != [] && forall i :: 0 <= i < |acks| ==> Earned(acks[i], start, next)
    ensures var ps := Received(AckDatagram(conn, acks));
            forall i :: 0 <= i < |ps| ==> EarnedPacket(ps[i], start, next)
  {
    A.AckDatagramParses(conn.dst, conn.src, acks);
    var ps := A.AckPackets(conn.dst, conn.src, acks);
    forall i | 0 <= i < |ps|
      ensures EarnedPacket(ps[i], start, next)
    {
      assert Earned(acks[i], start, next);
      assert ps[i].header.typeSpecific == acks[i].count;
    }
  }

  lemma ArriveAcksKeeps(window: W.Window, conn: P.Conn, acks: seq<A.AckData>, start: nat, next: nat)
    requires WindowInv(window, conn.first, start, next)
    requires acks != [] && forall i :: 0 <= i < |acks| ==> Earned(acks[i], start, next)
    ensures WindowInv(AckAll(window, Received(AckDatagram(conn, acks))), conn.first, start, next)
    ensures AckAll(window, Received(AckDatagram(conn, acks))).smallest == window.smallest
  {
    AckDatagramEarned(conn, acks, start, next);
    AckAllKeeps(window, conn.first, start, next, Received(AckDatagram(conn, acks)));
  }

  lemma SlideKeepsInv(window: W.Window, first: nat, start: nat, next: nat)
    requires WindowInv(window, first, start, next)
    ensures WindowInv(W.ConsumeAcks(window).0, first, start, next)
    ensures var (window', r) := W.ConsumeAcks(window);
            if r.Some? then first <= r.value.largest == window'.smallest - 1 else window' == window
  {
    W.ConsumeValid(window);
    W.FrontierCorrect(window.acked, window.smallest);
    var f := W.Frontier(window.acked, window.smallest);
    if f > window.smallest {
      assert window.smallest in window.acked && f - 1 in window.acked;
    }
  }

  lemma ReaderMoves(w: World, reader: Reader, fin: bool, eofs: seq<nat>)
    requires Inv(w) && ReaderInv(reader, w.history.ring, fin)
    ensures Inv(w.(reader := reader, fin := fin, eofs := eofs))
  {
  }

  lemma AcksMove(w: World, acks: seq<A.AckData>, acksSent: seq<seq<A.AckData>>)
    requires Inv(w) && AcksInv(acks, acksSent, w.start, w.history.ring.next)
    ensures Inv(w.(acks := acks, acksSent := acksSent))
  {
  }

  lemma WindowMoves(w: World, window: W.Window, largest: nat)
    requires Inv(w) && WindowInv(window, w.pipe.conn.first, w.start, w.history.ring.next)
    requires largest == 0 || w.pipe.conn.first <= largest == window.smallest - 1
    ensures Inv(w.(window := window, largest := largest))
  {
  }

  lemma SendAcksKeepsInv(w: World, k: nat)
    requires Inv(w) && 0 < k <= |w.acks|
    ensures Inv(w.(acks := w.acks[k..], acksSent := w.acksSent + [w.acks[..k]]))
  {
    SendAcksKeeps(w.acks, w.acksSent, w.start, w.history.ring.next, k);
    AcksMove(w, w.acks[k..], w.acksSent + [w.acks[..k]]);
  }

  lemma ArriveAcksKeepsInv(w: World, j: nat)
    requires Inv(w) && j < |w.acksSent|
    ensures Inv(w.(window := AckAll(w.window, Received(AckDatagram(w.pipe.conn, w.acksSent[j])))))
  {
    ArriveAcksKeeps(w.window, w.pipe.conn, w.acksSent[j], w.start, w.history.ring.next);
    WindowMoves(w, AckAll(w.window, Received(AckDatagram(w.pipe.conn, w.acksSent[j]))), w.largest);
  }

  lemma SlideWindowKeepsInv(w: World)
    requires Inv(w)
    ensures var (window, r) := W.ConsumeAcks(w.window);
            Inv(w.(window := window, largest := if r.Some? then r.value.largest else w.largest))
  {
    SlideKeepsInv(w.window, w.pipe.conn.first, w.start, w.history.ring.next);
    var (window, r) := W.ConsumeAcks(w.window);
    WindowMoves(w, window, if r.Some? then r.value.largest else w.largest);
  }

  lemma SenderKeepsInv(w: World, e: SenderEvent)
    requires Inv(w) && SenderStep(w, e).Some?
    ensures Inv(SenderStep(w, e).value)
    ensures SenderStep(w, e).value.pipe.conn == w.pipe.conn && SenderStep(w, e).value.start == w.start
  {
    var w' := SenderStep(w, e).value;
    SenderFrame(w, e);
    if w'.pipe != w.pipe {
      var event :| P.Step(w.pipe, event) == Some(w'.pipe);
      PipeSteps(w.pipe, event, w.history.accepted);
    }
    PipeMoves(w, w'.pipe, w'.closes, w'.finSent);
  }

  lemma ArrivalKeepsInv(w: World, e: ArrivalEvent)
    requires Inv(w) && ArrivalStep(w, e).Some?
    ensures Inv(ArrivalStep(w, e).value)
    ensures ArrivalStep(w, e).value.pipe == w.pipe && ArrivalStep(w, e).value.start == w.start
  {
    match e
    case ArriveData(j) => ArriveDataKeepsInv(w, j);
    case ArriveFin => ReaderMoves(w, w.reader, true, w.eofs);
  }

  lemma ReaderKeepsInv(w: World, e: ReaderEvent)
    requires Inv(w) && ReaderStep(w, e).Some?
    ensures Inv(ReaderStep(w, e).value)
    ensures ReaderStep(w, e).value.pipe == w.pipe && ReaderStep(w, e).value.start == w.start
  {
    if e.ConsumeNow? {
      ConsumeKeepsInv(w, w.reader.call);
    } else {
      var w' := ReaderStep(w, e).value;
      ReaderMoves(w, w'.reader, w.fin, w'.eofs);
      assert w' == w.(reader := w'.reader, fin := w.fin, eofs := w'.eofs);
    }
  }

  lemma AckKeepsInv(w: World, e: AckEvent)
    requires Inv(w) && AckStep(w, e).Some?
    ensures Inv(AckStep(w, e).value)
    ensures AckStep(w, e).value.pipe == w.pipe && AckStep(w, e).value.start == w.start
  {
    match e
    case SendAcks(drained) => SendAcksKeepsInv(w, Min(drained, A.Fit(0)));
    case ArriveAcks(j) => ArriveAcksKeepsInv(w, j);
    case SlideWindow => SlideWindowKeepsInv(w);
  }

  lemma HappenKeepsInv(w: World, e: Happening)
    requires Inv(w) && Happen(w, e).Some?
    ensures Inv(Happen(w, e).value)
    ensures Happen(w, e).value.pipe.conn == w.pipe.conn && Happen(w, e).value.start == w.start
  {
    match e
    case AtSender(sender) => SenderKeepsInv(w, sender);
    case Arrives(arrival) => ArrivalKeepsInv(w, arrival);
    case AtReader(reader) => ReaderKeepsInv(w, reader);
    case OfAcks(ack) => AckKeepsInv(w, ack);
  }

  lemma {:induction false} EveryRunKeepsInv(w: World, trace: seq<Happening>)
    requires Inv(w) && Run(w, trace).Some?
    ensures Inv(Run(w, trace).value)
    ensures Run(w, trace).value.pipe.conn == w.pipe.conn && Run(w, trace).value.start == w.start
    decreases |trace|
  {
    if trace != [] {
      HappenKeepsInv(w, trace[0]);
      EveryRunKeepsInv(Happen(w, trace[0]).value, trace[1..]);
    }
  }

  lemma InitInv(conn: P.Conn, callers: nat, start: nat)
    ensures Inv(Init(conn, callers, start))
  {
    P.InitInv(conn, callers);
    StartInv(start);
  }

  /** `w` can be reached by some interleaving of senders, tasks, network and readers. */
  ghost predicate Reachable(w: World, conn: P.Conn, callers: nat, start: nat) {
    exists trace :: Run(Init(conn, callers, start), trace) == Some(w)
  }

  lemma ReachableInv(w: World, conn: P.Conn, callers: nat, start: nat)
    requires Reachable(w, conn, callers, start)
    ensures Inv(w) && w.pipe.conn == conn && w.start == start
  {
    var trace :| Run(Init(conn, callers, start), trace) == Some(w);
    InitInv(conn, callers, start);
    EveryRunKeepsInv(Init(conn, callers, start), trace);
  }

  /** The parts of the invariant that speak of bytes. */
  lemma ReachableBytes(w: World, conn: P.Conn, callers: nat, start: nat)
    requires Reachable(w, conn, callers, start)
    ensures w.pipe.conn == conn && w.start == start && P.BytesInv(w.pipe)
    ensures RingRuns.Inv(w.history, start) && Sourced(w.pipe, w.history.accepted)
    ensures forall j :: 0 <= j < |w.pipe.groups| ==> Cut(w.pipe.groups[j])
  {
    ReachableInv(w, conn, callers, start);
  }

  lemma {:induction false} RunAppend(w: World, a: seq<Happening>, b: seq<Happening>)
    requires |w.history.ring.slots| == CAPACITY && Run(w, a).Some?
    ensures Run(w, a + b) == Run(Run(w, a).value, b)
    decreases |a|
  {
    if a == [] {
      assert a + b == b;
    } else {
      assert (a + b)[1..] == a[1..] + b;
      RunAppend(Happen(w, a[0]).value, a[1..], b);
    }
  }

  lemma ReachableThen(w: World, conn: P.Conn, callers: nat, start: nat, trace: seq<Happening>, w': World)
    requires Reachable(w, conn, callers, start) && Run(w, trace) == Some(w')
    ensures Reachable(w', conn, callers, start)
  {
    var before :| Run(Init(conn, callers, start), before) == Some(w);
    RunAppend(Init(conn, callers, start), before, trace);
    assert Run(Init(conn, callers, start), before + trace) == Some(w');
  }
}
