/** Two connection ends closing over a network that loses, duplicates and reorders.
    Every critical section and every send is one step; timeouts may fire at any time. */
module CloseProtocol {
  import opened Bytes
  import opened Header
  import opened Packet
  import opened Close

  const MAX_FIN_ATTEMPTS: nat := 3
  const FIN_ACK_CHANNEL: nat := 8

  /** A datagram on its way to one end. The network is the set of all ever sent: any of
      them may be delivered any number of times, in any order, or never. */
  datatype Message = Message(dest: nat, isFin: bool, number: u64)

  /** Where one call of `close()` is. `sent` are the numbers of the Fins it has put on the
      wire, one for each attempt. */
  datatype Call =
    | Flushing
    | Reserved(fin: u64)
    | Trying(fin: u64, sent: seq<u64>)
    | Sent(fin: u64, sent: seq<u64>)
    | Parked(fin: u64, sent: seq<u64>)
    | Confirmed(fin: u64, sent: seq<u64>)
    | Returned(fin: u64, sent: seq<u64>, ok: bool)

  /** One end: its close buffer, the FinAck number its reader has in hand, the bounded
      channel to the FinAck sender, its close calls, and the Fins it has answered for. */
  datatype Peer = Peer(
    buffer: Buffer,
    inHand: Option<u64>,
    finAcks: seq<u64>,
    calls: seq<Call>,
    answered: set<u64>)

  datatype World = World(peers: seq<Peer>, net: set<Message>)

  datatype Event =
    | Reserve(call: nat, fin: u64)
    | Record(call: nat)
    | SendFin(call: nat)
    | SendError(call: nat)
    | Check(call: nat)
    | Wake(call: nat)
    | Timeout(call: nat)
    | GiveUp(call: nat)
    | Finish(call: nat)
    | Deliver(message: Message, ids: (u32, u32))
    | QueueFinAck
    | AnswerFin

  // ---- control datagrams ----

  function ControlDatagram(kind: PacketType, number: u64, src: u32, dst: u32): seq<byte> {
    EncodeHeader(ControlHeader(kind, number, src, dst))
  }

  function ControlHeader(kind: PacketType, number: u64, src: u32, dst: u32): Header {
    NewHeader(src, dst, kind, 0, DEFAULT_SECURITY).(packetNumber := number)
  }

  function Kind(isFin: bool): PacketType { if isFin then Fin else FinAck }

  /** The close packets a received datagram is made of. */
  function ClosePackets(datagram: seq<byte>): seq<Packet> {
    match Parse(datagram)
    case Err(_) => []
    case Ok(ps) => if ps != [] && IsClosePacket(ps[0]) then ps else []
  }

  /** What a header-only datagram becomes at the other end. */
  lemma ControlParses(isFin: bool, number: u64, src: u32, dst: u32)
    ensures ClosePackets(ControlDatagram(Kind(isFin), number, src, dst))
            == [Packet(ControlHeader(Kind(isFin), number, src, dst), [])]
  {
    var p := Packet(ControlHeader(Kind(isFin), number, src, dst), []);
    assert EncodeAll([p]) == EncodePacket(p) + EncodeAll([]);
    assert EncodeAll([p]) == ControlDatagram(Kind(isFin), number, src, dst);
    ParserInvertsPrinter(EncodeAll([p]), [p]);
  }

  // ---- steps ----

  function Other(side: nat): nat { if side == 0 then 1 else 0 }

  /** A received datagram under the buffer's lock: buffer its close packets, take out the
      FinAck obligation, and remember which Fin that obligation answers. */
  function Receive(p: Peer, datagram: seq<byte>): Peer {
    var ps := ClosePackets(datagram);
    var b := CloseInAll(p.buffer, ps);
    if !HasFin(ps) then p.(buffer := b)
    else p.(buffer := b.(pendingFinAck := None),
            inHand := b.pendingFinAck,
            answered := if b.pendingFinAck.Some? then p.answered + {b.pendingFinAck.value} else p.answered)
  }

  function MessageDatagram(m: Message, ids: (u32, u32)): seq<byte> {
    ControlDatagram(Kind(m.isFin), m.number, ids.0, ids.1)
  }

  function SetCall(p: Peer, call: nat, c: Call): Peer
    requires call < |p.calls|
  {
    p.(calls := p.calls[call := c])
  }

  /** The effect of an event at an end, with the messages it sends; None if it cannot happen there now. */
  function Act(p: Peer, e: Event): Option<(Peer, Option<(bool, u64)>)> {
    match e
    case Reserve(call, fin) =>
      if call < |p.calls| && p.calls[call].Flushing? then Some((SetCall(p, call, Reserved(fin)), None)) else None
    case Record(call) =>
      if call < |p.calls| && p.calls[call].Reserved? then
        var fin := p.calls[call].fin;
        Some((SetCall(p, call, Trying(fin, [])).(buffer := RecordLocalFin(p.buffer, fin)), None))
      else None
    case SendFin(call) =>
      if call < |p.calls| && p.calls[call].Trying? && |p.calls[call].sent| < MAX_FIN_ATTEMPTS then
        var fin := p.calls[call].fin;
        Some((SetCall(p, call, Sent(fin, p.calls[call].sent + [fin])), Some((true, fin))))
      else None
    case SendError(call) =>
      if call < |p.calls| && p.calls[call].Trying? && |p.calls[call].sent| < MAX_FIN_ATTEMPTS then
        Some((SetCall(p, call, Returned(p.calls[call].fin, p.calls[call].sent, false)), None))
      else None
    case Check(call) =>
      if call < |p.calls| && p.calls[call].Sent? then
        var c := p.calls[call];
        Some((SetCall(p, call, if p.buffer.receivedFinAck == Some(c.fin) then Confirmed(c.fin, c.sent) else Parked(c.fin, c.sent)), None))
      else None
    case Wake(call) =>
      if call < |p.calls| && p.calls[call].Parked? then
        var c := p.calls[call];
        Some((SetCall(p, call, if p.buffer.receivedFinAck == Some(c.fin) then Confirmed(c.fin, c.sent) else Trying(c.fin, c.sent)), None))
      else None
    case Timeout(call) =>
      if call < |p.calls| && p.calls[call].Parked? then
        Some((SetCall(p, call, Trying(p.calls[call].fin, p.calls[call].sent)), None))
      else None
    case GiveUp(call) =>
      if call < |p.calls| && p.calls[call].Trying? && |p.calls[call].sent| >= MAX_FIN_ATTEMPTS then
        Some((SetCall(p, call, Returned(p.calls[call].fin, p.calls[call].sent, false)).(buffer := MarkClosed(p.buffer)), None))
      else None
    case Finish(call) =>
      if call < |p.calls| && p.calls[call].Confirmed? then
        Some((SetCall(p, call, Returned(p.calls[call].fin, p.calls[call].sent, true)).(buffer := MarkClosed(p.buffer)), None))
      else None
    case Deliver(m, ids) =>
      if p.inHand.None? then Some((Receive(p, MessageDatagram(m, ids)), None)) else None
    case QueueFinAck =>
      if p.inHand.Some? then
        Some((p.(inHand := None, finAcks := if |p.finAcks| < FIN_ACK_CHANNEL then p.finAcks + [p.inHand.value] else p.finAcks), None))
      else None
    case AnswerFin =>
      if p.finAcks != [] then Some((p.(finAcks := p.finAcks[1..]), Some((false, p.finAcks[0])))) else None
  }

  function Step(w: World, side: nat, e: Event): Option<World>
    requires |w.peers| == 2 && side < 2
  {
    if e.Deliver? && !(e.message in w.net && e.message.dest == side) then None
    else match Act(w.peers[side], e)
      case None => None
      case Some((p, sent)) =>
        Some(World(w.peers[side := p],
                   match sent
                   case None => w.net
                   case Some((isFin, number)) => w.net + {Message(Other(side), isFin, number)}))
  }

  // ---- invariant ----

  predicate CallHas(c: Call, fin: u64) {
    !c.Flushing? && c.fin == fin
  }

  ghost predicate PeerInv(p: Peer, peer: Peer) {
    && Consistent(p.buffer)
    && p.buffer.pendingFinAck == None
    && (p.answered != {} ==> p.buffer.peerFinObserved)
    && (p.buffer.state.PeerFinReceived? ==> p.buffer.state.fin in p.answered)
    && (p.inHand.Some? ==> p.inHand.value in p.answered)
    && (forall i :: 0 <= i < |p.finAcks| ==> p.finAcks[i] in p.answered)
    && (p.buffer.receivedFinAck.Some? ==> p.buffer.receivedFinAck.value in peer.answered)
    && (forall i :: 0 <= i < |p.calls| ==> CallInv(p.calls[i], peer))
  }

  /** The Fins of a call: at most three, all with its one number. */
  predicate FinsInv(fin: u64, sent: seq<u64>, least: nat) {
    least <= |sent| <= MAX_FIN_ATTEMPTS && forall k :: 0 <= k < |sent| ==> sent[k] == fin
  }

  predicate CallInv(c: Call, peer: Peer) {
    match c
    case Flushing => true
    case Reserved(_) => true
    case Confirmed(fin, sent) => fin in peer.answered && FinsInv(fin, sent, 1)
    case Returned(fin, sent, ok) => (ok ==> fin in peer.answered) && FinsInv(fin, sent, if ok then 1 else 0)
    case Trying(fin, sent) => FinsInv(fin, sent, 0)
    case Sent(fin, sent) => FinsInv(fin, sent, 1)
    case Parked(fin, sent) => FinsInv(fin, sent, 1)
  }

  ghost predicate NetInv(w: World)
    requires |w.peers| == 2
  {
    && (forall m :: m in w.net ==> m.dest < 2)
    && (forall m :: m in w.net && !m.isFin ==> m.number in w.peers[Other(m.dest)].answered)
    && (forall m :: m in w.net && m.isFin ==> SentBy(w.peers[Other(m.dest)], m.number))
    && (forall side, n :: 0 <= side < 2 && n in w.peers[side].answered ==> Message(side, true, n) in w.net)
  }

  ghost predicate SentBy(p: Peer, fin: u64) {
    exists i :: 0 <= i < |p.calls| && CallHas(p.calls[i], fin)
  }

  ghost predicate Inv(w: World) {
    && |w.peers| == 2
    && PeerInv(w.peers[0], w.peers[1])
    && PeerInv(w.peers[1], w.peers[0])
    && NetInv(w)
  }

  // ---- every step keeps it ----

  lemma ReceiveEffect(p: Peer, m: Message, ids: (u32, u32))
    requires p.buffer.pendingFinAck == None
    ensures var p' := Receive(p, MessageDatagram(m, ids));
            if !m.isFin then p' == p.(buffer := FinAckIn(p.buffer, m.number))
            else if Answers(p.buffer, m.number) then
              p' == p.(buffer := FinIn(p.buffer, m.number).(pendingFinAck := None), inHand := Some(m.number),
                       answered := p.answered + {m.number})
            else p' == p.(inHand := None)
  {
    ControlParses(m.isFin, m.number, ids.0, ids.1);
    var ps := ClosePackets(MessageDatagram(m, ids));
    assert CloseInAll(p.buffer, ps) == CloseIn(p.buffer, ps[0]);
  }

  lemma PeerInvMono(q: Peer, p: Peer, p': Peer)
    requires PeerInv(q, p) && p.answered <= p'.answered
    ensures PeerInv(q, p')
  {
  }

  lemma DeliverKeepsPeer(p: Peer, q: Peer, m: Message, ids: (u32, u32))
    requires PeerInv(p, q) && p.inHand.None?
    requires !m.isFin ==> m.number in q.answered
    ensures var p' := Receive(p, MessageDatagram(m, ids));
            && PeerInv(p', q) && p.answered <= p'.answered <= p.answered + {m.number}
            && (!m.isFin ==> p'.answered == p.answered)
            && p'.calls == p.calls
  {
    ReceiveEffect(p, m, ids);
  }

  /** Calls keep their Fin number. */
  ghost predicate CallsKept(p: Peer, p': Peer) {
    && |p'.calls| == |p.calls|
    && forall i :: 0 <= i < |p.calls| && !p.calls[i].Flushing? ==> CallHas(p'.calls[i], p.calls[i].fin)
  }

  lemma CallMoves(p: Peer, q: Peer, call: nat, c: Call, b: Buffer)
    requires PeerInv(p, q) && call < |p.calls| && CallInv(c, q)
    requires !p.calls[call].Flushing? ==> CallHas(c, p.calls[call].fin)
    requires b == p.buffer.(state := b.state) && (b.state.PeerFinReceived? ==> b.state == p.buffer.state)
    ensures var p' := SetCall(p, call, c).(buffer := b);
            PeerInv(p', q) && CallsKept(p, p')
  {
  }

  lemma CallEventKeepsPeer(p: Peer, q: Peer, e: Event)
    requires PeerInv(p, q) && !e.Deliver? && !e.QueueFinAck? && !e.AnswerFin? && Act(p, e).Some?
    ensures var (p', sent) := Act(p, e).value;
            && PeerInv(p', q) && p'.answered == p.answered && CallsKept(p, p')
            && (sent.Some? ==> sent.value.0 && SentBy(p', sent.value.1))
  {
    var (p', sent) := Act(p, e).value;
    assert CallInv(p.calls[e.call], q);
    assert p' == SetCall(p, e.call, p'.calls[e.call]).(buffer := p'.buffer);
    CallMoves(p, q, e.call, p'.calls[e.call], p'.buffer);
    if e.SendFin? {
      assert CallHas(p'.calls[e.call], p.calls[e.call].fin);
    }
  }

  lemma LocalKeepsPeer(p: Peer, q: Peer, e: Event)
    requires PeerInv(p, q) && !e.Deliver? && Act(p, e).Some?
    ensures var (p', sent) := Act(p, e).value;
            && PeerInv(p', q) && p'.answered == p.answered && CallsKept(p, p')
            && (sent.Some? && sent.value.0 ==> SentBy(p', sent.value.1))
            && (sent.Some? && !sent.value.0 ==> sent.value.1 in p.answered)
  {
    if !e.QueueFinAck? && !e.AnswerFin? {
      CallEventKeepsPeer(p, q, e);
    }
  }

  /** The network after one end has moved and perhaps sent something. */
  lemma NetKept(w: World, side: nat, p': Peer, sent: Option<(bool, u64)>)
    requires |w.peers| == 2 && NetInv(w) && side < 2
    requires CallsKept(w.peers[side], p') && w.peers[side].answered <= p'.answered
    requires forall n :: n in p'.answered ==> n in w.peers[side].answered || Message(side, true, n) in w.net
    requires sent.Some? && sent.value.0 ==> SentBy(p', sent.value.1)
    requires sent.Some? && !sent.value.0 ==> sent.value.1 in p'.answered
    ensures NetInv(World(w.peers[side := p'],
                         match sent
                         case None => w.net
                         case Some((isFin, number)) => w.net + {Message(Other(side), isFin, number)}))
  {
  }

  lemma StepKeepsInv(w: World, side: nat, e: Event)
    requires Inv(w) && side < 2 && Step(w, side, e).Some?
    ensures Inv(Step(w, side, e).value)
  {
    var p, q := w.peers[side], w.peers[Other(side)];
    var (p', sent) := Act(p, e).value;
    if e.Deliver? {
      DeliverKeepsPeer(p, q, e.message, e.ids);
    } else {
      LocalKeepsPeer(p, q, e);
    }
    PeerInvMono(q, p, p');
    NetKept(w, side, p', sent);
  }

  // ---- runs ----

  datatype Occurrence = At(side: nat, event: Event)

  function Run(w: World, trace: seq<Occurrence>): Option<World>
    requires |w.peers| == 2
    decreases |trace|
  {
    if trace == [] then Some(w)
    else if trace[0].side >= 2 then None
    else match Step(w, trace[0].side, trace[0].event)
      case None => None
      case Some(w') => Run(w', trace[1..])
  }

  function Idle(calls: nat): Peer {
    Peer(FRESH, None, [], seq(calls, _ => Flushing), {})
  }

  function Init(calls0: nat, calls1: nat): World {
    World([Idle(calls0), Idle(calls1)], {})
  }

  lemma {:induction false} RunKeepsInv(w: World, trace: seq<Occurrence>)
    requires Inv(w) && Run(w, trace).Some?
    ensures Inv(Run(w, trace).value)
    decreases |trace|
  {
    if trace != [] {
      StepKeepsInv(w, trace[0].side, trace[0].event);
      RunKeepsInv(Step(w, trace[0].side, trace[0].event).value, trace[1..]);
    }
  }

  ghost predicate Reached(w: World, calls0: nat, calls1: nat) {
    exists trace :: Run(Init(calls0, calls1), trace) == Some(w)
  }

  lemma ReachedInv(w: World, calls0: nat, calls1: nat)
    requires Reached(w, calls0, calls1)
    ensures Inv(w)
  {
    var trace :| Run(Init(calls0, calls1), trace) == Some(w);
    RunKeepsInv(Init(calls0, calls1), trace);
  }

  /** The numbers of the Fins a call has put on the wire. */
  function FinsOf(c: Call): seq<u64> {
    if c.Flushing? || c.Reserved? then [] else c.sent
  }

  /** In every run, no call sends more than three Fins, all with its one number. */
  lemma ThreeFins(w: World, calls0: nat, calls1: nat, side: nat, call: nat)
    requires Reached(w, calls0, calls1) && side < |w.peers| && call < |w.peers[side].calls|
    ensures var c := w.peers[side].calls[call];
            |FinsOf(c)| <= MAX_FIN_ATTEMPTS && forall k :: 0 <= k < |FinsOf(c)| ==> FinsOf(c)[k] == c.fin
  {
    ReachedInv(w, calls0, calls1);
    assert CallInv(w.peers[side].calls[call], w.peers[Other(side)]);
  }

  /** In every run, `close()` has returned Ok at one end only if the other end has already
      processed a Fin with exactly that number, which this end had sent, and has raised its
      flag. */
  lemma CloseAgreement(w: World, calls0: nat, calls1: nat, side: nat, call: nat)
    requires Reached(w, calls0, calls1) && |w.peers| == 2 && side < 2 && call < |w.peers[side].calls|
    requires w.peers[side].calls[call].Returned? && w.peers[side].calls[call].ok
    ensures var c, peer := w.peers[side].calls[call], w.peers[Other(side)];
            && c.fin in peer.answered
            && peer.buffer.peerFinObserved
            && Message(Other(side), true, c.fin) in w.net
            && c.fin in c.sent
  {
    ReachedInv(w, calls0, calls1);
    var c := w.peers[side].calls[call];
    assert CallInv(c, w.peers[Other(side)]);
    assert c.sent[0] == c.fin;
  }

  /** Every FinAck on the wire carries the number of a Fin that its sender received: a Fin
      sent to it under that number, which it has answered, with its flag raised. */
  lemma FinAcksAreEarned(calls0: nat, calls1: nat, trace: seq<Occurrence>, m: Message)
    requires Run(Init(calls0, calls1), trace).Some?
    requires m in Run(Init(calls0, calls1), trace).value.net && !m.isFin
    ensures var w := Run(Init(calls0, calls1), trace).value;
            && |w.peers| == 2 && m.dest < 2
            && Message(Other(m.dest), true, m.number) in w.net
            && m.number in w.peers[Other(m.dest)].answered
            && w.peers[Other(m.dest)].buffer.peerFinObserved
  {
    RunKeepsInv(Init(calls0, calls1), trace);
  }

  lemma StepMonotone(w: World, side: nat, e: Event, at: nat)
    requires Inv(w) && side < 2 && at < 2 && Step(w, side, e).Some?
    ensures var p, p' := w.peers[at], Step(w, side, e).value.peers[at];
            && (p.buffer.peerFinObserved ==> p'.buffer.peerFinObserved)
            && p.answered <= p'.answered
            && (p.buffer.state.Closed? ==> p'.buffer.state.Closed? && p'.answered == p.answered)
  {
    if e.Deliver? && side == at {
      ReceiveEffect(w.peers[side], e.message, e.ids);
    }
  }

  /** Over every run Closed is final, the peer-Fin flag never falls, and an end that has
      closed answers no further Fin. */
  lemma {:induction false} ClosedIsFinal(w: World, trace: seq<Occurrence>, at: nat)
    requires Inv(w) && at < 2 && Run(w, trace).Some?
    ensures |Run(w, trace).value.peers| == 2
    ensures var p, p' := w.peers[at], Run(w, trace).value.peers[at];
            && (p.buffer.peerFinObserved ==> p'.buffer.peerFinObserved)
            && p.answered <= p'.answered
            && (p.buffer.state.Closed? ==> p'.buffer.state.Closed? && p'.answered == p.answered)
    decreases |trace|
  {
    if trace != [] {
      StepKeepsInv(w, trace[0].side, trace[0].event);
      StepMonotone(w, trace[0].side, trace[0].event, at);
      ClosedIsFinal(Step(w, trace[0].side, trace[0].event).value, trace[1..], at);
    }
  }

  /** Over every run: once an end is closed without having answered the Fin `fin`, no call
      of the other end with that number ever returns Ok. */
  lemma ClosedNeverConfirms(w: World, calls0: nat, calls1: nat, at: nat, fin: u64, trace: seq<Occurrence>, c: Call)
    requires Reached(w, calls0, calls1) && |w.peers| == 2 && at < 2
    requires w.peers[at].buffer.state.Closed? && fin !in w.peers[at].answered
    requires Run(w, trace).Some? && |Run(w, trace).value.peers| == 2
    requires c in Run(w, trace).value.peers[Other(at)].calls
    ensures !(c.Returned? && c.ok && c.fin == fin)
  {
    ReachedInv(w, calls0, calls1);
    ClosedIsFinal(w, trace, at);
    RunKeepsInv(w, trace);
    var w' := Run(w, trace).value;
    assert CallInv(c, w'.peers[at]);
  }
}
