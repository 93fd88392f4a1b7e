/** The three-way handshake between one server and any number of clients, over a network
    that loses, duplicates and reorders: every lock-protected action is one step. */
module Handshake {
  import opened Bytes
  import opened Header
  import opened Packet
  import opened Receive
  import H = Hello
  import T = Transfer

  /** A first packet number from which a handshake can count on without wrapping. */
  type StartNumber = n: nat | n + 3 < U64_LIMIT

  datatype ClientPhase = Waiting | Chosen(hello: Packet) | Connected(server: u32, theirs: u64) | Failed

  /** A `connect` call. `peer` is the second half of the key it is registered under (zero
      while it waits for a hello), `slot` and `start` are its connection buffer's, `acks` is
      where its ack window starts, `first` the number its writer starts with. */
  datatype ClientEnd = ClientEnd(
    number: StartNumber,
    phase: ClientPhase,
    peer: u32,
    slot: Option<Packet>,
    start: Option<nat>,
    acks: nat,
    first: Option<u64>)

  datatype AcceptPhase = Pending | Picked(hello: Packet) | Greeted | Done | Refused | Expired

  /** An `accept` call. `queued`: its hello was waiting in the queue when it was called. */
  datatype AcceptEnd = AcceptEnd(
    number: StartNumber,
    phase: AcceptPhase,
    peer: u32,
    theirs: u64,
    slot: Option<Packet>,
    start: Option<nat>,
    queued: bool,
    acks: nat,
    first: Option<u64>)

  /** A packet a worker has looked up the buffer for and not yet put there. */
  datatype Handover = ToAccept(id: u32, packet: Packet, hello: bool) | ToClient(id: u32, packet: Packet)

  datatype World = World(
    clients: map<u32, ClientEnd>,
    accepts: map<u32, AcceptEnd>,
    hello: H.State,
    net: set<Packet>,
    transit: seq<Handover>)

  const EMPTY := World(map[], map[], H.State([], []), {}, [])

  function HandshakePacket(src: u32, dst: u32, number: u64, t: PacketType): Packet {
    Packet(NewHeader(src, dst, t, 0, SecurityFields(false, 0)).(packetNumber := number), [])
  }

  /** A handshake packet travels alone in its datagram and parses back to itself. */
  lemma HandshakeParses(p: Packet)
    requires p.payload == [] && p.header.version == 0 && p.header.typeSpecific == 0 && p.header.typeField != Data
    ensures T.Received(EncodePacket(p)) == [p]
  {
    assert EncodeAll([p]) == EncodePacket(p) + EncodeAll([]);
    assert EncodeAll([p]) == EncodePacket(p);
    ParserInvertsPrinter(EncodeAll([p]), [p]);
  }

  // ---- steps ----

  datatype Event =
    | Connect(id: u32, number: StartNumber)
    | AcceptCall(id: u32, number: StartNumber)
    | ServerReads(packet: Packet)
    | ClientReads(packet: Packet)
    | Deliver(k: nat)
    | TakeHello(id: u32)
    | Greet(id: u32)
    | TakeAck(id: u32)
    | TakeServerHello(id: u32)
    | Finish(id: u32)
    | ExpireAccept(id: u32)
    | ExpireClient(id: u32)

  function NewClient(n: StartNumber): ClientEnd {
    ClientEnd(n, Waiting, 0, None, None, n + 2, None)
  }

  function NewAccept(n: StartNumber, phase: AcceptPhase, queued: bool): AcceptEnd {
    AcceptEnd(n, phase, 0, 0, None, None, queued, n + 1, None)
  }

  function ConnectStep(w: World, c: u32, n: StartNumber): Option<World> {
    if c in w.clients then None
    else Some(w.(clients := w.clients[c := NewClient(n)],
                 net := w.net + {HandshakePacket(c, 0, n, ClientHello)}))
  }

  function AcceptStep(w: World, s: u32, n: StartNumber): Option<World> {
    if s in w.accepts then None
    else
      var (hello, got) := H.Accept(w.hello, s);
      var phase := if got.Some? then Picked(got.value) else Pending;
      Some(w.(accepts := w.accepts[s := NewAccept(n, phase, got.Some?)], hello := hello))
  }

  /** A server worker reads a datagram and looks up the buffer for its packet. */
  function ServerReadsStep(w: World, p: Packet): Option<World> {
    if H.IsHello(PackLeader, p) then
      var (hello, action) := H.Arrive(w.hello, p);
      if action.Routed? && action.id in w.accepts && w.accepts[action.id].peer == 0
      then Some(w.(hello := hello, transit := w.transit + [ToAccept(action.id, p, true)]))
      else Some(w.(hello := hello))
    else if H.IsClientAck(PackLeader, p) && p.header.dst in w.accepts && w.accepts[p.header.dst].peer == p.header.src
    then Some(w.(transit := w.transit + [ToAccept(p.header.dst, p, false)]))
    else None
  }

  function ClientReadsStep(w: World, p: Packet): Option<World> {
    if H.IsHello(Client, p) && p.header.dst in w.clients && w.clients[p.header.dst].peer == 0
    then Some(w.(transit := w.transit + [ToClient(p.header.dst, p)]))
    else None
  }

  /** The connection buffer keeps one packet; the first ever kept sets the start. */
  function KeepAtServer(e: AcceptEnd, p: Packet): AcceptEnd {
    if e.slot.Some? then e
    else e.(slot := Some(p),
            start := if e.start.Some? then e.start else Some(StartAfter(PackLeader, p.header.packetNumber, 0)))
  }

  function KeepAtClient(e: ClientEnd, p: Packet): ClientEnd {
    if e.slot.Some? then e
    else e.(slot := Some(p),
            start := if e.start.Some? then e.start else Some(StartAfter(Client, p.header.packetNumber, 0)))
  }

  function DeliverStep(w: World, k: nat): Option<World> {
    if k >= |w.transit| then None
    else
      var w' := w.(transit := w.transit[..k] + w.transit[k + 1..]);
      match w.transit[k]
      case ToAccept(id, p, _) =>
        if id in w.accepts then Some(w'.(accepts := w.accepts[id := KeepAtServer(w.accepts[id], p)])) else None
      case ToClient(id, p) =>
        if id in w.clients then Some(w'.(clients := w.clients[id := KeepAtClient(w.clients[id], p)])) else None
  }

  /** What an `accept` call does next, and the packet it sends. */
  function AcceptMoves(s: u32, e: AcceptEnd, event: Event): Option<(AcceptEnd, set<Packet>)> {
    match event
    case TakeHello(_) =>
      if e.phase.Pending? && e.slot.Some? then Some((e.(phase := Picked(e.slot.value), slot := None), {})) else None
    case Greet(_) =>
      if !e.phase.Picked? then None
      else
        var p := e.phase.hello;
        if p.header.packetNumber == 0 then Some((e.(phase := Refused), {}))
        else Some((e.(phase := Greeted, peer := p.header.src, theirs := p.header.packetNumber),
                   {HandshakePacket(s, p.header.src, e.number, ServerHello)}))
    case TakeAck(_) =>
      if !e.phase.Greeted? || e.slot.None? then None
      else if e.slot.value.header.packetNumber != e.theirs + 1 then Some((e.(phase := Expired, slot := None), {}))
      else Some((e.(phase := Done, slot := None, first := Some(e.number + 1)), {}))
    case ExpireAccept(_) => if e.phase.Greeted? then Some((e.(phase := Expired), {})) else None
    case _ => None
  }

  /** What a `connect` call does next, and the packet it sends. */
  function ClientMoves(c: u32, e: ClientEnd, event: Event): Option<(ClientEnd, set<Packet>)> {
    match event
    case TakeServerHello(_) =>
      if e.phase.Waiting? && e.slot.Some? then Some((e.(phase := Chosen(e.slot.value), slot := None), {})) else None
    case Finish(_) =>
      if !e.phase.Chosen? then None
      else
        var p := e.phase.hello;
        if p.header.packetNumber == 0 then Some((e.(phase := Failed), {}))
        else Some((e.(phase := Connected(p.header.src, p.header.packetNumber), peer := p.header.src,
                      first := Some(e.number + 2)),
                   {HandshakePacket(c, p.header.src, e.number + 1, ClientAck)}))
    case ExpireClient(_) => if e.phase.Waiting? then Some((e.(phase := Failed), {})) else None
    case _ => None
  }

  function AcceptMoveStep(w: World, s: u32, e: Event): Option<World> {
    if s !in w.accepts then None
    else match AcceptMoves(s, w.accepts[s], e)
      case None => None
      case Some((end, out)) => Some(w.(accepts := w.accepts[s := end], net := w.net + out))
  }

  function ClientMoveStep(w: World, c: u32, e: Event): Option<World> {
    if c !in w.clients then None
    else match ClientMoves(c, w.clients[c], e)
      case None => None
      case Some((end, out)) => Some(w.(clients := w.clients[c := end], net := w.net + out))
  }

  /** A datagram on the network, as a worker parses it: exactly one packet, or none of
      the handshake's business. */
  function Single(p: Packet): Option<Packet> {
    var ps := T.Received(EncodePacket(p));
    if |ps| == 1 then Some(ps[0]) else None
  }

  function Step(w: World, e: Event): Option<World> {
    match e
    case Connect(c, n) => ConnectStep(w, c, n)
    case AcceptCall(s, n) => AcceptStep(w, s, n)
    case ServerReads(p) => if p in w.net && Single(p).Some? then ServerReadsStep(w, Single(p).value) else None
    case ClientReads(p) => if p in w.net && Single(p).Some? then ClientReadsStep(w, Single(p).value) else None
    case Deliver(k) => DeliverStep(w, k)
    case TakeHello(s) => AcceptMoveStep(w, s, e)
    case Greet(s) => AcceptMoveStep(w, s, e)
    case TakeAck(s) => AcceptMoveStep(w, s, e)
    case ExpireAccept(s) => AcceptMoveStep(w, s, e)
    case TakeServerHello(c) => ClientMoveStep(w, c, e)
    case Finish(c) => ClientMoveStep(w, c, e)
    case ExpireClient(c) => ClientMoveStep(w, c, e)
  }

  function Run(w: World, trace: seq<Event>): Option<World>
    decreases |trace|
  {
    if trace == [] then Some(w)
    else match Step(w, trace[0])
      case None => None
      case Some(w') => Run(w', trace[1..])
  }

  // ---- invariant ----

  /** A hello that a client sent. */
  predicate GoodHello(p: Packet, clients: map<u32, ClientEnd>) {
    && p.header.src in clients && p.header.src != 0
    && p.header.packetNumber == clients[p.header.src].number
  }

  predicate IsGreeting(phase: AcceptPhase) {
    phase.Greeted? || phase.Done? || phase.Expired?
  }

  /** The accept call `s`, with first number `n`, has answered the hello of `c`. */
  predicate Greeter(accepts: map<u32, AcceptEnd>, s: u32, c: u32, n: u64) {
    s in accepts && IsGreeting(accepts[s].phase) && accepts[s].peer == c && accepts[s].number == n
  }

  predicate GoodServerHello(p: Packet, c: u32, accepts: map<u32, AcceptEnd>) {
    Greeter(accepts, p.header.src, c, p.header.packetNumber)
  }

  /** An ack by which client `c`, connected to `s`, finishes the handshake. */
  predicate GoodAck(p: Packet, s: u32, clients: map<u32, ClientEnd>) {
    && p.header.src in clients
    && clients[p.header.src].phase.Connected? && clients[p.header.src].phase.server == s
    && p.header.packetNumber == clients[p.header.src].number + 1
  }

  predicate ClientInv(e: ClientEnd, c: u32, accepts: map<u32, AcceptEnd>) {
    e.acks == e.number + 2 && match e.phase
    case Waiting =>
      && (e.slot.None? ==> e.start.None?)
      && (e.slot.Some? ==>
            GoodServerHello(e.slot.value, c, accepts) && e.start == Some(e.slot.value.header.packetNumber + 1))
    case Chosen(p) => GoodServerHello(p, c, accepts) && e.start == Some(p.header.packetNumber + 1)
    case Connected(s, n) =>
      e.peer == s && Greeter(accepts, s, c, n) && e.start == Some(n + 1) && e.first == Some(e.number + 2)
    case Failed => true
  }

  predicate AcceptInv(e: AcceptEnd, s: u32, clients: map<u32, ClientEnd>) {
    e.acks == e.number + 1 && match e.phase
    case Pending =>
      && e.peer == 0 && !e.queued
      && (e.slot.None? ==> e.start.None?)
      && (e.slot.Some? ==> GoodHello(e.slot.value, clients) && e.start == Some(e.slot.value.header.packetNumber + 2))
    case Picked(p) =>
      && e.peer == 0 && e.slot == None && GoodHello(p, clients)
      && e.start == if e.queued then None else Some(p.header.packetNumber + 2)
    case Greeted =>
      && KnownPeer(e, clients)
      && (e.slot.Some? ==> e.slot.value.header.src == e.peer && GoodAck(e.slot.value, s, clients))
      && e.start == if !e.queued then Some(e.theirs + 2) else if e.slot.Some? then Some(e.theirs + 3) else None
    case Done =>
      && KnownPeer(e, clients)
      && clients[e.peer].phase.Connected? && clients[e.peer].phase.server == s
      && e.start == Some(e.theirs + if e.queued then 3 else 2) && e.first == Some(e.number + 1)
    case Expired => KnownPeer(e, clients)
    case Refused => e.peer == 0
  }

  predicate KnownPeer(e: AcceptEnd, clients: map<u32, ClientEnd>) {
    e.peer != 0 && e.peer in clients && clients[e.peer].number == e.theirs
  }

  /** The network carries nothing but what the two sides sent. */
  predicate GoodPacket(p: Packet, clients: map<u32, ClientEnd>, accepts: map<u32, AcceptEnd>) {
    && p == HandshakePacket(p.header.src, p.header.dst, p.header.packetNumber, p.header.typeField)
    && match p.header.typeField
       case ClientHello => p.header.src in clients && p.header.packetNumber == clients[p.header.src].number
       case ServerHello => GoodServerHello(p, p.header.dst, accepts)
       case ClientAck => GoodAck(p, p.header.dst, clients)
       case _ => false
  }

  /** An accept call that still waits for its hello. */
  predicate Open(accepts: map<u32, AcceptEnd>, id: u32) {
    id in accepts && accepts[id].phase.Pending? && accepts[id].slot == None
  }

  predicate GoodHandover(t: Handover, clients: map<u32, ClientEnd>, accepts: map<u32, AcceptEnd>) {
    match t
    case ToAccept(id, p, true) => Open(accepts, id) && GoodHello(p, clients)
    case ToAccept(id, p, false) =>
      id in accepts && IsGreeting(accepts[id].phase) && accepts[id].peer == p.header.src && GoodAck(p, id, clients)
    case ToClient(id, p) => id in clients && GoodServerHello(p, id, accepts)
  }

  ghost predicate HelloInv(hello: H.State, clients: map<u32, ClientEnd>, accepts: map<u32, AcceptEnd>) {
    && (forall i :: 0 <= i < |hello.pending| ==> Open(accepts, hello.pending[i]))
    && (forall i, j :: 0 <= i < j < |hello.pending| ==> hello.pending[i] != hello.pending[j])
    && (forall i :: 0 <= i < |hello.queue| ==> GoodHello(hello.queue[i], clients))
  }

  /** No accept call is promised two hellos. */
  ghost predicate TransitInv(transit: seq<Handover>, hello: H.State, clients: map<u32, ClientEnd>, accepts: map<u32, AcceptEnd>) {
    && (forall k :: 0 <= k < |transit| ==> GoodHandover(transit[k], clients, accepts))
    && (forall k, l :: 0 <= k < l < |transit| && IsHelloTo(transit[k]) && IsHelloTo(transit[l]) ==> transit[k].id != transit[l].id)
    && (forall k :: 0 <= k < |transit| && IsHelloTo(transit[k]) ==> transit[k].id !in hello.pending)
  }

  predicate IsHelloTo(t: Handover) {
    t.ToAccept? && t.hello
  }

  ghost predicate EndsInv(clients: map<u32, ClientEnd>, accepts: map<u32, AcceptEnd>) {
    && (forall c :: c in clients ==> ClientInv(clients[c], c, accepts))
    && (forall s :: s in accepts ==> AcceptInv(accepts[s], s, clients))
  }

  ghost predicate NetInv(net: set<Packet>, clients: map<u32, ClientEnd>, accepts: map<u32, AcceptEnd>) {
    forall p :: p in net ==> GoodPacket(p, clients, accepts)
  }

  ghost predicate Inv(w: World) {
    && EndsInv(w.clients, w.accepts)
    && NetInv(w.net, w.clients, w.accepts)
    && HelloInv(w.hello, w.clients, w.accepts)
    && TransitInv(w.transit, w.hello, w.clients, w.accepts)
  }

  // ---- what an update of one end leaves intact ----

  ghost predicate ClientsGrow(a: map<u32, ClientEnd>, b: map<u32, ClientEnd>) {
    forall c :: c in a ==>
      c in b && b[c].number == a[c].number && (a[c].phase.Connected? ==> b[c].phase == a[c].phase)
  }

  ghost predicate AcceptsGrow(a: map<u32, AcceptEnd>, b: map<u32, AcceptEnd>) {
    forall s :: s in a ==>
      && s in b
      && (IsGreeting(a[s].phase) ==>
            IsGreeting(b[s].phase) && b[s].peer == a[s].peer && b[s].number == a[s].number)
  }

  /** No hello is on its way to `s`, and none will be. */
  ghost predicate Unpromised(transit: seq<Handover>, hello: H.State, s: u32) {
    && s !in hello.pending
    && forall k :: 0 <= k < |transit| && IsHelloTo(transit[k]) ==> transit[k].id != s
  }

  lemma ClosedIsUnpromised(w: World, s: u32)
    requires HelloInv(w.hello, w.clients, w.accepts) && TransitInv(w.transit, w.hello, w.clients, w.accepts)
    requires !Open(w.accepts, s)
    ensures Unpromised(w.transit, w.hello, s)
  {
  }

  lemma ClientUpdate(w: World, c: u32, e: ClientEnd, out: set<Packet>)
    requires Inv(w)
    requires c in w.clients ==> ClientsGrow(map[c := w.clients[c]], map[c := e])
    requires ClientInv(e, c, w.accepts)
    requires forall p :: p in out ==> GoodPacket(p, w.clients[c := e], w.accepts)
    ensures Inv(w.(clients := w.clients[c := e], net := w.net + out))
  {
    var clients := w.clients[c := e];
    assert ClientsGrow(w.clients, clients) by {
      assert c in w.clients ==> c in map[c := w.clients[c]];
    }
    ClientEndsKeep(w.clients, c, e, w.accepts);
  }

  lemma ClientEndsKeep(clients: map<u32, ClientEnd>, c: u32, e: ClientEnd, accepts: map<u32, AcceptEnd>)
    requires EndsInv(clients, accepts) && ClientsGrow(clients, clients[c := e]) && ClientInv(e, c, accepts)
    ensures EndsInv(clients[c := e], accepts)
  {
  }

  lemma AcceptUpdate(w: World, s: u32, e: AcceptEnd, out: set<Packet>)
    requires Inv(w) && Unpromised(w.transit, w.hello, s)
    requires s in w.accepts ==> AcceptsGrow(map[s := w.accepts[s]], map[s := e])
    requires AcceptInv(e, s, w.clients)
    requires forall p :: p in out ==> GoodPacket(p, w.clients, w.accepts[s := e])
    ensures Inv(w.(accepts := w.accepts[s := e], net := w.net + out))
  {
    var accepts := w.accepts[s := e];
    assert AcceptsGrow(w.accepts, accepts) by {
      assert s in w.accepts ==> s in map[s := w.accepts[s]];
    }
  }

  // ---- every step keeps the invariant ----

  lemma ConnectKeeps(w: World, c: u32, n: StartNumber)
    requires Inv(w) && ConnectStep(w, c, n).Some?
    ensures Inv(ConnectStep(w, c, n).value)
  {
    ClientUpdate(w, c, NewClient(n), {HandshakePacket(c, 0, n, ClientHello)});
  }

  lemma AcceptKeeps(w: World, s: u32, n: StartNumber)
    requires Inv(w) && AcceptStep(w, s, n).Some?
    ensures Inv(AcceptStep(w, s, n).value)
  {
    ClosedIsUnpromised(w, s);
    var (hello, got) := H.Accept(w.hello, s);
    if got.Some? {
      var w1 := w.(hello := hello);
      AcceptUpdate(w1, s, NewAccept(n, Picked(got.value), true), {});
      assert w1.net + {} == w1.net;
    } else {
      AcceptUpdate(w, s, NewAccept(n, Pending, false), {});
      assert w.net + {} == w.net;
    }
  }

  lemma GoodSingle(w: World, p: Packet)
    requires NetInv(w.net, w.clients, w.accepts) && p in w.net
    ensures Single(p) == Some(p) && GoodPacket(p, w.clients, w.accepts)
  {
    assert GoodPacket(p, w.clients, w.accepts);
    HandshakeParses(p);
  }

  lemma ServerReadsKeeps(w: World, p: Packet)
    requires Inv(w) && GoodPacket(p, w.clients, w.accepts) && ServerReadsStep(w, p).Some?
    ensures Inv(ServerReadsStep(w, p).value)
  {
    if H.IsHello(PackLeader, p) {
      var (hello, action) := H.Arrive(w.hello, p);
      if action.Routed? {
        assert Open(w.accepts, w.hello.pending[0]);
        assert AcceptInv(w.accepts[action.id], action.id, w.clients);
        assert action.id !in hello.pending;
      }
    } else {
      assert AcceptInv(w.accepts[p.header.dst], p.header.dst, w.clients);
    }
  }

  lemma ClientReadsKeeps(w: World, p: Packet)
    requires Inv(w) && GoodPacket(p, w.clients, w.accepts) && ClientReadsStep(w, p).Some?
    ensures Inv(ClientReadsStep(w, p).value)
  {
  }

  /** Taking a packet out of a worker's hands: a hello taken out was the only one. */
  lemma RemoveKeeps(w: World, k: nat)
    requires Inv(w) && k < |w.transit|
    ensures var transit := w.transit[..k] + w.transit[k + 1..];
            && Inv(w.(transit := transit))
            && (IsHelloTo(w.transit[k]) ==> Unpromised(transit, w.hello, w.transit[k].id))
  {
  }

  lemma KeepAtServerInv(e: AcceptEnd, s: u32, clients: map<u32, ClientEnd>, p: Packet, hello: bool)
    requires AcceptInv(e, s, clients)
    requires hello ==> e.phase.Pending? && e.slot == None && GoodHello(p, clients)
    requires !hello ==> IsGreeting(e.phase) && e.peer == p.header.src && GoodAck(p, s, clients)
    ensures AcceptInv(KeepAtServer(e, p), s, clients)
  {
  }

  lemma DeliverKeeps(w: World, k: nat)
    requires Inv(w) && DeliverStep(w, k).Some?
    ensures Inv(DeliverStep(w, k).value)
  {
    RemoveKeeps(w, k);
    var w1 := w.(transit := w.transit[..k] + w.transit[k + 1..]);
    assert w1.net + {} == w1.net;
    assert GoodHandover(w.transit[k], w.clients, w.accepts);
    match w.transit[k]
    case ToAccept(s, p, hello) =>
      assert AcceptInv(w.accepts[s], s, w.clients);
      KeepAtServerInv(w.accepts[s], s, w.clients, p, hello);
      if !hello {
        ClosedIsUnpromised(w1, s);
      }
      AcceptUpdate(w1, s, KeepAtServer(w.accepts[s], p), {});
    case ToClient(c, p) =>
      assert ClientInv(w.clients[c], c, w.accepts);
      ClientUpdate(w1, c, KeepAtClient(w.clients[c], p), {});
  }

  lemma AcceptMoveKeeps(w: World, s: u32, e: Event)
    requires Inv(w) && AcceptMoveStep(w, s, e).Some?
    ensures Inv(AcceptMoveStep(w, s, e).value)
  {
    assert AcceptInv(w.accepts[s], s, w.clients);
    var (end, out) := AcceptMoves(s, w.accepts[s], e).value;
    ClosedIsUnpromised(w, s);
    if e.TakeAck? {
      assert GoodAck(w.accepts[s].slot.value, s, w.clients);
    }
    AcceptUpdate(w, s, end, out);
  }

  lemma ClientMoveKeeps(w: World, c: u32, e: Event)
    requires Inv(w) && ClientMoveStep(w, c, e).Some?
    ensures Inv(ClientMoveStep(w, c, e).value)
  {
    assert ClientInv(w.clients[c], c, w.accepts);
    var (end, out) := ClientMoves(c, w.clients[c], e).value;
    ClientUpdate(w, c, end, out);
  }

  lemma StepKeepsInv(w: World, e: Event)
    requires Inv(w) && Step(w, e).Some?
    ensures Inv(Step(w, e).value)
  {
    match e
    case Connect(c, n) => ConnectKeeps(w, c, n);
    case AcceptCall(s, n) => AcceptKeeps(w, s, n);
    case ServerReads(p) =>
      GoodSingle(w, p);
      ServerReadsKeeps(w, p);
    case ClientReads(p) =>
      GoodSingle(w, p);
      ClientReadsKeeps(w, p);
    case Deliver(k) => DeliverKeeps(w, k);
    case TakeHello(s) => AcceptMoveKeeps(w, s, e);
    case Greet(s) => AcceptMoveKeeps(w, s, e);
    case TakeAck(s) => AcceptMoveKeeps(w, s, e);
    case ExpireAccept(s) => AcceptMoveKeeps(w, s, e);
    case TakeServerHello(c) => ClientMoveKeeps(w, c, e);
    case Finish(c) => ClientMoveKeeps(w, c, e);
    case ExpireClient(c) => ClientMoveKeeps(w, c, e);
  }

  lemma {:induction false} EveryRunKeepsInv(w: World, trace: seq<Event>)
    requires Inv(w) && Run(w, trace).Some?
    ensures Inv(Run(w, trace).value)
    decreases |trace|
  {
    if trace != [] {
      StepKeepsInv(w, trace[0]);
      EveryRunKeepsInv(Step(w, trace[0]).value, trace[1..]);
    }
  }

  // ---- what both sides agree on ----

  ghost predicate Reachable(w: World) {
    exists trace :: Run(EMPTY, trace) == Some(w)
  }

  lemma ReachableInv(w: World)
    requires Reachable(w)
    ensures Inv(w)
  {
    var trace :| Run(EMPTY, trace) == Some(w);
    EveryRunKeepsInv(EMPTY, trace);
  }

  /** Over every run: when an `accept` call `s` succeeds, the client it names has connected
      to `s`; each is registered under the other's key and holds the other's number. Each
      end's ack window starts at its own first data number. The client expects the server's
      first data number. The server expects the client's if a worker routed the hello to the
      call, and one more if the hello was taken from the queue. */
  lemma Agreement(w: World, s: u32)
    requires Reachable(w) && s in w.accepts && w.accepts[s].phase.Done?
    ensures var c := w.accepts[s].peer;
            && c in w.clients
            && w.clients[c].phase == Connected(s, w.accepts[s].number) && w.clients[c].peer == s
            && w.accepts[s].theirs == w.clients[c].number
            && w.clients[c].first == Some(w.clients[c].number + 2) && w.clients[c].acks == w.clients[c].number + 2
            && w.accepts[s].first == Some(w.accepts[s].number + 1) && w.accepts[s].acks == w.accepts[s].number + 1
            && w.clients[c].start == Some(w.accepts[s].first.value)
            && w.accepts[s].start == Some(w.clients[c].first.value + if w.accepts[s].queued then 1 else 0)
  {
    ReachableInv(w);
    assert AcceptInv(w.accepts[s], s, w.clients);
    assert ClientInv(w.clients[w.accepts[s].peer], w.accepts[s].peer, w.accepts);
  }

  /** Over every run: however often its hello is duplicated, a client is accepted once. */
  lemma AcceptedOnce(w: World, s: u32, s': u32)
    requires Reachable(w) && s in w.accepts && s' in w.accepts
    requires w.accepts[s].phase.Done? && w.accepts[s'].phase.Done? && w.accepts[s].peer == w.accepts[s'].peer
    ensures s == s'
  {
    Agreement(w, s);
    Agreement(w, s');
  }

  /** Over every run: an ack that reaches a greeted call always carries the expected number. */
  lemma AckNumberMatches(w: World, s: u32)
    requires Reachable(w) && s in w.accepts && w.accepts[s].phase.Greeted? && w.accepts[s].slot.Some?
    ensures Step(w, TakeAck(s)).Some? && Step(w, TakeAck(s)).value.accepts[s].phase.Done?
  {
    ReachableInv(w);
    assert AcceptInv(w.accepts[s], s, w.clients);
  }

  // ---- a hello that had to queue ----

  lemma {:induction false} RunSnoc(w: World, trace: seq<Event>, e: Event)
    requires Run(w, trace).Some?
    ensures Run(w, trace + [e]) == Step(Run(w, trace).value, e)
    decreases |trace|
  {
    if trace == [] {
      assert [e][1..] == [] && trace + [e] == [e];
    } else {
      assert (trace + [e])[1..] == trace[1..] + [e];
      RunSnoc(Step(w, trace[0]).value, trace[1..], e);
    }
  }

  lemma Then(w: World, e: Event) returns (w': World)
    requires Reachable(w) && Step(w, e).Some?
    ensures Reachable(w') && w' == Step(w, e).value
  {
    var trace :| Run(EMPTY, trace) == Some(w);
    RunSnoc(EMPTY, trace, e);
    w' := Step(w, e).value;
    assert Run(EMPTY, trace + [e]) == Some(w');
  }

  /** The hello arrives and queues. */
  lemma HelloQueues(c: u32, n: StartNumber) returns (w: World)
    requires c != 0
    ensures Reachable(w) && c in w.clients && w.clients[c] == NewClient(n)
    ensures w.hello == H.State([], [HandshakePacket(c, 0, n, ClientHello)])
    ensures w.accepts == map[] && w.transit == []
  {
    var p := HandshakePacket(c, 0, n, ClientHello);
    assert Run(EMPTY, []) == Some(EMPTY);
    w := Then(EMPTY, Connect(c, n));
    HandshakeParses(p);
    QueueFirst(p);
    w := Then(w, ServerReads(p));
  }

  lemma QueueFirst(p: Packet)
    ensures H.Arrive(H.State([], []), p) == (H.State([], [p]), H.Queued)
  {
    assert [] + [p] == [p];
  }

  /** It is taken and answered by the next `accept`. */
  lemma AcceptGreets(w: World, c: u32, s: u32, n: StartNumber, m: StartNumber) returns (w': World)
    requires c != 0 && n != 0 && Reachable(w) && w.accepts == map[]
    requires w.hello == H.State([], [HandshakePacket(c, 0, n, ClientHello)])
    ensures Reachable(w') && s in w'.accepts && w'.accepts[s] == NewAccept(m, Greeted, true).(peer := c, theirs := n)
    ensures w'.clients == w.clients && w'.transit == w.transit
    ensures HandshakePacket(s, c, m, ServerHello) in w'.net
  {
    var p := HandshakePacket(c, 0, n, ClientHello);
    assert H.Accept(w.hello, s).1 == Some(p);
    w' := Then(w, AcceptCall(s, m));
    w' := Then(w', Greet(s));
  }

  lemma SingleHandshake(src: u32, dst: u32, n: u64, t: PacketType)
    requires t != Data
    ensures Single(HandshakePacket(src, dst, n, t)) == Some(HandshakePacket(src, dst, n, t))
  {
    HandshakeParses(HandshakePacket(src, dst, n, t));
  }

  /** A packet on the network reaches the buffer of the client it is for. */
  lemma ClientReceives(w: World, c: u32, p: Packet) returns (w': World)
    requires Reachable(w) && w.transit == [] && p in w.net && Single(p) == Some(p)
    requires H.IsHello(Client, p) && p.header.dst == c && c in w.clients && w.clients[c].peer == 0
    ensures Reachable(w') && w'.accepts == w.accepts && w'.transit == [] && w'.net == w.net
    ensures c in w'.clients && w'.clients[c] == KeepAtClient(w.clients[c], p)
  {
    w' := Then(w, ClientReads(p));
    assert w'.transit == [ToClient(c, p)];
    w' := Then(w', Deliver(0));
  }

  /** An ack on the network reaches the buffer of the `accept` call it is for. */
  lemma AcceptReceives(w: World, s: u32, p: Packet) returns (w': World)
    requires Reachable(w) && w.transit == [] && p in w.net && Single(p) == Some(p)
    requires H.IsClientAck(PackLeader, p) && p.header.dst == s && s in w.accepts && w.accepts[s].peer == p.header.src
    ensures Reachable(w') && w'.clients == w.clients
    ensures s in w'.accepts && w'.accepts[s] == KeepAtServer(w.accepts[s], p)
  {
    w' := Then(w, ServerReads(p));
    assert w'.transit == [ToAccept(s, p, false)];
    w' := Then(w', Deliver(0));
  }

  lemma ClientAnswers(w: World, c: u32, p: Packet) returns (w': World)
    requires Reachable(w) && c in w.clients && p.header.packetNumber != 0
    requires w.clients[c].phase.Waiting? && w.clients[c].slot == Some(p)
    ensures Reachable(w') && w'.accepts == w.accepts && w'.transit == w.transit
    ensures c in w'.clients && w'.clients[c].number == w.clients[c].number
    ensures HandshakePacket(c, p.header.src, w.clients[c].number + 1, ClientAck) in w'.net
  {
    w' := Then(w, TakeServerHello(c));
    w' := Then(w', Finish(c));
  }

  /** The client takes the server's hello and answers it. */
  lemma ClientFinishes(w: World, c: u32, s: u32, n: StartNumber, m: StartNumber) returns (w': World)
    requires c != 0 && s != 0 && m != 0 && Reachable(w) && w.transit == []
    requires c in w.clients && w.clients[c] == NewClient(n)
    requires HandshakePacket(s, c, m, ServerHello) in w.net
    ensures Reachable(w') && w'.accepts == w.accepts && w'.transit == []
    ensures c in w'.clients && w'.clients[c].number == n
    ensures HandshakePacket(c, s, n + 1, ClientAck) in w'.net
  {
    var p := HandshakePacket(s, c, m, ServerHello);
    SingleHandshake(s, c, m, ServerHello);
    w' := ClientReceives(w, c, p);
    w' := ClientAnswers(w', c, p);
  }

  lemma AckTaken(w: World, s: u32) returns (w': World)
    requires Reachable(w) && s in w.accepts && w.accepts[s].phase.Greeted? && w.accepts[s].slot.Some?
    requires w.accepts[s].slot.value.header.packetNumber == w.accepts[s].theirs + 1
    ensures Reachable(w') && w'.clients == w.clients
    ensures s in w'.accepts && w'.accepts[s] == w.accepts[s].(phase := Done, slot := None, first := Some(w.accepts[s].number + 1))
  {
    w' := Then(w, TakeAck(s));
  }

  /** The server takes the client's ack. */
  lemma AcceptFinishes(w: World, s: u32, p: Packet) returns (w': World)
    requires Reachable(w) && w.transit == [] && p in w.net && Single(p) == Some(p)
    requires H.IsClientAck(PackLeader, p) && p.header.dst == s && s in w.accepts && w.accepts[s].peer == p.header.src
    requires w.accepts[s].phase.Greeted? && w.accepts[s].slot == None && w.accepts[s].start == None
    requires p.header.packetNumber == w.accepts[s].theirs + 1
    ensures Reachable(w') && w'.clients == w.clients
    ensures s in w'.accepts && w'.accepts[s].phase.Done? && w'.accepts[s].peer == w.accepts[s].peer
    ensures w'.accepts[s].start == Some(w.accepts[s].theirs + 3)
  {
    w' := AcceptReceives(w, s, p);
    w' := AckTaken(w', s);
  }

  /** The starts need not match: with any numbers, a hello that had to wait for its `accept`
      ends in a connection whose server expects one more than the client's first data
      number. */
  lemma QueuedHelloSkipsOne(c: u32, s: u32, n: StartNumber, m: StartNumber) returns (w: World)
    requires c != 0 && s != 0 && n != 0 && m != 0
    ensures Reachable(w) && s in w.accepts && c in w.clients
    ensures w.accepts[s].phase.Done? && w.accepts[s].peer == c && w.clients[c].number == n
    ensures w.accepts[s].start == Some(n + 2 + 1)
  {
    w := HelloQueues(c, n);
    w := AcceptGreets(w, c, s, n, m);
    w := ClientFinishes(w, c, s, n, m);
    SingleHandshake(c, s, n + 1, ClientAck);
    w := AcceptFinishes(w, s, HandshakePacket(c, s, n + 1, ClientAck));
  }
}
