/** The writer pipeline: send calls, the bounded channel, the packing task and the sender
    task, interleaved in any order. Every atomic operation is one step. */
module Pipeline {
  import opened Bytes
  import opened Header
  import opened Packet
  import opened Packetizer

  const CHANNEL_BOUND: nat := 4096
  const BATCH_LIMIT: nat := 20
  const DATAGRAMS_PER_WAKEUP: nat := 12

  /** Where a send call is: past the closed check, past the increment of the counter, past
      an enqueue that failed, with the increment still to be undone. */
  datatype Send = Idle | Checked(payload: seq<byte>) | Counted(payload: seq<byte>) | Failed(payload: seq<byte>)

  /** Where the packing task is. `Packing(i)` has handed off `i` datagrams since it woke up;
      `Storing(i)` is about to mirror its packet counter. */
  datatype Packer = Waiting | Draining(batch: seq<seq<byte>>) | Packing(i: nat) | Storing(i: nat)

  /** Where the sender task is: holding a datagram, or having sent one it has not yet
      subtracted from the counter. */
  datatype Sender = Ready | Holding(datagram: seq<byte>, bytes: nat) | Accounting(bytes: nat)

  datatype Conn = Conn(src: u32, dst: u32, first: u64)

  /** `accepted` is the history of enqueued sends, `groups` that of packed datagrams: the
      payload chunks of each, in packing order. */
  datatype Pipe = Pipe(
    conn: Conn,
    sends: seq<Send>,
    channel: seq<seq<byte>>,
    packer: Packer,
    queue: seq<seq<byte>>,
    next: nat,
    mirror: nat,
    inflight: seq<(seq<byte>, nat)>,
    sender: Sender,
    wire: seq<seq<byte>>,
    pending: int,
    closed: bool,
    reserved: bool,
    accepted: seq<seq<byte>>,
    groups: seq<seq<seq<byte>>>)

  datatype SendEvent =
    | Check(id: nat, payload: seq<byte>)
    | Count(id: nat)
    | Enqueue(id: nat)
    | Fail(id: nat)
    | Undo(id: nat)

  datatype PackEvent = Receive | Drain | Fill | Pack(rest: seq<seq<byte>>) | Store

  datatype SenderEvent = Take | Transmit | Account

  datatype Event =
    | Caller(send: SendEvent)
    | PackTask(pack: PackEvent)
    | SendTask(out: SenderEvent)
    | MarkClosed
    | Reserve

  function Init(conn: Conn, callers: nat): Pipe {
    Pipe(conn, seq(callers, _ => Idle), [], Waiting, [], conn.first, conn.first, [], Ready, [], 0, false, false, [], [])
  }

  /** A send call: closed check, increment, then enqueue, or a failed enqueue if the channel is
      full and then the decrement. */
  function SendStep(p: Pipe, e: SendEvent): Option<Pipe> {
    if e.id >= |p.sends| then None
    else
      var s := p.sends[e.id];
      match e
      case Check(id, payload) =>
        if s.Idle? && !p.closed then Some(p.(sends := p.sends[id := Checked(payload)])) else None
      case Count(id) =>
        if s.Checked? then Some(p.(sends := p.sends[id := Counted(s.payload)], pending := p.pending + |s.payload|)) else None
      case Enqueue(id) =>
        if s.Counted? && |p.channel| < CHANNEL_BOUND
        then Some(p.(sends := p.sends[id := Idle], channel := p.channel + [s.payload], accepted := p.accepted + [s.payload]))
        else None
      case Fail(id) =>
        if s.Counted? && |p.channel| >= CHANNEL_BOUND then Some(p.(sends := p.sends[id := Failed(s.payload)])) else None
      case Undo(id) =>
        if s.Failed? then Some(p.(sends := p.sends[id := Idle], pending := p.pending - |s.payload|)) else None
  }

  /** The packing task: wait for one message, drain up to twenty, pack up to twelve
      datagrams, mirror the counter. The packer leaves some queue holding the remaining bytes. */
  function PackerStep(p: Pipe, e: PackEvent): Option<Pipe> {
    match e
    case Receive =>
      if p.packer.Waiting? && p.channel != []
      then Some(p.(packer := Draining([p.channel[0]]), channel := p.channel[1..])) else None
    case Drain =>
      if p.packer.Draining? && |p.packer.batch| < BATCH_LIMIT && p.channel != []
      then Some(p.(packer := Draining(p.packer.batch + [p.channel[0]]), channel := p.channel[1..])) else None
    case Fill =>
      if p.packer.Draining? && (|p.packer.batch| >= BATCH_LIMIT || p.channel == [])
      then Some(p.(packer := Packing(0), queue := p.queue + p.packer.batch)) else None
    case Pack(rest) =>
      if !(p.packer.Packing? && p.packer.i < DATAGRAMS_PER_WAKEUP) then None
      else if p.next + MAX_PACKETS >= U64_LIMIT then None
      else if Concat(rest) != Concat(p.queue)[|Taken(p.queue)|..] then None
      else if Taken(p.queue) == [] then Some(p.(packer := Storing(p.packer.i), queue := rest))
      else
        var chunks := Chunks(Taken(p.queue));
        Some(p.(packer := Packing(p.packer.i + 1),
                queue := rest,
                next := p.next + |chunks|,
                inflight := p.inflight + [(Datagram(p.conn.src, p.conn.dst, p.next, p.queue), |Taken(p.queue)|)],
                groups := p.groups + [chunks]))
    case Store =>
      if p.packer.Storing? || (p.packer.Packing? && p.packer.i >= DATAGRAMS_PER_WAKEUP)
      then Some(p.(packer := Waiting, mirror := p.next)) else None
  }

  /** The sender task: take a datagram, put it on the wire, subtract its payload. */
  function SenderStep(p: Pipe, e: SenderEvent): Option<Pipe> {
    match e
    case Take =>
      if p.sender.Ready? && p.inflight != []
      then Some(p.(sender := Holding(p.inflight[0].0, p.inflight[0].1), inflight := p.inflight[1..])) else None
    case Transmit =>
      if p.sender.Holding? then Some(p.(sender := Accounting(p.sender.bytes), wire := p.wire + [p.sender.datagram])) else None
    case Account =>
      if p.sender.Accounting? then Some(p.(sender := Ready, pending := p.pending - p.sender.bytes)) else None
  }

  function Step(p: Pipe, e: Event): Option<Pipe> {
    match e
    case Caller(send) => SendStep(p, send)
    case PackTask(pack) => PackerStep(p, pack)
    case SendTask(out) => SenderStep(p, out)
    case MarkClosed => Some(p.(closed := true))
    case Reserve => Some(p.(mirror := p.mirror + 1, reserved := true))
  }

  function Run(p: Pipe, trace: seq<Event>): Option<Pipe>
    decreases |trace|
  {
    if trace == [] then Some(p)
    else match Step(p, trace[0])
      case None => None
      case Some(p') => Run(p', trace[1..])
  }

  // ---- what the state holds ----

  /** The chunks of all packets of the given datagrams. */
  function Flatten(groups: seq<seq<seq<byte>>>): seq<seq<byte>> {
    if groups == [] then [] else Flatten(groups[..|groups| - 1]) + groups[|groups| - 1]
  }

  /** The datagrams of the given groups, numbered consecutively from `first`. */
  function Datagrams(conn: Conn, groups: seq<seq<seq<byte>>>): (ds: seq<(seq<byte>, nat)>)
    ensures |ds| == |groups|
  {
    if groups == [] then []
    else
      var front := groups[..|groups| - 1];
      var last := groups[|groups| - 1];
      Datagrams(conn, front) + [(Wire(conn.src, conn.dst, conn.first + |Flatten(front)|, last), |Concat(last)|)]
  }

  function Batch(p: Pipe): seq<seq<byte>> {
    if p.packer.Draining? then p.packer.batch else []
  }

  function Held(p: Pipe): seq<(seq<byte>, nat)> {
    if p.sender.Holding? then [(p.sender.datagram, p.sender.bytes)] else []
  }

  /** What a send call has added to the counter and neither enqueued nor undone. */
  function Raised(s: Send): nat {
    if s.Counted? || s.Failed? then |s.payload| else 0
  }

  /** Bytes of increments whose enqueue has not happened yet, or never will. */
  function Increments(sends: seq<Send>): nat {
    if sends == [] then 0 else Increments(sends[1..]) + Raised(sends[0])
  }

  function Firsts(ds: seq<(seq<byte>, nat)>): seq<seq<byte>> {
    seq(|ds|, i requires 0 <= i < |ds| => ds[i].0)
  }

  function Seconds(ds: seq<(seq<byte>, nat)>): nat {
    if ds == [] then 0 else ds[0].1 + Seconds(ds[1..])
  }

  /** Everything accepted and not yet packed, oldest first. */
  function Unpacked(p: Pipe): seq<seq<byte>> {
    p.queue + Batch(p) + p.channel
  }

  /** Everything packed and not yet on the wire, oldest first. */
  function Outgoing(p: Pipe): seq<(seq<byte>, nat)> {
    Held(p) + p.inflight
  }

  /** What is packed and what is not yet packed is what was accepted, in order. */
  ghost predicate BytesInv(p: Pipe) {
    Concat(Flatten(p.groups)) + Concat(Unpacked(p)) == Concat(p.accepted)
  }

  /** What was packed is on the wire or outgoing, in order. */
  ghost predicate WireInv(conn: Conn, groups: seq<seq<seq<byte>>>, wire: seq<seq<byte>>, outgoing: seq<(seq<byte>, nat)>) {
    && |wire| <= |groups|
    && Firsts(Datagrams(conn, groups)[..|wire|]) == wire
    && Datagrams(conn, groups)[|wire|..] == outgoing
    && forall i :: 0 <= i < |groups| ==> groups[i] != [] && Cut(groups[i])
  }

  /** The counter is the length of everything not yet subtracted plus the increments in progress. */
  ghost predicate CountInv(p: Pipe) {
    p.pending == Unsubtracted(p) + Increments(p.sends)
  }

  function Unsubtracted(p: Pipe): nat {
    (if p.sender.Accounting? then p.sender.bytes else 0) + Seconds(Outgoing(p)) + |Concat(Unpacked(p))|
  }

  ghost predicate Inv(p: Pipe) {
    && BytesInv(p)
    && WireInv(p.conn, p.groups, p.wire, Outgoing(p))
    && CountInv(p)
    && p.next == p.conn.first + |Flatten(p.groups)|
    && p.next < U64_LIMIT
    && MirrorInv(p)
  }

  /** Until a Fin number is reserved, the mirror is the packing task's counter exactly when
      that has handed off nothing since it last stored it. */
  ghost predicate MirrorInv(p: Pipe) {
    !p.reserved ==>
      && p.conn.first <= p.mirror <= p.next
      && (p.mirror < p.next <==> (p.packer.Packing? || p.packer.Storing?) && p.packer.i > 0)
  }

  // ---- every step keeps it ----

  lemma {:induction false} IncrementsUpdate(sends: seq<Send>, i: nat, s: Send)
    requires i < |sends|
    ensures Increments(sends[i := s]) + Raised(sends[i]) == Increments(sends) + Raised(s)
  {
    if i > 0 {
      assert sends[i := s][1..] == sends[1..][i - 1 := s];
      IncrementsUpdate(sends[1..], i - 1, s);
    } else {
      assert sends[0 := s][1..] == sends[1..];
    }
  }

  lemma {:induction false} SecondsAppend(a: seq<(seq<byte>, nat)>, b: seq<(seq<byte>, nat)>)
    ensures Seconds(a + b) == Seconds(a) + Seconds(b)
  {
    if a == [] {
      assert a + b == b;
    } else {
      assert (a + b)[1..] == a[1..] + b;
      SecondsAppend(a[1..], b);
    }
  }

  lemma EnqueueBytes(p: Pipe, p': Pipe, payload: seq<byte>)
    requires p' == p.(sends := p'.sends, channel := p.channel + [payload], accepted := p.accepted + [payload])
    ensures Concat(Unpacked(p')) == Concat(Unpacked(p)) + payload
    ensures BytesInv(p) ==> BytesInv(p')
  {
    assert Unpacked(p') == Unpacked(p) + [payload];
    ConcatSnoc(Unpacked(p), payload);
    ConcatSnoc(p.accepted, payload);
    Assoc(Concat(Flatten(p.groups)), Concat(Unpacked(p)), payload);
  }

  /** A step that leaves the bytes and datagrams alone. */
  lemma CountMoves(p: Pipe, id: nat, s: Send, pending: int)
    requires Inv(p) && id < |p.sends| && pending == p.pending - Raised(p.sends[id]) + Raised(s)
    ensures Inv(p.(sends := p.sends[id := s], pending := pending))
  {
    var p' := p.(sends := p.sends[id := s], pending := pending);
    IncrementsUpdate(p.sends, id, s);
    assert Unpacked(p') == Unpacked(p) && Outgoing(p') == Outgoing(p);
  }

  lemma EnqueueKeepsInv(p: Pipe, id: nat)
    requires Inv(p) && SendStep(p, Enqueue(id)).Some?
    ensures Inv(SendStep(p, Enqueue(id)).value)
  {
    var p', payload := SendStep(p, Enqueue(id)).value, p.sends[id].payload;
    IncrementsUpdate(p.sends, id, Idle);
    EnqueueBytes(p, p', payload);
    assert Outgoing(p') == Outgoing(p);
  }

  lemma SendKeepsInv(p: Pipe, e: SendEvent)
    requires Inv(p) && SendStep(p, e).Some?
    ensures Inv(SendStep(p, e).value)
    ensures SendStep(p, e).value.conn == p.conn
  {
    match e
    case Check(id, payload) => CountMoves(p, id, Checked(payload), p.pending);
    case Count(id) => CountMoves(p, id, Counted(p.sends[id].payload), p.pending + |p.sends[id].payload|);
    case Enqueue(id) => EnqueueKeepsInv(p, id);
    case Fail(id) => CountMoves(p, id, Failed(p.sends[id].payload), p.pending);
    case Undo(id) => CountMoves(p, id, Idle, p.pending - |p.sends[id].payload|);
  }

  /** Moving messages towards the queue changes no order and loses nothing. */
  lemma MoveUnpacked(p: Pipe, e: PackEvent)
    requires !e.Pack? && PackerStep(p, e).Some?
    ensures Unpacked(PackerStep(p, e).value) == Unpacked(p)
  {
  }

  lemma MoveKeepsInv(p: Pipe, e: PackEvent)
    requires Inv(p) && !e.Pack? && PackerStep(p, e).Some?
    ensures Inv(PackerStep(p, e).value)
    ensures PackerStep(p, e).value.conn == p.conn
  {
    MoveUnpacked(p, e);
    assert Outgoing(PackerStep(p, e).value) == Outgoing(p);
  }

  lemma PackBytes(queue: seq<seq<byte>>, rest: seq<seq<byte>>, channel: seq<seq<byte>>)
    requires Concat(rest) == Concat(queue)[|Taken(queue)|..]
    ensures Concat(queue + channel) == Taken(queue) + Concat(rest + channel)
  {
    ConcatAppend(queue, channel);
    ConcatAppend(rest, channel);
    assert Concat(queue) == Taken(queue) + Concat(rest);
    Assoc(Taken(queue), Concat(rest), Concat(channel));
  }

  lemma PackUnpacked(p: Pipe, e: PackEvent)
    requires e.Pack? && PackerStep(p, e).Some?
    ensures Concat(Unpacked(p)) == Taken(p.queue) + Concat(Unpacked(PackerStep(p, e).value))
  {
    var p' := PackerStep(p, e).value;
    assert Batch(p) == [] && Batch(p') == [] && p'.queue == e.rest && p'.channel == p.channel;
    DropEmpty(p.queue, p.channel);
    DropEmpty(e.rest, p.channel);
    PackBytes(p.queue, e.rest, p.channel);
  }

  lemma DropEmpty(a: seq<seq<byte>>, b: seq<seq<byte>>)
    ensures a + [] + b == a + b
  {
  }

  lemma DatagramsSnoc(conn: Conn, groups: seq<seq<seq<byte>>>, g: seq<seq<byte>>, next: nat)
    requires next == conn.first + |Flatten(groups)|
    ensures Flatten(groups + [g]) == Flatten(groups) + g
    ensures Datagrams(conn, groups + [g]) == Datagrams(conn, groups) + [(Wire(conn.src, conn.dst, next, g), |Concat(g)|)]
  {
    assert (groups + [g])[..|groups|] == groups;
  }

  lemma PackWire(conn: Conn, groups: seq<seq<seq<byte>>>, wire: seq<seq<byte>>, outgoing: seq<(seq<byte>, nat)>, next: nat, t: seq<byte>)
    requires WireInv(conn, groups, wire, outgoing)
    requires next == conn.first + |Flatten(groups)| && t != []
    ensures WireInv(conn, groups + [Chunks(t)], wire, outgoing + [(Wire(conn.src, conn.dst, next, Chunks(t)), |t|)])
    ensures Flatten(groups + [Chunks(t)]) == Flatten(groups) + Chunks(t)
    ensures Concat(Flatten(groups + [Chunks(t)])) == Concat(Flatten(groups)) + t
  {
    ChunksCut(t);
    DatagramsSnoc(conn, groups, Chunks(t), next);
    ConcatAppend(Flatten(groups), Chunks(t));
  }

  lemma PackNothingKeepsInv(p: Pipe, e: PackEvent)
    requires Inv(p) && e.Pack? && PackerStep(p, e).Some? && Taken(p.queue) == []
    ensures Inv(PackerStep(p, e).value)
    ensures PackerStep(p, e).value.conn == p.conn
  {
    var p' := PackerStep(p, e).value;
    PackUnpacked(p, e);
    assert [] + Concat(Unpacked(p')) == Concat(Unpacked(p'));
    assert Outgoing(p') == Outgoing(p);
  }

  lemma PackSomeKeepsInv(p: Pipe, e: PackEvent)
    requires Inv(p) && e.Pack? && PackerStep(p, e).Some? && Taken(p.queue) != []
    ensures Inv(PackerStep(p, e).value)
    ensures PackerStep(p, e).value.conn == p.conn
  {
    var p', t := PackerStep(p, e).value, Taken(p.queue);
    var d := (Datagram(p.conn.src, p.conn.dst, p.next, p.queue), |t|);
    PackWire(p.conn, p.groups, p.wire, Outgoing(p), p.next, t);
    assert Outgoing(p') == Outgoing(p) + [d];
    assert Chunks(t) != [];
    TakenChunks(p.queue);
    assert BytesInv(p') by {
      PackUnpacked(p, e);
      Assoc(Concat(Flatten(p.groups)), t, Concat(Unpacked(p')));
    }
    assert CountInv(p') by {
      PackUnpacked(p, e);
      SecondsAppend(Outgoing(p), [d]);
    }
  }

  lemma TransmitWire(conn: Conn, groups: seq<seq<seq<byte>>>, wire: seq<seq<byte>>, d: (seq<byte>, nat), rest: seq<(seq<byte>, nat)>)
    requires WireInv(conn, groups, wire, [d] + rest)
    ensures WireInv(conn, groups, wire + [d.0], rest)
  {
  }

  lemma SenderKeepsInv(p: Pipe, e: SenderEvent)
    requires Inv(p) && SenderStep(p, e).Some?
    ensures Inv(SenderStep(p, e).value)
    ensures SenderStep(p, e).value.conn == p.conn
  {
    var p' := SenderStep(p, e).value;
    assert Unpacked(p') == Unpacked(p);
    if e.Transmit? {
      TransmitWire(p.conn, p.groups, p.wire, Held(p)[0], p.inflight);
      SecondsAppend(Held(p), p.inflight);
      assert Outgoing(p') == p.inflight;
    } else {
      assert Outgoing(p') == Outgoing(p);
    }
  }

  lemma StepKeepsInv(p: Pipe, e: Event)
    requires Inv(p) && Step(p, e).Some?
    ensures Inv(Step(p, e).value)
    ensures Step(p, e).value.conn == p.conn
  {
    match e
    case Caller(send) => SendKeepsInv(p, send);
    case PackTask(pack) =>
      if !pack.Pack? { MoveKeepsInv(p, pack); }
      else if Taken(p.queue) == [] { PackNothingKeepsInv(p, pack); }
      else { PackSomeKeepsInv(p, pack); }
    case SendTask(out) => SenderKeepsInv(p, out);
    case MarkClosed =>
    case Reserve =>
  }

  /** Packed datagrams are history: steps only add to them. */
  lemma StepGrows(p: Pipe, e: Event)
    requires Step(p, e).Some?
    ensures Step(p, e).value.groups[..] == p.groups || exists g :: Step(p, e).value.groups == p.groups + [g]
    ensures p.accepted <= Step(p, e).value.accepted
  {
  }

  // ---- runs ----

  lemma InitInv(conn: Conn, callers: nat)
    ensures Inv(Init(conn, callers))
  {
    NoIncrements(callers);
  }

  lemma {:induction false} NoIncrements(callers: nat)
    ensures Increments(seq(callers, _ => Idle)) == 0
  {
    if callers > 0 {
      NoIncrements(callers - 1);
      assert seq(callers, _ => Idle)[1..] == seq(callers - 1, _ => Idle);
    }
  }

  /** In every interleaving, from any state that satisfies it on, conservation holds. */
  lemma {:induction false} EveryRunConserves(p: Pipe, trace: seq<Event>)
    requires Inv(p) && Run(p, trace).Some?
    ensures Inv(Run(p, trace).value)
    ensures Run(p, trace).value.conn == p.conn
    decreases |trace|
  {
    if trace != [] {
      StepKeepsInv(p, trace[0]);
      EveryRunConserves(Step(p, trace[0]).value, trace[1..]);
    }
  }

  // ---- what is on the wire ----

  /** The user bytes of a datagram, as a parser finds them. */
  function DatagramBytes(d: seq<byte>): seq<byte> {
    match Parse(d)
    case Ok(ps) => Concat(Payloads(ps))
    case Err(_) => []
  }

  function WireBytes(wire: seq<seq<byte>>): seq<byte> {
    if wire == [] then [] else WireBytes(wire[..|wire| - 1]) + DatagramBytes(wire[|wire| - 1])
  }

  lemma {:induction false} DatagramAt(conn: Conn, groups: seq<seq<seq<byte>>>, j: nat)
    requires j < |groups|
    ensures Datagrams(conn, groups)[j]
            == (Wire(conn.src, conn.dst, conn.first + |Flatten(groups[..j])|, groups[j]), |Concat(groups[j])|)
  {
    var n := |groups| - 1;
    if j < n {
      DatagramAt(conn, groups[..n], j);
      assert groups[..n][..j] == groups[..j];
    }
  }

  lemma WireAt(conn: Conn, groups: seq<seq<seq<byte>>>, wire: seq<seq<byte>>, outgoing: seq<(seq<byte>, nat)>, j: nat)
    requires WireInv(conn, groups, wire, outgoing) && j < |wire|
    ensures wire[j] == Wire(conn.src, conn.dst, conn.first + |Flatten(groups[..j])|, groups[j])
  {
    DatagramAt(conn, groups, j);
    assert wire[j] == Firsts(Datagrams(conn, groups)[..|wire|])[j];
  }

  /** Datagram `j` on the wire parses to the packets of group `j`, numbered on from those before. */
  lemma WireParsesTo(conn: Conn, groups: seq<seq<seq<byte>>>, wire: seq<seq<byte>>, outgoing: seq<(seq<byte>, nat)>, j: nat)
    requires WireInv(conn, groups, wire, outgoing) && j < |wire|
    ensures Parse(wire[j]) == Ok(DataPackets(conn.src, conn.dst, conn.first + |Flatten(groups[..j])|, groups[j]))
  {
    WireAt(conn, groups, wire, outgoing, j);
    WireParses(conn.src, conn.dst, conn.first + |Flatten(groups[..j])|, groups[j]);
  }

  lemma DatagramBytesAt(conn: Conn, groups: seq<seq<seq<byte>>>, wire: seq<seq<byte>>, outgoing: seq<(seq<byte>, nat)>, j: nat)
    requires WireInv(conn, groups, wire, outgoing) && j < |wire|
    ensures DatagramBytes(wire[j]) == Concat(groups[j])
  {
    WireAt(conn, groups, wire, outgoing, j);
    ParsedBytes(conn.src, conn.dst, conn.first + |Flatten(groups[..j])|, groups[j]);
  }

  lemma ParsedBytes(src: u32, dst: u32, next: nat, chunks: seq<seq<byte>>)
    requires chunks != [] && Cut(chunks)
    ensures DatagramBytes(Wire(src, dst, next, chunks)) == Concat(chunks)
  {
    WireParses(src, dst, next, chunks);
    PayloadsOfDataPackets(src, dst, next, chunks);
  }

  lemma {:induction false} WireBytesArePacked(conn: Conn, groups: seq<seq<seq<byte>>>, wire: seq<seq<byte>>, outgoing: seq<(seq<byte>, nat)>, j: nat)
    requires WireInv(conn, groups, wire, outgoing) && j <= |wire|
    ensures WireBytes(wire[..j]) == Concat(Flatten(groups[..j]))
  {
    if j > 0 {
      WireBytesArePacked(conn, groups, wire, outgoing, j - 1);
      DatagramBytesAt(conn, groups, wire, outgoing, j - 1);
      assert wire[..j][..j - 1] == wire[..j - 1] && groups[..j][..j - 1] == groups[..j - 1];
      ConcatAppend(Flatten(groups[..j - 1]), groups[j - 1]);
    }
  }

  lemma {:induction false} SecondsPositive(ds: seq<(seq<byte>, nat)>)
    requires forall i :: 0 <= i < |ds| ==> ds[i].1 > 0
    ensures Seconds(ds) == 0 ==> ds == []
  {
  }

  lemma OutgoingPositive(conn: Conn, groups: seq<seq<seq<byte>>>, wire: seq<seq<byte>>, outgoing: seq<(seq<byte>, nat)>)
    requires WireInv(conn, groups, wire, outgoing)
    ensures forall i :: 0 <= i < |outgoing| ==> outgoing[i].1 > 0
  {
    forall i | 0 <= i < |outgoing|
      ensures outgoing[i].1 > 0
    {
      var j := |wire| + i;
      assert outgoing[i] == Datagrams(conn, groups)[j];
      DatagramAt(conn, groups, j);
      assert |Concat(groups[j])| >= |groups[j][0]|;
    }
  }

  /** What is on the wire is what was packed first. */
  lemma WireIsPacked(p: Pipe)
    requires Inv(p)
    ensures |p.wire| <= |p.groups| && WireBytes(p.wire) == Concat(Flatten(p.groups[..|p.wire|]))
  {
    WireBytesArePacked(p.conn, p.groups, p.wire, Outgoing(p), |p.wire|);
    assert p.wire[..|p.wire|] == p.wire;
  }

  /** A counter of zero leaves nothing unpacked and nothing unsent. */
  lemma ZeroMeansSent(p: Pipe)
    requires Inv(p) && p.pending == 0
    ensures Concat(Unpacked(p)) == [] && |p.wire| == |p.groups|
  {
    OutgoingPositive(p.conn, p.groups, p.wire, Outgoing(p));
    SecondsPositive(Outgoing(p));
  }

  lemma PackedIsPrefix(p: Pipe, j: nat)
    requires BytesInv(p) && j <= |p.groups|
    ensures Concat(Flatten(p.groups[..j])) <= Concat(p.accepted)
    ensures j == |p.groups| && Concat(Unpacked(p)) == [] ==> Concat(Flatten(p.groups[..j])) == Concat(p.accepted)
  {
    FlattenPrefix(p.groups, j);
    assert j == |p.groups| ==> p.groups[..j] == p.groups;
    assert Concat(Flatten(p.groups)) + [] == Concat(Flatten(p.groups));
  }

  /** When `flush` sees the counter at zero, every byte accepted up to then is on the wire,
      in order. At any other time the wire holds a prefix of what was accepted. */
  lemma FlushIsSafe(p: Pipe)
    requires Inv(p)
    ensures WireBytes(p.wire) <= Concat(p.accepted)
    ensures p.pending == 0 ==> WireBytes(p.wire) == Concat(p.accepted)
    ensures p.pending >= 0
  {
    WireIsPacked(p);
    PackedIsPrefix(p, |p.wire|);
    if p.pending == 0 {
      ZeroMeansSent(p);
    }
  }

  lemma {:induction false} FlattenNonEmpty(groups: seq<seq<seq<byte>>>)
    requires forall j :: 0 <= j < |groups| ==> Cut(groups[j])
    ensures forall i :: 0 <= i < |Flatten(groups)| ==> Flatten(groups)[i] != []
  {
    if groups != [] {
      FlattenNonEmpty(groups[..|groups| - 1]);
    }
  }

  lemma {:induction false} FlattenPrefix(groups: seq<seq<seq<byte>>>, j: nat)
    requires j <= |groups|
    ensures Flatten(groups[..j]) <= Flatten(groups)
    ensures Concat(Flatten(groups[..j])) <= Concat(Flatten(groups))
  {
    if j == |groups| {
      assert groups[..j] == groups;
    } else {
      var front := groups[..|groups| - 1];
      FlattenPrefix(front, j);
      assert front[..j] == groups[..j];
      ConcatAppend(Flatten(front), groups[|groups| - 1]);
    }
  }

  /** No decrement ever takes the counter below zero. */
  lemma CounterNeverUnderflows(p: Pipe)
    requires Inv(p)
    ensures p.sender.Accounting? ==> p.sender.bytes <= p.pending
    ensures forall i :: 0 <= i < |p.sends| ==> Raised(p.sends[i]) <= p.pending
  {
    forall i | 0 <= i < |p.sends|
      ensures Raised(p.sends[i]) <= p.pending
    {
      IncrementsUpdate(p.sends, i, Idle);
    }
  }

  /** `p` can be reached by some interleaving. */
  ghost predicate Reached(p: Pipe, conn: Conn, callers: nat) {
    exists trace :: Run(Init(conn, callers), trace) == Some(p)
  }

  lemma ReachedInv(p: Pipe, conn: Conn, callers: nat)
    requires Reached(p, conn, callers)
    ensures Inv(p) && p.conn == conn
  {
    var trace :| Run(Init(conn, callers), trace) == Some(p);
    InitInv(conn, callers);
    EveryRunConserves(Init(conn, callers), trace);
  }

  /** In every interleaving: a `flush` that returns has everything on the wire, in order,
      and no decrement ever takes the counter below zero. */
  lemma EveryFlushIsSafe(p: Pipe, conn: Conn, callers: nat)
    requires Reached(p, conn, callers)
    ensures WireBytes(p.wire) <= Concat(p.accepted)
    ensures p.pending == 0 ==> WireBytes(p.wire) == Concat(p.accepted)
    ensures p.sender.Accounting? ==> p.sender.bytes <= p.pending
    ensures forall i :: 0 <= i < |p.sends| ==> Raised(p.sends[i]) <= p.pending
  {
    ReachedInv(p, conn, callers);
    FlushIsSafe(p);
    CounterNeverUnderflows(p);
  }

  /** In every interleaving: the number a Fin gets, before any other reservation, is never
      past the packets packed, and is the one after them exactly when the packing task has
      stored its counter since it last handed off a datagram. */
  lemma FinNumberExact(p: Pipe, conn: Conn, callers: nat)
    requires Reached(p, conn, callers) && !p.reserved
    ensures p.mirror <= p.next == conn.first + |Flatten(p.groups)|
    ensures p.mirror == conn.first + |Flatten(p.groups)| <==>
            !((p.packer.Packing? || p.packer.Storing?) && p.packer.i > 0)
  {
    ReachedInv(p, conn, callers);
  }

  lemma RunPrefix(p: Pipe, e: Event, p': Pipe, trace: seq<Event>)
    requires Step(p, e) == Some(p')
    ensures Run(p, [e] + trace) == Run(p', trace)
  {
  }

  const SEND_TASK_TRACE: seq<Event> := [SendTask(Take)] + ([SendTask(Transmit)] + ([SendTask(Account)] + []))
  const PACK_TRACE: seq<Event> := [PackTask(Pack([]))] + SEND_TASK_TRACE
  const FILL_TRACE: seq<Event> := [PackTask(Receive)] + ([PackTask(Fill)] + PACK_TRACE)
  const SEND_TRACE: seq<Event> := [Caller(Check(0, [7]))] + ([Caller(Count(0))] + ([Caller(Enqueue(0))] + FILL_TRACE))

  function Sent(conn: Conn): Pipe {
    Pipe(conn, [Idle], [], Packing(0), [[7]], conn.first, conn.first, [], Ready, [], 1, false, false, [[7]], [])
  }

  lemma SendOneByte(conn: Conn)
    ensures Run(Init(conn, 1), SEND_TRACE) == Run(Sent(conn), PACK_TRACE)
  {
    var p0 := Init(conn, 1);
    assert p0.sends == [Idle];
    var p1 := p0.(sends := [Checked([7])]);
    var p2 := p1.(sends := [Counted([7])], pending := 1);
    var p3 := p2.(sends := [Idle], channel := [[7]], accepted := [[7]]);
    var p4 := p3.(packer := Draining([[7]]), channel := []);
    assert p0.sends[0 := Checked([7])] == [Checked([7])];
    assert p1.sends[0 := Counted([7])] == [Counted([7])];
    assert p2.sends[0 := Idle] == [Idle] && p2.channel + [[7]] == [[7]] && p2.accepted + [[7]] == [[7]];
    assert p3.channel[1..] == [] && p4.queue + [[7]] == [[7]];
    RunPrefix(p0, Caller(Check(0, [7])), p1, [Caller(Count(0))] + ([Caller(Enqueue(0))] + FILL_TRACE));
    RunPrefix(p1, Caller(Count(0)), p2, [Caller(Enqueue(0))] + FILL_TRACE);
    RunPrefix(p2, Caller(Enqueue(0)), p3, FILL_TRACE);
    RunPrefix(p3, PackTask(Receive), p4, [PackTask(Fill)] + PACK_TRACE);
    RunPrefix(p4, PackTask(Fill), Sent(conn), PACK_TRACE);
  }

  lemma OneByteTaken()
    ensures Taken([[7]]) == [7] && Chunks([7]) == [[7]] && Concat([[7]]) == [7]
  {
    assert Concat([[7]]) == [7] + Concat([]);
    assert [7][..1] == [7];
    assert Chunks([7]) == [[7][..1]] + Chunks([7][1..]);
  }

  lemma PackOneByte(conn: Conn)
    requires conn.first + MAX_PACKETS < U64_LIMIT
    ensures var d := Datagram(conn.src, conn.dst, conn.first, [[7]]);
            Step(Sent(conn), PackTask(Pack([])))
            == Some(Sent(conn).(packer := Packing(1), queue := [], next := conn.first + 1, inflight := [(d, 1)], groups := [[[7]]]))
  {
    OneByteTaken();
    var d := Datagram(conn.src, conn.dst, conn.first, [[7]]);
    assert Concat([]) == Concat([[7]])[1..];
    assert [] + [(d, 1)] == [(d, 1)] && [] + [[[7]]] == [[[7]]];
  }

  lemma TransmitOne(p: Pipe, d: seq<byte>)
    requires p.inflight == [(d, 1)] && p.sender == Ready && p.wire == [] && p.pending == 1
    ensures Run(p, SEND_TASK_TRACE) == Some(p.(inflight := [], wire := [d], pending := 0))
  {
    var p7 := p.(sender := Holding(d, 1), inflight := []);
    var p8 := p7.(sender := Accounting(1), wire := [d]);
    var p9 := p8.(sender := Ready, pending := 0);
    assert p.inflight[1..] == [] && p7.wire + [d] == [d];
    RunPrefix(p, SendTask(Take), p7, [SendTask(Transmit)] + ([SendTask(Account)] + []));
    RunPrefix(p7, SendTask(Transmit), p8, [SendTask(Account)] + []);
    RunPrefix(p8, SendTask(Account), p9, []);
  }

  /** `flush` returning does not make it so: here everything accepted is on the wire and the
      counter is zero, yet a reservation would hand the Fin the number of the data packet. */
  lemma FlushedYetStale(conn: Conn)
    requires conn.first + MAX_PACKETS < U64_LIMIT
    ensures Run(Init(conn, 1), SEND_TRACE).Some?
    ensures var p := Run(Init(conn, 1), SEND_TRACE).value;
            && p.pending == 0 && !p.reserved
            && WireBytes(p.wire) == Concat(p.accepted) == [7]
            && p.mirror == conn.first && p.next == conn.first + 1
            && p.groups == [[[7]]] && |p.wire| == 1 && p.accepted == [[7]]
  {
    SendOneByte(conn);
    PackOneByte(conn);
    var d := Datagram(conn.src, conn.dst, conn.first, [[7]]);
    RunPrefix(Sent(conn), PackTask(Pack([])), Step(Sent(conn), PackTask(Pack([]))).value, SEND_TASK_TRACE);
    TransmitOne(Step(Sent(conn), PackTask(Pack([]))).value, d);
    InitInv(conn, 1);
    EveryRunConserves(Init(conn, 1), SEND_TRACE);
    FlushIsSafe(Run(Init(conn, 1), SEND_TRACE).value);
    OneByteTaken();
  }
}
