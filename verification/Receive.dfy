/** The receiving side of an established connection: one datagram in, the right buffer
    updated in place. */
module Receive {
  import opened Bytes
  import opened Header
  import opened Packet
  import R = Ring
  import RR = RingRuns
  import T = Transfer
  import W = Window
  import C = Close
  import O = OrderedBytes
  import A = AckPacking

  datatype Host = PackLeader | PackFollower | Client

  type Address = nat

  /** The first data number a host expects after this handshake packet. */
  function StartAfter(host: Host, number: nat, current: nat): nat {
    match host
    case PackLeader => number + 2
    case Client => number + 1
    case PackFollower => current
  }

  class ConnectionBuffer {
    const ordered: O.OrderedBytes
    const host: Host
    var addr: Option<Address>
    var packet: Option<Packet>
    var started: bool

    ghost predicate Valid()
      reads this, ordered, ordered.packets
    {
      ordered.Valid()
    }

    constructor (host: Host)
      ensures Valid() && fresh(ordered) && fresh(ordered.packets) && this.host == host
      ensures ordered.View() == R.Fresh(0) && addr == None && packet == None && !started
    {
      ordered := new O.OrderedBytes(0);
      this.host, addr, packet, started := host, None, None, false;
    }

    method BufferInAddr(a: Address) returns (ok: bool)
      modifies this`addr
      ensures ok == old(addr).None? && addr == Some(if ok then a else old(addr).value)
    {
      if addr.Some? {
        return false;
      }
      addr := Some(a);
      ok := true;
    }

    /** Keeps one handshake packet. The first one ever kept fixes where the data starts. */
    method BufferInPacket(p: Packet) returns (ok: bool)
      requires ordered.packets.Length == O.MAX_BUFFER_SIZE && ordered.head < O.MAX_BUFFER_SIZE
      modifies this`packet, this`started, ordered`smallest
      ensures ok == old(packet).None?
      ensures packet == if ok then Some(p) else old(packet)
      ensures started == (old(started) || ok)
      ensures var r := old(ordered.View());
              ordered.View() == if started && !old(started)
                                then r.(next := StartAfter(host, p.header.packetNumber, r.next)) else r
      ensures old(Valid() && ordered.View() == R.Fresh(ordered.smallest)) ==> Valid()
    {
      if packet.Some? {
        return false;
      }
      packet := Some(p);
      if !started {
        if host == PackLeader {
          ordered.SetStartPacketNumber(p.header.packetNumber + 2);
        } else if host == Client {
          ordered.SetStartPacketNumber(p.header.packetNumber + 1);
        }
        started := true;
      }
      ok := true;
    }

    /** Empties the slot; what was in it is handed over only if the address is known. */
    method TakePacket() returns (p: Option<Packet>)
      modifies this`packet
      ensures packet == None && p == if addr.Some? then old(packet) else None
    {
      var taken := packet;
      packet := None;
      if taken.Some? && addr.Some? {
        return taken;
      }
      p := None;
    }

    method PeekHead() returns (ready: bool)
      requires Valid()
      ensures ready == (addr.Some? && R.Peek(ordered.View()))
    {
      if addr.None? {
        return false;
      }
      ready := ordered.PeekHead();
    }
  }

  // ---- one datagram ----

  function BufferAll(r: R.Ring, ps: seq<Packet>): (r': R.Ring)
    requires |r.slots| == R.CAPACITY
    ensures |r'.slots| == R.CAPACITY
    decreases |ps|
  {
    if ps == [] then r else BufferAll(R.BufferIn(r, ps[0]).0, ps[1..])
  }

  /** The error a batch reports: that of the last packet that had one. */
  function Last<T>(error: Option<T>, later: Option<T>): Option<T> {
    if later.Some? then later else error
  }

  function DataError(r: R.Ring, ps: seq<Packet>): Option<R.BufferOutcome>
    requires |r.slots| == R.CAPACITY
    decreases |ps|
  {
    if ps == [] then None
    else
      var (r', outcome) := R.BufferIn(r, ps[0]);
      Last(if outcome == R.Accepted then None else Some(outcome), DataError(r', ps[1..]))
  }

  function AckError(w: W.Window, ps: seq<Packet>): Option<W.Outcome>
    decreases |ps|
  {
    if ps == [] then None
    else
      var (w', outcome) := W.InsertRange(w, ps[0].header.packetNumber, ps[0].header.typeSpecific);
      Last(if outcome == W.Done then None else Some(outcome), AckError(w', ps[1..]))
  }

  /** What `BufferAll` does to the buffer is what arrival does in a transfer. */
  lemma {:induction false} BufferAllIsArrival(h: RR.History, ps: seq<Packet>)
    requires |h.ring.slots| == R.CAPACITY
    ensures T.ArriveAll(h, ps).ring == BufferAll(h.ring, ps)
    decreases |ps|
  {
    if ps != [] {
      BufferAllIsArrival(RR.Step(h, RR.Arrive(ps[0])), ps[1..]);
    }
  }

  /** Every packet is offered to the buffer, whatever happened to the ones before it. */
  method BufferInDataPackets(buffer: ConnectionBuffer, packets: seq<Packet>) returns (error: Option<R.BufferOutcome>)
    requires buffer.Valid()
    modifies buffer.ordered.packets
    ensures buffer.Valid()
    ensures buffer.ordered.View() == BufferAll(old(buffer.ordered.View()), packets)
    ensures error == DataError(old(buffer.ordered.View()), packets)
  {
    error := None;
    for i := 0 to |packets|
      invariant buffer.Valid()
      invariant Last(error, DataError(buffer.ordered.View(), packets[i..])) == DataError(old(buffer.ordered.View()), packets)
      invariant BufferAll(buffer.ordered.View(), packets[i..]) == BufferAll(old(buffer.ordered.View()), packets)
    {
      var outcome := buffer.ordered.BufferInPacket(packets[i]);
      assert packets[i..][1..] == packets[i + 1..];
      if outcome != R.Accepted {
        error := Some(outcome);
      }
    }
  }

  method BufferInAckPackets(window: W.SlidingWindow, packets: seq<Packet>) returns (error: Option<W.Outcome>)
    requires window.Valid()
    modifies window`numbers
    ensures window.Valid()
    ensures window.View() == T.AckAll(old(window.View()), packets)
    ensures error == AckError(old(window.View()), packets)
  {
    error := None;
    for i := 0 to |packets|
      invariant window.Valid()
      invariant Last(error, AckError(window.View(), packets[i..])) == AckError(old(window.View()), packets)
      invariant T.AckAll(window.View(), packets[i..]) == T.AckAll(old(window.View()), packets)
    {
      var outcome := window.InsertRangeOf(packets[i].header.packetNumber, packets[i].header.typeSpecific);
      assert packets[i..][1..] == packets[i + 1..];
      if outcome != W.Done {
        error := Some(outcome);
      }
    }
  }

  /** What becomes of a datagram: its first packet decides for all of them. */
  datatype Route = Nothing | Acks | Closing | DataRoute | Unreachable

  function RouteOf(ps: seq<Packet>): Route {
    if ps == [] then Nothing
    else if ps[0].header.typeField == Ack then Acks
    else if !C.IsClosePacket(ps[0]) then DataRoute
    else if C.ClosePrefix(ps) == |ps| then Closing
    else Unreachable
  }

  /** What a datagram of close packets, up to the first that is none, does to the close buffer. */
  function Closed(b: C.Buffer, ps: seq<Packet>): C.Buffer {
    var k := C.ClosePrefix(ps);
    var b' := C.CloseInAll(b, ps[..k]);
    if k == |ps| && C.HasFin(ps) then b'.(pendingFinAck := None) else b'
  }

  /** Parses a datagram and hands its packets to exactly one of the three buffers, as the
      receive loop that buffers inline does: there a datagram that does not parse is skipped.
      (In the loop that goes through a channel it ends the task.) `Unreachable` is the panic on a
      datagram that begins with a close packet and goes on with something else; the close
      packets before that are buffered. */
  method ReceiveDatagram(datagram: seq<byte>, buffer: ConnectionBuffer, window: W.SlidingWindow, close: C.CloseBuffer)
    returns (route: Route, pendingFinAck: Option<u64>)
    requires buffer.Valid() && window.Valid()
    modifies buffer.ordered.packets, window`numbers, close
    ensures route == RouteOf(T.Received(datagram))
    ensures buffer.Valid() && window.Valid()
    ensures var ps := T.Received(datagram);
            && buffer.ordered.View() ==
               (if route == DataRoute then BufferAll(old(buffer.ordered.View()), ps) else old(buffer.ordered.View()))
            && window.View() == (if route == Acks then T.AckAll(old(window.View()), ps) else old(window.View()))
            && close.View() ==
               (if route == Closing || route == Unreachable then Closed(old(close.View()), ps) else old(close.View()))
            && pendingFinAck == (if route == Closing && C.HasFin(ps)
                                 then C.CloseInAll(old(close.View()), ps).pendingFinAck else None)
  {
    var packets, parsed := FromBytesInto(datagram, []);
    pendingFinAck := None;
    if parsed.Err? || packets == [] {
      return Nothing, None;
    }
    assert packets == T.Received(datagram);
    var firstType := packets[0].header.typeField;
    if firstType == Ack {
      var _ := BufferInAckPackets(window, packets);
      return Acks, None;
    } else if firstType == Fin || firstType == FinAck {
      var sawFin, panicked;
      pendingFinAck, sawFin, panicked := C.BufferInClosePackets(close, packets);
      assert packets[..|packets|] == packets;
      return if panicked then Unreachable else Closing, pendingFinAck;
    } else {
      var _ := BufferInDataPackets(buffer, packets);
      return DataRoute, None;
    }
  }

  // ---- one read ----

  /** The reader of one connection: counts consumed packets and queues acknowledgements. */
  class ReaderRx {
    const buffer: ConnectionBuffer
    var packetsConsumed: nat
    var acks: seq<A.AckData>

    constructor (buffer: ConnectionBuffer)
      ensures this.buffer == buffer && packetsConsumed == 0 && acks == []
    {
      this.buffer, packetsConsumed, acks := buffer, 0, [];
    }

    method NoteConsumed(packets: nat, base: u64)
      modifies this`packetsConsumed, this`acks
      ensures (packetsConsumed, acks)
              == T.NoteRead(old(packetsConsumed), old(acks), Some(R.Read(packets, base, [])))
    {
      packetsConsumed := packetsConsumed + packets;
      if packets > 0 && base != 0 && packetsConsumed >= T.ACK_EVERY {
        acks := acks + [A.AckData(base, packets)];
        packetsConsumed := 0;
      }
    }

    /** The consuming half of a copying read: what it does to the reassembly buffer, the
        caller's buffer, the counter and the queued acks is the read step of a transfer.
        None is the failing unwrap. */
    method ReadNow(len: nat, buf: array<byte>) returns (n: Option<nat>)
      requires buffer.Valid() && len <= buf.Length
      modifies this`packetsConsumed, this`acks, buffer.ordered`head, buffer.ordered`smallest, buffer.ordered`carry
      modifies buffer.ordered.packets, buf
      ensures buffer.Valid()
      ensures buffer.addr.None? ==> n == None && buffer.ordered.View() == old(buffer.ordered.View()) && buf[..] == old(buf[..])
      ensures buffer.addr.Some? ==> buffer.ordered.View() == R.Consume(old(buffer.ordered.View()), len).0
      ensures buffer.addr.Some? ==>
              var result := R.Consume(old(buffer.ordered.View()), len).1;
              && (packetsConsumed, acks) == T.NoteRead(old(packetsConsumed), old(acks), result)
              && match result
                 case None => n == None && buf[..] == old(buf[..])
                 case Some(read) => n == Some(|read.bytes|) && |read.bytes| <= len && buf[..|read.bytes|] == read.bytes
    {
      if buffer.addr.None? {
        return None;
      }
      var result := buffer.ordered.Consume(len, buf);
      if result.None? {
        return None;
      }
      NoteConsumed(result.value.packets, result.value.base);
      n := Some(result.value.bytes);
    }
  }
}
