/** The graceful-close state of one connection end: as a value, and as the buffer the
    reader and `close()` update in place. */
module Close {
  import opened Bytes
  import opened Header
  import opened Packet

  datatype CloseState =
    | Active
    | PeerFinReceived(fin: u64)
    | LocalFinSent(fin: u64)
    | Closed

  datatype Buffer = Buffer(
    state: CloseState,
    pendingFinAck: Option<u64>,
    receivedFinAck: Option<u64>,
    peerFinObserved: bool)

  const FRESH := Buffer(Active, None, None, false)

  /** A Fin is answered unless the connection is closed or a different Fin came first. */
  predicate Answers(b: Buffer, fin: u64) {
    match b.state
    case Active => true
    case LocalFinSent(_) => true
    case PeerFinReceived(f) => f == fin
    case Closed => false
  }

  function FinIn(b: Buffer, fin: u64): Buffer {
    match b.state
    case Active => Buffer(PeerFinReceived(fin), Some(fin), b.receivedFinAck, true)
    case LocalFinSent(_) => Buffer(PeerFinReceived(fin), Some(fin), b.receivedFinAck, true)
    case PeerFinReceived(f) => if f == fin then b.(pendingFinAck := Some(fin)) else b
    case Closed => b
  }

  function FinAckIn(b: Buffer, fin: u64): Buffer {
    b.(receivedFinAck := Some(fin))
  }

  /** A crossed close goes back to waiting for our own FinAck. */
  function RecordLocalFin(b: Buffer, fin: u64): Buffer {
    if b.state.Active? || b.state.PeerFinReceived? then b.(state := LocalFinSent(fin)) else b
  }

  function MarkClosed(b: Buffer): Buffer {
    b.(state := Closed)
  }

  predicate IsClosePacket(p: Packet) {
    p.header.typeField == Fin || p.header.typeField == FinAck
  }

  function CloseIn(b: Buffer, p: Packet): Buffer {
    if p.header.typeField == Fin then FinIn(b, p.header.packetNumber)
    else FinAckIn(b, p.header.packetNumber)
  }

  function CloseInAll(b: Buffer, ps: seq<Packet>): Buffer
    decreases |ps|
  {
    if ps == [] then b else CloseInAll(CloseIn(b, ps[0]), ps[1..])
  }

  predicate HasFin(ps: seq<Packet>) {
    ps != [] && (ps[0].header.typeField == Fin || HasFin(ps[1..]))
  }

  /** Invariant: an owed or answered Fin has been observed. */
  predicate Consistent(b: Buffer) {
    && (b.pendingFinAck.Some? ==> b.peerFinObserved)
    && (b.state.PeerFinReceived? ==> b.peerFinObserved)
  }

  /** No sequence of close packets leaves Closed, lowers the flag, or owes a FinAck for a
      number that was not a Fin among them (or already owed). */
  lemma {:induction false} CloseInKeeps(b: Buffer, ps: seq<Packet>)
    requires Consistent(b)
    ensures var b' := CloseInAll(b, ps);
            && Consistent(b')
            && (b.state.Closed? ==> b'.state.Closed?)
            && (b.peerFinObserved ==> b'.peerFinObserved)
            && (b'.pendingFinAck == b.pendingFinAck ||
                exists i :: 0 <= i < |ps| && ps[i].header.typeField == Fin
                            && b'.pendingFinAck == Some(ps[i].header.packetNumber))
    decreases |ps|
  {
    if ps != [] {
      var b1, b' := CloseIn(b, ps[0]), CloseInAll(b, ps);
      CloseInKeeps(b1, ps[1..]);
      if b'.pendingFinAck != b1.pendingFinAck {
        var i :| 0 <= i < |ps[1..]| && ps[1..][i].header.typeField == Fin
                 && b'.pendingFinAck == Some(ps[1..][i].header.packetNumber);
        assert ps[i + 1] == ps[1..][i];
      }
    }
  }

  class CloseBuffer {
    var state: CloseState
    var pendingFinAckSend: Option<u64>
    var receivedFinAckFor: Option<u64>
    var peerFinObserved: bool

    ghost function View(): Buffer
      reads this
    {
      Buffer(state, pendingFinAckSend, receivedFinAckFor, peerFinObserved)
    }

    constructor ()
      ensures View() == FRESH
    {
      state, pendingFinAckSend, receivedFinAckFor, peerFinObserved := Active, None, None, false;
    }

    method BufferInFin(packet: Packet)
      modifies this
      ensures View() == FinIn(old(View()), packet.header.packetNumber)
    {
      var pn := packet.header.packetNumber;
      match state {
        case Active =>
          state := PeerFinReceived(pn);
          pendingFinAckSend := Some(pn);
          peerFinObserved := true;
        case LocalFinSent(localPn) =>
          pendingFinAckSend := Some(pn);
          peerFinObserved := true;
          if receivedFinAckFor == Some(localPn) {
            state := PeerFinReceived(pn);
          } else {
            state := PeerFinReceived(pn);
          }
        case PeerFinReceived(fin) =>
          if fin == pn {
            pendingFinAckSend := Some(pn);
          }
        case Closed =>
      }
    }

    method BufferInFinAck(packet: Packet)
      modifies this`receivedFinAckFor
      ensures View() == FinAckIn(old(View()), packet.header.packetNumber)
    {
      receivedFinAckFor := Some(packet.header.packetNumber);
    }

    method TakePendingFinAckSend() returns (pn: Option<u64>)
      modifies this`pendingFinAckSend
      ensures pn == old(pendingFinAckSend) && View() == old(View()).(pendingFinAck := None)
    {
      pn := pendingFinAckSend;
      pendingFinAckSend := None;
    }

    method RecordLocalFinSent(pn: u64)
      modifies this`state
      ensures View() == RecordLocalFin(old(View()), pn)
    {
      match state {
        case Active => state := LocalFinSent(pn);
        case PeerFinReceived(_) => state := LocalFinSent(pn);
        case LocalFinSent(_) =>
        case Closed =>
      }
    }

    method SetClosed()
      modifies this`state
      ensures View() == MarkClosed(old(View()))
    {
      state := Closed;
    }
  }

  /** How many packets come before the first that is no close packet. */
  function ClosePrefix(ps: seq<Packet>): (k: nat)
    ensures k <= |ps|
    ensures forall i :: 0 <= i < k ==> IsClosePacket(ps[i])
    ensures k < |ps| ==> !IsClosePacket(ps[k])
  {
    if ps == [] || !IsClosePacket(ps[0]) then 0 else 1 + ClosePrefix(ps[1..])
  }

  /** One datagram that begins with a close packet: all are buffered in order, then at most
      one FinAck obligation is taken out for the sender. On meeting anything but a close
      packet it panics, with the packets before that one buffered. */
  method BufferInClosePackets(buffer: CloseBuffer, packets: seq<Packet>)
    returns (pending: Option<u64>, sawFin: bool, panicked: bool)
    modifies buffer
    ensures panicked <==> ClosePrefix(packets) < |packets|
    ensures sawFin == HasFin(packets[..ClosePrefix(packets)])
    ensures var b := CloseInAll(old(buffer.View()), packets[..ClosePrefix(packets)]);
            if sawFin && !panicked then pending == b.pendingFinAck && buffer.View() == b.(pendingFinAck := None)
            else pending == None && buffer.View() == b
  {
    sawFin, pending, panicked := false, None, false;
    ghost var k := ClosePrefix(packets);
    for i := 0 to |packets|
      invariant i <= k
      invariant CloseInAll(buffer.View(), packets[i..k]) == CloseInAll(old(buffer.View()), packets[..k])
      invariant sawFin || HasFin(packets[i..k]) <==> HasFin(packets[..k])
    {
      match packets[i].header.typeField {
        case Fin =>
          assert packets[i..k][1..] == packets[i + 1..k];
          buffer.BufferInFin(packets[i]);
          sawFin := true;
        case FinAck =>
          assert packets[i..k][1..] == packets[i + 1..k];
          buffer.BufferInFinAck(packets[i]);
        case _ =>
          return None, sawFin, true;
      }
    }
    if sawFin {
      pending := buffer.TakePendingFinAckSend();
    }
  }
}
