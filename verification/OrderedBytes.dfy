/** The 2000-slot circular buffer, updated in place. */
module OrderedBytes {
  import opened Bytes
  import opened Header
  import opened Packet
  import R = Ring

  const MAX_BUFFER_SIZE: nat := 2000

  /** Branch-and-subtract instead of a division. */
  function WrapIndex(base: nat, offset: nat): (i: nat)
    requires base < MAX_BUFFER_SIZE && offset <= MAX_BUFFER_SIZE
    ensures i == (base + offset) % 2000
  {
    var raw := base + offset;
    if raw >= MAX_BUFFER_SIZE then raw - MAX_BUFFER_SIZE else raw
  }

  datatype ConsumeResult = ConsumeResult(packets: nat, base: u64, bytes: nat)

  class OrderedBytes {
    const packets: array<Option<Packet>>
    var head: nat
    var smallest: nat
    var carry: Option<seq<byte>>

    ghost predicate Valid()
      reads this, packets
    {
      && packets.Length == MAX_BUFFER_SIZE
      && head < MAX_BUFFER_SIZE
      && R.Valid(View())
    }

    /** The slots in packet-number order, starting at the head. */
    ghost function View(): (r: R.Ring)
      requires packets.Length == MAX_BUFFER_SIZE && head < MAX_BUFFER_SIZE
      reads this, packets
      ensures |r.slots| == R.CAPACITY
    {
      R.Ring(smallest, packets[head..] + packets[..head], carry)
    }

    constructor (start: nat)
      ensures Valid() && fresh(packets) && View() == R.Fresh(start)
    {
      packets := new Option<Packet>[MAX_BUFFER_SIZE](_ => None);
      head, smallest, carry := 0, start, None;
    }

    /** Called once, before any packet is buffered. */
    method SetStartPacketNumber(start: nat)
      requires packets.Length == MAX_BUFFER_SIZE && head < MAX_BUFFER_SIZE
      modifies this`smallest
      ensures View() == old(View()).(next := start)
      ensures old(Valid() && View() == R.Fresh(smallest)) ==> Valid() && View() == R.Fresh(start)
    {
      smallest := start;
    }

    method BufferInPacket(packet: Packet) returns (outcome: R.BufferOutcome)
      requires Valid()
      modifies packets
      ensures Valid()
      ensures (View(), outcome) == R.BufferIn(old(View()), packet)
    {
      var packetNum := packet.header.packetNumber;
      if packetNum < smallest {
        return R.UnexpectedNumber;
      }
      var offset := packetNum - smallest;
      if offset >= MAX_BUFFER_SIZE {
        return R.Full;
      }
      var index := WrapIndex(head, offset);
      if packets[index].Some? {
        return R.Duplicate;
      }
      packets[index] := Some(packet);
      assert View().slots == old(View()).slots[offset := Some(packet)];
      outcome := R.Accepted;
    }

    method PeekHead() returns (ready: bool)
      requires Valid()
      ensures ready == R.Peek(View())
    {
      if carry.Some? {
        return true;
      }
      if packets[head].Some? {
        return true;
      }
      ready := false;
    }

    /** Frees the head slot and moves to the next one. */
    method AdvanceHead()
      requires packets.Length == MAX_BUFFER_SIZE && head < MAX_BUFFER_SIZE && packets[head].Some?
      modifies this`head, this`smallest, packets
      ensures head == WrapIndex(old(head), 1)
      ensures smallest == old(packets[head].value.header.packetNumber) + 1
      ensures View().slots == old(View()).slots[1..] + [None]
    {
      var slot := head;
      smallest := packets[slot].value.header.packetNumber + 1;
      packets[slot] := None;
      head := WrapIndex(head, 1);
    }

    /** The body of the read loop: one packet moves to the caller's buffer, as far as it fits. */
    method OpenHead(len: nat, numBytes: nat, buf: array<byte>) returns (numBytes': nat)
      requires packets.Length == MAX_BUFFER_SIZE && head < MAX_BUFFER_SIZE && packets[head].Some?
      requires packets[head].value.header.packetNumber == smallest
      requires carry == None && numBytes <= len <= buf.Length
      modifies this`head, this`smallest, this`carry, packets, buf
      ensures head == WrapIndex(old(head), 1)
      ensures numBytes' <= len
      ensures R.Reading(View(), buf[..numBytes']) == R.OpenHead(R.Reading(old(View()), old(buf[..numBytes])), len)
      ensures buf[numBytes'..] == old(buf[numBytes'..])
      ensures carry.Some? ==> numBytes' == len
    {
      var payload := packets[head].value.payload;
      var bytesRemaining := len - numBytes;
      if |payload| > bytesRemaining {
        CopyInto(buf, numBytes, payload[..bytesRemaining]);
        carry := Some(payload[bytesRemaining..]);
        numBytes' := numBytes + bytesRemaining;
      } else {
        CopyInto(buf, numBytes, payload);
        numBytes' := numBytes + |payload|;
      }
      AdvanceHead();
    }

    /** The read loop: packets from the head while there is one and `len` is not reached. */
    method OpenRun(len: nat, numBytes0: nat, buf: array<byte>) returns (numBytes: nat, ix: nat)
      requires packets.Length == MAX_BUFFER_SIZE && head < MAX_BUFFER_SIZE && carry == None
      requires R.Numbered(View()) && numBytes0 <= len <= buf.Length
      modifies this`head, this`smallest, this`carry, packets, buf
      ensures head < MAX_BUFFER_SIZE && numBytes0 <= numBytes <= len
      ensures R.ReadFinished(R.Reading(old(View()), old(buf[..numBytes0])), R.Reading(View(), buf[..numBytes]), ix, len)
      ensures buf[numBytes..] == old(buf[numBytes..])
    {
      var base := head;
      ghost var start := R.Reading(View(), buf[..numBytes0]);
      ghost var now := start;
      ix, numBytes := 0, numBytes0;
      while ix < MAX_BUFFER_SIZE && packets[WrapIndex(base, ix)].Some? && numBytes < len
        invariant ix <= MAX_BUFFER_SIZE && numBytes0 <= numBytes <= len
        invariant head < MAX_BUFFER_SIZE && head == WrapIndex(base, ix)
        invariant now == R.Reading(View(), buf[..numBytes])
        invariant R.ReadProgress(start, now, ix, len)
        invariant buf[numBytes..] == old(buf[numBytes..])
        decreases MAX_BUFFER_SIZE - ix
      {
        R.ReadStep(start, now, ix, len);
        now := R.OpenHead(now, len);
        numBytes := OpenHead(len, numBytes, buf);
        ix := ix + 1;
      }
    }

    /** Copies the next `len` bytes of the stream, or as many as are there, into `buf`. */
    method Consume(len: nat, buf: array<byte>) returns (result: Option<ConsumeResult>)
      requires Valid() && buf.Length >= len
      modifies this`head, this`smallest, this`carry, packets, buf
      ensures Valid()
      ensures View() == R.Consume(old(View()), len).0
      ensures match R.Consume(old(View()), len).1
              case None => result == None && buf[..] == old(buf[..])
              case Some(read) =>
                && result == Some(ConsumeResult(read.count, read.base, |read.bytes|))
                && |read.bytes| <= len
                && buf[..|read.bytes|] == read.bytes
                && buf[|read.bytes|..] == old(buf[|read.bytes|..])
    {
      ghost var r0 := View();
      R.ConsumeValid(r0, len);
      var numBytes: nat := 0;
      if carry.Some? {
        var c := carry.value;
        if |c| <= len {
          CopyInto(buf, 0, c);
          numBytes := |c|;
          carry := None;
        } else {
          CopyInto(buf, 0, c[..len]);
          carry := Some(c[len..]);
          return Some(ConsumeResult(0, 0, len));
        }
      }
      var basePacketNumber := if packets[head].Some? then packets[head].value.header.packetNumber else 0;
      assert R.Reading(View(), buf[..numBytes]) == R.Reading(r0.(carry := None), R.CarryBytes(r0));
      var ix;
      numBytes, ix := OpenRun(len, numBytes, buf);
      R.ReadDone(r0, len, R.Reading(View(), buf[..numBytes]), ix);
      if numBytes == 0 {
        return None;
      }
      result := Some(ConsumeResult(ix, basePacketNumber, numBytes));
    }

    /** The loop of the zero-copy read: whole payloads, at most `room` of them. */
    method PopRun(out0: seq<seq<byte>>, total0: nat, room: nat) returns (out: seq<seq<byte>>, total: nat, ix: nat)
      requires packets.Length == MAX_BUFFER_SIZE && head < MAX_BUFFER_SIZE && carry == None
      requires R.Numbered(View())
      modifies this`head, this`smallest, packets
      ensures head < MAX_BUFFER_SIZE
      ensures ix == Min(R.RunLength(old(View()).slots), room)
      ensures View() == R.Advance(old(View()), ix, None)
      ensures out == out0 + R.RunPayloads(old(View()).slots, ix)
      ensures total == total0 + |Concat(R.RunPayloads(old(View()).slots, ix))|
    {
      var base := head;
      ghost var r := View();
      ix, out, total := 0, out0, total0;
      assert R.Advance(r, 0, None) == r;
      while ix < MAX_BUFFER_SIZE && |out| - |out0| < room && packets[WrapIndex(base, ix)].Some?
        invariant ix <= MAX_BUFFER_SIZE && ix <= room && ix <= R.RunLength(r.slots)
        invariant head < MAX_BUFFER_SIZE && head == WrapIndex(base, ix)
        invariant View() == R.Advance(r, ix, None)
        invariant out == out0 + R.RunPayloads(r.slots, ix)
        invariant total == total0 + |Concat(R.RunPayloads(r.slots, ix))|
        decreases MAX_BUFFER_SIZE - ix
      {
        R.AdvanceShift(r, ix);
        R.RunSnoc(r.slots, ix);
        var payload := packets[head].value.payload;
        ConcatSnoc(R.RunPayloads(r.slots, ix), payload);
        total := total + |payload|;
        out := out + [payload];
        AdvanceHead();
        ix := ix + 1;
      }
      if ix < MAX_BUFFER_SIZE {
        R.AdvanceShift(r, ix);
      }
      R.PopDone(r, room, ix);
    }

    /** Appends whole payloads, a carried-over remainder first, to the caller's vector. */
    method ConsumeBytes(out0: seq<seq<byte>>, maxPackets: nat)
      returns (out: seq<seq<byte>>, result: Option<ConsumeResult>)
      requires Valid()
      modifies this`head, this`smallest, this`carry, packets
      ensures Valid()
      ensures View() == R.ConsumeBytes(old(View()), maxPackets).0
      ensures match R.ConsumeBytes(old(View()), maxPackets).1
              case None => result == None && out == out0
              case Some((read, pieces)) =>
                && result == Some(ConsumeResult(read.count, read.base, |read.bytes|))
                && out == out0 + pieces
    {
      ghost var r0 := View();
      R.ConsumeBytesValid(r0, maxPackets);
      var total: nat := 0;
      out := out0;
      if carry.Some? {
        total := |carry.value|;
        out := out + [carry.value];
        carry := None;
      }
      var basePacketNumber := if packets[head].Some? then packets[head].value.header.packetNumber else 0;
      ghost var c := R.CarryPieces(r0);
      assert out == out0 + c && View() == r0.(carry := None);
      var ix;
      out, total, ix := PopRun(out, total, if maxPackets <= |out| - |out0| then 0 else maxPackets - (|out| - |out0|));
      R.PiecesOut(r0, ix, out0);
      if |out| == |out0| {
        return out, None;
      }
      result := Some(ConsumeResult(ix, basePacketNumber, total));
    }
  }
}
