/** From the handshake to the transfer: what the two directions of an accepted connection
    deliver, given where each side starts counting. */
module Established {
  import opened Bytes
  import opened Transfer
  import opened Delivery
  import R = Ring
  import H = Handshake
  import P = Pipeline

  /** The direction from the client of the accept call `s` to the server: its writer starts
      with the number the handshake handed it. */
  function ToServer(w: H.World, s: u32): P.Conn
    requires s in w.accepts && w.accepts[s].peer in w.clients && w.clients[w.accepts[s].peer].first.Some?
  {
    var c := w.accepts[s].peer;
    P.Conn(c, s, w.clients[c].first.value)
  }

  function ToClient(w: H.World, s: u32): P.Conn
    requires s in w.accepts && w.accepts[s].first.Some?
  {
    P.Conn(s, w.accepts[s].peer, w.accepts[s].first.value)
  }

  /** On an accepted connection both transfers begin with the ack window the handshake made. */
  lemma WindowsStartRight(w: H.World, s: u32, callers: nat)
    requires H.Reachable(w) && s in w.accepts && w.accepts[s].phase.Done?
    ensures var c := w.accepts[s].peer;
            && c in w.clients && w.clients[c].first.Some? && w.accepts[s].first.Some?
            && w.clients[c].start.Some? && w.accepts[s].start.Some?
            && Init(ToServer(w, s), callers, w.accepts[s].start.value).window.smallest == w.clients[c].acks
            && Init(ToClient(w, s), callers, w.clients[c].start.value).window.smallest == w.accepts[s].acks
  {
    H.Agreement(w, s);
  }

  /** What an accepted connection's client reads is a prefix of what the server sent. */
  lemma ServerToClient(w: H.World, s: u32, t: World, callers: nat)
    requires H.Reachable(w) && s in w.accepts && w.accepts[s].phase.Done?
    requires var c := w.accepts[s].peer;
             c in w.clients && w.clients[c].start.Some? && w.accepts[s].first.Some?
             && Reachable(t, ToClient(w, s), callers, w.clients[c].start.value)
    ensures t.history.out <= Concat(t.pipe.accepted)
  {
    H.Agreement(w, s);
    EveryRunDeliversInOrder(t, ToClient(w, s), callers, w.clients[w.accepts[s].peer].start.value);
  }

  /** What its server reads is a prefix of what the client sent, unless the hello had been
      queued. Then the first packet is never delivered, all others are in order, and the
      client's ack window never moves. */
  lemma ClientToServer(w: H.World, s: u32, t: World, callers: nat)
    requires H.Reachable(w) && s in w.accepts && w.accepts[s].phase.Done?
    requires w.accepts[s].peer in w.clients && w.clients[w.accepts[s].peer].first.Some? && w.accepts[s].start.Some?
    requires Reachable(t, ToServer(w, s), callers, w.accepts[s].start.value)
    ensures !w.accepts[s].queued ==> t.history.out <= Concat(t.pipe.accepted)
    ensures var first, next, packets := ToServer(w, s).first, t.history.ring.next, Packets(t.pipe);
            w.accepts[s].queued ==>
              && next >= first + 1
              && (next == first + 1 ==> t.history.out == [])
              && (next > first + 1 ==>
                    && next <= first + |packets|
                    && t.history.out + R.CarryBytes(t.history.ring) == Concat(packets[1..next - first]))
              && t.window.smallest == first
  {
    H.Agreement(w, s);
    var conn, start := ToServer(w, s), w.accepts[s].start.value;
    EveryRunDeliversInOrder(t, conn, callers, start);
    if w.accepts[s].queued {
      LateStartFreezesWindow(t, conn, callers, start);
    }
  }
}
