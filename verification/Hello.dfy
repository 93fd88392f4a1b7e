/** Pairing ClientHellos with `accept` calls: the shared state both sides update under one
    lock, as a value and in place, and what every run of arrivals and calls pairs up. */
module Hello {
  import opened Bytes
  import opened Header
  import opened Packet
  import opened Receive

  const MAX_QUEUED: nat := 64

  /** A hello a host may act on. A follower never gets this far. */
  predicate IsHello(host: Host, p: Packet) {
    var theirs, ours := p.header.src, p.header.dst;
    match host
    case PackLeader => p.header.typeField == ClientHello && theirs != 0 && ours == 0
    case Client => p.header.typeField == ServerHello && theirs != 0 && ours != 0
    case PackFollower => true
  }

  predicate IsClientAck(host: Host, p: Packet) {
    host == PackLeader && p.header.typeField == ClientAck && p.header.src != 0 && p.header.dst != 0
  }

  /** `pending` are accept slots without a hello, `queue` hellos without a slot. */
  datatype State = State(pending: seq<u32>, queue: seq<Packet>)

  datatype Action = Routed(id: u32) | Queued | Dropped

  function Arrive(s: State, hello: Packet): (State, Action) {
    if s.pending != [] then (s.(pending := s.pending[1..]), Routed(s.pending[0]))
    else if |s.queue| < MAX_QUEUED then (s.(queue := s.queue + [hello]), Queued)
    else (s, Dropped)
  }

  function Accept(s: State, id: u32): (State, Option<Packet>) {
    if s.queue != [] then (s.(queue := s.queue[1..]), Some(s.queue[0]))
    else (s.(pending := s.pending + [id]), None)
  }

  // ---- in place ----

  class HelloState {
    var pendingAcceptIds: seq<u32>
    var helloQueue: seq<Packet>

    ghost function View(): State
      reads this
    {
      State(pendingAcceptIds, helloQueue)
    }

    constructor ()
      ensures View() == State([], [])
    {
      pendingAcceptIds, helloQueue := [], [];
    }

    /** A server's worker has read a datagram of one packet. None: not a hello. */
    method HandleHelloSingle(p: Packet) returns (action: Option<Action>)
      modifies this
      ensures IsHello(PackLeader, p) ==> (View(), action) == (Arrive(old(View()), p).0, Some(Arrive(old(View()), p).1))
      ensures !IsHello(PackLeader, p) ==> View() == old(View()) && action == None
    {
      if p.header.typeField != ClientHello {
        return None;
      }
      if p.header.src == 0 {
        return None;
      }
      if p.header.dst != 0 {
        return None;
      }
      if pendingAcceptIds != [] {
        action := Some(Routed(pendingAcceptIds[0]));
        pendingAcceptIds := pendingAcceptIds[1..];
      } else if |helloQueue| < MAX_QUEUED {
        helloQueue := helloQueue + [p];
        action := Some(Queued);
      } else {
        action := Some(Dropped);
      }
    }

    method ClaimOrRegister(id: u32) returns (hello: Option<Packet>)
      modifies this
      ensures (View(), hello) == Accept(old(View()), id)
    {
      if helloQueue != [] {
        hello := Some(helloQueue[0]);
        helloQueue := helloQueue[1..];
      } else {
        pendingAcceptIds := pendingAcceptIds + [id];
        hello := None;
      }
    }
  }

  // ---- every run ----

  datatype Event = HelloArrives(hello: Packet) | AcceptCalled(id: u32)

  /** `calls` are the accept calls so far, `kept` the hellos that were not dropped, `pairs`
      the pairings made, by the worker or by the accept call. */
  datatype History = History(state: State, calls: seq<u32>, kept: seq<Packet>, pairs: seq<(u32, Packet)>)

  const BEGIN := History(State([], []), [], [], [])

  function Step(h: History, e: Event): History {
    match e
    case HelloArrives(p) =>
      var (state, action) := Arrive(h.state, p);
      History(state, h.calls,
              if action.Dropped? then h.kept else h.kept + [p],
              if action.Routed? then h.pairs + [(action.id, p)] else h.pairs)
    case AcceptCalled(id) =>
      var (state, hello) := Accept(h.state, id);
      History(state, h.calls + [id], h.kept, if hello.Some? then h.pairs + [(id, hello.value)] else h.pairs)
  }

  function Run(h: History, events: seq<Event>): History
    decreases |events|
  {
    if events == [] then h else Run(Step(h, events[0]), events[1..])
  }

  /** First come, first served: the k-th call is paired with the k-th kept hello, each
      exactly once; whatever is left over is all on one side, and the queue is bounded. */
  ghost predicate Fifo(h: History) {
    var n := |h.pairs|;
    && n <= |h.calls| && n <= |h.kept|
    && (forall k :: 0 <= k < n ==> h.pairs[k] == (h.calls[k], h.kept[k]))
    && h.state.pending == h.calls[n..]
    && h.state.queue == h.kept[n..]
    && (h.state.pending == [] || h.state.queue == [])
    && |h.state.queue| <= MAX_QUEUED
  }

  lemma ArriveKeepsFifo(h: History, p: Packet)
    requires Fifo(h)
    ensures Fifo(Step(h, HelloArrives(p)))
  {
  }

  lemma AcceptKeepsFifo(h: History, id: u32)
    requires Fifo(h)
    ensures Fifo(Step(h, AcceptCalled(id)))
  {
  }

  lemma {:induction false} EveryRunIsFifo(h: History, events: seq<Event>)
    requires Fifo(h)
    ensures Fifo(Run(h, events))
    decreases |events|
  {
    if events != [] {
      match events[0] {
        case HelloArrives(p) => ArriveKeepsFifo(h, p);
        case AcceptCalled(id) => AcceptKeepsFifo(h, id);
      }
      EveryRunIsFifo(Step(h, events[0]), events[1..]);
    }
  }

  /** A hello is dropped exactly when as many hellos as the queue holds came in beyond all calls. */
  lemma DroppedExactly(events: seq<Event>, p: Packet)
    ensures var h := Run(BEGIN, events);
            Arrive(h.state, p).1.Dropped? <==> |h.kept| == |h.calls| + MAX_QUEUED
  {
    EveryRunIsFifo(BEGIN, events);
  }
}
