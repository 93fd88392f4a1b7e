/** Exactly when a `close` call can still return Ok. */
module Confirm {
  import opened Bytes
  import opened Header
  import opened Packet
  import opened Close
  import opened CloseProtocol

  // ---- what is on the wire ----

  /** A received FinAck was sent, and so was every Fin a call has counted. */
  ghost predicate OnWire(p: Peer, side: nat, net: set<Message>) {
    && (p.buffer.receivedFinAck.Some? ==> Message(side, false, p.buffer.receivedFinAck.value) in net)
    && (forall i, k :: 0 <= i < |p.calls| && 0 <= k < |FinsOf(p.calls[i])| ==>
          Message(Other(side), true, FinsOf(p.calls[i])[k]) in net)
  }

  ghost predicate Good(w: World) {
    CloseProtocol.Inv(w) && OnWire(w.peers[0], 0, w.net) && OnWire(w.peers[1], 1, w.net)
  }

  lemma DeliverOnWire(p: Peer, side: nat, net: set<Message>, m: Message, ids: (u32, u32))
    requires OnWire(p, side, net) && p.buffer.pendingFinAck == None && m in net && m.dest == side
    ensures OnWire(Receive(p, MessageDatagram(m, ids)), side, net)
  {
    ReceiveEffect(p, m, ids);
  }

  /** What a step of an end does to one call. */
  lemma CallStep(p: Peer, e: Event, i: nat)
    requires !e.Deliver? && Act(p, e).Some? && i < |p.calls|
    ensures var (p', sent) := Act(p, e).value;
            && |p'.calls| == |p.calls| && p'.buffer.receivedFinAck == p.buffer.receivedFinAck
            && (FinsOf(p'.calls[i]) == FinsOf(p.calls[i])
                || (sent.Some? && sent.value.0 && FinsOf(p'.calls[i]) == FinsOf(p.calls[i]) + [sent.value.1]))
  {
  }

  lemma ActOnWire(p: Peer, side: nat, net: set<Message>, e: Event)
    requires OnWire(p, side, net) && !e.Deliver? && Act(p, e).Some?
    ensures var (p', sent) := Act(p, e).value;
            OnWire(p', side, if sent.None? then net else net + {Message(Other(side), sent.value.0, sent.value.1)})
  {
    var (p', sent) := Act(p, e).value;
    var net' := if sent.None? then net else net + {Message(Other(side), sent.value.0, sent.value.1)};
    forall i, k | 0 <= i < |p'.calls| && 0 <= k < |FinsOf(p'.calls[i])|
      ensures Message(Other(side), true, FinsOf(p'.calls[i])[k]) in net'
    {
      CallsSame(p, e);
      CallStep(p, e, i);
      if k < |FinsOf(p.calls[i])| {
        assert FinsOf(p'.calls[i])[k] == FinsOf(p.calls[i])[k];
      }
    }
    BufferSame(p, e);
  }

  lemma CallsSame(p: Peer, e: Event)
    requires Act(p, e).Some?
    ensures |Act(p, e).value.0.calls| == |p.calls|
  {
  }

  lemma BufferSame(p: Peer, e: Event)
    requires !e.Deliver? && Act(p, e).Some?
    ensures Act(p, e).value.0.buffer.receivedFinAck == p.buffer.receivedFinAck
  {
  }

  lemma OnWireGrows(p: Peer, side: nat, net: set<Message>, net': set<Message>)
    requires OnWire(p, side, net) && net <= net'
    ensures OnWire(p, side, net')
  {
  }

  lemma StepGood(w: World, side: nat, e: Event)
    requires Good(w) && side < 2 && Step(w, side, e).Some?
    ensures Good(Step(w, side, e).value)
  {
    var w' := Step(w, side, e).value;
    StepKeepsInv(w, side, e);
    var p, q := w.peers[side], w.peers[Other(side)];
    assert OnWire(w'.peers[side], side, w'.net) by {
      if e.Deliver? {
        DeliverOnWire(p, side, w.net, e.message, e.ids);
      } else {
        ActOnWire(p, side, w.net, e);
      }
    }
    OnWireGrows(q, Other(side), w.net, w'.net);
  }

  lemma {:induction false} RunGood(w: World, trace: seq<Occurrence>)
    requires Good(w) && Run(w, trace).Some?
    ensures Good(Run(w, trace).value)
    decreases |trace|
  {
    if trace != [] {
      StepGood(w, trace[0].side, trace[0].event);
      RunGood(Step(w, trace[0].side, trace[0].event).value, trace[1..]);
    }
  }

  lemma ReachedGood(w: World, calls0: nat, calls1: nat)
    requires Reached(w, calls0, calls1)
    ensures Good(w)
  {
    var trace :| Run(Init(calls0, calls1), trace) == Some(w);
    RunGood(Init(calls0, calls1), trace);
  }

  // ---- the condition ----

  /** Some close call of this end has yet to record its own Fin. */
  ghost predicate WillRecord(q: Peer) {
    exists i :: 0 <= i < |q.calls| && (q.calls[i].Flushing? || q.calls[i].Reserved?)
  }

  /** This end would answer a Fin with this number, now or after recording one of its own. */
  ghost predicate CanAnswer(q: Peer, fin: u64) {
    match q.buffer.state
    case Active => true
    case LocalFinSent(_) => true
    case PeerFinReceived(g) => g == fin || WillRecord(q)
    case Closed => false
  }

  /** A FinAck for this number is on the wire, on its way there, or can still be earned. */
  ghost predicate Confirmable(w: World, side: nat, fin: u64)
    requires |w.peers| == 2 && side < 2
  {
    var q := w.peers[Other(side)];
    || Message(side, false, fin) in w.net
    || fin in q.finAcks
    || q.inHand == Some(fin)
    || CanAnswer(q, fin)
  }

  /** A call that has its number and has an attempt or a wait before it. */
  predicate Pending(c: Call) {
    c.Reserved? || (c.Trying? && |c.sent| < MAX_FIN_ATTEMPTS) || c.Sent? || c.Parked?
  }

  // ---- what is not confirmable stays so ----

  lemma AnswererStays(q: Peer, e: Event, fin: u64)
    requires fin !in q.finAcks && q.inHand != Some(fin) && !CanAnswer(q, fin) && q.buffer.pendingFinAck == None
    requires Act(q, e).Some?
    ensures var (q', sent) := Act(q, e).value;
            && fin !in q'.finAcks && q'.inHand != Some(fin) && !CanAnswer(q', fin)
            && sent != Some((false, fin))
  {
    if e.Deliver? {
      ReceiveEffect(q, e.message, e.ids);
    } else {
      LocalStays(q, e, fin);
    }
  }

  lemma LocalStays(q: Peer, e: Event, fin: u64)
    requires fin !in q.finAcks && q.inHand != Some(fin) && !CanAnswer(q, fin) && !e.Deliver? && Act(q, e).Some?
    ensures var (q', sent) := Act(q, e).value;
            && fin !in q'.finAcks && q'.inHand != Some(fin) && !CanAnswer(q', fin)
            && sent != Some((false, fin))
  {
    var (q', sent) := Act(q, e).value;
    if !e.QueueFinAck? && !e.AnswerFin? {
      var c := q.calls[e.call];
      if WillRecord(q') && q'.buffer.state == q.buffer.state {
        var i :| 0 <= i < |q'.calls| && (q'.calls[i].Flushing? || q'.calls[i].Reserved?);
        assert q.calls[i].Flushing? || q.calls[i].Reserved?;
      }
    }
  }

  lemma HopelessStays(w: World, at: nat, e: Event, side: nat, fin: u64)
    requires Good(w) && at < 2 && side < 2 && Step(w, at, e).Some? && !Confirmable(w, side, fin)
    ensures !Confirmable(Step(w, at, e).value, side, fin)
  {
    if at != side {
      AnswererStays(w.peers[at], e, fin);
    }
  }

  /** A call with this number that has not been confirmed. */
  predicate Unconfirmed(c: Call, fin: u64) {
    CallHas(c, fin) && !c.Confirmed? && !(c.Returned? && c.ok)
  }

  lemma UnconfirmedStays(p: Peer, e: Event, i: nat, fin: u64)
    requires i < |p.calls| && Unconfirmed(p.calls[i], fin) && p.buffer.receivedFinAck != Some(fin)
    requires p.buffer.pendingFinAck == None && Act(p, e).Some?
    ensures i < |Act(p, e).value.0.calls| && Unconfirmed(Act(p, e).value.0.calls[i], fin)
  {
    if e.Deliver? {
      ReceiveEffect(p, e.message, e.ids);
    }
  }

  lemma HopelessStep(w: World, o: Occurrence, side: nat, call: nat, fin: u64)
    requires Good(w) && o.side < 2 && side < 2 && Step(w, o.side, o.event).Some? && !Confirmable(w, side, fin)
    requires call < |w.peers[side].calls| && Unconfirmed(w.peers[side].calls[call], fin)
    ensures var w' := Step(w, o.side, o.event).value;
            && Good(w') && !Confirmable(w', side, fin)
            && call < |w'.peers[side].calls| && Unconfirmed(w'.peers[side].calls[call], fin)
  {
    StepGood(w, o.side, o.event);
    HopelessStays(w, o.side, o.event, side, fin);
    if o.side == side {
      UnconfirmedStays(w.peers[side], o.event, call, fin);
    }
  }

  lemma {:induction false} NeverConfirmed(w: World, trace: seq<Occurrence>, side: nat, call: nat, fin: u64)
    requires Good(w) && side < 2 && !Confirmable(w, side, fin) && Run(w, trace).Some?
    requires call < |w.peers[side].calls| && Unconfirmed(w.peers[side].calls[call], fin)
    ensures var w' := Run(w, trace).value;
            |w'.peers| == 2 && call < |w'.peers[side].calls| && Unconfirmed(w'.peers[side].calls[call], fin)
    decreases |trace|
  {
    if trace != [] {
      HopelessStep(w, trace[0], side, call, fin);
      NeverConfirmed(Step(w, trace[0].side, trace[0].event).value, trace[1..], side, call, fin);
    }
  }

  // ---- what is confirmable can be confirmed ----

  ghost predicate Leads(w: World, w': World)
    requires |w.peers| == 2
  {
    exists trace :: Run(w, trace) == Some(w')
  }

  lemma LeadsSame(w: World)
    requires |w.peers| == 2
    ensures Leads(w, w)
  {
    assert Run(w, []) == Some(w);
  }

  lemma {:induction false} RunAppend(w: World, a: seq<Occurrence>, b: seq<Occurrence>)
    requires Good(w) && Run(w, a).Some?
    ensures Good(Run(w, a).value) && Run(w, a + b) == Run(Run(w, a).value, b)
    decreases |a|
  {
    RunGood(w, a);
    if a == [] {
      assert a + b == b;
    } else {
      assert (a + b)[1..] == a[1..] + b;
      StepGood(w, a[0].side, a[0].event);
      RunAppend(Step(w, a[0].side, a[0].event).value, a[1..], b);
    }
  }

  lemma LeadsThen(w: World, w1: World, w': World)
    requires Good(w) && Good(w1) && Leads(w, w1) && Leads(w1, w')
    ensures Leads(w, w')
  {
    var a :| Run(w, a) == Some(w1);
    var b :| Run(w1, b) == Some(w');
    RunAppend(w, a, b);
    assert Run(w, a + b) == Some(w');
  }

  /** One step of one end, which leaves the other as it is. */
  lemma Go(w: World, side: nat, e: Event) returns (w': World)
    requires Good(w) && side < 2 && Step(w, side, e).Some?
    ensures Step(w, side, e) == Some(w') && Good(w') && Leads(w, w')
    ensures w'.peers == w.peers[side := Act(w.peers[side], e).value.0] && w.net <= w'.net
    ensures var sent := Act(w.peers[side], e).value.1;
            sent.Some? ==> Message(Other(side), sent.value.0, sent.value.1) in w'.net
  {
    w' := Step(w, side, e).value;
    StepGood(w, side, e);
    var trace := [At(side, e)];
    assert trace[1..] == [];
    assert Run(w, trace) == Some(w');
  }

  /** A call that waits for the FinAck with this number. */
  predicate Waits(c: Call, fin: u64) {
    (c.Sent? || c.Parked?) && c.fin == fin
  }

  /** The call puts its Fin on the wire, if it has not yet. */
  lemma Announce(w: World, side: nat, call: nat, fin: u64) returns (w': World)
    requires Good(w) && side < 2 && call < |w.peers[side].calls|
    requires Pending(w.peers[side].calls[call]) && w.peers[side].calls[call].fin == fin
    ensures Good(w') && Leads(w, w') && w.net <= w'.net && w'.peers[Other(side)] == w.peers[Other(side)]
    ensures Message(Other(side), true, fin) in w'.net
    ensures call < |w'.peers[side].calls| && Waits(w'.peers[side].calls[call], fin)
  {
    var c := w.peers[side].calls[call];
    if c.Reserved? {
      var w1 := Go(w, side, Record(call));
      w' := Go(w1, side, SendFin(call));
      LeadsThen(w, w1, w');
    } else if c.Trying? {
      w' := Go(w, side, SendFin(call));
    } else {
      LeadsSame(w);
      w' := w;
      assert CallInv(c, w.peers[Other(side)]);
      assert FinsOf(c)[0] == fin;
    }
  }

  /** A FinAck that is queued gets sent. */
  lemma {:induction false} SendQueued(w: World, at: nat, fin: u64) returns (w': World)
    requires Good(w) && at < 2 && fin in w.peers[at].finAcks
    ensures Good(w') && Leads(w, w') && w.net <= w'.net && w'.peers[Other(at)] == w.peers[Other(at)]
    ensures Message(Other(at), false, fin) in w'.net
    decreases |w.peers[at].finAcks|
  {
    var w1 := Go(w, at, AnswerFin);
    if w.peers[at].finAcks[0] == fin {
      w' := w1;
    } else {
      w' := SendQueued(w1, at, fin);
      LeadsThen(w, w1, w');
    }
  }

  /** A FinAck in hand gets queued, once there is room, and sent. */
  lemma SendInHand(w: World, at: nat, fin: u64) returns (w': World)
    requires Good(w) && at < 2 && w.peers[at].inHand == Some(fin)
    ensures Good(w') && Leads(w, w') && w.net <= w'.net && w'.peers[Other(at)] == w.peers[Other(at)]
    ensures Message(Other(at), false, fin) in w'.net
    decreases |w.peers[at].finAcks|
  {
    if |w.peers[at].finAcks| < FIN_ACK_CHANNEL {
      var w1 := Go(w, at, QueueFinAck);
      w' := SendQueued(w1, at, fin);
      LeadsThen(w, w1, w');
    } else {
      var w1 := Go(w, at, AnswerFin);
      w' := SendInHand(w1, at, fin);
      LeadsThen(w, w1, w');
    }
  }

  /** The reader's hand is emptied. */
  lemma EmptyHand(w: World, at: nat) returns (w': World)
    requires Good(w) && at < 2
    ensures Good(w') && Leads(w, w') && w.net <= w'.net && w'.peers[Other(at)] == w.peers[Other(at)]
    ensures w'.peers[at].inHand == None && w'.peers[at].buffer == w.peers[at].buffer && w'.peers[at].calls == w.peers[at].calls
  {
    if w.peers[at].inHand.Some? {
      w' := Go(w, at, QueueFinAck);
    } else {
      LeadsSame(w);
      w' := w;
    }
  }

  /** A close call that has yet to record its Fin does so, which lets this end answer anew. */
  lemma RecordOne(w: World, at: nat) returns (w': World)
    requires Good(w) && at < 2 && WillRecord(w.peers[at]) && w.peers[at].buffer.state.PeerFinReceived?
    ensures Good(w') && Leads(w, w') && w.net <= w'.net && w'.peers[Other(at)] == w.peers[Other(at)]
    ensures w'.peers[at].buffer.state.LocalFinSent?
  {
    var i :| 0 <= i < |w.peers[at].calls| && (w.peers[at].calls[i].Flushing? || w.peers[at].calls[i].Reserved?);
    if w.peers[at].calls[i].Flushing? {
      var w1 := Go(w, at, Reserve(i, 0));
      w' := Go(w1, at, Record(i));
      LeadsThen(w, w1, w');
    } else {
      w' := Go(w, at, Record(i));
    }
  }

  lemma MakeReady(w: World, at: nat, fin: u64) returns (w': World)
    requires Good(w) && at < 2 && CanAnswer(w.peers[at], fin)
    ensures Good(w') && Leads(w, w') && w.net <= w'.net && w'.peers[Other(at)] == w.peers[Other(at)]
    ensures Answers(w'.peers[at].buffer, fin)
  {
    if Answers(w.peers[at].buffer, fin) {
      LeadsSame(w);
      w' := w;
    } else {
      w' := RecordOne(w, at);
    }
  }

  /** An end that can answer a Fin on the wire does answer it. */
  lemma Answer(w: World, at: nat, fin: u64) returns (w': World)
    requires Good(w) && at < 2 && CanAnswer(w.peers[at], fin) && Message(at, true, fin) in w.net
    ensures Good(w') && Leads(w, w') && w.net <= w'.net && w'.peers[Other(at)] == w.peers[Other(at)]
    ensures Message(Other(at), false, fin) in w'.net
  {
    var w1 := MakeReady(w, at, fin);
    var w2 := EmptyHand(w1, at);
    ReceiveEffect(w2.peers[at], Message(at, true, fin), (0, 0));
    var w3 := Go(w2, at, Deliver(Message(at, true, fin), (0, 0)));
    w' := SendInHand(w3, at, fin);
    LeadsThen(w, w1, w2);
    LeadsThen(w, w2, w3);
    LeadsThen(w, w3, w');
  }

  /** The FinAck arrives. */
  lemma FinAckArrives(w: World, side: nat, fin: u64) returns (w': World)
    requires Good(w) && side < 2 && Message(side, false, fin) in w.net
    ensures Good(w') && Leads(w, w') && w'.peers[side].calls == w.peers[side].calls
    ensures w'.peers[side].buffer.receivedFinAck == Some(fin)
  {
    var m := Message(side, false, fin);
    var w1 := EmptyHand(w, side);
    ReceiveEffect(w1.peers[side], m, (0, 0));
    w' := Go(w1, side, Deliver(m, (0, 0)));
    LeadsThen(w, w1, w');
  }

  /** With its FinAck there, a call that waits for it returns Ok. */
  lemma Conclude(w: World, side: nat, call: nat, fin: u64) returns (w': World)
    requires Good(w) && side < 2 && call < |w.peers[side].calls| && Waits(w.peers[side].calls[call], fin)
    requires w.peers[side].buffer.receivedFinAck == Some(fin)
    ensures Good(w') && Leads(w, w') && call < |w'.peers[side].calls|
    ensures w'.peers[side].calls[call].Returned? && w'.peers[side].calls[call].ok
  {
    var w1 := Go(w, side, if w.peers[side].calls[call].Sent? then Check(call) else Wake(call));
    w' := Go(w1, side, Finish(call));
    LeadsThen(w, w1, w');
  }

  /** The FinAck gets on the wire, wherever it is now. */
  lemma FinAckSent(w: World, side: nat, fin: u64) returns (w': World)
    requires Good(w) && side < 2 && Confirmable(w, side, fin) && Message(Other(side), true, fin) in w.net
    ensures Good(w') && Leads(w, w') && w'.peers[side] == w.peers[side] && Message(side, false, fin) in w'.net
  {
    var at := Other(side);
    if Message(side, false, fin) in w.net {
      LeadsSame(w);
      w' := w;
    } else if fin in w.peers[at].finAcks {
      w' := SendQueued(w, at, fin);
    } else if w.peers[at].inHand == Some(fin) {
      w' := SendInHand(w, at, fin);
    } else {
      w' := Answer(w, at, fin);
    }
  }

  // ---- exactly when ----

  /** Some continuation has the call return Ok. */
  ghost predicate CanConfirm(w: World, side: nat, call: nat)
    requires |w.peers| == 2 && side < 2
  {
    exists w' :: Leads(w, w') && |w'.peers| == 2 && call < |w'.peers[side].calls|
                 && w'.peers[side].calls[call].Returned? && w'.peers[side].calls[call].ok
  }

  lemma Confirms(w: World, side: nat, call: nat, fin: u64)
    requires Good(w) && side < 2 && call < |w.peers[side].calls| && Confirmable(w, side, fin)
    requires Pending(w.peers[side].calls[call]) && w.peers[side].calls[call].fin == fin
    ensures CanConfirm(w, side, call)
  {
    var w1 := Announce(w, side, call, fin);
    var w2 := FinAckSent(w1, side, fin);
    var w3 := FinAckArrives(w2, side, fin);
    var w' := Conclude(w3, side, call, fin);
    LeadsThen(w, w1, w2);
    LeadsThen(w, w2, w3);
    LeadsThen(w, w3, w');
  }

  /** Over every run: a close call that has its number, and an attempt or a wait before it,
      can still return Ok if and only if a FinAck for its number is on the wire, queued or in
      hand at the other end, or the other end can still answer its Fin. */
  lemma ConfirmExactly(w: World, calls0: nat, calls1: nat, side: nat, call: nat)
    requires Reached(w, calls0, calls1) && |w.peers| == 2 && side < 2 && call < |w.peers[side].calls|
    requires Pending(w.peers[side].calls[call])
    ensures CanConfirm(w, side, call) <==> Confirmable(w, side, w.peers[side].calls[call].fin)
  {
    var fin := w.peers[side].calls[call].fin;
    ReachedGood(w, calls0, calls1);
    if Confirmable(w, side, fin) {
      Confirms(w, side, call, fin);
    } else {
      forall w' | Leads(w, w')
        ensures |w'.peers| == 2 && call < |w'.peers[side].calls| && Unconfirmed(w'.peers[side].calls[call], fin)
      {
        var trace :| Run(w, trace) == Some(w');
        NeverConfirmed(w, trace, side, call, fin);
      }
    }
  }

  // ---- calls that fail ----

  lemma ReachedThen(w: World, calls0: nat, calls1: nat, w': World)
    requires Reached(w, calls0, calls1) && Good(w) && Leads(w, w')
    ensures Reached(w', calls0, calls1)
  {
    var a :| Run(Init(calls0, calls1), a) == Some(w);
    var b :| Run(w, b) == Some(w');
    ReachedGood(Init(calls0, calls1), calls0, calls1) by {
      assert Run(Init(calls0, calls1), []) == Some(Init(calls0, calls1));
    }
    RunAppend(Init(calls0, calls1), a, b);
    assert Run(Init(calls0, calls1), a + b) == Some(w');
  }

  /** A call of a new connection puts its Fin on the wire. */
  lemma FirstFin(calls0: nat, calls1: nat, fin: u64) returns (w: World)
    requires calls0 > 0
    ensures Reached(w, calls0, calls1) && Good(w) && w.peers[1] == Idle(calls1)
    ensures w.peers[0].calls == Idle(calls0).calls[0 := Sent(fin, [fin])] && w.peers[0].finAcks == [] && w.peers[0].inHand == None
    ensures w.net == {Message(1, true, fin)}
  {
    var w0 := Init(calls0, calls1);
    assert Run(w0, []) == Some(w0);
    ReachedGood(w0, calls0, calls1);
    var w1 := Go(w0, 0, Reserve(0, fin));
    var w2 := Go(w1, 0, Record(0));
    w := Go(w2, 0, SendFin(0));
    assert [] + [fin] == [fin] && {} + {Message(1, true, fin)} == {Message(1, true, fin)};
    LeadsThen(w0, w1, w2);
    LeadsThen(w0, w2, w);
    ReachedThen(w0, calls0, calls1, w);
  }

  /** It arrives. */
  lemma FirstFinArrives(w: World, calls0: nat, calls1: nat, fin: u64) returns (w': World)
    requires Reached(w, calls0, calls1) && Good(w) && w.peers[1] == Idle(calls1) && w.net == {Message(1, true, fin)}
    ensures Reached(w', calls0, calls1) && Good(w') && w'.peers[0] == w.peers[0] && w'.net == w.net
    ensures w'.peers[1] == Idle(calls1).(buffer := Buffer(PeerFinReceived(fin), None, None, true), inHand := Some(fin),
                                         answered := {fin})
  {
    var m := Message(1, true, fin);
    ReceiveEffect(w.peers[1], m, (0, 0));
    w' := Go(w, 1, Deliver(m, (0, 0)));
    assert {} + {fin} == {fin};
    ReachedThen(w, calls0, calls1, w');
  }

  /** A second close of the same end: while the other end holds the first Fin and has no close
      of its own to come, the second number is never confirmed. */
  lemma SecondNumberDropped(fin: u64, other: u64) returns (w: World)
    requires fin != other
    ensures Reached(w, 2, 0) && |w.peers| == 2 && |w.peers[0].calls| == 2 && w.peers[0].calls[1] == Reserved(other)
    ensures w.peers[1].buffer.state == PeerFinReceived(fin)
    ensures !CanConfirm(w, 0, 1)
  {
    var w1 := FirstFin(2, 0, fin);
    var w2 := FirstFinArrives(w1, 2, 0, fin);
    w := Go(w2, 0, Reserve(1, other));
    ReachedThen(w2, 2, 0, w);
    assert !WillRecord(w.peers[1]);
    ConfirmExactly(w, 2, 0, 0, 1);
  }

  /** The other end answers it. */
  lemma FirstFinAckQueued(w: World, fin: u64) returns (w': World)
    requires Reached(w, 1, 1) && Good(w) && w.peers[1].inHand == Some(fin) && w.peers[1].finAcks == []
    ensures Reached(w', 1, 1) && Good(w') && w'.peers[0] == w.peers[0] && w'.net == w.net
    ensures w'.peers[1] == w.peers[1].(inHand := None, finAcks := [fin])
  {
    w' := Go(w, 1, QueueFinAck);
    ReachedThen(w, 1, 1, w');
  }

  lemma FirstFinAnswered(w: World, fin: u64) returns (w': World)
    requires Reached(w, 1, 1) && Good(w) && w.peers[1].finAcks == [fin]
    ensures Reached(w', 1, 1) && Good(w') && w'.peers[0] == w.peers[0] && w'.net == w.net + {Message(0, false, fin)}
    ensures w'.peers[1] == w.peers[1].(finAcks := [])
  {
    w' := Go(w, 1, AnswerFin);
    ReachedThen(w, 1, 1, w');
  }

  /** The answer arrives. */
  lemma FirstFinAckArrives(w: World, fin: u64) returns (w': World)
    requires Reached(w, 1, 1) && Good(w) && Message(0, false, fin) in w.net && w.peers[0].inHand == None
    ensures Reached(w', 1, 1) && Good(w') && w'.peers[1] == w.peers[1] && w'.net == w.net
    ensures w'.peers[0] == w.peers[0].(buffer := FinAckIn(w.peers[0].buffer, fin))
  {
    var m := Message(0, false, fin);
    ReceiveEffect(w.peers[0], m, (0, 0));
    w' := Go(w, 0, Deliver(m, (0, 0)));
    ReachedThen(w, 1, 1, w');
  }

  /** The call sees it. */
  lemma FirstConfirmed(w: World, fin: u64) returns (w': World)
    requires Reached(w, 1, 1) && Good(w) && w.peers[0].calls == [Sent(fin, [fin])]
    requires w.peers[0].buffer.receivedFinAck == Some(fin)
    ensures Reached(w', 1, 1) && Good(w') && w'.peers[1] == w.peers[1] && w'.net == w.net
    ensures w'.peers[0] == w.peers[0].(calls := [Confirmed(fin, [fin])])
  {
    w' := Go(w, 0, Check(0));
    ReachedThen(w, 1, 1, w');
  }

  /** The call returns. */
  lemma FirstReturns(w: World, fin: u64) returns (w': World)
    requires Reached(w, 1, 1) && Good(w) && w.peers[0].calls == [Confirmed(fin, [fin])]
    ensures Reached(w', 1, 1) && Good(w') && w'.peers[1] == w.peers[1] && w'.net == w.net
    ensures w'.peers[0] == w.peers[0].(calls := [Returned(fin, [fin], true)], buffer := MarkClosed(w.peers[0].buffer))
  {
    w' := Go(w, 0, Finish(0));
    ReachedThen(w, 1, 1, w');
  }

  lemma FirstFinHeld(fin: u64) returns (w: World)
    ensures Reached(w, 1, 1) && Good(w) && w.peers[0].calls == [Sent(fin, [fin])]
    ensures w.peers[0].finAcks == [] && w.peers[0].inHand == None && w.net == {Message(1, true, fin)}
    ensures w.peers[1].calls == [Flushing] && w.peers[1].buffer.receivedFinAck == None
    ensures w.peers[1].inHand == Some(fin) && w.peers[1].finAcks == []
  {
    w := FirstFin(1, 1, fin);
    assert Idle(1).calls == [Flushing] && [Flushing][0 := Sent(fin, [fin])] == [Sent(fin, [fin])];
    w := FirstFinArrives(w, 1, 1, fin);
  }

  /** One end closes, and returns Ok. */
  lemma FirstCloses(fin: u64) returns (w: World)
    ensures Reached(w, 1, 1) && Good(w)
    ensures w.peers[0].calls == [Returned(fin, [fin], true)] && w.peers[0].buffer.state.Closed?
    ensures w.peers[0].finAcks == [] && w.peers[0].inHand == None
    ensures w.peers[1].calls == [Flushing] && w.peers[1].buffer.receivedFinAck == None
    ensures forall n :: Message(1, false, n) !in w.net
  {
    w := FirstFinHeld(fin);
    w := FirstFinAckQueued(w, fin);
    w := FirstFinAnswered(w, fin);
    w := FirstFinAckArrives(w, fin);
    w := FirstConfirmed(w, fin);
    w := FirstReturns(w, fin);
  }

  /** One attempt that nobody answers. */
  lemma Attempt(w: World, side: nat, call: nat, fin: u64) returns (w': World)
    requires Good(w) && side < 2 && call < |w.peers[side].calls| && w.peers[side].calls[call].Trying?
    requires w.peers[side].calls[call].fin == fin && |w.peers[side].calls[call].sent| < 3
    requires w.peers[side].buffer.receivedFinAck != Some(fin)
    ensures Good(w') && Leads(w, w')
    ensures w'.peers[side] == SetCall(w.peers[side], call, Trying(fin, w.peers[side].calls[call].sent + [fin]))
  {
    var w1 := Go(w, side, SendFin(call));
    w' := GiveUpWaiting(w1, side, call);
    LeadsThen(w, w1, w');
  }

  lemma GiveUpWaiting(w: World, side: nat, call: nat) returns (w': World)
    requires Good(w) && side < 2 && call < |w.peers[side].calls| && w.peers[side].calls[call].Sent?
    requires w.peers[side].buffer.receivedFinAck != Some(w.peers[side].calls[call].fin)
    ensures Good(w') && Leads(w, w')
    ensures var c := w.peers[side].calls[call];
            w'.peers[side] == SetCall(w.peers[side], call, Trying(c.fin, c.sent))
  {
    var w1 := Go(w, side, Check(call));
    w' := Go(w1, side, Timeout(call));
    LeadsThen(w, w1, w');
  }

  lemma {:induction false} Attempts(w: World, side: nat, call: nat, fin: u64) returns (w': World)
    requires Good(w) && side < 2 && call < |w.peers[side].calls| && w.peers[side].calls[call].Trying?
    requires w.peers[side].calls[call].fin == fin && |w.peers[side].calls[call].sent| <= 3
    requires w.peers[side].buffer.receivedFinAck != Some(fin)
    ensures Good(w') && Leads(w, w') && |w'.peers[side].calls| == |w.peers[side].calls|
    ensures w'.peers[side].calls[call].Trying? && w'.peers[side].calls[call].fin == fin
    ensures |w'.peers[side].calls[call].sent| == 3
    decreases 3 - |w.peers[side].calls[call].sent|
  {
    if |w.peers[side].calls[call].sent| == 3 {
      LeadsSame(w);
      w' := w;
    } else {
      var w1 := Attempt(w, side, call, fin);
      w' := Attempts(w1, side, call, fin);
      LeadsThen(w, w1, w');
    }
  }

  lemma LastTimeout(w: World, side: nat, call: nat, fin: u64) returns (w': World)
    requires Good(w) && side < 2 && call < |w.peers[side].calls| && w.peers[side].calls[call].Trying?
    requires w.peers[side].calls[call].fin == fin && |w.peers[side].calls[call].sent| == 3
    ensures Good(w') && Leads(w, w') && |w'.peers[side].calls| == |w.peers[side].calls|
    ensures w'.peers[side].calls[call] == Returned(fin, [fin, fin, fin], false)
  {
    assert CallInv(w.peers[side].calls[call], w.peers[Other(side)]);
    w' := Go(w, side, GiveUp(call));
  }

  /** Three such attempts, and the call gives up. */
  lemma TimesOut(w: World, side: nat, call: nat, fin: u64) returns (w': World)
    requires Good(w) && side < 2 && call < |w.peers[side].calls| && w.peers[side].calls[call] == Reserved(fin)
    requires w.peers[side].buffer.receivedFinAck != Some(fin)
    ensures Good(w') && Leads(w, w') && |w'.peers[side].calls| == |w.peers[side].calls|
    ensures w'.peers[side].calls[call] == Returned(fin, [fin, fin, fin], false)
  {
    var w1 := Go(w, side, Record(call));
    var w2 := Attempts(w1, side, call, fin);
    w' := LastTimeout(w2, side, call, fin);
    LeadsThen(w, w1, w2);
    LeadsThen(w, w2, w');
  }

  /** One end closes and returns Ok, then the other end calls close: whatever happens it cannot
      return Ok, and in this run it sends its three Fins and times out. */
  lemma SecondCloseTimesOut(fin: u64, other: u64) returns (w: World, w': World)
    ensures Reached(w, 1, 1) && |w.peers| == 2 && w.peers[0].calls == [Returned(fin, [fin], true)]
    ensures w.peers[1].calls == [Reserved(other)] && !CanConfirm(w, 1, 0)
    ensures Leads(w, w') && Reached(w', 1, 1) && |w'.peers| == 2
    ensures w'.peers[1].calls == [Returned(other, [other, other, other], false)]
  {
    var w0 := FirstCloses(fin);
    w := Go(w0, 1, Reserve(0, other));
    ReachedThen(w0, 1, 1, w);
    ConfirmExactly(w, 1, 1, 1, 0);
    w' := TimesOut(w, 1, 0, other);
    ReachedThen(w, 1, 1, w');
  }
}
