/** `flush` calls on top of the writer pipeline: the loads of the counter, the registration
    for a notification, and the one place that notifies. Exactly when such a call returns. */
module Flush {
  import opened Bytes
  import opened Packetizer
  import P = Pipeline
  import D = Drain

  /** Where a flush call is: about to load the counter, past a first load that saw bytes,
      registered for a notification, parked. `woken`: a notification has come since. */
  datatype Phase = NotCalled | Calling | Busy | Registered(woken: bool) | Parked(woken: bool) | Returned

  /** `notifying`: the sender task has taken the counter to zero and is about to notify. */
  datatype World = World(pipe: P.Pipe, notifying: bool, flushes: seq<Phase>)

  datatype Event = OfPipe(event: P.Event) | Notify | Call(id: nat) | Move(id: nat)

  function Init(conn: P.Conn, callers: nat, calls: nat): World {
    World(P.Init(conn, callers), false, seq(calls, _ => NotCalled))
  }

  /** The sender's decrement notifies if it is the one that takes the counter to zero. */
  predicate Zeroes(p: P.Pipe, e: P.Event) {
    e == P.SendTask(P.Account) && p.sender.Accounting? && p.sender.bytes > 0 && p.pending == p.sender.bytes
  }

  function PipeStep(w: World, e: P.Event): Option<World> {
    if w.notifying && e.SendTask? then None
    else match P.Step(w.pipe, e)
      case None => None
      case Some(p) => Some(w.(pipe := p, notifying := w.notifying || Zeroes(w.pipe, e)))
  }

  function Woken(f: Phase): Phase {
    match f
    case Registered(_) => Registered(true)
    case Parked(_) => Parked(true)
    case _ => f
  }

  function WakeAll(flushes: seq<Phase>): (woken: seq<Phase>)
    ensures |woken| == |flushes|
  {
    seq(|flushes|, i requires 0 <= i < |flushes| => Woken(flushes[i]))
  }

  /** The loop of a flush call: load, register, load again, park, start over when woken. */
  function Next(f: Phase, pending: int): Option<Phase> {
    match f
    case NotCalled => None
    case Calling => Some(if pending == 0 then Returned else Busy)
    case Busy => Some(Registered(false))
    case Registered(woken) => Some(if pending == 0 then Returned else Parked(woken))
    case Parked(woken) => if woken then Some(Calling) else None
    case Returned => None
  }

  function Step(w: World, e: Event): Option<World> {
    match e
    case OfPipe(event) => PipeStep(w, event)
    case Notify => if w.notifying then Some(w.(notifying := false, flushes := WakeAll(w.flushes))) else None
    case Call(id) =>
      if id < |w.flushes| && w.flushes[id].NotCalled? then Some(w.(flushes := w.flushes[id := Calling])) else None
    case Move(id) =>
      if id >= |w.flushes| then None
      else match Next(w.flushes[id], w.pipe.pending)
        case None => None
        case Some(f) => Some(w.(flushes := w.flushes[id := f]))
  }

  function Run(w: World, trace: seq<Event>): Option<World>
    decreases |trace|
  {
    if trace == [] then Some(w)
    else match Step(w, trace[0])
      case None => None
      case Some(w') => Run(w', trace[1..])
  }

  /** What happens without anybody calling in. */
  predicate Background(e: Event) {
    match e
    case OfPipe(event) => D.Background(event)
    case Notify => true
    case Call(_) => false
    case Move(_) => true
  }

  ghost predicate Quietly(trace: seq<Event>) {
    forall i :: 0 <= i < |trace| ==> Background(trace[i])
  }

  ghost predicate Rest(w: World) {
    forall e :: Background(e) ==> Step(w, e).None?
  }

  // ---- states ----

  ghost predicate Inv(w: World) {
    P.Inv(w.pipe) && D.Bounded(w.pipe)
  }

  /** No send call is on its way to its enqueue, and packet numbers will not run out. */
  ghost predicate Settled(w: World) {
    Inv(w) && D.Settled(w.pipe.sends) && w.pipe.conn.first + |Concat(w.pipe.accepted)| + MAX_PACKETS < U64_LIMIT
  }

  /** A flush call that has begun and not returned. */
  predicate InProgress(w: World, i: nat) {
    i < |w.flushes| && !w.flushes[i].NotCalled? && !w.flushes[i].Returned?
  }

  /** Bytes that failed sends have added to the counter and not yet taken back. */
  function FailedBytes(w: World): nat {
    P.Increments(w.pipe.sends)
  }

  /** Parked with no notification on its way: nothing is left for the sender to subtract. */
  predicate Missed(w: World, i: nat) {
    i < |w.flushes| && w.flushes[i] == Parked(false) && P.Unsubtracted(w.pipe) == 0 && !w.notifying
  }

  lemma StepKeepsInv(w: World, e: Event)
    requires Inv(w) && Step(w, e).Some?
    ensures Inv(Step(w, e).value) && Step(w, e).value.pipe.conn == w.pipe.conn
    ensures |Step(w, e).value.flushes| == |w.flushes|
  {
    if e.OfPipe? {
      P.StepKeepsInv(w.pipe, e.event);
      D.StepBounded(w.pipe, e.event);
    }
  }

  lemma {:induction false} EveryRunKeepsInv(w: World, trace: seq<Event>)
    requires Inv(w) && Run(w, trace).Some?
    ensures Inv(Run(w, trace).value) && Run(w, trace).value.pipe.conn == w.pipe.conn
    ensures |Run(w, trace).value.flushes| == |w.flushes|
    decreases |trace|
  {
    if trace != [] {
      StepKeepsInv(w, trace[0]);
      EveryRunKeepsInv(Step(w, trace[0]).value, trace[1..]);
    }
  }

  ghost predicate Reachable(w: World, conn: P.Conn, callers: nat, calls: nat) {
    exists trace :: Run(Init(conn, callers, calls), trace) == Some(w)
  }

  lemma ReachableInv(w: World, conn: P.Conn, callers: nat, calls: nat)
    requires Reachable(w, conn, callers, calls)
    ensures Inv(w) && w.pipe.conn == conn && |w.flushes| == calls
  {
    var trace :| Run(Init(conn, callers, calls), trace) == Some(w);
    P.InitInv(conn, callers);
    EveryRunKeepsInv(Init(conn, callers, calls), trace);
  }

  // ---- what the counter does in the background ----

  lemma CounterIs(p: P.Pipe)
    requires P.Inv(p)
    ensures p.pending == P.Unsubtracted(p) + P.Increments(p.sends)
  {
  }

  lemma TaskCounter(p: P.Pipe, e: P.Event)
    requires D.IsTask(e) && P.Step(p, e).Some?
    ensures var p' := P.Step(p, e).value;
            && p'.sends == p.sends
            && (e != P.SendTask(P.Account) ==> p'.pending == p.pending)
            && (e == P.SendTask(P.Account) ==> p.sender.Accounting? && p'.pending == p.pending - p.sender.bytes)
  {
  }

  lemma UndoCounter(p: P.Pipe, e: P.SendEvent)
    requires D.Settled(p.sends) && P.SendStep(p, e).Some? && !e.Check?
    ensures var p' := P.SendStep(p, e).value;
            && e.Undo? && p'.pending - p.pending == P.Increments(p'.sends) - P.Increments(p.sends) <= 0
  {
    P.IncrementsUpdate(p.sends, e.id, P.Idle);
  }

  /** A background step on settled sends: what is kept stays, and the counter falls only by
      what the sender subtracts or by what a failed send undoes. */
  lemma PipeEffect(p: P.Pipe, e: P.Event)
    requires P.Inv(p) && D.Bounded(p) && D.Settled(p.sends) && D.Background(e) && P.Step(p, e).Some?
    ensures var p' := P.Step(p, e).value;
            && P.Inv(p') && D.Bounded(p') && D.Settled(p'.sends) && p'.conn == p.conn
            && D.Kept(p') == D.Kept(p) && p'.accepted == p.accepted
            && P.Unsubtracted(p') <= P.Unsubtracted(p) && P.Increments(p'.sends) <= P.Increments(p.sends)
            && (e.Caller? ==> P.Unsubtracted(p') == P.Unsubtracted(p))
            && (!e.Caller? ==> p'.sends == p.sends)
            && (!e.Caller? && e != P.SendTask(P.Account) ==> p'.pending == p.pending)
            && (e == P.SendTask(P.Account) ==> p.sender.Accounting? && p'.pending == p.pending - p.sender.bytes)
  {
    var p' := P.Step(p, e).value;
    P.StepKeepsInv(p, e);
    D.StepKeepsFuture(p, e);
    D.StepBounded(p, e);
    CounterIs(p);
    CounterIs(p');
    if e.Caller? {
      UndoCounter(p, e.send);
    } else {
      TaskCounter(p, e);
    }
  }

  lemma BackgroundKeeps(w: World, e: Event)
    requires Settled(w) && Background(e) && Step(w, e).Some?
    ensures var w' := Step(w, e).value;
            && Settled(w') && |w'.flushes| == |w.flushes| && D.Kept(w'.pipe) == D.Kept(w.pipe)
            && FailedBytes(w') <= FailedBytes(w) && P.Unsubtracted(w'.pipe) <= P.Unsubtracted(w.pipe)
  {
    if e.OfPipe? {
      PipeEffect(w.pipe, e.event);
    }
  }

  // ---- when it cannot return ----

  lemma {:induction false} LeftoverBound(kept: seq<byte>, channel: seq<seq<byte>>)
    ensures |D.Leftover(kept, channel)| <= |kept| + |Concat(channel)|
    decreases |channel|
  {
    if channel != [] {
      var m := Min(20, |channel|);
      assert channel == channel[..m] + channel[m..];
      ConcatAppend(channel[..m], channel[m..]);
      LeftoverBound(D.Spared(kept + Concat(channel[..m])), channel[m..]);
    }
  }

  lemma {:induction false} RoundBound(kept: seq<byte>, i: nat)
    ensures |D.AfterRound(kept, i)| <= |kept|
    decreases 12 - i
  {
    if i < 12 {
      RoundBound(D.OneLess(kept), i + 1);
    }
  }

  lemma RoundEndBound(packer: P.Packer, kept: seq<byte>, channel: seq<seq<byte>>)
    ensures var (kept', channel') := D.RoundEnd(packer, kept, channel);
            |kept'| + |Concat(channel')|
            <= |kept| + |Concat(if packer.Draining? then packer.batch else [])| + |Concat(channel)|
  {
    match packer
    case Draining(batch) =>
      var n := if |batch| < 20 then Min(20 - |batch|, |channel|) else 0;
      assert channel == channel[..n] + channel[n..];
      ConcatAppend(channel[..n], channel[n..]);
      ConcatAppend(batch, channel[..n]);
    case Packing(i) => RoundBound(kept, i);
    case _ =>
  }

  /** What will be kept back is among what has not been subtracted. */
  lemma KeptBound(p: P.Pipe)
    ensures |D.Kept(p)| <= P.Unsubtracted(p)
  {
    var kept := Concat(p.queue);
    var (kept', channel') := D.RoundEnd(p.packer, kept, p.channel);
    RoundEndBound(p.packer, kept, p.channel);
    LeftoverBound(kept', channel');
    ConcatAppend(p.queue + P.Batch(p), p.channel);
    ConcatAppend(p.queue, P.Batch(p));
  }

  /** Bytes are kept back for good, or no notification is left to come. */
  ghost predicate Hopeless(w: World, i: nat) {
    D.Kept(w.pipe) != [] || Missed(w, i)
  }

  /** While the counter is not zero, no call in progress returns. */
  lemma PositiveStays(w: World, e: Event, i: nat)
    requires InProgress(w, i) && w.pipe.pending != 0 && Background(e) && Step(w, e).Some?
    ensures InProgress(Step(w, e).value, i)
  {
  }

  /** With nothing left to subtract, no decrement of the sender takes the counter to zero. */
  lemma NothingZeroes(p: P.Pipe, e: P.Event)
    requires P.Unsubtracted(p) == 0
    ensures !Zeroes(p, e)
  {
  }

  lemma PipeFrame(w: World, e: P.Event)
    requires Step(w, OfPipe(e)).Some?
    ensures P.Step(w.pipe, e).Some?
    ensures Step(w, OfPipe(e)).value == World(P.Step(w.pipe, e).value, w.notifying || Zeroes(w.pipe, e), w.flushes)
  {
  }

  /** The steps that leave the pipeline alone. */
  lemma OtherFrame(w: World, e: Event)
    requires Background(e) && !e.OfPipe? && Step(w, e).Some?
    ensures Step(w, e).value.pipe == w.pipe && |Step(w, e).value.flushes| == |w.flushes|
    ensures e.Notify? ==> w.notifying && Step(w, e).value == w.(notifying := false, flushes := WakeAll(w.flushes))
    ensures e.Move? ==> e.id < |w.flushes| && Next(w.flushes[e.id], w.pipe.pending).Some?
                        && Step(w, e).value == w.(flushes := w.flushes[e.id := Next(w.flushes[e.id], w.pipe.pending).value])
  {
  }

  lemma MissedPhase(w: World, w': World, e: Event, i: nat)
    requires Missed(w, i) && |w'.flushes| == |w.flushes| && w'.pipe == w.pipe
    requires e.Notify? ==> w.notifying
    requires e.Move? ==> e.id < |w.flushes| && Next(w.flushes[e.id], w.pipe.pending).Some?
                         && w' == w.(flushes := w.flushes[e.id := Next(w.flushes[e.id], w.pipe.pending).value])
    requires e.Notify? || e.Move?
    ensures Missed(w', i)
  {
  }

  lemma MissedStays(w: World, e: Event, i: nat)
    requires Missed(w, i) && Background(e) && Step(w, e).Some?
    requires P.Unsubtracted(Step(w, e).value.pipe) <= P.Unsubtracted(w.pipe)
    ensures Missed(Step(w, e).value, i)
  {
    if e.OfPipe? {
      NothingZeroes(w.pipe, e.event);
      PipeFrame(w, e.event);
    } else {
      OtherFrame(w, e);
      MissedPhase(w, Step(w, e).value, e, i);
    }
  }

  lemma HopelessStays(w: World, e: Event, i: nat)
    requires Settled(w) && InProgress(w, i) && Hopeless(w, i) && Background(e) && Step(w, e).Some?
    ensures InProgress(Step(w, e).value, i) && Hopeless(Step(w, e).value, i)
  {
    BackgroundKeeps(w, e);
    if D.Kept(w.pipe) != [] {
      KeptBound(w.pipe);
      CounterIs(w.pipe);
      PositiveStays(w, e, i);
    } else {
      MissedStays(w, e, i);
    }
  }

  lemma {:induction false} NeverReturns(w: World, trace: seq<Event>, i: nat)
    requires Settled(w) && InProgress(w, i) && Hopeless(w, i) && Quietly(trace) && Run(w, trace).Some?
    ensures InProgress(Run(w, trace).value, i)
    decreases |trace|
  {
    if trace != [] {
      HopelessStays(w, trace[0], i);
      BackgroundKeeps(w, trace[0]);
      NeverReturns(Step(w, trace[0]).value, trace[1..], i);
    }
  }

  // ---- when it must return ----

  /** The call is not parked past the notification it waits for. */
  ghost predicate Promised(w: World, i: nat) {
    && i < |w.flushes| && !w.flushes[i].NotCalled? && FailedBytes(w) == 0
    && !(w.flushes[i] == Parked(false) && w.pipe.pending == 0 && !w.notifying)
  }

  /** With no failed bytes, the counter reaches zero only by a decrement that notifies. */
  lemma ZeroNotifies(p: P.Pipe, e: P.Event)
    requires P.Inv(p) && D.Bounded(p) && D.Settled(p.sends) && D.Background(e) && P.Step(p, e).Some?
    requires P.Increments(p.sends) == 0 && p.pending != 0 && P.Step(p, e).value.pending == 0
    ensures Zeroes(p, e)
  {
    PipeEffect(p, e);
    CounterIs(p);
    CounterIs(P.Step(p, e).value);
  }

  lemma PromisedPipe(w: World, e: P.Event, i: nat)
    requires Settled(w) && Promised(w, i) && D.Background(e) && Step(w, OfPipe(e)).Some?
    ensures Promised(Step(w, OfPipe(e)).value, i)
  {
    PipeFrame(w, e);
    PipeEffect(w.pipe, e);
    CounterFalls(w.pipe, e);
  }

  lemma PromisedPhase(w: World, w': World, e: Event, i: nat)
    requires Promised(w, i) && |w'.flushes| == |w.flushes| && w'.pipe == w.pipe
    requires e.Notify? ==> w' == w.(notifying := false, flushes := WakeAll(w.flushes))
    requires e.Move? ==> e.id < |w.flushes| && Next(w.flushes[e.id], w.pipe.pending).Some?
                         && w' == w.(flushes := w.flushes[e.id := Next(w.flushes[e.id], w.pipe.pending).value])
    requires e.Notify? || e.Move?
    ensures Promised(w', i)
  {
    if e.Notify? {
      assert w'.flushes[i] == Woken(w.flushes[i]);
    }
  }

  lemma PromisedStays(w: World, e: Event, i: nat)
    requires Settled(w) && Promised(w, i) && Background(e) && Step(w, e).Some?
    ensures Promised(Step(w, e).value, i)
  {
    if e.OfPipe? {
      PromisedPipe(w, e.event, i);
    } else {
      OtherFrame(w, e);
      PromisedPhase(w, Step(w, e).value, e, i);
    }
  }

  /** From zero the counter goes nowhere, and to zero only by a decrement that notifies. */
  lemma CounterFalls(p: P.Pipe, e: P.Event)
    requires P.Inv(p) && D.Bounded(p) && D.Settled(p.sends) && D.Background(e) && P.Step(p, e).Some?
    requires P.Increments(p.sends) == 0
    ensures p.pending == 0 ==> P.Step(p, e).value.pending == 0
    ensures p.pending != 0 && P.Step(p, e).value.pending == 0 ==> Zeroes(p, e)
  {
    if p.pending == 0 {
      ZeroStays(p, e);
    } else if P.Step(p, e).value.pending == 0 {
      ZeroNotifies(p, e);
    }
  }

  lemma ZeroStays(p: P.Pipe, e: P.Event)
    requires P.Inv(p) && D.Bounded(p) && D.Settled(p.sends) && D.Background(e) && P.Step(p, e).Some? && p.pending == 0
    ensures P.Step(p, e).value.pending == 0
  {
    PipeEffect(p, e);
    CounterIs(p);
    CounterIs(P.Step(p, e).value);
  }

  lemma {:induction false} RunKeepsPromise(w: World, trace: seq<Event>, i: nat)
    requires Settled(w) && Promised(w, i) && Quietly(trace) && Run(w, trace).Some?
    ensures Promised(Run(w, trace).value, i)
    decreases |trace|
  {
    if trace != [] {
      PromisedStays(w, trace[0], i);
      BackgroundKeeps(w, trace[0]);
      RunKeepsPromise(Step(w, trace[0]).value, trace[1..], i);
    }
  }

  /** Settled, with `kept` to be kept back. */
  ghost predicate Keeps(w: World, kept: seq<byte>, calls: nat) {
    Settled(w) && D.Kept(w.pipe) == kept && |w.flushes| == calls
  }

  lemma {:induction false} RunKeeps(w: World, trace: seq<Event>, kept: seq<byte>, calls: nat)
    requires Keeps(w, kept, calls) && Quietly(trace) && Run(w, trace).Some?
    ensures Keeps(Run(w, trace).value, kept, calls)
    decreases |trace|
  {
    if trace != [] {
      BackgroundKeeps(w, trace[0]);
      assert Keeps(Step(w, trace[0]).value, kept, calls);
      RunKeeps(Step(w, trace[0]).value, trace[1..], kept, calls);
    }
  }

  lemma RestPipe(w: World)
    requires Rest(w)
    ensures !w.notifying && D.Quiet(w.pipe)
  {
    assert Step(w, Notify).None?;
    forall e | D.Background(e)
      ensures P.Step(w.pipe, e).None?
    {
      assert Step(w, OfPipe(e)).None?;
    }
  }

  lemma RestPhase(w: World, i: nat)
    requires Rest(w) && InProgress(w, i)
    ensures w.flushes[i] == Parked(false)
  {
    assert Step(w, Move(i)).None?;
  }

  /** At rest the counter is what is kept back. */
  lemma RestCounter(w: World)
    requires Settled(w) && Rest(w)
    ensures !w.notifying && w.pipe.pending == |D.Kept(w.pipe)|
  {
    RestPipe(w);
    D.NumbersUsed(w.pipe);
    D.RestExact(w.pipe, []);
  }

  /** With no failed send to undo, whatever the order: a call that is in progress has returned
      when everything rests if and only if nothing is kept back and it has not been parked
      past its notification. */
  lemma ReturnsAtRest(w: World, trace: seq<Event>, i: nat)
    requires Settled(w) && InProgress(w, i) && FailedBytes(w) == 0
    requires Quietly(trace) && Run(w, trace).Some? && Rest(Run(w, trace).value)
    ensures i < |Run(w, trace).value.flushes|
    ensures Run(w, trace).value.flushes[i].Returned? <==> D.Kept(w.pipe) == [] && !Missed(w, i)
  {
    RunKeeps(w, trace, D.Kept(w.pipe), |w.flushes|);
    if Hopeless(w, i) {
      NeverReturns(w, trace, i);
    } else {
      CounterIs(w.pipe);
      RunKeepsPromise(w, trace, i);
      RestCounter(Run(w, trace).value);
      if InProgress(Run(w, trace).value, i) {
        RestPhase(Run(w, trace).value, i);
      }
    }
  }

  // ---- ways to go on ----

  lemma RunFirst(w: World, e: Event, w1: World, rest: seq<Event>)
    requires Step(w, e) == Some(w1)
    ensures Run(w, [e] + rest) == Run(w1, rest)
  {
    assert ([e] + rest)[1..] == rest;
  }

  lemma {:induction false} RunAppend(w: World, a: seq<Event>, b: seq<Event>)
    requires Run(w, a).Some?
    ensures Run(w, a + b) == Run(Run(w, a).value, b)
    decreases |a|
  {
    if a == [] {
      assert a + b == b;
    } else {
      assert (a + b)[1..] == a[1..] + b;
      RunAppend(Step(w, a[0]).value, a[1..], b);
    }
  }

  /** `w'` comes after `w` without anybody calling in. */
  ghost predicate Later(w: World, w': World) {
    exists trace :: Quietly(trace) && Run(w, trace) == Some(w')
  }

  lemma LaterSame(w: World)
    ensures Later(w, w)
  {
    assert Quietly([]) && Run(w, []) == Some(w);
  }

  lemma LaterStep(w: World, e: Event, w1: World, w': World)
    requires Background(e) && Step(w, e) == Some(w1) && Later(w1, w')
    ensures Later(w, w')
  {
    var rest :| Quietly(rest) && Run(w1, rest) == Some(w');
    RunFirst(w, e, w1, rest);
    assert Quietly([e] + rest);
  }

  lemma LaterThen(w: World, w1: World, w': World)
    requires Later(w, w1) && Later(w1, w')
    ensures Later(w, w')
  {
    var a :| Quietly(a) && Run(w, a) == Some(w1);
    var b :| Quietly(b) && Run(w1, b) == Some(w');
    RunAppend(w, a, b);
    assert Quietly(a + b);
  }

  function PhaseRank(f: Phase): nat {
    match f
    case NotCalled => 0
    case Returned => 0
    case Parked(woken) => if woken then 4 else 0
    case Registered(woken) => if woken then 5 else 1
    case Busy => 2
    case Calling => 3
  }

  function PhaseRanks(flushes: seq<Phase>): nat {
    if flushes == [] then 0 else PhaseRank(flushes[0]) + PhaseRanks(flushes[1..])
  }

  lemma {:induction false} PhaseRanksUpdate(flushes: seq<Phase>, i: nat, f: Phase)
    requires i < |flushes|
    ensures PhaseRanks(flushes[i := f]) == PhaseRanks(flushes) - PhaseRank(flushes[i]) + PhaseRank(f)
  {
    if i == 0 {
      assert flushes[0 := f][1..] == flushes[1..];
    } else {
      assert flushes[i := f][1..] == flushes[1..][i - 1 := f];
      PhaseRanksUpdate(flushes[1..], i - 1, f);
    }
  }

  /** Everything comes to rest. */
  lemma {:induction false} Settles(w: World) returns (w': World)
    requires D.Bounded(w.pipe)
    ensures Later(w, w') && Rest(w')
    decreases D.Rank(w.pipe), w.notifying, PhaseRanks(w.flushes)
  {
    if Rest(w) {
      LaterSame(w);
      w' := w;
    } else {
      var e :| Background(e) && Step(w, e).Some?;
      var w1 := Step(w, e).value;
      if e.OfPipe? {
        PipeFrame(w, e.event);
        D.StepRanks(w.pipe, e.event);
      } else {
        OtherFrame(w, e);
        if e.Move? {
          PhaseRanksUpdate(w.flushes, e.id, Next(w.flushes[e.id], w.pipe.pending).value);
        }
      }
      w' := Settles(w1);
      LaterStep(w, e, w1, w');
    }
  }

  /** Settled, with `kept` to be kept back and `left` still to be subtracted by the sender. */
  ghost predicate Holds(w: World, kept: seq<byte>, left: nat) {
    Settled(w) && D.Kept(w.pipe) == kept && P.Unsubtracted(w.pipe) == left
  }

  lemma UndoOne(w: World, kept: seq<byte>, left: nat, i: nat) returns (w': World)
    requires Holds(w, kept, left) && i < |w.pipe.sends| && w.pipe.sends[i].Failed?
    ensures Step(w, OfPipe(P.Caller(P.Undo(i)))) == Some(w') && Holds(w', kept, left) && w' == w.(pipe := w'.pipe)
    ensures D.SendRank(w'.pipe.sends) < D.SendRank(w.pipe.sends)
  {
    D.SendRankUpdate(w.pipe.sends, i, P.Idle);
    var e := P.Caller(P.Undo(i));
    assert P.Step(w.pipe, e) == P.SendStep(w.pipe, P.Undo(i));
    PipeEffect(w.pipe, e);
    w' := Step(w, OfPipe(e)).value;
    PipeFrame(w, e);
  }

  /** All failed sends undo. */
  lemma {:induction false} UndoAll(w: World, kept: seq<byte>, left: nat) returns (w': World)
    requires Holds(w, kept, left)
    ensures Later(w, w') && Holds(w', kept, left) && w' == w.(pipe := w'.pipe) && FailedBytes(w') == 0
    decreases D.SendRank(w.pipe.sends)
  {
    if forall i :: 0 <= i < |w.pipe.sends| ==> w.pipe.sends[i].Idle? {
      D.IdleIncrements(w.pipe.sends);
      LaterSame(w);
      w' := w;
    } else {
      var i :| 0 <= i < |w.pipe.sends| && !w.pipe.sends[i].Idle?;
      var w1 := UndoOne(w, kept, left, i);
      w' := UndoAll(w1, kept, left);
      LaterStep(w, OfPipe(P.Caller(P.Undo(i))), w1, w');
    }
  }

  lemma NoZeroWhileFailed(p: P.Pipe, e: P.Event)
    requires D.IsTask(e) && P.Step(p, e).Some? && P.Inv(P.Step(p, e).value) && P.Increments(p.sends) > 0
    ensures !Zeroes(p, e)
  {
    TaskCounter(p, e);
    CounterIs(P.Step(p, e).value);
  }

  /** The tasks finish while a failed send holds the counter up: nobody is notified. */
  lemma {:induction false} TasksFinish(w: World) returns (w': World)
    requires Settled(w) && FailedBytes(w) > 0 && !w.notifying
    ensures Later(w, w') && Settled(w') && w' == w.(pipe := w'.pipe) && D.TasksQuiet(w'.pipe)
    ensures FailedBytes(w') == FailedBytes(w) && D.Kept(w'.pipe) == D.Kept(w.pipe)
    decreases D.Rank(w.pipe)
  {
    if D.TasksQuiet(w.pipe) {
      LaterSame(w);
      w' := w;
    } else {
      var e :| D.IsTask(e) && P.Step(w.pipe, e).Some?;
      assert D.Background(e);
      PipeEffect(w.pipe, e);
      NoZeroWhileFailed(w.pipe, e);
      D.StepRanks(w.pipe, e);
      var w1 := Step(w, OfPipe(e)).value;
      PipeFrame(w, e);
      w' := TasksFinish(w1);
      LaterStep(w, OfPipe(e), w1, w');
    }
  }

  /** A call in progress parks while the counter is not zero. */
  lemma {:induction false} Parks(w: World, i: nat) returns (w': World)
    requires InProgress(w, i) && w.pipe.pending != 0
    ensures Later(w, w') && w' == w.(flushes := w.flushes[i := Parked(false)])
    decreases PhaseRank(w.flushes[i])
  {
    if w.flushes[i] == Parked(false) {
      LaterSame(w);
      w' := w;
    } else {
      var f := Next(w.flushes[i], w.pipe.pending).value;
      var w1 := w.(flushes := w.flushes[i := f]);
      w' := Parks(w1, i);
      LaterStep(w, Move(i), w1, w');
    }
  }

  // ---- exactly when ----

  /** Some continuation without further calls has the flush call returned. */
  ghost predicate CanReturn(w: World, i: nat) {
    exists w' :: Later(w, w') && i < |w'.flushes| && w'.flushes[i].Returned?
  }

  /** Every continuation without further calls that comes to rest has it returned. */
  ghost predicate MustReturn(w: World, i: nat) {
    forall w' :: Later(w, w') && Rest(w') ==> i < |w'.flushes| && w'.flushes[i].Returned?
  }

  lemma LaterNever(w: World, w': World, i: nat)
    requires Settled(w) && InProgress(w, i) && Hopeless(w, i) && Later(w, w')
    ensures InProgress(w', i)
  {
    var trace :| Quietly(trace) && Run(w, trace) == Some(w');
    NeverReturns(w, trace, i);
  }

  lemma LaterReturns(w: World, w': World, i: nat)
    requires Settled(w) && InProgress(w, i) && FailedBytes(w) == 0 && !Hopeless(w, i) && Later(w, w') && Rest(w')
    ensures i < |w'.flushes| && w'.flushes[i].Returned?
  {
    var trace :| Quietly(trace) && Run(w, trace) == Some(w');
    ReturnsAtRest(w, trace, i);
  }

  lemma TasksQuietKept(p: P.Pipe)
    requires P.Inv(p) && D.TasksQuiet(p) && p.conn.first + |Concat(p.accepted)| + MAX_PACKETS < U64_LIMIT
    ensures P.Unsubtracted(p) == |D.Kept(p)|
  {
    D.NumbersUsed(p);
    D.TasksQuietState(p);
    assert P.Unpacked(p) == p.queue;
  }

  lemma NotifyFirst(w: World) returns (w': World)
    requires Settled(w)
    ensures Later(w, w') && !w'.notifying && w'.pipe == w.pipe && |w'.flushes| == |w.flushes|
    ensures forall i :: 0 <= i < |w.flushes| ==> (InProgress(w, i) <==> InProgress(w', i))
  {
    if w.notifying {
      w' := Step(w, Notify).value;
      LaterSame(w');
      LaterStep(w, Notify, w', w');
    } else {
      LaterSame(w);
      w' := w;
    }
  }

  /** A failed send can strand the call: the tasks finish while its bytes are still counted,
      the call parks, and the undo that takes the counter to zero notifies nobody. */
  lemma CanStrand(w: World, i: nat) returns (w': World)
    requires Settled(w) && InProgress(w, i) && FailedBytes(w) > 0 && D.Kept(w.pipe) == []
    ensures Later(w, w') && Settled(w') && FailedBytes(w') == 0 && Missed(w', i)
  {
    var w1 := NotifyFirst(w);
    var w2 := TasksFinish(w1);
    CounterIs(w2.pipe);
    var w3 := Parks(w2, i);
    TasksQuietKept(w2.pipe);
    w' := UndoAll(w3, [], 0);
    LaterThen(w, w1, w2);
    LaterThen(w, w2, w3);
    LaterThen(w, w3, w');
  }

  /** With no send call on its way to its enqueue: a flush call in progress can still return
      if and only if nothing is to be kept back and it is not parked past its notification. */
  lemma CanReturnExactly(w: World, i: nat)
    requires Settled(w) && InProgress(w, i)
    ensures CanReturn(w, i) <==> D.Kept(w.pipe) == [] && !Missed(w, i)
  {
    if Hopeless(w, i) {
      forall w' | Later(w, w') ensures InProgress(w', i) { LaterNever(w, w', i); }
    } else {
      var w1 := UndoAll(w, [], P.Unsubtracted(w.pipe));
      var w' := Settles(w1);
      LaterReturns(w1, w', i);
      LaterThen(w, w1, w');
    }
  }

  /** It does return, whatever the order, if and only if moreover no failed send has bytes
      left to undo. */
  lemma MustReturnExactly(w: World, i: nat)
    requires Settled(w) && InProgress(w, i)
    ensures MustReturn(w, i) <==> D.Kept(w.pipe) == [] && !Missed(w, i) && FailedBytes(w) == 0
  {
    if Hopeless(w, i) {
      var w' := Settles(w);
      LaterNever(w, w', i);
      assert !MustReturn(w, i);
    } else if FailedBytes(w) > 0 {
      var w1 := CanStrand(w, i);
      var w' := Settles(w1);
      LaterNever(w1, w', i);
      LaterThen(w, w1, w');
      assert !MustReturn(w, i);
    } else {
      forall w' | Later(w, w') && Rest(w')
        ensures i < |w'.flushes| && w'.flushes[i].Returned?
      {
        LaterReturns(w, w', i);
      }
    }
  }

  /** A call parked with the counter at zero and nobody about to notify. */
  predicate Stranded(w: World, i: nat) {
    i < |w.flushes| && w.flushes[i] == Parked(false) && w.pipe.pending == 0 && !w.notifying
  }

  lemma PendingMoves(p: P.Pipe, e: P.Event)
    requires P.Step(p, e).Some? && p.pending > 0 && P.Step(p, e).value.pending == 0
    ensures Zeroes(p, e) || (e.Caller? && e.send.Undo?)
  {
  }

  /** A call gets stranded only by the undo of a failed send. */
  lemma OnlyUndoStrands(w: World, e: Event, i: nat)
    requires Inv(w) && Step(w, e).Some? && !Stranded(w, i) && Stranded(Step(w, e).value, i)
    ensures e.OfPipe? && e.event.Caller? && e.event.send.Undo?
  {
    CounterIs(w.pipe);
    match e
    case OfPipe(event) =>
      PipeFrame(w, event);
      PendingMoves(w.pipe, event);
    case Call(id) =>
    case Notify => OtherFrame(w, e);
    case Move(id) => OtherFrame(w, e);
  }

  /** Over every run: when a flush call returns, everything accepted is on the wire, in order. */
  lemma EveryReturnIsSafe(w: World, conn: P.Conn, callers: nat, calls: nat, i: nat)
    requires Reachable(w, conn, callers, calls) && InProgress(w, i)
    requires Step(w, Move(i)).Some? && Step(w, Move(i)).value.flushes[i].Returned?
    ensures P.WireBytes(w.pipe.wire) == Concat(w.pipe.accepted)
  {
    ReachableInv(w, conn, callers, calls);
    P.FlushIsSafe(w.pipe);
  }

  // ---- a run that strands a call ----

  lemma ReachableThen(w: World, conn: P.Conn, callers: nat, calls: nat, e: Event, w': World)
    requires Reachable(w, conn, callers, calls) && Step(w, e) == Some(w')
    ensures Reachable(w', conn, callers, calls)
  {
    var before :| Run(Init(conn, callers, calls), before) == Some(w);
    RunFirst(w, e, w', []);
    RunAppend(Init(conn, callers, calls), before, [e] + []);
    assert Run(Init(conn, callers, calls), before + ([e] + [])) == Some(w');
  }

  lemma ReachableLater(w: World, conn: P.Conn, callers: nat, calls: nat, w': World)
    requires Reachable(w, conn, callers, calls) && Later(w, w')
    ensures Reachable(w', conn, callers, calls)
  {
    var before :| Run(Init(conn, callers, calls), before) == Some(w);
    var trace :| Quietly(trace) && Run(w, trace) == Some(w');
    RunAppend(Init(conn, callers, calls), before, trace);
    assert Run(Init(conn, callers, calls), before + trace) == Some(w');
  }

  function Ones(n: nat): (s: seq<seq<byte>>)
    ensures |s| == n && forall i :: 0 <= i < n ==> s[i] == [7]
  {
    seq(n, _ => [7])
  }

  /** A new connection whose first caller has enqueued `n` bytes one by one. */
  function Filled(conn: P.Conn, n: nat): World {
    World(P.Init(conn, 2).(sends := [P.Idle, P.Idle], channel := Ones(n), pending := n, accepted := Ones(n)), false, [NotCalled])
  }

  /** One more byte, by any of the two callers, as far as the enqueue. */
  lemma CountByte(w: World, conn: P.Conn, id: nat) returns (w': World)
    requires Reachable(w, conn, 2, 1) && id < 2 && w.pipe.sends == [P.Idle, P.Idle] && !w.pipe.closed && !w.notifying
    ensures Reachable(w', conn, 2, 1)
    ensures w' == w.(pipe := w.pipe.(sends := w.pipe.sends[id := P.Counted([7])], pending := w.pipe.pending + 1))
  {
    var e0, e1 := P.Caller(P.Check(id, [7])), P.Caller(P.Count(id));
    var w1 := w.(pipe := w.pipe.(sends := w.pipe.sends[id := P.Checked([7])]));
    ReachableThen(w, conn, 2, 1, OfPipe(e0), w1);
    w' := w.(pipe := w.pipe.(sends := w.pipe.sends[id := P.Counted([7])], pending := w.pipe.pending + 1));
    assert w1.pipe.sends[id := P.Counted([7])] == w.pipe.sends[id := P.Counted([7])];
    ReachableThen(w1, conn, 2, 1, OfPipe(e1), w');
  }

  lemma {:induction false} Fills(conn: P.Conn, n: nat)
    requires n <= P.CHANNEL_BOUND
    ensures Reachable(Filled(conn, n), conn, 2, 1)
  {
    if n == 0 {
      assert Init(conn, 2, 1) == Filled(conn, 0);
      assert Run(Init(conn, 2, 1), []) == Some(Filled(conn, 0));
    } else {
      Fills(conn, n - 1);
      var w1 := CountByte(Filled(conn, n - 1), conn, 0);
      assert Ones(n - 1) + [[7]] == Ones(n) && w1.pipe.sends[0 := P.Idle] == [P.Idle, P.Idle];
      ReachableThen(w1, conn, 2, 1, OfPipe(P.Caller(P.Enqueue(0))), Filled(conn, n));
    }
  }

  /** The channel is full, another send has failed and not yet undone its byte, and a flush
      call is in progress. */
  lemma FailedSend(conn: P.Conn) returns (w: World)
    ensures Reachable(w, conn, 2, 1) && InProgress(w, 0)
    ensures w.pipe.sends == [P.Idle, P.Failed([7])] && !w.pipe.closed
    ensures w.pipe.packer.Waiting? && w.pipe.queue == [] && w.pipe.channel == w.pipe.accepted == Ones(4096)
  {
    Fills(conn, 4096);
    var w1 := CountByte(Filled(conn, 4096), conn, 1);
    var w2 := w1.(pipe := w1.pipe.(sends := [P.Idle, P.Failed([7])]));
    assert w1.pipe.sends[1 := P.Failed([7])] == [P.Idle, P.Failed([7])];
    ReachableThen(w1, conn, 2, 1, OfPipe(P.Caller(P.Fail(1))), w2);
    w := w2.(flushes := [Calling]);
    assert w2.flushes[0 := Calling] == [Calling];
    ReachableThen(w2, conn, 2, 1, Call(0), w);
  }

  lemma FailedSendSettled(w: World, conn: P.Conn)
    requires Reachable(w, conn, 2, 1) && conn.first + 4096 + MAX_PACKETS < U64_LIMIT
    requires w.pipe.sends == [P.Idle, P.Failed([7])] && w.pipe.packer.Waiting? && w.pipe.queue == []
    requires w.pipe.channel == w.pipe.accepted == Ones(4096)
    ensures Settled(w) && FailedBytes(w) == 1 && D.Kept(w.pipe) == []
  {
    ReachableInv(w, conn, 2, 1);
    OnesLength(4096);
    D.SmallMessages(w.pipe.channel);
    assert P.Increments([P.Idle, P.Failed([7])]) == P.Increments([P.Failed([7])]) + 0;
    assert [P.Idle, P.Failed([7])][1..] == [P.Failed([7])] && [P.Failed([7])][1..] == [];
  }

  lemma {:induction false} OnesLength(n: nat)
    ensures |Concat(Ones(n))| == n
  {
    if n > 0 {
      OnesLength(n - 1);
      assert Ones(n)[1..] == Ones(n - 1);
    }
  }

  /** What can go wrong: a reachable state at rest, with no call in progress but one flush,
      everything accepted on the wire and the counter at zero. The flush call is parked, and
      will not return unless somebody sends again. */
  lemma StrandedFlush(conn: P.Conn) returns (w: World)
    requires conn.first + 4096 + MAX_PACKETS < U64_LIMIT
    ensures Reachable(w, conn, 2, 1) && InProgress(w, 0) && Settled(w) && FailedBytes(w) == 0
    ensures w.pipe.pending == 0 && P.WireBytes(w.pipe.wire) == Concat(w.pipe.accepted)
    ensures !CanReturn(w, 0)
  {
    var w0 := FailedSend(conn);
    FailedSendSettled(w0, conn);
    w := CanStrand(w0, 0);
    ReachableLater(w0, conn, 2, 1, w);
    CounterIs(w.pipe);
    P.FlushIsSafe(w.pipe);
    CanReturnExactly(w, 0);
  }
}
