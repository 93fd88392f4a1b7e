/** What the background tasks leave behind when left alone, and so what a `flush` waits for. */
module Drain {
  import opened Bytes
  import opened Packetizer
  import opened Pipeline

  /** What the tasks do on their own: everything but new calls. */
  predicate Background(e: Event) {
    match e
    case Caller(send) => !send.Check?
    case PackTask(_) => true
    case SendTask(_) => true
    case MarkClosed => false
    case Reserve => false
  }

  predicate IsTask(e: Event) {
    e.PackTask? || e.SendTask?
  }

  /** Neither of the two tasks can move. */
  ghost predicate TasksQuiet(p: Pipe) {
    forall e :: IsTask(e) ==> Step(p, e).None?
  }

  /** Nothing can move until somebody calls in. */
  ghost predicate Quiet(p: Pipe) {
    forall e :: Background(e) ==> Step(p, e).None?
  }

  /** No send call is on its way to its enqueue; some may still have an increment to undo. */
  predicate Settled(sends: seq<Send>) {
    forall i :: 0 <= i < |sends| ==> sends[i].Idle? || sends[i].Failed?
  }

  /** With the tasks at rest, the packing task waits for a message and everything packed has
      been sent. */
  lemma TasksQuietState(p: Pipe)
    requires TasksQuiet(p) && p.next + MAX_PACKETS < U64_LIMIT
    ensures p.packer.Waiting? && p.channel == [] && p.sender.Ready? && p.inflight == []
  {
    assert Step(p, SendTask(Take)).None? && Step(p, SendTask(Transmit)).None? && Step(p, SendTask(Account)).None?;
    assert Step(p, PackTask(Receive)).None? && Step(p, PackTask(Drain)).None? && Step(p, PackTask(Fill)).None?;
    assert Step(p, PackTask(Store)).None?;
    var rest := [Concat(p.queue)[|Taken(p.queue)|..]];
    assert Concat(rest) == rest[0] + Concat(rest[1..]);
    assert Step(p, PackTask(Pack(rest))).None?;
  }

  /** At rest no send call is in progress either. */
  lemma QuietState(p: Pipe)
    requires Quiet(p) && p.next + MAX_PACKETS < U64_LIMIT
    ensures p.packer.Waiting? && p.channel == [] && p.sender.Ready? && p.inflight == []
    ensures forall i :: 0 <= i < |p.sends| ==> p.sends[i].Idle?
  {
    assert TasksQuiet(p) by {
      forall e | IsTask(e) ensures Step(p, e).None? { assert Background(e); }
    }
    TasksQuietState(p);
    forall i | 0 <= i < |p.sends|
      ensures p.sends[i].Idle?
    {
      assert Step(p, Caller(Count(i))).None? && Step(p, Caller(Enqueue(i))).None?;
      assert Step(p, Caller(Fail(i))).None? && Step(p, Caller(Undo(i))).None?;
    }
  }

  lemma {:induction false} IdleIncrements(sends: seq<Send>)
    requires forall i :: 0 <= i < |sends| ==> sends[i].Idle?
    ensures Increments(sends) == 0
  {
    if sends != [] {
      IdleIncrements(sends[1..]);
    }
  }

  /** At rest, the counter is exactly the bytes the packing task kept back. It is zero if and
      only if everything accepted is on the wire. */
  lemma QuietCounter(p: Pipe)
    requires Inv(p) && Quiet(p) && p.next + MAX_PACKETS < U64_LIMIT
    ensures p.pending == |Concat(p.queue)|
    ensures p.pending == 0 <==> WireBytes(p.wire) == Concat(p.accepted)
  {
    QuietState(p);
    IdleIncrements(p.sends);
    assert Unpacked(p) == p.queue;
    FlushIsSafe(p);
    WireIsPacked(p);
    assert p.groups[..|p.wire|] == p.groups;
  }

  // ---- what will be kept back ----

  /** What one wake-up leaves of the bytes it has before it: twelve datagrams go out. */
  function Spared(bytes: seq<byte>): seq<byte> {
    bytes[Min(|bytes|, 180000)..]
  }

  /** What is left when a waiting packing task has gone through its channel, twenty messages
      to a wake-up. */
  function Leftover(kept: seq<byte>, channel: seq<seq<byte>>): seq<byte>
    decreases |channel|
  {
    if channel == [] then kept
    else
      var m := Min(20, |channel|);
      Leftover(Spared(kept + Concat(channel[..m])), channel[m..])
  }

  /** What is left of `kept` once the rest of a round has been packed. */
  function AfterRound(kept: seq<byte>, i: nat): seq<byte>
    decreases 12 - i
  {
    if i >= 12 then kept else AfterRound(OneLess(kept), i + 1)
  }

  /** What one datagram leaves. */
  function OneLess(kept: seq<byte>): seq<byte> {
    kept[Min(|kept|, 15000)..]
  }

  /** Where this wake-up ends: the bytes it keeps and the messages it leaves in the channel. */
  function RoundEnd(packer: Packer, kept: seq<byte>, channel: seq<seq<byte>>): (seq<byte>, seq<seq<byte>>) {
    match packer
    case Waiting => (kept, channel)
    case Draining(batch) =>
      var n := if |batch| < 20 then Min(20 - |batch|, |channel|) else 0;
      (Spared(kept + Concat(batch + channel[..n])), channel[n..])
    case Packing(i) => (AfterRound(kept, i), channel)
    case Storing(_) => (kept, channel)
  }

  /** The bytes that will be kept back, wherever the packing task is. */
  function Future(packer: Packer, kept: seq<byte>, channel: seq<seq<byte>>): seq<byte> {
    var (kept', channel') := RoundEnd(packer, kept, channel);
    Leftover(kept', channel')
  }

  lemma ReceiveFuture(kept: seq<byte>, channel: seq<seq<byte>>)
    requires channel != []
    ensures Future(Draining([channel[0]]), kept, channel[1..]) == Future(Waiting, kept, channel)
  {
    var m := Min(20, |channel|);
    assert [channel[0]] + channel[1..][..m - 1] == channel[..m];
    assert channel[1..][m - 1..] == channel[m..];
  }

  lemma DrainRound(batch: seq<seq<byte>>, kept: seq<byte>, channel: seq<seq<byte>>)
    requires |batch| < 20 && channel != []
    ensures RoundEnd(Draining(batch + [channel[0]]), kept, channel[1..]) == RoundEnd(Draining(batch), kept, channel)
  {
    var n := Min(20 - |batch|, |channel|);
    assert batch + [channel[0]] + channel[1..][..n - 1] == batch + channel[..n];
    assert channel[1..][n - 1..] == channel[n..];
  }

  lemma FillRound(batch: seq<seq<byte>>, queue: seq<seq<byte>>, channel: seq<seq<byte>>)
    requires |batch| >= 20 || channel == []
    ensures RoundEnd(Packing(0), Concat(queue + batch), channel) == RoundEnd(Draining(batch), Concat(queue), channel)
  {
    ConcatAppend(queue, batch);
    assert batch + channel[..0] == batch && channel[0..] == channel;
    AfterRoundIs(Concat(queue) + Concat(batch), 0, 180000);
  }

  lemma DropTwice(s: seq<byte>, a: nat, b: nat)
    requires a <= b <= |s|
    ensures s[a..][b - a..] == s[b..]
  {
  }

  lemma {:induction false} AfterRoundIs(kept: seq<byte>, i: nat, n: nat)
    requires i <= 12 && n == 15000 * (12 - i)
    ensures AfterRound(kept, i) == kept[Min(|kept|, n)..]
    decreases 12 - i
  {
    if i < 12 {
      AfterRoundIs(OneLess(kept), i + 1, n - 15000);
      DropTwice(kept, Min(|kept|, 15000), Min(|kept|, n));
    }
  }

  lemma {:induction false} NothingAfter(i: nat)
    ensures AfterRound([], i) == []
    decreases 12 - i
  {
    if i < 12 {
      NothingAfter(i + 1);
    }
  }

  lemma PackTakes(p: Pipe, rest: seq<seq<byte>>)
    requires PackerStep(p, Pack(rest)).Some?
    ensures var p', kept := PackerStep(p, Pack(rest)).value, Concat(p.queue);
            && p.packer.Packing? && p.packer.i < 12 && p'.channel == p.channel
            && Concat(p'.queue) == OneLess(kept)
            && p'.packer == (if kept == [] then Storing(p.packer.i) else Packing(p.packer.i + 1))
  {
  }

  lemma PackRound(p: Pipe, rest: seq<seq<byte>>)
    requires PackerStep(p, Pack(rest)).Some?
    ensures var p' := PackerStep(p, Pack(rest)).value;
            RoundEnd(p'.packer, Concat(p'.queue), p'.channel) == RoundEnd(p.packer, Concat(p.queue), p.channel)
  {
    PackTakes(p, rest);
    NothingAfter(p.packer.i);
  }

  lemma StoreRound(p: Pipe)
    requires Bounded(p) && PackerStep(p, Store).Some?
    ensures var p' := PackerStep(p, Store).value;
            RoundEnd(p'.packer, Concat(p'.queue), p'.channel) == RoundEnd(p.packer, Concat(p.queue), p.channel)
  {
  }

  lemma PackerKeepsFuture(p: Pipe, e: PackEvent)
    requires Bounded(p) && PackerStep(p, e).Some?
    ensures var p' := PackerStep(p, e).value;
            Future(p'.packer, Concat(p'.queue), p'.channel) == Future(p.packer, Concat(p.queue), p.channel)
  {
    match e
    case Receive => ReceiveFuture(Concat(p.queue), p.channel);
    case Drain => DrainRound(p.packer.batch, Concat(p.queue), p.channel);
    case Fill => FillRound(p.packer.batch, p.queue, p.channel);
    case Pack(rest) => PackRound(p, rest);
    case Store => StoreRound(p);
  }

  /** The other steps leave the packing task and its input alone. */
  lemma OthersLeave(p: Pipe, e: Event)
    requires Background(e) && !e.PackTask? && Step(p, e).Some? && Settled(p.sends)
    ensures var p' := Step(p, e).value;
            && p'.packer == p.packer && p'.channel == p.channel && p'.queue == p.queue && Settled(p'.sends)
            && p'.accepted == p.accepted && p'.closed == p.closed
  {
  }

  lemma PackLeavesSends(p: Pipe, e: PackEvent)
    requires PackerStep(p, e).Some?
    ensures var p' := PackerStep(p, e).value;
            p'.sends == p.sends && p'.accepted == p.accepted && p'.closed == p.closed
  {
  }

  function Kept(p: Pipe): seq<byte> {
    Future(p.packer, Concat(p.queue), p.channel)
  }

  lemma StepKeepsFuture(p: Pipe, e: Event)
    requires Bounded(p) && Settled(p.sends) && Background(e) && Step(p, e).Some?
    ensures var p' := Step(p, e).value;
            Kept(p') == Kept(p) && Settled(p'.sends) && p'.accepted == p.accepted && p'.closed == p.closed
  {
    if e.PackTask? {
      assert Step(p, e) == PackerStep(p, e.pack);
      PackerKeepsFuture(p, e.pack);
      PackLeavesSends(p, e.pack);
    } else {
      OthersLeave(p, e);
    }
  }

  lemma {:induction false} RunKeepsFuture(p: Pipe, trace: seq<Event>)
    requires Bounded(p) && Settled(p.sends) && Run(p, trace).Some?
    requires forall i :: 0 <= i < |trace| ==> Background(trace[i])
    ensures var p' := Run(p, trace).value;
            Kept(p') == Kept(p) && p'.accepted == p.accepted && p'.closed == p.closed
    decreases |trace|
  {
    if trace != [] {
      StepKeepsFuture(p, trace[0]);
      StepRanks(p, trace[0]);
      RunKeepsFuture(Step(p, trace[0]).value, trace[1..]);
    }
  }

  /** Whatever is in the pipeline, with no send call on its way to its enqueue: let the tasks
      run and failed sends undo, in any order, until they rest. The bytes kept back are the
      ones foreseen at the start, and nothing but another send moves them. */
  lemma RestExact(p: Pipe, trace: seq<Event>)
    requires Inv(p) && Bounded(p) && Settled(p.sends)
    requires forall i :: 0 <= i < |trace| ==> Background(trace[i])
    requires Run(p, trace).Some? && Quiet(Run(p, trace).value)
    requires Run(p, trace).value.next + MAX_PACKETS < U64_LIMIT
    ensures var p' := Run(p, trace).value;
            && Concat(p'.queue) == Kept(p) && p'.pending == |Kept(p)|
            && (WireBytes(p'.wire) == Concat(p'.accepted) <==> Kept(p) == [])
  {
    var p' := Run(p, trace).value;
    RunKeepsFuture(p, trace);
    EveryRunConserves(p, trace);
    QuietState(p');
    QuietCounter(p');
  }

  lemma OneRound(channel: seq<seq<byte>>)
    requires 0 < |channel| <= 20
    ensures Leftover([], channel) == Spared(Concat(channel))
  {
    assert channel[..|channel|] == channel && [] + Concat(channel) == Concat(channel);
    assert channel[|channel|..] == [];
    assert Leftover([], channel) == Leftover(Spared(Concat(channel)), []);
  }

  /** Up to twenty messages for an idle packing task with nothing kept back, tasks in any
      order until they rest: everything accepted is then on the wire if and only if the
      messages together hold at most 180000 bytes; otherwise the counter is the excess. */
  lemma BatchExact(p: Pipe, trace: seq<Event>)
    requires Inv(p) && Settled(p.sends) && p.packer.Waiting? && Concat(p.queue) == [] && 0 < |p.channel| <= 20
    requires forall i :: 0 <= i < |trace| ==> Background(trace[i])
    requires Run(p, trace).Some? && Quiet(Run(p, trace).value)
    requires Run(p, trace).value.next + MAX_PACKETS < U64_LIMIT
    ensures var p', n := Run(p, trace).value, |Concat(p.channel)|;
            && p'.pending == n - Min(n, 180000)
            && Concat(p'.queue) == Spared(Concat(p.channel))
            && (WireBytes(p'.wire) == Concat(p'.accepted) <==> n <= 180000)
  {
    RestExact(p, trace);
    OneRound(p.channel);
  }

  /** Messages of at most 9000 bytes are never kept back. */
  lemma {:induction false} SmallMessages(channel: seq<seq<byte>>)
    requires forall i :: 0 <= i < |channel| ==> |channel[i]| <= 9000
    ensures Leftover([], channel) == []
    decreases |channel|
  {
    if channel != [] {
      var m := Min(20, |channel|);
      ConcatBound(channel[..m]);
      assert [] + Concat(channel[..m]) == Concat(channel[..m]);
      SmallMessages(channel[m..]);
    }
  }

  lemma {:induction false} ConcatBound(a: seq<seq<byte>>)
    requires forall i :: 0 <= i < |a| ==> |a[i]| <= 9000
    ensures |Concat(a)| <= 9000 * |a|
  {
    if a != [] {
      ConcatBound(a[1..]);
    }
  }

  // ---- the tasks do come to rest ----

  function SendRank(sends: seq<Send>): nat {
    if sends == [] then 0
    else SendRank(sends[1..]) + match sends[0]
      case Idle => 0
      case Checked(_) => 54
      case Counted(_) => 53
      case Failed(_) => 1
  }

  function PackRank(packer: Packer): int {
    match packer
    case Waiting => 0
    case Draining(_) => 51
    case Packing(i) => 4 * (12 - i) + 2
    case Storing(_) => 1
  }

  function SenderRank(sender: Sender): nat {
    match sender
    case Ready => 0
    case Holding(_, _) => 2
    case Accounting(_) => 1
  }

  /** An upper bound on the steps the tasks have left. */
  function Rank(p: Pipe): int {
    SendRank(p.sends) + 52 * |p.channel| + PackRank(p.packer) + 3 * |p.inflight| + SenderRank(p.sender)
  }

  predicate Bounded(p: Pipe) {
    p.packer.Packing? ==> p.packer.i <= 12
  }

  lemma {:induction false} SendRankUpdate(sends: seq<Send>, i: nat, s: Send)
    requires i < |sends|
    ensures SendRank(sends[i := s]) == SendRank(sends) - SendRank([sends[i]]) + SendRank([s])
  {
    if i == 0 {
      assert sends[0 := s][1..] == sends[1..];
    } else {
      assert sends[i := s][1..] == sends[1..][i - 1 := s];
      SendRankUpdate(sends[1..], i - 1, s);
    }
  }

  lemma PackRanks(p: Pipe, e: PackEvent)
    requires Bounded(p) && PackerStep(p, e).Some?
    ensures Bounded(PackerStep(p, e).value) && Rank(PackerStep(p, e).value) < Rank(p)
  {
  }

  lemma StepRanks(p: Pipe, e: Event)
    requires Bounded(p) && Background(e) && Step(p, e).Some?
    ensures Bounded(Step(p, e).value) && Rank(Step(p, e).value) < Rank(p)
  {
    match e
    case Caller(send) => SendRankUpdate(p.sends, send.id, SendStep(p, send).value.sends[send.id]);
    case PackTask(pack) => PackRanks(p, pack);
    case SendTask(out) =>
  }

  /** Left alone, the tasks take at most `Rank` steps, whatever their order. */
  lemma {:induction false} BackgroundEnds(p: Pipe, trace: seq<Event>)
    requires Bounded(p) && Run(p, trace).Some?
    requires forall i :: 0 <= i < |trace| ==> Background(trace[i])
    ensures |trace| + Rank(Run(p, trace).value) <= Rank(p)
    ensures Bounded(Run(p, trace).value)
    decreases |trace|
  {
    if trace != [] {
      StepRanks(p, trace[0]);
      BackgroundEnds(Step(p, trace[0]).value, trace[1..]);
    }
  }

  /** From any state in which a packing round has made at most twelve datagrams, and so from
      every reachable one, the tasks can come to rest. */
  lemma {:induction false} Settles(p: Pipe) returns (trace: seq<Event>)
    requires Bounded(p)
    ensures forall i :: 0 <= i < |trace| ==> Background(trace[i])
    ensures Run(p, trace).Some? && Quiet(Run(p, trace).value)
    decreases Rank(p)
  {
    if Quiet(p) {
      trace := [];
    } else {
      var e :| Background(e) && Step(p, e).Some?;
      StepRanks(p, e);
      var rest := Settles(Step(p, e).value);
      RunPrefix(p, e, Step(p, e).value, rest);
      trace := [e] + rest;
    }
  }

  lemma {:induction false} RunBounded(p: Pipe, trace: seq<Event>)
    requires Bounded(p) && Run(p, trace).Some?
    ensures Bounded(Run(p, trace).value)
    decreases |trace|
  {
    if trace != [] {
      StepBounded(p, trace[0]);
      RunBounded(Step(p, trace[0]).value, trace[1..]);
    }
  }

  lemma StepBounded(p: Pipe, e: Event)
    requires Bounded(p) && Step(p, e).Some?
    ensures Bounded(Step(p, e).value)
  {
  }

  lemma ReachedBounded(p: Pipe, conn: Conn, callers: nat)
    requires Reached(p, conn, callers)
    ensures Bounded(p)
  {
    var trace :| Run(Init(conn, callers), trace) == Some(p);
    RunBounded(Init(conn, callers), trace);
  }

  // ---- a message that is never flushed ----

  lemma {:induction false} RunAppend(p: Pipe, a: seq<Event>, b: seq<Event>)
    requires Run(p, a).Some?
    ensures Run(p, a + b) == Run(Run(p, a).value, b)
    decreases |a|
  {
    if a == [] {
      assert a + b == b;
    } else {
      assert (a + b)[1..] == a[1..] + b;
      RunAppend(Step(p, a[0]).value, a[1..], b);
    }
  }

  /** One message, enqueued by the only caller of a new connection. */
  function Enqueued(conn: Conn, payload: seq<byte>): Pipe {
    Init(conn, 1).(sends := [Idle], channel := [payload], pending := |payload|, accepted := [payload])
  }

  lemma EnqueueRun(conn: Conn, payload: seq<byte>) returns (trace: seq<Event>)
    ensures Run(Init(conn, 1), trace) == Some(Enqueued(conn, payload))
  {
    var p0 := Init(conn, 1);
    assert p0.sends == [Idle];
    var p1 := p0.(sends := [Checked(payload)]);
    var p2 := p0.(sends := [Counted(payload)], pending := |payload|);
    assert p0.sends[0 := Checked(payload)] == [Checked(payload)];
    assert p1.sends[0 := Counted(payload)] == [Counted(payload)];
    assert p2.sends[0 := Idle] == [Idle] && p2.channel + [payload] == [payload] && p2.accepted + [payload] == [payload];
    var e0, e1, e2 := Caller(Check(0, payload)), Caller(Count(0)), Caller(Enqueue(0));
    RunPrefix(p2, e2, Enqueued(conn, payload), []);
    RunPrefix(p1, e1, p2, [e2] + []);
    RunPrefix(p0, e0, p1, [e1] + ([e2] + []));
    trace := [e0] + ([e1] + ([e2] + []));
  }

  /** No more packet numbers are used than bytes accepted. */
  lemma NumbersUsed(p: Pipe)
    requires Inv(p)
    ensures p.next <= p.conn.first + |Concat(p.accepted)|
  {
    FlattenNonEmpty(p.groups);
    NonEmptyConcat(Flatten(p.groups));
  }

  /** Every message of more than 180000 bytes hangs on a new connection: there is a reachable
      state at rest, with nothing closed and no call in progress but a `flush`, in which the
      counter is what the message has beyond 180000 bytes. */
  lemma LongMessageHangs(conn: Conn, payload: seq<byte>) returns (p: Pipe)
    requires |payload| > 180000 && conn.first + |payload| + MAX_PACKETS < U64_LIMIT
    ensures Reached(p, conn, 1) && Quiet(p) && !p.closed && p.accepted == [payload]
    ensures p.pending == |payload| - 180000 > 0 && WireBytes(p.wire) == payload[..180000]
  {
    var p0 := Enqueued(conn, payload);
    EnqueuedReached(conn, payload);
    ReachedInv(p0, conn, 1);
    var trace := Settles(p0);
    p := Run(p0, trace).value;
    ReachedThen(p0, conn, 1, trace);
    RunKeepsFuture(p0, trace);
    Hangs(p0, payload, trace);
  }

  lemma EnqueuedReached(conn: Conn, payload: seq<byte>)
    ensures Reached(Enqueued(conn, payload), conn, 1)
  {
    var trace := EnqueueRun(conn, payload);
  }

  lemma ReachedThen(p: Pipe, conn: Conn, callers: nat, trace: seq<Event>)
    requires Reached(p, conn, callers) && Run(p, trace).Some?
    ensures Reached(Run(p, trace).value, conn, callers)
  {
    var start :| Run(Init(conn, callers), start) == Some(p);
    RunAppend(Init(conn, callers), start, trace);
    assert Run(Init(conn, callers), start + trace) == Some(Run(p, trace).value);
  }

  lemma Hangs(p0: Pipe, payload: seq<byte>, trace: seq<Event>)
    requires Inv(p0) && p0 == Enqueued(p0.conn, payload) && |payload| > 180000
    requires p0.conn.first + |payload| + MAX_PACKETS < U64_LIMIT
    requires forall i :: 0 <= i < |trace| ==> Background(trace[i])
    requires Run(p0, trace).Some? && Quiet(Run(p0, trace).value) && Run(p0, trace).value.accepted == [payload]
    ensures var p := Run(p0, trace).value;
            p.pending == |payload| - 180000 && WireBytes(p.wire) == payload[..180000]
  {
    var p := Run(p0, trace).value;
    EveryRunConserves(p0, trace);
    assert Concat([payload]) == payload + Concat([]);
    NumbersUsed(p);
    BatchExact(p0, trace);
    AtRest(p, payload);
  }

  lemma AtRest(p: Pipe, payload: seq<byte>)
    requires Inv(p) && Quiet(p) && p.next + MAX_PACKETS < U64_LIMIT
    requires Concat(p.accepted) == payload && |payload| > 180000 && Concat(p.queue) == payload[180000..]
    ensures WireBytes(p.wire) == payload[..180000]
  {
    QuietState(p);
    assert Unpacked(p) == p.queue;
    WireIsPacked(p);
    assert p.groups[..|p.wire|] == p.groups;
    assert payload == payload[..180000] + payload[180000..];
  }
}
