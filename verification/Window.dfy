/** The window of acknowledged packet numbers: as a set, and as the sorted deque that
    implements it in place. */
module Window {
  import opened Bytes

  const MAX_WINDOW: nat := 40000

  // ---- the window as a set ----

  datatype Window = Window(smallest: nat, acked: set<nat>)

  datatype Outcome = Done | UnexpectedNumber | Full

  predicate InWindow(w: Window, n: nat) {
    w.smallest <= n < w.smallest + MAX_WINDOW
  }

  ghost predicate ValidWindow(w: Window) {
    forall x :: x in w.acked ==> InWindow(w, x)
  }

  function InsertOne(w: Window, n: nat): (Window, Outcome) {
    if n < w.smallest then (w, UnexpectedNumber)
    else if n - w.smallest >= MAX_WINDOW then (w, Full)
    else if n in w.acked then (w, UnexpectedNumber)
    else (w.(acked := w.acked + {n}), Done)
  }

  /** Insert `base`, `base + 1`, ... one by one, stopping at the first failure. */
  function InsertEach(w: Window, base: nat, count: nat): (Window, Outcome)
    decreases count
  {
    if count == 0 then (w, Done)
    else
      var (w', outcome) := InsertOne(w, base);
      if outcome != Done then (w', outcome) else InsertEach(w', base + 1, count - 1)
  }

  function Interval(lo: nat, hi: nat): (s: set<nat>)
    ensures forall x :: x in s <==> lo <= x < hi
    decreases hi
  {
    if hi <= lo then {} else Interval(lo, hi - 1) + {hi - 1}
  }

  function InsertRange(w: Window, base: nat, count: nat): (Window, Outcome) {
    if count == 0 then (w, Done)
    else if base < w.smallest then (w, UnexpectedNumber)
    else if base + count - 1 - w.smallest >= MAX_WINDOW then (w, Full)
    else if forall x :: x in w.acked ==> x < base then (w.(acked := w.acked + Interval(base, base + count)), Done)
    else InsertEach(w, base, count)
  }

  /** The first number from `n` on that is not in `s`. */
  function Frontier(s: set<nat>, n: nat): nat
    decreases |s|
  {
    if n in s then Frontier(s - {n}, n + 1) else n
  }

  ghost predicate IsFrontier(s: set<nat>, n: nat, f: nat) {
    n <= f && f !in s && forall x :: n <= x < f ==> x in s
  }

  lemma {:induction false} FrontierCorrect(s: set<nat>, n: nat)
    ensures IsFrontier(s, n, Frontier(s, n))
    decreases |s|
  {
    if n in s {
      FrontierCorrect(s - {n}, n + 1);
      var f := Frontier(s - {n}, n + 1);
      forall x | n <= x < f
        ensures x in s
      {
        if x != n { assert x in s - {n}; }
      }
    }
  }

  lemma FrontierUnique(s: set<nat>, n: nat, f: nat)
    requires IsFrontier(s, n, f)
    ensures f == Frontier(s, n)
  {
  }

  datatype ConsumeResult = ConsumeResult(largest: nat, count: nat)

  /** Slide the window to its frontier, if that moves it. */
  function ConsumeAcks(w: Window): (Window, Option<ConsumeResult>) {
    var f := Frontier(w.acked, w.smallest);
    if f == w.smallest then (w, None)
    else
      FrontierCorrect(w.acked, w.smallest);
      (Window(f, w.acked - Interval(w.smallest, f)), Some(ConsumeResult(f - 1, f - w.smallest)))
  }

  // ---- the fast range insert and the loop ----

  lemma {:induction false} EachFits(w: Window, base: nat, count: nat)
    requires base >= w.smallest && base + count <= w.smallest + MAX_WINDOW
    requires forall x :: base <= x < base + count ==> x !in w.acked
    ensures InsertEach(w, base, count) == (w.(acked := w.acked + Interval(base, base + count)), Done)
    decreases count
  {
    if count == 0 {
      assert w.acked + Interval(base, base) == w.acked;
    } else {
      var w' := w.(acked := w.acked + {base});
      EachFits(w', base + 1, count - 1);
      assert w'.acked + Interval(base + 1, base + count) == w.acked + Interval(base, base + count);
    }
  }

  lemma {:induction false} EachGrows(w: Window, base: nat, count: nat)
    ensures InsertEach(w, base, count).0.smallest == w.smallest
    ensures w.acked <= InsertEach(w, base, count).0.acked
    ensures InsertEach(w, base, count).0.acked <= w.acked + Interval(base, base + count)
    ensures ValidWindow(w) ==> ValidWindow(InsertEach(w, base, count).0)
    decreases count
  {
    if count > 0 && InsertOne(w, base).1 == Done {
      EachGrows(InsertOne(w, base).0, base + 1, count - 1);
    }
  }

  /** On a range that fits the window the fast insert is the loop: same numbers, same
      outcome, partial inserts on overlap included. */
  lemma RangeIsLoop(w: Window, base: nat, count: nat)
    requires count > 0 ==> w.smallest <= base && base + count <= w.smallest + MAX_WINDOW
    ensures InsertRange(w, base, count) == InsertEach(w, base, count)
  {
    if count > 0 && forall x :: x in w.acked ==> x < base {
      EachFits(w, base, count);
    }
  }

  /** The window already holds a number from `base` on. */
  ghost predicate Overlaps(w: Window, base: nat) {
    exists x :: x in w.acked && base <= x < w.smallest + MAX_WINDOW
  }

  /** A range that runs past the window, number by number: the loop stops at the first
      number it already has, or else at the end of the window. */
  lemma {:induction false} EachOverruns(w: Window, base: nat, count: nat)
    requires count > 0 && w.smallest <= base && base + count > w.smallest + MAX_WINDOW
    ensures InsertEach(w, base, count).1 == if Overlaps(w, base) then UnexpectedNumber else Full
    decreases count
  {
    if base < w.smallest + MAX_WINDOW && base !in w.acked {
      var w' := w.(acked := w.acked + {base});
      EachOverruns(w', base + 1, count - 1);
      if Overlaps(w, base) {
        var x :| x in w.acked && base <= x < w.smallest + MAX_WINDOW;
        assert x in w'.acked && base + 1 <= x < w'.smallest + MAX_WINDOW;
      }
    }
  }

  /** A range that starts inside the window and runs past it. */
  predicate Overruns(w: Window, base: nat, count: nat) {
    count > 0 && w.smallest <= base && base + count > w.smallest + MAX_WINDOW
  }

  /** Over all ranges, the two succeed or fail together. They leave the same window exactly
      when the range is empty, fits, or the loop would fail on its very first number, and
      they give the same error unless an overrunning range overlaps what is there already. */
  lemma RangeIsLoopExactly(w: Window, base: nat, count: nat)
    ensures InsertRange(w, base, count).0 == InsertEach(w, base, count).0 <==>
            || count == 0
            || base + count <= w.smallest + MAX_WINDOW
            || InsertOne(w, base).1 != Done
    ensures InsertRange(w, base, count).1 == Done <==> InsertEach(w, base, count).1 == Done
    ensures InsertRange(w, base, count).1 == InsertEach(w, base, count).1 <==>
            !(Overruns(w, base, count) && Overlaps(w, base))
  {
    if count > 0 {
      if w.smallest <= base && base + count <= w.smallest + MAX_WINDOW {
        RangeIsLoop(w, base, count);
      } else if w.smallest <= base {
        EachOverruns(w, base, count);
        if InsertOne(w, base).1 == Done {
          EachGrows(InsertOne(w, base).0, base + 1, count - 1);
          assert base in InsertEach(w, base, count).0.acked;
        }
      }
    }
  }

  /** Two numbers of which only the first fits: the loop keeps it, the range insert does not. */
  lemma OverrunDiffers()
    ensures 39999 in InsertEach(Window(0, {}), 39999, 2).0.acked
    ensures 39999 !in InsertRange(Window(0, {}), 39999, 2).0.acked
  {
  }

  /** A range that starts below the window or runs past it changes nothing. */
  lemma RangeRejectedUnchanged(w: Window, base: nat, count: nat)
    requires count > 0 && (base < w.smallest || base + count > w.smallest + MAX_WINDOW)
    ensures InsertRange(w, base, count).0 == w && InsertRange(w, base, count).1 != Done
  {
  }

  lemma RangeGrows(w: Window, base: nat, count: nat)
    ensures InsertRange(w, base, count).0.smallest == w.smallest
    ensures w.acked <= InsertRange(w, base, count).0.acked <= w.acked + Interval(base, base + count)
    ensures ValidWindow(w) ==> ValidWindow(InsertRange(w, base, count).0)
  {
    EachGrows(w, base, count);
  }

  lemma ConsumeValid(w: Window)
    requires ValidWindow(w)
    ensures ValidWindow(ConsumeAcks(w).0)
  {
  }

  /** What a consume reports: the largest number reachable from the window's start without
      a gap and how many that is. With no insert in between, the next consume finds nothing. */
  lemma ConsumeReportsFrontier(w: Window)
    ensures var (w', r) := ConsumeAcks(w);
            && (r.None? <==> w.smallest !in w.acked)
            && (r.None? ==> w' == w)
            && (r.Some? ==>
                  && w'.smallest == r.value.largest + 1
                  && r.value.count == w'.smallest - w.smallest
                  && (forall x :: w.smallest <= x <= r.value.largest ==> x in w.acked)
                  && r.value.largest + 1 !in w.acked)
            && ConsumeAcks(w').1 == None
  {
    FrontierCorrect(w.acked, w.smallest);
    var w' := ConsumeAcks(w).0;
    assert w'.smallest !in w'.acked;
  }

  // ---- runs ----

  datatype Event = One(n: nat) | Range(base: nat, count: nat) | Consume

  /** The window with the sum of all counts it has reported. */
  datatype History = History(window: Window, total: nat)

  function Step(h: History, e: Event): History {
    match e
    case One(n) => h.(window := InsertOne(h.window, n).0)
    case Range(base, count) => h.(window := InsertRange(h.window, base, count).0)
    case Consume =>
      var (w, r) := ConsumeAcks(h.window);
      History(w, h.total + if r.Some? then r.value.count else 0)
  }

  function Run(h: History, events: seq<Event>): History
    decreases |events|
  {
    if events == [] then h else Run(Step(h, events[0]), events[1..])
  }

  ghost predicate RunInv(h: History, start: nat) {
    ValidWindow(h.window) && h.window.smallest == start + h.total
  }

  /** Over every run all numbers stay inside the window and the reported counts add up to
      the distance the frontier has moved. */
  lemma {:induction false} EveryRunCounts(h: History, start: nat, events: seq<Event>)
    requires RunInv(h, start)
    ensures RunInv(Run(h, events), start)
    ensures h.window.smallest <= Run(h, events).window.smallest
    decreases |events|
  {
    if events != [] {
      var h' := Step(h, events[0]);
      match events[0] {
        case One(n) =>
        case Range(base, count) => RangeGrows(h.window, base, count);
        case Consume =>
          ConsumeValid(h.window);
          FrontierCorrect(h.window.acked, h.window.smallest);
      }
      EveryRunCounts(h', start, events[1..]);
    }
  }

  // ---- the deque ----

  ghost predicate Sorted(s: seq<nat>) {
    forall i, j :: 0 <= i < j < |s| ==> s[i] < s[j]
  }

  function Elements(s: seq<nat>): set<nat> {
    set x | x in s
  }

  lemma TailElements(a: seq<nat>)
    requires Sorted(a) && a != []
    ensures Elements(a[1..]) == Elements(a) - {a[0]}
    ensures forall x :: x in Elements(a) ==> a[0] <= x
  {
    forall x | x in Elements(a) - {a[0]}
      ensures x in Elements(a[1..])
    {
      var i :| 0 <= i < |a| && a[i] == x;
      assert a[1..][i - 1] == x;
    }
  }

  /** A strictly increasing deque is determined by its elements, so the set says it all. */
  lemma {:induction false} SortedUnique(a: seq<nat>, b: seq<nat>)
    requires Sorted(a) && Sorted(b) && Elements(a) == Elements(b)
    ensures a == b
  {
    assert b != [] ==> b[0] in Elements(b);
    if a != [] {
      assert a[0] in Elements(a);
      TailElements(a);
      TailElements(b);
      SortedUnique(a[1..], b[1..]);
      assert a == [a[0]] + a[1..] && b == [b[0]] + b[1..];
    }
  }

  method BinarySearch(s: seq<nat>, x: nat) returns (found: bool, index: nat)
    requires Sorted(s)
    ensures index <= |s|
    ensures found ==> index < |s| && s[index] == x
    ensures !found ==> (forall i :: 0 <= i < index ==> s[i] < x) && (forall i :: index <= i < |s| ==> x < s[i])
  {
    var lo, hi := 0, |s|;
    while lo < hi
      invariant 0 <= lo <= hi <= |s|
      invariant forall i :: 0 <= i < lo ==> s[i] < x
      invariant forall i :: hi <= i < |s| ==> x < s[i]
    {
      var mid := (lo + hi) / 2;
      if s[mid] < x {
        lo := mid + 1;
      } else if x < s[mid] {
        hi := mid;
      } else {
        return true, mid;
      }
    }
    return false, lo;
  }

  lemma InsertedAt(numbers: seq<nat>, index: nat, n: nat)
    requires Sorted(numbers) && index <= |numbers|
    requires (forall i :: 0 <= i < index ==> numbers[i] < n) && (forall i :: index <= i < |numbers| ==> n < numbers[i])
    ensures var inserted := numbers[..index] + [n] + numbers[index..];
            Sorted(inserted) && Elements(inserted) == Elements(numbers) + {n}
  {
  }

  lemma AppendedLast(numbers: seq<nat>, n: nat)
    requires Sorted(numbers) && (numbers == [] || numbers[|numbers| - 1] < n)
    ensures Sorted(numbers + [n]) && Elements(numbers + [n]) == Elements(numbers) + {n}
  {
  }

  class SlidingWindow {
    var smallest: nat
    var numbers: seq<nat>

    ghost predicate Valid()
      reads this
    {
      Sorted(numbers) && ValidWindow(View())
    }

    ghost function View(): Window
      reads this
    {
      Window(smallest, Elements(numbers))
    }

    constructor (start: nat)
      ensures Valid() && View() == Window(start, {})
    {
      smallest, numbers := start, [];
    }

    method InsertPacketNumber(n: nat) returns (outcome: Outcome)
      requires Valid()
      modifies this`numbers
      ensures Valid()
      ensures (View(), outcome) == InsertOne(old(View()), n)
    {
      if n < smallest {
        return UnexpectedNumber;
      }
      if n - smallest >= MAX_WINDOW {
        return Full;
      }
      if numbers == [] {
        AppendedLast(numbers, n);
        assert numbers + [n] == [n];
        numbers := [n];
        return Done;
      }
      var last := numbers[|numbers| - 1];
      if n > last {
        AppendedLast(numbers, n);
        numbers := numbers + [n];
        return Done;
      } else if n == last {
        return UnexpectedNumber;
      }
      var found, index := BinarySearch(numbers, n);
      if found {
        return UnexpectedNumber;
      }
      InsertedAt(numbers, index, n);
      numbers := numbers[..index] + [n] + numbers[index..];
      outcome := Done;
    }

    method InsertRangeOf(base: nat, count: nat) returns (outcome: Outcome)
      requires Valid()
      modifies this`numbers
      ensures Valid()
      ensures (View(), outcome) == InsertRange(old(View()), base, count)
    {
      if count == 0 {
        return Done;
      }
      if base < smallest {
        return UnexpectedNumber;
      }
      var last := base + count - 1;
      if last - smallest >= MAX_WINDOW {
        return Full;
      }
      if numbers == [] || base > numbers[|numbers| - 1] {
        ExtendCleanly(numbers, base, count);
        numbers := numbers + seq(count, i => base + i);
        return Done;
      }
      assert numbers[|numbers| - 1] in old(View()).acked;
      outcome := InsertOneByOne(base, count);
    }

    /** The slow path: one by one, up to the first failure. */
    method InsertOneByOne(base: nat, count: nat) returns (outcome: Outcome)
      requires Valid()
      modifies this`numbers
      ensures Valid()
      ensures (View(), outcome) == InsertEach(old(View()), base, count)
    {
      var n := base;
      while n < base + count
        invariant base <= n <= base + count
        invariant Valid() && smallest == old(smallest)
        invariant InsertEach(View(), n, base + count - n) == InsertEach(old(View()), base, count)
      {
        outcome := InsertPacketNumber(n);
        if outcome != Done {
          return;
        }
        n := n + 1;
      }
      outcome := Done;
    }

    method ConsumeContiguous() returns (result: Option<ConsumeResult>)
      requires Valid()
      modifies this
      ensures Valid()
      ensures (View(), result) == ConsumeAcks(old(View()))
    {
      ghost var before := numbers;
      ConsumeValid(View());
      if numbers == [] {
        return None;
      }
      assert numbers[0] in View().acked;
      if numbers[0] > smallest {
        SmallestMissing(before, smallest);
        return None;
      }
      var lastPacketNumber, rest := PopContiguous(numbers, smallest);
      numbers := rest;
      var prev := smallest;
      smallest := lastPacketNumber + 1;
      result := Some(ConsumeResult(lastPacketNumber, lastPacketNumber - prev + 1));
    }
  }

  /** The pop loop: numbers leave the front while each is one more than the last. */
  method PopContiguous(numbers0: seq<nat>, ghost smallest: nat) returns (last: nat, numbers: seq<nat>)
    requires Sorted(numbers0) && numbers0 != [] && numbers0[0] == smallest
    ensures smallest <= last && last + 1 == Frontier(Elements(numbers0), smallest)
    ensures Elements(numbers) == Elements(numbers0) - Interval(smallest, last + 1)
    ensures Sorted(numbers)
  {
    last := numbers0[0];
    numbers := numbers0[1..];
    ghost var k := 1;
    while numbers != []
      invariant 1 <= k <= |numbers0| && numbers == numbers0[k..]
      invariant forall i :: 0 <= i < k ==> numbers0[i] == smallest + i
      invariant last == smallest + k - 1
      decreases |numbers|
    {
      var p := numbers[0];
      numbers := numbers[1..];
      if p == last + 1 {
        last := p;
        k := k + 1;
        continue;
      } else {
        numbers := [p] + numbers;
        assert numbers == numbers0[k..];
        break;
      }
    }
    ContiguousPrefix(numbers0, smallest, k);
  }

  lemma ExtendCleanly(s: seq<nat>, base: nat, count: nat)
    requires Sorted(s) && (s == [] || base > s[|s| - 1])
    ensures Sorted(s + seq(count, i => base + i))
    ensures Elements(s + seq(count, i => base + i)) == Elements(s) + Interval(base, base + count)
    ensures forall x :: x in Elements(s) ==> x < base
  {
    var range := seq(count, i => base + i);
    forall x | base <= x < base + count
      ensures x in range
    {
      assert range[x - base] == x;
    }
  }

  lemma SmallestMissing(s: seq<nat>, smallest: nat)
    requires Sorted(s) && s != [] && s[0] > smallest
    ensures Frontier(Elements(s), smallest) == smallest
  {
  }

  /** Popping a contiguous prefix off the deque is removing the interval up to the frontier. */
  lemma ContiguousPrefix(s: seq<nat>, smallest: nat, k: nat)
    requires Sorted(s) && 0 < k <= |s|
    requires forall i :: 0 <= i < k ==> s[i] == smallest + i
    requires k < |s| ==> s[k] != smallest + k
    ensures Frontier(Elements(s), smallest) == smallest + k
    ensures Elements(s[k..]) == Elements(s) - Interval(smallest, smallest + k)
  {
    forall x | smallest <= x < smallest + k
      ensures x in s
    {
      assert s[x - smallest] == x;
    }
    assert forall i :: k <= i < |s| ==> s[i] > smallest + k by {
      if k < |s| { assert s[k - 1] < s[k]; }
    }
    FrontierUnique(Elements(s), smallest, smallest + k);
    forall x
      ensures x in s[k..] <==> x in s && !(smallest <= x < smallest + k)
    {
      if x in s && !(smallest <= x < smallest + k) {
        var i :| 0 <= i < |s| && s[i] == x;
        assert s[k..][i - k] == x;
      }
    }
  }
}
