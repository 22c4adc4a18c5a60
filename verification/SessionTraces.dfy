/** Whole runs of the session allocator: footprint accounting, and the convergence of a pool
    that replays the same trace to a pool that never asks the heap for anything. */
module SessionTraces {
  import opened SessionPool

  /** `Drop(i)` releases the i-th live allocation in order of allocation. */
  datatype Op = Take(n: nat) | Drop(i: nat)

  /** The trace can run on a pool with `k` live allocations. */
  predicate WellFormed(k: nat, trace: seq<Op>)
    decreases |trace|
  {
    trace == [] ||
    match trace[0]
    case Take(_) => WellFormed(k + 1, trace[1..])
    case Drop(i) => i < k && WellFormed(k - 1, trace[1..])
  }

  function LiveAfter(k: nat, trace: seq<Op>): nat
    requires WellFormed(k, trace)
    decreases |trace|
  {
    if trace == [] then k
    else if trace[0].Take? then LiveAfter(k + 1, trace[1..])
    else LiveAfter(k - 1, trace[1..])
  }

  predicate Balanced(trace: seq<Op>) { WellFormed(0, trace) && LiveAfter(0, trace) == 0 }

  // ---------------------------------------------------------------- runs of a pool

  predicate CanStep(p: Pool, op: Op) { op.Drop? ==> op.i < |p.live| }

  function Step(p: Pool, op: Op, heap: Heap): Pool
    requires CanStep(p, op)
  {
    match op
    case Take(n) => Allocate(p, n, heap)
    case Drop(i) => Release(p, i)
  }

  /** `heaps` holds the heap's answer for every operation; the answers are fresh throughout. */
  predicate Runs(p: Pool, trace: seq<Op>, heaps: seq<Heap>)
    decreases |trace|
  {
    |heaps| == |trace| &&
    (trace == [] ||
     (CanStep(p, trace[0]) && (trace[0].Take? ==> FreshFor(p, trace[0].n, heaps[0])) &&
      Runs(Step(p, trace[0], heaps[0]), trace[1..], heaps[1..])))
  }

  function Run(p: Pool, trace: seq<Op>, heaps: seq<Heap>): Pool
    requires Runs(p, trace, heaps)
    decreases |trace|
  {
    if trace == [] then p else Run(Step(p, trace[0], heaps[0]), trace[1..], heaps[1..])
  }

  function OverflowOf(p: Pool, op: Op, heap: Heap): nat {
    if op.Take? && !Fits(Regrow(p, heap.buf), op.n) then 1 else 0
  }

  /** Allocations of the run that had to be served by the heap. */
  function Overflows(p: Pool, trace: seq<Op>, heaps: seq<Heap>): nat
    requires Runs(p, trace, heaps)
    decreases |trace|
  {
    if trace == [] then 0
    else OverflowOf(p, trace[0], heaps[0]) + Overflows(Step(p, trace[0], heaps[0]), trace[1..], heaps[1..])
  }

  /** Replacements of the block during the run. */
  function Regrowths(p: Pool, trace: seq<Op>, heaps: seq<Heap>): nat
    requires Runs(p, trace, heaps)
    decreases |trace|
  {
    if trace == [] then 0
    else
      (if trace[0].Take? && Regrows(p) then 1 else 0)
      + Regrowths(Step(p, trace[0], heaps[0]), trace[1..], heaps[1..])
  }

  lemma StepKeepsLayout(p: Pool, op: Op, heap: Heap)
    requires Layout(p) && CanStep(p, op) && (op.Take? ==> FreshFor(p, op.n, heap))
    ensures Layout(Step(p, op, heap))
    ensures p.high <= Step(p, op, heap).high
  {
    match op
    case Take(n) => AllocateKeepsLayout(p, n, heap);
    case Drop(i) => ReleaseKeepsLayout(p, i);
  }

  /** The layout holds in every reachable state. */
  lemma {:induction false} RunKeepsLayout(p: Pool, trace: seq<Op>, heaps: seq<Heap>)
    requires Layout(p) && Runs(p, trace, heaps)
    ensures Layout(Run(p, trace, heaps))
    ensures WellFormed(|p.live|, trace) && |Run(p, trace, heaps).live| == LiveAfter(|p.live|, trace)
    ensures p.high <= Run(p, trace, heaps).high
    decreases |trace|
  {
    if trace != [] {
      StepKeepsLayout(p, trace[0], heaps[0]);
      RunKeepsLayout(Step(p, trace[0], heaps[0]), trace[1..], heaps[1..]);
    }
  }

  // ---------------------------------------------------------------- correct release

  /** The placement of an allocation and the address test of `dealloc` on it agree, and the test goes
      on to give the same verdict for as long as anything is live: only an idle pool replaces its block. */
  lemma StepKeepsVerdicts(p: Pool, op: Op, heap: Heap)
    requires Layout(p) && CanStep(p, op) && (op.Take? ==> FreshFor(p, op.n, heap))
    ensures op.Take? ==> var q := Step(p, op, heap); InBlock(q, q.Last()) <==> Fits(Regrow(p, heap.buf), op.n)
    ensures p.live != [] ==> forall e :: InBlock(Step(p, op, heap), e) <==> InBlock(p, e)
  {
    if op.Take? {
      AllocateKeepsLayout(p, op.n, heap);
      var g := Regrow(p, heap.buf);
      var q := Allocate(p, op.n, heap);
      assert Placed(q, q.live[|q.live| - 1]);
      if Fits(g, op.n) && g.live != [] {
        assert Placed(p, p.live[|p.live| - 1]);
      }
    }
  }

  /** Of each live element, whether its allocation was served from the block. */
  function Origin(p: Pool, origins: seq<bool>, op: Op, heap: Heap): seq<bool>
    requires op.Drop? ==> op.i < |origins|
  {
    match op
    case Take(n) => origins + [Fits(Regrow(p, heap.buf), n)]
    case Drop(i) => origins[..i] + origins[i + 1..]
  }

  function Origins(p: Pool, origins: seq<bool>, trace: seq<Op>, heaps: seq<Heap>): seq<bool>
    requires Runs(p, trace, heaps) && |origins| == |p.live|
    decreases |trace|
  {
    if trace == [] then origins
    else Origins(Step(p, trace[0], heaps[0]), Origin(p, origins, trace[0], heaps[0]), trace[1..], heaps[1..])
  }

  /** The address test of `dealloc` says of every live element whether the block served it. */
  predicate TestsAgree(p: Pool, origins: seq<bool>) {
    |origins| == |p.live| && forall i | 0 <= i < |p.live| :: InBlock(p, p.live[i]) <==> origins[i]
  }

  lemma StepKeepsTests(p: Pool, origins: seq<bool>, op: Op, heap: Heap)
    requires Layout(p) && CanStep(p, op) && (op.Take? ==> FreshFor(p, op.n, heap)) && TestsAgree(p, origins)
    ensures TestsAgree(Step(p, op, heap), Origin(p, origins, op, heap))
  {
    StepKeepsVerdicts(p, op, heap);
    var q := Step(p, op, heap);
    forall i | 0 <= i < |q.live| ensures InBlock(q, q.live[i]) <==> Origin(p, origins, op, heap)[i] {
      if op.Drop? {
        assert q.live[i] == p.live[if i < op.i then i else i + 1];
      } else if i < |p.live| {
        assert q.live[i] == p.live[i];
      }
    }
  }

  /** Correct release: after any run, whatever was allocated and released in between, the address
      test sends exactly those elements to the heap that came from it. */
  lemma {:induction false} ReleaseTestIsExact(p: Pool, origins: seq<bool>, trace: seq<Op>, heaps: seq<Heap>)
    requires Layout(p) && Runs(p, trace, heaps) && TestsAgree(p, origins)
    ensures TestsAgree(Run(p, trace, heaps), Origins(p, origins, trace, heaps))
    decreases |trace|
  {
    if trace != [] {
      var q, next := Step(p, trace[0], heaps[0]), Origin(p, origins, trace[0], heaps[0]);
      StepKeepsLayout(p, trace[0], heaps[0]);
      StepKeepsTests(p, origins, trace[0], heaps[0]);
      ReleaseTestIsExact(q, next, trace[1..], heaps[1..]);
    }
  }

  // ---------------------------------------------------------------- the abstract machine

  /** What `used` depends on: the sizes taken so far, and nothing about addresses. */
  datatype Slot = Slot(size: nat, used: nat)

  function SlotsOf(live: seq<Element>): seq<Slot> {
    seq(|live|, i requires 0 <= i < |live| => Slot(live[i].size, live[i].used))
  }

  function Push(slots: seq<Slot>, n: nat): seq<Slot> {
    slots + [Slot(n, HEADER + n + if slots == [] then 0 else slots[|slots| - 1].used)]
  }

  function NextSlots(slots: seq<Slot>, op: Op): seq<Slot>
    requires op.Drop? ==> op.i < |slots|
  {
    match op
    case Take(n) => Push(slots, n)
    case Drop(i) => slots[..i] + slots[i + 1..]
  }

  function PeakOf(slots: seq<Slot>, op: Op): nat {
    if op.Take? then Push(slots, op.n)[|slots|].used else 0
  }

  /** The largest `used` that the trace ever assigns. */
  function Peak(slots: seq<Slot>, trace: seq<Op>): nat
    requires WellFormed(|slots|, trace)
    decreases |trace|
  {
    if trace == [] then 0
    else Max(PeakOf(slots, trace[0]), Peak(NextSlots(slots, trace[0]), trace[1..]))
  }

  /** The pool has a block, or is about to get one at its next allocation. */
  predicate Warm(p: Pool) { p.buf != 0 || Regrows(p) }

  lemma WarmStep(p: Pool, slots: seq<Slot>, op: Op, heap: Heap)
    requires Layout(p) && Warm(p) && CanStep(p, op) && (op.Take? ==> FreshFor(p, op.n, heap))
    requires slots == SlotsOf(p.live)
    ensures Layout(Step(p, op, heap)) && Warm(Step(p, op, heap))
    ensures SlotsOf(Step(p, op, heap).live) == NextSlots(slots, op)
    ensures Step(p, op, heap).high == Max(p.high, PeakOf(slots, op))
  {
    StepKeepsLayout(p, op, heap);
  }

  /** On a warm pool a run raises the high-water mark to the peak of the trace, exactly. */
  lemma {:induction false} HighWaterIsPeak(p: Pool, slots: seq<Slot>, trace: seq<Op>, heaps: seq<Heap>)
    requires Layout(p) && Warm(p) && Runs(p, trace, heaps)
    requires slots == SlotsOf(p.live) && WellFormed(|slots|, trace)
    ensures Run(p, trace, heaps).high == Max(p.high, Peak(slots, trace))
    ensures Warm(Run(p, trace, heaps))
    decreases |trace|
  {
    if trace != [] {
      var q, next := Step(p, trace[0], heaps[0]), NextSlots(slots, trace[0]);
      WarmStep(p, slots, trace[0], heaps[0]);
      assert Run(p, trace, heaps) == Run(q, trace[1..], heaps[1..]);
      assert Peak(slots, trace) == Max(PeakOf(slots, trace[0]), Peak(next, trace[1..]));
      HighWaterIsPeak(q, next, trace[1..], heaps[1..]);
    }
  }

  // ---------------------------------------------------------------- convergence

  /** Everything live is in the block, and the block has the size of the mark while in use. */
  predicate Roomy(p: Pool) {
    && Warm(p)
    && (p.live != [] ==> p.size == p.high)
    && forall i | 0 <= i < |p.live| :: InBlock(p, p.live[i])
  }

  /** A step that does not raise the mark of a roomy pool. */
  lemma RoomyStep(p: Pool, op: Op, heap: Heap)
    requires Layout(p) && Roomy(p) && CanStep(p, op) && (op.Take? ==> FreshFor(p, op.n, heap))
    requires Step(p, op, heap).high == p.high
    ensures Roomy(Step(p, op, heap))
    ensures OverflowOf(p, op, heap) == 0
  {
    match op
    case Take(n) =>
      var g := Regrow(p, heap.buf);
      if p.live != [] {
        assert Placed(p, p.live[|p.live| - 1]);
        assert InBlock(p, p.live[|p.live| - 1]);
      }
      assert Fits(g, n);
    case Drop(i) =>
      var q := Release(p, i);
      forall j | 0 <= j < |q.live| ensures InBlock(q, q.live[j]) {
        assert q.live[j] == p.live[if j < i then j else j + 1];
      }
  }

  /** A run that does not raise the mark never overflows. */
  lemma {:induction false} RoomyRun(p: Pool, trace: seq<Op>, heaps: seq<Heap>)
    requires Layout(p) && Runs(p, trace, heaps) && Roomy(p) && p.high == Run(p, trace, heaps).high
    ensures Overflows(p, trace, heaps) == 0
    decreases |trace|
  {
    if trace != [] {
      var q := Step(p, trace[0], heaps[0]);
      StepKeepsLayout(p, trace[0], heaps[0]);
      RunKeepsLayout(q, trace[1..], heaps[1..]);
      RoomyStep(p, trace[0], heaps[0]);
      RoomyRun(q, trace[1..], heaps[1..]);
    }
  }

  /** Nor does it replace a block that has the size of the high-water mark. */
  lemma {:induction false} FullRun(p: Pool, trace: seq<Op>, heaps: seq<Heap>)
    requires Layout(p) && Runs(p, trace, heaps) && p.size == p.high == Run(p, trace, heaps).high
    ensures Regrowths(p, trace, heaps) == 0
    ensures Run(p, trace, heaps).size == p.size && Run(p, trace, heaps).buf == p.buf
    decreases |trace|
  {
    if trace != [] {
      var q := Step(p, trace[0], heaps[0]);
      StepKeepsLayout(p, trace[0], heaps[0]);
      RunKeepsLayout(q, trace[1..], heaps[1..]);
      FullRun(q, trace[1..], heaps[1..]);
    }
  }

  /** A smaller block is replaced once, by the first allocation. */
  lemma {:induction false} TakeFillsBlock(p: Pool, trace: seq<Op>, heaps: seq<Heap>)
    requires Idle(p) && Runs(p, trace, heaps) && p.high == Run(p, trace, heaps).high && Takes(trace)
    ensures Run(p, trace, heaps).size == p.high && Regrowths(p, trace, heaps) <= 1
  {
    var q := Step(p, trace[0], heaps[0]);
    StepKeepsLayout(p, trace[0], heaps[0]);
    RunKeepsLayout(q, trace[1..], heaps[1..]);
    FullRun(q, trace[1..], heaps[1..]);
  }

  predicate Takes(trace: seq<Op>) { exists i :: 0 <= i < |trace| && trace[i].Take? }

  predicate Idle(p: Pool) { Layout(p) && p.live == [] }

  /** How far an idle pool has learned a trace: it has a block, then its mark covers the peak of
      the trace, then its block has the size of the mark. */
  predicate Learned(level: nat, p: Pool, trace: seq<Op>)
    requires Balanced(trace)
  {
    && Idle(p)
    && (level >= 1 ==> Warm(p))
    && (level >= 2 ==> Peak([], trace) <= p.high)
    && (level >= 3 ==> p.size == p.high)
  }

  lemma {:induction false} TakeRaisesHigh(p: Pool, trace: seq<Op>, heaps: seq<Heap>)
    requires Layout(p) && Runs(p, trace, heaps) && Takes(trace)
    ensures 0 < Run(p, trace, heaps).high
    decreases |trace|
  {
    var q := Step(p, trace[0], heaps[0]);
    StepKeepsLayout(p, trace[0], heaps[0]);
    RunKeepsLayout(q, trace[1..], heaps[1..]);
    if trace[0].Drop? {
      var i :| 0 <= i < |trace| && trace[i].Take?;
      assert trace[1..][i - 1].Take?;
      TakeRaisesHigh(q, trace[1..], heaps[1..]);
    }
  }

  lemma ReplayLearns(level: nat, p: Pool, trace: seq<Op>, heaps: seq<Heap>)
    requires Balanced(trace) && Takes(trace) && Runs(p, trace, heaps) && Learned(level, p, trace)
    ensures Learned(level + 1, Run(p, trace, heaps), trace)
    ensures level >= 2 ==> Overflows(p, trace, heaps) == 0 && Regrowths(p, trace, heaps) <= 1
    ensures level >= 3 ==> Regrowths(p, trace, heaps) == 0 && Run(p, trace, heaps) == p
  {
    RunKeepsLayout(p, trace, heaps);
    TakeRaisesHigh(p, trace, heaps);
    if level >= 1 {
      HighWaterIsPeak(p, [], trace, heaps);
    }
    if level >= 2 {
      RoomyRun(p, trace, heaps);
      TakeFillsBlock(p, trace, heaps);
    }
    if level >= 3 {
      FullRun(p, trace, heaps);
    }
  }

  predicate AllReplay(p: Pool, trace: seq<Op>, replays: seq<seq<Heap>>)
    decreases |replays|, 0
  {
    replays == [] ||
    var k := |replays| - 1;
    AllReplay(p, trace, replays[..k]) && Runs(AfterReplays(p, trace, replays[..k]), trace, replays[k])
  }

  function AfterReplays(p: Pool, trace: seq<Op>, replays: seq<seq<Heap>>): Pool
    requires AllReplay(p, trace, replays)
    decreases |replays|, 1
  {
    if replays == [] then p
    else
      var k := |replays| - 1;
      Run(AfterReplays(p, trace, replays[..k]), trace, replays[k])
  }

  /** Warm-up: whatever addresses the heap returns, a pool that replays one trace never overflows
      from the third replay on and replaces its block at most once in it; from the fourth on it makes
      no request to the heap at all and ends every replay in the very same state. */
  lemma {:induction false} Convergence(p: Pool, trace: seq<Op>, replays: seq<seq<Heap>>)
    requires Idle(p) && Balanced(trace) && Takes(trace) && AllReplay(p, trace, replays)
    ensures Learned(|replays|, AfterReplays(p, trace, replays), trace)
    ensures var k := |replays| - 1;
            k >= 2 ==> && Overflows(AfterReplays(p, trace, replays[..k]), trace, replays[k]) == 0
                       && Regrowths(AfterReplays(p, trace, replays[..k]), trace, replays[k]) <= 1
    ensures var k := |replays| - 1;
            k >= 3 ==> && Regrowths(AfterReplays(p, trace, replays[..k]), trace, replays[k]) == 0
                       && AfterReplays(p, trace, replays) == AfterReplays(p, trace, replays[..k])
    decreases |replays|
  {
    if replays != [] {
      var k := |replays| - 1;
      Convergence(p, trace, replays[..k]);
      ReplayLearns(k, AfterReplays(p, trace, replays[..k]), trace, replays[k]);
    }
  }

  lemma FourSteps(p: Pool, heaps: seq<Heap>, p1: Pool, p2: Pool, p3: Pool, p4: Pool)
    requires |heaps| == 4
    requires FreshFor(p, 1, heaps[0]) && p1 == Allocate(p, 1, heaps[0])
    requires FreshFor(p1, 1, heaps[1]) && p2 == Allocate(p1, 1, heaps[1])
    requires |p2.live| == 2 && p3 == Release(p2, 1) && p4 == Release(p3, 0)
    ensures var trace := [Take(1), Take(1), Drop(1), Drop(0)];
            && Runs(p, trace, heaps) && Run(p, trace, heaps) == p4
            && Overflows(p, trace, heaps) == (if Fits(Regrow(p, heaps[0].buf), 1) then 0 else 1)
                                             + (if Fits(Regrow(p1, heaps[1].buf), 1) then 0 else 1)
  {
    var trace := [Take(1), Take(1), Drop(1), Drop(0)];
    assert trace[1..] == [Take(1), Drop(1), Drop(0)] && trace[1..][1..] == [Drop(1), Drop(0)];
    assert trace[1..][1..][1..] == [Drop(0)] && trace[1..][1..][1..][1..] == [];
    assert Runs(p4, [], heaps[1..][1..][1..][1..]);
    assert Runs(p3, [Drop(0)], heaps[1..][1..][1..]);
    assert Runs(p2, [Drop(1), Drop(0)], heaps[1..][1..]);
    assert Runs(p1, trace[1..], heaps[1..]);
  }

  const TWICE := [Take(1), Take(1), Drop(1), Drop(0)]

  const FIRST := [Heap(1, 1), Heap(1, HEADER + 2), Heap(1, 1), Heap(1, 1)]

  const SECOND := [Heap(1, HEADER + 2), Heap(1, HEADER + 2), Heap(1, 1), Heap(1, 1)]

  lemma FirstReplay()
    ensures Runs(Empty, TWICE, FIRST) && Run(Empty, TWICE, FIRST) == Pool(HEADER + 1, 0, 0, [])
  {
    var a, b := Element(1, 1, HEADER + 1), Element(HEADER + 2, 1, HEADER + 1);
    var q := Pool(HEADER + 1, 0, 0, []);
    FourSteps(Empty, FIRST, q.(live := [a]), q.(live := [a, b]), q.(live := [a]), q);
  }

  lemma SecondReplay()
    ensures Runs(Pool(HEADER + 1, 0, 0, []), TWICE, SECOND)
    ensures Overflows(Pool(HEADER + 1, 0, 0, []), TWICE, SECOND) == 1
  {
    var c, d := Element(1, 1, HEADER + 1), Element(HEADER + 2, 1, 2 * HEADER + 2);
    var r := Pool(2 * HEADER + 2, HEADER + 1, 1, []);
    var s := r.(live := [c], high := HEADER + 1);
    assert !Fits(s, 1);
    FourSteps(Pool(HEADER + 1, 0, 0, []), SECOND, s, r.(live := [c, d]), r.(live := [c]), r);
  }

  lemma TwiceBalanced()
    ensures Balanced(TWICE)
  {
    assert TWICE[1..][1..] == [Drop(1), Drop(0)];
    assert WellFormed(1, TWICE[1..][1..][1..]);
  }

  /** The third replay is the first that is sure not to overflow: two allocations of one octet
      go to the heap in the first replay, and one of them again in the second. */
  lemma SecondReplayMayOverflow()
    ensures Balanced(TWICE) && Runs(Empty, TWICE, FIRST) && Runs(Run(Empty, TWICE, FIRST), TWICE, SECOND)
    ensures Overflows(Run(Empty, TWICE, FIRST), TWICE, SECOND) == 1
  {
    TwiceBalanced();
    FirstReplay();
    SecondReplay();
  }

  // ---------------------------------------------------------------- footprint

  function Sum(sizes: seq<nat>): nat {
    if sizes == [] then 0 else Sum(sizes[..|sizes| - 1]) + HEADER + sizes[|sizes| - 1]
  }

  function SizesOf(slots: seq<Slot>): seq<nat> {
    seq(|slots|, i requires 0 <= i < |slots| => slots[i].size)
  }

  /** Along the list `used` grows by at least the size of every further allocation. */
  predicate Spaced(slots: seq<Slot>) {
    && (forall i | 0 <= i < |slots| :: HEADER + slots[i].size <= slots[i].used)
    && (forall i, j | 0 <= i < j < |slots| :: slots[i].used + HEADER + slots[j].size <= slots[j].used)
  }

  /** `used` is the total size of the allocations up to and including this one. */
  predicate Exact(slots: seq<Slot>) {
    forall i | 0 <= i < |slots| :: slots[i].used == Sum(SizesOf(slots)[..i + 1])
  }

  lemma {:induction false} SpacedBoundsSum(slots: seq<Slot>)
    requires Spaced(slots) && slots != []
    ensures Sum(SizesOf(slots)) <= slots[|slots| - 1].used
  {
    var k := |slots| - 1;
    assert SizesOf(slots)[..k] == SizesOf(slots[..k]);
    if 0 < k {
      SpacedBoundsSum(slots[..k]);
    } else {
      assert SizesOf(slots[..k]) == [];
    }
  }

  /** The octets that live allocations occupy, headers included, never exceed the last `used`,
      nor that the high-water mark. */
  lemma FootprintIsBounded(p: Pool)
    requires Layout(p) && p.buf != 0 && p.live != []
    ensures Spaced(SlotsOf(p.live))
    ensures Sum(SizesOf(SlotsOf(p.live))) <= p.Last().used <= p.high
  {
    var slots := SlotsOf(p.live);
    assert Placed(p, p.live[|p.live| - 1]);
    forall i | 0 <= i < |slots| ensures HEADER + slots[i].size <= slots[i].used {
      assert Placed(p, p.live[i]);
    }
    forall i, j | 0 <= i < j < |slots| ensures slots[i].used + HEADER + slots[j].size <= slots[j].used {
      assert Ordered(p, p.live[i], p.live[j]);
    }
    SpacedBoundsSum(slots);
  }

  /** The largest total size of live allocations over a trace, with no pool in sight. */
  function PeakFootprint(sizes: seq<nat>, trace: seq<Op>): nat
    requires WellFormed(|sizes|, trace)
    decreases |trace|
  {
    if trace == [] then 0
    else
      match trace[0]
      case Take(n) => Max(Sum(sizes + [n]), PeakFootprint(sizes + [n], trace[1..]))
      case Drop(i) => PeakFootprint(sizes[..i] + sizes[i + 1..], trace[1..])
  }

  predicate Lifo(k: nat, trace: seq<Op>)
    decreases |trace|
  {
    trace == [] ||
    match trace[0]
    case Take(_) => Lifo(k + 1, trace[1..])
    case Drop(i) => i == k - 1 && Lifo(i, trace[1..])
  }

  lemma PushSizes(slots: seq<Slot>, n: nat)
    ensures SizesOf(Push(slots, n)) == SizesOf(slots) + [n]
    ensures Spaced(slots) ==> Spaced(Push(slots, n)) && Sum(SizesOf(slots) + [n]) <= PeakOf(slots, Take(n))
    ensures Exact(slots) ==> Exact(Push(slots, n)) && Sum(SizesOf(slots) + [n]) == PeakOf(slots, Take(n))
  {
    var next := Push(slots, n);
    assert SizesOf(next) == SizesOf(slots) + [n];
    if Spaced(slots) {
      SpacedBoundsSum(next);
    }
    if Exact(slots) {
      assert SizesOf(next)[..|slots|] == SizesOf(slots) == SizesOf(slots)[..|slots|];
      forall i | 0 <= i < |next| ensures next[i].used == Sum(SizesOf(next)[..i + 1]) {
        assert i < |slots| ==> SizesOf(next)[..i + 1] == SizesOf(slots)[..i + 1];
        assert i == |slots| ==> SizesOf(next)[..i + 1] == SizesOf(next);
      }
    }
  }

  lemma DropSizes(slots: seq<Slot>, i: nat)
    requires i < |slots|
    ensures SizesOf(NextSlots(slots, Drop(i))) == SizesOf(slots)[..i] + SizesOf(slots)[i + 1..]
    ensures Spaced(slots) ==> Spaced(NextSlots(slots, Drop(i)))
    ensures Exact(slots) && i == |slots| - 1 ==> Exact(NextSlots(slots, Drop(i)))
  {
    var next := NextSlots(slots, Drop(i));
    if i == |slots| - 1 {
      forall j | Exact(slots) && 0 <= j < |next| ensures next[j].used == Sum(SizesOf(next)[..j + 1]) {
        assert SizesOf(next)[..j + 1] == SizesOf(slots)[..j + 1];
      }
    }
  }

  /** The mark that a trace leaves is at least the largest footprint it ever has, and exactly that
      when frees are last-in-first-out. */
  lemma {:induction false} PeakCoversFootprint(slots: seq<Slot>, trace: seq<Op>)
    requires WellFormed(|slots|, trace)
    ensures Spaced(slots) ==> PeakFootprint(SizesOf(slots), trace) <= Peak(slots, trace)
    ensures Exact(slots) && Lifo(|slots|, trace) ==> PeakFootprint(SizesOf(slots), trace) == Peak(slots, trace)
    decreases |trace|
  {
    if trace != [] {
      match trace[0] {
        case Take(n) => PushSizes(slots, n);
        case Drop(i) => DropSizes(slots, i);
      }
      PeakCoversFootprint(NextSlots(slots, trace[0]), trace[1..]);
    }
  }

  /** What a warm idle pool learns from a trace: the peak footprint if frees are
      last-in-first-out, and never less than that. */
  lemma MarkLearnsPeakFootprint(p: Pool, trace: seq<Op>, heaps: seq<Heap>)
    requires Idle(p) && Warm(p) && Runs(p, trace, heaps)
    ensures WellFormed(0, trace)
    ensures Run(p, trace, heaps).high >= Max(p.high, PeakFootprint([], trace))
    ensures Lifo(0, trace) ==> Run(p, trace, heaps).high == Max(p.high, PeakFootprint([], trace))
  {
    RunKeepsLayout(p, trace, heaps);
    HighWaterIsPeak(p, [], trace, heaps);
    assert SizesOf([]) == [];
    PeakCoversFootprint([], trace);
  }
}
