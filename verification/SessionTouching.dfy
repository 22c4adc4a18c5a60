/** The session allocator on a heap that may return memory right next to the block: exactly when an
    allocation then leaves the layout, and exactly when one of a run overwrites a live element. */
module SessionTouching {
  import opened SessionPool
  import opened SessionTraces

  /** No octet of `e` lies in the block, but `e` may touch it. */
  predicate Outside(p: Pool, e: Element) { e.End() <= p.buf || p.buf + p.size <= e.at }

  predicate PlacedNear(p: Pool, e: Element) {
    && 0 < e.at
    && HEADER + e.size <= e.used <= p.high
    && (p.buf == 0 ==> e.used == HEADER + e.size)
    && if InBlock(p, e) then p.buf != 0 && e.used == e.End() - p.buf else Outside(p, e)
  }

  /** The layout of `SessionPool`, except that heap elements may touch the block. */
  predicate NearLayout(p: Pool) {
    && p.size <= p.high
    && 0 <= p.buf
    && (p.buf == 0 <==> p.size == 0)
    && (forall i {:trigger PlacedNear(p, p.live[i])} | 0 <= i < |p.live| :: PlacedNear(p, p.live[i]))
    && (forall i, j {:trigger Ordered(p, p.live[i], p.live[j])} | 0 <= i < j < |p.live| ::
          Ordered(p, p.live[i], p.live[j]))
  }

  /** What any heap guarantees: a new element overlaps neither the block nor anything live. */
  predicate NearFresh(p: Pool, n: nat, heap: Heap) {
    var g := Regrow(p, heap.buf);
    var e := Element(heap.block, n, 0);
    && (Regrows(p) ==> 0 < heap.buf)
    && (!Fits(g, n) ==> 0 < heap.block && Outside(g, e) && forall i | 0 <= i < |p.live| :: Disjoint(p.live[i], e))
  }

  // ---------------------------------------------------------------- one allocation

  /** The last element is on the heap and ends where the block begins, and the request is no larger
      than the whole block: the placement test looks only at where the last element ends. */
  predicate Mistaken(p: Pool, n: nat) {
    p.live != [] && !InBlock(p, p.Last()) && p.Last().End() == p.buf && HEADER + n <= p.size
  }

  /** Moreover, an element of the block still occupies some of the octets that are given away. */
  predicate Overwrites(p: Pool, n: nat) {
    Mistaken(p, n) && InBlock(p, p.live[0]) && p.live[0].at < p.buf + HEADER + n
  }

  /** Behind a heap element the placement test passes exactly when the element is mistaken for one
      of the block. */
  lemma PlacementTestMistakes(p: Pool, n: nat)
    requires NearLayout(p) && p.live != [] && !InBlock(p, p.Last())
    ensures Fits(p, n) <==> Mistaken(p, n)
  {
    assert PlacedNear(p, p.live[|p.live| - 1]);
  }

  /** A request that is placed at the start of the block meets a live element exactly when it meets
      the first, which is the lowest in the block if it lies there. */
  lemma MistakenPlacementMeetsFirst(p: Pool, n: nat)
    requires NearLayout(p) && Mistaken(p, n)
    ensures var e := Element(p.buf, n, 0);
            (forall i | 0 <= i < |p.live| :: Disjoint(p.live[i], e)) <==> !Overwrites(p, n)
  {
    var e := Element(p.buf, n, 0);
    assert PlacedNear(p, p.live[0]);
    if !Overwrites(p, n) {
      forall i | 0 <= i < |p.live| ensures Disjoint(p.live[i], e) {
        assert PlacedNear(p, p.live[i]);
        if 0 < i && InBlock(p, p.live[i]) {
          assert Ordered(p, p.live[0], p.live[i]);
        }
      }
    } else {
      assert !Disjoint(p.live[0], e);
    }
  }

  lemma ProperPlacementIsDisjoint(p: Pool, n: nat, heap: Heap)
    requires NearLayout(p) && !Regrows(p) && NearFresh(p, n, heap) && !Mistaken(p, n)
    ensures var e := NewElement(p, n, heap.block);
            && PlacedNear(p.(high := Max(p.high, e.used)), e)
            && forall i | 0 <= i < |p.live| :: Ordered(p, p.live[i], e)
  {
    var e := NewElement(p, n, heap.block);
    if p.live != [] {
      assert PlacedNear(p, p.live[|p.live| - 1]);
    }
    forall i | 0 <= i < |p.live| ensures Ordered(p, p.live[i], e) {
      assert PlacedNear(p, p.live[i]);
      if i < |p.live| - 1 {
        assert Ordered(p, p.live[i], p.live[|p.live| - 1]);
      }
    }
  }

  /** In a pool that is laid out, an allocation overlaps a live element if and only if it `Overwrites`,
      whatever the heap answers. */
  lemma DisjointUnlessOverwrites(p: Pool, n: nat, heap: Heap)
    requires NearLayout(p) && NearFresh(p, n, heap)
    ensures (forall i | 0 <= i < |p.live| :: Disjoint(p.live[i], Allocate(p, n, heap).Last())) <==> !Overwrites(p, n)
  {
    if p.live != [] {
      var e := Allocate(p, n, heap).Last();
      if Mistaken(p, n) {
        PlacementTestMistakes(p, n);
        MistakenPlacementMeetsFirst(p, n);
        var d := Element(p.buf, n, 0);
        assert forall i | 0 <= i < |p.live| :: Disjoint(p.live[i], e) <==> Disjoint(p.live[i], d);
      } else {
        ProperPlacementIsDisjoint(p, n, heap);
        assert forall i | 0 <= i < |p.live| :: Ordered(p, p.live[i], e);
      }
    }
  }

  lemma AppendKeepsNearLayout(p: Pool, high: nat, e: Element)
    requires NearLayout(p) && p.high <= high && PlacedNear(p.(high := high), e)
    requires forall i | 0 <= i < |p.live| :: Ordered(p, p.live[i], e)
    ensures NearLayout(p.(high := high, live := p.live + [e]))
  {
    var q := p.(high := high, live := p.live + [e]);
    forall i | 0 <= i < |q.live| ensures PlacedNear(q, q.live[i]) {
      if i < |p.live| {
        assert PlacedNear(p, p.live[i]);
      }
    }
    forall i, j | 0 <= i < j < |q.live| ensures Ordered(q, q.live[i], q.live[j]) {
      if j < |p.live| {
        assert Ordered(p, p.live[i], p.live[j]);
      } else {
        assert Ordered(p, p.live[i], e);
      }
    }
  }

  /** The layout survives an allocation if and only if that is not mistaken. */
  lemma LayoutUnlessMistaken(p: Pool, n: nat, heap: Heap)
    requires NearLayout(p) && NearFresh(p, n, heap)
    ensures NearLayout(Allocate(p, n, heap)) <==> !Mistaken(p, n)
  {
    var g := Regrow(p, heap.buf);
    var q := Allocate(p, n, heap);
    if Mistaken(p, n) {
      PlacementTestMistakes(p, n);
      var k := |p.live|;
      assert q.live[k - 1] == p.Last() && InBlock(q, q.live[k]);
      assert !Ordered(q, q.live[k - 1], q.live[k]);
    } else {
      assert NearLayout(g);
      ProperPlacementIsDisjoint(g, n, heap);
      var e := NewElement(g, n, heap.block);
      AppendKeepsNearLayout(g, Max(g.high, e.used), e);
    }
  }

  lemma ReleaseKeepsNearLayout(p: Pool, i: nat)
    requires NearLayout(p) && i < |p.live|
    ensures NearLayout(Release(p, i))
  {
    var q := Release(p, i);
    forall j | 0 <= j < |q.live| ensures PlacedNear(q, q.live[j]) {
      assert q.live[j] == p.live[if j < i then j else j + 1];
      assert PlacedNear(p, q.live[j]);
    }
    forall j, k | 0 <= j < k < |q.live| ensures Ordered(q, q.live[j], q.live[k]) {
      assert Ordered(p, p.live[if j < i then j else j + 1], p.live[if k < i then k else k + 1]);
    }
  }

  // ---------------------------------------------------------------- whole runs

  /** A run on such a heap. */
  predicate NearRuns(p: Pool, trace: seq<Op>, heaps: seq<Heap>)
    decreases |trace|
  {
    |heaps| == |trace| &&
    (trace == [] ||
     (CanStep(p, trace[0]) && (trace[0].Take? ==> NearFresh(p, trace[0].n, heaps[0])) &&
      NearRuns(Step(p, trace[0], heaps[0]), trace[1..], heaps[1..])))
  }

  function NearRun(p: Pool, trace: seq<Op>, heaps: seq<Heap>): Pool
    requires NearRuns(p, trace, heaps)
    decreases |trace|
  {
    if trace == [] then p else NearRun(Step(p, trace[0], heaps[0]), trace[1..], heaps[1..])
  }

  /** Some allocation of the run was mistaken. */
  predicate EverMistaken(p: Pool, trace: seq<Op>, heaps: seq<Heap>)
    requires NearRuns(p, trace, heaps)
    decreases |trace|
  {
    trace != [] &&
    ((trace[0].Take? && Mistaken(p, trace[0].n))
     || EverMistaken(Step(p, trace[0], heaps[0]), trace[1..], heaps[1..]))
  }

  /** The allocation overlaps an element that is live. */
  predicate Overlaps(p: Pool, n: nat, heap: Heap) {
    exists i :: 0 <= i < |p.live| && !Disjoint(p.live[i], Allocate(p, n, heap).Last())
  }

  /** Some allocation of the run overlapped an element that was live. */
  predicate EverOverlaps(p: Pool, trace: seq<Op>, heaps: seq<Heap>)
    requires NearRuns(p, trace, heaps)
    decreases |trace|
  {
    trace != [] &&
    ((trace[0].Take? && Overlaps(p, trace[0].n, heaps[0]))
     || EverOverlaps(Step(p, trace[0], heaps[0]), trace[1..], heaps[1..]))
  }

  /** As long as no allocation is mistaken, the layout holds and nothing live is ever overlapped. */
  lemma {:induction false} SafeUntilMistaken(p: Pool, trace: seq<Op>, heaps: seq<Heap>)
    requires NearLayout(p) && NearRuns(p, trace, heaps) && !EverMistaken(p, trace, heaps)
    ensures NearLayout(NearRun(p, trace, heaps)) && !EverOverlaps(p, trace, heaps)
    decreases |trace|
  {
    if trace != [] {
      match trace[0] {
        case Take(n) =>
          LayoutUnlessMistaken(p, n, heaps[0]);
          DisjointUnlessOverwrites(p, n, heaps[0]);
        case Drop(i) =>
          ReleaseKeepsNearLayout(p, i);
      }
      SafeUntilMistaken(Step(p, trace[0], heaps[0]), trace[1..], heaps[1..]);
    }
  }

  // ---------------------------------------------------------------- in any order

  /** What is left of the layout after harmless mistakes: each live element lies in the block or
      outside it, in any order, and none overlaps another. */
  predicate Spread(p: Pool) {
    && p.size <= p.high
    && 0 <= p.buf
    && (p.buf == 0 <==> p.size == 0)
    && (forall i {:trigger p.live[i]} | 0 <= i < |p.live| ::
          0 < p.live[i].at && (InBlock(p, p.live[i]) || Outside(p, p.live[i])))
    && (forall i, j | 0 <= i < j < |p.live| :: Disjoint(p.live[i], p.live[j]))
  }

  /** The request is placed in the block, and a live element of the block begins in the octets that
      it is given. */
  predicate GivesAwayLive(p: Pool, n: nat) {
    && p.live != [] && Fits(p, n)
    && exists i :: 0 <= i < |p.live| && InBlock(p, p.live[i]) && Position(p) <= p.live[i].at < Position(p) + HEADER + n
  }

  lemma LaidOutIsSpread(p: Pool)
    requires NearLayout(p)
    ensures Spread(p)
  {
    forall i | 0 <= i < |p.live| ensures 0 < p.live[i].at && (InBlock(p, p.live[i]) || Outside(p, p.live[i])) {
      assert PlacedNear(p, p.live[i]);
    }
    forall i, j | 0 <= i < j < |p.live| ensures Disjoint(p.live[i], p.live[j]) {
      assert Ordered(p, p.live[i], p.live[j]);
    }
  }

  /** The placement test, where elements may lie in any order: it passes if and only if there is a
      block, the last element lies in it or ends where it begins, and the request fits behind. */
  lemma PlacementTestMeaning(p: Pool, n: nat)
    requires Spread(p) && p.live != []
    ensures var last := p.live[|p.live| - 1];
            var end := last.at + HEADER + last.size;
            Fits(p, n) <==>
              && p.buf != 0 && end + HEADER + n <= p.buf + p.size
              && ((p.buf <= last.at && end <= p.buf + p.size) || end == p.buf)
  {
    assert Outside(p, p.live[|p.live| - 1]) || InBlock(p, p.live[|p.live| - 1]);
  }

  /** A request placed behind the last element overlaps just those elements that begin behind it too,
      since none that begins before it reaches beyond. */
  lemma MeetsWhatBeginsBehind(p: Pool, n: nat, i: nat)
    requires Spread(p) && p.live != [] && Fits(p, n) && i < |p.live|
    ensures !Disjoint(p.live[i], Element(Position(p), n, 0)) <==>
              InBlock(p, p.live[i]) && Position(p) <= p.live[i].at < Position(p) + HEADER + n
  {
    if i < |p.live| - 1 {
      assert Disjoint(p.live[i], p.live[|p.live| - 1]);
    }
  }

  /** In any pool that is not overlapped yet, an allocation overlaps a live element if and only if
      it gives away octets in which a live element begins. */
  lemma OverlapsIffGivesAwayLive(p: Pool, n: nat, heap: Heap)
    requires Spread(p) && NearFresh(p, n, heap)
    ensures Overlaps(p, n, heap) <==> GivesAwayLive(p, n)
  {
    if p.live != [] {
      var e, d := Allocate(p, n, heap).Last(), Element(if Fits(p, n) then Position(p) else heap.block, n, 0);
      assert e.at == d.at && e.End() == d.End();
      if Fits(p, n) {
        forall i | 0 <= i < |p.live|
          ensures !Disjoint(p.live[i], e) <==>
                    InBlock(p, p.live[i]) && Position(p) <= p.live[i].at < Position(p) + HEADER + n
        {
          MeetsWhatBeginsBehind(p, n, i);
        }
      } else {
        assert forall i | 0 <= i < |p.live| :: Disjoint(p.live[i], d);
      }
    }
  }

  lemma AllocateKeepsSpread(p: Pool, n: nat, heap: Heap)
    requires Spread(p) && NearFresh(p, n, heap) && !Overlaps(p, n, heap)
    ensures Spread(Allocate(p, n, heap))
  {
    var g, q := Regrow(p, heap.buf), Allocate(p, n, heap);
    var e := NewElement(g, n, heap.block);
    assert q.live == p.live + [e] && q.buf == g.buf && q.size == g.size;
    assert InBlock(q, e) || Outside(q, e);
    assert p.live != [] ==> g == p;
    forall i, j | 0 <= i < j < |q.live| ensures Disjoint(q.live[i], q.live[j]) {
      assert q.live[i] == p.live[i];
      if j < |p.live| {
        assert q.live[j] == p.live[j];
      } else {
        assert q.live[j] == q.Last();
      }
    }
  }

  lemma ReleaseKeepsSpread(p: Pool, i: nat)
    requires Spread(p) && i < |p.live|
    ensures Spread(Release(p, i))
  {
    var q := Release(p, i);
    assert forall j | 0 <= j < |q.live| :: q.live[j] == p.live[if j < i then j else j + 1];
  }

  /** Some allocation of the run gives away octets in which a live element begins. */
  predicate EverGivesAwayLive(p: Pool, trace: seq<Op>, heaps: seq<Heap>)
    requires NearRuns(p, trace, heaps)
    decreases |trace|
  {
    trace != [] &&
    ((trace[0].Take? && GivesAwayLive(p, trace[0].n))
     || EverGivesAwayLive(Step(p, trace[0], heaps[0]), trace[1..], heaps[1..]))
  }

  /** Over whole runs, whatever mistakes they contain: something live is overlapped at some time if and
      only if at some time an allocation meets that condition, which is known before it is served. */
  lemma {:induction false} EverOverlapsIff(p: Pool, trace: seq<Op>, heaps: seq<Heap>)
    requires Spread(p) && NearRuns(p, trace, heaps)
    ensures EverOverlaps(p, trace, heaps) <==> EverGivesAwayLive(p, trace, heaps)
    ensures !EverOverlaps(p, trace, heaps) ==> Spread(NearRun(p, trace, heaps))
    decreases |trace|
  {
    if trace != [] {
      match trace[0] {
        case Take(n) =>
          OverlapsIffGivesAwayLive(p, n, heaps[0]);
          if !Overlaps(p, n, heaps[0]) {
            AllocateKeepsSpread(p, n, heaps[0]);
            EverOverlapsIff(Step(p, trace[0], heaps[0]), trace[1..], heaps[1..]);
          }
        case Drop(i) =>
          ReleaseKeepsSpread(p, i);
          EverOverlapsIff(Step(p, trace[0], heaps[0]), trace[1..], heaps[1..]);
      }
    }
  }

  /** In a pool that is laid out the condition comes down to its last element and its first. */
  lemma OverwritesIsSpecialCase(p: Pool, n: nat, heap: Heap)
    requires NearLayout(p) && NearFresh(p, n, heap)
    ensures Overwrites(p, n) <==> GivesAwayLive(p, n)
  {
    LaidOutIsSpread(p);
    DisjointUnlessOverwrites(p, n, heap);
    OverlapsIffGivesAwayLive(p, n, heap);
  }

  // ---------------------------------------------------------------- a run that fails

  const FOUR := [Take(0), Drop(0), Take(0), Take(0)]

  lemma FourOps(heap: Heap, p: Pool, q: Pool, r: Pool, s: Pool, t: Pool)
    requires NearFresh(p, 0, heap) && q == Allocate(p, 0, heap) && q.live != []
    requires r == Release(q, 0)
    requires NearFresh(r, 0, heap) && s == Allocate(r, 0, heap)
    requires NearFresh(s, 0, heap) && t == Allocate(s, 0, heap)
    ensures NearRuns(p, FOUR, [heap, heap, heap, heap]) && NearRun(p, FOUR, [heap, heap, heap, heap]) == t
  {
    var heaps := [heap, heap, heap, heap];
    assert FOUR[1..] == [Drop(0), Take(0), Take(0)] && FOUR[1..][1..] == [Take(0), Take(0)];
    assert FOUR[1..][1..][1..] == [Take(0)] && FOUR[1..][1..][1..][1..] == [];
    assert NearRuns(t, [], heaps[1..][1..][1..][1..]);
    assert NearRuns(s, [Take(0)], heaps[1..][1..][1..]);
    assert NearRuns(r, [Take(0), Take(0)], heaps[1..][1..]);
    assert NearRuns(q, FOUR[1..], heaps[1..]);
  }

  /** The first element of the block is live, and behind it one that ends where the block begins. */
  const Fatal := Pool(2 * HEADER, HEADER, HEADER + 1, [Element(HEADER + 1, 0, HEADER), Element(1, 0, 2 * HEADER)])

  lemma FatalOverwrites(heap: Heap)
    ensures NearLayout(Fatal) && Overwrites(Fatal, 0)
    ensures !Disjoint(Fatal.live[0], Allocate(Fatal, 0, heap).Last())
  {
    assert Fatal.live == [Fatal.live[0], Fatal.live[1]];
  }

  /** A heap that puts elements right in front of the block. */
  const InFront := Heap(HEADER + 1, 1)

  lemma StepsToFatal(learned: Pool, first: Pool, one: Pool)
    requires learned == Pool(HEADER, 0, 0, []) && first == learned.(live := [Element(1, 0, HEADER)])
    requires one == Pool(HEADER, HEADER, HEADER + 1, [Element(HEADER + 1, 0, HEADER)])
    ensures NearFresh(Empty, 0, InFront) && first == Allocate(Empty, 0, InFront)
    ensures learned == Release(first, 0)
    ensures NearFresh(learned, 0, InFront) && one == Allocate(learned, 0, InFront)
    ensures NearFresh(one, 0, InFront) && Fatal == Allocate(one, 0, InFront)
  {
    assert !Fits(one, 0);
  }

  lemma FatalIsReached()
    ensures NearRuns(Empty, FOUR, [InFront, InFront, InFront, InFront])
    ensures NearRun(Empty, FOUR, [InFront, InFront, InFront, InFront]) == Fatal
  {
    var learned := Pool(HEADER, 0, 0, []);
    var first := learned.(live := [Element(1, 0, HEADER)]);
    var one := Pool(HEADER, HEADER, HEADER + 1, [Element(HEADER + 1, 0, HEADER)]);
    StepsToFatal(learned, first, one);
    FourOps(InFront, Empty, first, learned, one, Fatal);
  }

  /** And a run on a fresh pool gets there: the learned block lies right behind a heap element, and
      the next allocation overwrites a live one wherever the heap would have put it. */
  lemma OverwriteIsReachable()
    ensures var heaps := [InFront, InFront, InFront, InFront];
            && NearRuns(Empty, FOUR, heaps)
            && var p := NearRun(Empty, FOUR, heaps);
               NearLayout(p) && Overwrites(p, 0) && forall h :: !Disjoint(p.live[0], Allocate(p, 0, h).Last())
  {
    FatalIsReached();
    forall h ensures !Disjoint(Fatal.live[0], Allocate(Fatal, 0, h).Last()) {
      FatalOverwrites(h);
    }
    FatalOverwrites(InFront);
  }
}
