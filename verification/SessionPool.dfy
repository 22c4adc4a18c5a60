/** The recycling session allocator of example/common/session_alloc.hpp, on values.

    A pool owns one block `buf` that it fills from the front; requests that do not fit go to
    the heap.  Every live allocation is an `Element` on one list, in order of allocation, and
    may be released in any order.  Addresses are integers and the null pointer is 0. */
module SessionPool {

  type Positive = x: int | 0 < x witness 1

  /** sizeof(element): the header written in place before the octets of every allocation. */
  const HEADER: Positive

  function Max(a: int, b: int): int { if a < b then b else a }

  /** A header in memory, together with the address at which it lies. */
  datatype Element = Element(at: int, size: nat, used: nat) {
    function Data(): int { at + HEADER }
    function End(): int { at + HEADER + size }
  }

  datatype Pool = Pool(high: nat, size: nat, buf: int, live: seq<Element>) {
    function Last(): Element
      requires live != []
    {
      live[|live| - 1]
    }
  }

  const Empty := Pool(0, 0, 0, [])

  /** What the heap answers during one call: the address of a new `buf`, and of a new element. */
  datatype Heap = Heap(buf: int, block: int)

  // ---------------------------------------------------------------- the two operations

  /** An idle pool whose block is smaller than the high-water mark replaces the block. */
  predicate Regrows(p: Pool) { p.live == [] && p.size < p.high }

  function Regrow(p: Pool, buf: int): Pool {
    if Regrows(p) then Pool(p.high, p.high, buf, []) else p
  }

  function Position(p: Pool): int { if p.live == [] then p.buf else p.Last().End() }

  function UsedBy(p: Pool, n: nat): nat {
    HEADER + n + if p.buf != 0 && p.live != [] then p.Last().used else 0
  }

  /** The test that sends a request to the block rather than to the heap. */
  predicate Fits(p: Pool, n: nat) {
    p.buf != 0 && p.buf <= Position(p) && Position(p) + HEADER + n <= p.buf + p.size
  }

  function NewElement(p: Pool, n: nat, block: int): Element {
    Element(if Fits(p, n) then Position(p) else block, n, UsedBy(p, n))
  }

  function Allocate(p: Pool, n: nat, heap: Heap): Pool {
    var g := Regrow(p, heap.buf);
    var e := NewElement(g, n, heap.block);
    Pool(Max(g.high, e.used), g.size, g.buf, g.live + [e])
  }

  /** The address test of `dealloc`: false sends the element to the heap. */
  predicate InBlock(p: Pool, e: Element) { e.End() <= p.buf + p.size && p.buf <= e.at }

  function Release(p: Pool, i: nat): Pool
    requires i < |p.live|
  {
    p.(live := p.live[..i] + p.live[i + 1..])
  }

  // ---------------------------------------------------------------- the layout invariant

  predicate Disjoint(d: Element, e: Element) { d.End() <= e.at || e.End() <= d.at }

  /** No octet of `e` lies in the block, and `e` does not end exactly where the block begins. */
  predicate Apart(p: Pool, e: Element) { e.End() < p.buf || p.buf + p.size <= e.at }

  predicate Placed(p: Pool, e: Element) {
    && 0 < e.at
    && HEADER + e.size <= e.used <= p.high
    && (p.buf == 0 ==> e.used == HEADER + e.size)
    && if InBlock(p, e) then p.buf != 0 && e.used == e.End() - p.buf else Apart(p, e)
  }

  /** `d` was allocated before `e`. */
  predicate Ordered(p: Pool, d: Element, e: Element) {
    && Disjoint(d, e)
    && (InBlock(p, e) ==> InBlock(p, d) && d.End() <= e.at)
    && (p.buf != 0 ==> d.used + HEADER + e.size <= e.used)
  }

  predicate Layout(p: Pool) {
    && p.size <= p.high
    && 0 <= p.buf
    && (p.buf == 0 <==> p.size == 0)
    && (forall i {:trigger Placed(p, p.live[i])} | 0 <= i < |p.live| :: Placed(p, p.live[i]))
    && (forall i, j {:trigger Ordered(p, p.live[i], p.live[j])} | 0 <= i < j < |p.live| ::
          Ordered(p, p.live[i], p.live[j]))
  }

  /** A new block is not at the null address; a new element overlaps nothing live and does not
      end exactly where the block begins.  Nothing is asked of an answer that is not used. */
  predicate FreshFor(p: Pool, n: nat, heap: Heap) {
    var g := Regrow(p, heap.buf);
    var e := Element(heap.block, n, 0);
    && (Regrows(p) ==> 0 < heap.buf)
    && (!Fits(g, n) ==> 0 < heap.block && Apart(g, e) && forall i | 0 <= i < |p.live| :: Disjoint(p.live[i], e))
  }

  /** A request that fits is placed right behind an element of the block, or at its start. */
  lemma FitsBehindBlockElement(p: Pool, n: nat)
    requires Layout(p) && Fits(p, n)
    ensures p.live != [] ==> InBlock(p, p.Last()) && p.Last().used == Position(p) - p.buf
    ensures UsedBy(p, n) == Position(p) + HEADER + n - p.buf
  {
    if p.live != [] {
      assert Placed(p, p.live[|p.live| - 1]);
    }
  }

  lemma NewElementIsPlaced(p: Pool, n: nat, heap: Heap)
    requires Layout(p) && !Regrows(p) && FreshFor(p, n, heap)
    ensures var e := NewElement(p, n, heap.block);
            && Placed(p.(high := Max(p.high, e.used)), e)
            && forall i | 0 <= i < |p.live| :: Ordered(p, p.live[i], e)
  {
    var e := NewElement(p, n, heap.block);
    if p.live != [] {
      assert Placed(p, p.live[|p.live| - 1]);
    }
    if Fits(p, n) {
      FitsBehindBlockElement(p, n);
    }
    forall i | 0 <= i < |p.live| ensures Ordered(p, p.live[i], e) {
      assert Placed(p, p.live[i]);
      if i < |p.live| - 1 {
        assert Ordered(p, p.live[i], p.live[|p.live| - 1]);
      }
    }
  }

  /** There is room for `n` octets right behind the last element, if that lies in the block, or at the
      start of the block if nothing is live. */
  predicate HasRoom(buf: int, size: nat, live: seq<Element>, n: nat) {
    if live == [] then buf != 0 && HEADER + n <= size
    else
      var last := live[|live| - 1];
      var end := last.at + HEADER + last.size;
      buf != 0 && buf <= last.at && end <= buf + size && end + HEADER + n <= buf + size
  }

  /** Where an allocation goes, and all that it changes: an idle pool whose block is smaller than the
      mark gets a new one of that size; the element goes behind the last one, or to the start of the
      block, if and only if there is room; otherwise it goes to the heap. */
  lemma AllocateMeaning(p: Pool, n: nat, heap: Heap)
    requires Layout(p) && (p.live == [] && p.size < p.high ==> 0 < heap.buf)
    ensures var regrows := p.live == [] && p.size < p.high;
            var size, buf := if regrows then p.high else p.size, if regrows then heap.buf else p.buf;
            var end := if p.live == [] then buf else p.Last().at + HEADER + p.Last().size;
            var room := HasRoom(buf, size, p.live, n);
            var used := HEADER + n + if buf != 0 && p.live != [] then p.Last().used else 0;
            && Allocate(p, n, heap) == Pool(if used > p.high then used else p.high, size, buf,
                                            p.live + [Element(if room then end else heap.block, n, used)])
            && (Regrows(p) <==> regrows)
            && (Fits(Regrow(p, heap.buf), n) <==> room)
  {
    if p.live != [] {
      assert Placed(p, p.live[|p.live| - 1]);
    }
  }

  lemma RegrowKeepsLayout(p: Pool, buf: int)
    requires Layout(p) && (Regrows(p) ==> 0 < buf)
    ensures Layout(Regrow(p, buf)) && !Regrows(Regrow(p, buf)) && Regrow(p, buf).live == p.live
  {
  }

  /** Raising the high-water mark and appending an element that comes after all others. */
  lemma AppendKeepsLayout(p: Pool, high: nat, e: Element)
    requires Layout(p) && p.high <= high && Placed(p.(high := high), e)
    requires forall i | 0 <= i < |p.live| :: Ordered(p, p.live[i], e)
    ensures Layout(p.(high := high, live := p.live + [e]))
  {
    var q := p.(high := high, live := p.live + [e]);
    forall i | 0 <= i < |q.live| ensures Placed(q, q.live[i]) {
      if i < |p.live| {
        assert Placed(p, p.live[i]);
      }
    }
    forall i, j | 0 <= i < j < |q.live| ensures Ordered(q, q.live[i], q.live[j]) {
      if j < |p.live| {
        assert Ordered(p, p.live[i], p.live[j]);
      } else {
        assert Ordered(p, p.live[i], e);
      }
    }
  }

  /** Every allocation keeps the layout, overlaps no live element and moves none of them. */
  lemma AllocateKeepsLayout(p: Pool, n: nat, heap: Heap)
    requires Layout(p) && FreshFor(p, n, heap)
    ensures Layout(Allocate(p, n, heap))
    ensures var q := Allocate(p, n, heap);
            && |q.live| == |p.live| + 1 && q.live[..|p.live|] == p.live && q.Last().size == n
            && forall i | 0 <= i < |p.live| :: Disjoint(p.live[i], q.Last())
  {
    var g := Regrow(p, heap.buf);
    RegrowKeepsLayout(p, heap.buf);
    NewElementIsPlaced(g, n, heap);
    var e := NewElement(g, n, heap.block);
    AppendKeepsLayout(g, Max(g.high, e.used), e);
    forall i | 0 <= i < |p.live| ensures Disjoint(p.live[i], e) {
      assert Ordered(g, g.live[i], e);
    }
  }

  lemma ReleaseKeepsLayout(p: Pool, i: nat)
    requires Layout(p) && i < |p.live|
    ensures Layout(Release(p, i))
  {
    var q := Release(p, i);
    forall j | 0 <= j < |q.live| ensures Placed(q, q.live[j]) {
      assert q.live[j] == p.live[if j < i then j else j + 1];
      assert Placed(p, q.live[j]);
    }
    forall j, k | 0 <= j < k < |q.live| ensures Ordered(q, q.live[j], q.live[k]) {
      assert Ordered(p, p.live[if j < i then j else j + 1], p.live[if k < i then k else k + 1]);
    }
  }
}
