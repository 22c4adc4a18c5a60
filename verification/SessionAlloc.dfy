/** `session_alloc_base::pool_t` as it is written: fields updated in place, headers constructed
    at the end of the block or on the heap, and a heap shared with the rest of the program. */
module SessionAlloc {
  import opened SessionPool

  /** operator new[] and operator delete[].  Callers know of `New` only that the range it returns
      neither overlaps nor touches another one, as when blocks carry a word of bookkeeping. */
  class FreeStore {
    var blocks: map<int, nat>
    var brk: int
    /** How often `New` was called. */
    ghost var news: nat

    ghost predicate Valid()
      reads this
    {
      0 < brk && forall a | a in blocks :: 0 < a && a + blocks[a] < brk
    }

    constructor ()
      ensures Valid() && blocks == map[] && news == 0
    {
      blocks, brk, news := map[], 1, 0;
    }

    method New(k: nat) returns (a: int)
      requires Valid()
      modifies this
      ensures Valid() && 0 < a && a !in old(blocks) && blocks == old(blocks)[a := k] && news == old(news) + 1
      ensures forall b | b in old(blocks) :: a + k < b || b + old(blocks)[b] < a
    {
      a := brk;
      blocks, brk, news := blocks[a := k], brk + k + 1, news + 1;
    }

    /** Deleting what `New` did not return is undefined, so it is required not to happen. */
    method Delete(a: int)
      requires Valid() && a in blocks
      modifies this
      ensures Valid() && blocks == old(blocks) - {a} && news == old(news)
    {
      blocks := blocks - {a};
    }
  }

  /** The heap blocks that a pool is responsible for. */
  ghost function Owned(p: Pool): set<int> {
    (if p.buf == 0 then {} else {p.buf}) + set e | e in p.live && !InBlock(p, e) :: e.at
  }

  ghost predicate OwnsIn(p: Pool, blocks: map<int, nat>) {
    && (p.buf != 0 ==> p.buf in blocks && blocks[p.buf] == p.size)
    && (forall i | 0 <= i < |p.live| && !InBlock(p, p.live[i]) ::
          && p.live[i].at != p.buf
          && p.live[i].at in blocks && blocks[p.live[i].at] == HEADER + p.live[i].size)
  }

  /** A range that the heap just returned meets neither the block nor any live element. */
  lemma HeapElementIsFresh(p: Pool, e: Element, blocks: map<int, nat>)
    requires Layout(p) && 0 < e.at && e.at in blocks && blocks[e.at] == HEADER + e.size
    requires OwnsIn(p, blocks - {e.at})
    requires forall b | b in blocks && b != e.at :: e.End() < b || b + blocks[b] < e.at
    ensures Apart(p, e) && forall i | 0 <= i < |p.live| :: Disjoint(p.live[i], e)
    ensures !InBlock(p, e) && e.at != p.buf
  {
    assert p.buf != 0 ==> p.buf in blocks - {e.at};
    forall i | 0 <= i < |p.live| ensures Disjoint(p.live[i], e) {
      assert Placed(p, p.live[i]);
      if !InBlock(p, p.live[i]) {
        assert p.live[i].at in blocks - {e.at};
      }
    }
  }

  /** What a pool owns after appending an element: that element too if it lies outside. */
  lemma AppendOwns(p: Pool, e: Element, high: nat, blocks: map<int, nat>)
    requires OwnsIn(p, blocks)
    requires !InBlock(p, e) ==> e.at != p.buf && e.at in blocks && blocks[e.at] == HEADER + e.size
    ensures OwnsIn(p.(high := high, live := p.live + [e]), blocks)
    ensures Owned(p.(high := high, live := p.live + [e])) == Owned(p) + if InBlock(p, e) then {} else {e.at}
  {
    var q := p.(high := high, live := p.live + [e]);
    assert forall d :: d in q.live <==> d in p.live || d == e;
    forall i | 0 <= i < |q.live| && !InBlock(q, q.live[i])
      ensures q.live[i].at != q.buf && q.live[i].at in blocks && blocks[q.live[i].at] == HEADER + q.live[i].size
    {
      if i < |p.live| {
        assert !InBlock(p, p.live[i]);
      }
    }
  }

  lemma OneElementPerAddress(p: Pool, i: nat)
    requires Layout(p) && i < |p.live|
    ensures forall j | 0 <= j < |p.live| && j != i :: p.live[j].at != p.live[i].at
  {
    forall j | 0 <= j < |p.live| && j != i ensures p.live[j].at != p.live[i].at {
      if j < i {
        assert Ordered(p, p.live[j], p.live[i]);
      } else {
        assert Ordered(p, p.live[i], p.live[j]);
      }
    }
  }

  lemma BlockStep(p: Pool, n: nat, blocks: map<int, nat>)
    requires Layout(p) && !Regrows(p) && Fits(p, n) && OwnsIn(p, blocks)
    ensures var q := Allocate(p, n, Heap(0, 0)); Layout(q) && OwnsIn(q, blocks) && Owned(q) == Owned(p)
  {
    AllocateKeepsLayout(p, n, Heap(0, 0));
    var e := NewElement(p, n, 0);
    AppendOwns(p, e, Max(p.high, e.used), blocks);
  }

  lemma HeapBlockIsFresh(p: Pool, n: nat, block: int, blocks: map<int, nat>)
    requires Layout(p) && !Regrows(p) && !Fits(p, n) && OwnsIn(p, blocks)
    requires 0 < block && block !in blocks
    requires forall b | b in blocks :: block + HEADER + n < b || b + blocks[b] < block
    ensures FreshFor(p, n, Heap(0, block))
    ensures !InBlock(p, NewElement(p, n, block)) && block != p.buf
  {
    var d := Element(block, n, 0);
    var more := blocks[block := HEADER + n];
    assert more - {block} == blocks;
    HeapElementIsFresh(p, d, more);
  }

  lemma MoreStillOwned(p: Pool, block: int, k: nat, blocks: map<int, nat>)
    requires OwnsIn(p, blocks) && block !in blocks
    ensures OwnsIn(p, blocks[block := k])
    ensures blocks[block := k] - (Owned(p) + {block}) == blocks - Owned(p)
  {
  }

  lemma HeapStep(p: Pool, n: nat, block: int, blocks: map<int, nat>)
    requires Layout(p) && !Regrows(p) && !Fits(p, n) && OwnsIn(p, blocks)
    requires 0 < block && block !in blocks
    requires forall b | b in blocks :: block + HEADER + n < b || b + blocks[b] < block
    ensures var q := Allocate(p, n, Heap(0, block));
            && FreshFor(p, n, Heap(0, block)) && Layout(q)
            && OwnsIn(q, blocks[block := HEADER + n])
            && blocks[block := HEADER + n] - Owned(q) == blocks - Owned(p)
  {
    var e := NewElement(p, n, block);
    HeapBlockIsFresh(p, n, block, blocks);
    AllocateKeepsLayout(p, n, Heap(0, block));
    MoreStillOwned(p, block, HEADER + n, blocks);
    AppendOwns(p, e, Max(p.high, e.used), blocks[block := HEADER + n]);
  }

  lemma AllocateAfterRegrow(p: Pool, n: nat, buf: int, block: int)
    requires Regrows(p) ==> 0 < buf
    requires !Fits(Regrow(p, buf), n) ==> FreshFor(Regrow(p, buf), n, Heap(0, block))
    ensures FreshFor(p, n, Heap(buf, block))
    ensures Allocate(p, n, Heap(buf, block)) == Allocate(Regrow(p, buf), n, Heap(0, block))
  {
  }

  /** The elements that a release leaves are the others, which lie elsewhere. */
  lemma ReleaseLeavesOthers(p: Pool, i: nat)
    requires Layout(p) && i < |p.live|
    ensures forall d :: d in Release(p, i).live <==> d in p.live && d.at != p.live[i].at
  {
    var q := Release(p, i);
    forall j | 0 <= j < |q.live| ensures q.live[j] in p.live && q.live[j].at != p.live[i].at {
      var k := if j < i then j else j + 1;
      assert q.live[j] == p.live[k];
      if k < i {
        assert Ordered(p, p.live[k], p.live[i]);
      } else {
        assert Ordered(p, p.live[i], p.live[k]);
      }
    }
    forall d | d in p.live && d.at != p.live[i].at ensures d in q.live {
      var k :| 0 <= k < |p.live| && p.live[k] == d;
      assert q.live[if k < i then k else k - 1] == d;
    }
  }

  /** Releasing an element takes exactly its own heap block, if any, from what the pool owns. */
  lemma ReleaseOwns(p: Pool, i: nat, blocks: map<int, nat>)
    requires Layout(p) && OwnsIn(p, blocks) && i < |p.live|
    ensures var e := p.live[i]; var q := Release(p, i);
            && (!InBlock(p, e) ==> e.at in Owned(p) && Owned(q) == Owned(p) - {e.at} && OwnsIn(q, blocks - {e.at}))
            && (InBlock(p, e) ==> Owned(q) == Owned(p) && OwnsIn(q, blocks))
  {
    ReleaseLeavesOthers(p, i);
    var e := p.live[i];
    var q := Release(p, i);
    assert forall j | 0 <= j < |q.live| :: q.live[j] in q.live;
    if InBlock(p, e) {
      assert forall d | d in p.live && !InBlock(p, d) :: d.at != e.at by {
        ApartFromBlock(p, e);
      }
    }
  }

  lemma ApartFromBlock(p: Pool, e: Element)
    requires Layout(p) && e in p.live && InBlock(p, e)
    ensures forall d | d in p.live && !InBlock(p, d) :: d.at != e.at
  {
    forall d | d in p.live && !InBlock(p, d) ensures d.at != e.at {
      var k :| 0 <= k < |p.live| && p.live[k] == d;
      assert Placed(p, p.live[k]);
      assert HEADER > 0;
    }
  }

  class PoolT {
    const heap: FreeStore
    var high: nat
    var size: nat
    var buf: int
    var list: seq<Element>

    ghost function View(): Pool
      reads this
    {
      Pool(high, size, buf, list)
    }

    ghost predicate Valid()
      reads this, heap
    {
      heap.Valid() && Layout(View()) && OwnsIn(View(), heap.blocks)
    }

    /** The rest of the heap: what belongs to everybody else. */
    ghost function Foreign(): map<int, nat>
      reads this, heap
    {
      heap.blocks - Owned(View())
    }

    constructor (heap: FreeStore)
      requires heap.Valid()
      ensures Valid() && View() == Empty && this.heap == heap && Foreign() == heap.blocks
    {
      this.heap := heap;
      high, size, buf, list := 0, 0, 0, [];
    }

    /** The first step of `Alloc`: an idle pool takes a block of the size of its mark. */
    method Prepare()
      requires Valid()
      modifies this, heap
      ensures Valid() && Foreign() == old(Foreign())
      ensures View() == Regrow(old(View()), buf) && (Regrows(old(View())) ==> 0 < buf) && !Regrows(View())
      ensures heap.news == old(heap.news) + if Regrows(old(View())) then 1 else 0
    {
      if list == [] && size < high {
        if buf != 0 {
          heap.Delete(buf);
        }
        buf := heap.New(high);
        size := high;
      }
    }

    /** Tries to place a request in the block, right behind the last element. */
    method PlaceInBlock(n: nat) returns (done: bool)
      requires Valid() && !Regrows(View())
      modifies this
      ensures Valid() && Owned(View()) == Owned(old(View()))
      ensures done == Fits(old(View()), n)
      ensures View() == if done then Allocate(old(View()), n, Heap(0, 0)) else old(View())
    {
      if buf != 0 {
        var end, used;
        if list == [] {
          end, used := buf, HEADER + n;
        } else {
          end, used := list[|list| - 1].End(), list[|list| - 1].used + HEADER + n;
        }
        if end >= buf && end + HEADER + n <= buf + size {
          var e := Element(end, n, used);
          BlockStep(View(), n, heap.blocks);
          ghost var after := Allocate(View(), n, Heap(0, 0));
          list := list + [e];
          high := Max(high, used);
          assert View() == after;
          return true;
        }
      }
      return false;
    }

    /** Serves a request that does not fit from the heap. */
    method PlaceOnHeap(n: nat) returns (ghost block: int)
      requires Valid() && !Regrows(View()) && !Fits(View(), n)
      modifies this, heap
      ensures Valid() && Foreign() == old(Foreign())
      ensures FreshFor(old(View()), n, Heap(0, block)) && View() == Allocate(old(View()), n, Heap(0, block))
      ensures heap.news == old(heap.news) + 1
    {
      ghost var before := View();
      var used := HEADER + n + if buf != 0 && list != [] then list[|list| - 1].used else 0;
      var at := heap.New(HEADER + n);
      block := at;
      ghost var after := Allocate(before, n, Heap(0, at));
      assert && FreshFor(before, n, Heap(0, at)) && Layout(after) && OwnsIn(after, heap.blocks)
             && heap.blocks - Owned(after) == old(heap.blocks) - Owned(before) by {
        HeapStep(before, n, at, old(heap.blocks));
      }
      var e := Element(at, n, used);
      assert after == Pool(Max(high, used), size, buf, list + [e]);
      list := list + [e];
      high := Max(high, used);
      assert View() == after;
    }

    /** Asks the heap for a block if it regrows, and for an element if the request does not fit. */
    method Alloc(n: nat) returns (pv: int, ghost answers: Heap)
      requires Valid()
      modifies this, heap
      ensures Valid() && Foreign() == old(Foreign())
      ensures FreshFor(old(View()), n, answers) && View() == Allocate(old(View()), n, answers)
      ensures list != [] && pv == View().Last().Data()
      ensures if old(list) == [] && old(size) < old(high) then size == old(high) && buf == answers.buf && 0 < buf
              else size == old(size) && buf == old(buf)
      ensures var end := if old(list) == [] then buf else old(list)[|old(list)| - 1].End();
              pv == HEADER + if HasRoom(buf, size, old(list), n) then end else answers.block
      ensures heap.news == old(heap.news) + (if old(list) == [] && old(size) < old(high) then 1 else 0)
                           + if HasRoom(buf, size, old(list), n) then 0 else 1
      ensures heap.news == old(heap.news) + (if Regrows(old(View())) then 1 else 0)
                           + if Fits(Regrow(old(View()), answers.buf), n) then 0 else 1
    {
      ghost var before := View();
      Prepare();
      ghost var block := 0;
      var done := PlaceInBlock(n);
      if !done {
        block := PlaceOnHeap(n);
      }
      AllocateAfterRegrow(before, n, buf, block);
      AllocateMeaning(before, n, Heap(buf, block));
      return list[|list| - 1].Data(), Heap(buf, block);
    }

    /** The address test alone decides whether memory goes back to the heap, and whenever it does
        the address is one that the heap returned. */
    method Dealloc(pv: int)
      requires Valid() && exists i :: 0 <= i < |list| && list[i].Data() == pv
      modifies this, heap
      ensures Valid() && Foreign() == old(Foreign()) && heap.news == old(heap.news)
      ensures forall i | 0 <= i < |old(list)| && old(list)[i].Data() == pv :: View() == Release(old(View()), i)
    {
      ghost var before := View();
      ghost var others := Foreign();
      var i :| 0 <= i < |list| && list[i].Data() == pv;
      var e := list[i];
      ReleaseKeepsLayout(before, i);
      ReleaseOwns(before, i, heap.blocks);
      OneElementPerAddress(before, i);
      list := list[..i] + list[i + 1..];
      if e.End() > buf + size || e.at < buf {
        heap.Delete(e.at);
      }
      assert View() == Release(before, i);
      assert Foreign() == others;
    }

    /** Leaves the heap as it was before the pool existed. */
    method Destroy()
      requires Valid() && list == []
      modifies heap
      ensures heap.Valid() && heap.blocks == old(Foreign())
    {
      if buf != 0 {
        heap.Delete(buf);
      }
    }
  }
}
