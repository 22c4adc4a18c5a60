/** The convergence of `SessionTraces` for the allocator itself and the heap it really uses. */
module SessionReplay {
  import opened SessionPool
  import opened SessionTraces
  import opened SessionAlloc

  /** Carries out a trace; the heap is asked once for every overflow and every new block. */
  method Perform(pool: PoolT, trace: seq<Op>) returns (ghost heaps: seq<Heap>)
    requires pool.Valid() && WellFormed(|pool.list|, trace)
    modifies pool, pool.heap
    ensures pool.Valid() && pool.Foreign() == old(pool.Foreign())
    ensures Runs(old(pool.View()), trace, heaps) && pool.View() == Run(old(pool.View()), trace, heaps)
    ensures pool.heap.news == old(pool.heap.news) + Overflows(old(pool.View()), trace, heaps)
                              + Regrowths(old(pool.View()), trace, heaps)
    decreases |trace|
  {
    if trace == [] {
      return [];
    }
    ghost var before := pool.View();
    ghost var answer := Heap(0, 0);
    match trace[0] {
      case Take(n) =>
        var pv;
        pv, answer := pool.Alloc(n);
      case Drop(i) =>
        pool.Dealloc(pool.list[i].Data());
    }
    assert pool.View() == Step(before, trace[0], answer);
    ghost var rest := Perform(pool, trace[1..]);
    heaps := [answer] + rest;
    assert heaps[1..] == rest;
  }

  /** Replays a trace `k` times on a pool with nothing live, and returns how often each replay asked
      the heap for memory: at most once in the third, and never after that. */
  method Replay(pool: PoolT, trace: seq<Op>, k: nat) returns (ghost news: seq<nat>)
    requires pool.Valid() && pool.list == [] && Balanced(trace) && Takes(trace)
    modifies pool, pool.heap
    ensures pool.Valid() && pool.list == [] && pool.Foreign() == old(pool.Foreign())
    ensures |news| == k && (k >= 3 ==> news[2] <= 1) && forall i | 3 <= i < k :: news[i] == 0
  {
    news := [];
    var i := 0;
    while i < k
      invariant 0 <= i <= k && pool.Valid() && pool.Foreign() == old(pool.Foreign())
      invariant Learned(i, pool.View(), trace)
      invariant |news| == i && (i >= 3 ==> news[2] <= 1) && forall j | 3 <= j < i :: news[j] == 0
    {
      ghost var before, calls := pool.View(), pool.heap.news;
      ghost var heaps := Perform(pool, trace);
      assert && Learned(i + 1, pool.View(), trace)
             && (i >= 2 ==> Overflows(before, trace, heaps) == 0 && Regrowths(before, trace, heaps) <= 1)
             && (i >= 3 ==> Regrowths(before, trace, heaps) == 0) by {
        ReplayLearns(i, before, trace, heaps);
      }
      news := news + [pool.heap.news - calls];
      i := i + 1;
    }
  }
}
