/** No stall of the pipelined HTTP session: what is queued can always be sent. */
module HttpDrain {
  import opened HttpPipeline

  /** How many responses go out before the connection closes, that which asks for it included. */
  function UntilClose(items: seq<Response>): (m: nat)
    ensures m <= |items|
  {
    if items == [] then 0 else if items[0].needEof then 1 else 1 + UntilClose(items[1..])
  }

  predicate AsksToClose(items: seq<Response>) { exists i :: 0 <= i < |items| && items[i].needEof }

  lemma AsksToCloseTail(items: seq<Response>)
    requires items != [] && !items[0].needEof
    ensures AsksToClose(items) <==> AsksToClose(items[1..])
  {
    assert forall i | 1 <= i < |items| :: items[i] == items[1..][i - 1];
    assert forall i | 0 <= i < |items[1..]| :: items[1..][i] == items[i + 1];
  }

  function Writes(n: nat): seq<Event> {
    if n == 0 then [] else [WriteDone(0, Written)] + Writes(n - 1)
  }

  /** `q` is what becomes of `s` when its queue is written as far as it goes. */
  predicate Drained(s: Session, q: Session) {
    && s.written + UntilClose(s.items) <= |s.submitted|
    && q.submitted == s.submitted
    && q.started == s.submitted[..s.written + UntilClose(s.items)]
    && if AsksToClose(s.items) then q.writeEnded else q.items == [] && q.started == s.submitted && !q.writeEnded
  }

  lemma WriteNext(s: Session)
    requires Inv(s) && !s.writeEnded && s.items != []
    ensures CanHappen(s, WriteDone(0, Written))
    ensures var q := Step(s, WriteDone(0, Written));
            && Inv(q) && q.submitted == s.submitted && q.writeEnded == s.items[0].needEof
            && if s.items[0].needEof then q.started == s.started
               else q.items == s.items[1..] && q.written == s.written + 1
  {
    WriteDoneStep(s, 0, Written);
    WriteDoneKeepsInv(s, 0, Written);
  }

  lemma DrainedBefore(s: Session, q: Session, t: Session)
    requires s.items != [] && !s.items[0].needEof && q.items == s.items[1..]
    requires q.written == s.written + 1 && q.submitted == s.submitted && Drained(q, t)
    ensures Drained(s, t)
  {
    AsksToCloseTail(s.items);
  }

  /** Nothing is queued, or the front response is the last that goes out. */
  lemma DrainedAtEnd(s: Session, q: Session)
    requires Inv(s) && !s.writeEnded && q.submitted == s.submitted && q.started == s.started
    requires if s.items == [] then q == s else s.items[0].needEof && q.writeEnded
    ensures Drained(s, q)
  {
  }

  lemma WritesNext(s: Session, n: nat)
    requires CanHappen(s, WriteDone(0, Written)) && Runs(Step(s, WriteDone(0, Written)), Writes(n))
    ensures Runs(s, Writes(n + 1)) && Run(s, Writes(n + 1)) == Run(Step(s, WriteDone(0, Written)), Writes(n))
  {
    assert Writes(n + 1)[1..] == Writes(n);
  }

  lemma {:induction false} DrainFrom(s: Session)
    requires Inv(s) && !s.writeEnded
    ensures Runs(s, Writes(UntilClose(s.items))) && Drained(s, Run(s, Writes(UntilClose(s.items))))
    decreases |s.items|
  {
    if s.items == [] {
      DrainedAtEnd(s, s);
    } else {
      var q := Step(s, WriteDone(0, Written));
      WriteNext(s);
      if s.items[0].needEof {
        WritesNext(s, 0);
        DrainedAtEnd(s, q);
      } else {
        DrainFrom(q);
        WritesNext(s, UntilClose(q.items));
        DrainedBefore(s, q, Run(q, Writes(UntilClose(q.items))));
      }
    }
  }

  /** No stall: in every reachable state in which writing goes on, successful writes alone send all
      that was submitted, or all up to the first response after which the connection closes. */
  lemma QueueDrains(now: int, events: seq<Event>)
    requires Runs(Start(now), events) && !Run(Start(now), events).writeEnded
    ensures var s := Run(Start(now), events);
            var writes := Writes(UntilClose(s.items));
            Runs(s, writes) && Drained(s, Run(s, writes))
  {
    RunKeepsInv(Start(now), events);
    DrainFrom(Run(Start(now), events));
  }
}
