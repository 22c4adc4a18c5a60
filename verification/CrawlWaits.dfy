/** The crawl with the timer of one worker in full detail is a crawl as `Crawl` has it: of that timer
    nothing matters but whether a wait is pending and whether the deadline was ever set. */
module CrawlWaits {
  import opened SteadyTimer
  import C = Crawl
  import T = CrawlTimer
  import CrawlReports
  import CrawlProgram

  const TIMEOUT := 5 * SECOND

  /** A crawl together with the timer of its worker `i`, which is at rest before that starts. */
  datatype Detail = Detail(crawl: C.State, chain: T.Chain)

  /** An event of the crawl, or one of the timer of worker `i`.  The deadline is set and the wait
      cancelled by claims alone. */
  datatype Event = Crawls(c: C.Event) | Times(t: T.Event)

  predicate CanHappen(d: Detail, i: nat, e: Event) {
    match e
    case Crawls(c) => C.CanHappen(d.crawl, c) && c != C.TimerLapses(i) && c != C.TimerFails(i)
    case Times(t) => i < |d.crawl.workers| && !t.Arms? && !t.Cancels? && T.CanHappen(d.chain, t)
  }

  /** What the handlers of worker `i` do to its timer: `run` starts it, a claim sets its deadline or,
      when no host is left, cancels one wait. */
  function ChainAfter(d: Detail, i: nat, c: C.Event): T.Chain {
    if c == C.Starts(i) then T.OnTimer(d.chain.(ended := false), Expired)
    else if c == C.Claims(i) then
      T.Step(d.chain, if d.crawl.index < d.crawl.hosts then T.Arms(TIMEOUT) else T.Cancels)
    else d.chain
  }

  /** What `on_timer` does to the crawl: it waits until it ends, and reports a failure. */
  function CrawlAfter(d: Detail, i: nat, t: T.Event): C.State
    requires CanHappen(d, i, Times(t))
  {
    var w := d.crawl.workers[i];
    d.crawl.(workers := d.crawl.workers[i := w.(waiting := !T.Step(d.chain, t).ended)],
             strand := d.crawl.strand + if t == T.Handled(Failed) then [C.TimerFailure] else [])
  }

  function Step(d: Detail, i: nat, e: Event): Detail
    requires CanHappen(d, i, e)
  {
    match e
    case Crawls(c) => Detail(C.Step(d.crawl, c), ChainAfter(d, i, c))
    case Times(t) => Detail(CrawlAfter(d, i, t), T.Step(d.chain, t))
  }

  predicate Runs(d: Detail, i: nat, events: seq<Event>)
    decreases |events|
  {
    events == [] || (CanHappen(d, i, events[0]) && Runs(Step(d, i, events[0]), i, events[1..]))
  }

  function After(d: Detail, i: nat, events: seq<Event>): Detail
    requires Runs(d, i, events)
    decreases |events|
  {
    if events == [] then d else After(Step(d, i, events[0]), i, events[1..])
  }

  function Init(hosts: nat, workers: nat, now: int): Detail {
    Detail(C.Init(hosts, workers), T.Chain(IdleTimer(now), true))
  }

  // ---------------------------------------------------------------- the projection

  /** The two flags of a worker, read off its timer. */
  predicate Shows(w: C.Worker, c: T.Chain) {
    && w.waiting == !c.ended
    && w.armed == c.timer.expiry.At?
    && c.timer.Pending() == (if c.ended then 0 else 1)
    && (w.stage.New? ==> c.ended && !w.armed)
  }

  predicate Linked(d: Detail, i: nat) { i < |d.crawl.workers| && Shows(d.crawl.workers[i], d.chain) }

  /** The events of `Crawl` that one event in detail amounts to: of the timer's own, just its end. */
  function Projected(d: Detail, i: nat, e: Event): seq<C.Event> {
    match e
    case Crawls(c) => [c]
    case Times(t) =>
      if t == T.Handled(Failed) then [C.TimerFails(i)]
      else if t.Handled? && d.chain.timer.Passed() then [C.TimerLapses(i)]
      else []
  }

  lemma TimerEventProjects(d: Detail, i: nat, t: T.Event)
    requires Linked(d, i) && CanHappen(d, i, Times(t))
    ensures Linked(Step(d, i, Times(t)), i)
    ensures var es := Projected(d, i, Times(t));
            if es == [] then CrawlAfter(d, i, t) == d.crawl
            else |es| == 1 && C.CanHappen(d.crawl, es[0]) && CrawlAfter(d, i, t) == C.Step(d.crawl, es[0])
  {
  }

  lemma CrawlEventKeepsLink(d: Detail, i: nat, c: C.Event)
    requires Linked(d, i) && CanHappen(d, i, Crawls(c))
    ensures Linked(Step(d, i, Crawls(c)), i)
  {
  }

  /** One event in detail is at most one event of `Crawl`, and the flags go on to show the timer. */
  lemma StepProjects(d: Detail, i: nat, e: Event)
    requires Linked(d, i) && CanHappen(d, i, e)
    ensures Linked(Step(d, i, e), i)
    ensures C.Runs(d.crawl, Projected(d, i, e)) && C.After(d.crawl, Projected(d, i, e)) == Step(d, i, e).crawl
  {
    match e
    case Crawls(c) =>
      CrawlEventKeepsLink(d, i, c);
      CrawlProgram.OneEvent(d.crawl, c);
    case Times(t) =>
      TimerEventProjects(d, i, t);
      if Projected(d, i, e) != [] {
        CrawlProgram.OneEvent(d.crawl, Projected(d, i, e)[0]);
      }
  }

  function Projection(d: Detail, i: nat, events: seq<Event>): seq<C.Event>
    requires Runs(d, i, events)
    decreases |events|
  {
    if events == [] then [] else Projected(d, i, events[0]) + Projection(Step(d, i, events[0]), i, events[1..])
  }

  lemma {:induction false} RunProjects(d: Detail, i: nat, events: seq<Event>)
    requires Linked(d, i) && Runs(d, i, events)
    ensures Linked(After(d, i, events), i)
    ensures C.Runs(d.crawl, Projection(d, i, events))
    ensures C.After(d.crawl, Projection(d, i, events)) == After(d, i, events).crawl
    decreases |events|
  {
    if events != [] {
      var q := Step(d, i, events[0]);
      StepProjects(d, i, events[0]);
      RunProjects(q, i, events[1..]);
      CrawlReports.JoinRuns(d.crawl, Projected(d, i, events[0]), Projection(q, i, events[1..]));
    }
  }

  /** Every run of a crawl with the timer of a worker in detail is a run of `Crawl` with the same
      effect; and there the wait of the worker can lapse exactly when the timer can end by itself. */
  lemma DetailRefinesCrawl(hosts: nat, workers: nat, now: int, i: nat, events: seq<Event>)
    requires i < workers && Runs(Init(hosts, workers, now), i, events)
    ensures var d := After(Init(hosts, workers, now), i, events);
            var es := Projection(Init(hosts, workers, now), i, events);
            && C.Runs(C.Init(hosts, workers), es) && C.After(C.Init(hosts, workers), es) == d.crawl
            && (C.CanHappen(d.crawl, C.TimerLapses(i)) <==> !d.chain.ended && exists es :: T.CanEnd(d.chain, es))
  {
    var start := Init(hosts, workers, now);
    assert Linked(start, i);
    RunProjects(start, i, events);
    LapseIffCanEnd(After(start, i, events), i);
  }

  lemma LapseIffCanEnd(d: Detail, i: nat)
    requires Linked(d, i)
    ensures C.CanHappen(d.crawl, C.TimerLapses(i)) <==> !d.chain.ended && exists es :: T.CanEnd(d.chain, es)
  {
    if !d.chain.ended {
      T.CanEndIffArmed(d.chain);
    }
  }

  // ---------------------------------------------------------------- the deadline

  /** Told from the events alone: the claims of all workers, and the time since this one got a host. */
  datatype Story = Story(claims: nat, got: bool, idle: nat)

  function Tell(st: Story, hosts: nat, i: nat, e: Event): Story {
    match e
    case Crawls(Claims(j)) =>
      if j == i && st.claims < hosts then Story(st.claims + 1, true, 0) else st.(claims := st.claims + 1)
    case Times(TimePasses(d)) => st.(idle := st.idle + d)
    case _ => st
  }

  function Told(st: Story, hosts: nat, i: nat, events: seq<Event>): Story
    decreases |events|
  {
    if events == [] then st else Told(Tell(st, hosts, i, events[0]), hosts, i, events[1..])
  }

  predicate Matches(d: Detail, st: Story) {
    && d.crawl.index == st.claims
    && d.chain.timer.expiry == if st.got then At(d.chain.timer.now - st.idle + 5 * SECOND) else Never
  }

  lemma {:induction false} RunMatches(d: Detail, st: Story, i: nat, events: seq<Event>)
    requires Linked(d, i) && Runs(d, i, events) && Matches(d, st)
    ensures Linked(After(d, i, events), i)
    ensures Matches(After(d, i, events), Told(st, d.crawl.hosts, i, events))
    decreases |events|
  {
    if events != [] {
      var q := Step(d, i, events[0]);
      StepProjects(d, i, events[0]);
      assert q.crawl.hosts == d.crawl.hosts && Matches(q, Tell(st, d.crawl.hosts, i, events[0]));
      RunMatches(q, Tell(st, d.crawl.hosts, i, events[0]), i, events[1..]);
    }
  }

  /** The timer of a worker ends exactly when a handler of its wait, not having failed, is delivered
      five seconds or more after the worker last got a host; that of a worker without one never does. */
  lemma EndsFiveSecondsAfterHost(hosts: nat, workers: nat, now: int, i: nat, events: seq<Event>, e: Event)
    requires i < workers && Runs(Init(hosts, workers, now), i, events)
    requires var d := After(Init(hosts, workers, now), i, events);
             !d.chain.ended && CanHappen(d, i, e) && e != Times(T.Handled(Failed))
    ensures var d := After(Init(hosts, workers, now), i, events);
            var st := Told(Story(0, false, 0), hosts, i, events);
            Step(d, i, e).chain.ended <==> e.Times? && e.t.Handled? && st.got && st.idle >= 5 * SECOND
  {
    var start := Init(hosts, workers, now);
    assert Linked(start, i);
    RunMatches(start, Story(0, false, 0), i, events);
    StepProjects(After(start, i, events), i, e);
  }
}
