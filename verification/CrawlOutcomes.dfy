/** Every counter of the crawl report, one by one: what it counts are the events of that very kind. */
module CrawlOutcomes {
  import opened Crawl
  import opened CrawlRuns

  /** The counter of an outcome; that of a success is the one of its status code. */
  function CounterOf(t: Tally, k: Kind): nat {
    match k
    case ResolveFailure => t.resolve
    case ConnectFailure => t.connect
    case WriteFailure => t.write
    case ReadFailure => t.read
    case Success(code) => if code in t.codes then t.codes[code] else 0
  }

  function Reports(c: Closure, k: Kind): nat { if c.Outcome? && c.kind == k then 1 else 0 }

  function IsTimerFailure(c: Closure): nat { if c.TimerFailure? then 1 else 0 }

  /** How many posted closures report the outcome. */
  function Posted(strand: seq<Closure>, k: Kind): nat {
    if strand == [] then 0 else Reports(strand[0], k) + Posted(strand[1..], k)
  }

  function PostedTimer(strand: seq<Closure>): nat {
    if strand == [] then 0 else IsTimerFailure(strand[0]) + PostedTimer(strand[1..])
  }

  /** The event is an operation that ends the work on a host in this way: one that fails, or a read
      that completes with the status code. */
  predicate Decides(s: State, e: Event, k: Kind) {
    match e
    case Fails(i) =>
      i < |s.workers| &&
      (match k
       case ResolveFailure => s.workers[i].stage.Resolving?
       case ConnectFailure => s.workers[i].stage.Connecting?
       case WriteFailure => s.workers[i].stage.Writing?
       case ReadFailure => s.workers[i].stage.Reading?
       case Success(_) => false)
    case Succeeds(i, code) => i < |s.workers| && s.workers[i].stage.Reading? && k == Success(code)
    case _ => false
  }

  /** How many events of a run do. */
  function Decisions(s: State, events: seq<Event>, k: Kind): nat
    requires Runs(s, events)
    decreases |events|
  {
    if events == [] then 0
    else (if Decides(s, events[0], k) then 1 else 0) + Decisions(Step(s, events[0]), events[1..], k)
  }

  function TimerFailures(events: seq<Event>): nat {
    if events == [] then 0 else (if events[0].TimerFails? then 1 else 0) + TimerFailures(events[1..])
  }

  lemma {:induction false} PostedConcat(strand: seq<Closure>, more: seq<Closure>, k: Kind)
    ensures Posted(strand + more, k) == Posted(strand, k) + Posted(more, k)
    ensures PostedTimer(strand + more) == PostedTimer(strand) + PostedTimer(more)
  {
    if strand == [] {
      assert strand + more == more;
    } else {
      assert (strand + more)[1..] == strand[1..] + more;
      PostedConcat(strand[1..], more, k);
    }
  }

  /** A closure counts its outcome and no other. */
  lemma ApplyCounts(t: Tally, c: Closure, k: Kind)
    ensures CounterOf(Apply(t, c), k) == CounterOf(t, k) + Reports(c, k)
    ensures Apply(t, c).timer == t.timer + IsTimerFailure(c)
  {
  }

  /** A worker posts the outcome that the event decided and no other. */
  lemma EventPosts(s: State, e: Event, k: Kind)
    requires CanHappen(s, e) && !e.Drains? && !e.Reports?
    ensures Posted(PostedBy(s, e), k) == if Decides(s, e, k) then 1 else 0
    ensures PostedTimer(PostedBy(s, e)) == if e.TimerFails? then 1 else 0
  {
  }

  lemma StepCounts(s: State, e: Event, k: Kind)
    requires CanHappen(s, e)
    ensures var q := Step(s, e);
            && CounterOf(q.tally, k) + Posted(q.strand, k)
               == CounterOf(s.tally, k) + Posted(s.strand, k) + (if Decides(s, e, k) then 1 else 0)
            && q.tally.timer + PostedTimer(q.strand)
               == s.tally.timer + PostedTimer(s.strand) + if e.TimerFails? then 1 else 0
  {
    if e.Drains? {
      ApplyCounts(s.tally, s.strand[0], k);
    } else if !e.Reports? {
      EventPosts(s, e, k);
      PostedConcat(s.strand, PostedBy(s, e), k);
    }
  }

  lemma {:induction false} RunCounts(s: State, events: seq<Event>, k: Kind)
    requires Runs(s, events)
    ensures var t := After(s, events);
            && CounterOf(t.tally, k) + Posted(t.strand, k)
               == CounterOf(s.tally, k) + Posted(s.strand, k) + Decisions(s, events, k)
            && t.tally.timer + PostedTimer(t.strand)
               == s.tally.timer + PostedTimer(s.strand) + TimerFailures(events)
    decreases |events|
  {
    if events != [] {
      StepCounts(s, events[0], k);
      RunCounts(Step(s, events[0]), events[1..], k);
    }
  }

  /** In every interleaving and for every kind of outcome, each status code by itself: its counter and
      the posted closures that report it add up to the events that had this outcome. */
  lemma CountersByKind(hosts: nat, workers: nat, events: seq<Event>, k: Kind)
    requires Runs(Init(hosts, workers), events)
    ensures var t := After(Init(hosts, workers), events);
            && CounterOf(t.tally, k) + Posted(t.strand, k) == Decisions(Init(hosts, workers), events, k)
            && t.tally.timer + PostedTimer(t.strand) == TimerFailures(events)
  {
    RunCounts(Init(hosts, workers), events, k);
  }

  /** So the printed report says how often each outcome occurred. */
  lemma ReportCountsOutcomes(hosts: nat, workers: nat, events: seq<Event>, k: Kind)
    requires 0 < workers && Runs(Init(hosts, workers), events) && After(Init(hosts, workers), events).reported
    ensures CounterOf(After(Init(hosts, workers), events).tally, k) == Decisions(Init(hosts, workers), events, k)
    ensures After(Init(hosts, workers), events).tally.timer == TimerFailures(events)
  {
    Reachable(hosts, workers, events);
    CountersByKind(hosts, workers, events, k);
  }
}
