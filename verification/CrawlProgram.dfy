/** The crawler as one program of objects: a report and the threads of its workers, driven by any
    sequence of calls.  It never leaves the states that the whole-run results are about. */
module CrawlProgram {
  import opened Crawl
  import opened CrawlRuns
  import opened CrawlWorker
  import CrawlReports
  import CrawlOutcomes

  /** A worker begins, its operation completes, its timer handler runs, or the strand runs a closure. */
  datatype Call =
    | Begins(i: nat)
    | Completes(i: nat, failed: bool, code: nat)
    | TimerFires(i: nat, failed: bool, passed: bool)
    | StrandRuns

  lemma OneEvent(s: State, e: Event)
    requires CanHappen(s, e)
    ensures Runs(s, [e]) && After(s, [e]) == Step(s, e)
  {
    assert Runs(Step(s, e), [e][1..]);
  }

  lemma TwoEvents(s: State, e: Event, f: Event)
    requires CanHappen(s, e) && CanHappen(Step(s, e), f)
    ensures Runs(s, [e, f]) && After(s, [e, f]) == Step(Step(s, e), f)
  {
    OneEvent(Step(s, e), f);
    assert [e, f][1..] == [f];
  }

  class Crawler {
    const report: CrawlReport
    const threads: seq<WorkerThread>

    ghost predicate Valid() {
      && (forall i | 0 <= i < |threads| :: threads[i].report == report)
      && (forall i, j | 0 <= i < j < |threads| :: threads[i] != threads[j])
    }

    ghost function Workers(): seq<Worker>
      reads threads
    {
      seq(|threads|, i requires 0 <= i < |threads| reads threads => threads[i].View())
    }

    ghost function View(): State
      reads report, threads
    {
      report.With(Workers())
    }

    constructor (hosts: nat, workers: nat)
      ensures Valid() && View() == Init(hosts, workers) && fresh(report) && fresh(threads)
    {
      var r := new CrawlReport(hosts);
      var ts: seq<WorkerThread> := [];
      while |ts| < workers
        invariant |ts| <= workers && fresh(r) && fresh(ts)
        invariant r.hosts == hosts && r.With([]) == Init(hosts, 0)
        invariant forall i | 0 <= i < |ts| :: ts[i].report == r && ts[i].View() == Worker(New, false, false)
        invariant forall i, j | 0 <= i < j < |ts| :: ts[i] != ts[j]
      {
        var t := new WorkerThread(r);
        ts := ts + [t];
      }
      report, threads := r, ts;
      new;
      assert Workers() == NewWorkers(workers);
    }

    /** The worker's own handlers, for whatever operation it has in progress. */
    method Complete(i: nat, failed: bool, code: nat) returns (ghost events: seq<Event>)
      requires Valid() && i < |threads| && threads[i].stage.Busy()
      modifies report, threads
      ensures Runs(old(View()), events) && View() == After(old(View()), events)
    {
      ghost var before, ws := View(), Workers();
      var t := threads[i];
      ghost var e := if failed then Fails(i) else Succeeds(i, code);
      assert t.Among(ws, i) == before;
      match t.stage {
        case Resolving(_) => t.OnResolve(failed, ws, i);
        case Connecting(_) => t.OnConnect(failed, ws, i);
        case Writing(_) => t.OnWrite(failed, ws, i);
        case Reading(_) => t.OnRead(failed, code, ws, i);
      }
      assert Workers() == ws[i := t.View()];
      if failed || before.workers[i].stage.Reading? {
        assert t.ThenClaims(ws, i, before, e);
        TwoEvents(before, e, Claims(i));
        events := [e, Claims(i)];
      } else {
        assert t.Advances(ws, i, before);
        OneEvent(before, e);
        events := [e];
      }
    }

    method Begin(i: nat) returns (ghost events: seq<Event>)
      requires Valid() && i < |threads| && threads[i].stage.New?
      modifies report, threads
      ensures Runs(old(View()), events) && View() == After(old(View()), events)
    {
      ghost var before, ws := View(), Workers();
      var t := threads[i];
      assert t.Among(ws, i) == before;
      t.Run(ws, i);
      assert Workers() == ws[i := t.View()];
      TwoEvents(before, Starts(i), Claims(i));
      events := [Starts(i), Claims(i)];
    }

    method FireTimer(i: nat, failed: bool, passed: bool) returns (ghost events: seq<Event>)
      requires Valid() && i < |threads| && threads[i].waiting && (passed ==> threads[i].armed)
      modifies report, threads
      ensures Runs(old(View()), events) && View() == After(old(View()), events)
    {
      ghost var before, ws := View(), Workers();
      var t := threads[i];
      assert t.Among(ws, i) == before;
      t.OnTimer(failed, passed, ws, i);
      assert Workers() == ws[i := t.View()];
      if failed || passed {
        ghost var e := if failed then TimerFails(i) else TimerLapses(i);
        OneEvent(before, e);
        events := [e];
      } else {
        events := [];
      }
    }

    /** Carries out one call; one that cannot happen is ignored. */
    method Perform(c: Call) returns (ghost events: seq<Event>)
      requires Valid()
      modifies report, threads
      ensures Runs(old(View()), events) && View() == After(old(View()), events)
    {
      events := [];
      match c {
        case Begins(i) =>
          if i < |threads| && threads[i].stage.New? {
            events := Begin(i);
          }
        case Completes(i, failed, code) =>
          if i < |threads| && threads[i].stage.Busy() {
            events := Complete(i, failed, code);
          }
        case TimerFires(i, failed, passed) =>
          if i < |threads| && threads[i].waiting && (passed ==> threads[i].armed) {
            events := FireTimer(i, failed, passed);
          }
        case StrandRuns =>
          if report.strand != [] {
            OneEvent(View(), Drains);
            events := [Drains];
            report.RunNext(Workers());
          }
      }
    }

    method Drive(calls: seq<Call>) returns (ghost events: seq<Event>)
      requires Valid()
      modifies report, threads
      ensures Runs(old(View()), events) && View() == After(old(View()), events)
    {
      ghost var start := View();
      events := [];
      for k := 0 to |calls|
        invariant Runs(start, events) && View() == After(start, events)
      {
        ghost var more := Perform(calls[k]);
        CrawlReports.JoinRuns(start, events, more);
        events := events + more;
      }
    }

    /** Whatever the sequence of calls on a new crawler, the objects stay balanced; and when all
        workers have stopped and the strand has run everything, each host has one outcome.  Every
        counter says how often its kind of outcome occurred, but for the closures still posted. */
    method Crawl(calls: seq<Call>) returns (ghost events: seq<Event>)
      requires Valid() && View() == Init(report.hosts, |threads|)
      modifies report, threads
      ensures Runs(Init(report.hosts, |threads|), events) && View() == After(Init(report.hosts, |threads|), events)
      ensures Accounted(View(), report.hosts, |threads|)
      ensures forall k :: report.Counter(k) + CrawlOutcomes.Posted(report.strand, k)
                          == CrawlOutcomes.Decisions(Init(report.hosts, |threads|), events, k)
    {
      events := Drive(calls);
      RunIsAccounted(report.hosts, |threads|, events);
      forall k ensures report.Counter(k) + CrawlOutcomes.Posted(report.strand, k)
                       == CrawlOutcomes.Decisions(Init(report.hosts, |threads|), events, k) {
        CrawlOutcomes.CountersByKind(report.hosts, |threads|, events, k);
      }
    }
  }

  ghost predicate Accounted(s: State, hosts: nat, workers: nat) {
    && Balanced(s)
    && (0 < workers && AllStopped(s) && s.strand == [] ==> s.tally.Outcomes() == hosts && s.index == hosts + workers)
  }

  lemma RunIsAccounted(hosts: nat, workers: nat, events: seq<Event>)
    requires Runs(Init(hosts, workers), events)
    ensures Accounted(After(Init(hosts, workers), events), hosts, workers)
  {
    Reachable(hosts, workers, events);
    InvAccounts(After(Init(hosts, workers), events));
  }

  lemma InvAccounts(s: State)
    requires Inv(s)
    ensures Accounted(s, s.hosts, |s.workers|)
  {
    InvIsBalanced(s);
    if s.workers != [] && AllStopped(s) && s.strand == [] {
      DrainedIsComplete(s);
    }
  }
}
