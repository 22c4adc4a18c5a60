/** `crawl_report` and `worker` as they are written.  A handler of a worker runs without
    interleaving in this file; every one is shown to be the sequence of atomic events that the
    whole-run results interleave freely. */
module CrawlWorker {
  import opened Crawl
  import CrawlOutcomes

  class CrawlReport {
    const hosts: nat
    var index: nat
    var strand: seq<Closure>
    var tally: Tally
    ghost var done: multiset<nat>

    constructor (hosts: nat)
      ensures this.hosts == hosts && index == 0 && strand == [] && tally == Zero && done == multiset{}
    {
      this.hosts := hosts;
      index, strand, tally, done := 0, [], Zero, multiset{};
    }

    /** The value of the atomic index before it is incremented; hosts beyond the list are null. */
    method GetHost() returns (n: nat)
      modifies this`index
      ensures n == old(index) && index == n + 1
    {
      n := index;
      index := index + 1;
    }

    method Aggregate(c: Closure)
      modifies this`strand
      ensures strand == old(strand) + [c]
    {
      strand := strand + [c];
    }

    /** The state of a crawl whose only workers are the given ones. */
    ghost function With(workers: seq<Worker>): State
      reads this
    {
      State(hosts, index, workers, strand, tally, done, false)
    }

    ghost function Counter(k: Kind): nat
      reads this
    {
      CrawlOutcomes.CounterOf(tally, k)
    }

    /** The function that a worker posted, and the counting of closures around it. */
    method Execute(c: Closure)
      modifies this`tally, this`done
      ensures tally == Apply(old(tally), c)
      ensures done == if c.Outcome? then old(done)[c.host := old(done)[c.host] + 1] else old(done)
    {
      match c {
        case TimerFailure => tally := tally.(timer := tally.timer + 1);
        case Outcome(h, kind) =>
          match kind {
            case ResolveFailure => tally := tally.(resolve := tally.resolve + 1);
            case ConnectFailure => tally := tally.(connect := tally.connect + 1);
            case WriteFailure => tally := tally.(write := tally.write + 1);
            case ReadFailure => tally := tally.(read := tally.read + 1);
            case Success(code) =>
              var before := if code in tally.codes then tally.codes[code] else 0;
              tally := tally.(success := tally.success + 1, codes := tally.codes[code := before + 1]);
          }
          done := done[h := done[h] + 1];
      }
      tally := tally.(count := tally.count + 1);
    }

    /** The strand runs its first closure, which counts its own outcome and no other. */
    method RunNext(ghost workers: seq<Worker>)
      requires strand != []
      modifies this
      ensures With(workers) == Step(old(With(workers)), Drains)
      ensures forall k :: Counter(k) == old(Counter(k)) + CrawlOutcomes.Reports(old(strand[0]), k)
    {
      var c := strand[0];
      ghost var before := tally;
      strand := strand[1..];
      Execute(c);
      forall k ensures Counter(k) == CrawlOutcomes.CounterOf(before, k) + CrawlOutcomes.Reports(c, k) {
        CrawlOutcomes.ApplyCounts(before, c, k);
      }
    }
  }

  class WorkerThread {
    const report: CrawlReport
    var stage: Stage
    var waiting: bool
    var armed: bool

    ghost function View(): Worker
      reads this
    {
      Worker(stage, waiting, armed)
    }

    /** The state of a crawl in which this is worker `i` and the other workers are the given ones. */
    ghost function Among(workers: seq<Worker>, i: nat): State
      requires i < |workers|
      reads this, report
    {
      report.With(workers[i := View()])
    }

    constructor (report: CrawlReport)
      ensures this.report == report && View() == Worker(New, false, false)
    {
      this.report := report;
      stage, waiting, armed := New, false, false;
    }

    method DoGetHost(ghost workers: seq<Worker>, ghost i: nat)
      requires i < |workers| && stage.Claiming?
      modifies this, report`index
      ensures Among(workers, i) == Step(old(Among(workers, i)), Claims(i))
    {
      var n := report.GetHost();
      if n < report.hosts {
        stage, armed := Resolving(n), true;
      } else {
        stage := Stopped;
      }
      assert Among(workers, i).workers == old(Among(workers, i)).workers[i := View()];
    }

    /** Two atomic events in a row: the second is the claim that ends most handlers. */
    ghost predicate ThenClaims(workers: seq<Worker>, i: nat, before: State, e: Event)
      requires i < |workers|
      reads this, report
    {
      && CanHappen(before, e) && CanHappen(Step(before, e), Claims(i))
      && Among(workers, i) == Step(Step(before, e), Claims(i))
    }

    method Run(ghost workers: seq<Worker>, ghost i: nat)
      requires i < |workers| && stage.New?
      modifies this, report`index
      ensures ThenClaims(workers, i, old(Among(workers, i)), Starts(i))
    {
      ghost var before := Among(workers, i);
      stage, waiting := Claiming, true;
      assert Among(workers, i).workers == Step(before, Starts(i)).workers;
      DoGetHost(workers, i);
    }

    /** What every handler does on an error. */
    method GiveUp(kind: Kind, ghost workers: seq<Worker>, ghost i: nat)
      requires i < |workers| && stage.Busy() && kind == FailureKind(stage)
      modifies this, report`index, report`strand
      ensures ThenClaims(workers, i, old(Among(workers, i)), Fails(i))
    {
      ghost var before := Among(workers, i);
      report.Aggregate(Outcome(stage.host, kind));
      stage := Claiming;
      assert Among(workers, i).workers == Step(before, Fails(i)).workers;
      DoGetHost(workers, i);
    }

    /** A completion without an error moves on to the next operation, on the same host. */
    ghost predicate Advances(workers: seq<Worker>, i: nat, before: State)
      requires i < |workers|
      reads this, report
    {
      forall code :: CanHappen(before, Succeeds(i, code)) && Among(workers, i) == Step(before, Succeeds(i, code))
    }

    method OnResolve(failed: bool, ghost workers: seq<Worker>, ghost i: nat)
      requires i < |workers| && stage.Resolving?
      modifies this, report`index, report`strand
      ensures failed ==> ThenClaims(workers, i, old(Among(workers, i)), Fails(i))
      ensures !failed ==> Advances(workers, i, old(Among(workers, i)))
    {
      if failed {
        GiveUp(ResolveFailure, workers, i);
        return;
      }
      stage := Connecting(stage.host);
      assert Among(workers, i).workers == old(Among(workers, i)).workers[i := View()];
    }

    method OnConnect(failed: bool, ghost workers: seq<Worker>, ghost i: nat)
      requires i < |workers| && stage.Connecting?
      modifies this, report`index, report`strand
      ensures failed ==> ThenClaims(workers, i, old(Among(workers, i)), Fails(i))
      ensures !failed ==> Advances(workers, i, old(Among(workers, i)))
    {
      if failed {
        GiveUp(ConnectFailure, workers, i);
        return;
      }
      stage := Writing(stage.host);
      assert Among(workers, i).workers == old(Among(workers, i)).workers[i := View()];
    }

    method OnWrite(failed: bool, ghost workers: seq<Worker>, ghost i: nat)
      requires i < |workers| && stage.Writing?
      modifies this, report`index, report`strand
      ensures failed ==> ThenClaims(workers, i, old(Among(workers, i)), Fails(i))
      ensures !failed ==> Advances(workers, i, old(Among(workers, i)))
    {
      if failed {
        GiveUp(WriteFailure, workers, i);
        return;
      }
      stage := Reading(stage.host);
      assert Among(workers, i).workers == old(Among(workers, i)).workers[i := View()];
    }

    method OnRead(failed: bool, code: nat, ghost workers: seq<Worker>, ghost i: nat)
      requires i < |workers| && stage.Reading?
      modifies this, report`index, report`strand
      ensures ThenClaims(workers, i, old(Among(workers, i)), if failed then Fails(i) else Succeeds(i, code))
    {
      if failed {
        GiveUp(ReadFailure, workers, i);
        return;
      }
      ghost var before := Among(workers, i);
      report.Aggregate(Outcome(stage.host, Success(code)));
      stage := Claiming;
      assert Among(workers, i).workers == Step(before, Succeeds(i, code)).workers;
      DoGetHost(workers, i);
    }

    /** `passed` tells whether the deadline has, which it cannot before it was first set. */
    method OnTimer(failed: bool, passed: bool, ghost workers: seq<Worker>, ghost i: nat)
      requires i < |workers| && waiting && (passed ==> armed)
      modifies this`waiting, report`strand
      ensures failed ==> Among(workers, i) == Step(old(Among(workers, i)), TimerFails(i))
      ensures !failed && passed ==> Among(workers, i) == Step(old(Among(workers, i)), TimerLapses(i))
      ensures !failed && !passed ==> Among(workers, i) == old(Among(workers, i))
    {
      waiting := false;
      if failed {
        report.Aggregate(TimerFailure);
      } else if !passed {
        waiting := true;
      }
      assert Among(workers, i).workers == old(Among(workers, i)).workers[i := View()];
    }
  }
}
