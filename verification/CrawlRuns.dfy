/** What holds of the crawler over every interleaving: conservation of hosts, a bound on the
    length of every run, and when the report gets printed. */
module CrawlRuns {
  import opened Crawl

  // ---------------------------------------------------------------- counts and sums

  lemma {:induction false} SumUpdate(workers: seq<Worker>, i: nat, w: Worker, weight: Worker -> nat)
    requires i < |workers|
    ensures Sum(workers[i := w], weight) == Sum(workers, weight) - weight(workers[i]) + weight(w)
  {
    var u := workers[i := w];
    if i == 0 {
      assert u[1..] == workers[1..];
    } else {
      assert u[1..] == workers[1..][i - 1 := w];
      SumUpdate(workers[1..], i - 1, w, weight);
    }
  }

  lemma {:induction false} HeldUpdate(workers: seq<Worker>, i: nat, w: Worker, h: nat)
    requires i < |workers|
    ensures HeldBy(workers[i := w], h) == HeldBy(workers, h) - Holds(workers[i], h) + Holds(w, h)
  {
    var u := workers[i := w];
    if i == 0 {
      assert u[1..] == workers[1..];
    } else {
      assert u[1..] == workers[1..][i - 1 := w];
      HeldUpdate(workers[1..], i - 1, w, h);
    }
  }

  lemma {:induction false} SumValuesRemove(m: map<nat, nat>, k: nat)
    requires k in m
    ensures SumValues(m) == m[k] + SumValues(m - {k})
    decreases |m|
  {
    var j :| j in m && SumValues(m) == m[j] + SumValues(m - {j});
    if j != k {
      SumValuesRemove(m - {j}, k);
      SumValuesRemove(m - {k}, j);
      assert m - {j} - {k} == m - {k} - {j};
    }
  }

  lemma TickAddsOne(codes: map<nat, nat>, code: nat)
    ensures SumValues(Tick(codes, code)) == SumValues(codes) + 1
  {
    var t := Tick(codes, code);
    SumValuesRemove(t, code);
    if code in codes {
      SumValuesRemove(codes, code);
      assert t - {code} == codes - {code};
    } else {
      assert t - {code} == codes;
    }
  }

  // ---------------------------------------------------------------- the invariant

  function IsStopped(w: Worker): nat { if w.stage.Stopped? then 1 else 0 }

  function IsArmed(w: Worker): nat { if w.armed then 1 else 0 }

  function IsBusy(w: Worker): nat { if w.stage.Busy() then 1 else 0 }

  function Claimed(s: State): nat { Min(s.index, s.hosts) }

  /** The places where host `h` is: held by a worker, reported by a posted closure, or done. */
  function Copies(s: State, h: nat): nat { HeldBy(s.workers, h) + QueuedFor(s.strand, h) + s.done[h] }

  /** Every host claimed so far is in exactly one place, and no other host is anywhere. */
  ghost predicate Conserved(s: State) { forall h: nat :: Copies(s, h) == if h < Claimed(s) then 1 else 0 }

  ghost predicate Tallied(t: Tally, done: nat) {
    t.Outcomes() == done && t.count == t.timer + done && t.success == SumValues(t.codes)
  }

  /** Each stopped worker claimed one number beyond the last host; each armed one claimed a host. */
  predicate Counted(s: State) {
    && Sum(s.workers, IsBusy) + Outcomes(s.strand) + |s.done| == Claimed(s)
    && s.index == Claimed(s) + Sum(s.workers, IsStopped)
    && Sum(s.workers, IsArmed) <= Claimed(s)
  }

  predicate WorkerOk(w: Worker) {
    && (w.stage.New? ==> !w.waiting)
    && (w.stage.Busy() ==> w.armed)
  }

  predicate Quiet(s: State) {
    && (forall i | 0 <= i < |s.workers| :: WorkerOk(s.workers[i]))
    && (s.reported ==> s.strand == [] && forall i | 0 <= i < |s.workers| :: s.workers[i].Exited())
  }

  ghost predicate Inv(s: State) { Conserved(s) && Tallied(s.tally, |s.done|) && Counted(s) && Quiet(s) }

  lemma {:induction false} InitSums(k: nat)
    ensures var ws := NewWorkers(k);
            && Sum(ws, IsBusy) == 0 && Sum(ws, IsStopped) == 0 && Sum(ws, IsArmed) == 0
            && forall h: nat :: HeldBy(ws, h) == 0
  {
    if k != 0 {
      assert NewWorkers(k)[1..] == NewWorkers(k - 1);
      InitSums(k - 1);
    }
  }

  lemma InitCounted(hosts: nat, workers: nat)
    ensures Conserved(Init(hosts, workers)) && Counted(Init(hosts, workers)) && Quiet(Init(hosts, workers))
  {
    InitSums(workers);
  }

  lemma InitInv(hosts: nat, workers: nat)
    ensures Inv(Init(hosts, workers))
  {
    InitCounted(hosts, workers);
    ZeroTallied();
  }

  lemma ZeroTallied()
    ensures Tallied(Zero, 0)
  {
  }

  // ---------------------------------------------------------------- preservation

  lemma StepKeepsQuiet(s: State, e: Event)
    requires Quiet(s) && CanHappen(s, e)
    ensures Quiet(Step(s, e))
  {
  }

  /** What the event of a worker changes in the quantities that are summed up. */
  lemma WorkerEvent(s: State, e: Event, h: nat)
    requires CanHappen(s, e) && !e.Drains? && !e.Reports? && WorkerOk(s.workers[e.i])
    ensures var v, w := s.workers[e.i], WorkerAfter(s, e);
            var claimed := if e.Claims? && s.index < s.hosts then 1 else 0;
            && IsBusy(w) + Outcomes(PostedBy(s, e)) == IsBusy(v) + claimed
            && IsStopped(w) == IsStopped(v) + (if e.Claims? then 1 - claimed else 0)
            && IsArmed(w) <= IsArmed(v) + claimed
            && Holds(w, h) + QueuedFor(PostedBy(s, e), h) == Holds(v, h) + (if s.index == h then claimed else 0)
            && Weight(w) + |PostedBy(s, e)| < Weight(v) + 6 * claimed
  {
  }

  lemma {:induction false} QueuedConcat(strand: seq<Closure>, more: seq<Closure>, h: nat)
    ensures QueuedFor(strand + more, h) == QueuedFor(strand, h) + QueuedFor(more, h)
    ensures Outcomes(strand + more) == Outcomes(strand) + Outcomes(more)
  {
    if strand == [] {
      assert strand + more == more;
    } else {
      assert (strand + more)[1..] == strand[1..] + more;
      QueuedConcat(strand[1..], more, h);
    }
  }

  lemma StepKeepsCounted(s: State, e: Event)
    requires Quiet(s) && Counted(s) && CanHappen(s, e)
    ensures Counted(Step(s, e))
  {
    if !e.Drains? && !e.Reports? {
      var w := WorkerAfter(s, e);
      WorkerEvent(s, e, 0);
      QueuedConcat(s.strand, PostedBy(s, e), 0);
      SumUpdate(s.workers, e.i, w, IsBusy);
      SumUpdate(s.workers, e.i, w, IsStopped);
      SumUpdate(s.workers, e.i, w, IsArmed);
    }
  }

  lemma StepKeepsCopies(s: State, e: Event, h: nat)
    requires Quiet(s) && CanHappen(s, e)
    ensures Copies(Step(s, e), h) == Copies(s, h) + if e.Claims? && s.index == h < s.hosts then 1 else 0
  {
    if !e.Drains? && !e.Reports? {
      WorkerEvent(s, e, h);
      QueuedConcat(s.strand, PostedBy(s, e), h);
      HeldUpdate(s.workers, e.i, WorkerAfter(s, e), h);
    }
  }

  lemma StepKeepsConserved(s: State, e: Event)
    requires Quiet(s) && Conserved(s) && CanHappen(s, e)
    ensures Conserved(Step(s, e))
  {
    var q := Step(s, e);
    forall h: nat ensures Copies(q, h) == if h < Claimed(q) then 1 else 0 {
      assert Copies(s, h) == if h < Claimed(s) then 1 else 0;
      StepKeepsCopies(s, e, h);
    }
  }

  lemma ApplyKeepsTallied(t: Tally, done: nat, c: Closure)
    requires Tallied(t, done)
    ensures Tallied(Apply(t, c), done + if c.Outcome? then 1 else 0)
  {
    if c.Outcome? && c.kind.Success? {
      TickAddsOne(t.codes, c.kind.code);
    }
  }

  lemma StepKeepsInv(s: State, e: Event)
    requires Inv(s) && CanHappen(s, e)
    ensures Inv(Step(s, e))
  {
    StepKeepsQuiet(s, e);
    StepKeepsCounted(s, e);
    StepKeepsConserved(s, e);
    if e.Drains? {
      ApplyKeepsTallied(s.tally, |s.done|, s.strand[0]);
    }
  }

  lemma {:induction false} RunKeepsInv(s: State, events: seq<Event>)
    requires Inv(s) && Runs(s, events)
    ensures var t := After(s, events); Inv(t) && t.hosts == s.hosts && |t.workers| == |s.workers|
    decreases |events|
  {
    if events != [] {
      StepKeepsInv(s, events[0]);
      RunKeepsInv(Step(s, events[0]), events[1..]);
    }
  }

  lemma Reachable(hosts: nat, workers: nat, events: seq<Event>)
    requires Runs(Init(hosts, workers), events)
    ensures var s := After(Init(hosts, workers), events); Inv(s) && s.hosts == hosts && |s.workers| == workers
  {
    InitInv(hosts, workers);
    RunKeepsInv(Init(hosts, workers), events);
  }

  // ---------------------------------------------------------------- conservation

  /** In every interleaving the five outcome counters, the posted outcomes not yet run and the
      workers that hold a host add up to the number of hosts claimed; each of these hosts is in
      exactly one of those places, so none is held or finished twice; and the status codes add up
      to the successes. */
  ghost predicate Balanced(s: State) {
    && s.tally.Outcomes() + Outcomes(s.strand) + Sum(s.workers, IsBusy) == Min(s.index, s.hosts)
    && (forall h: nat :: Copies(s, h) == if h < Min(s.index, s.hosts) then 1 else 0)
    && s.tally.success == SumValues(s.tally.codes)
    && s.tally.count == s.tally.timer + s.tally.Outcomes()
  }

  lemma Conservation(hosts: nat, workers: nat, events: seq<Event>)
    requires Runs(Init(hosts, workers), events)
    ensures Balanced(After(Init(hosts, workers), events))
  {
    Reachable(hosts, workers, events);
    InvIsBalanced(After(Init(hosts, workers), events));
  }

  lemma InvIsBalanced(s: State)
    requires Inv(s)
    ensures Balanced(s)
  {
  }

  // ---------------------------------------------------------------- operations

  /** The operations that had succeeded for a host when its outcome was decided. */
  function Depth(kind: Kind): nat {
    match kind
    case ResolveFailure => 0
    case ConnectFailure => 1
    case WriteFailure => 2
    case ReadFailure => 3
    case Success(_) => 4
  }

  function QueuedDepth(strand: seq<Closure>): nat {
    if strand == [] then 0 else (if strand[0].Outcome? then Depth(strand[0].kind) else 0) + QueuedDepth(strand[1..])
  }

  function Progress(w: Worker): nat {
    match w.stage
    case Connecting(_) => 1
    case Writing(_) => 2
    case Reading(_) => 3
    case _ => 0
  }

  /** The operations that the counters, the posted closures and the workers attest. */
  function Attested(s: State): nat {
    s.tally.connect + 2 * s.tally.write + 3 * s.tally.read + 4 * s.tally.success
    + QueuedDepth(s.strand) + Sum(s.workers, Progress)
  }

  function Successes(events: seq<Event>): nat {
    if events == [] then 0 else (if events[0].Succeeds? then 1 else 0) + Successes(events[1..])
  }

  lemma {:induction false} QueuedDepthConcat(strand: seq<Closure>, more: seq<Closure>)
    ensures QueuedDepth(strand + more) == QueuedDepth(strand) + QueuedDepth(more)
  {
    if strand == [] {
      assert strand + more == more;
    } else {
      assert (strand + more)[1..] == strand[1..] + more;
      QueuedDepthConcat(strand[1..], more);
    }
  }

  lemma WorkerProgress(s: State, e: Event)
    requires CanHappen(s, e) && !e.Drains? && !e.Reports? && WorkerOk(s.workers[e.i])
    ensures Progress(WorkerAfter(s, e)) + QueuedDepth(PostedBy(s, e))
            == Progress(s.workers[e.i]) + if e.Succeeds? then 1 else 0
  {
  }

  lemma StepAttests(s: State, e: Event)
    requires Quiet(s) && CanHappen(s, e)
    ensures Attested(Step(s, e)) == Attested(s) + if e.Succeeds? then 1 else 0
  {
    if !e.Drains? && !e.Reports? {
      WorkerProgress(s, e);
      QueuedDepthConcat(s.strand, PostedBy(s, e));
      SumUpdate(s.workers, e.i, WorkerAfter(s, e), Progress);
    }
  }

  lemma {:induction false} RunAttests(s: State, events: seq<Event>)
    requires Quiet(s) && Runs(s, events)
    ensures Attested(After(s, events)) == Attested(s) + Successes(events)
    decreases |events|
  {
    if events != [] {
      StepKeepsQuiet(s, events[0]);
      StepAttests(s, events[0]);
      RunAttests(Step(s, events[0]), events[1..]);
    }
  }

  lemma {:induction false} NoProgress(k: nat)
    ensures Sum(NewWorkers(k), Progress) == 0
  {
    if k != 0 {
      assert NewWorkers(k)[1..] == NewWorkers(k - 1);
      NoProgress(k - 1);
    }
  }

  /** The counters tell how far every host got: a success stands for four operations that
      succeeded one after the other, a read failure for three, and so on, and every operation that
      succeeded in a run is attested in this way exactly once. */
  lemma CountersAttestOperations(hosts: nat, workers: nat, events: seq<Event>)
    requires Runs(Init(hosts, workers), events)
    ensures Attested(After(Init(hosts, workers), events)) == Successes(events)
  {
    InitCounted(hosts, workers);
    NoProgress(workers);
    RunAttests(Init(hosts, workers), events);
  }

  // ---------------------------------------------------------------- termination

  /** Steps that a worker can still cause, were it to claim no further host. */
  function Weight(w: Worker): nat {
    (if w.waiting then 2 else 0) +
    match w.stage
    case New => 4
    case Claiming => 1
    case Resolving(_) => 6
    case Connecting(_) => 5
    case Writing(_) => 4
    case Reading(_) => 3
    case Stopped => 0
  }

  function Measure(s: State): nat {
    6 * (s.hosts - Claimed(s)) + Sum(s.workers, Weight) + |s.strand| + if s.reported then 0 else 1
  }

  lemma StepDecreases(s: State, e: Event)
    requires Quiet(s) && CanHappen(s, e)
    ensures Measure(Step(s, e)) < Measure(s)
  {
    if !e.Drains? && !e.Reports? {
      WorkerEvent(s, e, 0);
      SumUpdate(s.workers, e.i, WorkerAfter(s, e), Weight);
    }
  }

  lemma {:induction false} RunDecreases(s: State, events: seq<Event>)
    requires Quiet(s) && Runs(s, events)
    ensures Measure(After(s, events)) + |events| <= Measure(s)
    decreases |events|
  {
    if events != [] {
      StepKeepsQuiet(s, events[0]);
      StepDecreases(s, events[0]);
      RunDecreases(Step(s, events[0]), events[1..]);
    }
  }

  lemma {:induction false} NewWeight(k: nat)
    ensures Sum(NewWorkers(k), Weight) == 4 * k
  {
    if k != 0 {
      assert NewWorkers(k)[1..] == NewWorkers(k - 1);
      NewWeight(k - 1);
    }
  }

  /** Every run is finite: six steps for a host, four for a worker, and the report. */
  lemma Termination(hosts: nat, workers: nat, events: seq<Event>)
    requires Runs(Init(hosts, workers), events)
    ensures |events| <= 6 * hosts + 4 * workers + 1
  {
    InitCounted(hosts, workers);
    NewWeight(workers);
    RunDecreases(Init(hosts, workers), events);
  }

  // ---------------------------------------------------------------- how runs end

  lemma {:induction false} SumOfOnes(workers: seq<Worker>, f: Worker -> nat)
    requires forall w :: f(w) <= 1
    ensures Sum(workers, f) <= |workers|
    ensures Sum(workers, f) == |workers| <==> forall i | 0 <= i < |workers| :: f(workers[i]) == 1
    ensures Sum(workers, f) == 0 <==> forall i | 0 <= i < |workers| :: f(workers[i]) == 0
  {
    if workers != [] {
      SumOfOnes(workers[1..], f);
      assert forall i | 1 <= i < |workers| :: workers[i] == workers[1..][i - 1];
      assert forall i | 0 <= i < |workers[1..]| :: workers[1..][i] == workers[i + 1];
    }
  }

  predicate AllStopped(s: State) { forall i | 0 <= i < |s.workers| :: s.workers[i].stage.Stopped? }

  lemma {:induction false} NothingHeld(workers: seq<Worker>, h: nat)
    requires forall i | 0 <= i < |workers| :: workers[i].stage.Stopped?
    ensures HeldBy(workers, h) == 0
  {
    if workers != [] {
      NothingHeld(workers[1..], h);
    }
  }

  /** Every host has exactly one outcome, and every worker found the list exhausted once. */
  ghost predicate Complete(s: State) {
    && s.index == s.hosts + |s.workers|
    && s.tally.Outcomes() == s.hosts
    && forall h: nat :: s.done[h] == if h < s.hosts then 1 else 0
  }

  lemma DrainedIsComplete(s: State)
    requires Inv(s) && AllStopped(s) && s.strand == [] && s.workers != []
    ensures Complete(s)
  {
    SumOfOnes(s.workers, IsStopped);
    SumOfOnes(s.workers, IsBusy);
    forall h: nat ensures s.done[h] == if h < s.hosts then 1 else 0 {
      assert Copies(s, h) == if h < Claimed(s) then 1 else 0;
      NothingHeld(s.workers, h);
    }
  }

  /** When the report is printed, it is complete. */
  lemma ReportIsComplete(hosts: nat, workers: nat, events: seq<Event>)
    requires 0 < workers && Runs(Init(hosts, workers), events)
    ensures var s := After(Init(hosts, workers), events); s.reported ==> Complete(s)
  {
    Reachable(hosts, workers, events);
    var s := After(Init(hosts, workers), events);
    if s.reported {
      DrainedIsComplete(s);
    }
  }

  /** Nothing more can happen, short of a timer that fails. */
  ghost predicate AtRest(s: State) { forall e :: CanHappen(s, e) ==> e.TimerFails? }

  predicate AllArmed(s: State) { forall i | 0 <= i < |s.workers| :: s.workers[i].armed }

  /** Waits begin when a worker starts, and end only once the deadline was set. */
  predicate Waits(s: State) {
    forall i | 0 <= i < |s.workers| :: !s.workers[i].stage.New? && !s.workers[i].armed ==> s.workers[i].waiting
  }

  lemma {:induction false} RunKeepsWaits(s: State, events: seq<Event>)
    requires Waits(s) && Runs(s, events) && NoTimerFails(events)
    ensures Waits(After(s, events))
    decreases |events|
  {
    if events != [] {
      StepKeepsWaits(s, events[0]);
      RunKeepsWaits(Step(s, events[0]), events[1..]);
    }
  }

  lemma StepKeepsWaits(s: State, e: Event)
    requires Waits(s) && CanHappen(s, e) && !e.TimerFails?
    ensures Waits(Step(s, e))
  {
  }

  lemma RestIsStopped(s: State)
    requires AtRest(s)
    ensures AllStopped(s) && s.strand == []
    ensures forall i | 0 <= i < |s.workers| :: s.workers[i].armed ==> !s.workers[i].waiting
  {
    assert !CanHappen(s, Drains);
    forall i | 0 <= i < |s.workers|
      ensures s.workers[i].stage.Stopped? && (s.workers[i].armed ==> !s.workers[i].waiting)
    {
      assert !CanHappen(s, Starts(i)) && !CanHappen(s, Claims(i));
      assert !CanHappen(s, Fails(i)) && !CanHappen(s, TimerLapses(i));
    }
  }

  lemma InitWaits(hosts: nat, workers: nat)
    ensures Waits(Init(hosts, workers))
  {
  }

  predicate NoTimerFails(events: seq<Event>) { forall i | 0 <= i < |events| :: !events[i].TimerFails? }

  lemma ReachableWaits(hosts: nat, workers: nat, events: seq<Event>)
    requires Runs(Init(hosts, workers), events) && NoTimerFails(events)
    ensures Waits(After(Init(hosts, workers), events))
  {
    InitWaits(hosts, workers);
    RunKeepsWaits(Init(hosts, workers), events);
  }

  lemma RestReports(s: State)
    requires Inv(s) && Waits(s) && AtRest(s) && s.workers != []
    ensures Complete(s) && (s.reported <==> AllArmed(s))
  {
    RestIsStopped(s);
    DrainedIsComplete(s);
    if AllArmed(s) {
      assert !CanHappen(s, Reports);
    }
  }

  lemma ReportNeedsHosts(s: State)
    requires Inv(s) && Waits(s) && s.reported
    ensures |s.workers| <= s.hosts
  {
    SumOfOnes(s.workers, IsArmed);
  }

  /** Every run that goes on as long as it can accounts for every host, but the report of it is
      printed if and only if every worker got a host: a worker that did not never set its timer, so
      the wait that `cancel_one` ends is followed by one that nothing ends, and `main` waits for it. */
  lemma ReportedIffEveryWorkerGotAHost(hosts: nat, workers: nat, events: seq<Event>)
    requires 0 < workers && Runs(Init(hosts, workers), events) && NoTimerFails(events)
    requires AtRest(After(Init(hosts, workers), events))
    ensures var s := After(Init(hosts, workers), events); Complete(s) && (s.reported <==> AllArmed(s))
  {
    Reachable(hosts, workers, events);
    ReachableWaits(hosts, workers, events);
    RestReports(After(Init(hosts, workers), events));
  }

  /** In particular, with more workers than hosts no run ever gets to the report. */
  lemma TooManyWorkersNeverReport(hosts: nat, workers: nat, events: seq<Event>)
    requires hosts < workers && Runs(Init(hosts, workers), events) && NoTimerFails(events)
    ensures !After(Init(hosts, workers), events).reported
  {
    Reachable(hosts, workers, events);
    ReachableWaits(hosts, workers, events);
    if After(Init(hosts, workers), events).reported {
      ReportNeedsHosts(After(Init(hosts, workers), events));
    }
  }
}
