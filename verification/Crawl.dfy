/** The multi-worker crawler of example/http/client/crawl/http_crawl.cpp, on values.

    Any number of workers, each on a thread of its own, claim hosts from one atomic index and post
    closures to one strand, which a further thread runs.  A step is one atomic action: a claim, the
    completion of an operation, the running of a closure, or the end of a timer. */
module Crawl {

  /** Where a worker stands; hosts are numbered by their position in the list. */
  datatype Stage =
    | New
    | Claiming
    | Resolving(host: nat)
    | Connecting(host: nat)
    | Writing(host: nat)
    | Reading(host: nat)
    | Stopped
  {
    predicate Busy() { Resolving? || Connecting? || Writing? || Reading? }
  }

  /** `waiting`: a wait on the timer is pending.  `armed`: the deadline was ever set, so that the
      wait can end; without that the timer never expires, and a cancelled wait only waits again. */
  datatype Worker = Worker(stage: Stage, waiting: bool, armed: bool) {
    /** The thread returns from `io_context::run`. */
    predicate Exited() { stage.Stopped? && !waiting }
  }

  datatype Kind = ResolveFailure | ConnectFailure | WriteFailure | ReadFailure | Success(code: nat)

  /** A closure posted to the strand; the host is history, the source does not record it. */
  datatype Closure = Outcome(host: nat, kind: Kind) | TimerFailure

  datatype Tally = Tally(
    timer: nat, resolve: nat, connect: nat, write: nat, read: nat, success: nat, codes: map<nat, nat>, count: nat)
  {
    function Outcomes(): nat { resolve + connect + write + read + success }
  }

  const Zero := Tally(0, 0, 0, 0, 0, 0, map[], 0)

  /** `done` is history: the hosts whose closure has run, as often as it did.  `reported`: `main` has joined all
      threads, which is when it prints the report. */
  datatype State = State(
    hosts: nat, index: nat, workers: seq<Worker>, strand: seq<Closure>, tally: Tally,
    done: multiset<nat>, reported: bool)

  function NewWorkers(k: nat): (workers: seq<Worker>)
    ensures |workers| == k && forall i | 0 <= i < k :: workers[i] == Worker(New, false, false)
  {
    if k == 0 then [] else [Worker(New, false, false)] + NewWorkers(k - 1)
  }

  function Init(hosts: nat, workers: nat): State {
    State(hosts, 0, NewWorkers(workers), [], Zero, multiset{}, false)
  }

  // ---------------------------------------------------------------- what one worker does

  function Run(w: Worker): Worker { w.(stage := Claiming, waiting := true) }

  /** `do_get_host`, on the value `n` that the atomic increment returned. */
  function Claim(w: Worker, n: nat, hosts: nat): Worker {
    if n < hosts then w.(stage := Resolving(n), armed := true) else w.(stage := Stopped)
  }

  /** The operation in progress completes without an error; a read completes with a status code. */
  function Succeed(w: Worker): Worker
    requires w.stage.Busy()
  {
    match w.stage
    case Resolving(h) => w.(stage := Connecting(h))
    case Connecting(h) => w.(stage := Writing(h))
    case Writing(h) => w.(stage := Reading(h))
    case Reading(_) => w.(stage := Claiming)
  }

  function Fail(w: Worker): Worker { w.(stage := Claiming) }

  function FailureKind(stage: Stage): Kind
    requires stage.Busy()
  {
    match stage
    case Resolving(_) => ResolveFailure
    case Connecting(_) => ConnectFailure
    case Writing(_) => WriteFailure
    case Reading(_) => ReadFailure
  }

  // ---------------------------------------------------------------- what one closure does

  function Tick(codes: map<nat, nat>, code: nat): map<nat, nat> {
    codes[code := 1 + if code in codes then codes[code] else 0]
  }

  function Apply(t: Tally, c: Closure): Tally {
    var u := match c
      case TimerFailure => t.(timer := t.timer + 1)
      case Outcome(_, ResolveFailure) => t.(resolve := t.resolve + 1)
      case Outcome(_, ConnectFailure) => t.(connect := t.connect + 1)
      case Outcome(_, WriteFailure) => t.(write := t.write + 1)
      case Outcome(_, ReadFailure) => t.(read := t.read + 1)
      case Outcome(_, Success(code)) => t.(success := t.success + 1, codes := Tick(t.codes, code));
    u.(count := u.count + 1)
  }

  // ---------------------------------------------------------------- steps and runs

  datatype Event =
    | Starts(i: nat)
    | Claims(i: nat)
    | Succeeds(i: nat, code: nat)
    | Fails(i: nat)
    | TimerLapses(i: nat)
    | TimerFails(i: nat)
    | Drains
    | Reports

  predicate CanHappen(s: State, e: Event) {
    match e
    case Starts(i) => i < |s.workers| && s.workers[i].stage.New?
    case Claims(i) => i < |s.workers| && s.workers[i].stage.Claiming?
    case Succeeds(i, _) => i < |s.workers| && s.workers[i].stage.Busy()
    case Fails(i) => i < |s.workers| && s.workers[i].stage.Busy()
    case TimerLapses(i) => i < |s.workers| && s.workers[i].waiting && s.workers[i].armed
    case TimerFails(i) => i < |s.workers| && s.workers[i].waiting
    case Drains => s.strand != []
    case Reports => !s.reported && s.strand == [] && forall i | 0 <= i < |s.workers| :: s.workers[i].Exited()
  }

  /** What becomes of the worker that an event is about. */
  function WorkerAfter(s: State, e: Event): Worker
    requires CanHappen(s, e) && !e.Drains? && !e.Reports?
  {
    var w := s.workers[e.i];
    match e
    case Starts(_) => Run(w)
    case Claims(_) => Claim(w, s.index, s.hosts)
    case Succeeds(_, _) => Succeed(w)
    case Fails(_) => Fail(w)
    case TimerLapses(_) => w.(waiting := false)
    case TimerFails(_) => w.(waiting := false)
  }

  /** The closure, if any, that it posts. */
  function PostedBy(s: State, e: Event): seq<Closure>
    requires CanHappen(s, e) && !e.Drains? && !e.Reports?
  {
    var stage := s.workers[e.i].stage;
    match e
    case Succeeds(_, code) => if stage.Reading? then [Outcome(stage.host, Success(code))] else []
    case Fails(_) => [Outcome(stage.host, FailureKind(stage))]
    case TimerFails(_) => [TimerFailure]
    case _ => []
  }

  function Step(s: State, e: Event): State
    requires CanHappen(s, e)
  {
    if e.Reports? then s.(reported := true)
    else if e.Drains? then
      var c := s.strand[0];
      s.(strand := s.strand[1..], tally := Apply(s.tally, c),
         done := if c.Outcome? then s.done[c.host := s.done[c.host] + 1] else s.done)
    else
      s.(index := if e.Claims? then s.index + 1 else s.index,
         workers := s.workers[e.i := WorkerAfter(s, e)],
         strand := s.strand + PostedBy(s, e))
  }

  predicate Runs(s: State, events: seq<Event>)
    decreases |events|
  {
    events == [] || (CanHappen(s, events[0]) && Runs(Step(s, events[0]), events[1..]))
  }

  function After(s: State, events: seq<Event>): State
    requires Runs(s, events)
    decreases |events|
  {
    if events == [] then s else After(Step(s, events[0]), events[1..])
  }

  // ---------------------------------------------------------------- counts and sums

  function Holds(w: Worker, h: nat): nat { if w.stage.Busy() && w.stage.host == h then 1 else 0 }

  function About(c: Closure, h: nat): nat { if c.Outcome? && c.host == h then 1 else 0 }

  /** How many workers hold host `h`. */
  function HeldBy(workers: seq<Worker>, h: nat): nat {
    if workers == [] then 0 else Holds(workers[0], h) + HeldBy(workers[1..], h)
  }

  /** How many posted closures report on host `h`. */
  function QueuedFor(strand: seq<Closure>, h: nat): nat {
    if strand == [] then 0 else About(strand[0], h) + QueuedFor(strand[1..], h)
  }

  /** How many posted closures report on any host. */
  function Outcomes(strand: seq<Closure>): nat {
    if strand == [] then 0 else (if strand[0].Outcome? then 1 else 0) + Outcomes(strand[1..])
  }

  function Sum(workers: seq<Worker>, weight: Worker -> nat): nat {
    if workers == [] then 0 else weight(workers[0]) + Sum(workers[1..], weight)
  }

  ghost function SumValues(m: map<nat, nat>): nat {
    if m == map[] then 0
    else
      var k :| k in m;
      m[k] + SumValues(m - {k})
  }

  function Min(a: nat, b: nat): nat { if a < b then a else b }
}
