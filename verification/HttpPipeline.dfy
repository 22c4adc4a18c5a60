/** The pipelined HTTP session of example/advanced/server/advanced_server.cpp, on values: what
    each handler does to the session, and what holds over every interleaving of handlers.

    The strand makes handlers atomic; completions and timer handlers arrive in any order. */
module HttpPipeline {
  import opened SteadyTimer

  const LIMIT := 8
  const TIMEOUT := 15 * SECOND

  /** `id` numbers the request that is answered; `needEof` says that the connection must close
      after the response. */
  datatype Response = Response(id: nat, needEof: bool)

  datatype ReadResult = ReadAborted | EndOfStream | ReadFailed | Upgrade | Request(needEof: bool)
  datatype WriteResult = Written | WriteAborted | WriteFailed

  /** `items`, `timer` and `open` are the session's own state, `reading` and `writing` the operations
      in progress.  The rest is history: `submitted` and `started` list the responses queued and
      the writes begun, `written` counts the writes completed, `lastRead` is the time of the last
      `do_read`, and the flags say that reading, writing or the timer came to an end. */
  datatype Session = Session(
    items: seq<Response>, reading: nat, writing: seq<Response>, timer: Timer, open: bool,
    submitted: seq<Response>, started: seq<Response>, written: nat, lastRead: int,
    readEnded: bool, writeEnded: bool, timerEnded: bool)

  function New(now: int): Session {
    Session([], 0, [], IdleTimer(now), true, [], [], 0, now, false, false, false)
  }

  predicate IsFull(s: Session) { |s.items| >= LIMIT }

  // ---------------------------------------------------------------- handlers

  function DoRead(s: Session): Session {
    s.(timer := s.timer.ExpiresAfter(TIMEOUT), lastRead := s.timer.now, reading := s.reading + 1)
  }

  /** Calls the front work item, which begins writing its response. */
  function StartFront(s: Session): Session
    requires s.items != []
  {
    s.(writing := s.writing + [s.items[0]], started := s.started + [s.items[0]])
  }

  function Submit(s: Session, r: Response): Session {
    var q := s.(items := s.items + [r], submitted := s.submitted + [r]);
    if |q.items| == 1 then StartFront(q) else q
  }

  /** `queue::on_write`, and whether the caller should initiate a read.  The source asserts that
      the queue is not empty, which `StepKeepsInv` proves; an empty queue is left alone here. */
  function PopFront(s: Session): (Session, bool) {
    var q := s.(items := if s.items == [] then [] else s.items[1..], written := s.written + 1);
    (if q.items != [] then StartFront(q) else q, IsFull(s))
  }

  function OnTimer(s: Session, w: Wait): Session {
    if w == Failed then s.(timerEnded := true)
    else if s.timer.Passed() then s.(open := false, timerEnded := true)
    else s.(timer := s.timer.AsyncWait())
  }

  function Start(now: int): Session { DoRead(OnTimer(New(now), Expired)) }

  /** Every request is answered once, by `handle_request`. */
  function OnRead(s: Session, r: ReadResult): Session {
    match r
    case Request(needEof) =>
      var q := Submit(s, Response(|s.submitted|, needEof));
      if IsFull(q) then q else DoRead(q)
    case _ => s.(readEnded := true)
  }

  function OnWrite(s: Session, r: WriteResult, close: bool): Session {
    if r != Written || close then s.(writeEnded := true)
    else
      var (q, more) := PopFront(s);
      if more then DoRead(q) else q
  }

  // ---------------------------------------------------------------- steps and runs

  datatype Event =
    | ReadDone(read: ReadResult)
    | WriteDone(k: nat, write: WriteResult)
    | TimerDone(wait: Wait)
    | TimerExpires
    | TimePasses(d: nat)

  predicate CanHappen(s: Session, e: Event) {
    match e
    case ReadDone(_) => 0 < s.reading
    case WriteDone(k, _) => k < |s.writing|
    case TimerDone(w) => s.timer.CanHandle(w)
    case TimerExpires => s.timer.CanExpire()
    case TimePasses(_) => true
  }

  function Step(s: Session, e: Event): Session
    requires CanHappen(s, e)
  {
    match e
    case ReadDone(r) => OnRead(s.(reading := s.reading - 1), r)
    case WriteDone(k, r) => OnWrite(s.(writing := s.writing[..k] + s.writing[k + 1..]), r, s.writing[k].needEof)
    case TimerDone(w) => OnTimer(s.(timer := s.timer.Handle(w)), w)
    case TimerExpires => s.(timer := s.timer.Expire())
    case TimePasses(d) => s.(timer := s.timer.Tick(d))
  }

  predicate Runs(s: Session, events: seq<Event>)
    decreases |events|
  {
    events == [] || (CanHappen(s, events[0]) && Runs(Step(s, events[0]), events[1..]))
  }

  function Run(s: Session, events: seq<Event>): Session
    requires Runs(s, events)
    decreases |events|
  {
    if events == [] then s else Run(Step(s, events[0]), events[1..])
  }

  // ---------------------------------------------------------------- the pipeline invariant

  /** A read is in progress exactly while reading goes on and the queue has room; a write exactly
      while writing goes on and the queue is not empty, and it is that of the front item. */
  predicate Flow(s: Session) {
    && |s.items| <= LIMIT
    && s.reading == (if !s.readEnded && |s.items| < LIMIT then 1 else 0)
    && s.writing == (if !s.writeEnded && s.items != [] then [s.items[0]] else [])
    && (s.readEnded ==> |s.items| < LIMIT)
    && (s.writeEnded ==> s.items != [])
  }

  /** The queue is what was submitted and not yet written; the writes begun are those completed
      and that of the front; responses are numbered in the order of requests. */
  predicate InOrder(items: seq<Response>, submitted: seq<Response>, started: seq<Response>, written: nat) {
    && written + |items| == |submitted|
    && items == submitted[written..]
    && started == submitted[..written + if items == [] then 0 else 1]
    && forall i | 0 <= i < |submitted| :: submitted[i].id == i
  }

  predicate Order(s: Session) { InOrder(s.items, s.submitted, s.started, s.written) }

  predicate Clock(s: Session) {
    && s.timer.expiry == At(s.lastRead + TIMEOUT)
    && s.lastRead <= s.timer.now
    && s.timer.Pending() == (if s.timerEnded then 0 else 1)
    && (!s.open ==> s.timerEnded)
  }

  predicate Inv(s: Session) { Flow(s) && Order(s) && Clock(s) }

  lemma PushKeepsOrder(items: seq<Response>, submitted: seq<Response>, started: seq<Response>, written: nat,
                       r: Response)
    requires InOrder(items, submitted, started, written) && r.id == |submitted|
    ensures InOrder(items + [r], submitted + [r], if items == [] then started + [r] else started, written)
  {
    assert (submitted + [r])[written..] == items + [r];
  }

  lemma PopKeepsOrder(items: seq<Response>, submitted: seq<Response>, started: seq<Response>, written: nat)
    requires InOrder(items, submitted, started, written) && items != []
    ensures InOrder(items[1..], submitted, if items[1..] == [] then started else started + [items[1]], written + 1)
  {
    assert submitted[written + 1..] == items[1..];
    if items[1..] != [] {
      assert submitted[..written + 2] == submitted[..written + 1] + [submitted[written + 1]];
      assert items[1] == submitted[written + 1];
    }
  }

  /** A new read moves the deadline; the wait that it cancels stays pending. */
  lemma DoReadKeepsInv(s: Session)
    requires s.reading == 0 && Inv(s.(reading := 1))
    ensures Inv(DoRead(s))
  {
    var q := DoRead(s);
    assert Clock(q) && Order(q) && Flow(q);
  }

  lemma SubmitKeepsInv(s: Session, r: Response)
    requires Inv(s.(reading := 1)) && s.reading == 0 && !s.readEnded && |s.items| < LIMIT && r.id == |s.submitted|
    ensures var q := Submit(s, r);
            && q.reading == 0 && Inv(if IsFull(q) then q else q.(reading := 1))
            && q == s.(items := q.items, writing := q.writing, submitted := q.submitted, started := q.started)
  {
    PushKeepsOrder(s.items, s.submitted, s.started, s.written, r);
    var q := Submit(s, r);
    assert Order(q) && Clock(q);
  }

  lemma ReadDoneKeepsInv(s: Session, r: ReadResult)
    requires Inv(s) && CanHappen(s, ReadDone(r))
    ensures Inv(Step(s, ReadDone(r)))
  {
    var p := s.(reading := 0);
    assert s.reading == 1 && p.(reading := 1) == s;
    if r.Request? {
      var q := Submit(p, Response(|s.submitted|, r.needEof));
      SubmitKeepsInv(p, Response(|s.submitted|, r.needEof));
      if !IsFull(q) {
        DoReadKeepsInv(q);
      }
    } else {
      var q := OnRead(p, r);
      assert Flow(q) && Order(q) && Clock(q);
    }
  }

  lemma PopFrontKeepsInv(s: Session)
    requires Order(s) && |s.items| <= LIMIT && s.items != [] && s.writing == [] && Clock(s) && !s.writeEnded
    ensures var q := PopFront(s).0;
            && Order(q) && Clock(q) && |q.items| == |s.items| - 1
            && q.writing == (if q.items != [] then [q.items[0]] else [])
            && q == s.(items := q.items, writing := q.writing, started := q.started, written := q.written)
  {
    PopKeepsOrder(s.items, s.submitted, s.started, s.written);
  }

  /** The session that the handler of a completed write starts from: no write is in progress. */
  lemma WriteDoneStep(s: Session, k: nat, r: WriteResult)
    requires Flow(s) && CanHappen(s, WriteDone(k, r))
    ensures k == 0 && s.items != [] && s.writing == [s.items[0]]
    ensures Step(s, WriteDone(k, r)) == OnWrite(s.(writing := []), r, s.items[0].needEof)
  {
    assert s.writing[..k] + s.writing[k + 1..] == [];
  }

  lemma OnWriteKeepsInv(s: Session, p: Session, r: WriteResult, close: bool)
    requires Inv(s) && s.writing != [] && p == s.(writing := [])
    ensures Inv(OnWrite(p, r, close))
  {
    if r != Written || close {
      var q := p.(writeEnded := true);
      assert Flow(q) && Order(q) && Clock(q);
    } else {
      PopFrontKeepsInv(p);
      var q := PopFront(p).0;
      if IsFull(p) {
        assert Flow(q.(reading := 1)) && Order(q.(reading := 1)) && Clock(q.(reading := 1));
        DoReadKeepsInv(q);
      } else {
        assert Flow(q);
      }
    }
  }

  lemma WriteDoneKeepsInv(s: Session, k: nat, r: WriteResult)
    requires Inv(s) && CanHappen(s, WriteDone(k, r))
    ensures Inv(Step(s, WriteDone(k, r)))
  {
    WriteDoneStep(s, k, r);
    OnWriteKeepsInv(s, s.(writing := []), r, s.items[0].needEof);
  }

  /** The timer has no part in the pipeline. */
  lemma TimerStep(s: Session, e: Event)
    requires CanHappen(s, e) && !e.ReadDone? && !e.WriteDone?
    ensures var q := Step(s, e); q == s.(timer := q.timer, open := q.open, timerEnded := q.timerEnded)
  {
    match e
    case TimerDone(w) => assert Step(s, e) == OnTimer(s.(timer := s.timer.Handle(w)), w);
    case TimerExpires =>
    case TimePasses(d) =>
  }

  lemma TimerKeepsClock(s: Session, e: Event)
    requires Clock(s) && CanHappen(s, e) && !e.ReadDone? && !e.WriteDone?
    ensures Clock(Step(s, e))
  {
    match e
    case TimerDone(w) => assert Clock(OnTimer(s.(timer := s.timer.Handle(w)), w));
    case TimerExpires =>
    case TimePasses(d) =>
  }

  lemma StepKeepsInv(s: Session, e: Event)
    requires Inv(s) && CanHappen(s, e)
    ensures Inv(Step(s, e))
    ensures e.WriteDone? ==> s.items != [] && s.writing[e.k] == s.items[0]
  {
    match e
    case ReadDone(r) => ReadDoneKeepsInv(s, r);
    case WriteDone(k, r) => WriteDoneKeepsInv(s, k, r);
    case _ =>
      TimerStep(s, e);
      TimerKeepsClock(s, e);
  }

  lemma {:induction false} RunKeepsInv(s: Session, events: seq<Event>)
    requires Inv(s) && Runs(s, events)
    ensures Inv(Run(s, events))
    decreases |events|
  {
    if events != [] {
      StepKeepsInv(s, events[0]);
      RunKeepsInv(Step(s, events[0]), events[1..]);
    }
  }

  // ---------------------------------------------------------------- whole runs

  /** Back-pressure and no stall, in every reachable state: at most one read and one write are in
      progress and at most `LIMIT` responses are queued; while neither direction has ended, a read
      is in progress iff the queue has room, a write iff it is not empty, so there is always one. */
  lemma Pipeline(now: int, events: seq<Event>)
    requires Runs(Start(now), events)
    ensures var s := Run(Start(now), events);
            && Inv(s) && |s.items| <= LIMIT && s.reading <= 1 && |s.writing| <= 1
            && (!s.readEnded && !s.writeEnded ==>
                  && (s.reading == 1 <==> |s.items| < LIMIT)
                  && (|s.writing| == 1 <==> s.items != [])
                  && s.reading + |s.writing| >= 1)
  {
    RunKeepsInv(Start(now), events);
  }

  /** Responses go out in the order of the requests they answer, none skipped and none repeated. */
  lemma ResponsesInOrder(now: int, events: seq<Event>)
    requires Runs(Start(now), events)
    ensures var s := Run(Start(now), events);
            s.started <= s.submitted && forall i | 0 <= i < |s.started| :: s.started[i].id == i
  {
    RunKeepsInv(Start(now), events);
  }

  lemma WriteOnlyAppends(s: Session, r: WriteResult, close: bool)
    ensures OnWrite(s, r, close).submitted == s.submitted && s.started <= OnWrite(s, r, close).started
    ensures s.readEnded == OnWrite(s, r, close).readEnded && (s.writeEnded ==> OnWrite(s, r, close).writeEnded)
  {
  }

  lemma ReadOnlyAppends(s: Session, r: ReadResult)
    ensures s.submitted <= OnRead(s, r).submitted && s.started <= OnRead(s, r).started
    ensures s.items != [] ==> OnRead(s, r).started == s.started
    ensures s.writeEnded == OnRead(s, r).writeEnded
  {
  }

  lemma StepOnlyAppends(s: Session, e: Event)
    requires Flow(s) && CanHappen(s, e)
    ensures s.submitted <= Step(s, e).submitted && s.started <= Step(s, e).started
    ensures s.writeEnded ==> Step(s, e).writeEnded && Step(s, e).started == s.started
    ensures s.readEnded ==> Step(s, e).readEnded && Step(s, e).submitted == s.submitted
  {
    match e
    case ReadDone(r) =>
      ReadOnlyAppends(s.(reading := s.reading - 1), r);
    case WriteDone(k, r) =>
      WriteDoneStep(s, k, r);
      WriteOnlyAppends(s.(writing := []), r, s.items[0].needEof);
    case _ =>
      TimerStep(s, e);
  }

  /** What was started stays started, in the same order; and once writing has ended nothing is
      started any more, whatever happens, just as nothing is submitted once reading has ended. */
  lemma {:induction false} RunOnlyAppends(s: Session, events: seq<Event>)
    requires Inv(s) && Runs(s, events)
    ensures s.submitted <= Run(s, events).submitted && s.started <= Run(s, events).started
    ensures s.writeEnded ==> Run(s, events).started == s.started && Run(s, events).writing == []
    ensures s.readEnded ==> Run(s, events).submitted == s.submitted && Run(s, events).reading == 0
    decreases |events|
  {
    if events != [] {
      StepKeepsInv(s, events[0]);
      StepOnlyAppends(s, events[0]);
      RunOnlyAppends(Step(s, events[0]), events[1..]);
    }
  }

  lemma EndOfWriting(s: Session, k: nat, r: WriteResult, after: seq<Event>)
    requires Inv(s) && CanHappen(s, WriteDone(k, r)) && (r != Written || s.writing[k].needEof)
    requires Runs(Step(s, WriteDone(k, r)), after)
    ensures Run(Step(s, WriteDone(k, r)), after).started == s.started
    ensures s.started != [] && s.started[|s.started| - 1] == s.writing[k]
  {
    StepKeepsInv(s, WriteDone(k, r));
    var q := Step(s, WriteDone(k, r));
    assert q.writeEnded && q.started == s.started;
    RunOnlyAppends(q, after);
  }

  /** Silence: after a write that failed, or one of a response that asked for the connection to be
      closed, no write is ever started again. */
  lemma Silence(now: int, before: seq<Event>, k: nat, r: WriteResult, after: seq<Event>)
    requires Runs(Start(now), before)
    requires var s := Run(Start(now), before);
             && CanHappen(s, WriteDone(k, r)) && (r != Written || s.writing[k].needEof)
             && Runs(Step(s, WriteDone(k, r)), after)
    ensures var s := Run(Start(now), before);
            && Run(Step(s, WriteDone(k, r)), after).started == s.started
            && s.started != [] && s.started[|s.started| - 1] == s.writing[k]
  {
    RunKeepsInv(Start(now), before);
    EndOfWriting(Run(Start(now), before), k, r, after);
  }

  // ---------------------------------------------------------------- deadlines

  /** A request that leaves room in the queue begins the next read, and so does a written response
      that makes room in a full queue. */
  predicate BeginsRead(s: Session, e: Event) {
    match e
    case ReadDone(Request(_)) => |s.items| + 1 < 8
    case WriteDone(_, Written) => |s.items| == 8 && !s.items[0].needEof
    case _ => false
  }

  /** The deadline is 15 seconds from now if the step begins a read, and where it was if not. */
  predicate Moved(s: Session, q: Session, begins: bool) {
    if begins then q.reading == 1 && q.lastRead == s.timer.now && q.timer.expiry == At(s.timer.now + 15 * SECOND)
    else q.lastRead == s.lastRead && q.timer.expiry == s.timer.expiry
  }

  lemma SubmitOnlyQueues(s: Session, r: Response)
    ensures var q := Submit(s, r);
            |q.items| == |s.items| + 1 && q.reading == s.reading && q.timer == s.timer && q.lastRead == s.lastRead
  {
  }

  lemma ReadMovesDeadline(s: Session, r: ReadResult)
    requires Inv(s) && CanHappen(s, ReadDone(r))
    ensures Moved(s, Step(s, ReadDone(r)), BeginsRead(s, ReadDone(r)))
  {
    if r.Request? {
      SubmitOnlyQueues(s.(reading := s.reading - 1), Response(|s.submitted|, r.needEof));
    }
  }

  lemma WriteMovesDeadline(s: Session, k: nat, r: WriteResult)
    requires Inv(s) && CanHappen(s, WriteDone(k, r))
    ensures Moved(s, Step(s, WriteDone(k, r)), BeginsRead(s, WriteDone(k, r)))
  {
    WriteDoneStep(s, k, r);
    if r == Written && !s.items[0].needEof {
      var p := s.(writing := []);
      PopFrontKeepsInv(p);
      var q := PopFront(p).0;
      assert q.timer == s.timer && q.lastRead == s.lastRead && q.reading == s.reading;
    }
  }

  /** Every step that begins a read moves the deadline, and no other step does. */
  lemma ReadsMoveDeadline(s: Session, e: Event)
    requires Inv(s) && CanHappen(s, e)
    ensures Moved(s, Step(s, e), BeginsRead(s, e))
  {
    match e
    case ReadDone(r) => ReadMovesDeadline(s, r);
    case WriteDone(k, r) => WriteMovesDeadline(s, k, r);
    case TimerDone(w) => assert Moved(s, OnTimer(s.(timer := s.timer.Handle(w)), w), false);
    case _ =>
  }

  lemma StepCloses(s: Session, e: Event)
    requires Clock(s) && s.open && CanHappen(s, e)
    ensures !Step(s, e).open <==> e.TimerDone? && e.wait != Failed && s.timer.now >= s.lastRead + TIMEOUT
  {
    if e.TimerDone? {
      assert s.timer.Handle(e.wait).Passed() <==> s.timer.now >= s.lastRead + TIMEOUT;
    }
  }

  /** The timer closes the socket exactly when one of its handlers is delivered, not having failed,
      `TIMEOUT` or more after the latest `do_read`.  A handler queued before the deadline moved is
      no exception: only the time of its delivery counts. */
  lemma ClosesExactlyWhenOverdue(now: int, events: seq<Event>, e: Event)
    requires Runs(Start(now), events)
    requires var s := Run(Start(now), events); s.open && CanHappen(s, e)
    ensures var s := Run(Start(now), events);
            !Step(s, e).open <==> e.TimerDone? && e.wait != Failed && s.timer.now >= s.lastRead + TIMEOUT
  {
    RunKeepsInv(Start(now), events);
    StepCloses(Run(Start(now), events), e);
  }

  /** Exactly one wait is pending until the timer ends, so an overdue session is closed in at most
      two steps of its timer, whatever state the wait is in. */
  lemma OverdueSessionCanClose(now: int, events: seq<Event>)
    requires Runs(Start(now), events)
    ensures var s := Run(Start(now), events);
            && s.timer.Pending() == (if s.timerEnded then 0 else 1)
            && (!s.timerEnded && s.timer.now >= s.lastRead + TIMEOUT ==>
                  || (CanHappen(s, TimerDone(Expired)) && !Step(s, TimerDone(Expired)).open)
                  || (CanHappen(s, TimerDone(Aborted)) && !Step(s, TimerDone(Aborted)).open)
                  || (Runs(s, [TimerExpires, TimerDone(Expired)]) && !Run(s, [TimerExpires, TimerDone(Expired)]).open))
  {
    RunKeepsInv(Start(now), events);
    var s := Run(Start(now), events);
    if s.timer.CanExpire() {
      var q := Step(s, TimerExpires);
      assert [TimerExpires, TimerDone(Expired)][1..] == [TimerDone(Expired)];
      assert CanHappen(q, TimerDone(Expired)) && Runs(Step(q, TimerDone(Expired)), []);
      assert Run(q, [TimerDone(Expired)]) == Step(q, TimerDone(Expired));
    }
  }
}
