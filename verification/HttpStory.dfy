/** The pipelined HTTP session, told from its events alone: no handlers, no timer, no operations in
    progress, just the requests answered, the responses written and the time since the last read
    began.  Every run of the session matches its story. */
module HttpStory {
  import opened SteadyTimer
  import opened HttpPipeline

  /** `idle` is the time since a read was last begun.  `closed`: the timer closed the socket;
      `watched`: the timer still goes on. */
  datatype Story = Story(
    answers: seq<Response>, written: nat, idle: nat, readEnded: bool, writeEnded: bool, closed: bool, watched: bool)
  {
    function Queued(): int { |answers| - written }
  }

  const Beginning := Story([], 0, 0, false, false, false, true)

  function Tell(st: Story, e: Event): Story {
    match e
    case ReadDone(Request(needEof)) =>
      var answers := st.answers + [Response(|st.answers|, needEof)];
      st.(answers := answers, idle := if |answers| - st.written < 8 then 0 else st.idle)
    case ReadDone(_) => st.(readEnded := true)
    case WriteDone(_, r) =>
      if r != Written || |st.answers| <= st.written || st.answers[st.written].needEof then st.(writeEnded := true)
      else st.(written := st.written + 1, idle := if st.Queued() == 8 then 0 else st.idle)
    case TimerDone(w) =>
      if w == Failed then st.(watched := false)
      else if st.idle >= 15 * SECOND then st.(closed := true, watched := false)
      else st
    case TimerExpires => st
    case TimePasses(d) => st.(idle := st.idle + d)
  }

  function Told(st: Story, events: seq<Event>): Story
    decreases |events|
  {
    if events == [] then st else Told(Tell(st, events[0]), events[1..])
  }

  /** The session is just as its story has it. */
  predicate Matches(s: Session, st: Story) {
    && st.written <= |st.answers|
    && s.submitted == st.answers && s.written == st.written && s.items == st.answers[st.written..]
    && s.started == st.answers[..st.written + if st.written < |st.answers| then 1 else 0]
    && s.readEnded == st.readEnded && s.reading == (if !st.readEnded && st.Queued() < 8 then 1 else 0)
    && s.writeEnded == st.writeEnded
    && s.writing == (if !st.writeEnded && 0 < st.Queued() then [st.answers[st.written]] else [])
    && s.lastRead + st.idle == s.timer.now && s.timer.expiry == At(s.lastRead + 15 * SECOND)
    && s.open == !st.closed && s.timer.Pending() == (if st.watched then 1 else 0)
  }

  /** The part of it that does not follow from the invariant of the session. */
  predicate Agrees(s: Session, st: Story) {
    && s.submitted == st.answers && s.written == st.written
    && s.readEnded == st.readEnded && s.writeEnded == st.writeEnded
    && s.lastRead + st.idle == s.timer.now
    && s.open == !st.closed && s.timerEnded == !st.watched
  }

  lemma AgreesMatches(s: Session, st: Story)
    requires Inv(s) && Agrees(s, st)
    ensures Matches(s, st)
  {
  }

  lemma ReadAgrees(s: Session, st: Story, r: ReadResult)
    requires Inv(s) && Agrees(s, st) && CanHappen(s, ReadDone(r))
    ensures Agrees(Step(s, ReadDone(r)), Tell(st, ReadDone(r)))
  {
    ReadsMoveDeadline(s, ReadDone(r));
    if r.Request? {
      SubmitKeepsInv(s.(reading := 0), Response(|s.submitted|, r.needEof));
    }
  }

  lemma WriteAgrees(s: Session, st: Story, k: nat, r: WriteResult)
    requires Inv(s) && Agrees(s, st) && CanHappen(s, WriteDone(k, r))
    ensures Agrees(Step(s, WriteDone(k, r)), Tell(st, WriteDone(k, r)))
  {
    WriteDoneStep(s, k, r);
    ReadsMoveDeadline(s, WriteDone(k, r));
    assert s.items[0] == st.answers[st.written];
    if r == Written && !s.items[0].needEof {
      PopFrontKeepsInv(s.(writing := []));
    }
  }

  lemma TimerAgrees(s: Session, st: Story, e: Event)
    requires Inv(s) && Agrees(s, st) && CanHappen(s, e) && !e.ReadDone? && !e.WriteDone?
    ensures Agrees(Step(s, e), Tell(st, e))
  {
    TimerStep(s, e);
    ReadsMoveDeadline(s, e);
    TimerKeepsClock(s, e);
  }

  lemma StepAgrees(s: Session, st: Story, e: Event)
    requires Inv(s) && Agrees(s, st) && CanHappen(s, e)
    ensures Agrees(Step(s, e), Tell(st, e))
  {
    match e
    case ReadDone(r) => ReadAgrees(s, st, r);
    case WriteDone(k, r) => WriteAgrees(s, st, k, r);
    case _ => TimerAgrees(s, st, e);
  }

  lemma {:induction false} RunAgrees(s: Session, st: Story, events: seq<Event>)
    requires Inv(s) && Agrees(s, st) && Runs(s, events)
    ensures Inv(Run(s, events)) && Agrees(Run(s, events), Told(st, events))
    decreases |events|
  {
    if events != [] {
      StepKeepsInv(s, events[0]);
      StepAgrees(s, st, events[0]);
      RunAgrees(Step(s, events[0]), Tell(st, events[0]), events[1..]);
    }
  }

  /** In every run the whole state of the session is the one that its events tell: which requests
      were answered and with what wish to close, what was written, what goes on, and the deadline. */
  lemma SessionMatchesStory(now: int, events: seq<Event>)
    requires Runs(Start(now), events)
    ensures Matches(Run(Start(now), events), Told(Beginning, events))
  {
    RunAgrees(Start(now), Beginning, events);
    AgreesMatches(Run(Start(now), events), Told(Beginning, events));
  }

  /** The timer closes the socket exactly when a handler that did not fail is delivered 15 seconds or
      more after the last read began, as the events tell it. */
  lemma ClosesExactlyWhenIdle(now: int, events: seq<Event>, e: Event)
    requires Runs(Start(now), events)
    requires var s := Run(Start(now), events); s.open && CanHappen(s, e)
    ensures !Step(Run(Start(now), events), e).open <==>
              e.TimerDone? && e.wait != Failed && Told(Beginning, events).idle >= 15 * SECOND
  {
    RunAgrees(Start(now), Beginning, events);
    StepAgrees(Run(Start(now), events), Told(Beginning, events), e);
  }
}
