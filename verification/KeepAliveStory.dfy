/** The keep-alive protocol, told from its events alone: no timer and no ping state, just the time
    that has passed in silence.  Every run of the session matches its story. */
module KeepAliveStory {
  import opened SteadyTimer
  import opened KeepAlive

  /** `quiet` is the time since the peer was last heard, or since `do_accept`; `idle` the time since
      then or since the ping that was begun meanwhile.  `pinged`: there was such a ping; `sent`: a ping
      was reported as sent after it.  `dropped`: the timer closed the connection; `watched`: it goes on. */
  datatype Story = Story(
    quiet: nat, idle: nat, pinged: bool, sent: bool, open: bool, dropped: bool, watched: bool, begun: nat, pings: int)

  const Beginning := Story(0, 0, false, false, false, false, true, 0, 0)

  function Tell(st: Story, e: Event): Story {
    match e
    case Opens => st.(open := true)
    case Closes => st.(open := false)
    case Heard => st.(quiet := 0, idle := 0, pinged := false, sent := false)
    case PingDone(r) => st.(pings := st.pings - 1, sent := st.sent || (st.pinged && r == Sent))
    case TimerDone(w) =>
      if w == Failed then st.(watched := false)
      else if st.idle < 15 * SECOND then st
      else if st.open && !st.pinged then
        st.(idle := 0, pinged := true, sent := false, begun := st.begun + 1, pings := st.pings + 1)
      else st.(dropped := true, watched := false)
    case TimerExpires => st
    case TimePasses(d) => st.(quiet := st.quiet + d, idle := st.idle + d)
  }

  function Told(st: Story, events: seq<Event>): Story
    decreases |events|
  {
    if events == [] then st else Told(Tell(st, events[0]), events[1..])
  }

  /** The session is just as its story has it. */
  predicate Matches(s: Session, st: Story) {
    && s.lastActivity + st.quiet == s.timer.now
    && s.timer.expiry == At(s.timer.now - st.idle + 15 * SECOND)
    && s.pingState == (if !st.pinged then 0 else if st.sent then 2 else 1)
    && s.sinceActivity == (if st.pinged then 1 else 0)
    && s.open == st.open && s.connected == !st.dropped
    && s.timer.Pending() == (if st.watched then 1 else 0) && s.timerEnded == !st.watched
    && s.begun == st.begun && s.pings == st.pings
  }

  /** A ping begins only after 15 seconds of silence. */
  predicate Sound(st: Story) {
    if st.pinged then st.quiet >= st.idle + 15 * SECOND else st.idle == st.quiet && !st.sent
  }

  /** The handler runs with its wait taken off the timer. */
  lemma TimerMatches(s: Session, st: Story, w: Wait)
    requires Inv(s) && Matches(s, st) && Sound(st) && CanHappen(s, TimerDone(w))
    ensures Matches(Step(s, TimerDone(w)), Tell(st, TimerDone(w))) && Sound(Tell(st, TimerDone(w)))
  {
    var p := s.(timer := s.timer.Handle(w));
    assert p.timer.Passed() <==> st.idle >= 15 * SECOND;
    assert Step(s, TimerDone(w)) == OnTimer(p, w) && p.timer.Pending() == 0;
  }

  lemma HeardMatches(s: Session, st: Story)
    requires Matches(s, st)
    ensures Matches(Activity(s), Tell(st, Heard))
  {
  }

  lemma PingMatches(s: Session, st: Story, r: PingResult)
    requires Matches(s, st) && 0 < s.pings && (!st.pinged ==> !st.sent)
    ensures Matches(Step(s, PingDone(r)), Tell(st, PingDone(r)))
  {
  }

  lemma ClockMatches(s: Session, st: Story, e: Event)
    requires Matches(s, st) && CanHappen(s, e) && (e.TimerExpires? || e.TimePasses? || e.Opens? || e.Closes?)
    ensures Matches(Step(s, e), Tell(st, e))
  {
  }

  lemma StepMatches(s: Session, st: Story, e: Event)
    requires Inv(s) && Matches(s, st) && Sound(st) && CanHappen(s, e)
    ensures Matches(Step(s, e), Tell(st, e)) && Sound(Tell(st, e))
  {
    match e
    case TimerDone(w) => TimerMatches(s, st, w);
    case Heard => HeardMatches(s, st);
    case PingDone(r) => PingMatches(s, st, r);
    case _ => ClockMatches(s, st, e);
  }

  lemma {:induction false} RunMatches(s: Session, st: Story, events: seq<Event>)
    requires Inv(s) && Matches(s, st) && Sound(st) && Runs(s, events)
    ensures Inv(Run(s, events)) && Matches(Run(s, events), Told(st, events)) && Sound(Told(st, events))
    decreases |events|
  {
    if events != [] {
      StepKeepsInv(s, events[0]);
      StepMatches(s, st, events[0]);
      RunMatches(Step(s, events[0]), Tell(st, events[0]), events[1..]);
    }
  }

  /** In every run the whole state of the session is the one that its events tell: when the peer was
      last heard and the deadline last moved, what has become of the ping, and what goes on. */
  lemma SessionMatchesStory(now: int, events: seq<Event>)
    requires Runs(Accept(now), events)
    ensures Matches(Run(Accept(now), events), Told(Beginning, events))
  {
    RunMatches(Accept(now), Beginning, events);
  }

  /** The time that an event leaves since the peer was last heard, `q` being that before. */
  function QuietAfter(q: nat, e: Event): nat {
    match e
    case Heard => 0
    case TimePasses(d) => q + d
    case _ => q
  }

  /** The same for a sequence of events. */
  function Quiet(q: nat, events: seq<Event>): nat
    decreases |events|
  {
    if events == [] then q else Quiet(QuietAfter(q, events[0]), events[1..])
  }

  lemma {:induction false} QuietIsTold(st: Story, events: seq<Event>)
    ensures Told(st, events).quiet == Quiet(st.quiet, events)
    decreases |events|
  {
    if events != [] {
      assert Tell(st, events[0]).quiet == QuietAfter(st.quiet, events[0]);
      QuietIsTold(Tell(st, events[0]), events[1..]);
    }
  }

  /** The connection is dropped exactly when a handler that did not fail is delivered 15 seconds after
      the deadline last moved, unless that begins a ping.  By then the peer was not heard for 30 seconds
      if the session is open, and for 15 in any case: a peer that is heard in time is never dropped. */
  lemma DropsExactlyWhenIdle(now: int, events: seq<Event>, e: Event)
    requires Runs(Accept(now), events)
    requires var s := Run(Accept(now), events); s.connected && CanHappen(s, e)
    ensures var s := Run(Accept(now), events);
            var st := Told(Beginning, events);
            && (!Step(s, e).connected <==>
                  e.TimerDone? && e.wait != Failed && st.idle >= 15 * SECOND && !(st.open && !st.pinged))
            && (!Step(s, e).connected ==> Quiet(0, events) >= if st.open then 30 * SECOND else 15 * SECOND)
  {
    RunMatches(Accept(now), Beginning, events);
    StepMatches(Run(Accept(now), events), Told(Beginning, events), e);
    QuietIsTold(Beginning, events);
  }

  /** A ping begins exactly when such a handler is delivered to an open session that was not pinged
      since the peer was last heard, 15 seconds ago or more. */
  lemma PingsExactlyWhenQuiet(now: int, events: seq<Event>, e: Event)
    requires Runs(Accept(now), events) && CanHappen(Run(Accept(now), events), e)
    ensures var s := Run(Accept(now), events);
            var st := Told(Beginning, events);
            Step(s, e).begun != s.begun <==>
              e.TimerDone? && e.wait != Failed && st.open && !st.pinged && Quiet(0, events) >= 15 * SECOND
  {
    RunMatches(Accept(now), Beginning, events);
    StepMatches(Run(Accept(now), events), Told(Beginning, events), e);
    QuietIsTold(Beginning, events);
  }
}
