/** The keep-alive protocol of `websocket_session` in example/advanced/server/advanced_server.cpp:
    a quiet peer is pinged, and dropped if it stays quiet. */
module KeepAlive {
  import opened SteadyTimer

  const TIMEOUT := 15 * SECOND

  datatype PingResult = Sent | PingAborted | PingFailed

  /** `pingState` is 0 when the peer was heard since the last ping, 1 when a ping is being sent and
      2 when it was sent.  `open` says that the websocket handshake is done and neither side has
      closed, `connected` that the timer did not close the socket; `pings` counts the pings in
      progress.

      The rest is history: the time of the last activity (or of `do_accept`), the number of pings
      begun in all and since then, whether two pings were ever in progress at once, and whether
      the timer has ended. */
  datatype Session = Session(
    pingState: nat, timer: Timer, open: bool, connected: bool, pings: nat,
    lastActivity: int, begun: nat, sinceActivity: nat, overlapped: bool, timerEnded: bool)

  // ---------------------------------------------------------------- handlers

  function BeginPing(s: Session): Session {
    s.(pingState := 1, timer := s.timer.ExpiresAfter(TIMEOUT), pings := s.pings + 1,
       begun := s.begun + 1, sinceActivity := s.sinceActivity + 1, overlapped := s.overlapped || 0 < s.pings)
  }

  function OnTimer(s: Session, w: Wait): Session {
    if w == Failed then s.(timerEnded := true)
    else if s.timer.Passed() && !(s.open && s.pingState == 0) then s.(connected := false, timerEnded := true)
    else
      var q := if s.timer.Passed() then BeginPing(s) else s;
      q.(timer := q.timer.AsyncWait())
  }

  /** A control frame, or a completed read other than one that reports an aborted operation or a
      closed websocket: a read that failed otherwise is reported and then counts as activity. */
  function Activity(s: Session): Session {
    s.(pingState := 0, timer := s.timer.ExpiresAfter(TIMEOUT), lastActivity := s.timer.now, sinceActivity := 0)
  }

  function OnPing(s: Session, r: PingResult): Session {
    if r == Sent && s.pingState == 1 then s.(pingState := 2) else s
  }

  /** `do_accept`, on a session whose deadline was never set. */
  function Accept(now: int): Session {
    var s := OnTimer(Session(0, IdleTimer(now), false, true, 0, now, 0, 0, false, false), Expired);
    s.(timer := s.timer.ExpiresAfter(TIMEOUT))
  }

  // ---------------------------------------------------------------- steps and runs

  datatype Event =
    | Opens
    | Closes
    | Heard
    | PingDone(ping: PingResult)
    | TimerDone(wait: Wait)
    | TimerExpires
    | TimePasses(d: nat)

  predicate CanHappen(s: Session, e: Event) {
    match e
    case PingDone(_) => 0 < s.pings
    case TimerDone(w) => s.timer.CanHandle(w)
    case TimerExpires => s.timer.CanExpire()
    case _ => true
  }

  function Step(s: Session, e: Event): Session
    requires CanHappen(s, e)
  {
    match e
    case Opens => s.(open := true)
    case Closes => s.(open := false)
    case Heard => Activity(s)
    case PingDone(r) => OnPing(s.(pings := s.pings - 1), r)
    case TimerDone(w) => OnTimer(s.(timer := s.timer.Handle(w)), w)
    case TimerExpires => s.(timer := s.timer.Expire())
    case TimePasses(d) => s.(timer := s.timer.Tick(d))
  }

  predicate Runs(s: Session, events: seq<Event>)
    decreases |events|
  {
    events == [] || (CanHappen(s, events[0]) && Runs(Step(s, events[0]), events[1..]))
  }

  function Run(s: Session, events: seq<Event>): Session
    requires Runs(s, events)
    decreases |events|
  {
    if events == [] then s else Run(Step(s, events[0]), events[1..])
  }

  lemma FirstEvent(s: Session, e: Event, rest: seq<Event>)
    requires CanHappen(s, e) && Runs(Step(s, e), rest)
    ensures Runs(s, [e] + rest) && Run(s, [e] + rest) == Run(Step(s, e), rest)
  {
    assert ([e] + rest)[1..] == rest;
  }

  lemma {:induction false} RunTwice(s: Session, first: seq<Event>, second: seq<Event>)
    requires Runs(s, first) && Runs(Run(s, first), second)
    ensures Runs(s, first + second) && Run(s, first + second) == Run(Run(s, first), second)
    decreases |first|
  {
    if first == [] {
      assert [] + second == second;
    } else {
      RunTwice(Step(s, first[0]), first[1..], second);
      FirstEvent(s, first[0], first[1..] + second);
      assert [first[0]] + (first[1..] + second) == first + second;
    }
  }

  // ---------------------------------------------------------------- invariants

  predicate Windows(s: Session) {
    && s.lastActivity <= s.timer.now
    && s.timer.expiry.At? && s.timer.expiry.t <= s.timer.now + TIMEOUT
    && (if s.pingState == 0 then s.timer.expiry.t == s.lastActivity + TIMEOUT
        else s.timer.expiry.t >= s.lastActivity + 2 * TIMEOUT)
    && s.sinceActivity == (if s.pingState == 0 then 0 else 1)
    && s.pingState <= 2
  }

  predicate Chain(s: Session) {
    && s.timer.Pending() == (if s.timerEnded then 0 else 1)
    && (!s.connected ==> s.timerEnded)
  }

  predicate Apart(s: Session) {
    && s.sinceActivity <= s.begun
    && (!s.overlapped ==> s.pings <= 1 && (s.pingState == 2 ==> s.pings == 0))
  }

  predicate Inv(s: Session) { Windows(s) && Chain(s) && Apart(s) }

  lemma TimerKeepsInv(s: Session, w: Wait)
    requires Windows(s) && Apart(s) && s.timer.Pending() == 0 && !s.timerEnded && s.connected
    ensures Inv(OnTimer(s, w))
  {
  }

  lemma StepKeepsInv(s: Session, e: Event)
    requires Inv(s) && CanHappen(s, e)
    ensures Inv(Step(s, e))
  {
    if e.TimerDone? {
      TimerKeepsInv(s.(timer := s.timer.Handle(e.wait)), e.wait);
    }
  }

  lemma {:induction false} RunKeepsInv(s: Session, events: seq<Event>)
    requires Inv(s) && Runs(s, events)
    ensures Inv(Run(s, events))
    decreases |events|
  {
    if events != [] {
      StepKeepsInv(s, events[0]);
      RunKeepsInv(Step(s, events[0]), events[1..]);
    }
  }

  // ---------------------------------------------------------------- single steps

  predicate Silent(s: Session) { s.timer.now >= s.lastActivity + if s.open then 2 * TIMEOUT else TIMEOUT }

  lemma StepDrops(s: Session, e: Event)
    requires Inv(s) && s.connected && CanHappen(s, e)
    ensures !Step(s, e).connected <==>
              e.TimerDone? && e.wait != Failed && s.timer.Passed() && !(s.open && s.pingState == 0)
    ensures !Step(s, e).connected ==>
              Silent(s) && Step(s, e).timer.now == s.timer.now && Step(s, e).lastActivity == s.lastActivity
              && Step(s, e).open == s.open
  {
  }

  lemma StepPings(s: Session, e: Event)
    requires Inv(s) && CanHappen(s, e)
    ensures Step(s, e).begun != s.begun <==>
              && e.TimerDone? && e.wait != Failed && s.open && s.sinceActivity == 0
              && s.timer.now >= s.lastActivity + TIMEOUT
    ensures Step(s, e).begun != s.begun ==>
              Step(s, e).timer.now == s.timer.now && Step(s, e).lastActivity == s.lastActivity
  {
  }

  // ---------------------------------------------------------------- whole runs

  /** The timer drops the peer exactly when one of its handlers, not having failed, is delivered
      after the deadline to a session that is not open or was already pinged.  By then an open
      session has been silent for twice the timeout, any other one for the timeout. */
  lemma DropsOnlyTheSilent(now: int, events: seq<Event>, e: Event)
    requires Runs(Accept(now), events)
    requires var s := Run(Accept(now), events); s.connected && CanHappen(s, e)
    ensures var s := Run(Accept(now), events);
            && (!Step(s, e).connected <==>
                  e.TimerDone? && e.wait != Failed && s.timer.Passed() && !(s.open && s.pingState == 0))
            && (!Step(s, e).connected ==> Silent(s))
  {
    RunKeepsInv(Accept(now), events);
    StepDrops(Run(Accept(now), events), e);
  }

  /** A ping is begun exactly when the timeout has passed without activity on an open session that
      was not pinged yet; a stale handler delivered before that only waits again. */
  lemma PingsOnlyTheQuiet(now: int, events: seq<Event>, e: Event)
    requires Runs(Accept(now), events) && CanHappen(Run(Accept(now), events), e)
    ensures var s := Run(Accept(now), events);
            Step(s, e).begun != s.begun <==>
              && e.TimerDone? && e.wait != Failed && s.open && s.sinceActivity == 0
              && s.timer.now >= s.lastActivity + TIMEOUT
  {
    RunKeepsInv(Accept(now), events);
    StepPings(Run(Accept(now), events), e);
  }

  lemma StepCountsPings(s: Session, e: Event)
    requires Inv(s) && CanHappen(s, e) && e != Heard
    ensures Step(s, e).begun - s.begun == Step(s, e).sinceActivity - s.sinceActivity
  {
  }

  /** Between two consecutive activities at most one ping is begun. */
  lemma {:induction false} AtMostOnePing(s: Session, events: seq<Event>)
    requires Inv(s) && Runs(s, events) && Heard !in events
    ensures Run(s, events).begun == s.begun + Run(s, events).sinceActivity - s.sinceActivity
    ensures Run(s, events).begun <= s.begun + 1
    decreases |events|
  {
    RunKeepsInv(s, events);
    if events != [] {
      StepKeepsInv(s, events[0]);
      StepCountsPings(s, events[0]);
      AtMostOnePing(Step(s, events[0]), events[1..]);
    }
  }

  /** The next thing that the timer does to a silent peer. */
  predicate Acts(before: Session, after: Session) {
    if before.open && before.sinceActivity == 0
    then after.begun == before.begun + 1 && after.pingState == 1 && !after.timerEnded
    else !after.connected
  }

  /** The handler of the one pending wait, whose expiry may have to come first. */
  function HandleWait(s: Session): seq<Event> {
    if 0 < s.timer.waiting then [TimerExpires] + [TimerDone(Expired)]
    else [TimerDone(if 0 < s.timer.expired then Expired else Aborted)]
  }

  lemma HandlerActs(s: Session, w: Wait)
    requires Inv(s) && s.timer.CanHandle(w) && w != Failed && s.timer.Passed()
    ensures Runs(s, [TimerDone(w)]) && Run(s, [TimerDone(w)]) == Step(s, TimerDone(w))
    ensures Acts(s, Step(s, TimerDone(w))) && Step(s, TimerDone(w)).timer.now == s.timer.now
  {
    StepKeepsInv(s, TimerDone(w));
    FirstEvent(s, TimerDone(w), []);
    assert [TimerDone(w)] + [] == [TimerDone(w)];
  }

  /** Once the deadline has passed, at most two steps of the one pending wait act on it. */
  lemma OverdueActs(s: Session)
    requires Inv(s) && !s.timerEnded && s.timer.Passed()
    ensures Runs(s, HandleWait(s)) && Acts(s, Run(s, HandleWait(s)))
    ensures Run(s, HandleWait(s)).timer.now == s.timer.now
  {
    if 0 < s.timer.waiting {
      var q := Step(s, TimerExpires);
      HandlerActs(q, Expired);
      FirstEvent(s, TimerExpires, [TimerDone(Expired)]);
    } else {
      HandlerActs(s, if 0 < s.timer.expired then Expired else Aborted);
    }
  }

  lemma OverdueSessionActs(now: int, events: seq<Event>)
    requires Runs(Accept(now), events)
    ensures var s := Run(Accept(now), events);
            && s.timer.Pending() == (if s.timerEnded then 0 else 1)
            && (!s.timerEnded && s.timer.Passed() ==> Runs(s, HandleWait(s)) && Acts(s, Run(s, HandleWait(s))))
  {
    RunKeepsInv(Accept(now), events);
    var s := Run(Accept(now), events);
    if !s.timerEnded && s.timer.Passed() {
      OverdueActs(s);
    }
  }

  function UntilDeadline(s: Session): nat
    requires s.timer.expiry.At?
  {
    if s.timer.Passed() then 0 else s.timer.expiry.t - s.timer.now
  }

  /** Time passes up to the deadline, and then the timer acts. */
  function NextRound(s: Session): seq<Event>
    requires s.timer.expiry.At?
  {
    [TimePasses(UntilDeadline(s))] + HandleWait(Step(s, TimePasses(UntilDeadline(s))))
  }

  lemma DeadlineComes(s: Session)
    requires Inv(s)
    ensures var late := Step(s, TimePasses(UntilDeadline(s)));
            && Inv(late) && late.timer.Passed() && late.timer.now <= s.timer.now + TIMEOUT
            && late == s.(timer := late.timer)
  {
  }

  lemma HandleWaitIsShort(s: Session)
    ensures |HandleWait(s)| <= 2 && Heard !in HandleWait(s)
  {
  }

  lemma RoundActs(s: Session)
    requires Inv(s) && !s.timerEnded
    ensures |NextRound(s)| <= 3 && Heard !in NextRound(s)
    ensures Runs(s, NextRound(s)) && Acts(s, Run(s, NextRound(s)))
    ensures Run(s, NextRound(s)).timer.now <= s.timer.now + TIMEOUT
  {
    var e := TimePasses(UntilDeadline(s));
    var late := Step(s, e);
    DeadlineComes(s);
    HandleWaitIsShort(late);
    OverdueActs(late);
    FirstEvent(s, e, HandleWait(late));
    assert NextRound(s) == [e] + HandleWait(late);
  }

  /** The session is dropped by `more`, in a few steps and little time without the peer being heard. */
  predicate DroppedBy(s: Session, more: seq<Event>) {
    && |more| <= 6 && Heard !in more && Runs(s, more)
    && !Run(s, more).connected && Run(s, more).timer.now <= s.timer.now + 2 * TIMEOUT
  }

  lemma SilentIsDropped(s: Session) returns (more: seq<Event>)
    requires Inv(s) && !s.timerEnded
    ensures DroppedBy(s, more)
  {
    more := NextRound(s);
    RoundActs(s);
    var q := Run(s, more);
    RunKeepsInv(s, more);
    if q.connected {
      RoundActs(q);
      RunTwice(s, more, NextRound(q));
      more := more + NextRound(q);
    }
  }

  /** A peer that stays silent can be dropped: from every reachable state whose timer goes on there is
      a run of at most six steps and twice the timeout, without activity, that drops it. */
  lemma SilentPeerIsDropped(now: int, events: seq<Event>)
    requires Runs(Accept(now), events) && !Run(Accept(now), events).timerEnded
    ensures exists more :: DroppedBy(Run(Accept(now), events), more)
  {
    RunKeepsInv(Accept(now), events);
    var more := SilentIsDropped(Run(Accept(now), events));
  }

  // ---------------------------------------------------------------- every delivery after a deadline

  /** How many timer handlers of the run are delivered after the deadline. */
  function Late(s: Session, events: seq<Event>): nat
    requires Runs(s, events)
    decreases |events|
  {
    if events == [] then 0
    else (if events[0].TimerDone? && s.timer.Passed() then 1 else 0) + Late(Step(s, events[0]), events[1..])
  }

  function Drops(s: Session): nat { if s.connected then 0 else 1 }

  /** The timer ended by dropping the connection, if at all. */
  predicate EndsByDrop(s: Session) { s.timerEnded <==> !s.connected }

  lemma LateStep(s: Session, e: Event)
    requires Inv(s) && EndsByDrop(s) && CanHappen(s, e) && e != TimerDone(Failed)
    ensures EndsByDrop(Step(s, e))
    ensures Step(s, e).begun + Drops(Step(s, e))
            == s.begun + Drops(s) + if e.TimerDone? && s.timer.Passed() then 1 else 0
    ensures s.timerEnded ==> !e.TimerDone? && Step(s, e).timerEnded
  {
  }

  /** In every run in which no wait fails, each handler delivered after the deadline has begun a ping
      or dropped the connection, and nothing else did either. */
  lemma {:induction false} LateHandlersAct(s: Session, events: seq<Event>)
    requires Inv(s) && EndsByDrop(s) && Runs(s, events) && TimerDone(Failed) !in events
    ensures EndsByDrop(Run(s, events))
    ensures Run(s, events).begun + Drops(Run(s, events)) == s.begun + Drops(s) + Late(s, events)
    ensures s.timerEnded ==> Late(s, events) == 0
    decreases |events|
  {
    if events != [] {
      StepKeepsInv(s, events[0]);
      LateStep(s, events[0]);
      LateHandlersAct(Step(s, events[0]), events[1..]);
    }
  }

  /** So a silent peer is dropped in every run: at most two handlers are delivered after the deadline,
      the second drops the connection, and so does the first if a ping is out or the session was not
      open then; a session whose timer has ended is sure to be dropped. */
  lemma SecondLateHandlerDrops(now: int, before: seq<Event>, silence: seq<Event>)
    requires Runs(Accept(now), before) && TimerDone(Failed) !in before
    requires Runs(Run(Accept(now), before), silence)
    requires Heard !in silence && TimerDone(Failed) !in silence
    ensures var s := Run(Accept(now), before);
            var q := Run(s, silence);
            && Late(s, silence) <= (if !s.connected then 0 else if s.sinceActivity == 0 then 2 else 1)
            && (s.connected && Late(s, silence) == (if s.sinceActivity == 0 then 2 else 1) ==> !q.connected)
            && (s.connected && 0 < Late(s, silence) && q.begun == s.begun ==> !q.connected)
            && (q.timerEnded <==> !q.connected)
  {
    RunKeepsInv(Accept(now), before);
    LateHandlersAct(Accept(now), before);
    var s := Run(Accept(now), before);
    RunKeepsInv(s, silence);
    LateHandlersAct(s, silence);
    AtMostOnePing(s, silence);
  }
}
