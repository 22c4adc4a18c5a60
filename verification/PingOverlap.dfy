/** The assertion in `on_ping` of `websocket_session`: it can fail, and it can in exactly those runs in
    which two pings were in progress at once. */
module PingOverlap {
  import opened SteadyTimer
  import opened KeepAlive

  /** `on_ping` asserts that the state is 0 when it is not 1. */
  predicate AssertionFails(s: Session, e: Event) {
    CanHappen(s, e) && e == PingDone(Sent) && s.pingState != 1 && s.pingState != 0
  }

  /** Two pings in a row are reported as sent, and the second report fails the assertion. */
  predicate TwoFail(s: Session) {
    CanHappen(s, PingDone(Sent)) && AssertionFails(Step(s, PingDone(Sent)), PingDone(Sent))
  }

  /** Right after a ping begins, that is so exactly when another ping was still in progress. */
  lemma OverlapFailsAssertion(s: Session)
    requires Inv(s) && s.pingState == 1
    ensures s.pings >= 2 <==> TwoFail(s)
  {
  }

  lemma StepOverlaps(s: Session, e: Event)
    requires Inv(s) && CanHappen(s, e)
    ensures s.overlapped ==> Step(s, e).overlapped
    ensures !s.overlapped && Step(s, e).overlapped ==> TwoFail(Step(s, e)) && 2 <= Step(s, e).pings
  {
    StepKeepsInv(s, e);
  }

  lemma FailingNeedsOverlap(s: Session, e: Event)
    requires Inv(s) && AssertionFails(s, e)
    ensures s.overlapped
  {
  }

  /** Somewhere along the run, two completions in a row would fail the assertion. */
  predicate EverTwoFail(s: Session, events: seq<Event>)
    requires Runs(s, events)
    decreases |events|
  {
    TwoFail(s) || (events != [] && EverTwoFail(Step(s, events[0]), events[1..]))
  }

  /** Somewhere along the run, two pings are in progress at once. */
  predicate EverTwoPings(s: Session, events: seq<Event>)
    requires Runs(s, events)
    decreases |events|
  {
    2 <= s.pings || (events != [] && EverTwoPings(Step(s, events[0]), events[1..]))
  }

  lemma {:induction false} RunStaysOverlapped(s: Session, events: seq<Event>)
    requires Inv(s) && Runs(s, events) && s.overlapped
    ensures Run(s, events).overlapped
    decreases |events|
  {
    if events != [] {
      StepKeepsInv(s, events[0]);
      StepOverlaps(s, events[0]);
      RunStaysOverlapped(Step(s, events[0]), events[1..]);
    }
  }

  lemma TwoFailNeedsOverlap(s: Session)
    requires Inv(s) && TwoFail(s)
    ensures s.overlapped
  {
    StepKeepsInv(s, PingDone(Sent));
    FailingNeedsOverlap(Step(s, PingDone(Sent)), PingDone(Sent));
  }

  lemma {:induction false} HistoryIsRight(s: Session, events: seq<Event>)
    requires Inv(s) && Runs(s, events) && !s.overlapped
    ensures Run(s, events).overlapped <==> EverTwoFail(s, events)
    ensures Run(s, events).overlapped <==> EverTwoPings(s, events)
    decreases |events|
  {
    if TwoFail(s) {
      TwoFailNeedsOverlap(s);
    }
    if events != [] {
      var q := Step(s, events[0]);
      StepKeepsInv(s, events[0]);
      StepOverlaps(s, events[0]);
      if q.overlapped {
        RunStaysOverlapped(q, events[1..]);
      } else {
        HistoryIsRight(q, events[1..]);
      }
    }
  }

  /** There is a moment of the run at which two completions in a row would fail the assertion, if and
      only if there is one at which two pings are in progress. */
  lemma AssertionCanFailIffPingsOverlap(now: int, events: seq<Event>)
    requires Runs(Accept(now), events)
    ensures EverTwoFail(Accept(now), events) <==> EverTwoPings(Accept(now), events)
    ensures EverTwoPings(Accept(now), events) <==> Run(Accept(now), events).overlapped
  {
    HistoryIsRight(Accept(now), events);
  }

  /** In particular, the assertion itself never fails without such an overlap. */
  lemma AssertionHoldsWithoutOverlap(now: int, events: seq<Event>, e: Event)
    requires Runs(Accept(now), events) && AssertionFails(Run(Accept(now), events), e)
    ensures Run(Accept(now), events).overlapped
  {
    RunKeepsInv(Accept(now), events);
    FailingNeedsOverlap(Run(Accept(now), events), e);
  }

  /** The deadline passes and the queued handler begins a ping, `n` pings being in progress. */
  lemma QuietPeriod(now: int, n: nat, s: Session)
    requires s == Session(0, Timer(now, At(now + TIMEOUT), 0, 0, 1), true, true, n, now, n, 0, false, false)
    ensures Runs(s, [TimePasses(TIMEOUT), TimerDone(Aborted)])
    ensures Run(s, [TimePasses(TIMEOUT), TimerDone(Aborted)])
            == Session(1, Timer(now + TIMEOUT, At(now + 2 * TIMEOUT), 1, 0, 0), true, true, n + 1, now, n + 1, 1,
                       0 < n, false)
  {
    var late := Step(s, TimePasses(TIMEOUT));
    FirstEvent(late, TimerDone(Aborted), []);
    FirstEvent(s, TimePasses(TIMEOUT), [TimerDone(Aborted)]);
    assert [TimerDone(Aborted)] + [] == [TimerDone(Aborted)];
    assert [TimePasses(TIMEOUT)] + [TimerDone(Aborted)] == [TimePasses(TIMEOUT), TimerDone(Aborted)];
  }

  /** And that happens: a frame arrives while a ping is still being sent, and then a quiet period. */
  lemma OverlapIsReachable()
    ensures var quiet := [TimePasses(TIMEOUT), TimerDone(Aborted)];
            var events := [Opens] + (quiet + ([Heard] + quiet));
            && Runs(Accept(0), events)
            && var s := Run(Accept(0), events);
               TwoFail(s)
  {
    var quiet := [TimePasses(TIMEOUT), TimerDone(Aborted)];
    var begin := Step(Accept(0), Opens);
    QuietPeriod(0, 0, begin);
    var heard := Step(Run(begin, quiet), Heard);
    QuietPeriod(TIMEOUT, 1, heard);
    FirstEvent(Run(begin, quiet), Heard, quiet);
    RunTwice(begin, quiet, [Heard] + quiet);
    FirstEvent(Accept(0), Opens, quiet + ([Heard] + quiet));
  }
}
