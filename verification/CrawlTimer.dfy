/** Why a worker that never got a host never exits: the timer of a crawl worker in detail.
    `Crawl` keeps of it only whether the deadline was ever set and whether a wait is pending, which
    `CrawlWaits` justifies. */
module CrawlTimer {
  import opened SteadyTimer

  datatype Chain = Chain(timer: Timer, ended: bool)

  datatype Event = Arms(d: nat) | Cancels | Expires | Handled(wait: Wait) | TimePasses(d: nat)

  /** `worker::on_timer`. */
  function OnTimer(c: Chain, w: Wait): Chain {
    if w == Failed || c.timer.Passed() then c.(ended := true) else c.(timer := c.timer.AsyncWait())
  }

  predicate CanHappen(c: Chain, e: Event) {
    match e
    case Expires => c.timer.CanExpire()
    case Handled(w) => c.timer.CanHandle(w)
    case _ => true
  }

  /** `Cancels` is `cancel_one`, with which a worker that finds no more hosts stops. */
  function Step(c: Chain, e: Event): Chain
    requires CanHappen(c, e)
  {
    match e
    case Arms(d) => c.(timer := c.timer.ExpiresAfter(d))
    case Cancels =>
      if c.timer.waiting == 0 then c
      else c.(timer := c.timer.(waiting := c.timer.waiting - 1, aborted := c.timer.aborted + 1))
    case Expires => c.(timer := c.timer.Expire())
    case Handled(w) => OnTimer(c.(timer := c.timer.Handle(w)), w)
    case TimePasses(d) => c.(timer := c.timer.Tick(d))
  }

  predicate Runs(c: Chain, events: seq<Event>)
    decreases |events|
  {
    events == [] || (CanHappen(c, events[0]) && Runs(Step(c, events[0]), events[1..]))
  }

  function After(c: Chain, events: seq<Event>): Chain
    requires Runs(c, events)
    decreases |events|
  {
    if events == [] then c else After(Step(c, events[0]), events[1..])
  }

  function Start(now: int): Chain { OnTimer(Chain(IdleTimer(now), false), Expired) }

  predicate Harmless(events: seq<Event>) {
    forall i | 0 <= i < |events| :: !events[i].Arms? && events[i] != Handled(Failed)
  }

  /** A timer whose deadline was never set goes on waiting, however often it is cancelled. */
  lemma {:induction false} UnarmedNeverEnds(c: Chain, events: seq<Event>)
    requires c.timer.expiry == Never && c.timer.Pending() == 1 && !c.ended
    requires Runs(c, events) && Harmless(events)
    ensures After(c, events).timer.Pending() == 1 && !After(c, events).ended
    decreases |events|
  {
    if events != [] {
      UnarmedNeverEnds(Step(c, events[0]), events[1..]);
    }
  }

  /** One whose deadline was set ends, with no more than time and its own handler. */
  lemma ArmedCanEnd(c: Chain)
    requires c.timer.expiry.At? && c.timer.Pending() == 1 && !c.ended
    ensures exists events :: Harmless(events) && Runs(c, events) && After(c, events).ended
  {
    var d: nat := if c.timer.expiry.t <= c.timer.now then 0 else c.timer.expiry.t - c.timer.now;
    var late := Step(c, TimePasses(d));
    var w := if c.timer.aborted == 1 then Aborted else Expired;
    if c.timer.waiting == 1 {
      LastEvent(Step(late, Expires), w);
      Prepend(late, Expires, [Handled(w)]);
      Prepend(c, TimePasses(d), [Expires] + [Handled(w)]);
      assert Harmless([TimePasses(d)] + ([Expires] + [Handled(w)]));
    } else {
      LastEvent(late, w);
      Prepend(c, TimePasses(d), [Handled(w)]);
      assert Harmless([TimePasses(d)] + [Handled(w)]);
    }
  }

  predicate CanEnd(c: Chain, events: seq<Event>) { Harmless(events) && Runs(c, events) && After(c, events).ended }

  /** Without a failure a timer can end if and only if its deadline was ever set. */
  lemma CanEndIffArmed(c: Chain)
    requires c.timer.Pending() == 1 && !c.ended
    ensures (exists events :: CanEnd(c, events)) <==> c.timer.expiry.At?
  {
    if c.timer.expiry.At? {
      ArmedCanEnd(c);
      var events :| Harmless(events) && Runs(c, events) && After(c, events).ended;
      assert CanEnd(c, events);
    } else {
      forall events ensures !CanEnd(c, events) {
        if Harmless(events) && Runs(c, events) {
          UnarmedNeverEnds(c, events);
        }
      }
    }
  }

  lemma LastEvent(c: Chain, w: Wait)
    requires c.timer.CanHandle(w) && w != Failed && c.timer.Passed()
    ensures Runs(c, [Handled(w)]) && After(c, [Handled(w)]).ended
  {
    assert Runs(Step(c, Handled(w)), []);
  }

  lemma Prepend(c: Chain, e: Event, events: seq<Event>)
    requires CanHappen(c, e) && Runs(Step(c, e), events)
    ensures Runs(c, [e] + events) && After(c, [e] + events) == After(Step(c, e), events)
  {
    assert ([e] + events)[1..] == events;
  }
}
