/** A steady_timer that is "operated continuously": one asynchronous wait whose handler, unless
    the deadline has really passed, waits again.

    Moving the deadline cancels the wait in progress, but not a handler that is already queued:
    that one is delivered later, as if the timer had expired. */
module SteadyTimer {

  type Positive = x: int | 0 < x witness 1

  /** Clock ticks in a second. */
  const SECOND: Positive

  datatype Deadline = Never | At(t: int)

  /** How a wait ended, as its handler is told. */
  datatype Wait = Expired | Aborted | Failed

  /** `waiting` waits are in progress; `expired` and `aborted` handlers are queued. */
  datatype Timer = Timer(now: int, expiry: Deadline, waiting: nat, expired: nat, aborted: nat) {
    function Pending(): nat { waiting + expired + aborted }

    predicate Passed() { expiry.At? && expiry.t <= now }

    function ExpiresAfter(d: nat): Timer {
      this.(expiry := At(now + d), waiting := 0, aborted := aborted + waiting)
    }

    function AsyncWait(): Timer { this.(waiting := waiting + 1) }

    /** A handler that can run now: a queued one, or that of a wait that fails. */
    predicate CanHandle(w: Wait) {
      match w
      case Expired => 0 < expired
      case Aborted => 0 < aborted
      case Failed => 0 < waiting
    }

    function Handle(w: Wait): Timer
      requires CanHandle(w)
    {
      match w
      case Expired => this.(expired := expired - 1)
      case Aborted => this.(aborted := aborted - 1)
      case Failed => this.(waiting := waiting - 1)
    }

    predicate CanExpire() { 0 < waiting && Passed() }

    function Expire(): Timer
      requires CanExpire()
    {
      this.(waiting := waiting - 1, expired := expired + 1)
    }

    function Tick(d: nat): Timer { this.(now := now + d) }
  }

  function IdleTimer(now: int): Timer { Timer(now, Never, 0, 0, 0) }
}
