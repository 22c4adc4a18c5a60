/** `websocket_session` as it is written: its timer, ping state and handlers on one object. */
module WebsocketSession {
  import opened SteadyTimer
  import K = KeepAlive

  class Session {
    var pingState: nat
    var timer: Timer
    var open: bool
    var connected: bool
    /** Ping operations in progress. */
    var pings: nat

    ghost var lastActivity: int
    ghost var begun: nat
    ghost var sinceActivity: nat
    ghost var overlapped: bool
    ghost var timerEnded: bool

    ghost function View(): K.Session
      reads this
    {
      K.Session(pingState, timer, open, connected, pings, lastActivity, begun, sinceActivity, overlapped, timerEnded)
    }

    ghost predicate Valid()
      reads this
    {
      K.Inv(View())
    }

    constructor (now: int)
      ensures timer == IdleTimer(now) && lastActivity == now
      ensures View() == K.Session(0, IdleTimer(now), false, true, 0, now, 0, 0, false, false)
    {
      pingState, timer, open, connected, pings := 0, IdleTimer(now), false, true, 0;
      lastActivity, begun, sinceActivity, overlapped, timerEnded := now, 0, 0, false, false;
    }

    method DoAccept()
      requires View() == K.Session(0, IdleTimer(timer.now), false, true, 0, timer.now, 0, 0, false, false)
      modifies this
      ensures Valid() && View() == K.Accept(old(timer.now))
    {
      OnTimer(Expired);
      timer := timer.ExpiresAfter(K.TIMEOUT);
    }

    method OnTimer(ec: Wait)
      modifies this
      ensures View() == K.OnTimer(old(View()), ec)
    {
      if ec == Failed {
        timerEnded := true;
        return;
      }
      if timer.Passed() {
        if open && pingState == 0 {
          pingState := 1;
          timer := timer.ExpiresAfter(K.TIMEOUT);
          overlapped := overlapped || 0 < pings;
          pings, begun, sinceActivity := pings + 1, begun + 1, sinceActivity + 1;
        } else {
          connected, timerEnded := false, true;
          return;
        }
      }
      timer := timer.AsyncWait();
    }

    /** The strand delivers a timer handler. */
    method TimerHandler(ec: Wait)
      requires Valid() && timer.CanHandle(ec)
      modifies this
      ensures Valid() && View() == K.Step(old(View()), K.TimerDone(ec))
    {
      K.StepKeepsInv(View(), K.TimerDone(ec));
      timer := timer.Handle(ec);
      OnTimer(ec);
    }

    method Activity()
      requires Valid()
      modifies this
      ensures Valid() && View() == K.Step(old(View()), K.Heard)
      ensures pingState == 0 && timer.expiry == At(timer.now + 15 * SECOND)
      ensures lastActivity == timer.now == old(timer.now) && sinceActivity == 0
    {
      pingState := 0;
      timer := timer.ExpiresAfter(K.TIMEOUT);
      lastActivity, sinceActivity := timer.now, 0;
    }

    method OnPing(result: K.PingResult)
      requires Valid() && 0 < pings
      modifies this
      ensures Valid() && View() == K.Step(old(View()), K.PingDone(result))
    {
      K.StepKeepsInv(View(), K.PingDone(result));
      pings := pings - 1;
      if result != K.Sent {
        return;
      }
      if pingState == 1 {
        pingState := 2;
      }
    }
  }
}
