/** What the whole-run results of `KeepAlive` say about the session object. */
module WebsocketService {
  import K = KeepAlive
  import KeepAliveStory
  import opened WebsocketSession

  /** Whatever happens to a session, its connection is dropped only after a long enough silence, and
      a ping begins only if the peer was silent and not pinged since. */
  method Deliver(session: Session, e: K.Event)
    requires session.Valid() && K.CanHappen(session.View(), e)
    modifies session
    ensures session.Valid() && session.View() == K.Step(old(session.View()), e)
    ensures old(session.connected) && !session.connected ==>
              session.timer.now >= session.lastActivity + if session.open then 2 * K.TIMEOUT else K.TIMEOUT
    ensures session.begun != old(session.begun) ==>
              old(session.sinceActivity) == 0 && session.timer.now >= session.lastActivity + K.TIMEOUT
  {
    K.StepKeepsInv(session.View(), e);
    K.StepPings(session.View(), e);
    if session.connected {
      K.StepDrops(session.View(), e);
    }
    match e
    case Opens => session.open := true;
    case Closes => session.open := false;
    case Heard => session.Activity();
    case PingDone(r) => session.OnPing(r);
    case TimerDone(w) => session.TimerHandler(w);
    case TimerExpires => session.timer := session.timer.Expire();
    case TimePasses(d) => session.timer := session.timer.Tick(d);
  }

  /** In a stretch without activity at most one ping begins. */
  method Drive(session: Session, events: seq<K.Event>)
    requires session.Valid() && K.Runs(session.View(), events)
    modifies session
    ensures session.Valid() && session.View() == K.Run(old(session.View()), events)
    ensures K.Heard !in events ==> session.begun <= old(session.begun) + 1
    decreases |events|
  {
    if K.Heard !in events {
      K.AtMostOnePing(session.View(), events);
    }
    if events != [] {
      Deliver(session, events[0]);
      Drive(session, events[1..]);
    }
  }

  /** A new session, through everything that can happen to it. */
  method Serve(now: int, events: seq<K.Event>) returns (session: Session)
    requires K.Runs(K.Accept(now), events)
    ensures fresh(session) && session.Valid()
    ensures KeepAliveStory.Matches(session.View(), KeepAliveStory.Told(KeepAliveStory.Beginning, events))
  {
    KeepAliveStory.SessionMatchesStory(now, events);
    session := new Session(now);
    session.DoAccept();
    Drive(session, events);
  }
}
