/** What the whole-run results of `HttpPipeline` and `HttpDrain` say about the session object. */
module HttpService {
  import P = HttpPipeline
  import D = HttpDrain
  import HttpStory
  import opened HttpSession

  /** The environment completes an operation, expires the timer, or lets time pass. */
  method Deliver(session: Session, e: P.Event)
    requires session.Valid() && P.CanHappen(session.View(), e)
    modifies session
    ensures session.Valid() && session.View() == P.Step(old(session.View()), e)
  {
    match e
    case ReadDone(r) => session.OnRead(r);
    case WriteDone(k, r) => session.OnWrite(r, k);
    case TimerDone(w) => session.TimerHandler(w);
    case TimerExpires =>
      P.StepKeepsInv(session.View(), e);
      session.timer := session.timer.Expire();
    case TimePasses(d) =>
      P.StepKeepsInv(session.View(), e);
      session.timer := session.timer.Tick(d);
  }

  /** Whatever happens to a session, what it has begun to write stays begun, its writes answer the
      requests in their order, and once its writing has ended it begins no other. */
  method Drive(session: Session, events: seq<P.Event>)
    requires session.Valid() && P.Runs(session.View(), events)
    modifies session
    ensures session.Valid() && session.View() == P.Run(old(session.View()), events)
    ensures old(session.started) <= session.started <= session.submitted
    ensures forall i | 0 <= i < |session.started| :: session.started[i].id == i
    ensures old(session.writeEnded) ==> session.started == old(session.started)
    ensures |session.items| <= P.LIMIT && session.reading <= 1 && |session.writing| <= 1
    decreases |events|
  {
    P.RunOnlyAppends(session.View(), events);
    if events != [] {
      Deliver(session, events[0]);
      Drive(session, events[1..]);
    }
  }

  /** Completes the writes of a session until there is none: everything queued has then been sent,
      or everything up to the first response after which the connection closes. */
  method Flush(session: Session)
    requires session.Valid() && !session.writeEnded
    modifies session
    ensures session.Valid() && D.Drained(old(session.View()), session.View())
    decreases |session.items|
  {
    ghost var before := session.View();
    if session.writing == [] {
      D.DrainedAtEnd(before, before);
      return;
    }
    D.WriteNext(before);
    var close := session.writing[0].needEof;
    session.OnWrite(P.Written, 0);
    ghost var next := session.View();
    if close {
      D.DrainedAtEnd(before, next);
    } else {
      Flush(session);
      D.DrainedBefore(before, next, session.View());
    }
  }

  /** A new session, through everything that can happen to it. */
  method Serve(now: int, events: seq<P.Event>) returns (session: Session)
    requires P.Runs(P.Start(now), events)
    ensures fresh(session) && session.Valid() && session.View() == P.Run(P.Start(now), events)
    ensures HttpStory.Matches(session.View(), HttpStory.Told(HttpStory.Beginning, events))
    ensures session.started <= session.submitted
    ensures forall i | 0 <= i < |session.started| :: session.started[i].id == i
  {
    HttpStory.SessionMatchesStory(now, events);
    session := new Session(now);
    session.Run();
    Drive(session, events);
  }
}
