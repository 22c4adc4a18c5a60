/** `http_session` and its `queue` as they are written: handlers that update one object. */
module HttpSession {
  import opened SteadyTimer
  import P = HttpPipeline

  /** Everything the session can start ends up in these fields: `reading` counts the read
      operations in progress, `writing` lists the responses of the write operations in progress. */
  class Session {
    var items: seq<P.Response>
    var reading: nat
    var writing: seq<P.Response>
    var timer: Timer
    var open: bool

    ghost var submitted: seq<P.Response>
    ghost var started: seq<P.Response>
    ghost var written: nat
    ghost var lastRead: int
    ghost var readEnded: bool
    ghost var writeEnded: bool
    ghost var timerEnded: bool

    /** Requests answered so far; it numbers the responses, which the source leaves unnumbered. */
    var requests: nat

    ghost function View(): P.Session
      reads this
    {
      P.Session(items, reading, writing, timer, open, submitted, started, written, lastRead,
                readEnded, writeEnded, timerEnded)
    }

    /** The object is in a state that the handlers can reach. */
    ghost predicate Valid()
      reads this
    {
      P.Inv(View()) && requests == |submitted|
    }

    constructor (now: int)
      ensures View() == P.New(now) && requests == 0
    {
      items, reading, writing, timer, open := [], 0, [], IdleTimer(now), true;
      submitted, started, written, lastRead, requests := [], [], 0, now, 0;
      readEnded, writeEnded, timerEnded := false, false, false;
    }

    method Run()
      requires View() == P.New(timer.now) && requests == 0
      modifies this
      ensures Valid() && View() == P.Start(old(timer.now))
    {
      OnTimer(Expired);
      DoRead();
    }

    method DoRead()
      modifies this
      ensures View() == P.DoRead(old(View())) && requests == old(requests)
      ensures timer.expiry == At(timer.now + 15 * SECOND) && lastRead == timer.now && reading == old(reading) + 1
    {
      timer := timer.ExpiresAfter(P.TIMEOUT);
      lastRead := timer.now;
      reading := reading + 1;
    }

    method OnTimer(ec: Wait)
      modifies this
      ensures View() == P.OnTimer(old(View()), ec) && requests == old(requests)
    {
      if ec == Failed {
        timerEnded := true;
        return;
      }
      if timer.Passed() {
        open, timerEnded := false, true;
        return;
      }
      timer := timer.AsyncWait();
    }

    /** The front work item begins to write its response. */
    method CallFront()
      requires items != []
      modifies this
      ensures View() == P.StartFront(old(View())) && requests == old(requests)
    {
      writing := writing + [items[0]];
      started := started + [items[0]];
    }

    /** `queue::operator()`. */
    method Send(msg: P.Response)
      modifies this
      ensures View() == P.Submit(old(View()), msg) && requests == old(requests)
    {
      items := items + [msg];
      submitted := submitted + [msg];
      if |items| == 1 {
        CallFront();
      }
    }

    /** `queue::on_write`. */
    method PopFront() returns (wasFull: bool)
      requires items != []
      modifies this
      ensures (View(), wasFull) == P.PopFront(old(View())) && requests == old(requests)
    {
      wasFull := |items| >= P.LIMIT;
      items := items[1..];
      written := written + 1;
      if items != [] {
        CallFront();
      }
    }

    /** The strand delivers a timer handler. */
    method TimerHandler(ec: Wait)
      requires Valid() && timer.CanHandle(ec)
      modifies this
      ensures Valid() && View() == P.Step(old(View()), P.TimerDone(ec))
    {
      P.StepKeepsInv(View(), P.TimerDone(ec));
      timer := timer.Handle(ec);
      OnTimer(ec);
    }

    /** The part of `on_read` that follows the completion of a read: a request is answered, and
        another one is pipelined if there is room. */
    method FinishRead(result: P.ReadResult)
      requires requests == |submitted|
      modifies this
      ensures View() == P.OnRead(old(View()), result) && requests == |submitted|
    {
      match result
      case Request(needEof) =>
        Send(P.Response(requests, needEof));
        requests := requests + 1;
        if |items| < P.LIMIT {
          DoRead();
        }
      case _ =>
        readEnded := true;
    }

    method OnRead(result: P.ReadResult)
      requires Valid() && 0 < reading
      modifies this
      ensures Valid() && View() == P.Step(old(View()), P.ReadDone(result))
    {
      ghost var after := P.Step(View(), P.ReadDone(result));
      assert P.Inv(after) by {
        P.StepKeepsInv(View(), P.ReadDone(result));
      }
      reading := reading - 1;
      FinishRead(result);
      assert View() == after;
    }

    /** The part of `on_write` that follows the completion of a write. */
    method FinishWrite(result: P.WriteResult, close: bool)
      requires items != []
      modifies this
      ensures View() == P.OnWrite(old(View()), result, close) && requests == old(requests)
    {
      if result != P.Written || close {
        writeEnded := true;
        return;
      }
      var wasFull := PopFront();
      if wasFull {
        DoRead();
      }
    }

    method OnWrite(result: P.WriteResult, k: nat)
      requires Valid() && k < |writing|
      modifies this
      ensures Valid() && View() == P.Step(old(View()), P.WriteDone(k, result))
    {
      ghost var after := P.Step(View(), P.WriteDone(k, result));
      assert P.Inv(after) && items != [] && after.submitted == submitted by {
        P.StepKeepsInv(View(), P.WriteDone(k, result));
        P.WriteDoneStep(View(), k, result);
      }
      var close := writing[k].needEof;
      writing := writing[..k] + writing[k + 1..];
      FinishWrite(result, close);
    }
  }
}
