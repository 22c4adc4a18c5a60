/** For which numbers of hosts and workers the crawler prints its report: always only with a single
    worker, and ever only if there is a host for every worker. */
module CrawlReports {
  import opened Crawl
  import opened CrawlRuns

  // ---------------------------------------------------------------- joining runs

  lemma {:induction false} JoinRuns(s: State, first: seq<Event>, second: seq<Event>)
    requires Runs(s, first) && Runs(After(s, first), second)
    ensures Runs(s, first + second) && After(s, first + second) == After(After(s, first), second)
    decreases |first|
  {
    if first == [] {
      assert first + second == second;
    } else {
      assert (first + second)[1..] == first[1..] + second;
      JoinRuns(Step(s, first[0]), first[1..], second);
    }
  }

  /** `t` can be reached from `s` without a failure of a timer. */
  ghost predicate Leads(s: State, t: State) {
    exists events :: Runs(s, events) && NoTimerFails(events) && After(s, events) == t
  }

  lemma LeadsOn(s: State, t: State, u: State)
    requires Leads(s, t) && Leads(t, u)
    ensures Leads(s, u)
  {
    var first :| Runs(s, first) && NoTimerFails(first) && After(s, first) == t;
    var second :| Runs(t, second) && NoTimerFails(second) && After(t, second) == u;
    JoinRuns(s, first, second);
    assert NoTimerFails(first + second);
  }

  lemma LeadsByStep(s: State, e: Event)
    requires CanHappen(s, e) && !e.TimerFails?
    ensures Leads(s, Step(s, e))
  {
    assert Runs(Step(s, e), [e][1..]);
    assert Runs(s, [e]) && NoTimerFails([e]) && After(s, [e]) == Step(s, e);
  }

  lemma LeadsNowhere(s: State)
    ensures Leads(s, s)
  {
    assert Runs(s, []) && NoTimerFails([]) && After(s, []) == s;
  }

  /** Every run can be continued to one that can go no further. */
  lemma {:induction false} CanFinish(s: State) returns (t: State)
    requires Quiet(s)
    ensures Leads(s, t) && AtRest(t)
    decreases Measure(s)
  {
    if AtRest(s) {
      LeadsNowhere(s);
      t := s;
    } else {
      var e :| CanHappen(s, e) && !e.TimerFails?;
      StepKeepsQuiet(s, e);
      StepDecreases(s, e);
      t := CanFinish(Step(s, e));
      LeadsByStep(s, e);
      LeadsOn(s, Step(s, e), t);
    }
  }

  // ---------------------------------------------------------------- what a run cannot undo

  /** Workers that were armed stay armed, and once the hosts are exhausted no other becomes so. */
  predicate ArmedLike(s: State, t: State) {
    && |t.workers| == |s.workers| && t.hosts == s.hosts && s.index <= t.index
    && (forall i | 0 <= i < |s.workers| :: s.workers[i].armed ==> t.workers[i].armed)
    && (s.hosts <= s.index ==> forall i | 0 <= i < |s.workers| :: t.workers[i].armed ==> s.workers[i].armed)
  }

  lemma {:induction false} RunKeepsArmed(s: State, events: seq<Event>)
    requires Runs(s, events)
    ensures ArmedLike(s, After(s, events))
    decreases |events|
  {
    if events != [] {
      var q := Step(s, events[0]);
      assert ArmedLike(s, q);
      RunKeepsArmed(q, events[1..]);
    }
  }

  /** The very first claim finds a host if there is one. */
  predicate FirstServed(s: State) {
    0 < s.index && 0 < s.hosts ==> exists i :: 0 <= i < |s.workers| && s.workers[i].armed
  }

  lemma StepKeepsFirstServed(s: State, e: Event)
    requires FirstServed(s) && CanHappen(s, e)
    ensures FirstServed(Step(s, e))
  {
    var q := Step(s, e);
    if 0 < q.index && 0 < q.hosts {
      if s.index == 0 {
        assert q.workers[e.i].armed;
      } else {
        var i :| 0 <= i < |s.workers| && s.workers[i].armed;
        assert q.workers[i].armed;
      }
    }
  }

  lemma {:induction false} RunKeepsFirstServed(s: State, events: seq<Event>)
    requires FirstServed(s) && Runs(s, events)
    ensures FirstServed(After(s, events))
    decreases |events|
  {
    if events != [] {
      StepKeepsFirstServed(s, events[0]);
      RunKeepsFirstServed(Step(s, events[0]), events[1..]);
    }
  }

  // ---------------------------------------------------------------- runs that show it

  /** A run that went on as long as it could, without a failure of a timer. */
  ghost predicate Finished(hosts: nat, workers: nat, t: State) {
    Leads(Init(hosts, workers), t) && AtRest(t)
  }

  lemma FinishedReports(hosts: nat, workers: nat, t: State)
    requires 0 < workers && Finished(hosts, workers, t)
    ensures Inv(t) && Complete(t) && t.hosts == hosts && |t.workers| == workers
    ensures FirstServed(t) && (t.reported <==> AllArmed(t))
  {
    var s := Init(hosts, workers);
    var events :| Runs(s, events) && NoTimerFails(events) && After(s, events) == t;
    Reachable(hosts, workers, events);
    ReachableWaits(hosts, workers, events);
    RestReports(t);
    RunKeepsFirstServed(s, events);
  }

  /** One worker claims every host, and each of them fails at once. */
  lemma {:induction false} OneTakesAll(s: State) returns (t: State)
    requires |s.workers| > 0 && s.workers[0].stage.Claiming?
    ensures Leads(s, t) && t.hosts == s.hosts <= t.index
    ensures |t.workers| == |s.workers| && t.workers[1..] == s.workers[1..]
    decreases s.hosts - s.index
  {
    if s.hosts <= s.index {
      LeadsNowhere(s);
      t := s;
    } else {
      var u := Step(s, Claims(0));
      var v := Step(u, Fails(0));
      t := OneTakesAll(v);
      LeadsByStep(s, Claims(0));
      LeadsByStep(u, Fails(0));
      LeadsOn(s, u, v);
      LeadsOn(s, v, t);
    }
  }

  /** The first `k` workers each claim a host. */
  lemma {:induction false} EachTakesOne(hosts: nat, workers: nat, k: nat) returns (t: State)
    requires k <= workers <= hosts
    ensures Leads(Init(hosts, workers), t) && t.hosts == hosts && t.index == k && |t.workers| == workers
    ensures forall i | 0 <= i < workers ::
              if i < k then t.workers[i].armed else t.workers[i] == Worker(New, false, false)
    decreases k
  {
    if k == 0 {
      t := Init(hosts, workers);
      LeadsNowhere(t);
    } else {
      var s := EachTakesOne(hosts, workers, k - 1);
      var u := Step(s, Starts(k - 1));
      t := Step(u, Claims(k - 1));
      LeadsByStep(s, Starts(k - 1));
      LeadsByStep(u, Claims(k - 1));
      LeadsOn(Init(hosts, workers), s, u);
      LeadsOn(Init(hosts, workers), u, t);
    }
  }

  lemma LeadsKeepsArmed(s: State, t: State)
    requires Leads(s, t)
    ensures ArmedLike(s, t)
  {
    var events :| Runs(s, events) && NoTimerFails(events) && After(s, events) == t;
    RunKeepsArmed(s, events);
  }

  lemma LeadsKeepsQuiet(hosts: nat, workers: nat, t: State)
    requires Leads(Init(hosts, workers), t)
    ensures Quiet(t)
  {
    var s := Init(hosts, workers);
    var events :| Runs(s, events) && NoTimerFails(events) && After(s, events) == t;
    Reachable(hosts, workers, events);
  }

  /** From a state that a run can be in to one where it ends. */
  lemma FinishFrom(hosts: nat, workers: nat, s: State) returns (t: State)
    requires Leads(Init(hosts, workers), s)
    ensures Finished(hosts, workers, t) && ArmedLike(s, t)
  {
    LeadsKeepsQuiet(hosts, workers, s);
    t := CanFinish(s);
    LeadsOn(Init(hosts, workers), s, t);
    LeadsKeepsArmed(s, t);
  }

  /** A worker without a host, once none is left, keeps the report from being printed. */
  lemma UnservedHangs(hosts: nat, workers: nat, s: State, i: nat) returns (t: State)
    requires 0 < workers && Leads(Init(hosts, workers), s) && s.hosts <= s.index
    requires i < |s.workers| && !s.workers[i].armed
    ensures Finished(hosts, workers, t) && !t.reported
  {
    t := FinishFrom(hosts, workers, s);
    FinishedReports(hosts, workers, t);
    assert !t.workers[i].armed;
  }

  /** A second worker may find no host left, however many there are. */
  lemma MayHang(hosts: nat, workers: nat) returns (t: State)
    requires 0 < workers && (1 < workers || hosts == 0)
    ensures Finished(hosts, workers, t) && !t.reported
  {
    var s := Init(hosts, workers);
    if hosts == 0 {
      LeadsNowhere(s);
      t := UnservedHangs(hosts, workers, s, 0);
    } else {
      var u := Step(s, Starts(0));
      LeadsByStep(s, Starts(0));
      var v := OneTakesAll(u);
      LeadsOn(s, u, v);
      assert v.workers[1] == v.workers[1..][0] == u.workers[1..][0] == s.workers[1];
      t := UnservedHangs(hosts, workers, v, 1);
    }
  }

  /** With a host for every worker there is a run that reports. */
  lemma MayReport(hosts: nat, workers: nat) returns (t: State)
    requires 0 < workers <= hosts
    ensures Finished(hosts, workers, t) && t.reported
  {
    var s := EachTakesOne(hosts, workers, workers);
    t := FinishFrom(hosts, workers, s);
    FinishedReports(hosts, workers, t);
  }

  // ---------------------------------------------------------------- the two conditions

  /** The report is sure to be printed if and only if there is one worker and a host for it. */
  lemma AlwaysReportsIff(hosts: nat, workers: nat)
    requires 0 < workers
    ensures (forall t :: Finished(hosts, workers, t) ==> t.reported) <==> workers == 1 && 0 < hosts
  {
    if workers == 1 && 0 < hosts {
      forall t | Finished(hosts, workers, t) ensures t.reported {
        FinishedReports(hosts, workers, t);
      }
    } else {
      var t := MayHang(hosts, workers);
    }
  }

  /** It can be printed at all if and only if there is a host for every worker. */
  lemma SometimesReportsIff(hosts: nat, workers: nat)
    requires 0 < workers
    ensures (exists t :: Leads(Init(hosts, workers), t) && t.reported) <==> workers <= hosts
  {
    if workers <= hosts {
      var t := MayReport(hosts, workers);
    } else {
      forall t | Leads(Init(hosts, workers), t) ensures !t.reported {
        var s := Init(hosts, workers);
        var events :| Runs(s, events) && NoTimerFails(events) && After(s, events) == t;
        TooManyWorkersNeverReport(hosts, workers, events);
      }
    }
  }
}
