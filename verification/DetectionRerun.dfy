/** A whole detection cycle run again on the same candidates is the identity
    (server/app/services/rules/engine.py): a host that committed commits nothing
    new, and one that was rolled back is rolled back again. */
module DetectionRerun {
  import opened Base
  import opened Actions
  import opened Detection
  import opened DetectionCycle

  /** One host, whatever its transaction came to. */
  lemma RerunIsIdentity(s: State, host: HostId, cs: seq<Candidate>, ds: seq<Candidate>)
    requires Unique(s.alerts) && FreshDraws(s, cs) && SameCandidates(cs, ds)
    requires FreshDraws(Transaction(s, host, cs), ds)
    ensures Transaction(Transaction(s, host, cs), host, ds) == Transaction(s, host, cs)
    ensures
      var t := Transaction(s, host, cs);
      Evaluate(t, host, ds, |ds|).Some? <==> Evaluate(s, host, cs, |cs|).Some?
  {
    if Evaluate(s, host, cs, |cs|).Some? {
      RerunChangesNothing(s, host, cs, ds);
    } else {
      FailsAgain(s, host, cs, ds);
    }
  }

  /** A closed alert that stops one run of the candidates stops the next. */
  lemma FailsAgain(s: State, host: HostId, cs: seq<Candidate>, ds: seq<Candidate>)
    requires Unique(s.alerts) && FreshDraws(s, cs) && FreshDraws(s, ds) && SameCandidates(cs, ds)
    requires Evaluate(s, host, cs, |cs|).None?
    ensures Evaluate(s, host, ds, |ds|).None?
  {
    EvaluateSucceedsIff(s, host, cs, |cs|);
    EvaluateSucceedsIff(s, host, ds, |ds|);
    var k :| 0 <= k < |cs| && HasClosed(s.alerts, host, cs[k]);
    var id :| id in s.alerts && HasKey(s.alerts[id], host, cs[k]) && s.alerts[id].status != OpenAlert;
    assert HasKey(s.alerts[id], host, ds[k]);
    assert HasClosed(s.alerts, host, ds[k]);
  }

  // ------------------------------------------------------------- whole cycles

  /** The same host with the same candidates, which draw other ids. */
  ghost predicate Repeats(job: Job, again: Job) {
    again.0 == job.0 && SameCandidates(job.1, again.1)
  }

  /** Each job repeats one of the cycle's, in any order. */
  ghost predicate AllRepeat(jobs: seq<Job>, again: seq<Job>) {
    forall i :: 0 <= i < |again| ==> exists k :: 0 <= k < |jobs| && Repeats(jobs[k], again[i])
  }

  lemma {:induction false} CycleAppend(s: State, jobs: seq<Job>, job: Job)
    ensures Cycle(s, jobs + [job]) == RunJob(Cycle(s, jobs), job)
    decreases |jobs|
  {
    if jobs == [] {
      CycleStep(s, job, []);
      assert jobs + [job] == [job] + [];
    } else {
      CycleAppend(RunJob(s, jobs[0]), jobs[1..], job);
      CycleStep(s, jobs[0], jobs[1..] + [job]);
      assert jobs + [job] == [jobs[0]] + (jobs[1..] + [job]);
    }
  }

  /** A cycle keeps keys unique and later hosts' draws new. */
  lemma {:induction false} CycleKeepsOrder(s: State, jobs: seq<Job>, job: Job)
    requires Unique(s.alerts) && PlanFresh(s, jobs + [job])
    ensures Unique(Cycle(s, jobs).alerts) && FreshDraws(Cycle(s, jobs), job.1)
    decreases |jobs|
  {
    if jobs == [] {
      assert (jobs + [job])[0] == job;
    } else {
      var plan := jobs + [job];
      assert plan[0] == jobs[0] && plan[1..] == jobs[1..] + [job];
      TransactionIsExact(s, jobs[0].0, jobs[0].1);
      JobKeepsPlanFresh(s, plan);
      CycleKeepsOrder(RunJob(s, jobs[0]), jobs[1..], job);
    }
  }

  /** Any host's transaction can be the last one of the cycle. */
  lemma MoveToBack(s: State, pre: seq<Job>, job: Job, post: seq<Job>)
    requires PlanFresh(s, pre + [job] + post)
    ensures PlanFresh(s, pre + post + [job])
    ensures Cycle(s, pre + [job] + post) == RunJob(Cycle(s, pre + post), job)
  {
    FreshAtBack(s, pre, job, post);
    MoveToFront(s, pre, job, post);
    assert pre + post + [job] + [] == pre + post + [job];
    assert pre + post + [] == pre + post;
    MoveToFront(s, pre + post, job, []);
    CycleAppend(s, pre + post, job);
  }

  lemma FreshAtBack(s: State, pre: seq<Job>, job: Job, post: seq<Job>)
    requires PlanFresh(s, pre + [job] + post)
    ensures PlanFresh(s, pre + post + [job])
  {
    var a, b := pre + [job] + post, pre + post + [job];
    forall i | 0 <= i < |b| ensures b[i] == a[if i < |pre| then i else if i < |b| - 1 then i + 1 else |pre|] {
    }
  }

  /** After a cycle, each of its hosts' transactions is the identity. */
  lemma JobIsSettled(s: State, jobs: seq<Job>, i: nat, ds: seq<Candidate>)
    requires Unique(s.alerts) && PlanFresh(s, jobs) && i < |jobs|
    requires SameCandidates(jobs[i].1, ds) && FreshDraws(Cycle(s, jobs), ds)
    ensures Transaction(Cycle(s, jobs), jobs[i].0, ds) == Cycle(s, jobs)
  {
    var pre, job, post := jobs[..i], jobs[i], jobs[i + 1..];
    assert jobs == pre + [job] + post;
    MoveToBack(s, pre, job, post);
    CycleKeepsOrder(s, pre + post, job);
    RerunIsIdentity(Cycle(s, pre + post), job.0, job.1, ds);
  }

  lemma {:induction false} SettledCycleIsIdentity(t: State, again: seq<Job>)
    requires forall i :: 0 <= i < |again| ==> RunJob(t, again[i]) == t
    ensures Cycle(t, again) == t
    decreases |again|
  {
    if again != [] {
      SettledCycleIsIdentity(t, again[1..]);
    }
  }

  /** Running a cycle again with the same candidates for every host, committed
      or rolled back, and in any order of the hosts, changes no alert and creates
      no action. */
  lemma CycleRerunChangesNothing(s: State, jobs: seq<Job>, again: seq<Job>)
    requires Unique(s.alerts) && PlanFresh(s, jobs)
    requires AllRepeat(jobs, again) && PlanFresh(Cycle(s, jobs), again)
    ensures Cycle(Cycle(s, jobs), again) == Cycle(s, jobs)
  {
    var t := Cycle(s, jobs);
    forall i | 0 <= i < |again| ensures RunJob(t, again[i]) == t {
      var k :| 0 <= k < |jobs| && Repeats(jobs[k], again[i]);
      JobIsSettled(s, jobs, k, again[i].1);
    }
    SettledCycleIsIdentity(t, again);
  }
}
