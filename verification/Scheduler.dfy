/**
 Periodic jobs of the worker. On every pass of its loop the worker looks at each job once, with
 one reading of the clock, and runs those whose interval has elapsed.
 */
module Scheduler {
  import opened Basics

  predicate Due(last: Option<Time>, interval: nat, now: Time) {
    last.None? || now - last.value >= interval
  }

  /** `last_run` after one check. */
  function Checked(last: Option<Time>, interval: nat, now: Time): Option<Time> {
    if Due(last, interval, now) then Some(now) else last
  }

  /** A job's `last_run` and number of runs after checks at the given times. */
  function After(last: Option<Time>, interval: nat, times: seq<Time>): (r: (Option<Time>, nat))
    decreases |times|
  {
    if times == [] then (last, 0)
    else
      var n := |times| - 1;
      var (mid, runs) := After(last, interval, times[..n]);
      (Checked(mid, interval, times[n]), runs + if Due(mid, interval, times[n]) then 1 else 0)
  }

  predicate NonDecreasing(times: seq<Time>) {
    forall i, j :: 0 <= i < j < |times| ==> times[i] <= times[j]
  }

  /**
   From a fresh start and with a clock that does not run backwards: a job runs at the first
   check, no more often than its interval allows, and after every check it is less than one
   interval stale.
   */
  lemma {:induction false} RunsAreSpaced(interval: nat, times: seq<Time>)
    requires times != [] && NonDecreasing(times)
    ensures var (last, runs) := After(None, interval, times);
            && last.Some? && runs >= 1
            && times[0] <= last.value <= times[|times| - 1]
            && (runs - 1) * interval <= last.value - times[0]
            && (interval > 0 ==> times[|times| - 1] - last.value < interval)
    decreases |times|
  {
    var n := |times| - 1;
    if n == 0 {
      assert times[..0] == [];
    } else {
      RunsAreSpaced(interval, times[..n]);
      var (mid, runs) := After(None, interval, times[..n]);
      assert times[n - 1] <= times[n];
      assert runs * interval == (runs - 1) * interval + interval;
    }
  }

  /** (runs - 1) intervals never exceed the time elapsed between the first and the last check. */
  lemma RateIsBounded(interval: nat, times: seq<Time>)
    requires times != [] && NonDecreasing(times)
    ensures (After(None, interval, times).1 - 1) * interval <= times[|times| - 1] - times[0]
  {
    RunsAreSpaced(interval, times);
  }

  class PeriodicJob {
    const interval: nat
    var lastRun: Option<Time>
    var invocations: nat

    constructor (interval: nat)
      ensures this.interval == interval && lastRun == None && invocations == 0
    {
      this.interval := interval;
      lastRun := None;
      invocations := 0;
    }
  }

  class Worker {
    /**
     `_check_periodic_jobs` with `_run_job`: every job's schedule and calls follow its own due time,
     and a job that raises is only recorded, so it stops no other and keeps its own schedule.
     */
    method CheckPeriodicJobs(jobs: seq<PeriodicJob>, now: Time, raises: PeriodicJob -> bool)
      returns (raised: set<PeriodicJob>)
      requires forall i, j :: 0 <= i < j < |jobs| ==> jobs[i] != jobs[j]
      modifies jobs
      ensures forall i :: 0 <= i < |jobs| ==>
                && jobs[i].lastRun == Checked(old(jobs[i].lastRun), jobs[i].interval, now)
                && jobs[i].invocations == old(jobs[i].invocations) + if Due(old(jobs[i].lastRun), jobs[i].interval,
                    now) then 1 else 0
      ensures forall i :: 0 <= i < |jobs| ==>
              (jobs[i] in raised <==> raises(jobs[i]) && Due(old(jobs[i].lastRun), jobs[i].interval, now))
    {
      raised := {};
      for n := 0 to |jobs|
        invariant forall i :: 0 <= i < n ==>
                    && jobs[i].lastRun == Checked(old(jobs[i].lastRun), jobs[i].interval, now)
                    && jobs[i].invocations ==
                        old(jobs[i].invocations) + if Due(old(jobs[i].lastRun), jobs[i].interval, now) then 1 else 0
        invariant forall i :: 0 <= i < n ==> (jobs[i] in raised <==>
                  raises(jobs[i]) && Due(old(jobs[i].lastRun), jobs[i].interval, now))
        invariant forall i :: n <= i < |jobs| ==> jobs[i] !in raised
        invariant forall i :: n <= i < |jobs| ==>
                  jobs[i].lastRun == old(jobs[i].lastRun) && jobs[i].invocations == old(jobs[i].invocations)
      {
        var job := jobs[n];
        if job.lastRun.None? || now - job.lastRun.value >= job.interval {
          job.lastRun := Some(now);
          job.invocations := job.invocations + 1;
          if raises(job) {
            raised := raised + {job};
          }
        }
      }
    }
  }
}
