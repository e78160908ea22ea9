/** The job worker: claiming, running, retrying, closing, and restarting, for any handlers and any failures. */
module Worker {
  import opened Jobs
  import opened Options

  /** A queued job; `runs` counts handler calls, `audits` audit records, `restarts` the times a start-up found it running. */
  datatype Entry = Entry(job: Job<string>, runs: nat, audits: nat, restarts: nat)

  /** How one claimed job fares: the step record, the handler, the writes that close or requeue it, the audit record. */
  datatype Fate = Fate(step: bool, handler: bool, write: bool, audit: bool)

  predicate Terminal(e: Entry) {
    !Unfinished(e.job)
  }

  /** ClaimJob: the oldest job that is queued and has attempts left. */
  function Oldest(jobs: seq<Entry>): (i: Option<nat>)
    ensures i.Some? ==> i.value < |jobs| && Claimable(jobs[i.value].job) && forall k :: 0 <= k < i.value ==> !Claimable(jobs[k].job)
    ensures i.None? ==> forall k :: 0 <= k < |jobs| ==> !Claimable(jobs[k].job)
  {
    if jobs == [] then None
    else if Claimable(jobs[0].job) then Some(0)
    else
      match Oldest(jobs[1..])
      case None => None
      case Some(i) => Some(i + 1)
  }

  function Closed(e: Entry, job: Job<string>, f: Fate): Entry {
    if !f.write then e else e.(job := job, audits := e.audits + if f.audit then 1 else 0)
  }

  predicate Retries(claimed: Entry, f: Fate) {
    f.step && !f.handler && claimed.job.attempts < claimed.job.maxAttempts
  }

  /** What one call of the worker's run makes of the claimed job. */
  function Handled(claimed: Entry, f: Fate): Entry {
    if !f.step then Closed(claimed, Drop(claimed.job), f)
    else
      var ran := claimed.(runs := claimed.runs + 1);
      if !Retries(claimed, f) then Closed(ran, Settle(ran.job, f.handler), f)
      else if f.write then ran.(job := Settle(ran.job, false)) else ran
  }

  function Recovered(e: Entry): Entry {
    e.(job := Recover(e.job), restarts := e.restarts + if e.job.status == Running then 1 else 0)
  }

  // ---- Bounds ----

  /** Every handler call used up an attempt that only a restart gives back; a closed job has at most one record. */
  predicate Bounded(e: Entry) {
    && e.job.attempts <= e.job.maxAttempts
    && e.runs <= e.job.attempts + e.restarts
    && (e.job.status == Running ==> 0 < e.job.attempts && e.runs < e.job.attempts + e.restarts + 1)
    && (if Terminal(e) then e.audits <= 1 else e.audits == 0)
  }

  ghost predicate AllBounded(jobs: seq<Entry>) {
    forall i :: 0 <= i < |jobs| ==> Bounded(jobs[i])
  }

  function Claimed(e: Entry): Entry {
    e.(job := Claim(e.job))
  }

  function Left(e: Entry): int {
    if Claimable(e.job) then e.job.maxAttempts - e.job.attempts else 0
  }

  /** Remaining attempts of the queued jobs. */
  function Remaining(jobs: seq<Entry>): nat {
    if jobs == [] then 0 else Left(jobs[0]) + Remaining(jobs[1..])
  }

  lemma {:induction false} RemainingReplace(jobs: seq<Entry>, i: nat, e: Entry)
    requires i < |jobs| && Left(e) < Left(jobs[i])
    ensures Remaining(jobs[i := e]) < Remaining(jobs)
  {
    if i == 0 {
      assert jobs[i := e][1..] == jobs[1..];
    } else {
      assert jobs[i := e][1..] == jobs[1..][i - 1 := e];
      RemainingReplace(jobs[1..], i - 1, e);
    }
  }

  /**
   * Handling a claimed job keeps the bounds and uses up remaining attempts, whatever fails, and does to the job what
   * the settling and dropping steps of the run models do: nothing when the write is lost.
   */
  lemma HandledKeeps(e: Entry, f: Fate)
    requires Bounded(e) && Claimable(e.job)
    ensures var after := Handled(Claimed(e), f);
      && Bounded(after) && Left(after) < Left(e)
      && after.restarts == e.restarts && after.job.maxAttempts == e.job.maxAttempts
    ensures var claimed := Claim(e.job);
      Handled(Claimed(e), f).job
      == if !f.write then claimed else if f.step then Settle(claimed, f.handler) else Drop(claimed)
  {
  }

  /** No job left its terminal state, and no record was lost. */
  ghost predicate Advances(before: seq<Entry>, after: seq<Entry>) {
    && |after| == |before|
    && (forall i :: 0 <= i < |before| && Terminal(before[i]) ==> after[i] == before[i])
    && (forall i :: 0 <= i < |before| ==>
          && after[i].restarts == before[i].restarts && before[i].runs <= after[i].runs
          && after[i].job.work == before[i].job.work && after[i].job.maxAttempts == before[i].job.maxAttempts)
  }

  /** Without failing writes a job is closed by its handler or by its last attempt, with one record. */
  ghost predicate Clean(fates: nat -> Fate) {
    forall n: nat :: fates(n).step && fates(n).write && fates(n).audit
  }

  ghost predicate Idle(jobs: seq<Entry>) {
    forall i :: 0 <= i < |jobs| ==> jobs[i].job.status != Running
  }

  /** Every closed job has its record, and no job is queued with no attempt left. */
  ghost predicate Recorded(jobs: seq<Entry>) {
    forall i :: 0 <= i < |jobs| ==>
      (Terminal(jobs[i]) ==> jobs[i].audits == 1) && (jobs[i].job.status == Queued ==> Claimable(jobs[i].job))
  }

  lemma StepAdvances(start: seq<Entry>, before: seq<Entry>, i: nat, f: Fate)
    requires AllBounded(before) && Advances(start, before) && i < |before| && Claimable(before[i].job)
    ensures var after := before[i := Handled(Claimed(before[i]), f)];
      AllBounded(after) && Advances(start, after) && Remaining(after) < Remaining(before)
  {
    HandledKeeps(before[i], f);
    RemainingReplace(before, i, Handled(Claimed(before[i]), f));
  }

  lemma StepClean(before: seq<Entry>, i: nat, f: Fate)
    requires AllBounded(before) && i < |before| && Claimable(before[i].job) && f.step && f.write && f.audit
    ensures var after := before[i := Handled(Claimed(before[i]), f)];
      (Idle(before) ==> Idle(after)) && (Recorded(before) ==> Recorded(after))
  {
  }

  class JobWorker {
    var jobs: seq<Entry>
    /** How many fates were consumed. */
    var clock: nat

    constructor ()
      ensures jobs == [] && clock == 0
    {
      jobs, clock := [], 0;
    }

    /** CreateJob; the new job leaves what draining needs of the others as it was. */
    method Add(kind: string, maxAttempts: nat)
      requires AllBounded(jobs)
      modifies `jobs
      ensures jobs == old(jobs) + [Entry(CreateJob(kind, maxAttempts), 0, 0, 0)]
      ensures AllBounded(jobs) && (Idle(old(jobs)) ==> Idle(jobs))
      ensures 0 < maxAttempts && Recorded(old(jobs)) ==> Recorded(jobs)
    {
      jobs := jobs + [Entry(Job(kind, Queued, 0, maxAttempts), 0, 0, 0)];
    }

    /** RecoverJobs, at start-up. */
    method Recover()
      requires AllBounded(jobs)
      modifies `jobs
      ensures |jobs| == |old(jobs)| && forall i :: 0 <= i < |jobs| ==> jobs[i] == Recovered(old(jobs)[i])
      ensures AllBounded(jobs) && Idle(jobs)
    {
      ghost var before := jobs;
      for i := 0 to |jobs|
        invariant |jobs| == |before|
        invariant forall k :: 0 <= k < |jobs| ==> jobs[k] == if k < i then Recovered(before[k]) else before[k]
      {
        var job := jobs[i].job;
        if job.status == Running {
          var attempts := if job.attempts > 0 then job.attempts - 1 else 0;
          jobs := jobs[i := jobs[i].(job := job.(status := Queued, attempts := attempts), restarts := jobs[i].restarts + 1)];
        }
      }
    }

    /** run: the step record, the handler, then complete, retry or fail; true when the worker should pause. */
    method RunJob(i: nat, f: Fate) returns (retry: bool)
      requires i < |jobs| && jobs[i].job.status == Running
      modifies `jobs
      ensures jobs == old(jobs)[i := Handled(old(jobs)[i], f)]
      ensures retry == Retries(old(jobs)[i], f)
    {
      if !f.step {
        Fail(i, f);
        return false;
      }
      jobs := jobs[i := jobs[i].(runs := jobs[i].runs + 1)];
      if f.handler {
        if f.write {
          SetStatus(i, Succeeded);
          Record(i, f);
        }
        return false;
      }
      if jobs[i].job.attempts < jobs[i].job.maxAttempts {
        if f.write {
          SetStatus(i, Queued);
        }
        return true;
      }
      Fail(i, f);
      return false;
    }

    method SetStatus(i: nat, status: JobStatus)
      requires i < |jobs|
      modifies `jobs
      ensures jobs == old(jobs)[i := old(jobs)[i].(job := old(jobs)[i].job.(status := status))]
    {
      jobs := jobs[i := jobs[i].(job := jobs[i].job.(status := status))];
    }

    method Fail(i: nat, f: Fate)
      requires i < |jobs|
      modifies `jobs
      ensures jobs == old(jobs)[i := Closed(old(jobs)[i], Drop(old(jobs)[i].job), f)]
    {
      if !f.write {
        return;
      }
      SetStatus(i, Failed);
      Record(i, f);
    }

    method Record(i: nat, f: Fate)
      requires i < |jobs|
      modifies `jobs
      ensures jobs == old(jobs)[i := old(jobs)[i].(audits := old(jobs)[i].audits + if f.audit then 1 else 0)]
    {
      if f.audit {
        jobs := jobs[i := jobs[i].(audits := jobs[i].audits + 1)];
      }
    }

    /** drain: claim and run until nothing is left to claim or a job is retried. It ends for any fates. */
    method Drain(fates: nat -> Fate) returns (retry: bool)
      requires AllBounded(jobs)
      modifies this
      ensures AllBounded(jobs) && Advances(old(jobs), jobs)
      ensures retry ==> Remaining(jobs) < Remaining(old(jobs))
      ensures !retry ==> Oldest(jobs) == None
      ensures Clean(fates) && Idle(old(jobs)) ==> Idle(jobs)
      ensures Clean(fates) && Recorded(old(jobs)) ==> Recorded(jobs)
    {
      ghost var start := jobs;
      while true
        invariant AllBounded(jobs) && Advances(start, jobs) && Remaining(jobs) <= Remaining(start)
        invariant Clean(fates) && Idle(start) ==> Idle(jobs)
        invariant Clean(fates) && Recorded(start) ==> Recorded(jobs)
        decreases Remaining(jobs)
      {
        var claim := Oldest(jobs);
        if claim.None? {
          return false;
        }
        var i := claim.value;
        var f := fates(clock);
        clock := clock + 1;
        ghost var before := jobs;
        StepAdvances(start, before, i, f);
        if f.step && f.write && f.audit {
          StepClean(before, i, f);
        }
        var job := jobs[i].job;
        jobs := jobs[i := jobs[i].(job := job.(status := Running, attempts := job.attempts + 1))];
        var again := RunJob(i, f);
        assert jobs == before[i := Handled(Claimed(before[i]), f)];
        if again {
          return true;
        }
      }
    }

    /**
     * The worker's loop when nothing new arrives: it drains, pauses after a retry, and drains again until nothing is
     * left to claim. Without failing writes every job then is closed, with one audit record, after at most
     * maxAttempts handler calls plus one for each restart.
     */
    method RunUntilQuiet(fates: nat -> Fate)
      requires AllBounded(jobs)
      modifies this
      ensures AllBounded(jobs) && Advances(old(jobs), jobs)
      ensures forall i :: 0 <= i < |jobs| ==> !Claimable(jobs[i].job) && jobs[i].runs <= jobs[i].job.maxAttempts + jobs[i].restarts
      ensures Clean(fates) && Idle(old(jobs)) && Recorded(old(jobs)) ==>
        forall i :: 0 <= i < |jobs| ==> Terminal(jobs[i]) && jobs[i].audits == 1
    {
      ghost var start := jobs;
      var retry := true;
      while retry
        invariant AllBounded(jobs) && Advances(start, jobs)
        invariant !retry ==> Oldest(jobs) == None
        invariant Clean(fates) && Idle(start) ==> Idle(jobs)
        invariant Clean(fates) && Recorded(start) ==> Recorded(jobs)
        decreases retry, Remaining(jobs)
      {
        retry := Drain(fates);
      }
      assert forall i :: 0 <= i < |jobs| ==> !Claimable(jobs[i].job);
    }
  }
}
