/** What the queue's statements and the worker's writes make of a job, column by column, and how a job ends through any crashes. */
module JobLaws {
  import opened Jobs
  import opened Options
  import opened Worker

  // ---- The statements ----

  lemma ClaimLeaves<T>(j: Job<T>)
    ensures Claimable(j) <==> j.status == Queued && j.attempts < j.maxAttempts
    ensures Claim(j) == Job(j.work, Running, j.attempts + 1, j.maxAttempts)
  {
  }

  /** Done when it succeeded; after a failure queued while an attempt is left, else failed. Attempts are not counted here. */
  lemma SettleLeaves<T>(j: Job<T>, ok: bool)
    ensures Settle(j, ok) == Job(j.work, Settle(j, ok).status, j.attempts, j.maxAttempts)
    ensures ok ==> Settle(j, ok).status == Succeeded
    ensures !ok ==> (Settle(j, ok).status == Queued <==> j.attempts < j.maxAttempts)
    ensures !ok ==> (Settle(j, ok).status == Failed <==> j.attempts >= j.maxAttempts)
    ensures Drop(j) == Job(j.work, Failed, j.attempts, j.maxAttempts)
  {
  }

  /** A start-up queues a running job again and gives its attempt back; any other job stays. */
  lemma RecoverLeaves<T>(j: Job<T>)
    ensures j.status == Running && j.attempts > 0 ==> Recover(j) == Job(j.work, Queued, j.attempts - 1, j.maxAttempts)
    ensures j.status == Running && j.attempts == 0 ==> Recover(j) == Job(j.work, Queued, 0, j.maxAttempts)
    ensures j.status != Running ==> Recover(j) == j
  {
  }

  lemma NewJobLeaves<T>(work: T, maxAttempts: nat)
    ensures NewJob(work) == Job(work, Queued, 0, 2) && CreateJob(work, maxAttempts) == Job(work, Queued, 0, maxAttempts)
  {
  }

  // ---- Crashes cost nothing ----

  /** A claim cut off by a crash leaves the whole queue as it would be without the claim. */
  lemma CrashCostsNothing<T>(jobs: map<nat, Job<T>>, k: nat)
    requires k in jobs && jobs[k].status == Queued && jobs[k].attempts < jobs[k].maxAttempts
    ensures RecoverAll(jobs[k := Claim(jobs[k])]) == RecoverAll(jobs)
    ensures RecoverAll(jobs)[k] == jobs[k]
    ensures (forall l :: l in jobs ==> jobs[l].status != Running) ==> RecoverAll(jobs[k := Claim(jobs[k])]) == jobs
  {
  }

  /** How one claim of a job can end. */
  datatype End = Answers(ok: bool) | Crashes | Drops

  /** The job after one claim and its end. */
  function Lived<T>(j: Job<T>, e: End): Job<T> {
    if !Claimable(j) then j
    else
      match e
      case Answers(ok) => Settle(Claim(j), ok)
      case Crashes => Recover(Claim(j))
      case Drops => Drop(Claim(j))
  }

  function Life<T>(j: Job<T>, ends: seq<End>): Job<T>
    decreases |ends|
  {
    if ends == [] then j else Life(Lived(j, ends[0]), ends[1..])
  }

  /** How many of the claims failed by their handler's answer. */
  function Failures(ends: seq<End>): nat {
    if ends == [] then 0 else (if ends[0] == Answers(false) then 1 else 0) + Failures(ends[1..])
  }

  predicate OnlyFailsOrCrashes(ends: seq<End>) {
    forall i :: 0 <= i < |ends| ==> ends[i] == Answers(false) || ends[i] == Crashes
  }

  /** A job fails exactly when its handler has failed as often as it may, however often the worker crashed with it. */
  lemma {:induction false} FailsExactly<T>(j: Job<T>, ends: seq<End>)
    requires j.status == Queued && j.attempts < j.maxAttempts && OnlyFailsOrCrashes(ends)
    ensures var after := Life(j, ends);
      if j.attempts + Failures(ends) < j.maxAttempts then after == j.(attempts := j.attempts + Failures(ends))
      else after == j.(status := Failed, attempts := j.maxAttempts)
    decreases |ends|
  {
    if ends == [] {
    } else if Claimable(Lived(j, ends[0])) {
      FailsExactly(Lived(j, ends[0]), ends[1..]);
    } else {
      ClosedStays(Lived(j, ends[0]), ends[1..]);
    }
  }

  lemma {:induction false} ClosedStays<T>(j: Job<T>, ends: seq<End>)
    requires !Claimable(j)
    ensures Life(j, ends) == j
    decreases |ends|
  {
    if ends == [] {
    } else {
      ClosedStays(j, ends[1..]);
    }
  }

  /** Crashes alone never use up a job: after any number of them it can be claimed, and then succeed, as on its first day. */
  lemma {:induction false} CrashesAlone<T>(j: Job<T>, n: nat)
    requires j.status == Queued && j.attempts < j.maxAttempts
    ensures Life(j, seq(n, i => Crashes)) == j
    ensures Life(j, seq(n, i => Crashes) + [Answers(true)]) == Job(j.work, Succeeded, j.attempts + 1, j.maxAttempts)
  {
    if n == 0 {
      assert seq(n, i => Crashes) == [];
      assert seq(n, i => Crashes) + [Answers(true)] == [Answers(true)];
      assert [Answers(true)][1..] == [];
      assert Life(j, [Answers(true)]) == Life(Lived(j, Answers(true)), []);
    } else {
      var rest := seq(n - 1, i => Crashes);
      assert seq(n, i => Crashes)[1..] == rest;
      assert (seq(n, i => Crashes) + [Answers(true)])[1..] == rest + [Answers(true)];
      CrashesAlone(j, n - 1);
    }
  }

  // ---- The worker ----

  /** One handling of a claimed job: the handler runs unless its step could not be recorded; a closed job gets its record. */
  lemma HandledLeaves(e: Worker.Entry, f: Fate)
    requires e.job.status == Running
    ensures var after := Handled(e, f);
      && after.job.work == e.job.work && after.job.attempts == e.job.attempts && after.restarts == e.restarts
      && after.runs == e.runs + (if f.step then 1 else 0)
      && (!f.write ==> after.job.status == Running)
      && (f.write && !f.step ==> after.job.status == Failed)
      && (f.write && f.step && f.handler ==> after.job.status == Succeeded)
      && (f.write && f.step && !f.handler && e.job.attempts < e.job.maxAttempts ==> after.job.status == Queued)
      && (f.write && f.step && !f.handler && e.job.attempts >= e.job.maxAttempts ==> after.job.status == Failed)
      && after.audits == e.audits + (if f.audit && (after.job.status == Succeeded || after.job.status == Failed) then 1 else 0)
  {
  }

  /** A start-up counts a restart for each job it found running. */
  lemma RecoveredLeaves(e: Worker.Entry)
    ensures var after := Recovered(e);
      && after.runs == e.runs && after.audits == e.audits && after.job.status != Running
      && after.restarts == e.restarts + (if e.job.status == Running then 1 else 0)
  {
  }
}
