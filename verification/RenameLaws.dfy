/** What a rename request, its job's outcome and the writes of other jobs leave, column by column. */
module RenameLaws {
  import opened Jobs
  import opened Options
  import opened Rename

  /** An accepted request gives the row its new name, keeps the old one beside it, and queues a job with the name it had read. */
  lemma RequestLeaves(s: State, request: nat, hostname: string, job: nat)
    requires Accepted(s, request, hostname, job)
    ensures var after := Next(s, QueueRequest(request, hostname, job));
      && after.domain == Domain(hostname, Some(s.domain.hostname), s.domain.enabled, Pending)
      && after.jobs == s.jobs[job := Job(Work(s.seen[request].hostname, hostname), Queued, 0, 2)] && job !in s.jobs
      && after.taken == s.taken && after.worker == s.worker && request !in after.seen
  {
  }

  /** It is accepted for a settled domain of an active website, and a name nobody has or waits to give up. */
  lemma RequestAcceptedExactly(s: State, request: nat, hostname: string, job: nat)
    requires request in s.seen && job !in s.jobs
    ensures var seen := s.seen[request];
      Next(s, QueueRequest(request, hostname, job)).domain != s.domain <==>
        && seen.siteActive && seen.status != Pending && s.domain.status != Pending
        && hostname != seen.hostname && hostname != s.domain.hostname && Some(hostname) != s.domain.previous && hostname !in s.taken
    ensures Next(s, QueueRequest(request, hostname, job)).domain == s.domain ==>
      Next(s, QueueRequest(request, hostname, job)).jobs == s.jobs
  {
  }

  /** What the handler answers on the row: done already, moved on, or to be reconciled. */
  lemma ReadLeaves(s: State)
    requires s.worker.Claimed? && HasJob(s)
    ensures var d, w, after := s.domain, s.jobs[s.worker.job].work, Next(s, ReadDomain);
      var settled := d.previous.None? && d.hostname == w.hostname && (d.status == Active || d.status == Disabled);
      var waiting := d.previous == Some(w.previous) && d.hostname == w.hostname;
      && after == s.(worker := after.worker)
      && (settled ==> after.worker == Done(s.worker.job, true))
      && (!settled && !waiting ==> after.worker == Done(s.worker.job, false))
      && (!settled && waiting ==> after.worker == Matched(s.worker.job))
  {
  }

  /** A reconciled rename ends with one name and the status its flag asks for. */
  lemma CompletedLeaves(s: State)
    requires s.worker.Ensured? && HasJob(s) && s.worker.ok
    ensures var d, after := s.domain, Next(s, Conclude(true));
      && after == s.(domain := after.domain, worker := Done(s.worker.job, true))
      && after.domain == Domain(d.hostname, None, d.enabled, if d.enabled then Active else Disabled)
    ensures Next(s, Conclude(false)) == s.(worker := Done(s.worker.job, false))
  {
  }

  /** A failed one stays as it is while attempts are left; on the last it takes the old name back, if nobody took it. */
  lemma FailedLeaves(s: State, written: bool)
    requires s.worker.Ensured? && HasJob(s) && !s.worker.ok && s.domain.previous.Some?
    ensures var d, j, after := s.domain, s.jobs[s.worker.job], Next(s, Conclude(written));
      var undone := written && j.attempts >= j.maxAttempts && d.previous.value !in s.taken;
      && after == s.(domain := after.domain, worker := Done(s.worker.job, false))
      && after.domain == (if undone then Domain(d.previous.value, None, d.enabled, Error) else d)
  {
  }

  // ---- The worker's steps ----

  /** The stage at which the worker makes a step. */
  predicate InTurn(w: Worker, step: Step) {
    match step
    case ClaimJob(_) => w.Idle?
    case DropJob(_) => w.Claimed?
    case ReadFails => w.Claimed?
    case ReadDomain => w.Claimed?
    case EnsureSite(_) => w.Matched?
    case Conclude(_) => w.Ensured?
    case SettleJob(_) => w.Done?
    case _ => true
  }

  /** Out of its turn a step does nothing; a claim also needs a queued job with an attempt left. */
  lemma OutOfTurn(s: State, step: Step)
    ensures !InTurn(s.worker, step) ==> Next(s, step) == s
    ensures step.ClaimJob? && Next(s, step) != s ==>
      step.job in s.jobs && s.jobs[step.job].status == Queued && s.jobs[step.job].attempts < s.jobs[step.job].maxAttempts
  {
  }

  /** A claimed job is running with one attempt more; one whose step could not be recorded, or read, is closed or answered so. */
  lemma ClaimLeaves(s: State, job: nat)
    requires s.worker.Idle? && job in s.jobs && s.jobs[job].status == Queued && s.jobs[job].attempts < s.jobs[job].maxAttempts
    ensures var j, after := s.jobs[job], Next(s, ClaimJob(job));
      && after == s.(worker := Claimed(job), jobs := s.jobs[job := Job(j.work, Running, j.attempts + 1, j.maxAttempts)])
      && Next(after, ReadFails) == after.(worker := Done(job, false))
      && Next(after, DropJob(true)) == after.(worker := Idle, jobs := s.jobs[job := Job(j.work, Failed, j.attempts + 1, j.maxAttempts)])
      && Next(after, DropJob(false)) == after.(worker := Idle)
  {
  }

  /** The last write closes the job or queues it again; when it is lost the job stays running until a restart. */
  lemma SettlingLeaves(s: State)
    requires s.worker.Done? && HasJob(s)
    ensures var j, after := s.jobs[s.worker.job], Next(s, SettleJob(true));
      && after == s.(worker := Idle, jobs := s.jobs[s.worker.job := j.(status := after.jobs[s.worker.job].status)])
      && (s.worker.ok ==> after.jobs[s.worker.job].status == Succeeded)
      && (!s.worker.ok ==> after.jobs[s.worker.job].status == if j.attempts < j.maxAttempts then Queued else Failed)
    ensures Next(s, SettleJob(false)) == s.(worker := Idle)
  {
  }

  /** A crash ends the requests under way and leaves the row; every running job is queued again with its attempt given back. */
  lemma CrashLeaves(s: State)
    requires forall k :: k in s.jobs && s.jobs[k].status == Running ==> s.jobs[k].attempts > 0
    ensures var after := Next(s, Crash);
      && after.domain == s.domain && after.taken == s.taken && after.seen == map[] && after.worker.Idle?
      && after.jobs.Keys == s.jobs.Keys
      && forall k :: k in s.jobs ==> var j := s.jobs[k];
           after.jobs[k] == if j.status == Running then Job(j.work, Queued, j.attempts - 1, j.maxAttempts) else j
  {
  }

  /** Other domains get and give up names, other jobs write the row between jobs, and a refused request ends. */
  lemma OthersLeave(s: State, hostname: string, status: Status, enabled: bool, request: nat, job: nat)
    ensures Next(s, OtherReleases(hostname)) == s.(taken := s.taken - {hostname})
    ensures hostname != s.domain.hostname ==> Next(s, RestoreTakes(hostname)) == s.(taken := s.taken + {hostname})
    ensures hostname != s.domain.hostname && s.domain.previous != Some(hostname) ==>
      Next(s, OtherTakes(hostname)) == s.(taken := s.taken + {hostname})
    ensures hostname == s.domain.hostname || s.domain.previous == Some(hostname) ==> Next(s, OtherTakes(hostname)) == s
    ensures s.worker.Idle? && status != Pending ==> Next(s, WriteStatus(status)) == s.(domain := s.domain.(status := status))
    ensures s.worker.Idle? && hostname !in s.taken ==>
      Next(s, RestoreRow(hostname, enabled))
      == s.(domain := Domain(hostname, s.domain.previous, enabled, if enabled then Active else Disabled))
    ensures request !in Next(s, QueueRequest(request, hostname, job)).seen
  {
  }

  /** A rename that meets no fault: request, claim, check, reconcile, complete, close. */
  function Smooth(s: State, request: nat, hostname: string, job: nat): State {
    var matched := Next(Next(Next(s, QueueRequest(request, hostname, job)), ClaimJob(job)), ReadDomain);
    Next(Next(Next(matched, EnsureSite(true)), Conclude(true)), SettleJob(true))
  }

  /** It ends with the new name alone, and its job succeeded on the first attempt. */
  lemma RenameGoesThrough(s: State, request: nat, hostname: string, job: nat)
    requires Accepted(s, request, hostname, job) && s.worker.Idle? && s.seen[request].hostname == s.domain.hostname
    ensures var after := Smooth(s, request, hostname, job);
      && after.domain == Domain(hostname, None, s.domain.enabled, if s.domain.enabled then Active else Disabled)
      && after.worker.Idle? && after.jobs == s.jobs[job := Job(Work(s.domain.hostname, hostname), Succeeded, 1, 2)]
  {
    var queued := Next(s, QueueRequest(request, hostname, job));
    RequestLeaves(s, request, hostname, job);
    var claimed := Next(queued, ClaimJob(job));
    assert claimed == queued.(worker := Claimed(job), jobs := s.jobs[job := Job(Work(s.domain.hostname, hostname), Running, 1, 2)]);
    ReadLeaves(claimed);
    CompletedLeaves(Next(Next(claimed, ReadDomain), EnsureSite(true)));
  }
}
