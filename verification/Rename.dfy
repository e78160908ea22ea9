/** Renaming a domain over whole runs: the request's read and its transaction, the job, its retries, its compensation. */
module Rename {
  import opened Jobs
  import opened Options

  datatype Status = Pending | Active | Disabled | Error

  datatype Domain = Domain(hostname: string, previous: Option<string>, enabled: bool, status: Status)

  /** What a rename job carries: the hostname its request had read, and the new one. */
  datatype Work = Work(previous: string, hostname: string)

  type RenameJob = Job<Work>

  /** What a request read before its transaction. */
  datatype Seen = Seen(hostname: string, status: Status, siteActive: bool)

  datatype Worker =
    | Idle
    | Claimed(job: nat)
    | Matched(job: nat)
    | Ensured(job: nat, ok: bool)
    | Done(job: nat, ok: bool)

  /** One domain, the hostnames other domains hold, the requests under way, the rename jobs, the worker. */
  datatype State = State(domain: Domain, taken: set<string>, seen: map<nat, Seen>, jobs: map<nat, RenameJob>, worker: Worker)

  datatype Step =
    | ReadRequest(request: nat, siteActive: bool)
    | QueueRequest(request: nat, hostname: string, job: nat)
    | ClaimJob(job: nat)
    | DropJob(written: bool)
    | ReadFails
    | ReadDomain
    | EnsureSite(ok: bool)
    | Conclude(written: bool)
    | SettleJob(written: bool)
    | Crash
    | OtherTakes(hostname: string)
    | OtherReleases(hostname: string)
    | RestoreTakes(hostname: string)
    | WriteStatus(status: Status)
    | RestoreRow(hostname: string, enabled: bool)

  predicate HasJob(s: State) {
    !s.worker.Idle? && s.worker.job in s.jobs
  }

  function JobOf(s: State): RenameJob
    requires HasJob(s)
  {
    s.jobs[s.worker.job]
  }

  /** The service's checks on what the request read. */
  predicate Passes(seen: Seen, hostname: string) {
    seen.siteActive && seen.status != Pending && hostname != seen.hostname
  }

  /** Those checks, then the transaction's on the row as it is by then. */
  predicate Accepted(s: State, request: nat, hostname: string, job: nat) {
    && request in s.seen && Passes(s.seen[request], hostname)
    && hostname !in s.taken && hostname != s.domain.hostname && s.domain.previous != Some(hostname)
    && s.domain.status != Pending && job !in s.jobs
  }

  /** The row as the transaction leaves it: the old hostname is the one it finds, not the one the request read. */
  function Queue(d: Domain, hostname: string): Domain {
    d.(previous := Some(d.hostname), hostname := hostname, status := Pending)
  }

  predicate Settled(d: Domain, j: RenameJob) {
    d.previous.None? && d.hostname == j.work.hostname && (d.status == Active || d.status == Disabled)
  }

  predicate Matches(d: Domain, j: RenameJob) {
    d.previous == Some(j.work.previous) && d.hostname == j.work.hostname
  }

  function Completed(d: Domain): Domain {
    d.(previous := None, status := if d.enabled then Active else Disabled)
  }

  function Compensated(d: Domain): Domain {
    d.(hostname := if d.previous.Some? then d.previous.value else d.hostname, previous := None, status := Error)
  }

  predicate LastAttempt(j: RenameJob) {
    j.attempts >= j.maxAttempts
  }

  /** The handler's last write: complete, or on the last attempt compensate; the unique hostname index may refuse that. */
  function Concluded(s: State, written: bool): State
    requires s.worker.Ensured? && HasJob(s)
  {
    if s.worker.ok then
      if written then s.(domain := Completed(s.domain), worker := Done(s.worker.job, true))
      else s.(worker := Done(s.worker.job, false))
    else if LastAttempt(JobOf(s)) && written && Compensated(s.domain).hostname !in s.taken then
      s.(domain := Compensated(s.domain), worker := Done(s.worker.job, false))
    else s.(worker := Done(s.worker.job, false))
  }

  /**
   * Another job writes to the row, which it does without looking at its status: a create, enable or disable job that
   * runs again writes its outcome, and a metadata restore of the domain itself writes all but the old hostname.
   */
  predicate Disturbs(s: State, step: Step) {
    match step
    case WriteStatus(status) => s.worker.Idle? && status != Pending
    case RestoreRow(hostname, enabled) => s.worker.Idle? && hostname !in s.taken
    case _ => false
  }

  /** One step; a step that is not enabled changes nothing, a refused request ends. */
  function Next(s: State, step: Step): State {
    match step
    case ReadRequest(request, siteActive) =>
      s.(seen := s.seen[request := Seen(s.domain.hostname, s.domain.status, siteActive)])
    case QueueRequest(request, hostname, job) =>
      if Accepted(s, request, hostname, job) then
        s.(domain := Queue(s.domain, hostname), seen := s.seen - {request},
           jobs := s.jobs[job := NewJob(Work(s.seen[request].hostname, hostname))])
      else s.(seen := s.seen - {request})
    case ClaimJob(job) =>
      if s.worker.Idle? && job in s.jobs && Claimable(s.jobs[job]) then
        s.(jobs := s.jobs[job := Claim(s.jobs[job])], worker := Claimed(job))
      else s
    case DropJob(written) =>
      if s.worker.Claimed? && HasJob(s) then
        s.(worker := Idle, jobs := if written then s.jobs[s.worker.job := Drop(JobOf(s))] else s.jobs)
      else s
    case ReadFails =>
      if s.worker.Claimed? && HasJob(s) then s.(worker := Done(s.worker.job, false)) else s
    case ReadDomain =>
      if s.worker.Claimed? && HasJob(s) then
        if Settled(s.domain, JobOf(s)) then s.(worker := Done(s.worker.job, true))
        else if !Matches(s.domain, JobOf(s)) then s.(worker := Done(s.worker.job, false))
        else s.(worker := Matched(s.worker.job))
      else s
    case EnsureSite(ok) =>
      if s.worker.Matched? && HasJob(s) then s.(worker := Ensured(s.worker.job, ok)) else s
    case Conclude(written) =>
      if s.worker.Ensured? && HasJob(s) then Concluded(s, written) else s
    case SettleJob(written) =>
      if s.worker.Done? && HasJob(s) then
        s.(worker := Idle, jobs := if written then s.jobs[s.worker.job := Settle(JobOf(s), s.worker.ok)] else s.jobs)
      else s
    case Crash => s.(worker := Idle, seen := map[], jobs := RecoverAll(s.jobs))
    case OtherTakes(hostname) =>
      if hostname == s.domain.hostname || Some(hostname) == s.domain.previous then s else s.(taken := s.taken + {hostname})
    case OtherReleases(hostname) => s.(taken := s.taken - {hostname})
    case RestoreTakes(hostname) =>
      if hostname == s.domain.hostname then s else s.(taken := s.taken + {hostname})
    case WriteStatus(status) => if Disturbs(s, step) then s.(domain := s.domain.(status := status)) else s
    case RestoreRow(hostname, enabled) =>
      if Disturbs(s, step)
      then s.(domain := Domain(hostname, s.domain.previous, enabled, if enabled then Active else Disabled))
      else s
  }

  function Run(s: State, steps: seq<Step>): State
    decreases |steps|
  {
    if steps == [] then s else Run(Next(s, steps[0]), steps[1..])
  }

  lemma RunCons(s: State, step: Step, rest: seq<Step>)
    ensures Run(s, [step] + rest) == Run(Next(s, step), rest)
  {
    assert ([step] + rest)[1..] == rest;
  }

  lemma {:induction false} RunAppend(s: State, a: seq<Step>, b: seq<Step>)
    ensures Run(s, a + b) == Run(Run(s, a), b)
    decreases |a|
  {
    if a == [] {
      assert a + b == b;
    } else {
      assert (a + b)[1..] == a[1..] + b;
      RunAppend(Next(s, a[0]), a[1..], b);
    }
  }

  // ---- The domain row ----

  /** A pending domain has a previous hostname, and so has one whose job the worker has in hand past its check. */
  ghost predicate Inv(s: State) {
    && (s.domain.status == Pending ==> s.domain.previous.Some?)
    && s.domain.hostname !in s.taken
    && (forall k :: k in s.jobs ==> s.jobs[k].attempts <= s.jobs[k].maxAttempts)
    && (!s.worker.Idle? ==> HasJob(s) && Unfinished(JobOf(s)))
    && (PastCheck(s.worker) ==> s.domain.previous.Some?)
  }

  predicate PastCheck(w: Worker) {
    w.Matched? || w.Ensured?
  }

  lemma QueueKeeps(s: State, request: nat, hostname: string, job: nat)
    requires Inv(s)
    ensures Inv(Next(s, QueueRequest(request, hostname, job)))
  {
  }

  lemma ConcludeKeeps(s: State, written: bool)
    requires Inv(s)
    ensures Inv(Next(s, Conclude(written)))
  {
  }

  lemma CrashKeeps(s: State)
    requires Inv(s)
    ensures Inv(Next(s, Crash))
  {
  }

  lemma WorkerKeeps(s: State, step: Step)
    requires Inv(s) && (step.ClaimJob? || step.DropJob? || step.ReadFails? || step.ReadDomain? || step.EnsureSite? || step.SettleJob?)
    ensures Inv(Next(s, step))
  {
    assert Next(s, step).domain == s.domain && Next(s, step).taken == s.taken;
  }

  lemma NextKeeps(s: State, step: Step)
    requires Inv(s)
    ensures Inv(Next(s, step))
  {
    match step
    case ReadRequest(request, siteActive) =>
    case QueueRequest(request, hostname, job) => QueueKeeps(s, request, hostname, job);
    case Conclude(written) => ConcludeKeeps(s, written);
    case Crash => CrashKeeps(s);
    case OtherTakes(hostname) =>
    case OtherReleases(hostname) =>
    case RestoreTakes(hostname) =>
    case WriteStatus(status) =>
    case RestoreRow(hostname, enabled) =>
    case _ => WorkerKeeps(s, step);
  }

  lemma {:induction false} RunKeeps(s: State, steps: seq<Step>)
    requires Inv(s)
    ensures Inv(Run(s, steps))
    decreases |steps|
  {
    if steps == [] {
    } else {
      NextKeeps(s, steps[0]);
      RunKeeps(Next(s, steps[0]), steps[1..]);
    }
  }

  /** Where a rename from `before` to `hostname` stands: not settled, settled forward, or settled back. */
  datatype Standing = Open | Renamed | Undone

  function DomainAt(before: Domain, hostname: string, st: Standing): Domain {
    match st
    case Open => Queue(before, hostname)
    case Renamed => Domain(hostname, None, before.enabled, if before.enabled then Active else Disabled)
    case Undone => Domain(before.hostname, None, before.enabled, Error)
  }

  /** No further rename is queued and no restore writes the domain. */
  predicate NoOther(steps: seq<Step>) {
    forall i :: 0 <= i < |steps| ==> !steps[i].QueueRequest? && !steps[i].RestoreRow?
  }

  predicate NoStatus(steps: seq<Step>) {
    forall i :: 0 <= i < |steps| ==> !steps[i].WriteStatus?
  }

  /** All of the row but its status, which other jobs may write. */
  function Names(d: Domain): Domain {
    d.(status := Active)
  }

  /** Where the row stands, to the letter when no other job wrote its status. */
  ghost predicate StandsAt(d: Domain, before: Domain, hostname: string, st: Standing, exact: bool) {
    Names(d) == Names(DomainAt(before, hostname, st)) && (exact ==> d == DomainAt(before, hostname, st))
  }

  lemma StandingStep(s: State, before: Domain, hostname: string, st: Standing, step: Step, exact: bool)
    requires Inv(s) && StandsAt(s.domain, before, hostname, st, exact)
    requires !step.QueueRequest? && !step.RestoreRow? && (exact ==> !step.WriteStatus?)
    ensures exists next: Standing :: StandsAt(Next(s, step).domain, before, hostname, next, exact) && (st != Open ==> next == st)
  {
    var after := Next(s, step).domain;
    if st != Open || after == s.domain || step.WriteStatus? {
      assert StandsAt(after, before, hostname, st, exact);
    } else {
      assert step.Conclude?;
      assert StandsAt(after, before, hostname, if s.worker.ok then Renamed else Undone, exact);
    }
  }

  lemma {:induction false} StandingRun(s: State, before: Domain, hostname: string, st: Standing, steps: seq<Step>, exact: bool)
    returns (end: Standing)
    requires Inv(s) && StandsAt(s.domain, before, hostname, st, exact) && NoOther(steps) && (exact ==> NoStatus(steps))
    ensures StandsAt(Run(s, steps).domain, before, hostname, end, exact) && (st != Open ==> end == st)
    decreases |steps|
  {
    if steps == [] {
      end := st;
    } else {
      StandingStep(s, before, hostname, st, steps[0], exact);
      NextKeeps(s, steps[0]);
      var next: Standing :| StandsAt(Next(s, steps[0]).domain, before, hostname, next, exact) && (st != Open ==> next == st);
      end := StandingRun(Next(s, steps[0]), before, hostname, next, steps[1..], exact);
    }
  }

  /**
   * One accepted rename, then any failures, retries, crashes, reads, requests elsewhere and status writes of other jobs:
   * the domain still has both names, or the new one, or the old one; and once settled it keeps its name, so a job run
   * again after a crash never applies the rename a second time. Without those status writes it is pending, active or
   * disabled as enabled, or in error, and once settled does not change at all.
   */
  lemma RenameSettlesOnce(s: State, request: nat, hostname: string, job: nat, steps: seq<Step>, more: seq<Step>, exact: bool)
    requires Inv(s) && Accepted(s, request, hostname, job) && NoOther(steps) && NoOther(more)
    requires exact ==> NoStatus(steps) && NoStatus(more)
    ensures var mid := Run(Next(s, QueueRequest(request, hostname, job)), steps);
      && (StandsAt(mid.domain, s.domain, hostname, Open, exact) || StandsAt(mid.domain, s.domain, hostname, Renamed, exact)
          || StandsAt(mid.domain, s.domain, hostname, Undone, exact))
      && (mid.domain.previous.None? ==> Names(Run(mid, more).domain) == Names(mid.domain))
      && (exact && mid.domain.previous.None? ==> Run(mid, more).domain == mid.domain)
  {
    var start := Next(s, QueueRequest(request, hostname, job));
    NextKeeps(s, QueueRequest(request, hostname, job));
    var end := StandingRun(start, s.domain, hostname, Open, steps, exact);
    var mid := Run(start, steps);
    RunKeeps(start, steps);
    if mid.domain.previous.None? {
      var last := StandingRun(mid, s.domain, hostname, end, more, exact);
    }
  }

  /** The old name comes back only on an attempt after which the worker closes the job instead of retrying it. */
  lemma CompensationIsLast(s: State, step: Step)
    requires Inv(s) && s.domain.previous.Some?
    requires Next(s, step).domain.previous.None? && Next(s, step).domain.status == Error
    ensures step.Conclude? && s.worker.Ensured? && !s.worker.ok && HasJob(s) && LastAttempt(JobOf(s))
    ensures Next(s, step).domain.hostname == s.domain.previous.value
    ensures var t := Next(Next(s, step), SettleJob(true)); t.jobs[s.worker.job].status == Failed && t.worker.Idle?
  {
  }

  // ---- When a pending domain is left with no job ----

  ghost predicate JobFor(jobs: map<nat, RenameJob>, d: Domain) {
    exists k :: k in jobs && Unfinished(jobs[k]) && Matches(d, jobs[k])
  }

  /** A pending domain still has a job that can settle it. */
  ghost predicate NotStuck(s: State) {
    s.domain.status == Pending ==> JobFor(s.jobs, s.domain)
  }

  /** The step closes the last job of a rename that is not settled. */
  ghost predicate ClosesLast(s: State, step: Step) {
    && HasJob(s) && s.domain.status == Pending && !JobFor(s.jobs - {s.worker.job}, s.domain)
    && (match step
        case DropJob(written) => s.worker.Claimed? && written
        case SettleJob(written) => s.worker.Done? && written && (s.worker.ok || LastAttempt(JobOf(s)))
        case _ => false)
  }

  /** An accepted request that read another hostname than its transaction finds: its job never matches the row. */
  ghost predicate QueuesStale(s: State, step: Step) {
    && step.QueueRequest? && Accepted(s, step.request, step.hostname, step.job)
    && s.seen[step.request].hostname != s.domain.hostname
    && !JobFor(s.jobs, Queue(s.domain, step.hostname))
  }

  lemma OtherJobs(jobs: map<nat, RenameJob>, job: nat, j: RenameJob, d: Domain)
    requires job in jobs
    ensures JobFor(jobs[job := j], d) <==> JobFor(jobs - {job}, d) || (Unfinished(j) && Matches(d, j))
  {
    assert forall k :: k in jobs && k != job ==> k in jobs - {job} && (jobs - {job})[k] == jobs[k];
    if Unfinished(j) && Matches(d, j) {
      assert jobs[job := j][job] == j;
    }
    if JobFor(jobs - {job}, d) {
      var k :| k in jobs - {job} && Unfinished((jobs - {job})[k]) && Matches(d, (jobs - {job})[k]);
      assert k in jobs[job := j] && jobs[job := j][k] == jobs[k];
    }
  }

  lemma AddedJob(jobs: map<nat, RenameJob>, job: nat, j: RenameJob, d: Domain)
    requires job !in jobs && Unfinished(j)
    ensures JobFor(jobs[job := j], d) <==> JobFor(jobs, d) || Matches(d, j)
  {
    assert jobs[job := j][job] == j;
    if JobFor(jobs, d) {
      var k :| k in jobs && Unfinished(jobs[k]) && Matches(d, jobs[k]);
      assert jobs[job := j][k] == jobs[k];
    }
  }

  lemma RecoveredJobs(jobs: map<nat, RenameJob>, d: Domain)
    ensures JobFor(RecoverAll(jobs), d) <==> JobFor(jobs, d)
  {
    if JobFor(jobs, d) {
      var k :| k in jobs && Unfinished(jobs[k]) && Matches(d, jobs[k]);
      assert k in RecoverAll(jobs);
    }
  }

  /**
   * Exactly: a step leaves a pending domain without a job that can settle it if and only if it closes the last job of
   * an unsettled rename, or queues a request that read another hostname before.
   */
  lemma StuckExactly(s: State, step: Step)
    requires Inv(s) && NotStuck(s)
    ensures NotStuck(Next(s, step)) <==> !ClosesLast(s, step) && !QueuesStale(s, step)
  {
    var d := s.domain;
    match step
    case QueueRequest(request, hostname, job) =>
      if Accepted(s, request, hostname, job) {
        AddedJob(s.jobs, job, NewJob(Work(s.seen[request].hostname, hostname)), Queue(d, hostname));
      }
    case ClaimJob(job) =>
      if job in s.jobs {
        OtherJobs(s.jobs, job, s.jobs[job], d);
        assert s.jobs[job := s.jobs[job]] == s.jobs;
        OtherJobs(s.jobs, job, Claim(s.jobs[job]), d);
      }
    case DropJob(written) =>
      if s.worker.Claimed? {
        OtherJobs(s.jobs, s.worker.job, Drop(JobOf(s)), d);
      }
    case SettleJob(written) =>
      if s.worker.Done? {
        OtherJobs(s.jobs, s.worker.job, JobOf(s), d);
        assert s.jobs[s.worker.job := JobOf(s)] == s.jobs;
        OtherJobs(s.jobs, s.worker.job, Settle(JobOf(s), s.worker.ok), d);
      }
    case Crash => RecoveredJobs(s.jobs, d);
    case _ =>
  }

  /** The job in hand writes the row: it completes the rename, or takes it back on its last attempt. */
  predicate Finishes(s: State, step: Step) {
    && step.Conclude? && step.written && s.worker.Ensured? && HasJob(s)
    && (s.worker.ok || (LastAttempt(JobOf(s)) && Compensated(s.domain).hostname !in s.taken))
  }

  lemma StuckJobs(s: State, step: Step)
    requires Inv(s) && (step.ClaimJob? || step.DropJob? || step.SettleJob? || step.Crash?)
    ensures JobFor(Next(s, step).jobs, s.domain) ==> JobFor(s.jobs, s.domain)
  {
    var d := s.domain;
    match step
    case ClaimJob(job) =>
      if job in s.jobs {
        OtherJobs(s.jobs, job, s.jobs[job], d);
        assert s.jobs[job := s.jobs[job]] == s.jobs;
        OtherJobs(s.jobs, job, Claim(s.jobs[job]), d);
      }
    case DropJob(written) =>
      if s.worker.Claimed? {
        OtherJobs(s.jobs, s.worker.job, JobOf(s), d);
        assert s.jobs[s.worker.job := JobOf(s)] == s.jobs;
        OtherJobs(s.jobs, s.worker.job, Drop(JobOf(s)), d);
      }
    case SettleJob(written) =>
      if s.worker.Done? {
        OtherJobs(s.jobs, s.worker.job, JobOf(s), d);
        assert s.jobs[s.worker.job := JobOf(s)] == s.jobs;
        OtherJobs(s.jobs, s.worker.job, Settle(JobOf(s), s.worker.ok), d);
      }
    case Crash => RecoveredJobs(s.jobs, d);
  }

  /** Of all steps only the writes of other jobs and the last write of a job in hand move a stuck domain. */
  lemma StuckStepExactly(s: State, step: Step)
    requires Inv(s) && !NotStuck(s)
    ensures Next(s, step).domain == s.domain && !NotStuck(Next(s, step)) <==> !Disturbs(s, step) && !Finishes(s, step)
  {
    if step.ClaimJob? || step.DropJob? || step.SettleJob? || step.Crash? {
      StuckJobs(s, step);
    }
  }

  /** No other job writes the row. */
  predicate Undisturbed(steps: seq<Step>) {
    forall i :: 0 <= i < |steps| ==> !steps[i].WriteStatus? && !steps[i].RestoreRow?
  }

  /** The worker is past its check with a job that no longer matches the row. */
  predicate Overtaken(s: State) {
    PastCheck(s.worker) && HasJob(s) && !Matches(s.domain, JobOf(s))
  }

  /** A stuck domain stays exactly as it is: no request, rename job, retry, restart or other domain changes its row. */
  lemma {:induction false} StuckForever(s: State, steps: seq<Step>)
    requires Inv(s) && !NotStuck(s) && !Overtaken(s) && Undisturbed(steps)
    ensures Run(s, steps).domain == s.domain && !NotStuck(Run(s, steps)) && !Overtaken(Run(s, steps))
    decreases |steps|
  {
    if steps == [] {
    } else {
      assert !PastCheck(s.worker);
      StuckStepExactly(s, steps[0]);
      NextKeeps(s, steps[0]);
      StuckForever(Next(s, steps[0]), steps[1..]);
    }
  }

  // ---- Writes of other jobs ----

  /** The rename is no longer pending, and its old name is still reserved. */
  predicate Lingers(d: Domain) {
    d.previous.Some? && d.status != Pending
  }

  /** Exactly the writes of other jobs to a domain with a rename under way leave it so. */
  lemma LingersExactly(s: State, step: Step)
    requires Inv(s) && !Lingers(s.domain)
    ensures Lingers(Next(s, step).domain) <==> Disturbs(s, step) && s.domain.previous.Some?
  {
  }

  /** A rename is overtaken exactly by a request accepted while the worker is past its check, which takes a lingering row. */
  lemma OvertakenExactly(s: State, step: Step)
    requires Inv(s) && !Overtaken(s)
    ensures Overtaken(Next(s, step)) <==>
      PastCheck(s.worker) && step.QueueRequest? && Accepted(s, step.request, step.hostname, step.job)
    ensures Overtaken(Next(s, step)) ==> Lingers(s.domain)
  {
  }

  /** Then the job in hand completes the new rename, whose site it never reconciled, and leaves its own name behind. */
  lemma OvertakenCompletes(s: State, request: nat, hostname: string, job: nat)
    requires Inv(s) && s.worker.Ensured? && s.worker.ok && Accepted(s, request, hostname, job)
    ensures var end := Run(s, [QueueRequest(request, hostname, job)] + [Conclude(true)]);
      && end.domain == DomainAt(s.domain, hostname, Renamed)
      && job in end.jobs && end.jobs[job].status == Queued && end.jobs[job].attempts == 0
  {
    RunCons(s, QueueRequest(request, hostname, job), [Conclude(true)]);
    RunCons(Next(s, QueueRequest(request, hostname, job)), Conclude(true), []);
    assert [Conclude(true)] + [] == [Conclude(true)];
  }

  /** Pending exactly while it has two names, and the worker past its check holds the job of that rename. */
  ghost predicate Calm(s: State) {
    Inv(s) && !Lingers(s.domain) && !Overtaken(s)
  }

  /** So it stays over every run in which no other job writes the row. */
  lemma {:induction false} CalmRun(s: State, steps: seq<Step>)
    requires Calm(s) && Undisturbed(steps)
    ensures Calm(Run(s, steps))
    decreases |steps|
  {
    if steps == [] {
    } else {
      NextKeeps(s, steps[0]);
      LingersExactly(s, steps[0]);
      OvertakenExactly(s, steps[0]);
      CalmRun(Next(s, steps[0]), steps[1..]);
    }
  }

  // ---- Three ways to get there ----

  /** The domain's row will not change again unless another job writes it. */
  ghost predicate Frozen(s: State) {
    s.domain.status == Pending && forall steps :: Undisturbed(steps) ==> Run(s, steps).domain == s.domain
  }

  lemma StuckIsFrozen(s: State)
    requires Inv(s) && !NotStuck(s) && !Overtaken(s)
    ensures Frozen(s)
  {
    forall steps | Undisturbed(steps) ensures Run(s, steps).domain == s.domain {
      StuckForever(s, steps);
    }
  }

  function Renaming(a: string, b: string, taken: set<string>, attempts: nat): State {
    State(Domain(b, Some(a), true, Pending), taken, map[], map[0 := Job(Work(a, b), Queued, attempts, 2)], Idle)
  }

  lemma RunThree(s: State, x: Step, y: Step, z: Step)
    ensures Run(s, [x] + ([y] + [z])) == Next(Next(Next(s, x), y), z)
  {
    RunCons(s, x, [y] + [z]);
    RunCons(Next(s, x), y, [z]);
    RunCons(Next(Next(s, x), y), z, []);
    assert [z] + [] == [z];
  }

  const UNREADABLE: seq<Step> := [ClaimJob(0)] + ([ReadFails] + [SettleJob(true)])

  /** A read error on both attempts closes the job and freezes the domain with both names. */
  lemma ReadErrorsStrand(a: string, b: string)
    requires a != b
    ensures Frozen(Run(Renaming(a, b, {}, 0), UNREADABLE + UNREADABLE))
  {
    var s := Renaming(a, b, {}, 0);
    RunThree(s, ClaimJob(0), ReadFails, SettleJob(true));
    assert Run(s, UNREADABLE) == Renaming(a, b, {}, 1);
    RunThree(Renaming(a, b, {}, 1), ClaimJob(0), ReadFails, SettleJob(true));
    RunAppend(s, UNREADABLE, UNREADABLE);
    RunKeeps(s, UNREADABLE + UNREADABLE);
    StuckIsFrozen(Run(s, UNREADABLE + UNREADABLE));
  }

  function Resting(a: string): State {
    State(Domain(a, None, true, Active), {}, map[], map[], Idle)
  }

  /** Two requests read the row, the second is queued and carried out, then the first is queued. */
  function StaleRequest(b: string, c: string): seq<Step> {
    [ReadRequest(0, true)] + ([ReadRequest(1, true)] + ([QueueRequest(1, b, 0)] + ([ClaimJob(0)] + ([ReadDomain]
    + ([EnsureSite(true)] + ([Conclude(true)] + ([SettleJob(true)] + [QueueRequest(0, c, 1)])))))))
  }

  lemma ReachSecondDone(a: string, b: string, rest: seq<Step>) returns (t: State)
    requires a != b
    ensures t.domain == Domain(b, None, true, Active) && t.taken == {} && t.seen == map[0 := Seen(a, Active, true)]
    ensures t.jobs == map[0 := Job(Work(a, b), Succeeded, 1, 2)] && t.worker == Idle
    ensures Run(Resting(a), [ReadRequest(0, true)] + ([ReadRequest(1, true)] + ([QueueRequest(1, b, 0)] + ([ClaimJob(0)] + ([ReadDomain]
      + ([EnsureSite(true)] + ([Conclude(true)] + ([SettleJob(true)] + rest)))))))) == Run(t, rest)
  {
    var s0 := Resting(a);
    RunCons(s0, ReadRequest(0, true), [ReadRequest(1, true)] + ([QueueRequest(1, b, 0)] + ([ClaimJob(0)] + ([ReadDomain]
      + ([EnsureSite(true)] + ([Conclude(true)] + ([SettleJob(true)] + rest)))))));
    var s1 := Next(s0, ReadRequest(0, true));
    RunCons(s1, ReadRequest(1, true), [QueueRequest(1, b, 0)] + ([ClaimJob(0)] + ([ReadDomain]
      + ([EnsureSite(true)] + ([Conclude(true)] + ([SettleJob(true)] + rest))))));
    var s2 := Next(s1, ReadRequest(1, true));
    RunCons(s2, QueueRequest(1, b, 0), [ClaimJob(0)] + ([ReadDomain]
      + ([EnsureSite(true)] + ([Conclude(true)] + ([SettleJob(true)] + rest)))));
    var s3 := Next(s2, QueueRequest(1, b, 0));
    assert s3.seen == map[0 := Seen(a, Active, true)] && s3.jobs == map[0 := NewJob(Work(a, b))];
    t := RunJobDone(s3, a, b, rest);
  }

  lemma RunJobDone(s: State, a: string, b: string, rest: seq<Step>) returns (t: State)
    requires s.domain == Domain(b, Some(a), true, Pending) && s.jobs == map[0 := NewJob(Work(a, b))] && s.worker == Idle
    ensures t == State(Domain(b, None, true, Active), s.taken, s.seen, map[0 := Job(Work(a, b), Succeeded, 1, 2)], Idle)
    ensures Run(s, [ClaimJob(0)] + ([ReadDomain] + ([EnsureSite(true)] + ([Conclude(true)] + ([SettleJob(true)] + rest))))) == Run(t, rest)
  {
    RunCons(s, ClaimJob(0), [ReadDomain] + ([EnsureSite(true)] + ([Conclude(true)] + ([SettleJob(true)] + rest))));
    var s1 := Next(s, ClaimJob(0));
    RunCons(s1, ReadDomain, [EnsureSite(true)] + ([Conclude(true)] + ([SettleJob(true)] + rest)));
    var s2 := Next(s1, ReadDomain);
    RunCons(s2, EnsureSite(true), [Conclude(true)] + ([SettleJob(true)] + rest));
    var s3 := Next(s2, EnsureSite(true));
    RunCons(s3, Conclude(true), [SettleJob(true)] + rest);
    var s4 := Next(s3, Conclude(true));
    RunCons(s4, SettleJob(true), rest);
    t := Next(s4, SettleJob(true));
  }

  /** The first of two overlapping requests freezes the domain although nothing failed and no job was closed early. */
  lemma StaleRequestStrands(a: string, b: string, c: string)
    requires a != b && b != c && a != c
    ensures var end := Run(Resting(a), StaleRequest(b, c)); Frozen(end) && end.domain == Domain(c, Some(b), true, Pending)
  {
    var t := ReachSecondDone(a, b, [QueueRequest(0, c, 1)]);
    assert StaleRequest(b, c) == [ReadRequest(0, true)] + ([ReadRequest(1, true)] + ([QueueRequest(1, b, 0)] + ([ClaimJob(0)]
      + ([ReadDomain] + ([EnsureSite(true)] + ([Conclude(true)] + ([SettleJob(true)] + [QueueRequest(0, c, 1)])))))));
    assert Inv(t) && NotStuck(t);
    RunCons(t, QueueRequest(0, c, 1), []);
    assert [QueueRequest(0, c, 1)] + [] == [QueueRequest(0, c, 1)];
    assert QueuesStale(t, QueueRequest(0, c, 1));
    StuckExactly(t, QueueRequest(0, c, 1));
    NextKeeps(t, QueueRequest(0, c, 1));
    StuckIsFrozen(Next(t, QueueRequest(0, c, 1)));
  }

  // ---- The old name ----

  /** No other domain holds the name a pending domain is to get back. */
  ghost predicate NamesApart(s: State) {
    s.domain.previous.Some? ==> s.domain.previous.value !in s.taken
  }

  /** Ordinary requests never take it: only a metadata restore, which looks at hostnames alone, can. */
  lemma NamesApartExactly(s: State, step: Step)
    requires Inv(s) && NamesApart(s)
    ensures NamesApart(Next(s, step))
      <==> !(step.RestoreTakes? && s.domain.previous == Some(step.hostname) && step.hostname != s.domain.hostname)
  {
  }

  predicate NoRestore(steps: seq<Step>) {
    forall i :: 0 <= i < |steps| ==> !steps[i].RestoreTakes?
  }

  lemma {:induction false} NamesApartRun(s: State, steps: seq<Step>)
    requires Inv(s) && NamesApart(s) && NoRestore(steps)
    ensures Inv(Run(s, steps)) && NamesApart(Run(s, steps))
    decreases |steps|
  {
    if steps == [] {
    } else {
      NamesApartExactly(s, steps[0]);
      NextKeeps(s, steps[0]);
      NamesApartRun(Next(s, steps[0]), steps[1..]);
    }
  }

  /**
   * Over any run without a metadata restore, a rename that fails on its last attempt with its writes intact ends with
   * the old name, held by no other domain, and a closed job.
   */
  lemma FailedRenameIsUndone(start: State, steps: seq<Step>)
    requires Inv(start) && NamesApart(start) && NoRestore(steps)
    ensures var s := Run(start, steps);
      s.worker.Ensured? && !s.worker.ok && HasJob(s) && LastAttempt(JobOf(s)) ==>
        var end := Run(s, [Conclude(true)] + [SettleJob(true)]);
        && end.domain == Compensated(s.domain) && Some(end.domain.hostname) == s.domain.previous
        && end.domain.hostname !in end.taken
        && s.worker.job in end.jobs && end.jobs[s.worker.job].status == Failed && end.worker.Idle?
  {
    NamesApartRun(start, steps);
    var s := Run(start, steps);
    if s.worker.Ensured? && !s.worker.ok && LastAttempt(JobOf(s)) {
      RunCons(s, Conclude(true), [SettleJob(true)]);
      RunCons(Next(s, Conclude(true)), SettleJob(true), []);
      assert [SettleJob(true)] + [] == [SettleJob(true)];
    }
  }

  const REFUSED: seq<Step> := [ClaimJob(0)] + ([ReadDomain] + ([EnsureSite(false)] + ([Conclude(true)] + [SettleJob(true)])))

  /** From the match on, an attempt whose site fails and whose old name is taken only uses the attempt up. */
  lemma RefusedEnd(s: State)
    requires s.worker.Matched? && HasJob(s) && Compensated(s.domain).hostname in s.taken
    ensures Run(s, [EnsureSite(false)] + ([Conclude(true)] + [SettleJob(true)]))
      == s.(worker := Idle, jobs := s.jobs[s.worker.job := Settle(JobOf(s), false)])
  {
    RunThree(s, EnsureSite(false), Conclude(true), SettleJob(true));
  }

  lemma RunRefused(a: string, b: string, attempts: nat)
    requires a != b && attempts < 2
    ensures Run(Renaming(a, b, {a}, attempts), REFUSED)
      == if attempts == 0 then Renaming(a, b, {a}, 1)
         else Renaming(a, b, {a}, 2).(jobs := map[0 := Job(Work(a, b), Failed, 2, 2)])
  {
    var s := Renaming(a, b, {a}, attempts);
    RunCons(s, ClaimJob(0), [ReadDomain] + ([EnsureSite(false)] + ([Conclude(true)] + [SettleJob(true)])));
    var s1 := Next(s, ClaimJob(0));
    assert s1 == s.(worker := Claimed(0), jobs := map[0 := Job(Work(a, b), Running, attempts + 1, 2)]);
    RunCons(s1, ReadDomain, [EnsureSite(false)] + ([Conclude(true)] + [SettleJob(true)]));
    var s2 := Next(s1, ReadDomain);
    assert s2 == s1.(worker := Matched(0));
    RefusedEnd(s2);
  }

  /** A metadata restore that takes the old name while the rename is pending: both attempts fail and the domain is frozen. */
  lemma RestoredNameStrands(a: string, b: string)
    requires a != b
    ensures var end := Run(Renaming(a, b, {}, 0), [RestoreTakes(a)] + (REFUSED + REFUSED));
      Frozen(end) && end.domain == Domain(b, Some(a), true, Pending)
  {
    var s := Renaming(a, b, {}, 0);
    RunCons(s, RestoreTakes(a), REFUSED + REFUSED);
    assert Next(s, RestoreTakes(a)) == Renaming(a, b, {a}, 0);
    RunRefused(a, b, 0);
    RunRefused(a, b, 1);
    RunAppend(Renaming(a, b, {a}, 0), REFUSED, REFUSED);
    var end := Run(s, [RestoreTakes(a)] + (REFUSED + REFUSED));
    assert Inv(end) && !NotStuck(end);
    StuckIsFrozen(end);
  }
}
