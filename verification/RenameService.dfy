/** The rename request and the rename job handler as they run, against the run model. */
module RenameService {
  import opened Jobs
  import opened Options
  import opened Rename

  class Service {
    var domain: Domain
    var taken: set<string>
    var jobs: map<nat, RenameJob>

    constructor (domain: Domain, taken: set<string>)
      ensures View(map[], Idle) == State(domain, taken, map[], map[], Idle)
    {
      this.domain, this.taken, this.jobs := domain, taken, map[];
    }

    function View(seen: map<nat, Seen>, w: Worker): State
      reads this
    {
      State(domain, taken, seen, jobs, w)
    }

    /** WebsiteHostnameExists: as a hostname or as a previous hostname of any domain. */
    method HostnameExists(hostname: string) returns (exists_: bool)
      ensures exists_ <==> hostname in taken || hostname == domain.hostname || domain.previous == Some(hostname)
    {
      return hostname in taken || domain.hostname == hostname || domain.previous == Some(hostname);
    }

    /** RenameDomain up to its transaction: the rows it reads, its checks on them, and the payload it builds. */
    method PrepareRename(request: nat, hostname: string, siteActive: bool, seen: map<nat, Seen>, w: Worker)
        returns (payload: Option<Work>, after: map<nat, Seen>)
      ensures View(after, w) == Next(View(seen, w), ReadRequest(request, siteActive))
      ensures request in after && payload == if Passes(after[request], hostname) then Some(Work(domain.hostname, hostname)) else None
    {
      after := seen[request := Seen(domain.hostname, domain.status, siteActive)];
      if !siteActive || domain.status == Pending {
        return None, after;
      }
      if hostname == domain.hostname {
        return None, after;
      }
      return Some(Work(domain.hostname, hostname)), after;
    }

    /**
     * QueueWebsiteDomainRename: one transaction that checks the new hostname and the status of the row as it is now,
     * moves the row, and stores the payload built from the row as it was when the request read it.
     */
    method QueueRename(request: nat, payload: Work, job: nat, seen: map<nat, Seen>, w: Worker) returns (ok: bool)
      requires request in seen && Passes(seen[request], payload.hostname) && payload.previous == seen[request].hostname
      requires job !in jobs
      modifies this
      ensures View(seen - {request}, w) == Next(old(View(seen, w)), QueueRequest(request, payload.hostname, job))
      ensures ok <==> Accepted(old(View(seen, w)), request, payload.hostname, job)
    {
      var found := HostnameExists(payload.hostname);
      if found {
        return false;
      }
      if domain.status == Pending {
        return false;
      }
      domain := domain.(previous := Some(domain.hostname), hostname := payload.hostname, status := Pending);
      jobs := jobs[job := NewJob(payload)];
      return true;
    }

    ghost function HandlerSteps(s: State, readable: bool, ensured: bool, written: bool): seq<Step>
      requires HasJob(s)
    {
      if !readable then [ReadFails]
      else if Settled(s.domain, JobOf(s)) || !Matches(s.domain, JobOf(s)) then [ReadDomain]
      else [ReadDomain] + ([EnsureSite(ensured)] + [Conclude(written)])
    }

    /** ProvisionDomainRename: skip when settled, refuse when the row moved on, else reconcile and complete or compensate. */
    method ProvisionRename(job: nat, readable: bool, ensured: bool, written: bool, ghost seen: map<nat, Seen>) returns (ok: bool)
      requires job in jobs
      modifies `domain
      ensures View(seen, Done(job, ok))
        == Run(old(View(seen, Claimed(job))), HandlerSteps(old(View(seen, Claimed(job))), readable, ensured, written))
    {
      var work := jobs[job].work;
      ghost var s := View(seen, Claimed(job));
      RunOne(s, if readable then ReadDomain else ReadFails);
      if !readable {
        return false;
      }
      if domain.previous.None? && domain.hostname == work.hostname && (domain.status == Active || domain.status == Disabled) {
        return true;
      }
      if domain.previous != Some(work.previous) || domain.hostname != work.hostname {
        return false;
      }
      RunThree(s, ReadDomain, EnsureSite(ensured), Conclude(written));
      if !ensured {
        if jobs[job].attempts >= jobs[job].maxAttempts {
          FailRename(written);
        }
        return false;
      }
      if !written {
        return false;
      }
      domain := domain.(previous := None, status := if domain.enabled then Active else Disabled);
      return true;
    }

    /** FailWebsiteDomainRename; its error is ignored, whether the write is lost or the hostname index refuses it. */
    method FailRename(written: bool)
      modifies `domain
      ensures domain == if written && Compensated(old(domain)).hostname !in taken then Compensated(old(domain)) else old(domain)
    {
      var hostname := if domain.previous.Some? then domain.previous.value else domain.hostname;
      if written && hostname !in taken {
        domain := domain.(hostname := hostname, previous := None, status := Error);
      }
    }
  }

  lemma RunOne(s: State, step: Step)
    ensures Run(s, [step]) == Next(s, step)
  {
    assert [step][1..] == [];
    assert Run(Next(s, step), []) == Next(s, step);
  }
}
