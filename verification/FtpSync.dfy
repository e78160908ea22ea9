/**
 * FTP access over whole runs: requests, the job worker, agent calls and account suspension interleave,
 * and every store write, agent call and job update may fail or be cut off by a crash.
 */
module FtpSync {
  import opened Jobs
  import opened Options
  import opened FtpLine
  import opened FtpHost
  import opened FtpStore

  /** Where the single worker stands inside one ftp.sync job. */
  datatype Worker =
    | Idle
    | Claimed(job: nat)
    | Loaded(job: nat, entries: seq<Entry>)
    | Called(job: nat, ok: bool)
    | Done(job: nat, ok: bool)

  datatype State = State(tables: Tables, host: Host, worker: Worker)

  datatype Step =
    | CreateRequest(row: Row, key: nat, at: nat, limit: nat, allowed: bool)
    | ChangeRequest(id: string, changes: Changes, key: nat, allowed: bool)
    | ClaimJob(key: nat)
    | DropJob(written: bool)
    | LoadRows
    | LoadFails
    | CallAgent(systemUser: string, faults: Faults, delivered: bool, answered: bool)
    | FinishRows(written: bool)
    | SettleJob(written: bool)
    | Crash
    | Suspension(call: Call)

  function JobAccount(s: State): string
    requires !s.worker.Idle? && s.worker.job in s.tables.jobs
  {
    s.tables.jobs[s.worker.job].work
  }

  predicate WorkerHasJob(s: State) {
    !s.worker.Idle? && s.worker.job in s.tables.jobs
  }

  function SetJob(t: Tables, key: nat, j: SyncJob): Tables {
    t.(jobs := t.jobs[key := j])
  }

  /** One step; a step that is not enabled changes nothing. */
  ghost function Next(s: State, users: Users, step: Step): State {
    match step
    case CreateRequest(row, key, at, limit, allowed) =>
      s.(tables := Create(s.tables, row, key, at, limit, allowed).tables)
    case ChangeRequest(id, changes, key, allowed) =>
      s.(tables := Change(s.tables, id, changes, key, allowed).tables)
    case ClaimJob(key) =>
      if s.worker.Idle? && key in s.tables.jobs && Claimable(s.tables.jobs[key])
      then State(SetJob(s.tables, key, Claim(s.tables.jobs[key])), s.host, Claimed(key))
      else s
    case DropJob(written) =>
      if s.worker.Claimed? && WorkerHasJob(s) then
        s.(worker := Idle,
           tables := if written then SetJob(s.tables, s.worker.job, Drop(s.tables.jobs[s.worker.job])) else s.tables)
      else s
    case LoadRows =>
      if s.worker.Claimed? && WorkerHasJob(s)
      then s.(worker := Loaded(s.worker.job, EntriesOf(s.tables.rows, JobAccount(s))))
      else s
    case LoadFails =>
      if s.worker.Claimed? then s.(worker := Called(s.worker.job, false)) else s
    case CallAgent(systemUser, faults, delivered, answered) =>
      if s.worker.Loaded? && WorkerHasJob(s) then
        if !delivered then s.(worker := Called(s.worker.job, false))
        else
          var r := Sync(s.host, users, JobAccount(s), systemUser, s.worker.entries, faults);
          s.(host := r.host, worker := Called(s.worker.job, r.ok && answered))
      else s
    case FinishRows(written) =>
      if s.worker.Called? && WorkerHasJob(s) then
        if written then s.(tables := Finish(s.tables, JobAccount(s), !s.worker.ok), worker := Done(s.worker.job, s.worker.ok))
        else s.(worker := Done(s.worker.job, false))
      else s
    case SettleJob(written) =>
      if s.worker.Done? && WorkerHasJob(s) then
        s.(worker := Idle,
           tables := if written then SetJob(s.tables, s.worker.job, Settle(s.tables.jobs[s.worker.job], s.worker.ok)) else s.tables)
      else s
    case Crash =>
      s.(worker := Idle, tables := s.tables.(jobs := RecoverAll(s.tables.jobs)))
    case Suspension(call) =>
      if call.DisableCall? || call.EnableCall? then s.(host := Apply(s.host, users, call).host) else s
  }

  ghost function Run(s: State, users: Users, steps: seq<Step>): State
    decreases |steps|
  {
    if steps == [] then s else Run(Next(s, users, steps[0]), users, steps[1..])
  }

  ghost predicate Initial(s: State) {
    s.tables == Tables([], map[]) && s.host.files == map[] && s.host.logins == {} && s.worker == Idle
  }

  // ---- The invariant ----

  predicate RowSettled(r: Row) {
    r.status == Active || r.status == Disabled
  }

  ghost predicate AllSettled(rows: seq<Row>, account: string) {
    forall r :: r in rows && r.account == account ==> RowSettled(r)
  }

  ghost predicate IdsDistinct(rows: seq<Row>) {
    forall i, j :: 0 <= i < j < |rows| ==> rows[i].id != rows[j].id
  }

  /** At most one unfinished ftp.sync job per account. */
  ghost predicate OneJobPerAccount(jobs: map<nat, SyncJob>) {
    forall k, l | k in jobs && l in jobs && Unfinished(jobs[k]) && Unfinished(jobs[l]) ::
      jobs[k].work == jobs[l].work ==> k == l
  }

  /** A settled row is not being deleted, and its status says whether it is enabled. */
  ghost predicate RowsCoherent(rows: seq<Row>) {
    forall r :: r in rows && RowSettled(r) ==> !r.deleting && (r.status == Active <==> r.enabled)
  }

  ghost predicate RowBehind(rows: seq<Row>, account: string, id: string) {
    exists r :: r in rows && r.account == account && r.id == id
  }

  /** Every login in an account file still has its row. */
  ghost predicate FilesHaveRows(rows: seq<Row>, files: Files) {
    forall a, e {:trigger Holds(files, a, e)} :: Holds(files, a, e) ==> RowBehind(rows, a, e.id)
  }

  /** An account whose rows are all settled has exactly its rows in its account file. */
  ghost predicate Agreement(rows: seq<Row>, files: Files) {
    forall a :: AllSettled(rows, a) ==> FileOf(files, a).entries == EntriesOf(rows, a)
  }

  /** The worker's job is unfinished; what it read is still what the table says, and what was installed matches. */
  ghost predicate WorkerOk(s: State) {
    !s.worker.Idle? ==>
      && s.worker.job in s.tables.jobs
      && Unfinished(s.tables.jobs[s.worker.job])
      && (s.worker.Loaded? ==> s.worker.entries == EntriesOf(s.tables.rows, JobAccount(s)))
      && (s.worker.Called? && s.worker.ok ==>
            FileOf(s.host.files, JobAccount(s)).entries == EntriesOf(s.tables.rows, JobAccount(s)))
  }

  ghost predicate Inv(s: State, users: Users) {
    && Consistent(s.host, users)
    && IdsDistinct(s.tables.rows)
    && OneJobPerAccount(s.tables.jobs)
    && RowsCoherent(s.tables.rows)
    && FilesHaveRows(s.tables.rows, s.host.files)
    && Agreement(s.tables.rows, s.host.files)
    && WorkerOk(s)
  }

  // ---- Every step keeps it ----

  lemma InitialInv(s: State, users: Users)
    requires Initial(s)
    ensures Inv(s, users)
  {
  }

  /** What the table with an inserted row says about the files: no account's file disagrees that did not before. */
  lemma InsertRows(rows: seq<Row>, at: nat, created: Row, files: Files)
    requires at <= |rows| && created.status == Pending && FilesHaveRows(rows, files) && Agreement(rows, files)
    ensures var after := rows[..at] + [created] + rows[at..];
      && (forall r :: r in after <==> r == created || r in rows)
      && FilesHaveRows(after, files) && Agreement(after, files)
      && forall a :: a != created.account ==> EntriesOf(after, a) == EntriesOf(rows, a)
  {
    var after := rows[..at] + [created] + rows[at..];
    assert rows == rows[..at] + rows[at..];
    assert created in after;
    forall a | a != created.account ensures EntriesOf(after, a) == EntriesOf(rows, a) {
      EntriesOfInsert(rows, at, created, a);
    }
    forall a | AllSettled(after, a) ensures a != created.account && AllSettled(rows, a) {
    }
    forall a, e | Holds(files, a, e) ensures RowBehind(after, a, e.id) {
      assert RowBehind(rows, a, e.id);
    }
  }

  lemma CreateKeeps(s: State, users: Users, row: Row, key: nat, at: nat, limit: nat, allowed: bool)
    requires Inv(s, users) && Create(s.tables, row, key, at, limit, allowed).ok
    ensures Inv(s.(tables := Create(s.tables, row, key, at, limit, allowed).tables), users)
  {
    InsertRows(s.tables.rows, at, row.(deleting := false, status := Pending), s.host.files);
  }

  lemma ChangeKeeps(s: State, users: Users, id: string, c: Changes, key: nat, allowed: bool)
    requires Inv(s, users) && Change(s.tables, id, c, key, allowed).ok
    ensures Inv(s.(tables := Change(s.tables, id, c, key, allowed).tables), users)
  {
    var t, t' := s.tables, Change(s.tables, id, c, key, allowed).tables;
    var i := FindRow(t.rows, id).value;
    var merged := Merge(t.rows[i], c);
    assert t'.rows == t.rows[i := merged];
    assert t'.rows[i] == merged;
    assert merged in t'.rows && merged.account == t.rows[i].account && merged.id == id;
    forall r | r in t.rows && r != t.rows[i] ensures r in t'.rows {
      var k :| 0 <= k < |t.rows| && t.rows[k] == r;
      assert t'.rows[k] == r;
    }
    forall a | a != merged.account ensures EntriesOf(t'.rows, a) == EntriesOf(t.rows, a) {
      EntriesOfReplace(t.rows, i, merged, a);
    }
    forall a | AllSettled(t'.rows, a) ensures a != merged.account && AllSettled(t.rows, a) {
    }
    forall a, e | Holds(s.host.files, a, e) ensures RowBehind(t'.rows, a, e.id) {
      var r :| r in t.rows && r.account == a && r.id == e.id;
      if r == t.rows[i] {
        assert merged in t'.rows;
      } else {
        assert r in t'.rows;
      }
    }
  }

  lemma CallKeeps(s: State, users: Users, systemUser: string, f: Faults, answered: bool)
    requires Inv(s, users) && s.worker.Loaded?
    ensures var r := Sync(s.host, users, JobAccount(s), systemUser, s.worker.entries, f);
      Inv(s.(host := r.host, worker := Called(s.worker.job, r.ok && answered)), users)
  {
    var a, entries := JobAccount(s), s.worker.entries;
    var r := Sync(s.host, users, a, systemUser, entries, f);
    var call := SyncCall(a, systemUser, entries, f);
    ApplyKeepsConsistent(s.host, users, call);
    SyncInstalls(s.host, users, a, systemUser, entries, f);
    forall b | b != a ensures FileOf(r.host.files, b) == FileOf(s.host.files, b) {
      OtherFilesUntouched(s.host, users, call, b);
    }
    forall b, e | Holds(r.host.files, b, e) ensures RowBehind(s.tables.rows, b, e.id) {
      if b != a {
        OtherFilesUntouched(s.host, users, call, b);
        assert Holds(s.host.files, b, e);
      } else if r.host != s.host {
        EntriesFromRows(s.tables.rows, a, e);
      }
    }
  }

  lemma {:induction false} FilterDistinct(rows: seq<Row>, account: string)
    requires IdsDistinct(rows)
    ensures IdsDistinct(WithoutDeleting(rows, account))
  {
    if rows == [] {
    } else {
      FilterDistinct(rows[1..], account);
      var rest := WithoutDeleting(rows[1..], account);
      forall k | 0 <= k < |rest| ensures rest[k].id != rows[0].id {
        assert rest[k] in rows[1..];
      }
    }
  }

  /** Membership after FinishFTP: the surviving rows, with the account's statuses set. */
  lemma FinishMembers(t: Tables, account: string, failed: bool, r: Row)
    requires r in Finish(t, account, failed).rows
    ensures exists q | q in t.rows ::
      && q.id == r.id && q.account == r.account
      && (if q.account == account then r == Settled(q, failed) && (failed || !q.deleting) else r == q)
  {
    var kept := if failed then t.rows else WithoutDeleting(t.rows, account);
    var after := SetStatuses(kept, account, failed);
    var k :| 0 <= k < |after| && after[k] == r;
    assert kept[k] in kept && kept[k] in t.rows;
  }

  lemma FinishKeepsRow(t: Tables, account: string, failed: bool, q: Row)
    requires q in t.rows && (failed || q.account != account || !q.deleting)
    ensures RowBehind(Finish(t, account, failed).rows, q.account, q.id)
    ensures q.account != account ==> q in Finish(t, account, failed).rows
  {
    var kept := if failed then t.rows else WithoutDeleting(t.rows, account);
    assert q in kept;
    var k :| 0 <= k < |kept| && kept[k] == q;
    assert Finish(t, account, failed).rows[k] in Finish(t, account, failed).rows;
  }

  lemma FailedUnsettled(t: Tables, account: string, q: Row)
    requires q in t.rows && q.account == account
    ensures !AllSettled(Finish(t, account, true).rows, account)
  {
    FinishKeepsRow(t, account, true, q);
    var r :| r in Finish(t, account, true).rows && r.account == account && r.id == q.id;
    FinishMembers(t, account, true, r);
  }

  lemma FinishAgreement(s: State, users: Users)
    requires Inv(s, users) && s.worker.Called?
    ensures Agreement(Finish(s.tables, JobAccount(s), !s.worker.ok).rows, s.host.files)
  {
    var a, t := JobAccount(s), s.tables;
    var rows := Finish(t, a, !s.worker.ok).rows;
    forall b | AllSettled(rows, b) ensures FileOf(s.host.files, b).entries == EntriesOf(rows, b) {
      EntriesOfFinish(t, a, !s.worker.ok, b);
      if b != a || !s.worker.ok {
        forall q | q in t.rows && q.account == b ensures RowSettled(q) {
          if b == a {
            FailedUnsettled(t, a, q);
          } else {
            FinishKeepsRow(t, a, !s.worker.ok, q);
          }
        }
        assert AllSettled(t.rows, b);
      }
    }
  }

  lemma FinishKeeps(s: State, users: Users)
    requires Inv(s, users) && s.worker.Called?
    ensures Inv(s.(tables := Finish(s.tables, JobAccount(s), !s.worker.ok), worker := Done(s.worker.job, s.worker.ok)), users)
  {
    var a, t, failed := JobAccount(s), s.tables, !s.worker.ok;
    var rows := Finish(t, a, failed).rows;
    FinishAgreement(s, users);
    FilterDistinct(t.rows, a);
    forall r | r in rows && RowSettled(r) ensures !r.deleting && (r.status == Active <==> r.enabled) {
      FinishMembers(t, a, failed, r);
    }
    forall b, e | Holds(s.host.files, b, e) ensures RowBehind(rows, b, e.id) {
      if b == a && !failed {
        EntriesFromRows(t.rows, a, e);
        var q :| q in t.rows && q.account == a && !q.deleting && e == Entry(q.id, q.username, q.hash, q.enabled);
        FinishKeepsRow(t, a, failed, q);
      } else {
        assert RowBehind(t.rows, b, e.id);
        var q :| q in t.rows && q.account == b && q.id == e.id;
        FinishKeepsRow(t, a, failed, q);
      }
    }
  }

  ghost predicate SameEntries(before: Files, after: Files) {
    after.Keys == before.Keys && forall a :: a in after ==> after[a].entries == before[a].entries
  }

  lemma SetEnabledKeepsEntries(h: Host, users: Users, id: string, systemUser: string, enabled: bool, f: Faults)
    ensures SameEntries(h.files, SetEnabled(h, users, id, systemUser, enabled, f).host.files)
  {
  }

  lemma SuspensionKeepsEntries(h: Host, users: Users, call: Call)
    requires call.DisableCall? || call.EnableCall?
    ensures SameEntries(h.files, Apply(h, users, call).host.files)
  {
    var id, user, m := call.id, call.systemUser, call.mfaults;
    if call.DisableCall? {
      SetEnabledKeepsEntries(HomeDisable(h, users, id, user, m.home).host, users, id, user, false, m.ftp);
    } else {
      var home := HomeEnable(h, users, id, user, m.home).host;
      SetEnabledKeepsEntries(home, users, id, user, true, m.ftp);
      var ftp := SetEnabled(home, users, id, user, true, m.ftp).host;
      SetEnabledKeepsEntries(ftp, users, id, user, false, m.undoFtp);
    }
  }

  lemma SuspensionKeeps(s: State, users: Users, call: Call)
    requires Inv(s, users) && (call.DisableCall? || call.EnableCall?)
    ensures Inv(s.(host := Apply(s.host, users, call).host), users)
  {
    var after := Apply(s.host, users, call).host;
    ApplyKeepsConsistent(s.host, users, call);
    SuspensionKeepsEntries(s.host, users, call);
    assert forall a :: FileOf(after.files, a).entries == FileOf(s.host.files, a).entries;
    forall a, e | Holds(after.files, a, e) ensures RowBehind(s.tables.rows, a, e.id) {
      assert Holds(s.host.files, a, e);
    }
  }

  /** Job bookkeeping touches no row: it may move the worker and close or requeue jobs. */
  lemma JobsKeep(s: State, users: Users, jobs: map<nat, SyncJob>, worker: Worker)
    requires Inv(s, users)
    requires jobs.Keys == s.tables.jobs.Keys
    requires forall k | k in jobs ::
      && jobs[k].work == s.tables.jobs[k].work
      && (Unfinished(jobs[k]) ==> Unfinished(s.tables.jobs[k]))
    requires WorkerOk(s.(tables := s.tables.(jobs := jobs), worker := worker))
    ensures Inv(s.(tables := s.tables.(jobs := jobs), worker := worker), users)
  {
  }

  lemma NextKeeps(s: State, users: Users, step: Step)
    requires Inv(s, users)
    ensures Inv(Next(s, users, step), users)
  {
    match step
    case CreateRequest(row, key, at, limit, allowed) =>
      if Create(s.tables, row, key, at, limit, allowed).ok {
        CreateKeeps(s, users, row, key, at, limit, allowed);
      }
    case ChangeRequest(id, changes, key, allowed) =>
      if Change(s.tables, id, changes, key, allowed).ok {
        ChangeKeeps(s, users, id, changes, key, allowed);
      }
    case CallAgent(systemUser, faults, delivered, answered) =>
      if s.worker.Loaded? {
        CallKeeps(s, users, systemUser, faults, answered);
      }
    case FinishRows(written) =>
      if s.worker.Called? {
        FinishKeeps(s, users);
      }
    case Suspension(call) =>
      if call.DisableCall? || call.EnableCall? {
        SuspensionKeeps(s, users, call);
      }
    case _ =>
      var after := Next(s, users, step);
      assert after == s.(tables := s.tables.(jobs := after.tables.jobs), worker := after.worker);
      JobsKeep(s, users, after.tables.jobs, after.worker);
  }

  lemma {:induction false} RunKeeps(s: State, users: Users, steps: seq<Step>)
    requires Inv(s, users)
    ensures Inv(Run(s, users, steps), users)
    decreases |steps|
  {
    if steps == [] {
    } else {
      NextKeeps(s, users, steps[0]);
      RunKeeps(Next(s, users, steps[0]), users, steps[1..]);
    }
  }

  // ---- What a reader of the system can rely on ----

  /** The logins the rows of an account ask for. */
  ghost function WantedLogins(users: Users, rows: seq<Row>, account: string): set<Login>
    requires HasIdentity(users, account)
  {
    set r | r in rows && r.account == account && r.enabled ::
      LoginOf(users, account, Entry(r.id, r.username, r.hash, true))
  }

  lemma ServedFromRows(s: State, users: Users, account: string)
    requires Inv(s, users) && HasIdentity(users, account)
    requires AllSettled(s.tables.rows, account) && !FileOf(s.host.files, account).suspended
    ensures AccountLogins(s.host, account) == WantedLogins(users, s.tables.rows, account)
  {
    var file := FileOf(s.host.files, account);
    AccountLoginsFromFile(s.host, users, account);
    forall l | l in FileLogins(users, account, file) ensures l in WantedLogins(users, s.tables.rows, account) {
      var e :| e in file.entries && e.enabled && l == LoginOf(users, account, e);
      EntriesFromRows(s.tables.rows, account, e);
    }
    forall l | l in WantedLogins(users, s.tables.rows, account) ensures l in FileLogins(users, account, file) {
      var r :| r in s.tables.rows && r.account == account && r.enabled
        && l == LoginOf(users, account, Entry(r.id, r.username, r.hash, true));
      EntriesFromRows(s.tables.rows, account, Entry(r.id, r.username, r.hash, true));
    }
  }

  /**
   * Over every run: an account whose rows are all settled and which is not suspended is served exactly
   * the logins its enabled rows ask for, and no other.
   */
  lemma SettledMeansServed(start: State, users: Users, steps: seq<Step>, account: string)
    requires Initial(start) && HasIdentity(users, account)
    ensures var s := Run(start, users, steps);
      AllSettled(s.tables.rows, account) && !FileOf(s.host.files, account).suspended ==>
        AccountLogins(s.host, account) == WantedLogins(users, s.tables.rows, account)
  {
    InitialInv(start, users);
    RunKeeps(start, users, steps);
    var s := Run(start, users, steps);
    if AllSettled(s.tables.rows, account) && !FileOf(s.host.files, account).suspended {
      ServedFromRows(s, users, account);
    }
  }

  lemma LoginHasRow(s: State, users: Users, account: string, l: Login)
    requires Inv(s, users) && HasIdentity(users, account)
    requires l in AccountLogins(s.host, account)
    ensures RowBehind(s.tables.rows, account, l.id)
  {
    var a, e := GrantedBy(s.host, users, l);
    SameHomeSameUser(a, account);
  }

  /** Over every run: a login the database accepts still has its row, so a removed row has no login left. */
  lemma LoginsHaveRows(start: State, users: Users, steps: seq<Step>, account: string, l: Login)
    requires Initial(start) && HasIdentity(users, account)
    requires l in AccountLogins(Run(start, users, steps).host, account)
    ensures RowBehind(Run(start, users, steps).tables.rows, account, l.id)
  {
    InitialInv(start, users);
    RunKeeps(start, users, steps);
    LoginHasRow(Run(start, users, steps), users, account, l);
  }

  /** Over every run: at most one unfinished ftp.sync job per account. */
  lemma OneJobOverRuns(start: State, users: Users, steps: seq<Step>)
    requires Initial(start)
    ensures OneJobPerAccount(Run(start, users, steps).tables.jobs)
  {
    InitialInv(start, users);
    RunKeeps(start, users, steps);
  }

  /** Between the read of an account's rows and the FinishFTP of the same job no request changes those rows. */
  lemma RowsFrozenInFlight(s: State, users: Users, step: Step)
    requires Inv(s, users) && (s.worker.Loaded? || s.worker.Called?)
    requires !step.FinishRows?
    ensures AccountRows(Next(s, users, step).tables.rows, JobAccount(s)) == AccountRows(s.tables.rows, JobAccount(s))
  {
    match step
    case CreateRequest(row, key, at, limit, allowed) =>
      if Create(s.tables, row, key, at, limit, allowed).ok {
        EntriesOfInsert(s.tables.rows, at, row.(deleting := false, status := Pending), JobAccount(s));
      }
    case ChangeRequest(id, changes, key, allowed) =>
      if Change(s.tables, id, changes, key, allowed).ok {
        var i := FindRow(s.tables.rows, id).value;
        EntriesOfReplace(s.tables.rows, i, Merge(s.tables.rows[i], changes), JobAccount(s));
      }
    case _ =>
  }

  ghost predicate DeletingOrGone(rows: seq<Row>, id: string) {
    forall r :: r in rows && r.id == id ==> r.deleting
  }

  /** A deleting mark is never cleared: the row keeps it until the row is removed. */
  lemma DeletingIsFinal(s: State, users: Users, step: Step, row: Row)
    requires Inv(s, users) && row in s.tables.rows && row.deleting
    ensures DeletingOrGone(Next(s, users, step).tables.rows, row.id)
  {
    var t := s.tables;
    forall r | r in t.rows && r.id == row.id ensures r == row {
      var n :| 0 <= n < |t.rows| && t.rows[n] == row;
      var k :| 0 <= k < |t.rows| && t.rows[k] == r;
    }
    match step
    case CreateRequest(created, key, at, limit, allowed) =>
      if Create(t, created, key, at, limit, allowed).ok {
        assert forall r :: r in t.rows[..at] || r in t.rows[at..] ==> r in t.rows;
      }
    case ChangeRequest(id, changes, key, allowed) =>
    case FinishRows(written) =>
      if s.worker.Called? && written {
        var a, failed := JobAccount(s), !s.worker.ok;
        forall r | r in Finish(t, a, failed).rows && r.id == row.id ensures r.deleting {
          FinishMembers(t, a, failed, r);
          var q :| q in t.rows && q.id == r.id && q.account == r.account
            && (if q.account == a then r == Settled(q, failed) && (failed || !q.deleting) else r == q);
        }
      }
    case _ =>
  }
}
