/** Runs that come to rest with a wrong zone, one for each guard of the convergence theorem. */
module DnsRaces {
  import opened Jobs
  import opened Options
  import opened DnsZone
  import opened DnsSync
  import opened DnsConverge
  import opened DnsOutcome
  import Order

  function Begin(job: nat, r: Row): seq<Step> {
    [ClaimJob(job)] + ([ReadRecord] + [ListRows([r])])
  }

  function Finish(answered: bool): seq<Step> {
    [MarkPending(true)] + ([SendPatch(true, answered)] + ([RecordOutcome(true)] + [SettleJob(true)]))
  }

  /** The worker takes a job of the only row up to the listing. */
  lemma RunBegin(s: State, zone: string, job: nat, r: Row)
    requires s.worker.Idle? && s.tables.rows == [r] && job in s.tables.jobs
    requires s.tables.jobs[job].work.row == r.id && Claimable(s.tables.jobs[job])
    ensures Run(s, zone, Begin(job, r))
         == s.(tables := SetJob(s.tables, job, Claim(s.tables.jobs[job])),
               worker := Listed(job, r, [r]))
  {
    RunCons(s, zone, ClaimJob(job), [ReadRecord] + [ListRows([r])]);
    var s1 := Next(s, zone, ClaimJob(job));
    RunCons(s1, zone, ReadRecord, [ListRows([r])]);
    RunOne(Next(s1, zone, ReadRecord), zone, ListRows([r]));
  }

  function After(r: Row, answered: bool): Row {
    if answered then r.(status := Active, synced := Some(r.key)) else r.(status := Error)
  }

  lemma RunMarkSend(s: State, zone: string, r: Row, read: Row, answered: bool)
    requires s.worker.Listed? && HasJob(s) && s.worker.current == read && s.worker.listing == [read]
    requires s.tables.rows == [r] && JobOf(s).work.row == r.id && !JobOf(s).work.remove
    requires Renderable([read]) && SetsAccepted(RecordSets([read], read, None), zone)
    ensures Next(Next(s, zone, MarkPending(true)), zone, SendPatch(true, answered))
         == State(s.tables.(rows := [r.(status := Pending)]), Patched(s.worker.job, read, answered),
                  PatchAll(s.provider, RecordSets([read], read, None)))
  {
    var s1 := Next(s, zone, MarkPending(true));
    assert s1.tables.rows == [r.(status := Pending)];
    assert Sets(s1) == RecordSets([read], read, None);
  }

  lemma RunRecordSettle(s: State, zone: string, r: Row)
    requires s.worker.Patched? && HasJob(s)
    requires s.tables.rows == [r] && JobOf(s).work.row == r.id && !JobOf(s).work.remove
    ensures Next(Next(s, zone, RecordOutcome(true)), zone, SettleJob(true))
         == State(Tables([After(r, s.worker.ok)], s.tables.jobs[s.worker.job := Settle(JobOf(s), s.worker.ok)]), Idle, s.provider)
  {
    assert Next(s, zone, RecordOutcome(true)).tables.rows == [After(r, s.worker.ok)];
  }

  /** The worker finishes a sync of the only row, which may have changed since it was listed. */
  lemma RunFinish(s: State, zone: string, r: Row, read: Row, answered: bool)
    requires s.worker.Listed? && HasJob(s) && s.worker.current == read && s.worker.listing == [read]
    requires s.tables.rows == [r] && JobOf(s).work.row == r.id && !JobOf(s).work.remove
    requires Renderable([read]) && SetsAccepted(RecordSets([read], read, None), zone)
    ensures Run(s, zone, Finish(answered))
         == State(Tables([After(r, answered)], s.tables.jobs[s.worker.job := Settle(JobOf(s), answered)]), Idle,
                  PatchAll(s.provider, RecordSets([read], read, None)))
  {
    RunMarkSend(s, zone, r, read, answered);
    var s1 := Next(s, zone, MarkPending(true));
    var s2 := Next(s1, zone, SendPatch(true, answered));
    RunRecordSettle(s2, zone, r.(status := Pending));
    RunCons(s, zone, MarkPending(true), [SendPatch(true, answered)] + ([RecordOutcome(true)] + [SettleJob(true)]));
    RunCons(s1, zone, SendPatch(true, answered), [RecordOutcome(true)] + [SettleJob(true)]);
    RunCons(s2, zone, RecordOutcome(true), [SettleJob(true)]);
    RunOne(Next(s2, zone, RecordOutcome(true)), zone, SettleJob(true));
  }

  /** Two address values of the zone under different names, and one more content for the first. */
  ghost predicate Samples(zone: string, v: Value, v2: Value, w: Value) {
    && Normal(v, zone) && Normal(v2, zone) && Normal(w, zone)
    && v.key.kind == A && w.key.kind == A && v.key.name != w.key.name
    && v2.key == v.key && v2.content != v.content
  }

  lemma SampleAccepted(zone: string, r: Row)
    requires Normal(ValueOf(r), zone) && r.key.kind == A
    requires r.synced.Some? ==> Normal(ValueOf(r).(key := r.synced.value), zone)
    ensures Renderable([r]) && SetsAccepted(RecordSets([r], r, None), zone)
  {
    assert ZoneRules([r]) && AllNormal([r], zone);
    forall i | 0 <= i < |Keys(r)| ensures |Rendered([r], Keys(r)[i], None)| <= 100 && LiveAccepted([r], Keys(r)[i], None) {
      assert [r][1..] == [];
    }
    JobAcceptedExactly([r], r, None, zone);
  }

  lemma SoloSet(r: Row)
    requires r.priority >= 0 && r.status != Deleting
    ensures SetOf([r], r.key, None).records == [Render(ValueOf(r))]
  {
    assert [r][1..] == [];
    assert Rendered([r], r.key, None) == [Render(ValueOf(r))];
    assert Order.Sort([Render(ValueOf(r))]) == [Render(ValueOf(r))];
  }

  function Attempt(job: nat, r: Row, answered: bool): seq<Step> {
    Begin(job, r) + Finish(answered)
  }

  function Tried(s: State, job: nat, r: Row, answered: bool): State
    requires job in s.tables.jobs && Renderable([r])
  {
    var j := s.tables.jobs[job];
    State(Tables([After(r, answered)], s.tables.jobs[job := Settle(Claim(j), answered)]),
          Idle, PatchAll(s.provider, RecordSets([r], r, None)))
  }

  /** One whole attempt on the only row. */
  lemma RunAttempt(s: State, zone: string, job: nat, r: Row, answered: bool)
    requires s.worker.Idle? && s.tables.rows == [r] && job in s.tables.jobs
    requires var j := s.tables.jobs[job]; j.work.row == r.id && !j.work.remove && Claimable(j)
    requires Renderable([r]) && SetsAccepted(RecordSets([r], r, None), zone)
    ensures Run(s, zone, Attempt(job, r, answered)) == Tried(s, job, r, answered)
  {
    RunBegin(s, zone, job, r);
    var mid := Run(s, zone, Begin(job, r));
    RunFinish(mid, zone, r, r, answered);
    RunAppend(s, zone, Begin(job, r), Finish(answered));
  }

  const EMPTY := State(Tables([], map[]), Idle, map[])

  /** The steps lead from an empty installation to the state. */
  ghost predicate Reaches(zone: string, steps: seq<Step>, s: State) {
    Run(EMPTY, zone, steps) == s
  }

  lemma ReachCreate(zone: string, v: Value)
    requires Normal(v, zone)
    ensures Reaches(zone, [CreateRequest(1, 0, v, true)],
                    State(Tables([RowFrom(1, v, None)], map[0 := NewJob(Work(1, false))]), Idle, map[]))
  {
    RunOne(EMPTY, zone, CreateRequest(1, 0, v, true));
  }

  lemma ReachAttempt(zone: string, steps: seq<Step>, s: State, job: nat, r: Row, answered: bool)
    requires Reaches(zone, steps, s)
    requires s.worker.Idle? && s.tables.rows == [r] && job in s.tables.jobs
    requires var j := s.tables.jobs[job]; j.work.row == r.id && !j.work.remove && Claimable(j)
    requires Renderable([r]) && SetsAccepted(RecordSets([r], r, None), zone)
    ensures Reaches(zone, steps + Attempt(job, r, answered), Tried(s, job, r, answered))
  {
    RunAttempt(s, zone, job, r, answered);
    RunAppend(EMPTY, zone, steps, Attempt(job, r, answered));
  }

  function Updated(s: State, r: Row, job: nat, w: Value): State {
    s.(tables := Tables([RowFrom(r.id, w, r.synced)], s.tables.jobs[job := NewJob(Work(r.id, false))]))
  }

  lemma ReachUpdate(zone: string, steps: seq<Step>, s: State, r: Row, job: nat, w: Value)
    requires Reaches(zone, steps, s)
    requires s.tables.rows == [r] && !Locked(r) && Normal(w, zone) && job !in s.tables.jobs
    ensures Reaches(zone, steps + [UpdateRequest(r.id, job, w, true)], Updated(s, r, job, w))
  {
    RunOne(s, zone, UpdateRequest(r.id, job, w, true));
    RunAppend(EMPTY, zone, steps, [UpdateRequest(r.id, job, w, true)]);
  }

  /** A patch for a row that only has its current key writes that key and no other. */
  lemma OwnKeyPatch(p: Provider, r: Row, key: Key)
    requires r.priority >= 0 && r.status != Deleting && Keys(r) == [r.key]
    ensures Renderable([r])
    ensures var after := PatchAll(p, RecordSets([r], r, None));
      ProviderSet(after, key).records == if key == r.key then [Render(ValueOf(r))] else ProviderSet(p, key).records
  {
    SoloSet(r);
    PatchEffect(p, [r], r, None, key);
  }

  /** What the provider serves after a row that only has its current key was patched. */
  ghost predicate Served1(before: Provider, after: Provider, r: Row)
    requires r.priority >= 0
  {
    forall key :: ProviderSet(after, key).records
      == if key == r.key then [Render(ValueOf(r))] else ProviderSet(before, key).records
  }

  predicate OwnKeyOnly(r: Row) {
    r.priority >= 0 && r.key.kind == A && r.status != Deleting && Keys(r) == [r.key]
  }

  lemma TryOwnKey(zone: string, steps: seq<Step>, s: State, job: nat, r: Row, answered: bool) returns (t: State)
    requires Reaches(zone, steps, s)
    requires s.worker.Idle? && s.tables.rows == [r] && job in s.tables.jobs
    requires var j := s.tables.jobs[job]; j.work.row == r.id && !j.work.remove && Claimable(j)
    requires OwnKeyOnly(r) && Normal(ValueOf(r), zone)
    ensures Reaches(zone, steps + Attempt(job, r, answered), t)
    ensures t.worker.Idle? && t.tables == Tried(s, job, r, answered).tables && Served1(s.provider, t.provider, r)
  {
    OwnSynced(r);
    SampleAccepted(zone, r);
    ReachAttempt(zone, steps, s, job, r, answered);
    t := Tried(s, job, r, answered);
    forall key ensures ProviderSet(t.provider, key).records
      == if key == r.key then [Render(ValueOf(r))] else ProviderSet(s.provider, key).records
    {
      OwnKeyPatch(s.provider, r, key);
    }
  }

  lemma OwnSynced(r: Row)
    requires Keys(r) == [r.key]
    ensures r.synced == None || r.synced == Some(r.key)
  {
    assert |Keys(r)| == 1;
  }

  function FirstTry(v: Value, answered: bool): seq<Step> {
    [CreateRequest(1, 0, v, true)] + Attempt(0, RowFrom(1, v, None), answered)
  }

  function JobAfter(attempts: nat, status: JobStatus): RecordJob {
    Job(Work(1, false), status, attempts, MAX_ATTEMPTS)
  }

  lemma ReachFirstTry(zone: string, v: Value, answered: bool) returns (s: State)
    requires Normal(v, zone) && v.key.kind == A
    ensures Reaches(zone, FirstTry(v, answered), s)
    ensures s.worker.Idle? && s.tables.rows == [After(RowFrom(1, v, None), answered)]
    ensures s.tables.jobs == map[0 := JobAfter(1, if answered then Succeeded else Queued)]
    ensures ProviderSet(s.provider, v.key).records == [Render(v)]
  {
    var r := RowFrom(1, v, None);
    ReachCreate(zone, v);
    var s0 := State(Tables([r], map[0 := NewJob(Work(1, false))]), Idle, map[]);
    assert ValueOf(r) == v;
    s := TryOwnKey(zone, [CreateRequest(1, 0, v, true)], s0, 0, r, answered);
  }

  // ---- Renaming a row whose first sync was applied but not acknowledged ----

  function RenamedAfterFailure(v: Value, w: Value): seq<Step> {
    FirstTry(v, false) + [UpdateRequest(1, 1, w, true)] + Attempt(0, RowFrom(1, w, None), true)
  }

  function RenameUnsynced(v: Value, w: Value): seq<Step> {
    RenamedAfterFailure(v, w) + Attempt(1, After(RowFrom(1, w, None), true), true)
  }

  lemma ReachRenamedAfterFailure(zone: string, v: Value, w: Value) returns (s: State)
    requires Normal(v, zone) && Normal(w, zone) && v.key.kind == A && w.key.kind == A && v.key != w.key
    ensures Reaches(zone, RenamedAfterFailure(v, w), s)
    ensures s.worker.Idle? && s.tables.rows == [After(RowFrom(1, w, None), true)]
    ensures s.tables.jobs == map[0 := JobAfter(2, Succeeded), 1 := JobAfter(0, Queued)]
    ensures ProviderSet(s.provider, v.key).records == [Render(v)]
  {
    var failed, rw := After(RowFrom(1, v, None), false), RowFrom(1, w, None);
    var s1 := ReachFirstTry(zone, v, false);
    ReachUpdate(zone, FirstTry(v, false), s1, failed, 1, w);
    var s2 := Updated(s1, failed, 1, w);
    assert ValueOf(rw) == w;
    s := TryOwnKey(zone, FirstTry(v, false) + [UpdateRequest(1, 1, w, true)], s2, 0, rw, true);
  }

  /** The run comes to rest and the provider still serves the old name. */
  lemma RenameUnsyncedLeavesOldName(zone: string, v: Value, v2: Value, w: Value)
    requires Samples(zone, v, v2, w)
    ensures var s := Run(EMPTY, zone, RenameUnsynced(v, w));
      AtRest(s.tables) && Renderable(s.tables.rows) && !Served(s.tables.rows, s.provider, v.key)
  {
    var done := After(RowFrom(1, w, None), true);
    assert ValueOf(done) == w;
    var s3 := ReachRenamedAfterFailure(zone, v, w);
    var s4 := TryOwnKey(zone, RenamedAfterFailure(v, w), s3, 1, done, true);
    StaleText(s4, v, done);
  }

  /** A text served under a key that no row has. */
  lemma StaleText(s: State, v: Value, done: Row)
    requires v.priority >= 0 && s.tables.rows == [done] && done.priority >= 0
    requires ProviderSet(s.provider, v.key).records == [Render(v)]
    requires done.key == v.key ==> Render(ValueOf(done)) != Render(v)
    ensures !Served(s.tables.rows, s.provider, v.key)
  {
    assert Render(v) in ProviderSet(s.provider, v.key).records;
  }

  lemma ReachBegin(zone: string, steps: seq<Step>, s: State, job: nat, r: Row) returns (t: State)
    requires Reaches(zone, steps, s)
    requires s.worker.Idle? && s.tables.rows == [r] && job in s.tables.jobs
    requires var j := s.tables.jobs[job]; j.work.row == r.id && Claimable(j)
    ensures Reaches(zone, steps + Begin(job, r), t)
    ensures t == State(SetJob(s.tables, job, Claim(s.tables.jobs[job])),
                       Listed(job, r, [r]), s.provider)
  {
    RunBegin(s, zone, job, r);
    RunAppend(EMPTY, zone, steps, Begin(job, r));
    t := Run(s, zone, Begin(job, r));
  }

  lemma FinishOwnKey(zone: string, steps: seq<Step>, s: State, r: Row, read: Row) returns (t: State)
    requires Reaches(zone, steps, s)
    requires s.worker.Listed? && HasJob(s) && s.worker.current == read && s.worker.listing == [read]
    requires s.tables.rows == [r] && JobOf(s).work.row == r.id && !JobOf(s).work.remove
    requires OwnKeyOnly(read) && Normal(ValueOf(read), zone)
    ensures Reaches(zone, steps + Finish(true), t)
    ensures t.worker.Idle? && Served1(s.provider, t.provider, read)
    ensures t.tables == Tables([After(r, true)], s.tables.jobs[s.worker.job := JobOf(s).(status := Succeeded)])
  {
    OwnSynced(read);
    SampleAccepted(zone, read);
    RunFinish(s, zone, r, read, true);
    RunAppend(EMPTY, zone, steps, Finish(true));
    t := Run(s, zone, Finish(true));
    forall key ensures ProviderSet(t.provider, key).records
      == if key == read.key then [Render(ValueOf(read))] else ProviderSet(s.provider, key).records
    {
      OwnKeyPatch(s.provider, read, key);
    }
  }

  // ---- Renaming while a retry of the row is between its listing and its outcome ----

  function SyncedThenFailed(v: Value): seq<Step> {
    FirstTry(v, true) + [UpdateRequest(1, 1, v, true)] + Attempt(1, RowFrom(1, v, Some(v.key)), false)
  }

  function RetryWhileRenamed(v: Value, w: Value): seq<Step> {
    SyncedThenFailed(v) + Begin(1, RowFrom(1, v, Some(v.key)).(status := Error)) + [UpdateRequest(1, 2, w, true)] + Finish(true)
  }

  function RenameInFlight(v: Value, w: Value): seq<Step> {
    RetryWhileRenamed(v, w) + Attempt(2, RowFrom(1, w, Some(w.key)).(status := Active), true)
  }

  lemma ReachSyncedThenFailed(zone: string, v: Value) returns (s: State)
    requires Normal(v, zone) && v.key.kind == A
    ensures Reaches(zone, SyncedThenFailed(v), s)
    ensures s.worker.Idle? && s.tables.rows == [RowFrom(1, v, Some(v.key)).(status := Error)]
    ensures s.tables.jobs == map[0 := JobAfter(1, Succeeded), 1 := JobAfter(1, Queued)]
    ensures ProviderSet(s.provider, v.key).records == [Render(v)]
  {
    var tried, synced := After(RowFrom(1, v, None), true), RowFrom(1, v, Some(v.key));
    var s1 := ReachFirstTry(zone, v, true);
    ReachUpdate(zone, FirstTry(v, true), s1, tried, 1, v);
    var s2 := Updated(s1, tried, 1, v);
    assert ValueOf(synced) == v;
    s := TryOwnKey(zone, FirstTry(v, true) + [UpdateRequest(1, 1, v, true)], s2, 1, synced, false);
  }

  lemma ReachRetryWhileRenamed(zone: string, v: Value, w: Value) returns (s: State)
    requires Normal(v, zone) && Normal(w, zone) && v.key.kind == A
    ensures Reaches(zone, RetryWhileRenamed(v, w), s)
    ensures s.worker.Idle? && s.tables.rows == [RowFrom(1, w, Some(w.key)).(status := Active)]
    ensures s.tables.jobs == map[0 := JobAfter(1, Succeeded), 1 := JobAfter(2, Succeeded), 2 := JobAfter(0, Queued)]
    ensures ProviderSet(s.provider, v.key).records == [Render(v)]
  {
    var failed, renamed := RowFrom(1, v, Some(v.key)).(status := Error), RowFrom(1, w, Some(v.key));
    assert ValueOf(failed) == v;
    var a := SyncedThenFailed(v);
    var s1 := ReachSyncedThenFailed(zone, v);
    var s2 := ReachBegin(zone, a, s1, 1, failed);
    var b := a + Begin(1, failed);
    ReachUpdate(zone, b, s2, failed, 2, w);
    var s3 := Updated(s2, failed, 2, w);
    s := FinishOwnKey(zone, b + [UpdateRequest(1, 2, w, true)], s3, renamed, failed);
  }

  /** The run comes to rest and the provider still serves the old name. */
  lemma RenameInFlightLeavesOldName(zone: string, v: Value, v2: Value, w: Value)
    requires Samples(zone, v, v2, w)
    ensures var s := Run(EMPTY, zone, RenameInFlight(v, w));
      AtRest(s.tables) && Renderable(s.tables.rows) && !Served(s.tables.rows, s.provider, v.key)
  {
    var done := RowFrom(1, w, Some(w.key)).(status := Active);
    assert ValueOf(done) == w;
    var s4 := ReachRetryWhileRenamed(zone, v, w);
    var s5 := TryOwnKey(zone, RetryWhileRenamed(v, w), s4, 2, done, true);
    StaleText(s5, v, done);
  }

  // ---- Closing the only open job of an active row without its handler ----

  function DropLast(v: Value, v2: Value): seq<Step> {
    FirstTry(v, false) + Begin(0, RowFrom(1, v, None).(status := Error)) + [UpdateRequest(1, 1, v2, true)] + Finish(true)
    + ([ClaimJob(1)] + [DropJob(true)])
  }

  lemma ReachDrop(zone: string, steps: seq<Step>, s: State) returns (t: State)
    requires Reaches(zone, steps, s) && s.worker.Idle? && 1 in s.tables.jobs && s.tables.jobs[1] == JobAfter(0, Queued)
    ensures Reaches(zone, steps + ([ClaimJob(1)] + [DropJob(true)]), t)
    ensures t == s.(tables := SetJob(s.tables, 1, JobAfter(1, Failed)))
  {
    RunCons(s, zone, ClaimJob(1), [DropJob(true)]);
    var mid := Next(s, zone, ClaimJob(1));
    RunOne(mid, zone, DropJob(true));
    RunAppend(EMPTY, zone, steps, [ClaimJob(1)] + [DropJob(true)]);
    t := Next(mid, zone, DropJob(true));
    assert t.tables.jobs == s.tables.jobs[1 := JobAfter(1, Failed)];
  }

  lemma RendersApart(v: Value, v2: Value, zone: string)
    requires Normal(v, zone) && Normal(v2, zone) && v2.key == v.key && v2.content != v.content
    ensures Render(v2) != Render(v)
  {
    if Render(v2) == Render(v) {
      RenderInjective(v2, v, zone);
    }
  }

  /** The run comes to rest and the provider still serves the old content. */
  lemma DropLastLeavesOldContent(zone: string, v: Value, v2: Value, w: Value)
    requires Samples(zone, v, v2, w)
    ensures var s := Run(EMPTY, zone, DropLast(v, v2));
      AtRest(s.tables) && Renderable(s.tables.rows) && !Served(s.tables.rows, s.provider, v.key)
  {
    var changed, failed := RowFrom(1, v2, None), RowFrom(1, v, None).(status := Error);
    assert ValueOf(failed) == v && ValueOf(After(changed, true)) == v2;
    var a := FirstTry(v, false);
    var s1 := ReachFirstTry(zone, v, false);
    var s2 := ReachBegin(zone, a, s1, 0, failed);
    var b := a + Begin(0, failed);
    ReachUpdate(zone, b, s2, failed, 1, v2);
    var s3 := Updated(s2, failed, 1, v2);
    var c := b + [UpdateRequest(1, 1, v2, true)];
    var s4 := FinishOwnKey(zone, c, s3, changed, failed);
    var s5 := ReachDrop(zone, c + Finish(true), s4);
    RendersApart(v, v2, zone);
    StaleText(s5, v, After(changed, true));
  }
}
