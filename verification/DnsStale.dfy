/** A key that a step outside the guards leaves wrong stays wrong through every run that does not ask for it again. */
module DnsStale {
  import opened Jobs
  import opened Options
  import opened DnsZone
  import opened DnsSync
  import opened DnsConverge
  import opened DnsGuards

  // ---- A key nobody attends to ----

  /** No open row touches the key, and the job in hand does not send it. */
  ghost predicate Unattended(s: State, key: Key) {
    && !Covered(s.tables.rows, s.tables.jobs, key)
    && (!s.worker.Idle? ==> HasJob(s) && Unfinished(JobOf(s)))
    && (InHand(s.worker) ==> s.worker.current.id == JobOf(s).work.row && key !in Keys(s.worker.current))
  }

  /** The step is no request about the key: it writes no row to it and changes no row that touches it. */
  ghost predicate Quiet(rows: seq<Row>, step: Step, key: Key) {
    match step
    case CreateRequest(id, job, v, active) => v.key != key
    case UpdateRequest(id, job, v, active) => v.key != key && !OwnTouches(rows, id, key)
    case DeleteRequest(id, job, active) => !OwnTouches(rows, id, key)
    case _ => true
  }

  ghost predicate QuietRun(s: State, zone: string, steps: seq<Step>, key: Key)
    decreases |steps|
  {
    steps != [] ==> Quiet(s.tables.rows, steps[0], key) && QuietRun(Next(s, zone, steps[0]), zone, steps[1..], key)
  }

  /** The table and the provider say about the key what they said. */
  ghost predicate SameAt(s: State, t: State, key: Key) {
    && Renderable(s.tables.rows) && Renderable(t.tables.rows)
    && SetOf(t.tables.rows, key, None) == SetOf(s.tables.rows, key, None)
    && ProviderSet(t.provider, key) == ProviderSet(s.provider, key)
  }

  /** The job in hand is about a row that does not touch the key. */
  lemma OwnApart(s: State, key: Key)
    requires Unattended(s, key) && !s.worker.Idle?
    ensures !OwnTouches(s.tables.rows, JobOf(s).work.row, key)
  {
    forall r | r in s.tables.rows && r.id == JobOf(s).work.row ensures !Touches(r, key) {
      assert JobOn(s.tables.jobs, r.id);
    }
  }

  lemma UncoveredStays(rows: seq<Row>, after: seq<Row>, a: RecordJobs, b: RecordJobs, key: Key)
    requires !Covered(rows, a, key)
    requires forall r :: r in after && Touches(r, key) ==> r in rows && (JobOn(b, r.id) ==> JobOn(a, r.id))
    ensures !Covered(after, b, key)
  {
  }

  // ---- Requests ----

  lemma QuietAppend(s: State, zone: string, r: Row, b: RecordJobs, key: Key)
    requires ZoneOk(s.tables.rows, zone) && ZoneOk(s.tables.rows + [r], zone) && Unattended(s, key) && !Touches(r, key)
    requires forall q :: q in s.tables.rows ==> q.id != r.id
    requires forall id :: id != r.id && JobOn(b, id) ==> JobOn(s.tables.jobs, id)
    requires forall k :: k in s.tables.jobs ==> k in b && b[k] == s.tables.jobs[k]
    ensures var t := s.(tables := Tables(s.tables.rows + [r], b)); Unattended(t, key) && SameAt(s, t, key)
  {
    var rows := s.tables.rows;
    NormalRenderable(rows, zone);
    NormalRenderable(rows + [r], zone);
    SetAfterAppend(rows, r, key, None);
    UncoveredStays(rows, rows + [r], s.tables.jobs, b, key);
  }

  lemma QuietCreate(s: State, zone: string, step: Step, key: Key)
    requires ZoneOk(s.tables.rows, zone) && Unattended(s, key) && step.CreateRequest? && Quiet(s.tables.rows, step, key)
    ensures Unattended(Next(s, zone, step), key) && SameAt(s, Next(s, zone, step), key)
  {
    var t := Next(s, zone, step);
    NextKeepsZone(s, zone, step);
    NormalRenderable(s.tables.rows, zone);
    if t.tables != s.tables {
      var r := RowFrom(step.id, step.value, None);
      assert t.tables == Tables(s.tables.rows + [r], QueueJob(s.tables.jobs, step.job, step.id, false));
      QuietAppend(s, zone, r, t.tables.jobs, key);
    }
  }

  lemma QuietReplace(s: State, zone: string, i: nat, r: Row, b: RecordJobs, key: Key)
    requires ZoneOk(s.tables.rows, zone) && Unattended(s, key) && i < |s.tables.rows|
    requires r.id == s.tables.rows[i].id && !Touches(s.tables.rows[i], key) && !Touches(r, key)
    requires ZoneOk(s.tables.rows[i := r], zone)
    requires forall id :: id != r.id && JobOn(b, id) ==> JobOn(s.tables.jobs, id)
    requires forall k :: k in s.tables.jobs ==> k in b && b[k] == s.tables.jobs[k]
    ensures var t := s.(tables := Tables(s.tables.rows[i := r], b)); Unattended(t, key) && SameAt(s, t, key)
  {
    var rows := s.tables.rows;
    NormalRenderable(rows, zone);
    NormalRenderable(rows[i := r], zone);
    SetAfterReplace(rows, i, r, key, None);
    ReplacedRows(rows, i, r);
    UncoveredStays(rows, rows[i := r], s.tables.jobs, b, key);
  }

  lemma UpdateStep(s: State, zone: string, id: nat, job: nat, v: Value, i: nat)
    requires Update(s.tables, id, job, v, zone, true).ok && FindRow(s.tables.rows, id) == Some(i)
    ensures Next(s, zone, UpdateRequest(id, job, v, true))
      == s.(tables := Tables(s.tables.rows[i := RowFrom(id, v, s.tables.rows[i].synced)], QueueJob(s.tables.jobs, job, id, false)))
    ensures i < |s.tables.rows| && s.tables.rows[i].id == id && job !in s.tables.jobs && !Locked(s.tables.rows[i])
  {
  }

  lemma QuietUpdate(s: State, zone: string, step: Step, key: Key)
    requires ZoneOk(s.tables.rows, zone) && Unattended(s, key) && Quiet(s.tables.rows, step, key) && step.UpdateRequest?
    ensures Unattended(Next(s, zone, step), key) && SameAt(s, Next(s, zone, step), key)
  {
    NextKeepsZone(s, zone, step);
    NormalRenderable(s.tables.rows, zone);
    if Update(s.tables, step.id, step.job, step.value, zone, step.active).ok {
      var i := FindRow(s.tables.rows, step.id).value;
      UpdateStep(s, zone, step.id, step.job, step.value, i);
      assert s.tables.rows[i] in s.tables.rows;
      QuietReplace(s, zone, i, RowFrom(step.id, step.value, s.tables.rows[i].synced),
                   QueueJob(s.tables.jobs, step.job, step.id, false), key);
    }
  }

  lemma QuietRemove(s: State, zone: string, step: Step, key: Key)
    requires ZoneOk(s.tables.rows, zone) && Unattended(s, key) && Quiet(s.tables.rows, step, key) && step.DeleteRequest?
    ensures Unattended(Next(s, zone, step), key) && SameAt(s, Next(s, zone, step), key)
  {
    NextKeepsZone(s, zone, step);
    NormalRenderable(s.tables.rows, zone);
    if Remove(s.tables, step.id, step.job, step.active).ok {
      var i := FindRow(s.tables.rows, step.id).value;
      assert s.tables.rows[i] in s.tables.rows;
      QuietReplace(s, zone, i, s.tables.rows[i].(status := Deleting), QueueJob(s.tables.jobs, step.job, step.id, true), key);
    }
  }

  // ---- The worker ----

  /** Steps that change no row. */
  lemma QuietJobs(s: State, zone: string, key: Key, b: RecordJobs, w: Worker)
    requires ZoneOk(s.tables.rows, zone) && Unattended(s, key)
    requires forall id :: JobOn(b, id) ==> JobOn(s.tables.jobs, id)
    requires !w.Idle? ==> w.job in b && Unfinished(b[w.job])
    requires InHand(w) ==> w.current.id == b[w.job].work.row && key !in Keys(w.current)
    ensures var t := State(s.tables.(jobs := b), w, s.provider); Unattended(t, key) && SameAt(s, t, key)
  {
    NormalRenderable(s.tables.rows, zone);
    UncoveredStays(s.tables.rows, s.tables.rows, s.tables.jobs, b, key);
  }

  /** A job rewritten for the same work opens no job on another row. */
  lemma RewrittenJob(a: RecordJobs, job: nat, j: RecordJob, id: nat)
    requires job in a && (Unfinished(j) ==> Unfinished(a[job]) && j.work == a[job].work)
    requires JobOn(a[job := j], id)
    ensures JobOn(a, id)
  {
    var k :| k in a[job := j] && a[job := j][k].work.row == id && Unfinished(a[job := j][k]);
    assert k in a && Unfinished(a[k]);
  }

  lemma QuietBookkeeping(s: State, zone: string, step: Step, key: Key)
    requires ZoneOk(s.tables.rows, zone) && Unattended(s, key)
    requires step.ClaimJob? || step.DropJob? || step.ReadFails? || step.SettleJob? || step.Crash?
    ensures Unattended(Next(s, zone, step), key) && SameAt(s, Next(s, zone, step), key)
  {
    var a, t := s.tables.jobs, Next(s, zone, step);
    assert t == State(s.tables.(jobs := t.tables.jobs), t.worker, s.provider);
    forall id | JobOn(t.tables.jobs, id) ensures JobOn(a, id) {
      if t.tables.jobs != a {
        match step
        case ClaimJob(job) => RewrittenJob(a, job, Claim(a[job]), id);
        case DropJob(_) => RewrittenJob(a, s.worker.job, Drop(JobOf(s)), id);
        case SettleJob(_) => RewrittenJob(a, s.worker.job, Settle(JobOf(s), s.worker.ok), id);
        case Crash =>
          var k :| k in RecoverAll(a) && RecoverAll(a)[k].work.row == id && Unfinished(RecoverAll(a)[k]);
          assert k in a && Unfinished(a[k]);
      }
    }
    QuietJobs(s, zone, key, t.tables.jobs, t.worker);
  }

  lemma QuietReads(s: State, zone: string, step: Step, key: Key)
    requires ZoneOk(s.tables.rows, zone) && Unattended(s, key) && (step.ReadRecord? || step.ListRows?)
    ensures Unattended(Next(s, zone, step), key) && SameAt(s, Next(s, zone, step), key)
  {
    var t := Next(s, zone, step);
    if step.ReadRecord? && t.worker.Read? && s.worker.Claimed? {
      OwnApart(s, key);
      KeysOf(t.worker.current);
      assert t.worker.current in s.tables.rows;
    }
    QuietJobs(s, zone, key, s.tables.jobs, t.worker);
    assert t == State(s.tables.(jobs := s.tables.jobs), t.worker, s.provider);
  }

  /** The worker rewrites its own row, which does not touch the key. */
  lemma QuietOwnRow(s: State, zone: string, i: nat, r: Row, w: Worker, key: Key)
    requires ZoneOk(s.tables.rows, zone) && Unattended(s, key) && !s.worker.Idle?
    requires FindRow(s.tables.rows, JobOf(s).work.row) == Some(i) && r.id == s.tables.rows[i].id && !Touches(r, key)
    requires ZoneOk(s.tables.rows[i := r], zone) && !w.Idle? && w.job == s.worker.job
    requires InHand(w) ==> InHand(s.worker) && w.current == s.worker.current
    ensures var t := State(s.tables.(rows := s.tables.rows[i := r]), w, s.provider); Unattended(t, key) && SameAt(s, t, key)
  {
    OwnApart(s, key);
    assert s.tables.rows[i] in s.tables.rows;
    QuietReplace(s, zone, i, r, s.tables.jobs, key);
  }

  lemma QuietMark(s: State, zone: string, step: Step, key: Key)
    requires ZoneOk(s.tables.rows, zone) && Unattended(s, key) && step.MarkPending?
    ensures Unattended(Next(s, zone, step), key) && SameAt(s, Next(s, zone, step), key)
  {
    var rows, t := s.tables.rows, Next(s, zone, step);
    NextKeepsZone(s, zone, step);
    NormalRenderable(rows, zone);
    if t.tables.rows != rows {
      OwnApart(s, key);
      var i := FindRow(rows, JobOf(s).work.row).value;
      assert rows[i] in rows;
      QuietOwnRow(s, zone, i, rows[i].(status := Pending), t.worker, key);
    }
  }

  lemma QuietDelete(s: State, zone: string, i: nat, w: Worker, key: Key)
    requires ZoneOk(s.tables.rows, zone) && Unattended(s, key) && i < |s.tables.rows| && !Touches(s.tables.rows[i], key)
    requires !w.Idle? && !InHand(w) && HasJob(s) && w.job == s.worker.job
    ensures var t := State(s.tables.(rows := s.tables.rows[..i] + s.tables.rows[i + 1..]), w, s.provider);
      Unattended(t, key) && SameAt(s, t, key)
  {
    var rows, after := s.tables.rows, s.tables.rows[..i] + s.tables.rows[i + 1..];
    DropKeepsZone(rows, i, zone);
    NormalRenderable(rows, zone);
    NormalRenderable(after, zone);
    SetAfterDelete(rows, i, key);
    SkipOtherKey(rows, i, key);
    DeletedRows(rows, i);
    UncoveredStays(rows, after, s.tables.jobs, s.tables.jobs, key);
  }

  lemma QuietRecord(s: State, zone: string, i: nat, key: Key)
    requires ZoneOk(s.tables.rows, zone) && Unattended(s, key) && s.worker.Patched?
    requires FindRow(s.tables.rows, JobOf(s).work.row) == Some(i)
    ensures var t := State(s.tables.(rows := OutcomeRows(s.tables.rows, JobOf(s), s.worker.ok)),
                           Done(s.worker.job, s.worker.ok, true), s.provider);
      Unattended(t, key) && SameAt(s, t, key)
  {
    var rows, w := s.tables.rows, Done(s.worker.job, s.worker.ok, true);
    OwnApart(s, key);
    OutcomeKeepsZone(rows, JobOf(s), s.worker.ok, zone);
    assert rows[i] in rows;
    if !s.worker.ok {
      QuietOwnRow(s, zone, i, rows[i].(status := Error), w, key);
    } else if JobOf(s).work.remove {
      QuietDelete(s, zone, i, w, key);
    } else {
      QuietOwnRow(s, zone, i, rows[i].(status := Active, synced := Some(rows[i].key)), w, key);
    }
  }

  lemma QuietOutcome(s: State, zone: string, step: Step, key: Key)
    requires ZoneOk(s.tables.rows, zone) && Unattended(s, key) && step.RecordOutcome?
    ensures Unattended(Next(s, zone, step), key) && SameAt(s, Next(s, zone, step), key)
  {
    NormalRenderable(s.tables.rows, zone);
    if s.worker.Patched? && step.written && FindRow(s.tables.rows, JobOf(s).work.row).Some? {
      QuietRecord(s, zone, FindRow(s.tables.rows, JobOf(s).work.row).value, key);
    } else {
      assert Next(s, zone, step).tables == s.tables && Next(s, zone, step).provider == s.provider;
    }
  }

  /** A patch for other keys leaves the key alone. */
  lemma QuietPatch(s: State, zone: string, step: Step, key: Key)
    requires ZoneOk(s.tables.rows, zone) && Unattended(s, key) && step.SendPatch?
    ensures Unattended(Next(s, zone, step), key) && SameAt(s, Next(s, zone, step), key)
  {
    NormalRenderable(s.tables.rows, zone);
    var t := Next(s, zone, step);
    if t.provider != s.provider {
      var sets := Sets(s);
      var keys := Keys(s.worker.current);
      assert forall j :: 0 <= j < |sets| ==> sets[j].key == keys[j] && keys[j] in keys;
      PatchLeaves(s.provider, sets, key);
    }
  }

  lemma QuietStep(s: State, zone: string, step: Step, key: Key)
    requires ZoneOk(s.tables.rows, zone) && Unattended(s, key) && Quiet(s.tables.rows, step, key)
    ensures Unattended(Next(s, zone, step), key) && SameAt(s, Next(s, zone, step), key)
  {
    match step
    case CreateRequest(_, _, _, _) => QuietCreate(s, zone, step, key);
    case UpdateRequest(_, _, _, _) => QuietUpdate(s, zone, step, key);
    case DeleteRequest(_, _, _) => QuietRemove(s, zone, step, key);
    case ReadRecord => QuietReads(s, zone, step, key);
    case ListRows(_) => QuietReads(s, zone, step, key);
    case MarkPending(_) => QuietMark(s, zone, step, key);
    case SendPatch(_, _) => QuietPatch(s, zone, step, key);
    case RecordOutcome(_) => QuietOutcome(s, zone, step, key);
    case _ => QuietBookkeeping(s, zone, step, key);
  }

  /** An unattended key keeps what the table and the provider say about it, through every run without a request for it. */
  lemma {:induction false} UnattendedStays(s: State, zone: string, steps: seq<Step>, key: Key)
    requires ZoneOk(s.tables.rows, zone) && Unattended(s, key) && QuietRun(s, zone, steps, key)
    ensures Unattended(Run(s, zone, steps), key) && SameAt(s, Run(s, zone, steps), key)
    decreases |steps|
  {
    if steps == [] {
      NormalRenderable(s.tables.rows, zone);
    } else {
      QuietStep(s, zone, steps[0], key);
      NextKeepsZone(s, zone, steps[0]);
      UnattendedStays(Next(s, zone, steps[0]), zone, steps[1..], key);
    }
  }

  // ---- What a step outside the guards leads to ----

  /** Every run that asks for the key no more, and so every such run that comes to rest, has the provider wrong about it. */
  ghost predicate WrongForGood(s: State, zone: string, key: Key) {
    forall steps :: QuietRun(s, zone, steps, key) ==>
      var t := Run(s, zone, steps); Renderable(t.tables.rows) && !Agrees(t.tables.rows, t.provider, key)
  }

  lemma WrongStays(s: State, zone: string, key: Key)
    requires ZoneOk(s.tables.rows, zone) && Renderable(s.tables.rows)
    requires Unattended(s, key) && !Agrees(s.tables.rows, s.provider, key)
    ensures WrongForGood(s, zone, key)
  {
    forall steps | QuietRun(s, zone, steps, key)
      ensures Renderable(Run(s, zone, steps).tables.rows)
      ensures !Agrees(Run(s, zone, steps).tables.rows, Run(s, zone, steps).provider, key)
    {
      UnattendedStays(s, zone, steps, key);
    }
  }

  lemma UpdateRenames(s: State, zone: string, id: nat, job: nat, v: Value, i: nat)
    requires Inv(s, zone) && Update(s.tables, id, job, v, zone, true).ok && FindRow(s.tables.rows, id) == Some(i)
    requires i < |s.tables.rows| && v.key != s.tables.rows[i].key
    ensures Renaming(s, zone, i, RowFrom(id, v, s.tables.rows[i].synced), QueueJob(s.tables.jobs, job, id, false), job)
  {
    var r := RowFrom(id, v, s.tables.rows[i].synced);
    ReplaceKeepsZone(s.tables.rows, i, r, zone);
    NormalRenderable(s.tables.rows[i := r], zone);
  }

  /** With no job past its claim, a key nothing open touches after a rename is unattended. */
  lemma RenamedUnattended(s: State, zone: string, rows: seq<Row>, b: RecordJobs, key: Key, p: Provider)
    requires Inv(s, zone) && (s.worker.Idle? || s.worker.Claimed?)
    requires (forall k :: k in s.tables.jobs ==> k in b && b[k] == s.tables.jobs[k]) && !Covered(rows, b, key)
    ensures Unattended(State(Tables(rows, b), s.worker, p), key)
  {
  }

  /** A provider that serves the old name exactly has it wrong for good after the rename. */
  lemma RenamedWrong(s: State, zone: string, i: nat, r: Row, b: RecordJobs, added: nat) returns (p: Provider)
    requires Renaming(s, zone, i, r, b, added) && (s.worker.Idle? || s.worker.Claimed?)
    requires !Covered(s.tables.rows[i := r], b, s.tables.rows[i].key)
    ensures Inv(s.(provider := p), zone)
    ensures WrongForGood(State(Tables(s.tables.rows[i := r], b), s.worker, p), zone, s.tables.rows[i].key)
  {
    var rows, key := s.tables.rows, s.tables.rows[i].key;
    UncoveredDiverges(s, zone, i, r, b, added);
    RenameChangesSet(rows, i, r, None, zone);
    p := PatchOne(s.provider, SetOf(rows, key, None));
    PatchedAt(s.provider, SetOf(rows, key, None), key);
    RenamedUnattended(s, zone, rows[i := r], b, key, p);
    WrongStays(State(Tables(rows[i := r], b), s.worker, p), zone, key);
  }

  /**
   * With no job past its claim: an update that is not safe leaves, for some provider the invariant allows, the old key
   * wrong for good.
   */
  lemma UnsafeUpdateStaysWrong(s: State, zone: string, id: nat, job: nat, v: Value) returns (p: Provider)
    requires Inv(s, zone) && Update(s.tables, id, job, v, zone, true).ok && (s.worker.Idle? || s.worker.Claimed?)
    requires !MayUpdate(s, zone, id, job, v, true)
    ensures Inv(s.(provider := p), zone)
    ensures var i := FindRow(s.tables.rows, id).value;
      WrongForGood(Next(s.(provider := p), zone, UpdateRequest(id, job, v, true)), zone, s.tables.rows[i].key)
  {
    var i := FindRow(s.tables.rows, id).value;
    var r, b := RowFrom(id, v, s.tables.rows[i].synced), QueueJob(s.tables.jobs, job, id, false);
    UpdateRenames(s, zone, id, job, v, i);
    p := RenamedWrong(s, zone, i, r, b, job);
    UpdateStep(s.(provider := p), zone, id, job, v, i);
  }

  /** With the job closed, a key nothing else open touches and the provider has wrong is wrong for good. */
  lemma ClosedWrong(rows: seq<Row>, jobs: RecordJobs, job: nat, j: RecordJob, p: Provider, zone: string, key: Key)
    requires ZoneOk(rows, zone) && Renderable(rows) && job in jobs && !Unfinished(j)
    requires !Covered(rows, jobs - {job}, key) && !Agrees(rows, p, key)
    ensures WrongForGood(State(Tables(rows, jobs[job := j]), Idle, p), zone, key)
  {
    WithoutIsClosed(jobs, job, j);
    forall id | JobOn(jobs[job := j], id) ensures JobOn(jobs - {job}, id) {
      SameOpenSame(jobs - {job}, jobs[job := j], id);
    }
    UncoveredStays(rows, rows, jobs - {job}, jobs[job := j], key);
    WrongStays(State(Tables(rows, jobs[job := j]), Idle, p), zone, key);
  }

  /** A job that may not be closed, closed as failed without its handler: some key of its row is wrong for good. */
  lemma UnsafeCloseStaysWrong(s: State, zone: string, step: Step) returns (p: Provider, key: Key)
    requires Inv(s, zone) && ClosesUnrecorded(s, step) && !KeysHeld(s.tables.rows, s.tables.jobs, s.worker.job)
    ensures Inv(s.(provider := p), zone) && OwnTouches(s.tables.rows, JobOf(s).work.row, key)
    ensures WrongForGood(Next(s.(provider := p), zone, step), zone, key)
  {
    var rows, jobs, job := s.tables.rows, s.tables.jobs, s.worker.job;
    key :| OwnTouches(rows, jobs[job].work.row, key) && !Covered(rows, jobs - {job}, key);
    UnheldCloseDiverges(rows, jobs, job, zone, key);
    AstrayDisagrees(rows, zone, key, key);
    p := Astray(rows, key);
    var j := ClosedTables(s.(provider := p), zone, step);
    ClosedWrong(rows, jobs, job, j, p, zone, key);
  }

  // ---- A rename while the row's own sync holds its listing ----

  function FinishSync(): seq<Step> {
    [MarkPending(true)] + ([SendPatch(true, true)] + ([RecordOutcome(true)] + [SettleJob(true)]))
  }

  predicate Finishing(s: State, zone: string, i: nat) {
    && s.worker.Listed? && HasJob(s) && !JobOf(s).work.remove && Renderable(s.worker.listing)
    && FindRow(s.tables.rows, JobOf(s).work.row) == Some(i) && s.tables.rows[i].status == Pending
    && SetsAccepted(RecordSets(s.worker.listing, s.worker.current, None), zone)
  }

  lemma MarkAgain(s: State, zone: string, i: nat)
    requires Finishing(s, zone, i)
    ensures Next(s, zone, MarkPending(true)) == s.(worker := Marked(s.worker.job, s.worker.current, s.worker.listing))
  {
    assert s.tables.rows[i := s.tables.rows[i].(status := Pending)] == s.tables.rows;
  }

  lemma MarkAndSend(s: State, zone: string, i: nat)
    requires Finishing(s, zone, i)
    ensures Next(Next(s, zone, MarkPending(true)), zone, SendPatch(true, true))
      == State(s.tables, Patched(s.worker.job, s.worker.current, true),
               PatchAll(s.provider, RecordSets(s.worker.listing, s.worker.current, None)))
  {
    MarkAgain(s, zone, i);
    var s1 := Next(s, zone, MarkPending(true));
    assert JobOf(s1) == JobOf(s) && Sets(s1) == RecordSets(s.worker.listing, s.worker.current, None);
  }

  lemma RecordAndSettle(s: State, zone: string, i: nat)
    requires s.worker.Patched? && s.worker.ok && HasJob(s) && !JobOf(s).work.remove
    requires FindRow(s.tables.rows, JobOf(s).work.row) == Some(i)
    ensures Next(Next(s, zone, RecordOutcome(true)), zone, SettleJob(true))
      == State(Tables(Synced(s.tables.rows, i), s.tables.jobs[s.worker.job := Settle(JobOf(s), true)]), Idle, s.provider)
  {
  }

  function Synced(rows: seq<Row>, i: nat): seq<Row>
    requires i < |rows|
  {
    rows[i := rows[i].(status := Active, synced := Some(rows[i].key))]
  }

  /** The rest of the sync once its row, by now renamed, is pending: it sends what it listed and records the new key. */
  lemma RunFinishSync(s: State, zone: string, i: nat)
    requires Finishing(s, zone, i)
    ensures Run(s, zone, FinishSync())
      == State(Tables(Synced(s.tables.rows, i), s.tables.jobs[s.worker.job := Settle(JobOf(s), true)]), Idle,
               PatchAll(s.provider, RecordSets(s.worker.listing, s.worker.current, None)))
  {
    MarkAndSend(s, zone, i);
    var s1 := Next(s, zone, MarkPending(true));
    var s2 := Next(s1, zone, SendPatch(true, true));
    RecordAndSettle(s2, zone, i);
    RunCons(s, zone, MarkPending(true), [SendPatch(true, true)] + ([RecordOutcome(true)] + [SettleJob(true)]));
    RunCons(s1, zone, SendPatch(true, true), [RecordOutcome(true)] + [SettleJob(true)]);
    RunCons(s2, zone, RecordOutcome(true), [SettleJob(true)]);
    RunOne(Next(s2, zone, RecordOutcome(true)), zone, SettleJob(true));
  }

  /** Nothing beside the finished sync accounts for the old key any more. */
  lemma UncoveredFinished(rows: seq<Row>, i: nat, b: RecordJobs, own: nat, key: Key)
    requires i < |rows| && IdsDistinct(rows) && own in b && b[own].work == Work(rows[i].id, false) && rows[i].key != key
    requires !Beside(rows, b, key, own)
    ensures !Covered(Synced(rows, i), b[own := Settle(b[own], true)], key)
  {
    var done := rows[i].(status := Active, synced := Some(rows[i].key));
    var after, c := Synced(rows, i), b[own := Settle(b[own], true)];
    ReplacedRows(rows, i, done);
    forall q | q in after && Touches(q, key) ensures !Unsettled(q, c) {
      assert q in rows && q.id != rows[i].id;
      WithoutIsClosed(b, own, Settle(b[own], true));
      SameOpenSame(b - {own}, c, q.id);
      assert !Accounts(q, b, key, own);
    }
  }

  /** From the rename on: the listing's set stays at the provider, and nothing attends to the old name. */
  lemma FinishedWrong(s: State, zone: string, i: nat, key: Key)
    requires ZoneOk(s.tables.rows, zone) && Renderable(s.tables.rows) && Finishing(s, zone, i) && s.tables.rows[i].key != key
    requires Sendable(s) && key in Keys(s.worker.current)
    requires !Fits(s.tables.rows, s.tables.jobs, s.worker.job, key, SetOf(s.worker.listing, key, None))
    ensures WrongForGood(Run(s, zone, FinishSync()), zone, key)
  {
    RunFinishSync(s, zone, i);
    UncoveredFinished(s.tables.rows, i, s.tables.jobs, s.worker.job, key);
    FinishedSets(s.tables.rows, i, zone, key);
    PatchEffect(s.provider, s.worker.listing, s.worker.current, None, key);
    WrongStays(Run(s, zone, FinishSync()), zone, key);
  }

  /** The listing in hand gives no set a TTL without records. */
  ghost predicate Sendable(s: State)
    requires s.worker.Listed?
  {
    && Renderable(s.worker.listing)
    && forall k :: k in Keys(s.worker.current) && SetOf(s.worker.listing, k, None).records == [] ==>
         SetOf(s.worker.listing, k, None).ttl == 0
  }

  /** What is known of the state when the guard refuses such a rename. */
  lemma InFlightUnheld(s: State, zone: string, i: nat, r: Row, b: RecordJobs, added: nat)
    requires Renaming(s, zone, i, r, b, added) && !MayReplace(s.tables.rows, i, r, b, s.worker)
    requires s.worker.Listed? && s.worker.current.id == r.id && !JobOf(s).work.remove
    requires s.tables.rows[i].synced == Some(s.tables.rows[i].key) && r.status == Pending
    ensures s.worker.current.key == s.tables.rows[i].key && s.tables.rows[i].key in Keys(s.worker.current) && Sendable(s)
    ensures JobOf(s).work.row == r.id && s.worker.job in b && b[s.worker.job] == JobOf(s)
    ensures !Fits(s.tables.rows[i := r], b, s.worker.job, s.tables.rows[i].key, SetOf(s.worker.listing, s.tables.rows[i].key, None))
  {
    var rows, w, key := s.tables.rows, s.worker, s.tables.rows[i].key;
    var n := OwnRow(rows, w.current, false);
    assert n == i && w.current.key == key && key in Keys(w.current);
    assert rows[i := r][i] in rows[i := r] && Touches(r, key) && Unsettled(r, b);
  }

  /**
   * A row renamed away from its synced name while its own sync holds its listing, with nothing else open for the name:
   * when that sync then succeeds, whatever the provider held, the old name is wrong for good.
   */
  lemma InFlightStaysWrong(s: State, zone: string, id: nat, job: nat, v: Value)
    requires Inv(s, zone) && Update(s.tables, id, job, v, zone, true).ok && !MayUpdate(s, zone, id, job, v, true)
    requires s.worker.Listed? && s.worker.current.id == id && !JobOf(s).work.remove
    requires var row := s.tables.rows[FindRow(s.tables.rows, id).value]; row.synced == Some(row.key)
    requires SetsAccepted(RecordSets(s.worker.listing, s.worker.current, None), zone)
    ensures var row := s.tables.rows[FindRow(s.tables.rows, id).value];
      WrongForGood(Run(Next(s, zone, UpdateRequest(id, job, v, true)), zone, FinishSync()), zone, row.key)
  {
    var rows, i := s.tables.rows, FindRow(s.tables.rows, id).value;
    var r, b := RowFrom(id, v, rows[i].synced), QueueJob(s.tables.jobs, job, id, false);
    UpdateRenames(s, zone, id, job, v, i);
    UpdateStep(s, zone, id, job, v, i);
    InFlightUnheld(s, zone, i, r, b, job);
    FoundAgain(rows, i, r);
    FinishedWrong(Next(s, zone, UpdateRequest(id, job, v, true)), zone, i, rows[i].key);
  }

  lemma FoundAgain(rows: seq<Row>, i: nat, r: Row)
    requires IdsDistinct(rows) && i < |rows| && r.id == rows[i].id && FindRow(rows, r.id) == Some(i)
    ensures FindRow(rows[i := r], r.id) == Some(i)
  {
    var after := rows[i := r];
    assert after[i] in after;
    var k := FindRow(after, r.id).value;
    assert k == i;
  }

  lemma FinishedSets(rows: seq<Row>, i: nat, zone: string, key: Key)
    requires ZoneOk(rows, zone) && i < |rows| && rows[i].key != key
    ensures var after := Synced(rows, i);
      ZoneOk(after, zone) && Renderable(rows) && Renderable(after) && SetOf(after, key, None) == SetOf(rows, key, None)
  {
    var done := rows[i].(status := Active, synced := Some(rows[i].key));
    ReplaceKeepsZone(rows, i, done, zone);
    NormalRenderable(rows, zone);
    NormalRenderable(rows[i := done], zone);
    SetAfterReplace(rows, i, done, key, None);
  }
}
