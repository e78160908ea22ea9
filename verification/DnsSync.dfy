/**
 * DNS records over whole runs: requests, the job worker, provider patches and crashes interleave,
 * and every store write, provider call and job update may fail.
 */
module DnsSync {
  import opened Jobs
  import opened Options
  import opened DnsZone

  /** A record job names its row and says whether the row is to be deleted. */
  datatype Work = Work(row: nat, remove: bool)

  type RecordJob = Job<Work>

  type RecordJobs = map<nat, RecordJob>

  datatype Tables = Tables(rows: seq<Row>, jobs: RecordJobs)

  datatype Result = Result(tables: Tables, ok: bool)

  /** A delete job leaves its own row out of the sets it sends. */
  function Skip(j: RecordJob): Option<nat> {
    if j.work.remove then Some(j.work.row) else None
  }

  function FindRow(rows: seq<Row>, id: nat): (i: Option<nat>)
    ensures i.Some? ==> i.value < |rows| && rows[i.value].id == id
    ensures i.None? ==> forall r :: r in rows ==> r.id != id
  {
    if rows == [] then None
    else if rows[0].id == id then Some(0)
    else
      match FindRow(rows[1..], id)
      case None => None
      case Some(i) => Some(i + 1)
  }

  // ---- The transactions ----

  function QueueJob(jobs: RecordJobs, job: nat, row: nat, remove: bool): RecordJobs {
    jobs[job := NewJob(Work(row, remove))]
  }

  function RowFrom(id: nat, v: Value, synced: Option<Key>): Row {
    Row(id, v.key, v.content, v.ttl, v.priority, synced, Pending)
  }

  ghost function Create(t: Tables, id: nat, job: nat, v: Value, zone: string, active: bool): Result {
    if !active || !Normal(v, zone) || !Available(t.rows, v, None) || FindRow(t.rows, id).Some? || job in t.jobs
    then Result(t, false)
    else Result(Tables(t.rows + [RowFrom(id, v, None)], QueueJob(t.jobs, job, id, false)), true)
  }

  predicate Locked(r: Row) {
    r.status == Pending || r.status == Deleting
  }

  ghost function Update(t: Tables, id: nat, job: nat, v: Value, zone: string, active: bool): Result {
    match FindRow(t.rows, id)
    case None => Result(t, false)
    case Some(i) =>
      if Locked(t.rows[i]) || !active || !Normal(v, zone) || !Available(t.rows, v, Some(id)) || job in t.jobs
      then Result(t, false)
      else Result(Tables(t.rows[i := RowFrom(id, v, t.rows[i].synced)], QueueJob(t.jobs, job, id, false)), true)
  }

  function Remove(t: Tables, id: nat, job: nat, active: bool): Result {
    match FindRow(t.rows, id)
    case None => Result(t, false)
    case Some(i) =>
      if Locked(t.rows[i]) || !active || job in t.jobs then Result(t, false)
      else Result(Tables(t.rows[i := t.rows[i].(status := Deleting)], QueueJob(t.jobs, job, id, true)), true)
  }

  function SetStatus(rows: seq<Row>, id: nat, status: Status): seq<Row> {
    match FindRow(rows, id)
    case None => rows
    case Some(i) => rows[i := rows[i].(status := status)]
  }

  function CompleteSync(rows: seq<Row>, id: nat): seq<Row> {
    match FindRow(rows, id)
    case None => rows
    case Some(i) => rows[i := rows[i].(status := Active, synced := Some(rows[i].key))]
  }

  function DeleteRow(rows: seq<Row>, id: nat): seq<Row> {
    match FindRow(rows, id)
    case None => rows
    case Some(i) => rows[..i] + rows[i + 1..]
  }

  // ---- The provider ----

  type Provider = map<Key, RecordSet>

  function ProviderSet(p: Provider, key: Key): RecordSet {
    if key in p then p[key] else RecordSet(key, 0, [])
  }

  /** An empty set is a DELETE, any other a REPLACE. */
  function PatchOne(p: Provider, s: RecordSet): Provider {
    if s.records == [] then p - {s.key} else p[s.key := s]
  }

  function PatchAll(p: Provider, sets: seq<RecordSet>): Provider
    decreases |sets|
  {
    if sets == [] then p else PatchAll(PatchOne(p, sets[0]), sets[1..])
  }

  ghost predicate EmptyHasNoTtl(sets: seq<RecordSet>) {
    forall i :: 0 <= i < |sets| && sets[i].records == [] ==> sets[i].ttl == 0
  }

  ghost predicate DistinctKeys(sets: seq<RecordSet>) {
    forall i, j :: 0 <= i < j < |sets| ==> sets[i].key != sets[j].key
  }

  lemma {:induction false} PatchLeaves(p: Provider, sets: seq<RecordSet>, key: Key)
    requires forall i :: 0 <= i < |sets| ==> sets[i].key != key
    ensures ProviderSet(PatchAll(p, sets), key) == ProviderSet(p, key)
    decreases |sets|
  {
    if sets == [] {
    } else {
      PatchLeaves(PatchOne(p, sets[0]), sets[1..], key);
    }
  }

  /** After a patch the provider holds exactly the sets sent, whether replaced or deleted. */
  lemma {:induction false} PatchInstalls(p: Provider, sets: seq<RecordSet>, i: nat)
    requires i < |sets| && EmptyHasNoTtl(sets) && DistinctKeys(sets)
    ensures ProviderSet(PatchAll(p, sets), sets[i].key) == sets[i]
    decreases |sets|
  {
    if i == 0 {
      PatchLeaves(PatchOne(p, sets[0]), sets[1..], sets[0].key);
    } else {
      PatchInstalls(PatchOne(p, sets[0]), sets[1..], i - 1);
    }
  }

  // ---- The machine ----

  /** Where the single worker stands inside one record job. */
  datatype Worker =
    | Idle
    | Claimed(job: nat)
    | Read(job: nat, current: Row)
    | Listed(job: nat, current: Row, listing: seq<Row>)
    | Marked(job: nat, current: Row, listing: seq<Row>)
    | Patched(job: nat, current: Row, ok: bool)
    | Done(job: nat, ok: bool, recorded: bool)

  datatype State = State(tables: Tables, worker: Worker, provider: Provider)

  datatype Step =
    | CreateRequest(id: nat, job: nat, value: Value, active: bool)
    | UpdateRequest(id: nat, job: nat, value: Value, active: bool)
    | DeleteRequest(id: nat, job: nat, active: bool)
    | ClaimJob(job: nat)
    | DropJob(written: bool)
    | ReadRecord
    | ListRows(listing: seq<Row>)
    | ReadFails
    | MarkPending(written: bool)
    | SendPatch(reached: bool, answered: bool)
    | RecordOutcome(written: bool)
    | SettleJob(written: bool)
    | Crash

  predicate HasJob(s: State) {
    !s.worker.Idle? && s.worker.job in s.tables.jobs
  }

  function JobOf(s: State): RecordJob
    requires HasJob(s)
  {
    s.tables.jobs[s.worker.job]
  }

  function SetJob(t: Tables, key: nat, j: RecordJob): Tables {
    t.(jobs := t.jobs[key := j])
  }

  function Sets(s: State): seq<RecordSet>
    requires s.worker.Marked? && HasJob(s) && Renderable(s.worker.listing)
  {
    RecordSets(s.worker.listing, s.worker.current, Skip(JobOf(s)))
  }

  /** What the handler writes after the provider answered: delete the row, complete it, or note the error. */
  function OutcomeRows(rows: seq<Row>, j: RecordJob, ok: bool): seq<Row> {
    if !ok then SetStatus(rows, j.work.row, Error)
    else if j.work.remove then DeleteRow(rows, j.work.row)
    else CompleteSync(rows, j.work.row)
  }

  /** One step; a step that is not enabled changes nothing. */
  ghost function Next(s: State, zone: string, step: Step): State {
    match step
    case CreateRequest(id, job, v, active) => s.(tables := Create(s.tables, id, job, v, zone, active).tables)
    case UpdateRequest(id, job, v, active) => s.(tables := Update(s.tables, id, job, v, zone, active).tables)
    case DeleteRequest(id, job, active) => s.(tables := Remove(s.tables, id, job, active).tables)
    case ClaimJob(job) =>
      if s.worker.Idle? && job in s.tables.jobs && Claimable(s.tables.jobs[job])
      then s.(tables := SetJob(s.tables, job, Claim(s.tables.jobs[job])), worker := Claimed(job))
      else s
    case DropJob(written) =>
      if s.worker.Claimed? && HasJob(s) then
        s.(worker := Idle,
           tables := if written then SetJob(s.tables, s.worker.job, Drop(JobOf(s))) else s.tables)
      else s
    case ReadRecord =>
      if s.worker.Claimed? && HasJob(s) && FindRow(s.tables.rows, JobOf(s).work.row).Some?
      then s.(worker := Read(s.worker.job, s.tables.rows[FindRow(s.tables.rows, JobOf(s).work.row).value]))
      else s
    case ListRows(listing) =>
      if s.worker.Read? && multiset(listing) == multiset(s.tables.rows)
      then s.(worker := Listed(s.worker.job, s.worker.current, listing))
      else s
    case ReadFails =>
      if s.worker.Claimed? || s.worker.Read? then s.(worker := Done(s.worker.job, false, false)) else s
    case MarkPending(written) =>
      if s.worker.Listed? && HasJob(s) then
        if JobOf(s).work.remove then s.(worker := Marked(s.worker.job, s.worker.current, s.worker.listing))
        else if written then
          s.(tables := s.tables.(rows := SetStatus(s.tables.rows, JobOf(s).work.row, Pending)),
             worker := Marked(s.worker.job, s.worker.current, s.worker.listing))
        else s.(worker := Done(s.worker.job, false, false))
      else s
    case SendPatch(reached, answered) =>
      if s.worker.Marked? && HasJob(s) && Renderable(s.worker.listing) then
        if reached && SetsAccepted(Sets(s), zone)
        then s.(provider := PatchAll(s.provider, Sets(s)), worker := Patched(s.worker.job, s.worker.current, answered))
        else s.(worker := Patched(s.worker.job, s.worker.current, false))
      else s
    case RecordOutcome(written) =>
      if s.worker.Patched? && HasJob(s) then
        if written then
          s.(tables := s.tables.(rows := OutcomeRows(s.tables.rows, JobOf(s), s.worker.ok)),
             worker := Done(s.worker.job, s.worker.ok, true))
        else s.(worker := Done(s.worker.job, false, false))
      else s
    case SettleJob(written) =>
      if s.worker.Done? && HasJob(s) then
        s.(worker := Idle,
           tables := if written then SetJob(s.tables, s.worker.job, Settle(JobOf(s), s.worker.ok)) else s.tables)
      else s
    case Crash =>
      s.(worker := Idle, tables := s.tables.(jobs := RecoverAll(s.tables.jobs)))
  }

  ghost function Run(s: State, zone: string, steps: seq<Step>): State
    decreases |steps|
  {
    if steps == [] then s else Run(Next(s, zone, steps[0]), zone, steps[1..])
  }

  lemma {:induction false} RunAppend(s: State, zone: string, a: seq<Step>, b: seq<Step>)
    ensures Run(s, zone, a + b) == Run(Run(s, zone, a), zone, b)
    decreases |a|
  {
    if a == [] {
      assert a + b == b;
    } else {
      assert (a + b)[1..] == a[1..] + b;
      RunAppend(Next(s, zone, a[0]), zone, a[1..], b);
    }
  }

  lemma RunOne(s: State, zone: string, a: Step)
    ensures Run(s, zone, [a]) == Next(s, zone, a)
  {
    assert [a][1..] == [];
    assert Run(Next(s, zone, a), zone, []) == Next(s, zone, a);
  }

  lemma RunCons(s: State, zone: string, a: Step, rest: seq<Step>)
    ensures Run(s, zone, [a] + rest) == Run(Next(s, zone, a), zone, rest)
  {
    RunOne(s, zone, a);
    RunAppend(s, zone, [a], rest);
  }

  ghost predicate Initial(s: State) {
    s.tables == Tables([], map[]) && s.worker == Idle && s.provider == map[]
  }

  // ---- The zone rules hold over every run ----

  ghost predicate IdsDistinct(rows: seq<Row>) {
    forall i, j :: 0 <= i < j < |rows| ==> rows[i].id != rows[j].id
  }

  ghost predicate ZoneOk(rows: seq<Row>, zone: string) {
    IdsDistinct(rows) && ZoneRules(rows) && AllNormal(rows, zone)
  }

  lemma AppendKeepsZone(rows: seq<Row>, r: Row, zone: string)
    requires ZoneOk(rows, zone) && Normal(ValueOf(r), zone) && Available(rows, ValueOf(r), None)
    requires forall q :: q in rows ==> q.id != r.id
    ensures ZoneOk(rows + [r], zone)
  {
  }

  /** Replacing a row by one with the same id and an available value, or with the same value. */
  lemma ReplaceKeepsZone(rows: seq<Row>, i: nat, r: Row, zone: string)
    requires ZoneOk(rows, zone) && i < |rows| && r.id == rows[i].id
    requires ValueOf(r) == ValueOf(rows[i]) || (Normal(ValueOf(r), zone) && Available(rows, ValueOf(r), Some(r.id)))
    ensures ZoneOk(rows[i := r], zone)
  {
    var after := rows[i := r];
    forall j | 0 <= j < |rows| && j != i && rows[j].key.name == r.key.name
      ensures Compatible(ValueOf(rows[j]), ValueOf(r)) && Compatible(ValueOf(r), ValueOf(rows[j]))
    {
      assert rows[j].id != r.id;
    }
    forall k, l | 0 <= k < l < |after| && after[k].key.name == after[l].key.name
      ensures Compatible(ValueOf(after[k]), ValueOf(after[l]))
    {
    }
  }

  /** The row a shortened table holds at a place. */
  lemma DroppedAt(rows: seq<Row>, i: nat, k: nat)
    requires i < |rows| && k < |rows| - 1
    ensures (rows[..i] + rows[i + 1..])[k] == rows[if k < i then k else k + 1]
  {
  }

  lemma DropKeepsZone(rows: seq<Row>, i: nat, zone: string)
    requires ZoneOk(rows, zone) && i < |rows|
    ensures ZoneOk(rows[..i] + rows[i + 1..], zone)
  {
    var after := rows[..i] + rows[i + 1..];
    forall k | 0 <= k < |after| ensures Normal(ValueOf(after[k]), zone) {
      DroppedAt(rows, i, k);
    }
    forall k, l | 0 <= k < l < |after|
      ensures after[k].id != after[l].id
      ensures after[k].key.name == after[l].key.name ==> Compatible(ValueOf(after[k]), ValueOf(after[l]))
    {
      DroppedAt(rows, i, k);
      DroppedAt(rows, i, l);
    }
  }

  lemma OutcomeKeepsZone(rows: seq<Row>, j: RecordJob, ok: bool, zone: string)
    requires ZoneOk(rows, zone)
    ensures ZoneOk(OutcomeRows(rows, j, ok), zone)
  {
    var found := FindRow(rows, j.work.row);
    if found.Some? {
      var i := found.value;
      ReplaceKeepsZone(rows, i, rows[i].(status := Error), zone);
      ReplaceKeepsZone(rows, i, rows[i].(status := Active, synced := Some(rows[i].key)), zone);
      DropKeepsZone(rows, i, zone);
    }
  }

  lemma NextKeepsZone(s: State, zone: string, step: Step)
    requires ZoneOk(s.tables.rows, zone)
    ensures ZoneOk(Next(s, zone, step).tables.rows, zone)
  {
    var rows := s.tables.rows;
    match step
    case CreateRequest(id, job, v, active) =>
      if Create(s.tables, id, job, v, zone, active).ok {
        AppendKeepsZone(rows, RowFrom(id, v, None), zone);
      }
    case UpdateRequest(id, job, v, active) =>
      if Update(s.tables, id, job, v, zone, active).ok {
        var i := FindRow(rows, id).value;
        ReplaceKeepsZone(rows, i, RowFrom(id, v, rows[i].synced), zone);
      }
    case DeleteRequest(id, job, active) =>
      if Remove(s.tables, id, job, active).ok {
        var i := FindRow(rows, id).value;
        ReplaceKeepsZone(rows, i, rows[i].(status := Deleting), zone);
      }
    case MarkPending(written) =>
      if HasJob(s) && FindRow(rows, JobOf(s).work.row).Some? {
        var i := FindRow(rows, JobOf(s).work.row).value;
        ReplaceKeepsZone(rows, i, rows[i].(status := Pending), zone);
      }
    case RecordOutcome(written) =>
      if s.worker.Patched? && HasJob(s) {
        OutcomeKeepsZone(rows, JobOf(s), s.worker.ok, zone);
      }
    case _ =>
  }

  /** Over every run the table satisfies the RRset rules, and holds only normal values under distinct ids. */
  lemma {:induction false} RunKeepsZone(s: State, zone: string, steps: seq<Step>)
    requires ZoneOk(s.tables.rows, zone)
    ensures ZoneOk(Run(s, zone, steps).tables.rows, zone)
    decreases |steps|
  {
    if steps == [] {
    } else {
      NextKeepsZone(s, zone, steps[0]);
      RunKeepsZone(Next(s, zone, steps[0]), zone, steps[1..]);
    }
  }
}
