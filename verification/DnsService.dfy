/** The record transactions, the merge loop, the agent's checks and the job handler as they run, against the run model. */
module DnsService {
  import opened Jobs
  import opened Options
  import opened DnsNames
  import opened DnsZone
  import opened DnsSync
  import Order

  lemma MergeOne(records: seq<Row>, i: nat, key: Key, skip: Option<nat>)
    requires Renderable(records) && i < |records|
    ensures Renderable(records[..i]) && Renderable(records[..i + 1])
    ensures LastTtl(records[..i + 1], key, skip)
         == if Live(records[i], key, skip) then records[i].ttl else LastTtl(records[..i], key, skip)
    ensures Rendered(records[..i + 1], key, skip)
         == Rendered(records[..i], key, skip) + if Live(records[i], key, skip) then [Render(ValueOf(records[i]))] else []
  {
    var record := records[i];
    assert records[..i + 1][..i] == records[..i];
    assert records[..i + 1] == records[..i] + [record];
    assert [record][1..] == [];
    RenderedConcat(records[..i], [record], key, skip);
  }

  /** The inner pass of recordSets over the rows. */
  method MergeKey(records: seq<Row>, key: Key, skip: Option<nat>) returns (merged: RecordSet)
    requires Renderable(records)
    ensures merged == SetOf(records, key, skip)
  {
    var ttl, texts := 0, [];
    for i := 0 to |records|
      invariant ttl == LastTtl(records[..i], key, skip)
      invariant Renderable(records[..i]) && texts == Rendered(records[..i], key, skip)
    {
      var record := records[i];
      MergeOne(records, i, key, skip);
      if record.key == key && record.status != Deleting && skip != Some(record.id) {
        ttl := record.ttl;
        texts := texts + [Render(ValueOf(record))];
      }
    }
    assert records[..|records|] == records;
    return RecordSet(key, ttl, Order.Sort(texts));
  }

  /** recordSets: one pass over the rows for each key. */
  method MergeRecordSets(records: seq<Row>, current: Row, skip: Option<nat>) returns (sets: seq<RecordSet>)
    requires Renderable(records)
    ensures sets == RecordSets(records, current, skip)
  {
    var keys := [];
    if current.synced.Some? && current.synced.value != current.key {
      keys := keys + [current.synced.value];
    }
    keys := keys + [current.key];
    assert keys == Keys(current);
    sets := [];
    for k := 0 to |keys|
      invariant |sets| == k
      invariant forall i :: 0 <= i < k ==> sets[i] == SetOf(records, keys[i], skip)
    {
      var merged := MergeKey(records, keys[k], skip);
      sets := sets + [merged];
    }
  }

  ghost predicate AcceptedUpTo(values: seq<RecordSet>, n: nat, zone: string) {
    forall i :: 0 <= i < n <= |values| ==> SetAccepted(values[i], zone)
  }

  ghost predicate SeenUpTo(values: seq<RecordSet>, n: nat, seen: set<Key>)
    requires n <= |values|
  {
    && (forall i, j :: 0 <= i < j < n ==> values[i].key != values[j].key)
    && (forall k :: k in seen <==> exists i :: 0 <= i < n && values[i].key == k)
  }

  lemma SeenOne(values: seq<RecordSet>, n: nat, seen: set<Key>)
    requires n < |values| && SeenUpTo(values, n, seen)
    ensures if values[n].key in seen then !(forall i, j :: 0 <= i < j < |values| ==> values[i].key != values[j].key)
            else SeenUpTo(values, n + 1, seen + {values[n].key})
  {
  }

  /** ValidateRecordSets; `identity` is the outcome of the zone check it starts with. */
  method ValidateRecordSets(identity: bool, zone: string, values: seq<RecordSet>) returns (ok: bool)
    ensures ok <==> identity && SetsAccepted(values, zone)
  {
    if !identity || |values| < 1 || |values| > 2 {
      return false;
    }
    var seen: set<Key> := {};
    for n := 0 to |values|
      invariant AcceptedUpTo(values, n, zone) && SeenUpTo(values, n, seen)
    {
      var value := values[n];
      SeenOne(values, n, seen);
      if value.key in seen {
        return false;
      }
      seen := seen + {value.key};
      var accepted := CheckSet(value, zone);
      if !accepted {
        return false;
      }
    }
    return true;
  }

  method CheckSet(value: RecordSet, zone: string) returns (ok: bool)
    ensures ok <==> SetAccepted(value, zone)
  {
    if !AgentName(value.key.name, zone) {
      return false;
    }
    if value.records == [] {
      return value.ttl == 0;
    }
    if value.ttl < MIN_TTL || value.ttl > MAX_TTL || |value.records| > 100 {
      return false;
    }
    ok := CheckRecords(value.records);
  }

  method CheckRecords(records: seq<string>) returns (ok: bool)
    ensures ok <==> forall i :: 0 <= i < |records| ==> RecordAccepted(records[i])
  {
    for i := 0 to |records|
      invariant forall k :: 0 <= k < i ==> RecordAccepted(records[k])
    {
      if !RecordAccepted(records[i]) {
        return false;
      }
    }
    return true;
  }

  class Store {
    var rows: seq<Row>
    var jobs: RecordJobs

    constructor ()
      ensures View() == Tables([], map[])
    {
      rows, jobs := [], map[];
    }

    function View(): Tables
      reads this
    {
      Tables(rows, jobs)
    }

    /** The scan that stands before every insert and update of a record. */
    method EnsureAvailable(v: Value, exclude: Option<nat>) returns (ok: bool)
      ensures ok <==> Available(rows, v, exclude)
    {
      for i := 0 to |rows|
        invariant forall k :: 0 <= k < i && rows[k].key.name == v.key.name && exclude != Some(rows[k].id) ==>
          Compatible(ValueOf(rows[k]), v)
      {
        var row := rows[i];
        if row.key.name == v.key.name && exclude != Some(row.id) {
          if row.key.kind == v.key.kind && row.content == v.content && row.priority == v.priority {
            return false;
          }
          if row.key.kind == CNAME || v.key.kind == CNAME {
            return false;
          }
          if row.key.kind == v.key.kind && row.ttl != v.ttl {
            return false;
          }
        }
      }
      return true;
    }

    method CreateRecord(id: nat, job: nat, v: Value, zone: string, active: bool) returns (ok: bool)
      modifies this
      ensures Result(View(), ok) == Create(old(View()), id, job, v, zone, active)
    {
      if !active || !Normal(v, zone) {
        return false;
      }
      var available := EnsureAvailable(v, None);
      if !available || FindRow(rows, id).Some? || job in jobs {
        return false;
      }
      rows := rows + [Row(id, v.key, v.content, v.ttl, v.priority, None, Pending)];
      jobs := jobs[job := NewJob(Work(id, false))];
      return true;
    }

    method QueueUpdate(id: nat, job: nat, v: Value, zone: string, active: bool) returns (ok: bool)
      modifies this
      ensures Result(View(), ok) == Update(old(View()), id, job, v, zone, active)
    {
      var found := FindRow(rows, id);
      if found.None? || Locked(rows[found.value]) || !active || !Normal(v, zone) {
        return false;
      }
      var available := EnsureAvailable(v, Some(id));
      if !available || job in jobs {
        return false;
      }
      var row := rows[found.value];
      rows := rows[found.value :=
        row.(key := v.key, content := v.content, ttl := v.ttl, priority := v.priority, status := Pending)];
      jobs := jobs[job := NewJob(Work(id, false))];
      return true;
    }

    method QueueDelete(id: nat, job: nat, active: bool) returns (ok: bool)
      modifies this
      ensures Result(View(), ok) == Remove(old(View()), id, job, active)
    {
      var found := FindRow(rows, id);
      if found.None? || Locked(rows[found.value]) || !active || job in jobs {
        return false;
      }
      rows := rows[found.value := rows[found.value].(status := Deleting)];
      jobs := jobs[job := NewJob(Work(id, true))];
      return true;
    }

    method UpdateStatus(id: nat, status: Status)
      modifies `rows
      ensures rows == SetStatus(old(rows), id, status)
    {
      var found := FindRow(rows, id);
      if found.Some? {
        rows := rows[found.value := rows[found.value].(status := status)];
      }
    }

    method Complete(id: nat)
      modifies `rows
      ensures rows == CompleteSync(old(rows), id)
    {
      var found := FindRow(rows, id);
      if found.Some? {
        var row := rows[found.value];
        rows := rows[found.value := row.(status := Active, synced := Some(row.key))];
      }
    }

    method Delete(id: nat)
      modifies `rows
      ensures rows == DeleteRow(old(rows), id)
    {
      var found := FindRow(rows, id);
      if found.Some? {
        rows := rows[..found.value] + rows[found.value + 1..];
      }
    }
  }

  datatype Change = Replace(set_: RecordSet) | Erase(key: Key)

  function ChangeOf(s: RecordSet): Change {
    if s.records == [] then Erase(s.key) else Replace(s)
  }

  function Apply(p: Provider, changes: seq<Change>): Provider
    decreases |changes|
  {
    if changes == [] then p
    else
      match changes[0]
      case Replace(s) => Apply(p[s.key := s], changes[1..])
      case Erase(key) => Apply(p - {key}, changes[1..])
  }

  lemma {:induction false} ApplyIsPatch(p: Provider, sets: seq<RecordSet>, changes: seq<Change>)
    requires |changes| == |sets| && forall i :: 0 <= i < |sets| ==> changes[i] == ChangeOf(sets[i])
    ensures Apply(p, changes) == PatchAll(p, sets)
    decreases |sets|
  {
    if sets == [] {
    } else {
      ApplyIsPatch(PatchOne(p, sets[0]), sets[1..], changes[1..]);
    }
  }

  method BuildChanges(sets: seq<RecordSet>) returns (changes: seq<Change>)
    ensures |changes| == |sets| && forall k :: 0 <= k < |sets| ==> changes[k] == ChangeOf(sets[k])
  {
    changes := [];
    for i := 0 to |sets|
      invariant |changes| == i
      invariant forall k :: 0 <= k < i ==> changes[k] == ChangeOf(sets[k])
    {
      var change := Erase(sets[i].key);
      if |sets[i].records| > 0 {
        change := Replace(sets[i]);
      }
      changes := changes + [change];
    }
  }

  /** The provider behind the agent. */
  class PowerDNS {
    var zone: Provider

    constructor ()
      ensures zone == map[]
    {
      zone := map[];
    }

    /** SyncRecordSets: check, build one PATCH, send it; `owned` is the zone lookup, `reached` and `answered` the PATCH. */
    method SyncRecordSets(name: string, sets: seq<RecordSet>, owned: bool, reached: bool, answered: bool) returns (ok: bool)
      modifies this
      ensures zone == if owned && reached && SetsAccepted(sets, name) then PatchAll(old(zone), sets) else old(zone)
      ensures ok == (owned && reached && SetsAccepted(sets, name) && answered)
    {
      var valid := ValidateRecordSets(true, name, sets);
      if !valid || !owned {
        return false;
      }
      var changes := BuildChanges(sets);
      if !reached {
        return false;
      }
      ApplyIsPatch(zone, sets, changes);
      zone := Apply(zone, changes);
      return answered;
    }
  }

  /** What may go wrong inside one run of the handler. */
  datatype Faults = Faults(read: bool, list: bool, mark: bool, owned: bool, reached: bool, answered: bool, write: bool)

  ghost function HandlerSteps(t: Tables, row: nat, remove: bool, listing: seq<Row>, f: Faults): seq<Step> {
    if !f.read || FindRow(t.rows, row).None? then [ReadFails]
    else if !f.list then [ReadRecord] + [ReadFails]
    else if !remove && !f.mark then [ReadRecord] + ([ListRows(listing)] + [MarkPending(false)])
    else
      [ReadRecord] + ([ListRows(listing)] + ([MarkPending(f.mark)]
        + ([SendPatch(f.owned && f.reached, f.answered)] + [RecordOutcome(f.write)])))
  }

  /** The state the handler leaves, said without steps. */
  ghost function Handled(s: State, zone: string, listing: seq<Row>, f: Faults): State
    requires s.worker.Claimed? && HasJob(s) && Renderable(listing)
  {
    var j, job, rows := JobOf(s), s.worker.job, s.tables.rows;
    var found := FindRow(rows, j.work.row);
    if !f.read || found.None? || !f.list || (!j.work.remove && !f.mark) then s.(worker := Done(job, false, false))
    else
      var marked := if j.work.remove then rows else SetStatus(rows, j.work.row, Pending);
      var sets := RecordSets(listing, rows[found.value], Skip(j));
      var applied := f.owned && f.reached && SetsAccepted(sets, zone);
      State(Tables(if f.write then OutcomeRows(marked, j, applied && f.answered) else marked, s.tables.jobs),
            Done(job, applied && f.answered && f.write, f.write),
            if applied then PatchAll(s.provider, sets) else s.provider)
  }

  lemma StepSend(s: State, zone: string, f: Faults)
    requires s.worker.Marked? && HasJob(s) && Renderable(s.worker.listing)
    ensures var applied := f.owned && f.reached && SetsAccepted(Sets(s), zone);
      Next(s, zone, SendPatch(f.owned && f.reached, f.answered))
      == s.(provider := if applied then PatchAll(s.provider, Sets(s)) else s.provider,
            worker := Patched(s.worker.job, s.worker.current, applied && f.answered))
  {
  }

  lemma StepRecord(s: State, zone: string, write: bool)
    requires s.worker.Patched? && HasJob(s)
    ensures Next(s, zone, RecordOutcome(write))
      == State(Tables(if write then OutcomeRows(s.tables.rows, JobOf(s), s.worker.ok) else s.tables.rows, s.tables.jobs),
               Done(s.worker.job, s.worker.ok && write, write), s.provider)
  {
  }

  lemma StepMark(s: State, zone: string, mark: bool)
    requires s.worker.Listed? && HasJob(s) && (JobOf(s).work.remove || mark)
    ensures Next(s, zone, MarkPending(mark))
      == State(Tables(if JobOf(s).work.remove then s.tables.rows else SetStatus(s.tables.rows, JobOf(s).work.row, Pending), s.tables.jobs),
               Marked(s.worker.job, s.worker.current, s.worker.listing), s.provider)
  {
  }

  lemma StepRead(s: State, zone: string, listing: seq<Row>)
    requires s.worker.Claimed? && HasJob(s) && FindRow(s.tables.rows, JobOf(s).work.row).Some?
    requires multiset(listing) == multiset(s.tables.rows)
    ensures var record := s.tables.rows[FindRow(s.tables.rows, JobOf(s).work.row).value];
      && Next(s, zone, ReadRecord) == s.(worker := Read(s.worker.job, record))
      && Next(s.(worker := Read(s.worker.job, record)), zone, ListRows(listing)) == s.(worker := Listed(s.worker.job, record, listing))
  {
  }

  /** The steps of the run model lead to that state. */
  lemma HandlerRun(s: State, zone: string, listing: seq<Row>, f: Faults)
    requires s.worker.Claimed? && HasJob(s) && Renderable(listing) && multiset(listing) == multiset(s.tables.rows)
    ensures Run(s, zone, HandlerSteps(s.tables, JobOf(s).work.row, JobOf(s).work.remove, listing, f)) == Handled(s, zone, listing, f)
  {
    var j, job := JobOf(s), s.worker.job;
    var found := FindRow(s.tables.rows, j.work.row);
    if !f.read || found.None? {
      RunOne(s, zone, ReadFails);
    } else {
      StepRead(s, zone, listing);
      var record := s.tables.rows[found.value];
      var s1, s2 := s.(worker := Read(job, record)), s.(worker := Listed(job, record, listing));
      if !f.list {
        RunCons(s, zone, ReadRecord, [ReadFails]);
        RunOne(s1, zone, ReadFails);
      } else if !j.work.remove && !f.mark {
        RunCons(s, zone, ReadRecord, [ListRows(listing)] + [MarkPending(false)]);
        RunCons(s1, zone, ListRows(listing), [MarkPending(false)]);
        RunOne(s2, zone, MarkPending(false));
      } else {
        HandlerRunSends(s, zone, listing, f);
      }
    }
  }

  lemma HandlerRunSends(s: State, zone: string, listing: seq<Row>, f: Faults)
    requires s.worker.Claimed? && HasJob(s) && Renderable(listing) && multiset(listing) == multiset(s.tables.rows)
    requires f.read && f.list && (JobOf(s).work.remove || f.mark) && FindRow(s.tables.rows, JobOf(s).work.row).Some?
    ensures Run(s, zone, HandlerSteps(s.tables, JobOf(s).work.row, JobOf(s).work.remove, listing, f)) == Handled(s, zone, listing, f)
  {
    var record := s.tables.rows[FindRow(s.tables.rows, JobOf(s).work.row).value];
    var s2 := s.(worker := Listed(s.worker.job, record, listing));
    StepRead(s, zone, listing);
    StepMark(s2, zone, f.mark);
    var s3 := Next(s2, zone, MarkPending(f.mark));
    StepSend(s3, zone, f);
    var s4 := Next(s3, zone, SendPatch(f.owned && f.reached, f.answered));
    StepRecord(s4, zone, f.write);
    RunFive(s, zone, ReadRecord, ListRows(listing), MarkPending(f.mark),
            SendPatch(f.owned && f.reached, f.answered), RecordOutcome(f.write));
  }

  class Service {
    const store: Store
    const provider: PowerDNS

    constructor (store: Store, provider: PowerDNS)
      ensures this.store == store && this.provider == provider
    {
      this.store, this.provider := store, provider;
    }

    ghost function View(w: Worker): State
      reads store, provider
    {
      State(store.View(), w, provider.zone)
    }

    /** The record job handler; `listing` is the order the table returns its rows in. */
    method ProvisionRecord(zone: string, job: nat, listing: seq<Row>, f: Faults) returns (ok: bool, recorded: bool)
      requires job in store.jobs && Renderable(listing) && multiset(listing) == multiset(store.rows)
      modifies store`rows, provider
      ensures View(Done(job, ok, recorded))
        == Run(old(View(Claimed(job))), zone,
               HandlerSteps(old(store.View()), store.jobs[job].work.row, store.jobs[job].work.remove, listing, f))
    {
      HandlerRun(View(Claimed(job)), zone, listing, f);
      var j := store.jobs[job];
      var skip := if j.work.remove then Some(j.work.row) else None;
      var found := FindRow(store.rows, j.work.row);
      if !f.read || found.None? {
        return false, false;
      }
      var record := store.rows[found.value];
      if !f.list {
        return false, false;
      }
      if !j.work.remove {
        if !f.mark {
          return false, false;
        }
        store.UpdateStatus(j.work.row, Pending);
      }
      var sets := MergeRecordSets(listing, record, skip);
      var sent := provider.SyncRecordSets(zone, sets, f.owned, f.reached, f.answered);
      if f.write {
        if !sent {
          store.UpdateStatus(j.work.row, Error);
        } else if j.work.remove {
          store.Delete(j.work.row);
        } else {
          store.Complete(j.work.row);
        }
      }
      return sent && f.write, f.write;
    }
  }

  lemma RunFive(s: State, zone: string, a: Step, b: Step, c: Step, d: Step, e: Step)
    ensures Run(s, zone, [a] + ([b] + ([c] + ([d] + [e]))))
      == Next(Next(Next(Next(Next(s, zone, a), zone, b), zone, c), zone, d), zone, e)
  {
    RunCons(s, zone, a, [b] + ([c] + ([d] + [e])));
    var s1 := Next(s, zone, a);
    RunCons(s1, zone, b, [c] + ([d] + [e]));
    var s2 := Next(s1, zone, b);
    RunCons(s2, zone, c, [d] + [e]);
    var s3 := Next(s2, zone, c);
    RunCons(s3, zone, d, [e]);
    RunOne(Next(s3, zone, d), zone, e);
  }
}
