/** The provider's zone converges to the record rows: what every step keeps, and what it means at rest. */
module DnsConverge {
  import opened Jobs
  import opened Options
  import opened DnsZone
  import opened DnsSync

  // ---- What a record set depends on ----

  ghost function LiveValues(rows: seq<Row>, key: Key, skip: Option<nat>): seq<Value> {
    if rows == [] then []
    else (if Live(rows[0], key, skip) then [ValueOf(rows[0])] else []) + LiveValues(rows[1..], key, skip)
  }

  lemma {:induction false} LiveConcat(a: seq<Row>, b: seq<Row>, key: Key, skip: Option<nat>)
    ensures LiveValues(a + b, key, skip) == LiveValues(a, key, skip) + LiveValues(b, key, skip)
  {
    if a == [] {
      assert a + b == b;
    } else {
      assert (a + b)[1..] == a[1..] + b;
      LiveConcat(a[1..], b, key, skip);
    }
  }

  lemma LiveAround(rows: seq<Row>, i: nat, key: Key, skip: Option<nat>)
    requires i < |rows|
    ensures LiveValues(rows, key, skip)
         == LiveValues(rows[..i], key, skip) + LiveValues([rows[i]], key, skip) + LiveValues(rows[i + 1..], key, skip)
  {
    LiveConcat(rows[..i], [rows[i]], key, skip);
    LiveConcat(rows[..i] + [rows[i]], rows[i + 1..], key, skip);
    assert rows == rows[..i] + [rows[i]] + rows[i + 1..];
  }

  ghost function RenderAll(vs: seq<Value>): seq<string>
    requires forall i :: 0 <= i < |vs| ==> vs[i].priority >= 0
  {
    seq(|vs|, i requires 0 <= i < |vs| => Render(vs[i]))
  }

  lemma {:induction false} LiveRenders(rows: seq<Row>, key: Key, skip: Option<nat>)
    requires Renderable(rows)
    ensures forall i :: 0 <= i < |LiveValues(rows, key, skip)| ==> LiveValues(rows, key, skip)[i].priority >= 0
    ensures Rendered(rows, key, skip) == RenderAll(LiveValues(rows, key, skip))
  {
    if rows == [] {
    } else {
      LiveRenders(rows[1..], key, skip);
    }
  }

  lemma {:induction false} LiveTtl(rows: seq<Row>, key: Key, skip: Option<nat>)
    ensures var vs := LiveValues(rows, key, skip);
      LastTtl(rows, key, skip) == if vs == [] then 0 else vs[|vs| - 1].ttl
  {
    if rows == [] {
    } else {
      var n := |rows| - 1;
      LiveTtl(rows[..n], key, skip);
      LiveConcat(rows[..n], [rows[n]], key, skip);
      assert rows == rows[..n] + [rows[n]];
    }
  }

  /** A record set is decided by the live values alone. */
  lemma SetFromLive(xs: seq<Row>, ys: seq<Row>, key: Key, skipX: Option<nat>, skipY: Option<nat>)
    requires Renderable(xs) && Renderable(ys)
    requires LiveValues(xs, key, skipX) == LiveValues(ys, key, skipY)
    ensures SetOf(xs, key, skipX) == SetOf(ys, key, skipY)
  {
    LiveRenders(xs, key, skipX);
    LiveRenders(ys, key, skipY);
    LiveTtl(xs, key, skipX);
    LiveTtl(ys, key, skipY);
  }

  /** Two rows weigh the same in a record set: both live with one value, or neither live. */
  predicate SameWeight(q: Row, r: Row, key: Key, skip: Option<nat>) {
    && (Live(q, key, skip) <==> Live(r, key, skip))
    && (Live(q, key, skip) ==> ValueOf(q) == ValueOf(r))
  }

  lemma SetAfterReplace(rows: seq<Row>, i: nat, r: Row, key: Key, skip: Option<nat>)
    requires i < |rows| && Renderable(rows) && Renderable(rows[i := r]) && SameWeight(rows[i], r, key, skip)
    ensures SetOf(rows[i := r], key, skip) == SetOf(rows, key, skip)
  {
    var after := rows[i := r];
    LiveAround(rows, i, key, skip);
    LiveAround(after, i, key, skip);
    assert after[..i] == rows[..i] && after[i + 1..] == rows[i + 1..];
    SetFromLive(after, rows, key, skip, skip);
  }

  lemma SetAfterAppend(rows: seq<Row>, r: Row, key: Key, skip: Option<nat>)
    requires Renderable(rows + [r]) && !Live(r, key, skip)
    ensures Renderable(rows)
    ensures SetOf(rows + [r], key, skip) == SetOf(rows, key, skip)
  {
    assert forall i :: 0 <= i < |rows| ==> rows[i] == (rows + [r])[i];
    LiveConcat(rows, [r], key, skip);
    SetFromLive(rows + [r], rows, key, skip, skip);
  }

  lemma {:induction false} LiveSkipsNobody(rows: seq<Row>, key: Key, id: nat)
    requires forall r :: r in rows ==> r.id != id
    ensures LiveValues(rows, key, Some(id)) == LiveValues(rows, key, None)
  {
    if rows == [] {
    } else {
      LiveSkipsNobody(rows[1..], key, id);
    }
  }

  /** Deleting a row gives the set that leaves it out. */
  lemma SetAfterDelete(rows: seq<Row>, i: nat, key: Key)
    requires i < |rows| && Renderable(rows) && IdsDistinct(rows)
    ensures Renderable(rows[..i] + rows[i + 1..])
    ensures SetOf(rows[..i] + rows[i + 1..], key, None) == SetOf(rows, key, Some(rows[i].id))
  {
    LiveAround(rows, i, key, Some(rows[i].id));
    LiveSkipsNobody(rows[..i], key, rows[i].id);
    LiveSkipsNobody(rows[i + 1..], key, rows[i].id);
    LiveConcat(rows[..i], rows[i + 1..], key, None);
    SetFromLive(rows[..i] + rows[i + 1..], rows, key, None, Some(rows[i].id));
  }

  lemma SkipOtherKey(rows: seq<Row>, i: nat, key: Key)
    requires i < |rows| && IdsDistinct(rows) && Renderable(rows) && rows[i].key != key
    ensures SetOf(rows, key, Some(rows[i].id)) == SetOf(rows, key, None)
  {
    LiveAround(rows, i, key, None);
    LiveAround(rows, i, key, Some(rows[i].id));
    LiveSkipsNobody(rows[..i], key, rows[i].id);
    LiveSkipsNobody(rows[i + 1..], key, rows[i].id);
    SetFromLive(rows, rows, key, Some(rows[i].id), None);
  }

  lemma NormalRenderable(rows: seq<Row>, zone: string)
    requires AllNormal(rows, zone)
    ensures Renderable(rows)
  {
    forall i | 0 <= i < |rows| ensures rows[i].priority >= 0 {
      assert Normal(ValueOf(rows[i]), zone);
    }
  }

  // ---- The invariant ----

  predicate Touches(r: Row, key: Key) {
    r.key == key || r.synced == Some(key)
  }

  ghost predicate JobOn(jobs: RecordJobs, id: nat) {
    exists k :: k in jobs && jobs[k].work.row == id && Unfinished(jobs[k])
  }

  ghost predicate RemoveOn(jobs: RecordJobs, id: nat) {
    exists k :: k in jobs && jobs[k].work.row == id && Unfinished(jobs[k]) && jobs[k].work.remove
  }

  ghost predicate SyncOn(jobs: RecordJobs, id: nat) {
    exists k :: k in jobs && jobs[k].work.row == id && Unfinished(jobs[k]) && !jobs[k].work.remove
  }

  /** A row whose keys may still differ at the provider: not active, or with an unfinished job. */
  ghost predicate Unsettled(r: Row, jobs: RecordJobs) {
    r.status != Active || JobOn(jobs, r.id)
  }

  ghost predicate Covered(rows: seq<Row>, jobs: RecordJobs, key: Key) {
    exists r :: r in rows && Touches(r, key) && Unsettled(r, jobs)
  }

  ghost predicate Agrees(rows: seq<Row>, p: Provider, key: Key)
    requires Renderable(rows)
  {
    ProviderSet(p, key) == SetOf(rows, key, None)
  }

  /** The provider holds the merged rows for every key that no unsettled row touches. */
  ghost predicate Converging(rows: seq<Row>, jobs: RecordJobs, p: Provider)
    requires Renderable(rows)
  {
    forall key :: Agrees(rows, p, key) || Covered(rows, jobs, key)
  }

  /** A deleting row with a sync job still to run also has its delete job still to run. */
  ghost predicate DeletingOk(rows: seq<Row>, jobs: RecordJobs) {
    forall r :: r in rows && r.status == Deleting && SyncOn(jobs, r.id) ==> RemoveOn(jobs, r.id)
  }

  /** The row accounts for a difference at the key without the job: open in itself, or with a later job on the same key. */
  ghost predicate Accounts(q: Row, jobs: RecordJobs, key: Key, job: nat)
    requires job in jobs
  {
    && Touches(q, key)
    && (if q.id != jobs[job].work.row then Unsettled(q, jobs - {job})
        else !jobs[job].work.remove && q.key == key && JobOn(jobs - {job}, q.id))
  }

  /** A key whose difference another row or a later job on the same key accounts for. */
  ghost predicate Beside(rows: seq<Row>, jobs: RecordJobs, key: Key, job: nat)
    requires job in jobs
  {
    exists q :: q in rows && Accounts(q, jobs, key, job)
  }

  /** What the job carries for a key is what the table asks for, unless something else accounts for it. */
  ghost predicate Fits(rows: seq<Row>, jobs: RecordJobs, job: nat, key: Key, have: RecordSet)
    requires job in jobs && Renderable(rows)
  {
    have == SetOf(rows, key, Skip(jobs[job])) || Beside(rows, jobs, key, job)
  }

  /** The row the worker read: as it was, or renamed since and then pending. */
  ghost predicate Standing(rows: seq<Row>, current: Row, pending: bool) {
    exists r :: r in rows && Stands(r, current, pending)
  }

  predicate Stands(r: Row, current: Row, pending: bool) {
    && r.id == current.id && r.synced == current.synced
    && (r.key == current.key || r.status == Pending) && (pending ==> r.status == Pending)
  }

  ghost predicate ListingOk(rows: seq<Row>, jobs: RecordJobs, job: nat, current: Row, listing: seq<Row>)
    requires job in jobs && Renderable(rows)
  {
    && Renderable(listing)
    && forall key :: key in Keys(current) ==>
         && Fits(rows, jobs, job, key, SetOf(listing, key, Skip(jobs[job])))
         && (SetOf(listing, key, Skip(jobs[job])).records == [] ==> SetOf(listing, key, Skip(jobs[job])).ttl == 0)
  }

  ghost predicate OwnTouches(rows: seq<Row>, id: nat, key: Key) {
    exists r :: r in rows && r.id == id && Touches(r, key)
  }

  /** The keys the job in hand vouches for as the provider has them: patched already, or not to be patched. */
  ghost predicate Asked(rows: seq<Row>, w: Worker, key: Key) {
    match w
    case Read(job, current) => key !in Keys(current) && OwnTouches(rows, current.id, key)
    case Listed(job, current, listing) => key !in Keys(current) && OwnTouches(rows, current.id, key)
    case Marked(job, current, listing) => key !in Keys(current) && OwnTouches(rows, current.id, key)
    case Patched(job, current, ok) => ok && OwnTouches(rows, current.id, key)
    case _ => false
  }

  ghost predicate AskedOk(rows: seq<Row>, jobs: RecordJobs, w: Worker, p: Provider)
    requires !w.Idle? && w.job in jobs && Renderable(rows)
  {
    forall key :: Asked(rows, w, key) ==> Fits(rows, jobs, w.job, key, ProviderSet(p, key))
  }

  /** The row a failed job leaves behind still says that something is open. */
  ghost predicate ErrorLeft(rows: seq<Row>, jobs: RecordJobs, job: nat)
    requires job in jobs
  {
    forall r :: r in rows && r.id == jobs[job].work.row ==>
      r.status != Active && (r.status == Deleting ==> RemoveOn(jobs - {job}, r.id))
  }

  ghost predicate StageOk(rows: seq<Row>, jobs: RecordJobs, w: Worker, p: Provider)
    requires Renderable(rows)
  {
    !w.Idle? ==>
      && w.job in jobs
      && Unfinished(jobs[w.job])
      && AskedOk(rows, jobs, w, p)
      && match w
         case Claimed(job) => true
         case Read(job, current) => current.id == jobs[job].work.row && Standing(rows, current, false)
         case Listed(job, current, listing) =>
           current.id == jobs[job].work.row && Standing(rows, current, false) && ListingOk(rows, jobs, job, current, listing)
         case Marked(job, current, listing) =>
           && current.id == jobs[job].work.row && Standing(rows, current, !jobs[job].work.remove)
           && ListingOk(rows, jobs, job, current, listing)
         case Patched(job, current, ok) =>
           current.id == jobs[job].work.row && Standing(rows, current, !jobs[job].work.remove)
         case Done(job, ok, recorded) =>
           && (ok ==> Converging(rows, jobs - {job}, p) && DeletingOk(rows, jobs - {job}))
           && (!ok && recorded ==> ErrorLeft(rows, jobs, job))
  }

  ghost predicate Inv(s: State, zone: string) {
    && ZoneOk(s.tables.rows, zone)
    && Renderable(s.tables.rows)
    && Converging(s.tables.rows, s.tables.jobs, s.provider)
    && DeletingOk(s.tables.rows, s.tables.jobs)
    && StageOk(s.tables.rows, s.tables.jobs, s.worker, s.provider)
  }

  // ---- What a run must not do ----

  /** The delete of the row was already sent and answered: it erased the row's key. */
  predicate Erases(jobs: RecordJobs, w: Worker, id: nat) {
    w.Patched? && w.ok && w.job in jobs && jobs[w.job].work == Work(id, true)
  }

  /** The listing in hand will be sent for the key. */
  predicate Sends(w: Worker, key: Key) {
    (w.Listed? || w.Marked?) && key in Keys(w.current)
  }

  /**
   * The old key of a renamed row stays accounted for, in the tables as they are after the rename: some open row still
   * touches it, and so do the rows beside the job in hand when that job sends, or has sent, something else for the key.
   */
  ghost predicate OldKeyHeld(rows: seq<Row>, jobs: RecordJobs, w: Worker, id: nat, key: Key) {
    && (Covered(rows, jobs, key) || Erases(jobs, w, id))
    && (Sends(w, key) && w.job in jobs && Renderable(rows) && Renderable(w.listing) ==>
          Fits(rows, jobs, w.job, key, SetOf(w.listing, key, Skip(jobs[w.job]))))
    && (Asked(rows, w, key) && w.job in jobs ==> Beside(rows, jobs, key, w.job) || Erases(jobs, w, id))
    && (w.Done? && w.ok ==> Covered(rows, jobs - {w.job}, key))
  }

  /** A row may get a new key when the old one stays accounted for. */
  ghost predicate MayReplace(rows: seq<Row>, i: nat, r: Row, jobs: RecordJobs, w: Worker)
    requires i < |rows|
  {
    r.key == rows[i].key || OldKeyHeld(rows[i := r], jobs, w, r.id, rows[i].key)
  }

  ghost predicate MayUpdate(s: State, zone: string, id: nat, job: nat, v: Value, active: bool) {
    Update(s.tables, id, job, v, zone, active).ok ==>
      var i := FindRow(s.tables.rows, id).value;
      MayReplace(s.tables.rows, i, RowFrom(id, v, s.tables.rows[i].synced), QueueJob(s.tables.jobs, job, id, false), s.worker)
  }

  predicate InHand(w: Worker) {
    w.Read? || w.Listed? || w.Marked? || w.Patched?
  }

  /** Without the job every key of its row is still touched by an open row. */
  ghost predicate KeysHeld(rows: seq<Row>, jobs: RecordJobs, job: nat)
    requires job in jobs
  {
    forall key :: OwnTouches(rows, jobs[job].work.row, key) ==> Covered(rows, jobs - {job}, key)
  }

  /** When a job may be closed as failed. */
  ghost predicate MayClose(t: Tables, job: nat)
    requires job in t.jobs
  {
    KeysHeld(t.rows, t.jobs, job) && DeletingOk(t.rows, t.jobs - {job})
  }

  ghost predicate Guarded(s: State, zone: string, step: Step) {
    match step
    case UpdateRequest(id, job, v, active) => MayUpdate(s, zone, id, job, v, active)
    case DropJob(written) => s.worker.Claimed? && HasJob(s) && written ==> MayClose(s.tables, s.worker.job)
    case SettleJob(written) =>
      s.worker.Done? && HasJob(s) && written && Settle(JobOf(s), s.worker.ok).status == Failed ==>
        s.worker.recorded || MayClose(s.tables, s.worker.job)
    case _ => true
  }

  ghost predicate GuardedRun(s: State, zone: string, steps: seq<Step>)
    decreases |steps|
  {
    steps != [] ==> Guarded(s, zone, steps[0]) && GuardedRun(Next(s, zone, steps[0]), zone, steps[1..])
  }

  // ---- Job bookkeeping ----

  /** The same jobs are open. */
  ghost predicate SameOpen(a: RecordJobs, b: RecordJobs) {
    && (forall k :: k in a && Unfinished(a[k]) ==> k in b && Unfinished(b[k]) && a[k].work == b[k].work)
    && (forall k :: k in b && Unfinished(b[k]) ==> k in a && Unfinished(a[k]) && a[k].work == b[k].work)
  }

  lemma SameOpenSame(a: RecordJobs, b: RecordJobs, id: nat)
    requires SameOpen(a, b)
    ensures JobOn(a, id) <==> JobOn(b, id)
    ensures RemoveOn(a, id) <==> RemoveOn(b, id)
    ensures SyncOn(a, id) <==> SyncOn(b, id)
  {
  }

  lemma SameOpenKeeps(rows: seq<Row>, a: RecordJobs, b: RecordJobs, p: Provider)
    requires Renderable(rows) && SameOpen(a, b)
    requires Converging(rows, a, p) && DeletingOk(rows, a)
    ensures Converging(rows, b, p) && DeletingOk(rows, b)
  {
    forall id ensures (JobOn(a, id) <==> JobOn(b, id)) && (RemoveOn(a, id) <==> RemoveOn(b, id)) && (SyncOn(a, id) <==> SyncOn(b, id)) {
      SameOpenSame(a, b, id);
    }
    forall key ensures Agrees(rows, p, key) || Covered(rows, b, key) {
      assert Agrees(rows, p, key) || Covered(rows, a, key);
    }
  }

  lemma OnWithout(jobs: RecordJobs, job: nat, id: nat)
    requires job in jobs && jobs[job].work.row != id
    ensures JobOn(jobs, id) <==> JobOn(jobs - {job}, id)
    ensures RemoveOn(jobs, id) <==> RemoveOn(jobs - {job}, id)
    ensures SyncOn(jobs, id) <==> SyncOn(jobs - {job}, id)
  {
    assert forall k :: k in jobs && k != job ==> k in jobs - {job} && (jobs - {job})[k] == jobs[k];
  }

  /** Without the finished job every row but its own is as unsettled as before. */
  lemma OthersWithout(rows: seq<Row>, jobs: RecordJobs, job: nat, key: Key) returns (q: Row)
    requires job in jobs && Covered(rows, jobs, key)
    requires forall r :: r in rows && r.id == jobs[job].work.row ==> !Touches(r, key)
    ensures q in rows && q.id != jobs[job].work.row && Touches(q, key) && Unsettled(q, jobs - {job})
  {
    q :| q in rows && Touches(q, key) && Unsettled(q, jobs);
    OnWithout(jobs, job, q.id);
  }

  /** Without the job every difference is still accounted for. */
  lemma HeldConverges(rows: seq<Row>, jobs: RecordJobs, job: nat, p: Provider)
    requires job in jobs && KeysHeld(rows, jobs, job) && Renderable(rows) && Converging(rows, jobs, p)
    ensures Converging(rows, jobs - {job}, p)
  {
    forall key ensures Agrees(rows, p, key) || Covered(rows, jobs - {job}, key) {
      if !Agrees(rows, p, key) {
        assert Covered(rows, jobs, key);
        if !OwnTouches(rows, jobs[job].work.row, key) {
          var q := OthersWithout(rows, jobs, job, key);
        }
      }
    }
  }

  // ---- Requests ----

  /** Every job stays; new ones may be added. */
  ghost predicate Extends(a: RecordJobs, b: RecordJobs) {
    forall k :: k in a ==> k in b && b[k] == a[k]
  }

  lemma ExtendsOn(a: RecordJobs, b: RecordJobs, id: nat)
    requires Extends(a, b)
    ensures JobOn(a, id) ==> JobOn(b, id)
    ensures RemoveOn(a, id) ==> RemoveOn(b, id)
  {
  }

  lemma ExtendsWithout(a: RecordJobs, b: RecordJobs, job: nat)
    requires Extends(a, b)
    ensures Extends(a - {job}, b - {job})
  {
  }

  /** An unsettled replacement keeps every key accounted for, once the key it gave up is. */
  lemma ReplaceConverges(rows: seq<Row>, i: nat, r: Row, a: RecordJobs, b: RecordJobs, p: Provider)
    requires i < |rows| && IdsDistinct(rows) && r.id == rows[i].id && r.synced == rows[i].synced
    requires Renderable(rows) && Renderable(rows[i := r])
    requires Extends(a, b) && Unsettled(r, b) && Converging(rows, a, p)
    requires r.key == rows[i].key || Agrees(rows[i := r], p, rows[i].key) || Covered(rows[i := r], b, rows[i].key)
    ensures Converging(rows[i := r], b, p)
  {
    var after := rows[i := r];
    forall key ensures Agrees(after, p, key) || Covered(after, b, key) {
      assert after[i] in after;
      if !Touches(r, key) && key != rows[i].key {
        SetAfterReplace(rows, i, r, key, None);
        if !Agrees(rows, p, key) {
          assert Covered(rows, a, key);
          var q :| q in rows && Touches(q, key) && Unsettled(q, a);
          var k :| 0 <= k < |rows| && rows[k] == q;
          assert after[k] in after;
          ExtendsOn(a, b, q.id);
        }
      }
    }
  }

  lemma AppendConverges(rows: seq<Row>, r: Row, a: RecordJobs, b: RecordJobs, p: Provider)
    requires Renderable(rows) && Renderable(rows + [r])
    requires Extends(a, b) && Unsettled(r, b) && r.synced == None
    requires Converging(rows, a, p)
    ensures Converging(rows + [r], b, p)
  {
    var after := rows + [r];
    forall key ensures Agrees(after, p, key) || Covered(after, b, key) {
      assert r in after;
      if !Touches(r, key) {
        SetAfterAppend(rows, r, key, None);
        if !Agrees(rows, p, key) {
          assert Covered(rows, a, key);
          var q :| q in rows && Touches(q, key) && Unsettled(q, a);
          assert q in after;
          ExtendsOn(a, b, q.id);
        }
      }
    }
  }

  lemma SameRow(rows: seq<Row>, i: nat, r: Row)
    requires IdsDistinct(rows) && i < |rows| && r in rows && r.id == rows[i].id
    ensures r == rows[i]
  {
    var k :| 0 <= k < |rows| && rows[k] == r;
  }

  /** A witness of Beside survives the replacement. */
  lemma BesideReplace(rows: seq<Row>, i: nat, r: Row, a: RecordJobs, b: RecordJobs, job: nat, key: Key)
    requires i < |rows| && IdsDistinct(rows) && r.id == rows[i].id && r.synced == rows[i].synced
    requires Extends(a, b) && job in a && Unsettled(r, b - {job})
    requires key != rows[i].key || r.key == rows[i].key
    requires Beside(rows, a, key, job)
    ensures Beside(rows[i := r], b, key, job)
  {
    var after := rows[i := r];
    var q :| q in rows && Accounts(q, a, key, job);
    ExtendsWithout(a, b, job);
    ExtendsOn(a - {job}, b - {job}, q.id);
    if q.id == r.id {
      SameRow(rows, i, q);
      assert after[i] in after && Accounts(r, b, key, job);
    } else {
      var k :| 0 <= k < |rows| && rows[k] == q;
      assert after[k] in after && Accounts(q, b, key, job);
    }
  }

  /** What a job in flight carries still fits after a request replaced a row, but for the key the row gave up. */
  lemma FitsReplace(rows: seq<Row>, i: nat, r: Row, a: RecordJobs, b: RecordJobs, job: nat, key: Key, have: RecordSet)
    requires i < |rows| && IdsDistinct(rows) && r.id == rows[i].id && r.synced == rows[i].synced
    requires Renderable(rows) && Renderable(rows[i := r])
    requires Extends(a, b) && job in a && r.status != Active && JobOn(b - {job}, r.id)
    requires key != rows[i].key || r.key == rows[i].key
    requires Fits(rows, a, job, key, have)
    ensures Fits(rows[i := r], b, job, key, have)
  {
    var after := rows[i := r];
    assert after[i] in after;
    if Beside(rows, a, key, job) {
      BesideReplace(rows, i, r, a, b, job, key);
    } else if r.id != a[job].work.row && Touches(r, key) {
      assert Accounts(r, b, key, job);
    } else if r.id == a[job].work.row && !a[job].work.remove && r.key == key {
      assert Accounts(r, b, key, job);
    } else {
      SetAfterReplace(rows, i, r, key, Skip(a[job]));
    }
  }

  /** A delete job leaves its own row out anyway, so what it carries fits whatever becomes of that row's key. */
  lemma FitsReplaceOwn(rows: seq<Row>, i: nat, r: Row, a: RecordJobs, b: RecordJobs, job: nat, key: Key, have: RecordSet)
    requires i < |rows| && IdsDistinct(rows) && r.id == rows[i].id && Renderable(rows) && Renderable(rows[i := r])
    requires Extends(a, b) && job in a && a[job].work == Work(r.id, true)
    requires Fits(rows, a, job, key, have)
    ensures Fits(rows[i := r], b, job, key, have)
  {
    var after := rows[i := r];
    if Beside(rows, a, key, job) {
      var q :| q in rows && Accounts(q, a, key, job);
      ExtendsWithout(a, b, job);
      ExtendsOn(a - {job}, b - {job}, q.id);
      var k :| 0 <= k < |rows| && rows[k] == q;
      assert after[k] in after && Accounts(q, b, key, job);
    } else {
      SetAfterReplace(rows, i, r, key, Skip(a[job]));
    }
  }

  lemma FitsAppend(rows: seq<Row>, r: Row, a: RecordJobs, b: RecordJobs, job: nat, key: Key, have: RecordSet)
    requires Renderable(rows) && Renderable(rows + [r])
    requires Extends(a, b) && job in a && r.status != Active && r.id != a[job].work.row && r.synced == None
    requires Fits(rows, a, job, key, have)
    ensures Fits(rows + [r], b, job, key, have)
  {
    var after := rows + [r];
    assert r in after;
    if Beside(rows, a, key, job) {
      var q :| q in rows && Accounts(q, a, key, job);
      ExtendsWithout(a, b, job);
      ExtendsOn(a - {job}, b - {job}, q.id);
      assert q in after && Accounts(q, b, key, job);
    } else if r.key == key {
      assert Accounts(r, b, key, job);
    } else {
      SetAfterAppend(rows, r, key, Skip(a[job]));
    }
  }

  /** A request queues a job with the row it writes; a row marked deleting gets a delete job. */
  ghost predicate Enqueued(a: RecordJobs, b: RecordJobs, added: nat, r: Row) {
    && added !in a && added in b && b == a[added := b[added]]
    && b[added].work.row == r.id && Unfinished(b[added]) && b[added].work.remove == (r.status == Deleting)
    && r.status != Active
  }

  lemma QueuedWithout(a: RecordJobs, b: RecordJobs, added: nat, r: Row, job: nat)
    requires Enqueued(a, b, added, r) && job in a
    ensures Enqueued(a - {job}, b - {job}, added, r)
    ensures JobOn(b - {job}, r.id)
  {
    assert (b - {job})[added] == b[added];
  }

  lemma QueuedDeleting(rows: seq<Row>, after: seq<Row>, r: Row, a: RecordJobs, b: RecordJobs, added: nat)
    requires Enqueued(a, b, added, r) && DeletingOk(rows, a)
    requires forall q :: q in after ==> q == r || (q in rows && q.id != r.id)
    ensures DeletingOk(after, b)
  {
    forall q | q in after && q.status == Deleting && SyncOn(b, q.id) ensures RemoveOn(b, q.id) {
      if q == r {
        assert b[added].work.remove;
      } else {
        assert SyncOn(a, q.id);
        ExtendsOn(a, b, q.id);
      }
    }
  }

  lemma StandingReplace(rows: seq<Row>, i: nat, r: Row, current: Row, pending: bool)
    requires i < |rows| && IdsDistinct(rows) && Standing(rows, current, pending)
    requires r.id == rows[i].id && r.synced == rows[i].synced && !Locked(rows[i]) && (r.key == rows[i].key || r.status == Pending)
    ensures Standing(rows[i := r], current, pending)
    ensures r.id == current.id ==> !pending && rows[i].key == current.key
  {
    var after := rows[i := r];
    var q :| q in rows && Stands(q, current, pending);
    var k :| 0 <= k < |rows| && rows[k] == q;
    assert after[k] in after;
    if r.id == current.id {
      SameRow(rows, i, q);
      assert Stands(r, current, pending);
    }
  }

  /** Which replacements a request may make. */
  ghost predicate RequestRow(rows: seq<Row>, i: nat, r: Row) {
    && i < |rows| && r.id == rows[i].id && !Locked(rows[i]) && r.synced == rows[i].synced
    && (r.key == rows[i].key || r.status == Pending)
  }

  lemma ReplacedRows(rows: seq<Row>, i: nat, r: Row)
    requires i < |rows| && IdsDistinct(rows) && r.id == rows[i].id
    ensures forall q :: q in rows[i := r] ==> q == r || (q in rows && q.id != r.id)
  {
    var after := rows[i := r];
    forall q | q in after ensures q == r || (q in rows && q.id != r.id) {
      var k :| 0 <= k < |after| && after[k] == q;
    }
  }

  lemma StageReplaceListing(rows: seq<Row>, i: nat, r: Row, a: RecordJobs, b: RecordJobs, added: nat, w: Worker)
    requires IdsDistinct(rows) && RequestRow(rows, i, r) && Renderable(rows) && Renderable(rows[i := r])
    requires (w.Listed? || w.Marked?) && w.job in a && Enqueued(a, b, added, r) && MayReplace(rows, i, r, b, w)
    requires ListingOk(rows, a, w.job, w.current, w.listing)
    ensures ListingOk(rows[i := r], b, w.job, w.current, w.listing)
  {
    QueuedWithout(a, b, added, r, w.job);
    forall key | key in Keys(w.current) ensures Fits(rows[i := r], b, w.job, key, SetOf(w.listing, key, Skip(b[w.job]))) {
      if key != rows[i].key || r.key == rows[i].key {
        FitsReplace(rows, i, r, a, b, w.job, key, SetOf(w.listing, key, Skip(a[w.job])));
      }
    }
  }

  /** The new key of the row that a delete job has in hand is served as the table says without that row. */
  lemma NewKeyFits(rows: seq<Row>, i: nat, r: Row, a: RecordJobs, b: RecordJobs, job: nat, p: Provider)
    requires i < |rows| && IdsDistinct(rows) && r.id == rows[i].id && r.synced == rows[i].synced
    requires Renderable(rows) && Renderable(rows[i := r]) && Extends(a, b)
    requires job in a && a[job].work == Work(r.id, true) && !Touches(rows[i], r.key) && Converging(rows, a, p)
    ensures Fits(rows[i := r], b, job, r.key, ProviderSet(p, r.key))
  {
    if Agrees(rows, p, r.key) {
      SetAfterReplace(rows, i, r, r.key, Some(r.id));
      SkipOtherKey(rows, i, r.key);
    } else {
      assert Covered(rows, a, r.key);
      forall q | q in rows && q.id == r.id ensures !Touches(q, r.key) {
        SameRow(rows, i, q);
      }
      var q := OthersWithout(rows, a, job, r.key);
      ExtendsWithout(a, b, job);
      ExtendsOn(a - {job}, b - {job}, q.id);
      var k :| 0 <= k < |rows| && rows[k] == q;
      assert rows[i := r][k] in rows[i := r] && Accounts(q, b, r.key, job);
    }
  }

  /** A key the job vouches for after the request, when the job is about another row. */
  lemma AskedElsewhere(rows: seq<Row>, i: nat, r: Row, a: RecordJobs, b: RecordJobs, added: nat, w: Worker, p: Provider, key: Key)
    requires IdsDistinct(rows) && RequestRow(rows, i, r) && Renderable(rows) && Renderable(rows[i := r])
    requires InHand(w) && w.job in a && w.current.id == a[w.job].work.row != r.id
    requires Enqueued(a, b, added, r) && MayReplace(rows, i, r, b, w)
    requires AskedOk(rows, a, w, p) && Asked(rows[i := r], w, key)
    ensures Fits(rows[i := r], b, w.job, key, ProviderSet(p, key))
  {
    ReplacedRows(rows, i, r);
    QueuedWithout(a, b, added, r, w.job);
    assert Asked(rows, w, key);
    if key != rows[i].key || r.key == rows[i].key {
      FitsReplace(rows, i, r, a, b, w.job, key, ProviderSet(p, key));
    }
  }

  /** The same when the job is about the replaced row itself. */
  lemma AskedOwn(rows: seq<Row>, i: nat, r: Row, a: RecordJobs, b: RecordJobs, added: nat, w: Worker, p: Provider, key: Key)
    requires IdsDistinct(rows) && RequestRow(rows, i, r) && Renderable(rows) && Renderable(rows[i := r])
    requires InHand(w) && w.job in a && w.current.id == a[w.job].work.row == r.id
    requires rows[i].key == w.current.key && rows[i].synced == w.current.synced
    requires w.Patched? && !a[w.job].work.remove ==> rows[i].status == Pending
    requires Enqueued(a, b, added, r) && Converging(rows, a, p)
    requires AskedOk(rows, a, w, p) && Asked(rows[i := r], w, key)
    ensures Fits(rows[i := r], b, w.job, key, ProviderSet(p, key))
  {
    ReplacedRows(rows, i, r);
    QueuedWithout(a, b, added, r, w.job);
    KeysOf(w.current);
    assert rows[i] in rows && rows[i := r][i] in rows[i := r];
    if Touches(rows[i], key) {
      assert w.Patched? && Asked(rows, w, key);
      FitsReplaceOwn(rows, i, r, a, b, w.job, key, ProviderSet(p, key));
    } else if a[w.job].work.remove {
      NewKeyFits(rows, i, r, a, b, w.job, p);
    } else {
      assert Accounts(r, b, key, w.job);
    }
  }

  lemma StageReplaceAsked(rows: seq<Row>, i: nat, r: Row, a: RecordJobs, b: RecordJobs, added: nat, w: Worker, p: Provider)
    requires IdsDistinct(rows) && RequestRow(rows, i, r) && Renderable(rows) && Renderable(rows[i := r])
    requires Enqueued(a, b, added, r) && Converging(rows, a, p)
    requires StageOk(rows, a, w, p) && MayReplace(rows, i, r, b, w) && !w.Idle?
    ensures AskedOk(rows[i := r], b, w, p)
  {
    forall key | Asked(rows[i := r], w, key) ensures Fits(rows[i := r], b, w.job, key, ProviderSet(p, key)) {
      if w.current.id == r.id {
        StandingReplace(rows, i, r, w.current, w.Patched? && !a[w.job].work.remove);
        var q :| q in rows && Stands(q, w.current, false);
        SameRow(rows, i, q);
        AskedOwn(rows, i, r, a, b, added, w, p, key);
      } else {
        AskedElsewhere(rows, i, r, a, b, added, w, p, key);
      }
    }
  }

  lemma StageReplaceDone(rows: seq<Row>, i: nat, r: Row, a: RecordJobs, b: RecordJobs, added: nat, job: nat, p: Provider)
    requires IdsDistinct(rows) && RequestRow(rows, i, r) && Renderable(rows) && Renderable(rows[i := r])
    requires Enqueued(a, b, added, r) && job in a
    ensures Converging(rows, a - {job}, p) && (r.key == rows[i].key || Covered(rows[i := r], b - {job}, rows[i].key)) ==>
      Converging(rows[i := r], b - {job}, p)
    ensures DeletingOk(rows, a - {job}) ==> DeletingOk(rows[i := r], b - {job})
    ensures ErrorLeft(rows, a, job) ==> ErrorLeft(rows[i := r], b, job)
  {
    QueuedWithout(a, b, added, r, job);
    ReplacedRows(rows, i, r);
    if Converging(rows, a - {job}, p) && (r.key == rows[i].key || Covered(rows[i := r], b - {job}, rows[i].key)) {
      ReplaceConverges(rows, i, r, a - {job}, b - {job}, p);
    }
    if DeletingOk(rows, a - {job}) {
      QueuedDeleting(rows, rows[i := r], r, a - {job}, b - {job}, added);
    }
    if ErrorLeft(rows, a, job) {
      forall q | q in rows[i := r] && q.id == b[job].work.row
        ensures q.status != Active && (q.status == Deleting ==> RemoveOn(b - {job}, q.id))
      {
        if q == r {
          assert added in b - {job} && (b - {job})[added] == b[added];
        } else {
          ExtendsOn(a - {job}, b - {job}, q.id);
        }
      }
    }
  }

  lemma StageReplace(rows: seq<Row>, i: nat, r: Row, a: RecordJobs, b: RecordJobs, added: nat, w: Worker, p: Provider)
    requires IdsDistinct(rows) && RequestRow(rows, i, r) && Renderable(rows) && Renderable(rows[i := r])
    requires Enqueued(a, b, added, r) && Converging(rows, a, p)
    requires StageOk(rows, a, w, p) && MayReplace(rows, i, r, b, w)
    ensures StageOk(rows[i := r], b, w, p)
  {
    if !w.Idle? {
      StageReplaceAsked(rows, i, r, a, b, added, w, p);
      match w
      case Claimed(job) =>
      case Read(job, current) =>
        StandingReplace(rows, i, r, current, false);
      case Listed(job, current, listing) =>
        StandingReplace(rows, i, r, current, false);
        StageReplaceListing(rows, i, r, a, b, added, w);
      case Marked(job, current, listing) =>
        StandingReplace(rows, i, r, current, !a[job].work.remove);
        StageReplaceListing(rows, i, r, a, b, added, w);
      case Patched(job, current, ok) =>
        StandingReplace(rows, i, r, current, !a[job].work.remove);
      case Done(job, ok, recorded) =>
        StageReplaceDone(rows, i, r, a, b, added, job, p);
    }
  }

  /** The key a delete erased is served without the renamed row. */
  lemma ErasedAgrees(rows: seq<Row>, i: nat, r: Row, a: RecordJobs, b: RecordJobs, w: Worker, p: Provider)
    requires i < |rows| && IdsDistinct(rows) && r.id == rows[i].id && r.key != rows[i].key
    requires Renderable(rows) && Renderable(rows[i := r]) && Extends(a, b)
    requires Erases(a, w, r.id) && w.current.id == r.id && AskedOk(rows, a, w, p)
    ensures Agrees(rows[i := r], p, rows[i].key) || Covered(rows[i := r], b, rows[i].key)
  {
    var key, after := rows[i].key, rows[i := r];
    assert rows[i] in rows && Asked(rows, w, key);
    if Beside(rows, a, key, w.job) {
      var q :| q in rows && Accounts(q, a, key, w.job);
      ExtendsOn(a - {w.job}, b, q.id);
      var k :| 0 <= k < |rows| && rows[k] == q;
      assert after[k] in after;
    } else {
      SetAfterReplace(rows, i, r, key, Some(r.id));
      SkipOtherKey(after, i, key);
    }
  }

  lemma ReplaceKeeps(s: State, zone: string, i: nat, r: Row, added: nat, b: RecordJobs)
    requires Inv(s, zone) && RequestRow(s.tables.rows, i, r) && MayReplace(s.tables.rows, i, r, b, s.worker)
    requires Enqueued(s.tables.jobs, b, added, r) && ZoneOk(s.tables.rows[i := r], zone)
    ensures Inv(s.(tables := Tables(s.tables.rows[i := r], b)), zone)
  {
    var rows, a := s.tables.rows, s.tables.jobs;
    NormalRenderable(rows[i := r], zone);
    if r.key != rows[i].key && !Covered(rows[i := r], b, rows[i].key) {
      ErasedAgrees(rows, i, r, a, b, s.worker, s.provider);
    }
    ReplaceConverges(rows, i, r, a, b, s.provider);
    ReplacedRows(rows, i, r);
    QueuedDeleting(rows, rows[i := r], r, a, b, added);
    StageReplace(rows, i, r, a, b, added, s.worker, s.provider);
  }

  lemma StandingAppend(rows: seq<Row>, r: Row, current: Row, pending: bool)
    requires Standing(rows, current, pending)
    ensures Standing(rows + [r], current, pending)
  {
    var q :| q in rows && Stands(q, current, pending);
    assert q in rows + [r];
  }

  lemma AppendListing(rows: seq<Row>, r: Row, a: RecordJobs, b: RecordJobs, job: nat, current: Row, listing: seq<Row>)
    requires Renderable(rows) && Renderable(rows + [r]) && Extends(a, b) && job in a
    requires r.synced == None && r.status == Pending && r.id != a[job].work.row
    requires ListingOk(rows, a, job, current, listing)
    ensures ListingOk(rows + [r], b, job, current, listing)
  {
    forall key | key in Keys(current) ensures Fits(rows + [r], b, job, key, SetOf(listing, key, Skip(b[job]))) {
      FitsAppend(rows, r, a, b, job, key, SetOf(listing, key, Skip(a[job])));
    }
  }

  lemma AppendAsked(rows: seq<Row>, r: Row, a: RecordJobs, b: RecordJobs, w: Worker, p: Provider)
    requires Renderable(rows) && Renderable(rows + [r]) && Extends(a, b) && !w.Idle? && w.job in a
    requires r.synced == None && r.status == Pending && (InHand(w) ==> w.current.id == a[w.job].work.row != r.id)
    requires AskedOk(rows, a, w, p)
    ensures AskedOk(rows + [r], b, w, p)
  {
    forall key | Asked(rows + [r], w, key) ensures Fits(rows + [r], b, w.job, key, ProviderSet(p, key)) {
      assert Asked(rows, w, key);
      FitsAppend(rows, r, a, b, w.job, key, ProviderSet(p, key));
    }
  }

  lemma AppendDone(rows: seq<Row>, r: Row, a: RecordJobs, b: RecordJobs, added: nat, job: nat, p: Provider)
    requires (forall q :: q in rows ==> q.id != r.id) && r.synced == None && r.status == Pending
    requires Renderable(rows) && Renderable(rows + [r]) && Enqueued(a, b, added, r) && job in a
    ensures Converging(rows, a - {job}, p) && DeletingOk(rows, a - {job}) ==>
      Converging(rows + [r], b - {job}, p) && DeletingOk(rows + [r], b - {job})
    ensures ErrorLeft(rows, a, job) ==> ErrorLeft(rows + [r], b, job)
  {
    QueuedWithout(a, b, added, r, job);
    if Converging(rows, a - {job}, p) && DeletingOk(rows, a - {job}) {
      AppendConverges(rows, r, a - {job}, b - {job}, p);
      QueuedDeleting(rows, rows + [r], r, a - {job}, b - {job}, added);
    }
    if ErrorLeft(rows, a, job) {
      forall q | q in rows + [r] && q.id == b[job].work.row
        ensures q.status != Active && (q.status == Deleting ==> RemoveOn(b - {job}, q.id))
      {
        ExtendsOn(a - {job}, b - {job}, q.id);
      }
    }
  }

  lemma StageAppend(rows: seq<Row>, r: Row, a: RecordJobs, b: RecordJobs, added: nat, w: Worker, p: Provider)
    requires (forall q :: q in rows ==> q.id != r.id) && r.synced == None && r.status == Pending
    requires Renderable(rows) && Renderable(rows + [r])
    requires Enqueued(a, b, added, r) && StageOk(rows, a, w, p)
    ensures StageOk(rows + [r], b, w, p)
  {
    if !w.Idle? {
      AppendAsked(rows, r, a, b, w, p);
      match w
      case Claimed(job) =>
      case Read(job, current) =>
        StandingAppend(rows, r, current, false);
      case Listed(job, current, listing) =>
        StandingAppend(rows, r, current, false);
        AppendListing(rows, r, a, b, job, current, listing);
      case Marked(job, current, listing) =>
        StandingAppend(rows, r, current, !a[job].work.remove);
        AppendListing(rows, r, a, b, job, current, listing);
      case Patched(job, current, ok) =>
        StandingAppend(rows, r, current, !a[job].work.remove);
      case Done(job, ok, recorded) =>
        AppendDone(rows, r, a, b, added, job, p);
    }
  }

  lemma AppendKeeps(s: State, zone: string, r: Row, added: nat, b: RecordJobs)
    requires Inv(s, zone) && (forall q :: q in s.tables.rows ==> q.id != r.id) && r.synced == None && r.status == Pending
    requires Enqueued(s.tables.jobs, b, added, r) && ZoneOk(s.tables.rows + [r], zone)
    ensures Inv(s.(tables := Tables(s.tables.rows + [r], b)), zone)
  {
    var rows, a := s.tables.rows, s.tables.jobs;
    NormalRenderable(rows + [r], zone);
    AppendConverges(rows, r, a, b, s.provider);
    QueuedDeleting(rows, rows + [r], r, a, b, added);
    StageAppend(rows, r, a, b, added, s.worker, s.provider);
  }

  // ---- The worker ----

  lemma KeysOf(current: Row)
    ensures forall key :: key in Keys(current) <==> Touches(current, key)
  {
    assert Keys(current)[|Keys(current)| - 1] == current.key;
    if current.synced.Some? && current.synced.value != current.key {
      assert Keys(current)[0] == current.synced.value;
    }
  }

  /** The row the job in hand is about, as it is now. */
  lemma OwnRow(rows: seq<Row>, current: Row, pending: bool) returns (i: nat)
    requires IdsDistinct(rows) && Standing(rows, current, pending)
    ensures i < |rows| && FindRow(rows, current.id) == Some(i) && Stands(rows[i], current, pending)
    ensures forall key :: OwnTouches(rows, current.id, key) <==> Touches(rows[i], key)
    ensures forall key :: key in Keys(current) <==> Touches(current, key)
  {
    KeysOf(current);
    var q :| q in rows && Stands(q, current, pending);
    i := FindRow(rows, current.id).value;
    assert rows[i] in rows;
    SameRow(rows, i, q);
    forall key | OwnTouches(rows, current.id, key) ensures Touches(rows[i], key) {
      var r :| r in rows && r.id == current.id && Touches(r, key);
      SameRow(rows, i, r);
    }
  }

  /** The listing may come in any order and still gives the sets the table asks for. */
  lemma ListKeeps(s: State, zone: string, listing: seq<Row>)
    requires Inv(s, zone) && s.worker.Read? && multiset(listing) == multiset(s.tables.rows)
    ensures Inv(s.(worker := Listed(s.worker.job, s.worker.current, listing)), zone)
  {
    var rows, job, current := s.tables.rows, s.worker.job, s.worker.current;
    var skip := Skip(s.tables.jobs[job]);
    forall i | 0 <= i < |listing| ensures listing[i].priority >= 0 {
      assert listing[i] in multiset(rows);
    }
    forall key | key in Keys(current)
      ensures SetOf(listing, key, skip) == SetOf(rows, key, skip)
      ensures SetOf(rows, key, skip).records == [] ==> SetOf(rows, key, skip).ttl == 0
    {
      SetIgnoresOrder(rows, listing, key, skip);
      SetTtl(rows, key, skip, zone);
    }
  }

  lemma FitsMark(rows: seq<Row>, i: nat, jobs: RecordJobs, job: nat, key: Key, have: RecordSet)
    requires i < |rows| && IdsDistinct(rows) && Renderable(rows) && DeletingOk(rows, jobs)
    requires job in jobs && Unfinished(jobs[job]) && jobs[job].work.row == rows[i].id && !jobs[job].work.remove
    requires Fits(rows, jobs, job, key, have)
    ensures Renderable(rows[i := rows[i].(status := Pending)])
    ensures Fits(rows[i := rows[i].(status := Pending)], jobs, job, key, have)
  {
    var r := rows[i].(status := Pending);
    var after := rows[i := r];
    assert after[i] in after;
    if rows[i].status == Deleting && r.key == key {
      assert rows[i] in rows && SyncOn(jobs, r.id);
      var k :| k in jobs && jobs[k].work.row == r.id && Unfinished(jobs[k]) && jobs[k].work.remove;
      assert k in jobs - {job} && (jobs - {job})[k] == jobs[k];
    }
    if rows[i].status == Deleting && r.key == key {
      assert Accounts(r, jobs, key, job);
    } else if Beside(rows, jobs, key, job) {
      BesideReplace(rows, i, r, jobs, jobs, job, key);
    } else {
      SetAfterReplace(rows, i, r, key, Skip(jobs[job]));
    }
  }

  lemma StatusDeleting(rows: seq<Row>, i: nat, r: Row, jobs: RecordJobs)
    requires i < |rows| && IdsDistinct(rows) && r.id == rows[i].id && r.status != Deleting
    requires DeletingOk(rows, jobs)
    ensures DeletingOk(rows[i := r], jobs)
  {
    ReplacedRows(rows, i, r);
  }

  lemma MarkKeeps(s: State, zone: string)
    requires Inv(s, zone) && s.worker.Listed? && !JobOf(s).work.remove
    ensures Inv(s.(tables := s.tables.(rows := SetStatus(s.tables.rows, JobOf(s).work.row, Pending)),
                   worker := Marked(s.worker.job, s.worker.current, s.worker.listing)), zone)
  {
    var rows, jobs, job, current, listing := s.tables.rows, s.tables.jobs, s.worker.job, s.worker.current, s.worker.listing;
    var i := OwnRow(rows, current, false);
    var r := rows[i].(status := Pending);
    var after := rows[i := r];
    assert after[i] in after && Stands(r, current, true);
    ReplaceKeepsZone(rows, i, r, zone);
    NormalRenderable(after, zone);
    ReplaceConverges(rows, i, r, jobs, jobs, s.provider);
    StatusDeleting(rows, i, r, jobs);
    forall key | key in Keys(current) ensures Fits(after, jobs, job, key, SetOf(listing, key, Skip(jobs[job]))) {
      FitsMark(rows, i, jobs, job, key, SetOf(listing, key, Skip(jobs[job])));
    }
    ReplacedRows(rows, i, r);
    forall key | key !in Keys(current) && OwnTouches(after, current.id, key)
      ensures Fits(after, jobs, job, key, ProviderSet(s.provider, key))
    {
      assert Asked(rows, s.worker, key);
      FitsMark(rows, i, jobs, job, key, ProviderSet(s.provider, key));
    }
  }

  lemma SetsOfKeys(listing: seq<Row>, current: Row, skip: Option<nat>)
    requires Renderable(listing)
    requires forall k :: k in Keys(current) && SetOf(listing, k, skip).records == [] ==> SetOf(listing, k, skip).ttl == 0
    ensures var sets := RecordSets(listing, current, skip);
      EmptyHasNoTtl(sets) && DistinctKeys(sets) && forall j :: 0 <= j < |sets| ==> sets[j].key == Keys(current)[j]
  {
    assert forall j :: 0 <= j < |Keys(current)| ==> Keys(current)[j] in Keys(current);
  }

  /** A job's patch gives each of its keys the set it computed and touches no other key. */
  lemma PatchEffect(p: Provider, listing: seq<Row>, current: Row, skip: Option<nat>, key: Key)
    requires Renderable(listing)
    requires forall k :: k in Keys(current) && SetOf(listing, k, skip).records == [] ==> SetOf(listing, k, skip).ttl == 0
    ensures ProviderSet(PatchAll(p, RecordSets(listing, current, skip)), key)
         == if key in Keys(current) then SetOf(listing, key, skip) else ProviderSet(p, key)
  {
    var sets := RecordSets(listing, current, skip);
    SetsOfKeys(listing, current, skip);
    if key in Keys(current) {
      var j :| 0 <= j < |Keys(current)| && Keys(current)[j] == key;
      PatchInstalls(p, sets, j);
    } else {
      PatchLeaves(p, sets, key);
    }
  }

  /** What the patch makes of the provider still converges, also at a key the row has given up since it was read. */
  lemma PatchConverges(rows: seq<Row>, jobs: RecordJobs, job: nat, current: Row, listing: seq<Row>, before: Provider, after: Provider)
    requires IdsDistinct(rows) && Renderable(rows) && Converging(rows, jobs, before) && Standing(rows, current, false)
    requires job in jobs && Unfinished(jobs[job]) && current.id == jobs[job].work.row && ListingOk(rows, jobs, job, current, listing)
    requires forall key :: key in Keys(current) ==> ProviderSet(after, key) == SetOf(listing, key, Skip(jobs[job]))
    requires forall key :: key !in Keys(current) ==> ProviderSet(after, key) == ProviderSet(before, key)
    ensures Converging(rows, jobs, after)
  {
    var i := OwnRow(rows, current, false);
    forall key ensures Agrees(rows, after, key) || Covered(rows, jobs, key) {
      if Touches(rows[i], key) {
        assert rows[i] in rows && JobOn(jobs, rows[i].id);
      } else if key !in Keys(current) {
        assert Agrees(rows, before, key) || Covered(rows, jobs, key);
      } else if Beside(rows, jobs, key, job) {
        var q :| q in rows && Accounts(q, jobs, key, job);
        ExtendsOn(jobs - {job}, jobs, q.id);
      } else {
        SkipOtherKey(rows, i, key);
      }
    }
  }

  lemma PatchKeeps(s: State, zone: string, answered: bool)
    requires Inv(s, zone) && s.worker.Marked?
    ensures Inv(s.(provider := PatchAll(s.provider, Sets(s)), worker := Patched(s.worker.job, s.worker.current, answered)), zone)
  {
    var rows, jobs, job, current := s.tables.rows, s.tables.jobs, s.worker.job, s.worker.current;
    var p := PatchAll(s.provider, Sets(s));
    forall key ensures ProviderSet(p, key)
      == if key in Keys(current) then SetOf(s.worker.listing, key, Skip(jobs[job])) else ProviderSet(s.provider, key)
    {
      PatchEffect(s.provider, s.worker.listing, current, Skip(jobs[job]), key);
    }
    PatchConverges(rows, jobs, job, current, s.worker.listing, s.provider, p);
    forall key | OwnTouches(rows, current.id, key) ensures Fits(rows, jobs, job, key, ProviderSet(p, key)) {
      if key !in Keys(current) {
        assert Asked(rows, s.worker, key);
      }
    }
  }

  lemma MoreJobsConverging(rows: seq<Row>, jobs: RecordJobs, job: nat, p: Provider)
    requires Renderable(rows) && Converging(rows, jobs - {job}, p)
    ensures Converging(rows, jobs, p)
  {
    forall r | r in rows && Unsettled(r, jobs - {job}) ensures Unsettled(r, jobs) {
      ExtendsOn(jobs - {job}, jobs, r.id);
    }
    forall key ensures Agrees(rows, p, key) || Covered(rows, jobs, key) {
      assert Agrees(rows, p, key) || Covered(rows, jobs - {job}, key);
    }
  }

  /** The witness of Beside after the job's own row was completed. */
  lemma BesideCompleted(rows: seq<Row>, i: nat, r: Row, jobs: RecordJobs, job: nat, key: Key)
    requires i < |rows| && IdsDistinct(rows) && job in jobs && r.id == rows[i].id == jobs[job].work.row
    requires r.key == rows[i].key && Beside(rows, jobs, key, job)
    ensures Covered(rows[i := r], jobs - {job}, key)
  {
    var after := rows[i := r];
    var q :| q in rows && Accounts(q, jobs, key, job);
    var k :| 0 <= k < |rows| && rows[k] == q;
    assert after[k] in after;
    if q.id == r.id {
      SameRow(rows, i, q);
    }
  }

  lemma CompleteConverges(rows: seq<Row>, i: nat, jobs: RecordJobs, job: nat, p: Provider)
    requires i < |rows| && IdsDistinct(rows) && Renderable(rows) && Converging(rows, jobs, p)
    requires job in jobs && rows[i].id == jobs[job].work.row && !jobs[job].work.remove && rows[i].status == Pending
    requires forall key :: Touches(rows[i], key) ==> Fits(rows, jobs, job, key, ProviderSet(p, key))
    ensures var after := rows[i := rows[i].(status := Active, synced := Some(rows[i].key))];
      Renderable(after) && Converging(after, jobs - {job}, p)
  {
    var r := rows[i].(status := Active, synced := Some(rows[i].key));
    var after := rows[i := r];
    forall key ensures Agrees(after, p, key) || Covered(after, jobs - {job}, key) {
      SetAfterReplace(rows, i, r, key, None);
      if Touches(rows[i], key) {
        assert Fits(rows, jobs, job, key, ProviderSet(p, key));
        if Beside(rows, jobs, key, job) {
          BesideCompleted(rows, i, r, jobs, job, key);
        }
      } else if !Agrees(rows, p, key) {
        assert Covered(rows, jobs, key);
        forall q | q in rows && q.id == jobs[job].work.row ensures !Touches(q, key) {
          SameRow(rows, i, q);
        }
        var q := OthersWithout(rows, jobs, job, key);
        var k :| 0 <= k < |rows| && rows[k] == q;
        assert after[k] in after;
      }
    }
  }

  lemma DeleteConverges(rows: seq<Row>, i: nat, jobs: RecordJobs, job: nat, p: Provider)
    requires i < |rows| && IdsDistinct(rows) && Renderable(rows) && Converging(rows, jobs, p)
    requires job in jobs && rows[i].id == jobs[job].work.row && jobs[job].work.remove
    requires forall key :: Touches(rows[i], key) ==> Fits(rows, jobs, job, key, ProviderSet(p, key))
    ensures var after := rows[..i] + rows[i + 1..];
      Renderable(after) && Converging(after, jobs - {job}, p)
  {
    var after := rows[..i] + rows[i + 1..];
    forall q | q in rows && q.id != rows[i].id ensures q in after {
      var k :| 0 <= k < |rows| && rows[k] == q;
      assert q == after[if k < i then k else k - 1];
    }
    forall q | q in rows && q.id == jobs[job].work.row ensures q == rows[i] {
      SameRow(rows, i, q);
    }
    assert Renderable(after);
    forall key ensures Agrees(after, p, key) || Covered(after, jobs - {job}, key) {
      SetAfterDelete(rows, i, key);
      if Touches(rows[i], key) {
        assert Fits(rows, jobs, job, key, ProviderSet(p, key));
      } else {
        SkipOtherKey(rows, i, key);
        if !Agrees(rows, p, key) {
          assert Covered(rows, jobs, key);
          var q := OthersWithout(rows, jobs, job, key);
        }
      }
    }
  }

  lemma DeletingWithout(rows: seq<Row>, after: seq<Row>, jobs: RecordJobs, job: nat)
    requires job in jobs && DeletingOk(rows, jobs)
    requires forall q :: q in after ==> (q in rows && q.id != jobs[job].work.row) || q.status != Deleting
    ensures DeletingOk(after, jobs - {job}) && DeletingOk(after, jobs)
  {
    forall q | q in after && q.status == Deleting && SyncOn(jobs - {job}, q.id) ensures RemoveOn(jobs - {job}, q.id) {
      OnWithout(jobs, job, q.id);
    }
  }

  lemma ErrorOutcome(rows: seq<Row>, i: nat, jobs: RecordJobs, job: nat, p: Provider)
    requires i < |rows| && IdsDistinct(rows) && Renderable(rows) && Renderable(rows[i := rows[i].(status := Error)])
    requires job in jobs && jobs[job].work.row == rows[i].id && Converging(rows, jobs, p) && DeletingOk(rows, jobs)
    ensures var after := rows[i := rows[i].(status := Error)];
      Converging(after, jobs, p) && DeletingOk(after, jobs) && ErrorLeft(after, jobs, job)
  {
    var r := rows[i].(status := Error);
    ReplaceConverges(rows, i, r, jobs, jobs, p);
    StatusDeleting(rows, i, r, jobs);
    ReplacedRows(rows, i, r);
  }

  lemma DeleteOutcome(rows: seq<Row>, i: nat, jobs: RecordJobs, job: nat, p: Provider)
    requires i < |rows| && IdsDistinct(rows) && Renderable(rows) && Converging(rows, jobs, p) && DeletingOk(rows, jobs)
    requires job in jobs && rows[i].id == jobs[job].work.row && jobs[job].work.remove
    requires forall key :: Touches(rows[i], key) ==> Fits(rows, jobs, job, key, ProviderSet(p, key))
    ensures var after := rows[..i] + rows[i + 1..];
      && Renderable(after)
      && Converging(after, jobs, p) && DeletingOk(after, jobs)
      && Converging(after, jobs - {job}, p) && DeletingOk(after, jobs - {job})
  {
    var after := rows[..i] + rows[i + 1..];
    DeleteConverges(rows, i, jobs, job, p);
    MoreJobsConverging(after, jobs, job, p);
    DeletedRows(rows, i);
    DeletingWithout(rows, after, jobs, job);
  }

  lemma CompleteOutcome(rows: seq<Row>, i: nat, jobs: RecordJobs, job: nat, p: Provider)
    requires i < |rows| && IdsDistinct(rows) && Renderable(rows) && Converging(rows, jobs, p) && DeletingOk(rows, jobs)
    requires job in jobs && rows[i].id == jobs[job].work.row && !jobs[job].work.remove && rows[i].status == Pending
    requires forall key :: Touches(rows[i], key) ==> Fits(rows, jobs, job, key, ProviderSet(p, key))
    ensures var after := rows[i := rows[i].(status := Active, synced := Some(rows[i].key))];
      && Renderable(after)
      && Converging(after, jobs, p) && DeletingOk(after, jobs)
      && Converging(after, jobs - {job}, p) && DeletingOk(after, jobs - {job})
  {
    var after := rows[i := rows[i].(status := Active, synced := Some(rows[i].key))];
    CompleteConverges(rows, i, jobs, job, p);
    MoreJobsConverging(after, jobs, job, p);
    ReplacedRows(rows, i, after[i]);
    DeletingWithout(rows, after, jobs, job);
  }

  /** The state after the handler's last write, from what that write did to the rows. */
  lemma DoneKeeps(s: State, zone: string, after: seq<Row>)
    requires Inv(s, zone) && s.worker.Patched? && ZoneOk(after, zone) && Renderable(after)
    requires Converging(after, s.tables.jobs, s.provider) && DeletingOk(after, s.tables.jobs)
    requires s.worker.ok ==>
      Converging(after, s.tables.jobs - {s.worker.job}, s.provider) && DeletingOk(after, s.tables.jobs - {s.worker.job})
    requires !s.worker.ok ==> ErrorLeft(after, s.tables.jobs, s.worker.job)
    ensures Inv(s.(tables := s.tables.(rows := after), worker := Done(s.worker.job, s.worker.ok, true)), zone)
  {
  }

  lemma OutcomeRowsOk(rows: seq<Row>, jobs: RecordJobs, job: nat, current: Row, ok: bool, p: Provider)
    requires IdsDistinct(rows) && Renderable(rows) && job in jobs && Renderable(OutcomeRows(rows, jobs[job], ok))
    requires Converging(rows, jobs, p) && DeletingOk(rows, jobs)
    requires current.id == jobs[job].work.row && Standing(rows, current, !jobs[job].work.remove)
    requires ok ==> AskedOk(rows, jobs, Patched(job, current, ok), p)
    ensures var after := OutcomeRows(rows, jobs[job], ok);
      && Converging(after, jobs, p) && DeletingOk(after, jobs)
      && (ok ==> Converging(after, jobs - {job}, p) && DeletingOk(after, jobs - {job}))
      && (!ok ==> ErrorLeft(after, jobs, job))
  {
    var j := jobs[job];
    var i := OwnRow(rows, current, !j.work.remove);
    if ok {
      forall key | Touches(rows[i], key) ensures Fits(rows, jobs, job, key, ProviderSet(p, key)) {
        assert Asked(rows, Patched(job, current, ok), key);
      }
    }
    if !ok {
      ErrorOutcome(rows, i, jobs, job, p);
    } else if j.work.remove {
      DeleteOutcome(rows, i, jobs, job, p);
    } else {
      CompleteOutcome(rows, i, jobs, job, p);
    }
  }

  lemma OutcomeKeeps(s: State, zone: string)
    requires Inv(s, zone) && s.worker.Patched?
    ensures Inv(s.(tables := s.tables.(rows := OutcomeRows(s.tables.rows, JobOf(s), s.worker.ok)),
                   worker := Done(s.worker.job, s.worker.ok, true)), zone)
  {
    var after := OutcomeRows(s.tables.rows, JobOf(s), s.worker.ok);
    OutcomeKeepsZone(s.tables.rows, JobOf(s), s.worker.ok, zone);
    NormalRenderable(after, zone);
    OutcomeRowsOk(s.tables.rows, s.tables.jobs, s.worker.job, s.worker.current, s.worker.ok, s.provider);
    DoneKeeps(s, zone, after);
  }

  lemma DeletedRows(rows: seq<Row>, i: nat)
    requires i < |rows| && IdsDistinct(rows)
    ensures forall q :: q in rows[..i] + rows[i + 1..] ==> q in rows && q.id != rows[i].id
  {
    var after := rows[..i] + rows[i + 1..];
    forall q | q in after ensures q in rows && q.id != rows[i].id {
      var k :| 0 <= k < |after| && after[k] == q;
      assert q == rows[if k < i then k else k + 1];
    }
  }

  lemma WithoutIsClosed(jobs: RecordJobs, job: nat, j: RecordJob)
    requires job in jobs && !Unfinished(j)
    ensures SameOpen(jobs - {job}, jobs[job := j])
  {
  }

  /** With an idle worker only the tables and the provider matter. */
  lemma IdleKeeps(s: State, zone: string, jobs: RecordJobs)
    requires Inv(s, zone)
    requires Converging(s.tables.rows, jobs, s.provider) && DeletingOk(s.tables.rows, jobs)
    ensures Inv(s.(tables := s.tables.(jobs := jobs), worker := Idle), zone)
  {
  }

  lemma RequeueKeeps(s: State, zone: string, j: RecordJob)
    requires Inv(s, zone) && HasJob(s) && Unfinished(JobOf(s)) && Unfinished(j) && j.work == JobOf(s).work
    ensures Inv(s.(tables := SetJob(s.tables, s.worker.job, j), worker := Idle), zone)
  {
    SameOpenKeeps(s.tables.rows, s.tables.jobs, s.tables.jobs[s.worker.job := j], s.provider);
    IdleKeeps(s, zone, s.tables.jobs[s.worker.job := j]);
  }

  /** A job may be closed when the tables without it still account for every key. */
  lemma CloseJobKeeps(s: State, zone: string, j: RecordJob)
    requires Inv(s, zone) && HasJob(s) && !Unfinished(j)
    requires Converging(s.tables.rows, s.tables.jobs - {s.worker.job}, s.provider)
    requires DeletingOk(s.tables.rows, s.tables.jobs - {s.worker.job})
    ensures Inv(s.(tables := SetJob(s.tables, s.worker.job, j), worker := Idle), zone)
  {
    WithoutIsClosed(s.tables.jobs, s.worker.job, j);
    SameOpenKeeps(s.tables.rows, s.tables.jobs - {s.worker.job}, s.tables.jobs[s.worker.job := j], s.provider);
    IdleKeeps(s, zone, s.tables.jobs[s.worker.job := j]);
  }

  lemma ErrorLeftMayClose(t: Tables, job: nat)
    requires job in t.jobs && ErrorLeft(t.rows, t.jobs, job) && DeletingOk(t.rows, t.jobs)
    ensures MayClose(t, job)
  {
    forall r | r in t.rows && r.status == Deleting && SyncOn(t.jobs - {job}, r.id) ensures RemoveOn(t.jobs - {job}, r.id) {
      if r.id != t.jobs[job].work.row {
        OnWithout(t.jobs, job, r.id);
      }
    }
  }

  lemma SettleKeeps(s: State, zone: string)
    requires Inv(s, zone) && s.worker.Done? && Guarded(s, zone, SettleJob(true))
    ensures Inv(Next(s, zone, SettleJob(true)), zone)
  {
    var j := Settle(JobOf(s), s.worker.ok);
    assert Next(s, zone, SettleJob(true)) == s.(tables := SetJob(s.tables, s.worker.job, j), worker := Idle);
    if Unfinished(j) {
      RequeueKeeps(s, zone, j);
    } else {
      if !s.worker.ok {
        if s.worker.recorded {
          ErrorLeftMayClose(s.tables, s.worker.job);
        }
        HeldConverges(s.tables.rows, s.tables.jobs, s.worker.job, s.provider);
      }
      CloseJobKeeps(s, zone, j);
    }
  }

  lemma DropKeeps(s: State, zone: string)
    requires Inv(s, zone) && s.worker.Claimed? && Guarded(s, zone, DropJob(true))
    ensures Inv(Next(s, zone, DropJob(true)), zone)
  {
    HeldConverges(s.tables.rows, s.tables.jobs, s.worker.job, s.provider);
    CloseJobKeeps(s, zone, Drop(JobOf(s)));
  }

  lemma ReadKeeps(s: State, zone: string, i: nat)
    requires Inv(s, zone) && s.worker.Claimed? && FindRow(s.tables.rows, JobOf(s).work.row) == Some(i)
    ensures Inv(s.(worker := Read(s.worker.job, s.tables.rows[i])), zone)
  {
    var rows, current := s.tables.rows, s.tables.rows[i];
    assert current in rows && Stands(current, current, false);
    var n := OwnRow(rows, current, false);
    var w := Read(s.worker.job, current);
    assert forall key :: !Asked(rows, w, key);
  }

  lemma RequestKeeps(s: State, zone: string, step: Step)
    requires Inv(s, zone) && Guarded(s, zone, step)
    requires step.CreateRequest? || step.UpdateRequest? || step.DeleteRequest?
    ensures Inv(Next(s, zone, step), zone)
  {
    var rows, jobs, after := s.tables.rows, s.tables.jobs, Next(s, zone, step).tables;
    NextKeepsZone(s, zone, step);
    match step
    case CreateRequest(id, job, v, active) =>
      if Create(s.tables, id, job, v, zone, active).ok {
        AppendKeeps(s, zone, RowFrom(id, v, None), job, after.jobs);
      }
    case UpdateRequest(id, job, v, active) =>
      if Update(s.tables, id, job, v, zone, active).ok {
        var i := FindRow(rows, id).value;
        assert rows[i] in rows;
        ReplaceKeeps(s, zone, i, RowFrom(id, v, rows[i].synced), job, after.jobs);
      }
    case DeleteRequest(id, job, active) =>
      if Remove(s.tables, id, job, active).ok {
        var i := FindRow(rows, id).value;
        ReplaceKeeps(s, zone, i, rows[i].(status := Deleting), job, after.jobs);
      }
  }

  lemma ClaimKeeps(s: State, zone: string, job: nat)
    requires Inv(s, zone)
    ensures Inv(Next(s, zone, ClaimJob(job)), zone)
  {
    SameOpenKeeps(s.tables.rows, s.tables.jobs, Next(s, zone, ClaimJob(job)).tables.jobs, s.provider);
  }

  lemma CrashKeeps(s: State, zone: string)
    requires Inv(s, zone)
    ensures Inv(Next(s, zone, Crash), zone)
  {
    SameOpenKeeps(s.tables.rows, s.tables.jobs, RecoverAll(s.tables.jobs), s.provider);
  }

  lemma HandlerKeeps(s: State, zone: string, step: Step)
    requires Inv(s, zone) && (step.ReadRecord? || step.ListRows? || step.MarkPending? || step.SendPatch? || step.RecordOutcome?)
    ensures Inv(Next(s, zone, step), zone)
  {
    match step
    case ReadRecord =>
      if s.worker.Claimed? && FindRow(s.tables.rows, JobOf(s).work.row).Some? {
        ReadKeeps(s, zone, FindRow(s.tables.rows, JobOf(s).work.row).value);
      }
    case ListRows(listing) =>
      if s.worker.Read? && multiset(listing) == multiset(s.tables.rows) { ListKeeps(s, zone, listing); }
    case MarkPending(written) => if s.worker.Listed? && !JobOf(s).work.remove && written { MarkKeeps(s, zone); }
    case SendPatch(reached, answered) =>
      if s.worker.Marked? && reached && SetsAccepted(Sets(s), zone) { PatchKeeps(s, zone, answered); }
    case RecordOutcome(written) => if s.worker.Patched? && written { OutcomeKeeps(s, zone); }
  }

  lemma NextKeeps(s: State, zone: string, step: Step)
    requires Inv(s, zone) && Guarded(s, zone, step)
    ensures Inv(Next(s, zone, step), zone)
  {
    match step
    case CreateRequest(_, _, _, _) => RequestKeeps(s, zone, step);
    case UpdateRequest(_, _, _, _) => RequestKeeps(s, zone, step);
    case DeleteRequest(_, _, _) => RequestKeeps(s, zone, step);
    case ClaimJob(job) => ClaimKeeps(s, zone, job);
    case DropJob(written) => if written && s.worker.Claimed? { DropKeeps(s, zone); }
    case ReadFails =>
    case SettleJob(written) => if s.worker.Done? && written { SettleKeeps(s, zone); }
    case Crash => CrashKeeps(s, zone);
    case _ => HandlerKeeps(s, zone, step);
  }
}
