/** The guards of the record runs are exact: which renames and which closed jobs the invariant survives, at every stage. */
module DnsGuards {
  import opened Jobs
  import opened Options
  import opened DnsZone
  import opened DnsSync
  import opened DnsConverge

  // ---- Providers that tell good from bad ----

  lemma PatchedAt(p: Provider, set_: RecordSet, key: Key)
    requires set_.records != []
    ensures ProviderSet(PatchOne(p, set_), key) == if key == set_.key then set_ else ProviderSet(p, key)
  {
  }

  lemma OtherRendersDifferently(rows: seq<Row>, i: nat, q: Row, zone: string)
    requires i < |rows| && ZoneRules(rows) && AllNormal(rows, zone) && Renderable(rows)
    requires q in rows && q.id != rows[i].id && q.key == rows[i].key
    ensures q.priority >= 0 && Render(ValueOf(q)) != Render(ValueOf(rows[i]))
  {
    var k :| 0 <= k < |rows| && rows[k] == q;
    assert i < k ==> Compatible(ValueOf(rows[i]), ValueOf(rows[k]));
    assert k < i ==> Compatible(ValueOf(rows[k]), ValueOf(rows[i]));
    if Render(ValueOf(q)) == Render(ValueOf(rows[i])) {
      RenderInjective(ValueOf(rows[i]), ValueOf(q), zone);
    }
  }

  /** A renamed row leaves its old record set, so whoever holds the old set no longer holds the right one. */
  lemma RenameChangesSet(rows: seq<Row>, i: nat, r: Row, skip: Option<nat>, zone: string)
    requires i < |rows| && IdsDistinct(rows) && ZoneRules(rows) && AllNormal(rows, zone)
    requires Renderable(rows) && Renderable(rows[i := r])
    requires r.id == rows[i].id && r.key != rows[i].key && rows[i].status != Deleting && skip != Some(r.id)
    ensures SetOf(rows[i := r], rows[i].key, skip) != SetOf(rows, rows[i].key, skip)
    ensures SetOf(rows, rows[i].key, skip).records != []
  {
    var key, text := rows[i].key, Render(ValueOf(rows[i]));
    assert rows[i] in rows && Live(rows[i], key, skip);
    SortedMembers(rows, key, skip, text);
    SortedMembers(rows[i := r], key, skip, text);
    ReplacedRows(rows, i, r);
    forall q | q in rows[i := r] && Live(q, key, skip) ensures Render(ValueOf(q)) != text {
      OtherRendersDifferently(rows, i, q, zone);
    }
  }

  /** Giving the provider another set for one key keeps the invariant when every clause about that key still holds. */
  lemma InvPatched(s: State, zone: string, set_: RecordSet)
    requires Inv(s, zone) && set_.records != []
    requires set_ == SetOf(s.tables.rows, set_.key, None)
      || (Covered(s.tables.rows, s.tables.jobs, set_.key) && !(s.worker.Done? && s.worker.ok))
    requires Asked(s.tables.rows, s.worker, set_.key) && HasJob(s) ==> set_ == SetOf(s.tables.rows, set_.key, Skip(JobOf(s)))
    ensures Inv(s.(provider := PatchOne(s.provider, set_)), zone)
  {
    var rows, jobs, p := s.tables.rows, s.tables.jobs, PatchOne(s.provider, set_);
    forall key ensures ProviderSet(p, key) == if key == set_.key then set_ else ProviderSet(s.provider, key) {
      PatchedAt(s.provider, set_, key);
    }
    assert Converging(rows, jobs, p) by {
      forall key ensures Agrees(rows, p, key) || Covered(rows, jobs, key) {
        assert Agrees(rows, s.provider, key) || Covered(rows, jobs, key);
      }
    }
    if s.worker.Done? && s.worker.ok {
      forall key ensures Agrees(rows, p, key) || Covered(rows, jobs - {s.worker.job}, key) {
        assert Agrees(rows, s.provider, key) || Covered(rows, jobs - {s.worker.job}, key);
      }
    }
    if !s.worker.Idle? {
      forall key | Asked(rows, s.worker, key) ensures Fits(rows, jobs, s.worker.job, key, ProviderSet(p, key)) {
        assert Fits(rows, jobs, s.worker.job, key, ProviderSet(s.provider, key));
      }
    }
  }

  // ---- Exactly which renames are safe ----

  /** The update keeps the invariant whatever the provider holds. */
  ghost predicate AlwaysSafe(t: Tables, w: Worker, zone: string, id: nat, job: nat, v: Value) {
    forall p: Provider :: Inv(State(t, w, p), zone) ==> Inv(State(Update(t, id, job, v, zone, true).tables, w, p), zone)
  }

  /** An accepted rename: row i of the table becomes r, and its job is queued. */
  ghost predicate Renaming(s: State, zone: string, i: nat, r: Row, b: RecordJobs, added: nat) {
    && Inv(s, zone) && RequestRow(s.tables.rows, i, r) && r.key != s.tables.rows[i].key
    && Enqueued(s.tables.jobs, b, added, r)
    && ZoneOk(s.tables.rows[i := r], zone) && Renderable(s.tables.rows[i := r])
  }

  /** Who vouches for the old key before the rename: the job's own row with the key it read, or another row still touching it. */
  lemma AskedBefore(s: State, zone: string, i: nat, r: Row, b: RecordJobs, added: nat)
    requires Renaming(s, zone, i, r, b, added) && Asked(s.tables.rows, s.worker, s.tables.rows[i].key)
    ensures HasJob(s) && s.worker.current.id == JobOf(s).work.row
    ensures s.worker.current.id == r.id ==> s.worker.Patched? && s.worker.ok
    ensures s.worker.current.id != r.id ==> Covered(s.tables.rows[i := r], b, s.tables.rows[i].key)
  {
    var rows, a, w, key := s.tables.rows, s.tables.jobs, s.worker, s.tables.rows[i].key;
    var n := OwnRow(rows, w.current, false);
    if n == i {
      assert w.current.key == key;
    } else {
      assert rows[i := r][n] in rows[i := r] && rows[n].id != r.id;
      assert w.job in b && b[w.job] == a[w.job];
      assert JobOn(b, rows[n].id);
    }
  }

  /** A key that nothing open touches after the rename: a provider that served it exactly now serves it wrongly. */
  lemma UncoveredDiverges(s: State, zone: string, i: nat, r: Row, b: RecordJobs, added: nat)
    requires Renaming(s, zone, i, r, b, added)
    requires !Covered(s.tables.rows[i := r], b, s.tables.rows[i].key) && !Erases(b, s.worker, r.id)
    ensures var p := PatchOne(s.provider, SetOf(s.tables.rows, s.tables.rows[i].key, None));
      Inv(s.(provider := p), zone) && !Inv(State(Tables(s.tables.rows[i := r], b), s.worker, p), zone)
  {
    var rows, key := s.tables.rows, s.tables.rows[i].key;
    RenameChangesSet(rows, i, r, None, zone);
    if Asked(rows, s.worker, key) {
      AskedBefore(s, zone, i, r, b, added);
      assert Skip(JobOf(s)) == None;
    }
    InvPatched(s, zone, SetOf(rows, key, None));
    PatchedAt(s.provider, SetOf(rows, key, None), key);
    assert !Agrees(rows[i := r], PatchOne(s.provider, SetOf(rows, key, None)), key);
  }

  /** The same when only the finished job kept the key covered. */
  lemma DoneDiverges(s: State, zone: string, i: nat, r: Row, b: RecordJobs, added: nat)
    requires Renaming(s, zone, i, r, b, added) && s.worker.Done? && s.worker.ok
    requires !Covered(s.tables.rows[i := r], b - {s.worker.job}, s.tables.rows[i].key)
    ensures var p := PatchOne(s.provider, SetOf(s.tables.rows, s.tables.rows[i].key, None));
      Inv(s.(provider := p), zone) && !Inv(State(Tables(s.tables.rows[i := r], b), s.worker, p), zone)
  {
    var rows, key := s.tables.rows, s.tables.rows[i].key;
    RenameChangesSet(rows, i, r, None, zone);
    InvPatched(s, zone, SetOf(rows, key, None));
    PatchedAt(s.provider, SetOf(rows, key, None), key);
    var p := PatchOne(s.provider, SetOf(rows, key, None));
    assert !Agrees(rows[i := r], p, key);
    assert !Converging(rows[i := r], b - {s.worker.job}, p);
  }

  /** The job in hand vouches for the old key of another row, and nothing beside it accounts for the change. */
  lemma AskedDiverges(s: State, zone: string, i: nat, r: Row, b: RecordJobs, added: nat)
    requires Renaming(s, zone, i, r, b, added) && HasJob(s)
    requires Asked(s.tables.rows[i := r], s.worker, s.tables.rows[i].key)
    requires !Beside(s.tables.rows[i := r], b, s.tables.rows[i].key, s.worker.job) && !Erases(b, s.worker, r.id)
    ensures var p := PatchOne(s.provider, SetOf(s.tables.rows, s.tables.rows[i].key, Skip(JobOf(s))));
      Inv(s.(provider := p), zone) && !Inv(State(Tables(s.tables.rows[i := r], b), s.worker, p), zone)
  {
    var rows, after, w, key, skip := s.tables.rows, s.tables.rows[i := r], s.worker, s.tables.rows[i].key, Skip(JobOf(s));
    var n := OwnRow(rows, w.current, false);
    ReplacedRows(rows, i, r);
    assert rows[n] in rows && n != i;
    assert Touches(rows[n], key) && JobOn(s.tables.jobs, rows[n].id);
    assert skip != Some(r.id);
    RenameChangesSet(rows, i, r, skip, zone);
    InvPatched(s, zone, SetOf(rows, key, skip));
    PatchedAt(s.provider, SetOf(rows, key, skip), key);
    assert !Fits(after, b, w.job, key, ProviderSet(PatchOne(s.provider, SetOf(rows, key, skip)), key));
  }

  lemma UnheldIsUnsafe(s: State, zone: string, i: nat, r: Row, b: RecordJobs, added: nat) returns (p: Provider)
    requires Renaming(s, zone, i, r, b, added) && !MayReplace(s.tables.rows, i, r, b, s.worker)
    ensures Inv(s.(provider := p), zone) && !Inv(State(Tables(s.tables.rows[i := r], b), s.worker, p), zone)
  {
    var rows, w, key := s.tables.rows, s.worker, s.tables.rows[i].key;
    if !Covered(rows[i := r], b, key) && !Erases(b, w, r.id) {
      UncoveredDiverges(s, zone, i, r, b, added);
      p := PatchOne(s.provider, SetOf(rows, key, None));
    } else if w.Done? {
      DoneDiverges(s, zone, i, r, b, added);
      p := PatchOne(s.provider, SetOf(rows, key, None));
    } else if Sends(w, key) && !Fits(rows[i := r], b, w.job, key, SetOf(w.listing, key, Skip(b[w.job]))) {
      p := s.provider;
      assert s.(provider := p) == s;
    } else {
      AskedDiverges(s, zone, i, r, b, added);
      p := PatchOne(s.provider, SetOf(rows, key, Skip(JobOf(s))));
    }
  }

  /**
   * At every stage of the worker: an accepted update keeps the invariant whatever the provider holds exactly when the
   * key stays the same or the old one stays accounted for. Otherwise some provider is left with a stale record set.
   */
  lemma UpdateSafeExactly(s: State, zone: string, id: nat, job: nat, v: Value)
    requires Inv(s, zone) && Update(s.tables, id, job, v, zone, true).ok
    ensures AlwaysSafe(s.tables, s.worker, zone, id, job, v) <==> MayUpdate(s, zone, id, job, v, true)
  {
    var t, w := s.tables, s.worker;
    if MayUpdate(s, zone, id, job, v, true) {
      forall p: Provider | Inv(State(t, w, p), zone) ensures Inv(State(Update(t, id, job, v, zone, true).tables, w, p), zone) {
        NextKeeps(State(t, w, p), zone, UpdateRequest(id, job, v, true));
      }
    } else {
      var i := FindRow(t.rows, id).value;
      var r := RowFrom(id, v, t.rows[i].synced);
      ReplaceKeepsZone(t.rows, i, r, zone);
      NormalRenderable(t.rows[i := r], zone);
      var p := UnheldIsUnsafe(s, zone, i, r, QueueJob(t.jobs, job, id, false), job);
      assert Inv(State(t, w, p), zone);
    }
  }

  ghost predicate OthersAccount(rows: seq<Row>, jobs: RecordJobs, row: Row) {
    exists q :: q in rows && q.id != row.id && Touches(q, row.key) && Unsettled(q, jobs)
  }

  /** What a caller sees when no job is in hand: same key, or the old key was synced, or another open row has it. */
  ghost predicate KeyAccounted(t: Tables, row: Row, v: Value) {
    row.key == v.key || row.synced == Some(row.key) || OthersAccount(t.rows, t.jobs, row)
  }

  /** In the table after the rename the old key is covered by the row itself, or by who covered it before. */
  lemma CoveredAfter(rows: seq<Row>, i: nat, r: Row, a: RecordJobs, b: RecordJobs, added: nat)
    requires i < |rows| && IdsDistinct(rows) && r.id == rows[i].id && r.synced == rows[i].synced && r.key != rows[i].key
    requires Enqueued(a, b, added, r)
    ensures Covered(rows[i := r], b, rows[i].key) <==> rows[i].synced == Some(rows[i].key) || OthersAccount(rows, a, rows[i])
  {
    var after, key := rows[i := r], rows[i].key;
    ReplacedRows(rows, i, r);
    assert after[i] in after;
    if OthersAccount(rows, a, rows[i]) {
      var q :| q in rows && q.id != r.id && Touches(q, key) && Unsettled(q, a);
      var k :| 0 <= k < |rows| && rows[k] == q;
      assert after[k] in after;
      ExtendsOn(a, b, q.id);
    }
    if Covered(after, b, key) && rows[i].synced != Some(key) {
      var q :| q in after && Touches(q, key) && Unsettled(q, b);
      assert q.id != r.id && Unsettled(q, a);
    }
  }

  /** With no record job past its claim the condition is about the table alone. */
  lemma IdleExactly(s: State, zone: string, id: nat, job: nat, v: Value)
    requires IdsDistinct(s.tables.rows) && Update(s.tables, id, job, v, zone, true).ok && (s.worker.Idle? || s.worker.Claimed?)
    ensures MayUpdate(s, zone, id, job, v, true) <==> KeyAccounted(s.tables, s.tables.rows[FindRow(s.tables.rows, id).value], v)
  {
    var rows, a := s.tables.rows, s.tables.jobs;
    var i := FindRow(rows, id).value;
    if rows[i].key != v.key {
      CoveredAfter(rows, i, RowFrom(id, v, rows[i].synced), a, QueueJob(a, job, id, false), job);
    }
  }

  /** The renamed row keeps touching its old name, and so accounts for it beside a job on another row. */
  lemma SyncedElsewhere(rows: seq<Row>, i: nat, r: Row, a: RecordJobs, b: RecordJobs, added: nat, w: Worker)
    requires i < |rows| && r.synced == Some(rows[i].key) && r.status == Pending && Enqueued(a, b, added, r)
    requires !w.Idle? ==> w.job in a
    requires InHand(w) ==> w.current.id == a[w.job].work.row != r.id
    ensures OldKeyHeld(rows[i := r], b, w, r.id, rows[i].key)
  {
    var after, key := rows[i := r], rows[i].key;
    assert after[i] in after && Touches(r, key) && Unsettled(r, b);
    if InHand(w) {
      assert Accounts(r, b, key, w.job);
    }
  }

  lemma SyncedOwn(s: State, zone: string, i: nat, r: Row, b: RecordJobs, added: nat)
    requires Inv(s, zone) && RequestRow(s.tables.rows, i, r) && r.status == Pending && r.key != s.tables.rows[i].key
    requires Enqueued(s.tables.jobs, b, added, r) && Renderable(s.tables.rows[i := r])
    requires r.synced == Some(s.tables.rows[i].key) && InHand(s.worker) && s.worker.current.id == r.id
    requires s.worker.Listed? ==> JobOf(s).work.remove
    ensures OldKeyHeld(s.tables.rows[i := r], b, s.worker, r.id, s.tables.rows[i].key)
  {
    var rows, a, w, key := s.tables.rows, s.tables.jobs, s.worker, s.tables.rows[i].key;
    var after := rows[i := r];
    assert after[i] in after && Touches(r, key) && Unsettled(r, b);
    var n := OwnRow(rows, w.current, (w.Marked? || w.Patched?) && !a[w.job].work.remove);
    assert n == i && w.current.key == key;
    if Sends(w, key) {
      FitsReplaceOwn(rows, i, r, a, b, w.job, key, SetOf(w.listing, key, Skip(a[w.job])));
    }
  }

  /** A row whose name the provider had accepted may be renamed at every stage but one: while its own sync has its listing. */
  lemma SyncedRenameIsSafe(s: State, zone: string, id: nat, job: nat, v: Value)
    requires Inv(s, zone) && Update(s.tables, id, job, v, zone, true).ok
    requires var row := s.tables.rows[FindRow(s.tables.rows, id).value]; row.synced == Some(row.key)
    requires s.worker.Listed? && s.worker.current.id == id ==> JobOf(s).work.remove
    ensures MayUpdate(s, zone, id, job, v, true)
  {
    var rows, w := s.tables.rows, s.worker;
    var i := FindRow(rows, id).value;
    var r, b := RowFrom(id, v, rows[i].synced), QueueJob(s.tables.jobs, job, id, false);
    if r.key != rows[i].key {
      if InHand(w) && w.current.id == id {
        ReplaceKeepsZone(rows, i, r, zone);
        NormalRenderable(rows[i := r], zone);
        SyncedOwn(s, zone, i, r, b, job);
      } else {
        SyncedElsewhere(rows, i, r, s.tables.jobs, b, job, w);
      }
    }
  }

  // ---- Exactly which jobs may be closed ----

  /** The provider that serves the table as it stands. */
  ghost function Exact(rows: seq<Row>): Provider
    requires Renderable(rows)
  {
    map k | k in (set r | r in rows :: r.key) :: SetOf(rows, k, None)
  }

  lemma ExactAgrees(rows: seq<Row>, zone: string)
    requires ZoneOk(rows, zone) && Renderable(rows)
    ensures forall key :: Agrees(rows, Exact(rows), key)
  {
    forall key ensures Agrees(rows, Exact(rows), key) {
      if key !in Exact(rows) {
        forall r | r in rows ensures !Live(r, key, None) {
        }
        NothingLive(rows, key, None);
        SetTtl(rows, key, None, zone);
      }
    }
  }

  /** The provider that serves the table except for one record too many under the key. */
  ghost function Astray(rows: seq<Row>, key: Key): Provider
    requires Renderable(rows)
  {
    PatchOne(Exact(rows), RecordSet(key, 0, SetOf(rows, key, None).records + [""]))
  }

  lemma AstrayDisagrees(rows: seq<Row>, zone: string, key: Key, other: Key)
    requires ZoneOk(rows, zone) && Renderable(rows)
    ensures Agrees(rows, Astray(rows, key), other) <==> other != key
  {
    ExactAgrees(rows, zone);
    assert Agrees(rows, Exact(rows), other);
    PatchedAt(Exact(rows), RecordSet(key, 0, SetOf(rows, key, None).records + [""]), other);
  }

  ghost predicate ClosingIsSafe(rows: seq<Row>, jobs: RecordJobs, job: nat)
    requires Renderable(rows)
  {
    forall p: Provider :: Converging(rows, jobs, p) ==> Converging(rows, jobs - {job}, p)
  }

  lemma UnheldCloseDiverges(rows: seq<Row>, jobs: RecordJobs, job: nat, zone: string, key: Key)
    requires ZoneOk(rows, zone) && Renderable(rows) && job in jobs && Unfinished(jobs[job])
    requires OwnTouches(rows, jobs[job].work.row, key) && !Covered(rows, jobs - {job}, key)
    ensures Converging(rows, jobs, Astray(rows, key)) && !Converging(rows, jobs - {job}, Astray(rows, key))
  {
    var r :| r in rows && r.id == jobs[job].work.row && Touches(r, key);
    assert JobOn(jobs, r.id);
    forall other ensures Agrees(rows, Astray(rows, key), other) <==> other != key {
      AstrayDisagrees(rows, zone, key, other);
    }
  }

  /**
   * Whatever the provider holds, the table without the job still accounts for every difference exactly when every key
   * of the job's row is touched by a row that is open without it.
   */
  lemma CloseSafeExactly(rows: seq<Row>, jobs: RecordJobs, job: nat, zone: string)
    requires ZoneOk(rows, zone) && Renderable(rows) && job in jobs && Unfinished(jobs[job])
    ensures ClosingIsSafe(rows, jobs, job) <==> KeysHeld(rows, jobs, job)
  {
    if KeysHeld(rows, jobs, job) {
      forall p: Provider | Converging(rows, jobs, p) ensures Converging(rows, jobs - {job}, p) {
        HeldConverges(rows, jobs, job, p);
      }
    } else {
      var key :| OwnTouches(rows, jobs[job].work.row, key) && !Covered(rows, jobs - {job}, key);
      UnheldCloseDiverges(rows, jobs, job, zone, key);
    }
  }

  /** The steps that close a job as failed without its handler having recorded anything. */
  ghost predicate ClosesUnrecorded(s: State, step: Step) {
    && HasJob(s)
    && ((s.worker.Claimed? && step == DropJob(true))
        || (s.worker.Done? && !s.worker.ok && !s.worker.recorded && step == SettleJob(true) && !Unfinished(Settle(JobOf(s), false))))
  }

  lemma ClosedTables(s: State, zone: string, step: Step) returns (j: RecordJob)
    requires ClosesUnrecorded(s, step)
    ensures !Unfinished(j) && Next(s, zone, step) == State(SetJob(s.tables, s.worker.job, j), Idle, s.provider)
    ensures SameOpen(s.tables.jobs[s.worker.job := j], s.tables.jobs - {s.worker.job})
  {
    j := if s.worker.Claimed? then Drop(JobOf(s)) else Settle(JobOf(s), false);
    WithoutIsClosed(s.tables.jobs, s.worker.job, j);
  }

  /** Closing such a job keeps the invariant whatever the provider holds exactly when it may be closed. */
  lemma CloseStepExactly(s: State, zone: string, step: Step)
    requires Inv(s, zone) && ClosesUnrecorded(s, step)
    ensures (forall p: Provider :: Inv(s.(provider := p), zone) ==> Inv(Next(s.(provider := p), zone, step), zone))
      <==> MayClose(s.tables, s.worker.job)
  {
    var rows, jobs, job := s.tables.rows, s.tables.jobs, s.worker.job;
    if MayClose(s.tables, job) {
      forall p: Provider | Inv(s.(provider := p), zone) ensures Inv(Next(s.(provider := p), zone, step), zone) {
        NextKeeps(s.(provider := p), zone, step);
      }
    } else {
      var p := s.provider;
      if !KeysHeld(rows, jobs, job) {
        var key :| OwnTouches(rows, jobs[job].work.row, key) && !Covered(rows, jobs - {job}, key);
        UnheldCloseDiverges(rows, jobs, job, zone, key);
        p := Astray(rows, key);
      }
      var t := s.(provider := p);
      assert Inv(t, zone);
      var j := ClosedTables(t, zone, step);
      if Inv(Next(t, zone, step), zone) {
        SameOpenKeeps(rows, jobs[job := j], jobs - {job}, p);
        assert false;
      }
    }
  }
}
