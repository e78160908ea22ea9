/** What a record request stores and what the provider is sent for it, field by field, and that a stored value stays. */
module DnsLaws {
  import opened Jobs
  import opened Options
  import opened Text
  import opened Quoting
  import opened DnsNames
  import opened DnsZone
  import opened DnsSync
  import opened DnsConverge
  import opened DnsOutcome
  import NameLaws

  // ---- Contents ----

  predicate Trimmed(s: string) {
    s == "" || (!NameLaws.Blank(s[0]) && !NameLaws.Blank(s[|s| - 1]))
  }

  /** A content without blanks at its ends: addresses and hosts as the parsers print them, a text as it is; a priority for MX only. */
  lemma ContentGiven(p: Parsers, kind: Kind, text: string, priority: int)
    requires Trimmed(text)
    ensures kind == A ==> RecordContent(p, kind, text, priority) == Zeroed(p.ip4(text))
    ensures kind == AAAA ==> RecordContent(p, kind, text, priority) == Zeroed(p.ip6(text))
    ensures kind == CNAME ==> RecordContent(p, kind, text, priority) == Zeroed(p.host(text))
    ensures kind == MX ==> RecordContent(p, kind, text, priority) == Ranked(p.host(text), priority)
    ensures kind == TXT ==> RecordContent(p, kind, text, priority) == Zeroed(if Storable(text) then Some(text) else None)
  {
    assert TrimLeft(text) == text && TrimRight(text) == text;
  }

  /** Blanks around a content do not matter. */
  lemma ContentTrimmed(p: Parsers, kind: Kind, text: string, b: char, priority: int)
    requires NameLaws.Blank(b)
    ensures RecordContent(p, kind, [b] + text, priority) == RecordContent(p, kind, text, priority)
    ensures RecordContent(p, kind, text + [b], priority) == RecordContent(p, kind, text, priority)
  {
    NameLaws.TrimSurrounded(text, b);
  }

  /** A text of at most 1000 characters on one line. */
  predicate Storable(text: string) {
    1 <= |text| <= 1000 && forall i :: 0 <= i < |text| ==> text[i] != 0 as char && text[i] != '\r' && text[i] != '\n'
  }

  function Ranked(host: Option<string>, priority: int): Option<(string, int)> {
    if host.Some? && 0 <= priority <= 65535 then Some((host.value, priority)) else None
  }

  function Zeroed(content: Option<string>): Option<(string, int)> {
    if content.None? then None else Some((content.value, 0))
  }

  /** A normalised record has the name the name rules give, the kind, TTL and content asked for, and a priority for MX only. */
  lemma NormalizeGives(p: Parsers, zone: string, name: string, kind: Kind, text: string, ttl: int, priority: int)
    requires Trimmed(text) && NormalizeRecord(p, zone, name, kind, text, ttl, priority).Some?
    ensures var v := NormalizeRecord(p, zone, name, kind, text, ttl, priority).value;
      && RecordName(name, zone) == Some(v.key.name) && v.key.kind == kind && v.ttl == ttl
      && v.priority == (if kind == MX then priority else 0)
      && (kind == A ==> p.ip4(text) == Some(v.content)) && (kind == AAAA ==> p.ip6(text) == Some(v.content))
      && (kind == CNAME || kind == MX ==> p.host(text) == Some(v.content)) && (kind == TXT ==> v.content == text)
  {
    ContentGiven(p, kind, text, priority);
  }

  /** It is refused exactly for its name, its TTL, its content, or as a CNAME at the zone's own name. */
  lemma NormalizeRefuses(p: Parsers, zone: string, name: string, kind: Kind, text: string, ttl: int, priority: int)
    ensures NormalizeRecord(p, zone, name, kind, text, ttl, priority).None? <==>
      || RecordName(name, zone).None? || ttl < 60 || ttl > 86400 || RecordContent(p, kind, text, priority).None?
      || (kind == CNAME && RecordName(name, zone) == Some(zone))
  {
  }

  // ---- What the provider is sent ----

  /** Hosts with a final dot, an MX with its priority before the host, texts quoted, addresses as they are. */
  lemma RenderForms(v: Value)
    requires v.priority >= 0
    ensures v.key.kind == A || v.key.kind == AAAA ==> Render(v) == v.content
    ensures v.key.kind == CNAME ==> Render(v) == v.content + "."
    ensures v.key.kind == MX ==> exists digits: string :: Render(v) == digits + " " + v.content + "." && Numeral(digits, v.priority)
    ensures v.key.kind == TXT ==> Render(v) == "\"" + QuoteBody(v.content) + "\""
  {
    if v.key.kind == MX {
      ValueOfDecimal(v.priority);
      NumeralOf(v.priority);
      assert Render(v) == Decimal(v.priority) + " " + v.content + ".";
    }
  }

  /** Decimal digits, most significant first. */
  predicate Numeral(digits: string, n: int) {
    && digits != "" && (forall i :: 0 <= i < |digits| ==> '0' <= digits[i] <= '9')
    && (|digits| > 1 ==> digits[0] != '0') && Worth(digits) == n
  }

  function Worth(digits: string): int {
    if digits == "" then 0 else 10 * Worth(digits[..|digits| - 1]) + (digits[|digits| - 1] as int - '0' as int)
  }

  lemma {:induction false} NumeralOf(n: nat)
    ensures Numeral(Decimal(n), n) && (n > 0 ==> Decimal(n)[0] != '0')
  {
    if n < 10 {
      assert Decimal(n)[..0] == "";
    } else {
      NumeralOf(n / 10);
      assert Decimal(n)[..|Decimal(n)| - 1] == Decimal(n / 10);
    }
  }

  lemma {:induction false} QuoteBodyParts(a: string, b: string)
    ensures QuoteBody(a + b) == QuoteBody(a) + QuoteBody(b)
  {
    if a == "" {
      assert a + b == b;
    } else {
      assert (a + b)[0] == a[0] && (a + b)[1..] == a[1..] + b;
      QuoteBodyParts(a[1..], b);
    }
  }

  /** Quotes and backslashes get a backslash, printable ASCII stays, other control characters get their escape. */
  lemma QuoteForms(c: char)
    ensures c == '"' ==> QuoteBody([c]) == "\\\""
    ensures c == '\\' ==> QuoteBody([c]) == "\\\\"
    ensures ' ' <= c <= '~' && c != '"' && c != '\\' ==> QuoteBody([c]) == [c]
    ensures c == '\t' ==> QuoteBody([c]) == "\\t"
    ensures c == 1 as char ==> QuoteBody([c]) == "\\x01"
    ensures c == 31 as char ==> QuoteBody([c]) == "\\x1f"
    ensures c == 127 as char ==> QuoteBody([c]) == "\\x7f"
  {
    assert [c][1..] == "";
    assert QuoteBody([c]) == QuoteChar(c) + "";
  }

  // ---- The rules of a zone, row by row ----

  /** No two rows of one name are equal, a CNAME is alone at its name, and rows of one name and kind share their TTL. */
  ghost predicate Coexist(r: Row, q: Row) {
    r.key.name == q.key.name ==>
      && !(r.key.kind == q.key.kind && r.content == q.content && r.priority == q.priority)
      && r.key.kind != CNAME && q.key.kind != CNAME
      && (r.key.kind == q.key.kind ==> r.ttl == q.ttl)
  }

  lemma RulesAlways(s: State, zone: string, steps: seq<Step>, i: nat, j: nat)
    requires Initial(s) && i < j < |Run(s, zone, steps).tables.rows|
    ensures var rows := Run(s, zone, steps).tables.rows;
      Coexist(rows[i], rows[j]) && rows[i].id != rows[j].id && 60 <= rows[i].ttl <= 86400
  {
    RunKeepsZone(s, zone, steps);
    var rows := Run(s, zone, steps).tables.rows;
    assert Normal(ValueOf(rows[i]), zone);
    assert rows[i].key.name == rows[j].key.name ==> Compatible(ValueOf(rows[i]), ValueOf(rows[j]));
  }

  // ---- The transactions ----

  ghost predicate OtherRows(rows: seq<Row>, after: seq<Row>, id: nat) {
    forall r: Row :: r.id != id ==> (r in after <==> r in rows)
  }

  predicate QueuedFor(jobs: RecordJobs, job: nat, id: nat, remove: bool) {
    job in jobs && jobs[job] == Job(Work(id, remove), Queued, 0, 2)
  }

  ghost predicate JobAdded(jobs: RecordJobs, after: RecordJobs, job: nat, id: nat, remove: bool) {
    QueuedFor(after, job, id, remove) && job !in jobs && after.Keys == jobs.Keys + {job} && forall k :: k in jobs ==> after[k] == jobs[k]
  }

  /** A creation adds a pending row with the value asked for and a job to sync it; no key is recorded as synced. */
  lemma CreateLeaves(t: Tables, id: nat, job: nat, v: Value, zone: string, active: bool)
    requires Create(t, id, job, v, zone, active).ok
    ensures var after := Create(t, id, job, v, zone, active).tables;
      && Row(id, v.key, v.content, v.ttl, v.priority, None, Pending) in after.rows
      && (forall r :: r in after.rows && r.id == id ==> r == Row(id, v.key, v.content, v.ttl, v.priority, None, Pending))
      && OtherRows(t.rows, after.rows, id) && JobAdded(t.jobs, after.jobs, job, id, false)
  {
    var r := Row(id, v.key, v.content, v.ttl, v.priority, None, Pending);
    assert Create(t, id, job, v, zone, active).tables.rows == t.rows + [r];
  }

  /** An update replaces the value of the row, which is pending until its job has run; the synced key stays. */
  lemma UpdateLeaves(t: Tables, id: nat, job: nat, v: Value, zone: string, active: bool)
    requires IdsDistinct(t.rows) && Update(t, id, job, v, zone, active).ok
    ensures var after := Update(t, id, job, v, zone, active).tables;
      && (exists old_ :: old_ in t.rows && old_.id == id && old_.status != Pending && old_.status != Deleting
            && Row(id, v.key, v.content, v.ttl, v.priority, old_.synced, Pending) in after.rows)
      && (forall r :: r in after.rows && r.id == id ==> ValueOf(r) == v && r.status == Pending)
      && OtherRows(t.rows, after.rows, id) && JobAdded(t.jobs, after.jobs, job, id, false)
  {
    var i := FindRow(t.rows, id).value;
    var r := Row(id, v.key, v.content, v.ttl, v.priority, t.rows[i].synced, Pending);
    assert Update(t, id, job, v, zone, active).tables.rows == t.rows[i := r];
    ReplacedRows(t.rows, i, r);
    ReplacedOthers(t.rows, i, r);
    assert t.rows[i] in t.rows && t.rows[i := r][i] == r;
  }

  lemma ReplacedOthers(rows: seq<Row>, i: nat, r: Row)
    requires i < |rows| && r.id == rows[i].id && IdsDistinct(rows)
    ensures OtherRows(rows, rows[i := r], r.id)
  {
    ReplacedRows(rows, i, r);
    forall q | q in rows && q.id != r.id ensures q in rows[i := r] {
      var k :| 0 <= k < |rows| && rows[k] == q;
      assert rows[i := r][k] == q;
    }
  }

  /** A removal marks the row and queues its delete job; the row keeps its value until the provider has let it go. */
  lemma RemoveLeaves(t: Tables, id: nat, job: nat, active: bool)
    requires IdsDistinct(t.rows) && Remove(t, id, job, active).ok
    ensures var after := Remove(t, id, job, active).tables;
      && (exists old_ :: old_ in t.rows && old_.id == id && old_.status != Pending && old_.status != Deleting
            && old_.(status := Deleting) in after.rows)
      && (forall r :: r in after.rows && r.id == id ==> r.status == Deleting)
      && OtherRows(t.rows, after.rows, id) && JobAdded(t.jobs, after.jobs, job, id, true)
  {
    var i := FindRow(t.rows, id).value;
    var r := t.rows[i].(status := Deleting);
    assert Remove(t, id, job, active).tables.rows == t.rows[i := r];
    ReplacedRows(t.rows, i, r);
    ReplacedOthers(t.rows, i, r);
    assert t.rows[i] in t.rows && t.rows[i := r][i] == r;
  }

  /** Which requests are refused: inactive zones, abnormal or conflicting values, unknown, pending and deleting rows. */
  lemma RequestsRefusedExactly(t: Tables, id: nat, job: nat, v: Value, zone: string, active: bool)
    requires IdsDistinct(t.rows) && job !in t.jobs
    ensures Create(t, id, job, v, zone, active).ok <==>
      active && Normal(v, zone) && (forall r :: r in t.rows ==> r.id != id && Coexist(r, RowFrom(id, v, None)))
    ensures Update(t, id, job, v, zone, active).ok <==>
      && active && Normal(v, zone) && (exists r :: r in t.rows && r.id == id && r.status != Pending && r.status != Deleting)
      && (forall r :: r in t.rows && r.id != id ==> Coexist(r, RowFrom(id, v, None)))
    ensures Remove(t, id, job, active).ok <==>
      active && exists r :: r in t.rows && r.id == id && r.status != Pending && r.status != Deleting
    ensures !Create(t, id, job, v, zone, active).ok ==> Create(t, id, job, v, zone, active).tables == t
    ensures !Update(t, id, job, v, zone, active).ok ==> Update(t, id, job, v, zone, active).tables == t
    ensures !Remove(t, id, job, active).ok ==> Remove(t, id, job, active).tables == t
  {
    AvailableExactly(t.rows, v, None);
    AvailableExactly(t.rows, v, Some(id));
    FoundExactly(t.rows, id);
  }

  lemma AvailableExactly(rows: seq<Row>, v: Value, exclude: Option<nat>)
    ensures Available(rows, v, exclude) <==>
      forall r :: r in rows && exclude != Some(r.id) ==> Coexist(r, RowFrom(0, v, None))
    ensures forall id, r :: Coexist(r, RowFrom(id, v, None)) <==> Coexist(r, RowFrom(0, v, None))
  {
    if forall r :: r in rows && exclude != Some(r.id) ==> Coexist(r, RowFrom(0, v, None)) {
      forall i | 0 <= i < |rows| && rows[i].key.name == v.key.name && exclude != Some(rows[i].id)
        ensures Compatible(ValueOf(rows[i]), v)
      {
        assert rows[i] in rows && Coexist(rows[i], RowFrom(0, v, None));
      }
    }
  }

  lemma FoundExactly(rows: seq<Row>, id: nat)
    requires IdsDistinct(rows)
    ensures FindRow(rows, id).Some? <==> exists r :: r in rows && r.id == id
    ensures FindRow(rows, id).Some? ==> forall r :: r in rows && r.id == id ==> r == rows[FindRow(rows, id).value]
  {
    if FindRow(rows, id).Some? {
      var i := FindRow(rows, id).value;
      assert rows[i] in rows;
      forall r | r in rows && r.id == id ensures r == rows[i] {
        SameRow(rows, i, r);
      }
    }
  }

  /** What the handler's last write leaves of the row: gone, completed under its current key, or in error. */
  lemma OutcomeLeaves(rows: seq<Row>, j: RecordJob, ok: bool, r: Row)
    requires IdsDistinct(rows) && r in rows && r.id == j.work.row
    ensures var after := OutcomeRows(rows, j, ok);
      && OtherRows(rows, after, r.id)
      && (!ok ==> forall q :: q in after && q.id == r.id <==> q == r.(status := Error))
      && (ok && j.work.remove ==> forall q :: q in after ==> q.id != r.id)
      && (ok && !j.work.remove ==> forall q :: q in after && q.id == r.id <==> q == r.(status := Active, synced := Some(r.key)))
  {
    FoundExactly(rows, r.id);
    var i := FindRow(rows, r.id).value;
    if ok && j.work.remove {
      DeletedRows(rows, i);
      forall q | q in rows && q.id != r.id ensures q in OutcomeRows(rows, j, ok) {
        var k :| 0 <= k < |rows| && rows[k] == q;
        assert q == OutcomeRows(rows, j, ok)[if k < i then k else k - 1];
      }
    } else {
      var q := if ok then r.(status := Active, synced := Some(r.key)) else r.(status := Error);
      assert OutcomeRows(rows, j, ok) == rows[i := q];
      ReplacedRows(rows, i, q);
      ReplacedOthers(rows, i, q);
      assert rows[i := q][i] == q;
    }
  }

  // ---- The steps of a record job ----

  /** The stage at which the worker makes a step. */
  predicate InTurn(w: Worker, step: Step) {
    match step
    case ClaimJob(_) => w.Idle?
    case DropJob(_) => w.Claimed?
    case ReadRecord => w.Claimed?
    case ReadFails => w.Claimed? || w.Read?
    case ListRows(_) => w.Read?
    case MarkPending(_) => w.Listed?
    case SendPatch(_, _) => w.Marked?
    case RecordOutcome(_) => w.Patched?
    case SettleJob(_) => w.Done?
    case _ => true
  }

  /** Out of its turn a step does nothing; a request moves neither the worker nor the provider, and only a patch moves the provider. */
  lemma OutOfTurn(s: State, zone: string, step: Step)
    ensures !InTurn(s.worker, step) ==> Next(s, zone, step) == s
    ensures step.CreateRequest? || step.UpdateRequest? || step.DeleteRequest? ==>
      Next(s, zone, step) == s.(tables := Next(s, zone, step).tables)
    ensures !step.SendPatch? ==> Next(s, zone, step).provider == s.provider
  {
  }

  /** A job whose step could not be recorded is closed; one that could not read or mark its row has failed. */
  lemma EarlyEndLeaves(s: State, zone: string)
    requires HasJob(s)
    ensures s.worker.Claimed? ==>
      && Next(s, zone, DropJob(true)) == State(SetJob(s.tables, s.worker.job, JobOf(s).(status := Failed)), Idle, s.provider)
      && Next(s, zone, DropJob(false)) == s.(worker := Idle)
    ensures s.worker.Claimed? || s.worker.Read? ==> Next(s, zone, ReadFails) == s.(worker := Done(s.worker.job, false, false))
    ensures s.worker.Listed? && !JobOf(s).work.remove ==>
      Next(s, zone, MarkPending(false)) == s.(worker := Done(s.worker.job, false, false))
  {
  }

  /** A job patches the row's key and, when it was synced under another, that one too. */
  lemma KeysGiven(r: Row, k: Key)
    ensures k in Keys(r) <==> k == r.key || r.synced == Some(k)
  {
    assert Keys(r)[|Keys(r)| - 1] == r.key;
    assert r.synced.Some? && r.synced.value != r.key ==> Keys(r)[0] == r.synced.value;
  }

  /** A row of the key that the job does not take away. */
  predicate Wanted(q: Row, key: Key, w: Work) {
    q.key == key && q.status != Deleting && !(w.remove && q.id == w.row)
  }

  /** The provider has the wanted rows of the key and nothing else, with their TTL. */
  ghost predicate HasWanted(p: Provider, rows: seq<Row>, key: Key, w: Work)
    requires Renderable(rows)
  {
    && (forall text :: text in ProviderSet(p, key).records <==> exists q :: q in rows && Wanted(q, key, w) && Render(ValueOf(q)) == text)
    && (forall q :: q in rows && Wanted(q, key, w) ==> ProviderSet(p, key).ttl == q.ttl)
  }

  /** The job up to its marking of the row, when no store call fails. */
  ghost function Prepared(s: State, zone: string, job: nat, listing: seq<Row>): State {
    Next(Next(Next(Next(s, zone, ClaimJob(job)), zone, ReadRecord), zone, ListRows(listing)), zone, MarkPending(true))
  }

  lemma PreparedLeaves(s: State, zone: string, job: nat, r: Row, listing: seq<Row>)
    requires s.worker.Idle? && job in s.tables.jobs && Claimable(s.tables.jobs[job]) && IdsDistinct(s.tables.rows)
    requires r in s.tables.rows && r.id == s.tables.jobs[job].work.row && multiset(listing) == multiset(s.tables.rows)
    ensures var j, after := s.tables.jobs[job], Prepared(s, zone, job, listing);
      && after.worker == Marked(job, r, listing) && after.provider == s.provider
      && after.tables.jobs == s.tables.jobs[job := Job(j.work, Running, j.attempts + 1, j.maxAttempts)]
      && after.tables.rows == (if j.work.remove then s.tables.rows else SetStatus(s.tables.rows, r.id, Pending))
  {
    FoundExactly(s.tables.rows, r.id);
  }

  lemma SetIsWanted(p: Provider, rows: seq<Row>, key: Key, w: Work, skip: Option<nat>, zone: string)
    requires Renderable(rows) && ZoneOk(rows, zone) && skip == (if w.remove then Some(w.row) else None)
    requires ProviderSet(p, key) == SetOf(rows, key, skip)
    ensures HasWanted(p, rows, key, w)
  {
    SetMeaning(rows, key, skip, zone);
    assert forall q :: Wanted(q, key, w) <==> Live(q, key, skip);
  }

  /** Patching with the sets of a listing gives each key its set and leaves the others. */
  lemma SetsInstalled(p: Provider, rows: seq<Row>, keys: seq<Key>, skip: Option<nat>, zone: string, sets: seq<RecordSet>, k: Key)
    requires Renderable(rows) && ZoneOk(rows, zone) && |sets| == |keys| && DistinctKeys(sets)
    requires forall i :: 0 <= i < |sets| ==> sets[i] == SetOf(rows, keys[i], skip)
    ensures ProviderSet(PatchAll(p, sets), k) == if k in keys then SetOf(rows, k, skip) else ProviderSet(p, k)
  {
    NoTtlWhenEmpty(rows, keys, skip, zone, sets);
    if k in keys {
      var i :| 0 <= i < |keys| && keys[i] == k;
      PatchInstalls(p, sets, i);
    } else {
      DnsSync.PatchLeaves(p, sets, k);
    }
  }

  /** What a patch leaves, key by key. */
  ghost predicate Patches(p: Provider, after: Provider, rows: seq<Row>, current: Row, w: Work)
    requires Renderable(rows)
  {
    forall k :: if k in Keys(current) then HasWanted(after, rows, k, w) else ProviderSet(after, k) == ProviderSet(p, k)
  }

  lemma SetsSent(p: Provider, rows: seq<Row>, current: Row, w: Work, skip: Option<nat>, zone: string)
    requires Renderable(rows) && ZoneOk(rows, zone) && skip == (if w.remove then Some(w.row) else None)
    requires DistinctKeys(RecordSets(rows, current, skip))
    ensures Patches(p, PatchAll(p, RecordSets(rows, current, skip)), rows, current, w)
  {
    var sets := RecordSets(rows, current, skip);
    var after := PatchAll(p, sets);
    forall k ensures if k in Keys(current) then HasWanted(after, rows, k, w) else ProviderSet(after, k) == ProviderSet(p, k) {
      SetsInstalled(p, rows, Keys(current), skip, zone, sets, k);
      if k in Keys(current) {
        SetIsWanted(after, rows, k, w, skip, zone);
      }
    }
  }

  lemma AcceptedDistinct(sets: seq<RecordSet>, zone: string)
    requires SetsAccepted(sets, zone)
    ensures DistinctKeys(sets)
  {
  }

  lemma SendIs(s: State, zone: string)
    requires s.worker.Marked? && HasJob(s) && Renderable(s.worker.listing) && SetsAccepted(Sets(s), zone)
    ensures Next(s, zone, SendPatch(true, true)).provider == PatchAll(s.provider, Sets(s))
    ensures Next(s, zone, SendPatch(true, true)).worker == Patched(s.worker.job, s.worker.current, true)
    ensures Next(s, zone, SendPatch(true, true)).tables == s.tables
  {
  }

  /** What is sent reaches the provider: for each key of the row the wanted rows, as they were listed. */
  lemma PatchLeaves(s: State, zone: string)
    requires s.worker.Marked? && HasJob(s) && ZoneOk(s.worker.listing, zone) && Renderable(s.worker.listing)
    requires SetsAccepted(Sets(s), zone)
    ensures var after := Next(s, zone, SendPatch(true, true));
      && after.tables == s.tables && after.worker == Patched(s.worker.job, s.worker.current, true)
      && Patches(s.provider, after.provider, s.worker.listing, s.worker.current, JobOf(s).work)
  {
    SendIs(s, zone);
    AcceptedDistinct(Sets(s), zone);
    SetsSent(s.provider, s.worker.listing, s.worker.current, JobOf(s).work, Skip(JobOf(s)), zone);
  }

  /** An answer that is lost changes nothing at the provider, and a patch that is lost nothing at all but the outcome. */
  lemma LostPatchLeaves(s: State, zone: string, answered: bool)
    requires s.worker.Marked? && HasJob(s) && Renderable(s.worker.listing)
    ensures Next(s, zone, SendPatch(true, false)).provider == Next(s, zone, SendPatch(true, true)).provider
    ensures !Next(s, zone, SendPatch(true, false)).worker.ok
    ensures Next(s, zone, SendPatch(false, answered)) == s.(worker := Patched(s.worker.job, s.worker.current, false))
    ensures !SetsAccepted(Sets(s), zone) ==>
      Next(s, zone, SendPatch(true, answered)) == s.(worker := Patched(s.worker.job, s.worker.current, false))
  {
  }

  lemma NoTtlWhenEmpty(rows: seq<Row>, keys: seq<Key>, skip: Option<nat>, zone: string, sets: seq<RecordSet>)
    requires Renderable(rows) && ZoneOk(rows, zone) && |sets| == |keys|
    requires forall i :: 0 <= i < |sets| ==> sets[i] == SetOf(rows, keys[i], skip)
    ensures EmptyHasNoTtl(sets)
  {
    forall i | 0 <= i < |sets| && sets[i].records == [] ensures sets[i].ttl == 0 {
      SetMeaning(rows, keys[i], skip, zone);
    }
  }

  /** From the answer to the last write: the outcome in the row, and the job closed, retried or failed. */
  lemma SettlingLeaves(s: State, zone: string, ok: bool)
    requires s.worker.Patched? && HasJob(s) && s.worker.ok == ok && IdsDistinct(s.tables.rows)
    ensures var j, after := JobOf(s), Next(Next(s, zone, RecordOutcome(true)), zone, SettleJob(true));
      && after.worker.Idle? && after.provider == s.provider && after.tables.rows == OutcomeRows(s.tables.rows, j, ok)
      && after.tables.jobs == s.tables.jobs[s.worker.job := j.(status := after.tables.jobs[s.worker.job].status)]
      && (ok ==> after.tables.jobs[s.worker.job].status == Succeeded)
      && (!ok ==> after.tables.jobs[s.worker.job].status == if j.attempts < j.maxAttempts then Queued else Failed)
    ensures Next(s, zone, RecordOutcome(false)) == s.(worker := Done(s.worker.job, false, false))
  {
  }

  /** A crash leaves rows and provider as they are; every running job is queued again with its attempt given back. */
  lemma CrashLeaves(s: State, zone: string)
    requires forall k :: k in s.tables.jobs && s.tables.jobs[k].status == Running ==> s.tables.jobs[k].attempts > 0
    ensures var after := Next(s, zone, Crash);
      && after.provider == s.provider && after.tables.rows == s.tables.rows && after.worker.Idle?
      && after.tables.jobs.Keys == s.tables.jobs.Keys
      && forall k :: k in s.tables.jobs ==> var j := s.tables.jobs[k];
           after.tables.jobs[k] == if j.status == Running then Job(j.work, Queued, j.attempts - 1, j.maxAttempts) else j
  {
  }

  // ---- A stored value stays ----

  /** No later request creates or updates the row. */
  predicate Untouched(steps: seq<Step>, id: nat) {
    forall i :: 0 <= i < |steps| ==>
      !(steps[i].CreateRequest? && steps[i].id == id) && !(steps[i].UpdateRequest? && steps[i].id == id)
  }

  ghost predicate OnlyValue(rows: seq<Row>, id: nat, v: Value) {
    forall r :: r in rows && r.id == id ==> ValueOf(r) == v
  }

  lemma SetStatusRows(rows: seq<Row>, id: nat, status: Status, q: Row)
    requires q in SetStatus(rows, id, status)
    ensures exists r :: r in rows && r.id == q.id && ValueOf(r) == ValueOf(q)
  {
    if q in rows {
    } else {
      var i := FindRow(rows, id).value;
      assert rows[i] in rows && ValueOf(rows[i]) == ValueOf(q);
    }
  }

  lemma OutcomeValues(rows: seq<Row>, j: RecordJob, ok: bool, q: Row)
    requires q in OutcomeRows(rows, j, ok)
    ensures exists r :: r in rows && r.id == q.id && ValueOf(r) == ValueOf(q)
  {
    if q in rows {
    } else {
      var i := FindRow(rows, j.work.row).value;
      assert rows[i] in rows && ValueOf(rows[i]) == ValueOf(q);
    }
  }

  lemma ValueStep(s: State, zone: string, step: Step, id: nat, v: Value)
    requires OnlyValue(s.tables.rows, id, v)
    requires !(step.CreateRequest? && step.id == id) && !(step.UpdateRequest? && step.id == id)
    ensures OnlyValue(Next(s, zone, step).tables.rows, id, v)
  {
    var rows, after := s.tables.rows, Next(s, zone, step).tables.rows;
    forall q | q in after && q.id == id ensures ValueOf(q) == v {
      if q !in rows {
        if step.MarkPending? {
          SetStatusRows(rows, JobOf(s).work.row, Pending, q);
        } else if step.RecordOutcome? {
          OutcomeValues(rows, JobOf(s), s.worker.ok, q);
        } else {
          assert step.DeleteRequest?;
          var i := FindRow(rows, step.id).value;
          assert rows[i] in rows;
        }
      }
    }
  }

  lemma {:induction false} ValueStays(s: State, zone: string, steps: seq<Step>, id: nat, v: Value)
    requires OnlyValue(s.tables.rows, id, v) && Untouched(steps, id)
    ensures OnlyValue(Run(s, zone, steps).tables.rows, id, v)
    decreases |steps|
  {
    if steps == [] {
    } else {
      ValueStep(s, zone, steps[0], id, v);
      ValueStays(Next(s, zone, steps[0]), zone, steps[1..], id, v);
    }
  }

  /**
   * From the request to the provider: after an accepted creation or update, with no later one of the row, a guarded run
   * that comes to rest with the row still there has the provider serve the value asked for.
   */
  lemma RequestIsServed(start: State, zone: string, before: seq<Step>, step: Step, later: seq<Step>, r: Row)
    requires Initial(start) && (step.CreateRequest? || step.UpdateRequest?) && Untouched(later, step.id)
    requires GuardedRun(start, zone, before + [step] + later)
    requires var s := Run(start, zone, before);
      if step.CreateRequest? then Create(s.tables, step.id, step.job, step.value, zone, step.active).ok
      else Update(s.tables, step.id, step.job, step.value, zone, step.active).ok
    requires AtRest(Run(start, zone, before + [step] + later).tables)
    requires r in Run(start, zone, before + [step] + later).tables.rows && r.id == step.id
    ensures r.key == step.value.key && r.content == step.value.content && r.priority == step.value.priority >= 0
    ensures var p := Run(start, zone, before + [step] + later).provider;
      Render(step.value) in ProviderSet(p, step.value.key).records && ProviderSet(p, step.value.key).ttl == step.value.ttl
  {
    var s := Run(start, zone, before);
    RunKeepsZone(start, zone, before);
    RunAppend(start, zone, before + [step], later);
    RunAppend(start, zone, before, [step]);
    RunOne(s, zone, step);
    if step.CreateRequest? {
      CreateLeaves(s.tables, step.id, step.job, step.value, zone, step.active);
    } else {
      UpdateLeaves(s.tables, step.id, step.job, step.value, zone, step.active);
    }
    ValueStays(Next(s, zone, step), zone, later, step.id, step.value);
    RestingZoneIsServed(start, zone, before + [step] + later, step.value.key);
    assert ValueOf(r) == step.value;
    var end := Run(start, zone, before + [step] + later);
    assert Served(end.tables.rows, end.provider, step.value.key);
  }
}
