/** The store over whole runs of requests, jobs, limit changes, backups read query by query, and restores. */
module MetadataRuns {
  import opened Options
  import opened Hosting
  import opened HostingWrites
  import opened MetadataRestore
  import opened MetadataStore
  import opened MetadataTx
  import opened BackupReads

  /** The store, the backup the worker is reading, and the backups taken so far. */
  datatype State = State(tables: Tables, draft: Option<Draft>, exports: seq<Metadata>)

  datatype NewRow =
    | NewWebsite(id: string, domain: string, account: string, hostname: string, definition: string)
    | NewAlias(domain: string, website: string, hostname: string)
    | NewDatabase(id: string, account: string, name: string, systemName: string, definition: string)
    | NewTask(id: string, account: string, definition: string, enabled: bool)

  datatype OldRow = OldWebsite(id: string) | OldDomain(id: string) | OldDatabase(id: string) | OldTask(id: string)

  /** The queries of a backup; any of them may fail. */
  datatype Query =
    | Begin(account: string, listing: Listing)
    | Domains(listing: Listing)
    | Databases(listing: Listing)
    | End(listing: Listing)
    | Fail

  datatype Step =
    | Create(row: NewRow)
    | Drop(gone: OldRow)
    | Update(write: Write)
    | NewLimits(account: string, limits: Limits)
    | Backup(query: Query)
    | RestoreBackup(index: nat)

  /** The single worker makes these; while it reads a backup it makes none of them. */
  predicate ByJob(step: Step) {
    match step
    case Drop(row) => !row.OldTask?
    case Update(write) => ByWorker(write)
    case RestoreBackup(_) => true
    case _ => false
  }

  predicate StoredAt(t: Tables, id: string, website: string, kind: DomainKind) {
    id in t.domains && t.domains[id].website == website && t.domains[id].kind == kind
  }

  predicate ListedAt(ws: seq<WebsiteItem>, id: string, website: string, kind: DomainKind) {
    exists w :: w in ws && w.id == website && exists d :: d in w.domains && d.id == id && d.kind == kind
  }

  /** The store, the backup being read, or a backup has the domain id under the website with the kind. */
  predicate Placed(s: State, id: string, website: string, kind: DomainKind) {
    || StoredAt(s.tables, id, website, kind)
    || (s.draft.Some? && ListedAt(s.draft.value.done, id, website, kind))
    || exists m :: m in s.exports && ListedAt(m.websites, id, website, kind)
  }

  /** Random ids are new. */
  ghost predicate NewId(s: State, id: string) {
    forall website, kind :: !Placed(s, id, website, kind)
  }

  ghost function Created(s: State, row: NewRow): (r: Option<Tables>)
    ensures r.Some? ==> r.value.accounts == s.tables.accounts
  {
    match row
    case NewWebsite(id, domain, account, hostname, definition) =>
      if NewId(s, domain) then CreateWebsite(s.tables, id, domain, account, hostname, definition) else None
    case NewAlias(domain, website, hostname) => if NewId(s, domain) then CreateAlias(s.tables, domain, website, hostname) else None
    case NewDatabase(id, account, name, systemName, definition) => CreateDatabase(s.tables, id, account, name, systemName, definition)
    case NewTask(id, account, definition, enabled) => CreateTask(s.tables, id, account, definition, enabled)
  }

  function Dropped(t: Tables, row: OldRow): (after: Tables)
    ensures after.accounts == t.accounts
  {
    match row
    case OldWebsite(id) => DeleteWebsite(t, id)
    case OldDomain(id) => DeleteDomain(t, id)
    case OldDatabase(id) => DeleteDatabase(t, id)
    case OldTask(id) => DeleteTask(t, id)
  }

  /** A query in its turn; the listings hold every row, in any order. */
  ghost function Queried(s: State, query: Query): (after: State)
    ensures after.tables == s.tables
  {
    match query
    case Begin(account, listing) =>
      if s.draft.None? && Complete(listing, s.tables) then s.(draft := Some(ListSites(s.tables, account, listing))) else s
    case Domains(listing) =>
      if s.draft.Some? && |s.draft.value.done| < |s.draft.value.sites| && Complete(listing, s.tables)
      then s.(draft := ReadSite(s.draft.value, s.tables, listing)) else s
    case Databases(listing) =>
      if s.draft.Some? && |s.draft.value.done| == |s.draft.value.sites| && Complete(listing, s.tables)
      then s.(draft := Some(ReadDatabases(s.draft.value, s.tables, listing))) else s
    case End(listing) =>
      if s.draft.Some? && s.draft.value.databases.Some? && Complete(listing, s.tables)
      then s.(draft := None, exports := s.exports + [Finish(s.draft.value, s.tables, listing)]) else s
    case Fail => s.(draft := None)
  }

  ghost function Next(s: State, c: Checks, step: Step): State {
    if ByJob(step) && s.draft.Some? then s
    else
      match step
      case Create(row) => s.(tables := OrElse(Created(s, row), s.tables))
      case Drop(row) => s.(tables := Dropped(s.tables, row))
      case Update(write) => s.(tables := Written(s.tables, write))
      case NewLimits(account, limits) => s.(tables := SetLimits(s.tables, account, limits))
      case Backup(query) => Queried(s, query)
      case RestoreBackup(index) =>
        if index < |s.exports| then s.(tables := OrElse(Restore(c, s.tables, s.exports[index]), s.tables)) else s
  }

  ghost function Run(s: State, c: Checks, steps: seq<Step>): State
    decreases |steps|
  {
    if steps == [] then s else Run(Next(s, c, steps[0]), c, steps[1..])
  }

  // ---- What every step keeps ----

  /** A domain id has one website and one kind, wherever it is written down. */
  ghost predicate PlacesFixed(s: State) {
    forall id, v, w, k, l :: Placed(s, id, v, k) && Placed(s, id, w, l) ==> v == w && k == l
  }

  /** The domain still has the name, or waits to give it up, and no other domain got it. */
  predicate Holds(t: Tables, id: string, hostname: string) {
    && id in t.domains
    && (t.domains[id].hostname == hostname || (t.domains[id].status == Pending && t.domains[id].previous == Some(hostname)))
    && forall j :: j in t.domains && j != id ==> t.domains[j].hostname != hostname
  }

  ghost predicate NamesHeld(t: Tables, ws: seq<WebsiteItem>) {
    forall w, d :: w in ws && d in w.domains ==> Holds(t, d.id, d.hostname)
  }

  /** No hostname under two ids. */
  ghost predicate NamesApart(ws: seq<WebsiteItem>) {
    forall v, w, x, y :: v in ws && w in ws && x in v.domains && y in w.domains && x.hostname == y.hostname ==> x.id == y.id
  }

  ghost predicate DraftOk(t: Tables, d: Draft) {
    && |d.done| <= |d.sites|
    && (forall i, j :: 0 <= i < j < |d.sites| ==> d.sites[i].id != d.sites[j].id)
    && (forall i :: 0 <= i < |d.done| ==> d.done[i].id == d.sites[i].id && DomainIdsDistinct(d.done[i].domains))
    && (d.databases.Some? ==> ItemsDistinct(d.databases.value))
    && NamesHeld(t, d.done) && NamesApart(d.done)
  }

  ghost predicate Inv(s: State) {
    && Sound(s.tables)
    && PlacesFixed(s)
    && (s.draft.Some? ==> DraftOk(s.tables, s.draft.value))
    && (forall m :: m in s.exports ==> Distinct(m) && NamesApart(m.websites))
    && (forall a :: a in s.tables.accounts ==> Prepared(s.tables.accounts[a].limits))
  }

  /** The domains of the new tables were placed there before, or have new ids. */
  lemma PlacesFrom(s: State, after: Tables)
    requires PlacesFixed(s)
    requires forall id :: id in after.domains ==> Placed(s, id, after.domains[id].website, after.domains[id].kind) || NewId(s, id)
    ensures PlacesFixed(s.(tables := after))
  {
    var t := s.(tables := after);
    forall id, w, k | Placed(t, id, w, k) ensures Placed(s, id, w, k) || (NewId(s, id) && StoredAt(after, id, w, k)) {
    }
  }

  lemma PlacesKept(s: State, after: Tables)
    requires PlacesFixed(s)
    requires forall id :: id in after.domains ==> StoredAt(s.tables, id, after.domains[id].website, after.domains[id].kind)
    ensures PlacesFixed(s.(tables := after))
  {
    forall id | id in after.domains ensures Placed(s, id, after.domains[id].website, after.domains[id].kind) {
    }
    PlacesFrom(s, after);
  }

  // ---- New rows ----

  /** A hostname that passed the check is none of those a backup being read has seen. */
  lemma HeldWithNew(t: Tables, domain: string, row: Domain, id: string, hostname: string)
    requires Holds(t, id, hostname) && !HostnameTaken(t, row.hostname) && domain !in t.domains
    ensures Holds(PutDomain(t, domain, row), id, hostname)
  {
  }

  lemma NewWebsiteKeeps(s: State, row: NewRow)
    requires Inv(s) && row.NewWebsite? && Created(s, row).Some?
    ensures Inv(s.(tables := Created(s, row).value))
  {
    var t, after := s.tables, Created(s, row).value;
    CreateWebsiteSound(t, row.id, row.domain, row.account, row.hostname, row.definition);
    CreateWebsiteIs(t, row.id, row.domain, row.account, row.hostname, row.definition);
    forall id | id in after.domains ensures Placed(s, id, after.domains[id].website, after.domains[id].kind) || NewId(s, id) {
      if id != row.domain {
        assert StoredAt(t, id, after.domains[id].website, after.domains[id].kind);
      }
    }
    PlacesFrom(s, after);
    forall id, hostname | Holds(t, id, hostname) ensures Holds(after, id, hostname) {
      HeldWithNew(t, row.domain, after.domains[row.domain], id, hostname);
    }
  }

  lemma NewAliasKeeps(s: State, row: NewRow)
    requires Inv(s) && row.NewAlias? && Created(s, row).Some?
    ensures Inv(s.(tables := Created(s, row).value))
  {
    var t, after := s.tables, Created(s, row).value;
    CreateAliasSound(t, row.domain, row.website, row.hostname);
    CreateAliasIs(t, row.domain, row.website, row.hostname);
    forall id | id in after.domains ensures Placed(s, id, after.domains[id].website, after.domains[id].kind) || NewId(s, id) {
      if id != row.domain {
        assert StoredAt(t, id, after.domains[id].website, after.domains[id].kind);
      }
    }
    PlacesFrom(s, after);
    forall id, hostname | Holds(t, id, hostname) ensures Holds(after, id, hostname) {
      HeldWithNew(t, row.domain, after.domains[row.domain], id, hostname);
    }
  }

  /** Domains, and what is read of them, stay as they are. */
  lemma SameDomainsKeep(s: State, after: Tables)
    requires Inv(s) && Sound(after) && after.domains == s.tables.domains
    requires forall a :: a in after.accounts ==> Prepared(after.accounts[a].limits)
    ensures Inv(s.(tables := after))
  {
    PlacesKept(s, after);
    forall id, hostname | Holds(s.tables, id, hostname) ensures Holds(after, id, hostname) {
    }
  }

  lemma CreateKeeps(s: State, row: NewRow)
    requires Inv(s)
    ensures Inv(s.(tables := OrElse(Created(s, row), s.tables)))
  {
    if Created(s, row).Some? {
      match row
      case NewWebsite(_, _, _, _, _) => NewWebsiteKeeps(s, row);
      case NewAlias(_, _, _) => NewAliasKeeps(s, row);
      case NewDatabase(id, account, name, systemName, definition) =>
        CreateDatabaseKeeps(s.tables, id, account, name, systemName, definition, account);
        SameDomainsKeep(s, Created(s, row).value);
      case NewTask(id, account, definition, enabled) =>
        CreateTaskKeeps(s.tables, id, account, definition, enabled, account);
        SameDomainsKeep(s, Created(s, row).value);
    } else {
      assert s.(tables := s.tables) == s;
    }
  }

  // ---- Dropped and rewritten rows ----

  lemma DropShrinks(t: Tables, row: OldRow)
    requires Indexed(t)
    ensures Shrunk(t, Dropped(t, row))
  {
    match row
    case OldWebsite(id) => DeleteWebsiteShrinks(t, id);
    case OldDomain(id) => DeleteDomainShrinks(t, id);
    case OldDatabase(id) => DeleteDatabaseShrinks(t, id);
    case OldTask(id) => DeleteTaskShrinks(t, id);
  }

  lemma DropKeeps(s: State, row: OldRow)
    requires Inv(s) && (s.draft.None? || row.OldTask?)
    ensures Inv(s.(tables := Dropped(s.tables, row)))
  {
    var after := Dropped(s.tables, row);
    DropShrinks(s.tables, row);
    ShrunkSound(s.tables, after);
    if row.OldTask? {
      SameDomainsKeep(s, after);
    } else {
      PlacesKept(s, after);
    }
  }

  /** A request that rewrites a row leaves every name held: a renamed domain waits for its job under both names. */
  lemma HeldWrite(t: Tables, w: Write, id: string, hostname: string)
    requires Indexed(t) && Holds(t, id, hostname) && !ByWorker(w)
    ensures Holds(Written(t, w), id, hostname)
  {
  }

  lemma WriteKeeps(s: State, w: Write)
    requires Inv(s) && (s.draft.None? || !ByWorker(w))
    ensures Inv(s.(tables := Written(s.tables, w)))
  {
    var after := Written(s.tables, w);
    WriteRewrites(s.tables, w);
    RewrittenSound(s.tables, after);
    PlacesKept(s, after);
    if !ByWorker(w) {
      forall id, hostname | Holds(s.tables, id, hostname) ensures Holds(after, id, hostname) {
        HeldWrite(s.tables, w, id, hostname);
      }
    }
  }

  lemma LimitsKeep(s: State, account: string, l: Limits)
    requires Inv(s)
    ensures Inv(s.(tables := SetLimits(s.tables, account, l)))
  {
    var t, after := s.tables, SetLimits(s.tables, account, l);
    forall w, i, j | PrimaryOf(after, w, i) && PrimaryOf(after, w, j) ensures i == j {
      assert PrimaryOf(t, w, i) && PrimaryOf(t, w, j);
    }
    forall w | w in after.websites ensures exists d :: PrimaryOf(after, w, d) {
      PrimariesStay(t, after, w);
    }
    SameDomainsKeep(s, after);
  }

  // ---- Reading a backup ----

  lemma SitesDistinct(t: Tables, account: string, l: Listing)
    requires ListsAll(l.websites, t.websites)
    ensures var sites := ListSites(t, account, l).sites; forall i, j :: 0 <= i < j < |sites| ==> sites[i].id != sites[j].id
  {
    var none: seq<string> := [];
    WebsiteItemsDistinct(t, account, l.websites, none);
    assert ListSites(t, account, l).sites == WebsiteItems(t, account, l.websites, none);
  }

  lemma BeginKeeps(s: State, account: string, l: Listing)
    requires Inv(s) && s.draft.None? && Complete(l, s.tables)
    ensures Inv(s.(draft := Some(ListSites(s.tables, account, l))))
  {
    var after := s.(draft := Some(ListSites(s.tables, account, l)));
    SitesDistinct(s.tables, account, l);
    forall id, w, k | Placed(after, id, w, k) ensures Placed(s, id, w, k) {
    }
  }

  /** The domains read now are apart from those read before: their names are held. */
  lemma NamesRead(t: Tables, done: seq<WebsiteItem>, w: WebsiteItem)
    requires Indexed(t) && NamesHeld(t, done) && NamesApart(done)
    requires forall d :: d in w.domains ==> d.id in t.domains && t.domains[d.id].hostname == d.hostname
    ensures NamesHeld(t, done + [w]) && NamesApart(done + [w])
  {
    forall d | d in w.domains ensures Holds(t, d.id, d.hostname) {
    }
  }

  lemma ReadKeeps(s: State, l: Listing)
    requires Inv(s) && s.draft.Some? && |s.draft.value.done| < |s.draft.value.sites| && Complete(l, s.tables)
    ensures Inv(s.(draft := ReadSite(s.draft.value, s.tables, l)))
  {
    var d, after := s.draft.value, s.(draft := ReadSite(s.draft.value, s.tables, l));
    var site := d.sites[|d.done|];
    var items := DomainItems(s.tables, site.id, l.domains);
    DomainItemsDistinct(s.tables, site.id, l.domains);
    forall x | x in items
      ensures StoredAt(s.tables, x.id, site.id, x.kind) && s.tables.domains[x.id].hostname == x.hostname
    {
      DomainItemsMeaning(s.tables, site.id, l.domains, x);
    }
    if after.draft.Some? {
      PlacesRead(s, site.(domains := items));
      NamesRead(s.tables, d.done, site.(domains := items));
    } else {
      QueryFails(s);
    }
  }

  lemma QueryFails(s: State)
    requires Inv(s)
    ensures Inv(s.(draft := None))
  {
    forall id, w, k | Placed(s.(draft := None), id, w, k) ensures Placed(s, id, w, k) {
    }
  }

  lemma PlacesRead(s: State, w: WebsiteItem)
    requires PlacesFixed(s) && s.draft.Some? && forall x :: x in w.domains ==> StoredAt(s.tables, x.id, w.id, x.kind)
    ensures PlacesFixed(s.(draft := Some(s.draft.value.(done := s.draft.value.done + [w]))))
  {
    var after := s.(draft := Some(s.draft.value.(done := s.draft.value.done + [w])));
    forall id, v, k | Placed(after, id, v, k) ensures Placed(s, id, v, k) {
    }
  }

  lemma RestReadKeeps(s: State, l: Listing)
    requires Inv(s) && s.draft.Some? && Complete(l, s.tables)
    ensures Inv(s.(draft := Some(ReadDatabases(s.draft.value, s.tables, l))))
  {
    var after := s.(draft := Some(ReadDatabases(s.draft.value, s.tables, l)));
    ResourceItemsDistinct(s.tables.databases, s.draft.value.account, true, l.databases);
    forall id, w, k | Placed(after, id, w, k) ensures Placed(s, id, w, k) {
    }
  }

  lemma DraftWebsitesDistinct(s: State)
    requires Inv(s) && s.draft.Some?
    ensures WebsitesDistinct(s.draft.value.done)
  {
    var ws := s.draft.value.done;
    forall i, j, id | 0 <= i < j < |ws| && ListsDomain(ws[i].domains, id) ensures !ListsDomain(ws[j].domains, id) {
      if ListsDomain(ws[j].domains, id) {
        var x :| x in ws[i].domains && x.id == id;
        var y :| y in ws[j].domains && y.id == id;
        assert ws[i] in ws && ws[j] in ws;
        assert Placed(s, id, ws[i].id, x.kind) && Placed(s, id, ws[j].id, y.kind);
      }
    }
  }

  lemma FinishKeeps(s: State, l: Listing)
    requires Inv(s) && s.draft.Some? && s.draft.value.databases.Some? && Complete(l, s.tables)
    ensures Inv(s.(draft := None, exports := s.exports + [Finish(s.draft.value, s.tables, l)]))
  {
    var m := Finish(s.draft.value, s.tables, l);
    var after := s.(draft := None, exports := s.exports + [m]);
    DraftWebsitesDistinct(s);
    ResourceItemsDistinct(s.tables.tasks, s.draft.value.account, false, l.tasks);
    forall id, w, k | Placed(after, id, w, k) ensures Placed(s, id, w, k) {
    }
  }

  lemma QueryKeeps(s: State, query: Query)
    requires Inv(s)
    ensures Inv(Queried(s, query))
  {
    if Queried(s, query) != s {
      match query
      case Begin(account, listing) => BeginKeeps(s, account, listing);
      case Domains(listing) => ReadKeeps(s, listing);
      case Databases(listing) => RestReadKeeps(s, listing);
      case End(listing) => FinishKeeps(s, listing);
      case Fail => QueryFails(s);
    }
  }

  // ---- Restoring ----

  lemma AgreesWithStore(s: State, m: Metadata)
    requires Inv(s) && m in s.exports
    ensures forall w :: w in m.websites ==> KindsAgree(s.tables, w.domains)
  {
    forall w, d | w in m.websites && d in w.domains && d.id in s.tables.domains ensures s.tables.domains[d.id].kind == d.kind {
      assert ListedAt(m.websites, d.id, w.id, d.kind);
      assert Placed(s, d.id, w.id, d.kind);
      assert Placed(s, d.id, s.tables.domains[d.id].website, s.tables.domains[d.id].kind);
    }
  }

  lemma RestorePlaces(s: State, c: Checks, m: Metadata)
    requires Inv(s) && m in s.exports && Restore(c, s.tables, m).Some?
    ensures PlacesFixed(s.(tables := Restore(c, s.tables, m).value))
  {
    var after := Restore(c, s.tables, m).value;
    RestoreRestores(c, s.tables, m);
    RestoreKeepsOthers(c, s.tables, m);
    forall id | id in after.domains ensures Placed(s, id, after.domains[id].website, after.domains[id].kind) {
      if ListsAnyDomain(m.websites, id) {
        var w :| w in m.websites && ListsDomain(w.domains, id);
        var d :| d in w.domains && d.id == id;
        assert WebsiteRestored(after, m.account, w) && DomainRestored(after, w.id, d);
        assert ListedAt(m.websites, id, w.id, d.kind);
      } else {
        assert SameDomainRow(s.tables, after, id);
      }
    }
    PlacesFrom(s, after);
  }

  lemma RestoreKeeps(s: State, c: Checks, index: nat)
    requires Inv(s) && s.draft.None? && index < |s.exports|
    ensures Inv(s.(tables := OrElse(Restore(c, s.tables, s.exports[index]), s.tables)))
  {
    var m := s.exports[index];
    assert m in s.exports && Distinct(m);
    if Restore(c, s.tables, m).Some? {
      RestoreSound(c, s.tables, m);
      RestorePlaces(s, c, m);
      RestoreKeepsOthers(c, s.tables, m);
    } else {
      assert s.(tables := s.tables) == s;
    }
  }

  lemma NextKeeps(s: State, c: Checks, step: Step)
    requires Inv(s)
    ensures Inv(Next(s, c, step))
  {
    if !(ByJob(step) && s.draft.Some?) {
      match step
      case Create(row) => CreateKeeps(s, row);
      case Drop(row) => DropKeeps(s, row);
      case Update(write) => WriteKeeps(s, write);
      case NewLimits(account, limits) => LimitsKeep(s, account, limits);
      case Backup(query) => QueryKeeps(s, query);
      case RestoreBackup(index) => if index < |s.exports| { RestoreKeeps(s, c, index); }
    }
  }

  lemma {:induction false} RunKeeps(s: State, c: Checks, steps: seq<Step>)
    requires Inv(s)
    ensures Inv(Run(s, c, steps))
    decreases |steps|
  {
    if steps == [] {
    } else {
      NextKeeps(s, c, steps[0]);
      RunKeeps(Next(s, c, steps[0]), c, steps[1..]);
    }
  }

  // ---- Limits ----

  lemma SameCounts(t: Tables, after: Tables, a: string, l: Limits)
    requires after == t.(accounts := after.accounts)
    ensures GrewWithin(t, after, a, l)
  {
    assert WebsitesOf(after, a) == WebsitesOf(t, a);
    assert DomainsOf(after, a, Primary) == DomainsOf(t, a, Primary);
    assert DomainsOf(after, a, Alias) == DomainsOf(t, a, Alias);
  }

  lemma CreateWithin(s: State, row: NewRow, a: string)
    requires Inv(s) && a in s.tables.accounts && Created(s, row).Some?
    ensures GrewWithin(s.tables, Created(s, row).value, a, s.tables.accounts[a].limits)
  {
    match row
    case NewWebsite(id, domain, account, hostname, definition) =>
      CreateWebsiteCounts(s.tables, id, domain, account, hostname, definition, a);
    case NewAlias(domain, website, hostname) => CreateAliasCounts(s.tables, domain, website, hostname, a);
    case NewDatabase(id, account, name, systemName, definition) =>
      CreateDatabaseKeeps(s.tables, id, account, name, systemName, definition, a);
    case NewTask(id, account, definition, enabled) => CreateTaskKeeps(s.tables, id, account, definition, enabled, a);
  }

  lemma DropWithin(s: State, row: OldRow, a: string, l: Limits)
    requires Inv(s)
    ensures GrewWithin(s.tables, Dropped(s.tables, row), a, l)
  {
    DropShrinks(s.tables, row);
    ShrunkCounts(s.tables, Dropped(s.tables, row), a, l);
  }

  lemma WriteWithin(s: State, w: Write, a: string, l: Limits)
    requires Inv(s)
    ensures GrewWithin(s.tables, Written(s.tables, w), a, l)
  {
    WriteRewrites(s.tables, w);
    RewrittenCounts(s.tables, Written(s.tables, w), a, l);
  }

  lemma RestoreWithin(s: State, c: Checks, m: Metadata, a: string)
    requires Inv(s) && a in s.tables.accounts && m in s.exports && Restore(c, s.tables, m).Some?
    ensures GrewWithin(s.tables, Restore(c, s.tables, m).value, a, s.tables.accounts[a].limits)
  {
    AgreesWithStore(s, m);
    RestoreWithinLimits(c, s.tables, m, a);
  }

  /** No step raises a counter above the limit in force at that step. */
  lemma StepWithinLimits(s: State, c: Checks, step: Step, a: string)
    requires Inv(s) && a in s.tables.accounts
    ensures GrewWithin(s.tables, Next(s, c, step).tables, a, s.tables.accounts[a].limits)
  {
    var t, after, l := s.tables, Next(s, c, step).tables, s.tables.accounts[a].limits;
    if after == t {
      SameCounts(t, after, a, l);
    } else {
      match step
      case Create(row) => CreateWithin(s, row, a);
      case Drop(row) => DropWithin(s, row, a, l);
      case Update(write) => WriteWithin(s, write, a, l);
      case NewLimits(account, limits) => SameCounts(t, after, a, l);
      case RestoreBackup(index) => RestoreWithin(s, c, s.exports[index], a);
    }
  }

  /** Every counter is within the account's limits. */
  ghost predicate Within(t: Tables, a: string) {
    && a in t.accounts
    && var l := t.accounts[a].limits;
      && |WebsitesOf(t, a)| <= l.websites && |DomainsOf(t, a, Primary)| <= l.domains && |DomainsOf(t, a, Alias)| <= l.aliases
      && |ResourcesOf(t.databases, a)| <= l.databases && |ResourcesOf(t.tasks, a)| <= l.tasks
  }

  lemma AccountsKept(s: State, c: Checks, step: Step, a: string)
    requires Inv(s) && !(step.NewLimits? && step.account == a) && a in s.tables.accounts
    ensures a in Next(s, c, step).tables.accounts && Next(s, c, step).tables.accounts[a] == s.tables.accounts[a]
  {
    match step
    case Update(write) => WriteRewrites(s.tables, write);
    case RestoreBackup(index) =>
      if index < |s.exports| && Restore(c, s.tables, s.exports[index]).Some? {
        RestoreParts(c, s.tables, s.exports[index]);
      }
    case _ =>
  }

  lemma WithinStep(t: Tables, after: Tables, a: string)
    requires Within(t, a) && a in after.accounts && after.accounts[a] == t.accounts[a]
    requires GrewWithin(t, after, a, t.accounts[a].limits)
    ensures Within(after, a)
  {
  }

  /** While an account's limits stay as they are, no run takes any of its counters past them. */
  lemma {:induction false} LimitsHold(s: State, c: Checks, steps: seq<Step>, a: string)
    requires Inv(s) && Within(s.tables, a)
    requires forall i :: 0 <= i < |steps| ==> !(steps[i].NewLimits? && steps[i].account == a)
    ensures Within(Run(s, c, steps).tables, a)
    decreases |steps|
  {
    if steps == [] {
    } else {
      StepWithinLimits(s, c, steps[0], a);
      AccountsKept(s, c, steps[0], a);
      WithinStep(s.tables, Next(s, c, steps[0]).tables, a);
      NextKeeps(s, c, steps[0]);
      LimitsHold(Next(s, c, steps[0]), c, steps[1..], a);
    }
  }

  // ---- From an empty store ----

  ghost predicate Initial(s: State) {
    && s.draft == None && s.exports == [] && s.tables == Tables(s.tables.accounts, map[], map[], map[], map[])
    && forall a :: a in s.tables.accounts ==> Prepared(s.tables.accounts[a].limits)
  }

  /**
   * Over every run of requests, jobs, limit changes, backups and restores of any of them: every website has exactly one
   * primary domain, primary usage equals website usage, and the domain check cannot fail after the website check.
   */
  lemma UsageOverRuns(start: State, c: Checks, steps: seq<Step>, a: string)
    requires Initial(start)
    ensures var t := Run(start, c, steps).tables;
      && Sound(t)
      && |DomainsOf(t, a, Primary)| == |WebsitesOf(t, a)|
      && (a in t.accounts && |WebsitesOf(t, a)| < t.accounts[a].limits.websites ==>
            |DomainsOf(t, a, Primary)| < t.accounts[a].limits.domains)
  {
    RunKeeps(start, c, steps);
    var t := Run(start, c, steps).tables;
    PrimaryUsageIsWebsiteUsage(t, a);
    if a in t.accounts && |WebsitesOf(t, a)| < t.accounts[a].limits.websites {
      DomainCheckNeverFails(t, a);
    }
  }

  lemma RestoreStepRestores(s: State, c: Checks, index: nat)
    requires Inv(s) && index < |s.exports|
    ensures var m, after := s.exports[index], Next(s, c, RestoreBackup(index)).tables;
      after == s.tables || (AllRestored(after, m) && OthersKept(s.tables, after, m))
  {
    var m := s.exports[index];
    assert m in s.exports && Distinct(m);
    if Restore(c, s.tables, m).Some? {
      RestoreRestores(c, s.tables, m);
      RestoreKeepsOthers(c, s.tables, m);
    }
  }

  /**
   * A backup finished at any earlier moment, even one whose queries saw the store change between them, gives its
   * definitions back when it is restored, or the store stays as it is.
   */
  lemma BackupsRestore(start: State, c: Checks, steps: seq<Step>, index: nat)
    requires Initial(start) && index < |Run(start, c, steps).exports|
    ensures var s := Run(start, c, steps);
      var m, after := s.exports[index], Next(s, c, RestoreBackup(index)).tables;
      after == s.tables || (AllRestored(after, m) && OthersKept(s.tables, after, m))
  {
    RunKeeps(start, c, steps);
    RestoreStepRestores(Run(start, c, steps), c, index);
  }

  /** Only metadata with apart hostnames is ever restored: any that gives two domains one hostname is refused by every store. */
  lemma SharedNameIsRefused(c: Checks, t: Tables, m: Metadata)
    requires Sound(t) && Distinct(m) && Restore(c, t, m).Some?
    ensures NamesApart(m.websites)
  {
    RestoreRestores(c, t, m);
    RestoreSound(c, t, m);
    var after := Restore(c, t, m).value;
    forall v, w, x, y | v in m.websites && w in m.websites && x in v.domains && y in w.domains && x.hostname == y.hostname
      ensures x.id == y.id
    {
      assert WebsiteRestored(after, m.account, v) && WebsiteRestored(after, m.account, w);
      assert DomainRestored(after, v.id, x) && DomainRestored(after, w.id, y);
    }
  }

  /**
   * No run produces metadata with a shared hostname, although names move between the queries of a backup: the name a pending domain is to
   * give up stays taken, and only the worker, which is reading the backup, could free it.
   */
  lemma BackupNamesApart(start: State, c: Checks, steps: seq<Step>, m: Metadata)
    requires Initial(start) && m in Run(start, c, steps).exports
    ensures Distinct(m) && NamesApart(m.websites)
  {
    RunKeeps(start, c, steps);
  }
}
