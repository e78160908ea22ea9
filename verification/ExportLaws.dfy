/** What an export and a backup hold of an account, in the fields of its rows, and over runs with the backup under way. */
module ExportLaws {
  import opened Options
  import opened Hosting
  import opened MetadataRestore
  import opened MetadataStore
  import opened BackupReads
  import opened MetadataRuns

  // ---- Items and rows ----

  /** The row of a task or database, whatever its status. */
  predicate Describes(item: ResourceItem, row: Resource) {
    item.node == row.node && item.claims == row.claims && item.definition == row.definition && item.enabled == row.enabled
  }

  predicate TaskStands(t: Tables, account: string, item: ResourceItem) {
    item.id in t.tasks && t.tasks[item.id].account == account && Describes(item, t.tasks[item.id])
  }

  predicate DatabaseStands(t: Tables, account: string, item: ResourceItem) {
    && item.id in t.databases && t.databases[item.id].account == account && t.databases[item.id].status == Active
    && Describes(item, t.databases[item.id])
  }

  predicate SiteStands(t: Tables, account: string, w: WebsiteItem) {
    && w.id in t.websites && t.websites[w.id].account == account && t.websites[w.id].node == w.node
    && t.websites[w.id].definition == w.definition && t.websites[w.id].enabled == w.enabled
  }

  predicate DomainStands(t: Tables, website: string, d: DomainItem) {
    && d.id in t.domains && t.domains[d.id].website == website && t.domains[d.id].hostname == d.hostname
    && t.domains[d.id].kind == d.kind && t.domains[d.id].enabled == d.enabled
  }

  /** The item lists the domains of its website, all and only those. */
  ghost predicate DomainsOwned(t: Tables, w: WebsiteItem) {
    forall d :: d in w.domains <==> DomainStands(t, w.id, d)
  }

  // ---- The export of one state ----

  /** Every task of the account whatever its status, every active database of it, and nothing else. */
  lemma ResourcesExported(t: Tables, account: string, l: Listing)
    requires Complete(l, t)
    ensures forall item :: item in Export(t, account, l).tasks <==> TaskStands(t, account, item)
    ensures forall item :: item in Export(t, account, l).databases <==> DatabaseStands(t, account, item)
  {
    DatabasesRead(t, account, l);
    TasksRead(t, account, l);
  }

  /** Every website of the account, each with every domain of its own, and nothing else. */
  lemma WebsitesExported(t: Tables, account: string, l: Listing)
    requires Complete(l, t)
    ensures Export(t, account, l).account == account
    ensures forall w :: w in Export(t, account, l).websites ==>
      SiteStands(t, account, w) && DomainsOwned(t, w)
    ensures forall id :: id in t.websites && t.websites[id].account == account ==>
      exists w :: w in Export(t, account, l).websites && w.id == id
  {
    var m := Export(t, account, l);
    forall w | w in m.websites ensures SiteStands(t, account, w) && DomainsOwned(t, w) {
      WebsiteItemsMeaning(t, account, l.websites, l.domains, w);
      DomainsListed(t, w.id, l);
    }
    forall id | id in t.websites && t.websites[id].account == account ensures exists w :: w in m.websites && w.id == id {
      WebsiteItemsMeaning(t, account, l.websites, l.domains, WebsiteItemOf(t, id, l.domains));
    }
  }

  lemma DomainsListed(t: Tables, website: string, l: Listing)
    requires Complete(l, t)
    ensures forall d :: d in DomainItems(t, website, l.domains) <==> DomainStands(t, website, d)
  {
    forall d ensures d in DomainItems(t, website, l.domains) <==> DomainStands(t, website, d) {
      DomainItemsMeaning(t, website, l.domains, d);
    }
  }

  lemma SitesListed(t: Tables, account: string, l: Listing)
    requires Complete(l, t)
    ensures forall w :: w in ListSites(t, account, l).sites <==> w.domains == [] && SiteStands(t, account, w)
  {
    var none: seq<string> := [];
    assert ListSites(t, account, l).sites == WebsiteItems(t, account, l.websites, none);
    forall w ensures w in ListSites(t, account, l).sites <==> w.domains == [] && SiteStands(t, account, w) {
      WebsiteItemsMeaning(t, account, l.websites, none, w);
    }
  }

  // ---- A backup read query by query ----

  /** Every listing of every query is complete. */
  ghost predicate AllComplete(view: nat -> Tables, order: nat -> Listing) {
    forall k: nat :: Complete(order(k), view(k))
  }

  /** The websites as the first query saw them, each with its domains as its own query saw them. */
  ghost predicate ReadAs(view: nat -> Tables, sites: seq<WebsiteItem>, done: seq<WebsiteItem>) {
    && |done| <= |sites|
    && forall i :: 0 <= i < |done| ==> done[i] == sites[i].(domains := done[i].domains) && DomainsOwned(view(i + 1), done[i])
  }

  lemma ReadOne(view: nat -> Tables, order: nat -> Listing, d: Draft, n: nat)
    requires ReadAs(view, d.sites, d.done) && |d.done| == n < |d.sites| && AllComplete(view, order)
    ensures var r := ReadSite(d, view(n + 1), order(n + 1)); r.Some? ==> ReadAs(view, d.sites, r.value.done)
  {
    DomainsListed(view(n + 1), d.sites[n].id, order(n + 1));
  }

  lemma {:induction false} SitesReadMeans(view: nat -> Tables, order: nat -> Listing, account: string, n: nat)
    requires n <= |ListSites(view(0), account, order(0)).sites| && SitesRead(view, order, account, n).Some?
    requires AllComplete(view, order)
    ensures ReadAs(view, ListSites(view(0), account, order(0)).sites, SitesRead(view, order, account, n).value.done)
  {
    if n == 0 {
    } else {
      SitesReadMeans(view, order, account, n - 1);
      ReadOne(view, order, SitesRead(view, order, account, n - 1).value, n - 1);
    }
  }

  /** What the queries found is what the metadata holds. */
  ghost predicate SitesHeld(view: nat -> Tables, account: string, ws: seq<WebsiteItem>) {
    && (forall id :: id in view(0).websites && view(0).websites[id].account == account ==> exists w :: w in ws && w.id == id)
    && forall i :: 0 <= i < |ws| ==> SiteStands(view(0), account, ws[i]) && DomainsOwned(view(i + 1), ws[i])
  }

  lemma SitesAreHeld(view: nat -> Tables, account: string, l: Listing, ws: seq<WebsiteItem>)
    requires Complete(l, view(0)) && ReadAs(view, ListSites(view(0), account, l).sites, ws)
    requires |ws| == |ListSites(view(0), account, l).sites|
    ensures SitesHeld(view, account, ws)
  {
    var sites := ListSites(view(0), account, l).sites;
    SitesListed(view(0), account, l);
    forall i | 0 <= i < |ws| ensures SiteStands(view(0), account, ws[i]) {
      assert sites[i] in sites;
    }
    forall id | id in view(0).websites && view(0).websites[id].account == account ensures exists w :: w in ws && w.id == id {
      assert Site(view(0), id) in sites;
      var i :| 0 <= i < |ws| && sites[i] == Site(view(0), id);
      assert ws[i].id == id;
    }
  }

  /** A backup whose queries found the store in the states of `view`: complete for the state each query saw. */
  lemma AssembledMeans(view: nat -> Tables, order: nat -> Listing, account: string, m: Metadata)
    requires Assembled(view, order, account) == Some(m) && AllComplete(view, order)
    ensures m.account == account && SitesHeld(view, account, m.websites)
    ensures forall item :: item in m.databases <==> DatabaseStands(view(|m.websites| + 1), account, item)
    ensures forall item :: item in m.tasks <==> TaskStands(view(|m.websites| + 2), account, item)
  {
    var n := |ListSites(view(0), account, order(0)).sites|;
    SitesReadMeans(view, order, account, n);
    SitesAreHeld(view, account, order(0), m.websites);
    DatabasesRead(view(n + 1), account, order(n + 1));
    TasksRead(view(n + 2), account, order(n + 2));
  }

  lemma DatabasesRead(t: Tables, account: string, l: Listing)
    requires Complete(l, t)
    ensures forall item :: item in ResourceItems(t.databases, account, true, l.databases) <==> DatabaseStands(t, account, item)
  {
    forall item ensures item in ResourceItems(t.databases, account, true, l.databases) <==> DatabaseStands(t, account, item) {
      ResourceItemsMeaning(t.databases, account, true, l.databases, item);
    }
  }

  lemma TasksRead(t: Tables, account: string, l: Listing)
    requires Complete(l, t)
    ensures forall item :: item in ResourceItems(t.tasks, account, false, l.tasks) <==> TaskStands(t, account, item)
  {
    forall item ensures item in ResourceItems(t.tasks, account, false, l.tasks) <==> TaskStands(t, account, item) {
      ResourceItemsMeaning(t.tasks, account, false, l.tasks, item);
    }
  }

  // ---- A backup under way while the store is written ----

  /** What may be so of a state of a run. */
  datatype Fact =
    | UnderWay
    | DatabaseAt(account: string, item: ResourceItem)
    | DomainAt(website: string, domain: DomainItem)

  predicate IsSo(s: State, f: Fact) {
    match f
    case UnderWay => s.draft.Some?
    case DatabaseAt(account, item) => DatabaseStands(s.tables, account, item)
    case DomainAt(website, domain) => DomainStands(s.tables, website, domain)
  }

  /** In every state of the run, and in some state of it. */
  ghost predicate Throughout(s: State, c: Checks, steps: seq<Step>, f: Fact)
    decreases |steps|
  {
    IsSo(s, f) && (steps == [] || Throughout(Next(s, c, steps[0]), c, steps[1..], f))
  }

  ghost predicate Sometime(s: State, c: Checks, steps: seq<Step>, f: Fact)
    decreases |steps|
  {
    IsSo(s, f) || (steps != [] && Sometime(Next(s, c, steps[0]), c, steps[1..], f))
  }

  /** The domains are read website by website, and the databases after them. */
  predicate Aligned(d: Draft) {
    && |d.done| <= |d.sites| && (d.databases.Some? ==> |d.done| == |d.sites|)
    && forall i :: 0 <= i < |d.done| ==> d.done[i] == d.sites[i].(domains := d.done[i].domains)
  }

  ghost predicate DomainsRead(t: Tables, d: Draft, e: Draft) {
    && |e.done| == |d.done| + 1 && e == d.(done := e.done) && e.done[..|d.done|] == d.done
    && DomainsOwned(t, e.done[|d.done|])
  }

  ghost predicate DatabasesTaken(t: Tables, d: Draft, e: Draft) {
    && e.databases.Some? && e == d.(databases := e.databases)
    && forall item :: item in e.databases.value <==> DatabaseStands(t, d.account, item)
  }

  lemma DraftStep(s: State, c: Checks, step: Step)
    requires s.draft.Some? && Aligned(s.draft.value) && Next(s, c, step).draft.Some?
    ensures var d, e := s.draft.value, Next(s, c, step).draft.value;
      Aligned(e) && (e == d || DomainsRead(s.tables, d, e) || DatabasesTaken(s.tables, d, e))
  {
    var d := s.draft.value;
    if step.Backup? && step.query.Domains? && Next(s, c, step) != s {
      DomainsListed(s.tables, d.sites[|d.done|].id, step.query.listing);
    } else if step.Backup? && step.query.Databases? && Next(s, c, step) != s {
      DatabasesRead(s.tables, d.account, step.query.listing);
    }
  }

  lemma {:induction false} DraftHolds(s: State, c: Checks, steps: seq<Step>)
    requires Throughout(s, c, steps, UnderWay) && Aligned(s.draft.value)
    ensures var end := Run(s, c, steps);
      && end.draft.Some? && Aligned(end.draft.value)
      && end.draft.value.account == s.draft.value.account && end.draft.value.sites == s.draft.value.sites
    decreases |steps|
  {
    if steps == [] {
    } else {
      DraftStep(s, c, steps[0]);
      DraftHolds(Next(s, c, steps[0]), c, steps[1..]);
    }
  }

  predicate HasDomain(d: Draft, website: string, x: DomainItem) {
    exists i :: 0 <= i < |d.done| && d.done[i].id == website && x in d.done[i].domains
  }

  predicate LacksDomain(d: Draft, website: string, x: DomainItem) {
    exists i :: 0 <= i < |d.done| && d.done[i].id == website && x !in d.done[i].domains
  }

  predicate HasDatabase(d: Draft, item: ResourceItem) {
    d.databases.Some? && item in d.databases.value
  }

  /** A domain that stands all the while is read with its website, and one that is read stood at some moment. */
  lemma {:induction false} DomainRead(s: State, c: Checks, steps: seq<Step>, website: string, x: DomainItem)
    requires Throughout(s, c, steps, UnderWay) && Aligned(s.draft.value)
    ensures var end := Run(s, c, steps);
      && end.draft.Some?
      && (Throughout(s, c, steps, DomainAt(website, x)) && LacksDomain(end.draft.value, website, x) ==>
            LacksDomain(s.draft.value, website, x))
      && (HasDomain(end.draft.value, website, x) ==>
            HasDomain(s.draft.value, website, x) || Sometime(s, c, steps, DomainAt(website, x)))
    decreases |steps|
  {
    if steps == [] {
    } else {
      var next := Next(s, c, steps[0]);
      DraftStep(s, c, steps[0]);
      DomainRead(next, c, steps[1..], website, x);
      DomainReadOnce(s, next.draft.value, website, x);
    }
  }

  lemma DomainReadOnce(s: State, e: Draft, website: string, x: DomainItem)
    requires s.draft.Some?
    requires e == s.draft.value || DomainsRead(s.tables, s.draft.value, e) || DatabasesTaken(s.tables, s.draft.value, e)
    ensures LacksDomain(e, website, x) && DomainStands(s.tables, website, x) ==> LacksDomain(s.draft.value, website, x)
    ensures HasDomain(e, website, x) ==> HasDomain(s.draft.value, website, x) || DomainStands(s.tables, website, x)
  {
    var d := s.draft.value;
    if DomainsRead(s.tables, d, e) {
      assert forall i :: 0 <= i < |d.done| ==> e.done[..|d.done|][i] == e.done[i];
    }
  }

  /** The same of a database that stands active. */
  lemma {:induction false} DatabaseRead(s: State, c: Checks, steps: seq<Step>, item: ResourceItem)
    requires Throughout(s, c, steps, UnderWay) && Aligned(s.draft.value)
    ensures var d, end := s.draft.value, Run(s, c, steps);
      && end.draft.Some?
      && (Throughout(s, c, steps, DatabaseAt(d.account, item)) && (d.databases.Some? ==> HasDatabase(d, item)) ==>
            (end.draft.value.databases.Some? ==> HasDatabase(end.draft.value, item)))
      && (HasDatabase(end.draft.value, item) ==> HasDatabase(d, item) || Sometime(s, c, steps, DatabaseAt(d.account, item)))
    decreases |steps|
  {
    if steps == [] {
    } else {
      DraftStep(s, c, steps[0]);
      DatabaseRead(Next(s, c, steps[0]), c, steps[1..], item);
    }
  }

  /** A backup of the account from its first query to its last, with other steps of the store in between. */
  ghost predicate BackedUp(s: State, c: Checks, account: string, first: Listing, steps: seq<Step>, last: Listing) {
    && s.draft.None? && Complete(first, s.tables)
    && var began := Next(s, c, Backup(Begin(account, first)));
      && Throughout(began, c, steps, UnderWay)
      && var end := Run(began, c, steps);
        end.draft.Some? && end.draft.value.databases.Some? && Complete(last, end.tables)
  }

  ghost function Finished(s: State, c: Checks, account: string, first: Listing, steps: seq<Step>, last: Listing): State {
    Next(Run(Next(s, c, Backup(Begin(account, first))), c, steps), c, Backup(End(last)))
  }

  lemma BackupParts(s: State, c: Checks, account: string, first: Listing, steps: seq<Step>, last: Listing)
    requires BackedUp(s, c, account, first, steps, last)
    ensures var began := Next(s, c, Backup(Begin(account, first)));
      var end, after := Run(began, c, steps), Finished(s, c, account, first, steps, last);
      && began.draft == Some(ListSites(s.tables, account, first)) && Aligned(began.draft.value)
      && after.exports == end.exports + [Finish(end.draft.value, end.tables, last)] && after.draft.None?
      && end.draft.value.account == account && end.draft.value.sites == began.draft.value.sites && Aligned(end.draft.value)
  {
    DraftHolds(Next(s, c, Backup(Begin(account, first))), c, steps);
  }

  ghost function BackupMade(s: State, c: Checks, account: string, first: Listing, steps: seq<Step>, last: Listing): Metadata
    requires BackedUp(s, c, account, first, steps, last)
  {
    BackupParts(s, c, account, first, steps, last);
    var after := Finished(s, c, account, first, steps, last);
    after.exports[|after.exports| - 1]
  }

  /** The finished backup has the tasks as they stand at its last query, whatever their status. */
  lemma BackupTasks(s: State, c: Checks, account: string, first: Listing, steps: seq<Step>, last: Listing, item: ResourceItem)
    requires BackedUp(s, c, account, first, steps, last)
    ensures item in BackupMade(s, c, account, first, steps, last).tasks
      <==> TaskStands(Finished(s, c, account, first, steps, last).tables, account, item)
  {
    BackupParts(s, c, account, first, steps, last);
    TasksRead(Run(Next(s, c, Backup(Begin(account, first))), c, steps).tables, account, last);
  }

  /** It has every database that stood active and unchanged during the queries, and none that never did. */
  lemma BackupDatabases(s: State, c: Checks, account: string, first: Listing, steps: seq<Step>, last: Listing, item: ResourceItem)
    requires BackedUp(s, c, account, first, steps, last)
    ensures var began, m := Next(s, c, Backup(Begin(account, first))), BackupMade(s, c, account, first, steps, last);
      && (Throughout(began, c, steps, DatabaseAt(account, item)) ==> item in m.databases)
      && (item in m.databases ==> Sometime(began, c, steps, DatabaseAt(account, item)))
  {
    BackupParts(s, c, account, first, steps, last);
    DatabaseRead(Next(s, c, Backup(Begin(account, first))), c, steps, item);
  }

  /** It has exactly the websites of the account, as they stood at its first query. */
  lemma BackupWebsites(s: State, c: Checks, account: string, first: Listing, steps: seq<Step>, last: Listing)
    requires BackedUp(s, c, account, first, steps, last)
    ensures var m := BackupMade(s, c, account, first, steps, last);
      && m.account == account && (forall w :: w in m.websites ==> SiteStands(s.tables, account, w))
      && forall id :: id in s.tables.websites && s.tables.websites[id].account == account ==> exists w :: w in m.websites && w.id == id
  {
    BackupParts(s, c, account, first, steps, last);
    var end := Run(Next(s, c, Backup(Begin(account, first))), c, steps);
    var sites, m := ListSites(s.tables, account, first).sites, BackupMade(s, c, account, first, steps, last);
    SitesListed(s.tables, account, first);
    assert m.websites == end.draft.value.done && |m.websites| == |sites|;
    forall w | w in m.websites ensures SiteStands(s.tables, account, w) {
      var i :| 0 <= i < |m.websites| && m.websites[i] == w;
      assert sites[i] in sites;
    }
    forall id | id in s.tables.websites && s.tables.websites[id].account == account ensures exists w :: w in m.websites && w.id == id {
      assert Site(s.tables, id) in sites;
      var i :| 0 <= i < |sites| && sites[i] == Site(s.tables, id);
      assert m.websites[i].id == id;
    }
  }

  /** With each website every domain that stood during the queries, and none that never did. */
  lemma BackupDomains(s: State, c: Checks, account: string, first: Listing, steps: seq<Step>, last: Listing, w: WebsiteItem, x: DomainItem)
    requires BackedUp(s, c, account, first, steps, last) && w in BackupMade(s, c, account, first, steps, last).websites
    ensures var began := Next(s, c, Backup(Begin(account, first)));
      && (Throughout(began, c, steps, DomainAt(w.id, x)) ==> x in w.domains)
      && (x in w.domains ==> Sometime(began, c, steps, DomainAt(w.id, x)))
  {
    BackupParts(s, c, account, first, steps, last);
    var began := Next(s, c, Backup(Begin(account, first)));
    DomainRead(began, c, steps, w.id, x);
    var done := Run(began, c, steps).draft.value.done;
    var i :| 0 <= i < |done| && done[i] == w;
  }
}
