/** Restoring exported metadata into any later state of the store, inside one transaction. */
module MetadataRestore {
  import opened Options
  import opened Hosting

  datatype DomainItem = DomainItem(id: string, hostname: string, kind: DomainKind, enabled: bool)

  datatype WebsiteItem = WebsiteItem(id: string, node: string, definition: string, enabled: bool, domains: seq<DomainItem>)

  /** An exported database or scheduled task, with what the unique indexes make of its names. */
  datatype ResourceItem = ResourceItem(id: string, node: string, claims: set<Claim>, definition: string, enabled: bool)

  datatype Metadata = Metadata(version: int, account: string, websites: seq<WebsiteItem>,
                               databases: seq<ResourceItem>, tasks: seq<ResourceItem>)

  const VERSION := 4

  /** The field checks of the restored values; they look at nothing but the value and the account. */
  datatype Checks = Checks(account: string -> bool, website: WebsiteItem -> bool, domain: DomainItem -> bool,
                           database: ResourceItem -> bool, task: ResourceItem -> bool)

  function StatusOf(enabled: bool): Status {
    if enabled then Active else Disabled
  }

  // ---- The transaction ----

  function DomainRow(t: Tables, website: string, d: DomainItem): Domain {
    if d.id in t.domains
    then t.domains[d.id].(hostname := d.hostname, kind := d.kind, enabled := d.enabled, status := StatusOf(d.enabled))
    else Domain(website, d.hostname, d.kind, d.enabled, StatusOf(d.enabled), None)
  }

  predicate DomainAdmitted(c: Checks, t: Tables, account: string, website: string, d: DomainItem)
    requires account in t.accounts
  {
    && c.domain(d)
    && (if d.id in t.domains then t.domains[d.id].website == website
        else |DomainsOf(t, account, d.kind)| < DomainLimit(t.accounts[account].limits, d.kind))
    && DomainFits(t, d.id, DomainRow(t, website, d))
  }

  function RestoreDomains(c: Checks, t: Tables, account: string, website: string, ds: seq<DomainItem>): (r: Option<Tables>)
    requires account in t.accounts
    ensures r.Some? ==> r.value == t.(domains := r.value.domains)
  {
    if ds == [] then Some(t)
    else
      match RestoreDomains(c, t, account, website, ds[..|ds| - 1])
      case None => None
      case Some(before) =>
        var d := ds[|ds| - 1];
        if DomainAdmitted(c, before, account, website, d) then Some(PutDomain(before, d.id, DomainRow(before, website, d))) else None
  }

  function Primaries(ds: seq<DomainItem>): nat {
    if ds == [] then 0 else Primaries(ds[..|ds| - 1]) + if ds[|ds| - 1].kind == Primary then 1 else 0
  }

  function WebsiteRow(t: Tables, account: string, w: WebsiteItem): Website {
    if w.id in t.websites then t.websites[w.id].(definition := w.definition, enabled := w.enabled, status := StatusOf(w.enabled))
    else Website(account, w.node, w.definition, w.enabled, StatusOf(w.enabled))
  }

  predicate WebsiteAdmitted(c: Checks, t: Tables, account: string, w: WebsiteItem)
    requires account in t.accounts
  {
    && c.website(w) && t.accounts[account].node == Some(w.node)
    && (if w.id in t.websites then t.websites[w.id].account == account
        else |WebsitesOf(t, account)| < t.accounts[account].limits.websites)
  }

  function RestoreWebsite(c: Checks, t: Tables, account: string, w: WebsiteItem): (r: Option<Tables>)
    requires account in t.accounts
    ensures r.Some? ==> r.value == t.(websites := r.value.websites, domains := r.value.domains)
  {
    if !WebsiteAdmitted(c, t, account, w) then None
    else
      match RestoreDomains(c, PutWebsite(t, w.id, WebsiteRow(t, account, w)), account, w.id, w.domains)
      case None => None
      case Some(after) => if Primaries(w.domains) == 1 then Some(after) else None
  }

  function RestoreWebsites(c: Checks, t: Tables, account: string, ws: seq<WebsiteItem>): (r: Option<Tables>)
    requires account in t.accounts
    ensures r.Some? ==> r.value == t.(websites := r.value.websites, domains := r.value.domains)
  {
    if ws == [] then Some(t)
    else
      match RestoreWebsites(c, t, account, ws[..|ws| - 1])
      case None => None
      case Some(before) => RestoreWebsite(c, before, account, ws[|ws| - 1])
  }

  function ResourceRow(rows: map<string, Resource>, account: string, i: ResourceItem): Resource {
    if i.id in rows then rows[i.id].(claims := i.claims, definition := i.definition, enabled := i.enabled, status := StatusOf(i.enabled))
    else Resource(account, i.node, i.claims, i.definition, i.enabled, StatusOf(i.enabled))
  }

  predicate ResourceAdmitted(check: ResourceItem -> bool, rows: map<string, Resource>, account: string, node: Option<string>,
                             limit: nat, i: ResourceItem)
  {
    && check(i) && node == Some(i.node)
    && (if i.id in rows then rows[i.id].account == account else |ResourcesOf(rows, account)| < limit)
    && (forall j :: j in rows && j != i.id ==> rows[j].claims !! i.claims)
  }

  function RestoreResources(check: ResourceItem -> bool, rows: map<string, Resource>, account: string, node: Option<string>,
                            limit: nat, items: seq<ResourceItem>): Option<map<string, Resource>>
  {
    if items == [] then Some(rows)
    else
      match RestoreResources(check, rows, account, node, limit, items[..|items| - 1])
      case None => None
      case Some(before) =>
        var i := items[|items| - 1];
        if ResourceAdmitted(check, before, account, node, limit, i) then Some(before[i.id := ResourceRow(before, account, i)]) else None
  }

  function Restore(c: Checks, t: Tables, m: Metadata): Option<Tables> {
    if m.version != VERSION || !c.account(m.account) || m.account !in t.accounts then None
    else
      var account := t.accounts[m.account];
      match RestoreWebsites(c, t, m.account, m.websites)
      case None => None
      case Some(w) =>
        match RestoreResources(c.database, t.databases, m.account, account.node, account.limits.databases, m.databases)
        case None => None
        case Some(databases) =>
          match RestoreResources(c.task, t.tasks, m.account, account.node, account.limits.tasks, m.tasks)
          case None => None
          case Some(tasks) => Some(w.(databases := databases, tasks := tasks))
  }

  // ---- One website ----

  ghost predicate DomainIdsDistinct(ds: seq<DomainItem>) {
    forall i, j :: 0 <= i < j < |ds| ==> ds[i].id != ds[j].id
  }

  predicate ListsDomain(ds: seq<DomainItem>, id: string) {
    exists d :: d in ds && d.id == id
  }

  lemma {:induction false} DomainsElsewhere(c: Checks, t: Tables, account: string, website: string, ds: seq<DomainItem>, id: string)
    requires account in t.accounts && RestoreDomains(c, t, account, website, ds).Some? && !ListsDomain(ds, id)
    ensures var after := RestoreDomains(c, t, account, website, ds).value;
      (id in after.domains <==> id in t.domains) && (id in t.domains ==> after.domains[id] == t.domains[id])
  {
    if ds == [] {
    } else {
      assert ds[|ds| - 1] in ds;
      assert forall d :: d in ds[..|ds| - 1] ==> d in ds;
      DomainsElsewhere(c, t, account, website, ds[..|ds| - 1], id);
    }
  }

  lemma {:induction false} DomainsIndexed(c: Checks, t: Tables, account: string, website: string, ds: seq<DomainItem>)
    requires account in t.accounts && RestoreDomains(c, t, account, website, ds).Some? && Indexed(t)
    ensures Indexed(RestoreDomains(c, t, account, website, ds).value)
  {
    if ds == [] {
    } else {
      var n := |ds| - 1;
      DomainsIndexed(c, t, account, website, ds[..n]);
      var before := RestoreDomains(c, t, account, website, ds[..n]).value;
      PutDomainIndexed(before, ds[n].id, DomainRow(before, website, ds[n]));
    }
  }

  /** The exported definition of a domain, under its website. */
  predicate DomainRestored(t: Tables, website: string, d: DomainItem) {
    && d.id in t.domains
    && t.domains[d.id].website == website && t.domains[d.id].hostname == d.hostname && t.domains[d.id].kind == d.kind
    && t.domains[d.id].enabled == d.enabled && t.domains[d.id].status == StatusOf(d.enabled)
  }

  lemma {:induction false} DomainsRestored(c: Checks, t: Tables, account: string, website: string, ds: seq<DomainItem>, i: nat)
    requires account in t.accounts && RestoreDomains(c, t, account, website, ds).Some? && DomainIdsDistinct(ds) && i < |ds|
    ensures DomainRestored(RestoreDomains(c, t, account, website, ds).value, website, ds[i])
  {
    var n := |ds| - 1;
    if i == n {
    } else {
      assert ds[i].id != ds[n].id;
      DomainsRestored(c, t, account, website, ds[..n], i);
    }
  }

  lemma {:induction false} PrimaryListed(ds: seq<DomainItem>) returns (i: nat)
    requires Primaries(ds) >= 1
    ensures i < |ds| && ds[i].kind == Primary
  {
    var n := |ds| - 1;
    if ds[n].kind == Primary {
      i := n;
    } else {
      i := PrimaryListed(ds[..n]);
    }
  }

  lemma WebsiteIndexed(c: Checks, t: Tables, account: string, w: WebsiteItem)
    requires account in t.accounts && RestoreWebsite(c, t, account, w).Some? && Indexed(t)
    ensures Indexed(RestoreWebsite(c, t, account, w).value)
  {
    var row := WebsiteRow(t, account, w);
    PutWebsiteIndexed(t, w.id, row);
    DomainsIndexed(c, PutWebsite(t, w.id, row), account, w.id, w.domains);
  }

  /** Every website keeps a primary domain: the restored one has a listed primary, the others lose none. */
  lemma WebsitePrimaries(c: Checks, t: Tables, account: string, w: WebsiteItem)
    requires account in t.accounts && RestoreWebsite(c, t, account, w).Some? && DomainIdsDistinct(w.domains)
    requires Indexed(t) && EveryWebsiteHasPrimary(t)
    ensures EveryWebsiteHasPrimary(RestoreWebsite(c, t, account, w).value)
  {
    var mid := PutWebsite(t, w.id, WebsiteRow(t, account, w));
    var after := RestoreWebsite(c, t, account, w).value;
    forall x | x in after.websites ensures exists id :: PrimaryOf(after, x, id) {
      if x == w.id {
        var i := PrimaryListed(w.domains);
        DomainsRestored(c, mid, account, w.id, w.domains, i);
        assert PrimaryOf(after, x, w.domains[i].id);
      } else {
        var id :| PrimaryOf(t, x, id);
        DomainsKeepWebsite(c, mid, account, w.id, w.domains, id);
        assert PrimaryOf(after, x, id);
      }
    }
  }

  /** A domain of another website is never rewritten. */
  lemma {:induction false} DomainsKeepWebsite(c: Checks, t: Tables, account: string, website: string, ds: seq<DomainItem>, id: string)
    requires account in t.accounts && RestoreDomains(c, t, account, website, ds).Some? && id in t.domains
    ensures id in RestoreDomains(c, t, account, website, ds).value.domains
    ensures t.domains[id].website != website ==> RestoreDomains(c, t, account, website, ds).value.domains[id] == t.domains[id]
    ensures RestoreDomains(c, t, account, website, ds).value.domains[id].website == t.domains[id].website
  {
    if ds == [] {
    } else {
      DomainsKeepWebsite(c, t, account, website, ds[..|ds| - 1], id);
    }
  }

  // ---- All websites ----

  /** Ids as an export lists them: no website twice, no domain twice. */
  ghost predicate WebsitesDistinct(ws: seq<WebsiteItem>) {
    && (forall i, j :: 0 <= i < j < |ws| ==> ws[i].id != ws[j].id)
    && (forall i :: 0 <= i < |ws| ==> DomainIdsDistinct(ws[i].domains))
    && (forall i, j, id :: 0 <= i < j < |ws| && ListsDomain(ws[i].domains, id) ==> !ListsDomain(ws[j].domains, id))
  }

  predicate ListsWebsite(ws: seq<WebsiteItem>, id: string) {
    exists w :: w in ws && w.id == id
  }

  predicate ListsAnyDomain(ws: seq<WebsiteItem>, id: string) {
    exists w :: w in ws && ListsDomain(w.domains, id)
  }

  ghost predicate SameWebsiteRow(t: Tables, after: Tables, id: string) {
    (id in after.websites <==> id in t.websites) && (id in t.websites ==> after.websites[id] == t.websites[id])
  }

  ghost predicate SameDomainRow(t: Tables, after: Tables, id: string) {
    (id in after.domains <==> id in t.domains) && (id in t.domains ==> after.domains[id] == t.domains[id])
  }

  lemma WebsiteFrame(c: Checks, t: Tables, account: string, w: WebsiteItem)
    requires account in t.accounts && RestoreWebsite(c, t, account, w).Some?
    ensures var after := RestoreWebsite(c, t, account, w).value;
      && (forall id :: id != w.id ==> SameWebsiteRow(t, after, id))
      && (forall id :: !ListsDomain(w.domains, id) ==> SameDomainRow(t, after, id))
  {
    var mid := PutWebsite(t, w.id, WebsiteRow(t, account, w));
    forall id | !ListsDomain(w.domains, id) ensures SameDomainRow(t, RestoreWebsite(c, t, account, w).value, id) {
      DomainsElsewhere(c, mid, account, w.id, w.domains, id);
    }
  }

  lemma {:induction false} WebsiteElsewhere(c: Checks, t: Tables, account: string, ws: seq<WebsiteItem>, id: string)
    requires account in t.accounts && RestoreWebsites(c, t, account, ws).Some? && !ListsWebsite(ws, id)
    ensures SameWebsiteRow(t, RestoreWebsites(c, t, account, ws).value, id)
  {
    if ws == [] {
    } else {
      var n := |ws| - 1;
      assert ws[n] in ws && forall w :: w in ws[..n] ==> w in ws;
      WebsiteElsewhere(c, t, account, ws[..n], id);
      WebsiteFrame(c, RestoreWebsites(c, t, account, ws[..n]).value, account, ws[n]);
    }
  }

  lemma {:induction false} DomainElsewhere(c: Checks, t: Tables, account: string, ws: seq<WebsiteItem>, id: string)
    requires account in t.accounts && RestoreWebsites(c, t, account, ws).Some? && !ListsAnyDomain(ws, id)
    ensures SameDomainRow(t, RestoreWebsites(c, t, account, ws).value, id)
  {
    if ws == [] {
    } else {
      var n := |ws| - 1;
      assert ws[n] in ws && forall w :: w in ws[..n] ==> w in ws;
      DomainElsewhere(c, t, account, ws[..n], id);
      WebsiteFrame(c, RestoreWebsites(c, t, account, ws[..n]).value, account, ws[n]);
    }
  }

  lemma {:induction false} WebsitesSound(c: Checks, t: Tables, account: string, ws: seq<WebsiteItem>)
    requires account in t.accounts && RestoreWebsites(c, t, account, ws).Some? && WebsitesDistinct(ws) && Sound(t)
    ensures Sound(RestoreWebsites(c, t, account, ws).value)
  {
    if ws == [] {
    } else {
      var n := |ws| - 1;
      WebsitesSound(c, t, account, ws[..n]);
      var before := RestoreWebsites(c, t, account, ws[..n]).value;
      WebsiteIndexed(c, before, account, ws[n]);
      WebsitePrimaries(c, before, account, ws[n]);
    }
  }

  /** The exported definition of a website and of each of its domains. */
  ghost predicate WebsiteRestored(t: Tables, account: string, w: WebsiteItem) {
    && w.id in t.websites
    && t.websites[w.id].account == account && t.websites[w.id].definition == w.definition
    && t.websites[w.id].enabled == w.enabled && t.websites[w.id].status == StatusOf(w.enabled)
    && forall d :: d in w.domains ==> DomainRestored(t, w.id, d)
  }

  lemma OneWebsiteRestored(c: Checks, t: Tables, account: string, w: WebsiteItem)
    requires account in t.accounts && RestoreWebsite(c, t, account, w).Some? && DomainIdsDistinct(w.domains)
    ensures WebsiteRestored(RestoreWebsite(c, t, account, w).value, account, w)
  {
    var mid := PutWebsite(t, w.id, WebsiteRow(t, account, w));
    forall d | d in w.domains ensures DomainRestored(RestoreWebsite(c, t, account, w).value, w.id, d) {
      var i :| 0 <= i < |w.domains| && w.domains[i] == d;
      DomainsRestored(c, mid, account, w.id, w.domains, i);
    }
  }

  lemma {:induction false} WebsitesRestored(c: Checks, t: Tables, account: string, ws: seq<WebsiteItem>, i: nat)
    requires account in t.accounts && RestoreWebsites(c, t, account, ws).Some? && WebsitesDistinct(ws) && i < |ws|
    ensures WebsiteRestored(RestoreWebsites(c, t, account, ws).value, account, ws[i])
  {
    var n := |ws| - 1;
    var before := RestoreWebsites(c, t, account, ws[..n]).value;
    if i == n {
      OneWebsiteRestored(c, before, account, ws[n]);
    } else {
      WebsitesRestored(c, t, account, ws[..n], i);
      WebsiteFrame(c, before, account, ws[n]);
      var after := RestoreWebsites(c, t, account, ws).value;
      assert SameWebsiteRow(before, after, ws[i].id);
      forall d | d in ws[i].domains ensures DomainRestored(after, ws[i].id, d) {
        assert ListsDomain(ws[i].domains, d.id);
        assert SameDomainRow(before, after, d.id);
      }
    }
  }

  // ---- Counters ----

  /** A row that is still there has the kind it had when it was exported. */
  ghost predicate KindsAgree(t: Tables, ds: seq<DomainItem>) {
    forall d :: d in ds && d.id in t.domains ==> t.domains[d.id].kind == d.kind
  }

  lemma WithinTransitive(t: Tables, mid: Tables, after: Tables, a: string, l: Limits)
    requires GrewWithin(t, mid, a, l) && GrewWithin(mid, after, a, l)
    ensures GrewWithin(t, after, a, l)
  {
  }

  lemma DomainCountOf(t: Tables, id: string, row: Domain, a: string, kind: DomainKind, limit: nat)
    requires id in t.domains ==> t.domains[id].website == row.website && t.domains[id].kind == row.kind
    requires Owns(t, a, row) && row.kind == kind && id !in t.domains ==> |DomainsOf(t, a, kind)| < limit
    ensures |DomainsOf(PutDomain(t, id, row), a, kind)| <= Max(|DomainsOf(t, a, kind)|, limit)
  {
    PutDomainCounts(t, id, row, a, kind);
    OneMore(DomainsOf(t, a, kind), id);
    if id in t.domains && Owns(t, a, row) && row.kind == kind {
      assert DomainsOf(t, a, kind) + {id} == DomainsOf(t, a, kind);
    }
  }

  lemma DomainCounts(c: Checks, t: Tables, account: string, website: string, d: DomainItem, a: string)
    requires account in t.accounts && a in t.accounts && website in t.websites && t.websites[website].account == account
    requires DomainAdmitted(c, t, account, website, d) && (d.id in t.domains ==> t.domains[d.id].kind == d.kind)
    ensures GrewWithin(t, PutDomain(t, d.id, DomainRow(t, website, d)), a, t.accounts[a].limits)
  {
    var row, l := DomainRow(t, website, d), t.accounts[a].limits;
    DomainCountOf(t, d.id, row, a, Primary, l.domains);
    DomainCountOf(t, d.id, row, a, Alias, l.aliases);
    assert WebsitesOf(PutDomain(t, d.id, row), a) == WebsitesOf(t, a);
    WithinByCounts(t, PutDomain(t, d.id, row), a, l);
  }

  /**
   * One domain: a counter grows above its limit exactly when an existing row changes its kind and the counter of
   * the new kind is already at the limit, since the capacity check only looks at new rows.
   */
  lemma DomainCountsExactly(c: Checks, t: Tables, account: string, website: string, d: DomainItem)
    requires account in t.accounts && website in t.websites && t.websites[website].account == account
    requires DomainAdmitted(c, t, account, website, d)
    ensures GrewWithin(t, PutDomain(t, d.id, DomainRow(t, website, d)), account, t.accounts[account].limits)
      <==> !(d.id in t.domains && t.domains[d.id].kind != d.kind
             && |DomainsOf(t, account, d.kind)| >= DomainLimit(t.accounts[account].limits, d.kind))
  {
    if d.id in t.domains && t.domains[d.id].kind != d.kind {
      KindChangeCounts(t, account, website, d);
    } else {
      DomainCounts(c, t, account, website, d, account);
    }
  }

  lemma KindChangeCounts(t: Tables, account: string, website: string, d: DomainItem)
    requires website in t.websites && t.websites[website].account == account
    requires d.id in t.domains && t.domains[d.id].website == website && t.domains[d.id].kind != d.kind
    ensures var after, other := PutDomain(t, d.id, DomainRow(t, website, d)), t.domains[d.id].kind;
      && |DomainsOf(after, account, d.kind)| == |DomainsOf(t, account, d.kind)| + 1
      && |DomainsOf(after, account, other)| < |DomainsOf(t, account, other)|
      && WebsitesOf(after, account) == WebsitesOf(t, account)
  {
    var after, other := PutDomain(t, d.id, DomainRow(t, website, d)), t.domains[d.id].kind;
    assert DomainsOf(after, account, d.kind) == DomainsOf(t, account, d.kind) + {d.id};
    assert DomainsOf(t, account, other) == DomainsOf(after, account, other) + {d.id};
    assert WebsitesOf(after, account) == WebsitesOf(t, account);
  }

  lemma {:induction false} DomainsCounts(c: Checks, t: Tables, account: string, website: string, ds: seq<DomainItem>, a: string)
    requires account in t.accounts && a in t.accounts && website in t.websites && t.websites[website].account == account
    requires RestoreDomains(c, t, account, website, ds).Some? && DomainIdsDistinct(ds) && KindsAgree(t, ds)
    ensures GrewWithin(t, RestoreDomains(c, t, account, website, ds).value, a, t.accounts[a].limits)
  {
    if ds == [] {
    } else {
      var n := |ds| - 1;
      DomainsCounts(c, t, account, website, ds[..n], a);
      var before := RestoreDomains(c, t, account, website, ds[..n]).value;
      assert !ListsDomain(ds[..n], ds[n].id);
      DomainsElsewhere(c, t, account, website, ds[..n], ds[n].id);
      assert ds[n] in ds;
      DomainCounts(c, before, account, website, ds[n], a);
      WithinTransitive(t, before, RestoreDomains(c, t, account, website, ds).value, a, t.accounts[a].limits);
    }
  }

  lemma WebsiteRowCounts(c: Checks, t: Tables, account: string, w: WebsiteItem, a: string)
    requires account in t.accounts && a in t.accounts && Indexed(t) && WebsiteAdmitted(c, t, account, w)
    ensures GrewWithin(t, PutWebsite(t, w.id, WebsiteRow(t, account, w)), a, t.accounts[a].limits)
  {
    var row := WebsiteRow(t, account, w);
    PutWebsiteCounts(t, w.id, row, a, Primary);
    PutWebsiteCounts(t, w.id, row, a, Alias);
    if w.id in t.websites {
      assert row.account == a ==> WebsitesOf(t, a) + {w.id} == WebsitesOf(t, a);
    }
    OneMore(WebsitesOf(t, a), w.id);
    WithinByCounts(t, PutWebsite(t, w.id, row), a, t.accounts[a].limits);
  }

  lemma WebsiteCounts(c: Checks, t: Tables, account: string, w: WebsiteItem, a: string)
    requires account in t.accounts && a in t.accounts && Indexed(t)
    requires RestoreWebsite(c, t, account, w).Some? && DomainIdsDistinct(w.domains) && KindsAgree(t, w.domains)
    ensures GrewWithin(t, RestoreWebsite(c, t, account, w).value, a, t.accounts[a].limits)
  {
    var mid := PutWebsite(t, w.id, WebsiteRow(t, account, w));
    WebsiteRowCounts(c, t, account, w, a);
    DomainsCounts(c, mid, account, w.id, w.domains, a);
    WithinTransitive(t, mid, RestoreWebsite(c, t, account, w).value, a, t.accounts[a].limits);
  }

  lemma {:induction false} WebsitesCounts(c: Checks, t: Tables, account: string, ws: seq<WebsiteItem>, a: string)
    requires account in t.accounts && a in t.accounts && Sound(t)
    requires RestoreWebsites(c, t, account, ws).Some? && WebsitesDistinct(ws)
    requires forall i :: 0 <= i < |ws| ==> KindsAgree(t, ws[i].domains)
    ensures GrewWithin(t, RestoreWebsites(c, t, account, ws).value, a, t.accounts[a].limits)
  {
    if ws == [] {
    } else {
      var n := |ws| - 1;
      WebsitesCounts(c, t, account, ws[..n], a);
      WebsitesSound(c, t, account, ws[..n]);
      var before := RestoreWebsites(c, t, account, ws[..n]).value;
      forall d | d in ws[n].domains && d.id in before.domains ensures before.domains[d.id].kind == d.kind {
        assert ListsDomain(ws[n].domains, d.id);
        NotListedBefore(ws, d.id);
        DomainElsewhere(c, t, account, ws[..n], d.id);
        assert SameDomainRow(t, before, d.id);
      }
      WebsiteCounts(c, before, account, ws[n], a);
      WithinTransitive(t, before, RestoreWebsites(c, t, account, ws).value, a, t.accounts[a].limits);
    }
  }

  lemma NotListedBefore(ws: seq<WebsiteItem>, id: string)
    requires ws != [] && WebsitesDistinct(ws) && ListsDomain(ws[|ws| - 1].domains, id)
    ensures !ListsAnyDomain(ws[..|ws| - 1], id)
  {
    forall w | w in ws[..|ws| - 1] ensures !ListsDomain(w.domains, id) {
      var i :| 0 <= i < |ws| - 1 && ws[i] == w;
    }
  }

  // ---- Databases and scheduled tasks ----

  ghost predicate ItemsDistinct(items: seq<ResourceItem>) {
    forall i, j :: 0 <= i < j < |items| ==> items[i].id != items[j].id
  }

  predicate ListsItem(items: seq<ResourceItem>, id: string) {
    exists i :: i in items && i.id == id
  }

  predicate ResourceRestored(rows: map<string, Resource>, account: string, i: ResourceItem) {
    && i.id in rows
    && rows[i.id].account == account && rows[i.id].claims == i.claims && rows[i.id].definition == i.definition
    && rows[i.id].enabled == i.enabled && rows[i.id].status == StatusOf(i.enabled)
  }

  lemma {:induction false} ResourceElsewhere(check: ResourceItem -> bool, rows: map<string, Resource>, account: string,
                                             node: Option<string>, limit: nat, items: seq<ResourceItem>, id: string)
    requires RestoreResources(check, rows, account, node, limit, items).Some?
    requires !ListsItem(items, id) || (id in rows && rows[id].account != account)
    ensures var after := RestoreResources(check, rows, account, node, limit, items).value;
      (id in after <==> id in rows) && (id in rows ==> after[id] == rows[id])
  {
    if items == [] {
    } else {
      var n := |items| - 1;
      assert items[n] in items && forall i :: i in items[..n] ==> i in items;
      ResourceElsewhere(check, rows, account, node, limit, items[..n], id);
    }
  }

  lemma {:induction false} ResourcesRestored(check: ResourceItem -> bool, rows: map<string, Resource>, account: string,
                                             node: Option<string>, limit: nat, items: seq<ResourceItem>, k: nat)
    requires RestoreResources(check, rows, account, node, limit, items).Some? && ItemsDistinct(items) && k < |items|
    ensures ResourceRestored(RestoreResources(check, rows, account, node, limit, items).value, account, items[k])
  {
    var n := |items| - 1;
    if k == n {
    } else {
      assert items[k].id != items[n].id;
      ResourcesRestored(check, rows, account, node, limit, items[..n], k);
    }
  }

  lemma {:induction false} ResourcesApart(check: ResourceItem -> bool, rows: map<string, Resource>, account: string,
                                          node: Option<string>, limit: nat, items: seq<ResourceItem>)
    requires RestoreResources(check, rows, account, node, limit, items).Some? && ClaimsApart(rows)
    ensures ClaimsApart(RestoreResources(check, rows, account, node, limit, items).value)
  {
    if items == [] {
    } else {
      ResourcesApart(check, rows, account, node, limit, items[..|items| - 1]);
    }
  }

  lemma ResourceCountStep(rows: map<string, Resource>, id: string, row: Resource, a: string)
    requires id in rows ==> rows[id].account == row.account
    ensures ResourcesOf(rows[id := row], a) == if row.account == a then ResourcesOf(rows, a) + {id} else ResourcesOf(rows, a)
  {
  }

  lemma {:induction false} ResourcesCount(check: ResourceItem -> bool, rows: map<string, Resource>, account: string,
                                          node: Option<string>, limit: nat, items: seq<ResourceItem>, a: string)
    requires RestoreResources(check, rows, account, node, limit, items).Some?
    ensures |ResourcesOf(RestoreResources(check, rows, account, node, limit, items).value, a)|
         <= if a == account then Max(|ResourcesOf(rows, a)|, limit) else |ResourcesOf(rows, a)|
  {
    if items == [] {
    } else {
      var n := |items| - 1;
      var before := RestoreResources(check, rows, account, node, limit, items[..n]).value;
      ResourcesCount(check, rows, account, node, limit, items[..n], a);
      ResourceCountStep(before, items[n].id, ResourceRow(before, account, items[n]), a);
      if items[n].id in before && a == account {
        assert ResourcesOf(before, a) + {items[n].id} == ResourcesOf(before, a);
      }
      OneMore(ResourcesOf(before, a), items[n].id);
    }
  }

  // ---- The whole transaction ----

  ghost predicate Distinct(m: Metadata) {
    WebsitesDistinct(m.websites) && ItemsDistinct(m.databases) && ItemsDistinct(m.tasks)
  }

  /** Every exported website, domain, database and task has its exported definition. */
  ghost predicate AllRestored(t: Tables, m: Metadata) {
    && (forall w :: w in m.websites ==> WebsiteRestored(t, m.account, w))
    && (forall i :: i in m.databases ==> ResourceRestored(t.databases, m.account, i))
    && (forall i :: i in m.tasks ==> ResourceRestored(t.tasks, m.account, i))
  }

  ghost predicate SameResourceRow(rows: map<string, Resource>, after: map<string, Resource>, id: string) {
    (id in after <==> id in rows) && (id in rows ==> after[id] == rows[id])
  }

  /** Every row the metadata does not list is as it was. */
  ghost predicate OthersKept(t: Tables, after: Tables, m: Metadata) {
    && after.accounts == t.accounts
    && (forall id :: !ListsWebsite(m.websites, id) ==> SameWebsiteRow(t, after, id))
    && (forall id :: !ListsAnyDomain(m.websites, id) ==> SameDomainRow(t, after, id))
    && (forall id :: !ListsItem(m.databases, id) ==> SameResourceRow(t.databases, after.databases, id))
    && (forall id :: !ListsItem(m.tasks, id) ==> SameResourceRow(t.tasks, after.tasks, id))
  }

  lemma RestoreParts(c: Checks, t: Tables, m: Metadata)
    requires Restore(c, t, m).Some?
    ensures m.account in t.accounts
    ensures var after, a := Restore(c, t, m).value, t.accounts[m.account];
      && RestoreWebsites(c, t, m.account, m.websites).Some?
      && RestoreResources(c.database, t.databases, m.account, a.node, a.limits.databases, m.databases) == Some(after.databases)
      && RestoreResources(c.task, t.tasks, m.account, a.node, a.limits.tasks, m.tasks) == Some(after.tasks)
      && after.accounts == t.accounts
      && after.websites == RestoreWebsites(c, t, m.account, m.websites).value.websites
      && after.domains == RestoreWebsites(c, t, m.account, m.websites).value.domains
  {
  }

  lemma RestoreRestores(c: Checks, t: Tables, m: Metadata)
    requires Restore(c, t, m).Some? && Distinct(m)
    ensures AllRestored(Restore(c, t, m).value, m)
  {
    RestoreParts(c, t, m);
    var a := t.accounts[m.account];
    forall w | w in m.websites ensures WebsiteRestored(Restore(c, t, m).value, m.account, w) {
      var i :| 0 <= i < |m.websites| && m.websites[i] == w;
      WebsitesRestored(c, t, m.account, m.websites, i);
    }
    forall i | i in m.databases ensures ResourceRestored(Restore(c, t, m).value.databases, m.account, i) {
      var k :| 0 <= k < |m.databases| && m.databases[k] == i;
      ResourcesRestored(c.database, t.databases, m.account, a.node, a.limits.databases, m.databases, k);
    }
    forall i | i in m.tasks ensures ResourceRestored(Restore(c, t, m).value.tasks, m.account, i) {
      var k :| 0 <= k < |m.tasks| && m.tasks[k] == i;
      ResourcesRestored(c.task, t.tasks, m.account, a.node, a.limits.tasks, m.tasks, k);
    }
  }

  lemma RestoreKeepsOthers(c: Checks, t: Tables, m: Metadata)
    requires Restore(c, t, m).Some?
    ensures OthersKept(t, Restore(c, t, m).value, m)
  {
    RestoreParts(c, t, m);
    var a, after := t.accounts[m.account], Restore(c, t, m).value;
    forall id | !ListsWebsite(m.websites, id) ensures SameWebsiteRow(t, after, id) {
      WebsiteElsewhere(c, t, m.account, m.websites, id);
    }
    forall id | !ListsAnyDomain(m.websites, id) ensures SameDomainRow(t, after, id) {
      DomainElsewhere(c, t, m.account, m.websites, id);
    }
    forall id | !ListsItem(m.databases, id) ensures SameResourceRow(t.databases, after.databases, id) {
      ResourceElsewhere(c.database, t.databases, m.account, a.node, a.limits.databases, m.databases, id);
    }
    forall id | !ListsItem(m.tasks, id) ensures SameResourceRow(t.tasks, after.tasks, id) {
      ResourceElsewhere(c.task, t.tasks, m.account, a.node, a.limits.tasks, m.tasks, id);
    }
  }

  lemma {:induction false} OtherAccountsSites(c: Checks, t: Tables, account: string, ws: seq<WebsiteItem>, id: string)
    requires account in t.accounts && RestoreWebsites(c, t, account, ws).Some?
    requires id in t.websites && t.websites[id].account != account
    ensures var after := RestoreWebsites(c, t, account, ws).value;
      && SameWebsiteRow(t, after, id)
      && forall d :: d in t.domains && t.domains[d].website == id ==> SameDomainRow(t, after, d)
  {
    if ws == [] {
    } else {
      var n := |ws| - 1;
      OtherAccountsSites(c, t, account, ws[..n], id);
      var before := RestoreWebsites(c, t, account, ws[..n]).value;
      WebsiteFrame(c, before, account, ws[n]);
      forall d | d in t.domains && t.domains[d].website == id ensures SameDomainRow(t, RestoreWebsites(c, t, account, ws).value, d) {
        DomainsKeepWebsite(c, PutWebsite(before, ws[n].id, WebsiteRow(before, account, ws[n])), account, ws[n].id, ws[n].domains, d);
      }
    }
  }

  predicate OwnedElsewhere(t: Tables, id: string, account: string)
    requires id in t.domains
  {
    t.domains[id].website in t.websites && t.websites[t.domains[id].website].account != account
  }

  /** Rows of other accounts are untouched, listed or not. */
  lemma OtherAccountsKept(c: Checks, t: Tables, m: Metadata)
    requires Restore(c, t, m).Some?
    ensures var after := Restore(c, t, m).value;
      && (forall id :: id in t.websites && t.websites[id].account != m.account ==> SameWebsiteRow(t, after, id))
      && (forall id :: id in t.domains && OwnedElsewhere(t, id, m.account) ==> SameDomainRow(t, after, id))
      && (forall id :: id in t.databases && t.databases[id].account != m.account ==> SameResourceRow(t.databases, after.databases, id))
      && (forall id :: id in t.tasks && t.tasks[id].account != m.account ==> SameResourceRow(t.tasks, after.tasks, id))
  {
    RestoreParts(c, t, m);
    var a, after := t.accounts[m.account], Restore(c, t, m).value;
    forall id | id in t.websites && t.websites[id].account != m.account
      ensures SameWebsiteRow(t, after, id)
      ensures forall d :: d in t.domains && t.domains[d].website == id ==> SameDomainRow(t, after, d)
    {
      OtherAccountsSites(c, t, m.account, m.websites, id);
    }
    forall id | id in t.databases && t.databases[id].account != m.account ensures SameResourceRow(t.databases, after.databases, id) {
      ResourceElsewhere(c.database, t.databases, m.account, a.node, a.limits.databases, m.databases, id);
    }
    forall id | id in t.tasks && t.tasks[id].account != m.account ensures SameResourceRow(t.tasks, after.tasks, id) {
      ResourceElsewhere(c.task, t.tasks, m.account, a.node, a.limits.tasks, m.tasks, id);
    }
  }

  lemma RestoreSound(c: Checks, t: Tables, m: Metadata)
    requires Restore(c, t, m).Some? && WebsitesDistinct(m.websites) && Sound(t)
    ensures Sound(Restore(c, t, m).value)
  {
    RestoreParts(c, t, m);
    var a, after := t.accounts[m.account], Restore(c, t, m).value;
    var sites := RestoreWebsites(c, t, m.account, m.websites).value;
    WebsitesSound(c, t, m.account, m.websites);
    ResourcesApart(c.database, t.databases, m.account, a.node, a.limits.databases, m.databases);
    ResourcesApart(c.task, t.tasks, m.account, a.node, a.limits.tasks, m.tasks);
    forall w, i, j | PrimaryOf(after, w, i) && PrimaryOf(after, w, j) ensures i == j {
      assert PrimaryOf(sites, w, i) && PrimaryOf(sites, w, j);
    }
    forall w | w in after.websites ensures exists d :: PrimaryOf(after, w, d) {
      var d :| PrimaryOf(sites, w, d);
      assert PrimaryOf(after, w, d);
    }
  }

  /** No counter grows above its limit when the rows still there have their exported kind. */
  lemma RestoreWithinLimits(c: Checks, t: Tables, m: Metadata, a: string)
    requires Restore(c, t, m).Some? && WebsitesDistinct(m.websites) && Sound(t) && a in t.accounts
    requires forall w :: w in m.websites ==> KindsAgree(t, w.domains)
    ensures GrewWithin(t, Restore(c, t, m).value, a, t.accounts[a].limits)
  {
    RestoreParts(c, t, m);
    var acc, after := t.accounts[m.account], Restore(c, t, m).value;
    var sites := RestoreWebsites(c, t, m.account, m.websites).value;
    WebsitesCounts(c, t, m.account, m.websites, a);
    ResourcesCount(c.database, t.databases, m.account, acc.node, acc.limits.databases, m.databases, a);
    ResourcesCount(c.task, t.tasks, m.account, acc.node, acc.limits.tasks, m.tasks, a);
    assert WebsitesOf(after, a) == WebsitesOf(sites, a);
    assert DomainsOf(after, a, Primary) == DomainsOf(sites, a, Primary);
    assert DomainsOf(after, a, Alias) == DomainsOf(sites, a, Alias);
  }
}
