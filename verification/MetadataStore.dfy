/** Exporting metadata, the restoring transaction as it runs, and both over whole runs of the store. */
module MetadataStore {
  import opened Options
  import opened Hosting
  import opened MetadataRestore

  /** The order in which the store lists its rows. */
  datatype Listing = Listing(websites: seq<string>, domains: seq<string>, databases: seq<string>, tasks: seq<string>)

  ghost predicate ListsAll<T>(ids: seq<string>, rows: map<string, T>) {
    && (forall id :: id in ids <==> id in rows)
    && (forall i, j :: 0 <= i < j < |ids| ==> ids[i] != ids[j])
  }

  ghost predicate Complete(l: Listing, t: Tables) {
    ListsAll(l.websites, t.websites) && ListsAll(l.domains, t.domains) && ListsAll(l.databases, t.databases) && ListsAll(l.tasks, t.tasks)
  }

  // ---- What an export holds ----

  function DomainItemOf(t: Tables, id: string): DomainItem
    requires id in t.domains
  {
    DomainItem(id, t.domains[id].hostname, t.domains[id].kind, t.domains[id].enabled)
  }

  function DomainItems(t: Tables, website: string, ids: seq<string>): seq<DomainItem> {
    if ids == [] then []
    else
      var id := ids[|ids| - 1];
      DomainItems(t, website, ids[..|ids| - 1])
      + if id in t.domains && t.domains[id].website == website then [DomainItemOf(t, id)] else []
  }

  function WebsiteItemOf(t: Tables, id: string, domains: seq<string>): WebsiteItem
    requires id in t.websites
  {
    WebsiteItem(id, t.websites[id].node, t.websites[id].definition, t.websites[id].enabled, DomainItems(t, id, domains))
  }

  function WebsiteItems(t: Tables, account: string, ids: seq<string>, domains: seq<string>): seq<WebsiteItem> {
    if ids == [] then []
    else
      var id := ids[|ids| - 1];
      WebsiteItems(t, account, ids[..|ids| - 1], domains)
      + if id in t.websites && t.websites[id].account == account then [WebsiteItemOf(t, id, domains)] else []
  }

  function ResourceItemOf(rows: map<string, Resource>, id: string): ResourceItem
    requires id in rows
  {
    ResourceItem(id, rows[id].node, rows[id].claims, rows[id].definition, rows[id].enabled)
  }

  predicate Exported(r: Resource, account: string, activeOnly: bool) {
    r.account == account && (activeOnly ==> r.status == Active)
  }

  function ResourceItems(rows: map<string, Resource>, account: string, activeOnly: bool, ids: seq<string>): seq<ResourceItem> {
    if ids == [] then []
    else
      var id := ids[|ids| - 1];
      ResourceItems(rows, account, activeOnly, ids[..|ids| - 1])
      + if id in rows && Exported(rows[id], account, activeOnly) then [ResourceItemOf(rows, id)] else []
  }

  /** Databases are exported only while active. */
  function Export(t: Tables, account: string, l: Listing): Metadata {
    Metadata(VERSION, account, WebsiteItems(t, account, l.websites, l.domains),
             ResourceItems(t.databases, account, true, l.databases), ResourceItems(t.tasks, account, false, l.tasks))
  }

  lemma {:induction false} DomainItemsMeaning(t: Tables, website: string, ids: seq<string>, d: DomainItem)
    ensures d in DomainItems(t, website, ids)
      <==> d.id in ids && d.id in t.domains && t.domains[d.id].website == website && d == DomainItemOf(t, d.id)
  {
    if ids == [] {
    } else {
      DomainItemsMeaning(t, website, ids[..|ids| - 1], d);
      assert ids == ids[..|ids| - 1] + [ids[|ids| - 1]];
    }
  }

  lemma {:induction false} WebsiteItemsMeaning(t: Tables, account: string, ids: seq<string>, domains: seq<string>, w: WebsiteItem)
    ensures w in WebsiteItems(t, account, ids, domains)
      <==> w.id in ids && w.id in t.websites && t.websites[w.id].account == account && w == WebsiteItemOf(t, w.id, domains)
  {
    if ids == [] {
    } else {
      WebsiteItemsMeaning(t, account, ids[..|ids| - 1], domains, w);
      assert ids == ids[..|ids| - 1] + [ids[|ids| - 1]];
    }
  }

  lemma {:induction false} ResourceItemsMeaning(rows: map<string, Resource>, account: string, activeOnly: bool, ids: seq<string>,
                                               i: ResourceItem)
    ensures i in ResourceItems(rows, account, activeOnly, ids)
      <==> i.id in ids && i.id in rows && Exported(rows[i.id], account, activeOnly) && i == ResourceItemOf(rows, i.id)
  {
    if ids == [] {
    } else {
      ResourceItemsMeaning(rows, account, activeOnly, ids[..|ids| - 1], i);
      assert ids == ids[..|ids| - 1] + [ids[|ids| - 1]];
    }
  }

  lemma {:induction false} DomainItemsDistinct(t: Tables, website: string, ids: seq<string>)
    requires forall i, j :: 0 <= i < j < |ids| ==> ids[i] != ids[j]
    ensures DomainIdsDistinct(DomainItems(t, website, ids))
  {
    if ids == [] {
    } else {
      var n := |ids| - 1;
      var before := DomainItems(t, website, ids[..n]);
      DomainItemsDistinct(t, website, ids[..n]);
      forall k | 0 <= k < |before| ensures before[k].id != ids[n] {
        DomainItemsMeaning(t, website, ids[..n], before[k]);
      }
    }
  }

  lemma {:induction false} WebsiteItemsDistinct(t: Tables, account: string, ids: seq<string>, domains: seq<string>)
    requires forall i, j :: 0 <= i < j < |ids| ==> ids[i] != ids[j]
    ensures var ws := WebsiteItems(t, account, ids, domains);
      forall i, j :: 0 <= i < j < |ws| ==> ws[i].id != ws[j].id
  {
    if ids == [] {
    } else {
      var n := |ids| - 1;
      var before := WebsiteItems(t, account, ids[..n], domains);
      WebsiteItemsDistinct(t, account, ids[..n], domains);
      forall k | 0 <= k < |before| ensures before[k].id != ids[n] {
        WebsiteItemsMeaning(t, account, ids[..n], domains, before[k]);
      }
    }
  }

  lemma {:induction false} ResourceItemsDistinct(rows: map<string, Resource>, account: string, activeOnly: bool, ids: seq<string>)
    requires forall i, j :: 0 <= i < j < |ids| ==> ids[i] != ids[j]
    ensures ItemsDistinct(ResourceItems(rows, account, activeOnly, ids))
  {
    if ids == [] {
    } else {
      var n := |ids| - 1;
      var before := ResourceItems(rows, account, activeOnly, ids[..n]);
      ResourceItemsDistinct(rows, account, activeOnly, ids[..n]);
      forall k | 0 <= k < |before| ensures before[k].id != ids[n] {
        ResourceItemsMeaning(rows, account, activeOnly, ids[..n], before[k]);
      }
    }
  }

  lemma ExportDistinct(t: Tables, account: string, l: Listing)
    requires Complete(l, t)
    ensures Distinct(Export(t, account, l))
  {
    var ws := WebsiteItems(t, account, l.websites, l.domains);
    WebsiteItemsDistinct(t, account, l.websites, l.domains);
    ResourceItemsDistinct(t.databases, account, true, l.databases);
    ResourceItemsDistinct(t.tasks, account, false, l.tasks);
    forall i | 0 <= i < |ws| ensures ws[i].domains == DomainItems(t, ws[i].id, l.domains) && DomainIdsDistinct(ws[i].domains) {
      WebsiteItemsMeaning(t, account, l.websites, l.domains, ws[i]);
      DomainItemsDistinct(t, ws[i].id, l.domains);
    }
    forall i, j, id | 0 <= i < j < |ws| && ListsDomain(ws[i].domains, id) ensures !ListsDomain(ws[j].domains, id) {
      var d :| d in ws[i].domains && d.id == id;
      DomainItemsMeaning(t, ws[i].id, l.domains, d);
      forall e | e in ws[j].domains ensures e.id != id {
        DomainItemsMeaning(t, ws[j].id, l.domains, e);
      }
    }
  }

  // ---- Restoring into the unchanged store ----

  ghost predicate SameResourceRows(rows: map<string, Resource>, after: map<string, Resource>) {
    forall id :: (id in rows <==> id in after) && (id in rows ==> after[id].(status := Active) == rows[id].(status := Active))
  }

  /** Equal up to the status columns, which the restore sets from the enabled flags. */
  ghost predicate SameButStatus(t: Tables, after: Tables) {
    && after.accounts == t.accounts
    && (forall id :: (id in t.websites <==> id in after.websites)
          && (id in t.websites ==> after.websites[id].(status := Active) == t.websites[id].(status := Active)))
    && (forall id :: (id in t.domains <==> id in after.domains)
          && (id in t.domains ==> after.domains[id].(status := Active) == t.domains[id].(status := Active)))
    && SameResourceRows(t.databases, after.databases) && SameResourceRows(t.tasks, after.tasks)
  }

  ghost predicate ItemPresent(t: Tables, website: string, d: DomainItem) {
    d.id in t.domains && t.domains[d.id].website == website && d == DomainItemOf(t, d.id)
  }

  lemma {:induction false} DomainsUnchanged(c: Checks, t: Tables, now: Tables, account: string, website: string, ds: seq<DomainItem>)
    requires Indexed(t) && SameButStatus(t, now) && account in now.accounts
    requires forall i :: 0 <= i < |ds| ==> c.domain(ds[i]) && ItemPresent(t, website, ds[i])
    ensures RestoreDomains(c, now, account, website, ds).Some?
    ensures SameButStatus(t, RestoreDomains(c, now, account, website, ds).value)
  {
    if ds == [] {
    } else {
      var n := |ds| - 1;
      DomainsUnchanged(c, t, now, account, website, ds[..n]);
      DomainUnchanged(c, t, RestoreDomains(c, now, account, website, ds[..n]).value, account, website, ds[n]);
    }
  }

  lemma DomainUnchanged(c: Checks, t: Tables, now: Tables, account: string, website: string, d: DomainItem)
    requires Indexed(t) && SameButStatus(t, now) && account in now.accounts && c.domain(d) && ItemPresent(t, website, d)
    ensures DomainAdmitted(c, now, account, website, d)
    ensures SameButStatus(t, PutDomain(now, d.id, DomainRow(now, website, d)))
  {
    var row := DomainRow(now, website, d);
    assert row.(status := Active) == t.domains[d.id].(status := Active);
    assert row.website in now.websites;
    forall j | j in now.domains && j != d.id
      ensures now.domains[j].hostname != row.hostname
      ensures row.kind == Primary && now.domains[j].website == row.website ==> now.domains[j].kind != Primary
    {
      assert j in t.domains && t.domains[j].(status := Active) == now.domains[j].(status := Active);
      if row.kind == Primary && now.domains[j].website == row.website && now.domains[j].kind == Primary {
        assert PrimaryOf(t, row.website, j) && PrimaryOf(t, row.website, d.id);
      }
    }
  }

  lemma {:induction false} PrimariesCount(ds: seq<DomainItem>, p: string)
    requires DomainIdsDistinct(ds) && forall i :: 0 <= i < |ds| ==> (ds[i].kind == Primary <==> ds[i].id == p)
    ensures Primaries(ds) == if ListsDomain(ds, p) then 1 else 0
  {
    if ds == [] {
    } else {
      var n := |ds| - 1;
      PrimariesCount(ds[..n], p);
      assert ds[n] in ds && forall d :: d in ds[..n] ==> d in ds;
      if ds[n].id == p {
        forall d | d in ds[..n] ensures d.id != p {
        }
      } else if ListsDomain(ds, p) {
        var d :| d in ds && d.id == p;
        var k :| 0 <= k < |ds| && ds[k] == d;
        assert ds[..n][k] == d;
      }
    }
  }

  lemma ExportedPrimary(t: Tables, website: string, ids: seq<string>)
    requires Sound(t) && website in t.websites && ListsAll(ids, t.domains)
    ensures Primaries(DomainItems(t, website, ids)) == 1
  {
    var ds := DomainItems(t, website, ids);
    var p :| PrimaryOf(t, website, p);
    DomainItemsDistinct(t, website, ids);
    forall i | 0 <= i < |ds| ensures ds[i].kind == Primary <==> ds[i].id == p {
      DomainItemsMeaning(t, website, ids, ds[i]);
      if ds[i].kind == Primary {
        assert PrimaryOf(t, website, ds[i].id);
      }
    }
    DomainItemsMeaning(t, website, ids, DomainItemOf(t, p));
    PrimariesCount(ds, p);
  }

  /** The account's rows satisfy the field checks and sit on the account's node. */
  ghost predicate RowsPass(c: Checks, t: Tables, m: Metadata) {
    && c.account(m.account) && m.account in t.accounts
    && (forall w :: w in m.websites ==> SitePasses(c, t.accounts[m.account].node, w))
    && (forall i :: i in m.databases ==> c.database(i) && t.accounts[m.account].node == Some(i.node))
    && (forall i :: i in m.tasks ==> c.task(i) && t.accounts[m.account].node == Some(i.node))
  }

  lemma WebsiteRowUnchanged(t: Tables, now: Tables, account: string, id: string, domains: seq<string>)
    requires SameButStatus(t, now) && id in t.websites
    ensures SameButStatus(t, PutWebsite(now, id, WebsiteRow(now, account, WebsiteItemOf(t, id, domains))))
  {
    assert now.websites[id].(status := Active) == t.websites[id].(status := Active);
  }

  lemma DomainListUnchanged(c: Checks, t: Tables, now: Tables, account: string, website: string, ids: seq<string>)
    requires Indexed(t) && SameButStatus(t, now) && account in now.accounts
    requires forall d :: d in DomainItems(t, website, ids) ==> c.domain(d)
    ensures var r := RestoreDomains(c, now, account, website, DomainItems(t, website, ids)); r.Some? && SameButStatus(t, r.value)
  {
    var ds := DomainItems(t, website, ids);
    forall i | 0 <= i < |ds| ensures c.domain(ds[i]) && ItemPresent(t, website, ds[i]) {
      assert ds[i] in ds;
      DomainItemsMeaning(t, website, ids, ds[i]);
    }
    DomainsUnchanged(c, t, now, account, website, ds);
  }

  lemma AdmittedUnchanged(c: Checks, t: Tables, now: Tables, account: string, id: string, domains: seq<string>)
    requires SameButStatus(t, now) && account in now.accounts && id in t.websites && t.websites[id].account == account
    requires SitePasses(c, now.accounts[account].node, WebsiteItemOf(t, id, domains))
    ensures WebsiteAdmitted(c, now, account, WebsiteItemOf(t, id, domains))
  {
    assert now.websites[id].(status := Active) == t.websites[id].(status := Active);
  }

  lemma WebsiteSteps(c: Checks, now: Tables, account: string, w: WebsiteItem, after: Tables)
    requires account in now.accounts && WebsiteAdmitted(c, now, account, w) && Primaries(w.domains) == 1
    requires RestoreDomains(c, PutWebsite(now, w.id, WebsiteRow(now, account, w)), account, w.id, w.domains) == Some(after)
    ensures RestoreWebsite(c, now, account, w) == Some(after)
  {
  }

  lemma WebsiteUnchanged(c: Checks, t: Tables, now: Tables, account: string, id: string, domains: seq<string>)
    requires Sound(t) && SameButStatus(t, now) && account in now.accounts && id in t.websites && t.websites[id].account == account
    requires ListsAll(domains, t.domains)
    requires SitePasses(c, now.accounts[account].node, WebsiteItemOf(t, id, domains))
    ensures var r := RestoreWebsite(c, now, account, WebsiteItemOf(t, id, domains)); r.Some? && SameButStatus(t, r.value)
  {
    var w := WebsiteItemOf(t, id, domains);
    var mid := PutWebsite(now, id, WebsiteRow(now, account, w));
    AdmittedUnchanged(c, t, now, account, id, domains);
    WebsiteRowUnchanged(t, now, account, id, domains);
    DomainListUnchanged(c, t, mid, account, id, domains);
    ExportedPrimary(t, id, domains);
    WebsiteSteps(c, now, account, w, RestoreDomains(c, mid, account, id, DomainItems(t, id, domains)).value);
  }

  ghost predicate SitePasses(c: Checks, node: Option<string>, w: WebsiteItem) {
    c.website(w) && node == Some(w.node) && forall d :: d in w.domains ==> c.domain(d)
  }

  lemma WebsitesSnoc(c: Checks, t: Tables, account: string, ws: seq<WebsiteItem>, w: WebsiteItem)
    requires account in t.accounts
    ensures RestoreWebsites(c, t, account, ws + [w])
      == match RestoreWebsites(c, t, account, ws) { case None => None case Some(before) => RestoreWebsite(c, before, account, w) }
  {
    assert (ws + [w])[..|ws|] == ws;
  }

  lemma {:induction false} WebsitesUnchanged(c: Checks, t: Tables, account: string, ids: seq<string>, domains: seq<string>)
    requires Sound(t) && account in t.accounts && ListsAll(domains, t.domains)
    requires forall w :: w in WebsiteItems(t, account, ids, domains) ==> SitePasses(c, t.accounts[account].node, w)
    ensures var r := RestoreWebsites(c, t, account, WebsiteItems(t, account, ids, domains)); r.Some? && SameButStatus(t, r.value)
  {
    if ids == [] {
    } else {
      var n := |ids| - 1;
      var before := WebsiteItems(t, account, ids[..n], domains);
      if ids[n] in t.websites && t.websites[ids[n]].account == account {
        var w := WebsiteItemOf(t, ids[n], domains);
        assert WebsiteItems(t, account, ids, domains) == before + [w];
        assert w in before + [w] && forall x :: x in before ==> x in before + [w];
        WebsitesUnchanged(c, t, account, ids[..n], domains);
        WebsitesSnoc(c, t, account, before, w);
        WebsiteUnchanged(c, t, RestoreWebsites(c, t, account, before).value, account, ids[n], domains);
      } else {
        assert WebsiteItems(t, account, ids, domains) == before;
        WebsitesUnchanged(c, t, account, ids[..n], domains);
      }
    }
  }

  lemma {:induction false} ResourcesUnchanged(check: ResourceItem -> bool, rows: map<string, Resource>, account: string,
                                              node: Option<string>, limit: nat, activeOnly: bool, ids: seq<string>)
    requires ClaimsApart(rows)
    requires forall i :: i in ResourceItems(rows, account, activeOnly, ids) ==> check(i) && node == Some(i.node)
    ensures var r := RestoreResources(check, rows, account, node, limit, ResourceItems(rows, account, activeOnly, ids));
      r.Some? && SameResourceRows(rows, r.value)
  {
    if ids == [] {
    } else {
      var n := |ids| - 1;
      var before := ResourceItems(rows, account, activeOnly, ids[..n]);
      ResourcesUnchanged(check, rows, account, node, limit, activeOnly, ids[..n]);
      if ids[n] in rows && Exported(rows[ids[n]], account, activeOnly) {
        var i := ResourceItemOf(rows, ids[n]);
        assert (before + [i])[..|before|] == before && i in before + [i];
        var now := RestoreResources(check, rows, account, node, limit, before).value;
        assert now[i.id].(status := Active) == rows[i.id].(status := Active);
        forall j | j in now && j != i.id ensures now[j].claims !! i.claims {
          assert now[j].(status := Active) == rows[j].(status := Active);
        }
      } else {
        assert before + [] == before;
      }
    }
  }

  /** Restoring an export into the store it was taken from succeeds and changes nothing but statuses. */
  lemma RestoreUnchanged(c: Checks, t: Tables, account: string, l: Listing)
    requires Sound(t) && Complete(l, t) && RowsPass(c, t, Export(t, account, l))
    ensures var r := Restore(c, t, Export(t, account, l)); r.Some? && SameButStatus(t, r.value)
  {
    var a := t.accounts[account];
    WebsitesUnchanged(c, t, account, l.websites, l.domains);
    ResourcesUnchanged(c.database, t.databases, account, a.node, a.limits.databases, true, l.databases);
    ResourcesUnchanged(c.task, t.tasks, account, a.node, a.limits.tasks, false, l.tasks);
  }
}
