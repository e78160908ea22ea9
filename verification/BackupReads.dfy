/** A backup's metadata is read by several queries, each of which may find the store in another state. */
module BackupReads {
  import opened Options
  import opened Hosting
  import opened MetadataRestore
  import opened MetadataStore

  /** A metadata record being read: the websites listed first, those whose domains were read since, the databases. */
  datatype Draft = Draft(account: string, sites: seq<WebsiteItem>, done: seq<WebsiteItem>, databases: Option<seq<ResourceItem>>)

  function ListSites(t: Tables, account: string, l: Listing): Draft {
    Draft(account, WebsiteItems(t, account, l.websites, []), [], None)
  }

  /** The next website's domains; a website that is gone by then fails the backup. */
  function ReadSite(d: Draft, t: Tables, l: Listing): Option<Draft>
    requires |d.done| < |d.sites|
  {
    var site := d.sites[|d.done|];
    if site.id !in t.websites then None
    else Some(d.(done := d.done + [site.(domains := DomainItems(t, site.id, l.domains))]))
  }

  function ReadDatabases(d: Draft, t: Tables, l: Listing): Draft {
    d.(databases := Some(ResourceItems(t.databases, d.account, true, l.databases)))
  }

  function Finish(d: Draft, t: Tables, l: Listing): Metadata
    requires d.databases.Some?
  {
    Metadata(VERSION, d.account, d.done, d.databases.value, ResourceItems(t.tasks, d.account, false, l.tasks))
  }

  // ---- All queries of one backup ----

  /** The draft after the domains of n websites; the store is view(k) at query k, which lists rows in order(k). */
  function SitesRead(view: nat -> Tables, order: nat -> Listing, account: string, n: nat): (r: Option<Draft>)
    requires n <= |ListSites(view(0), account, order(0)).sites|
    ensures var start := ListSites(view(0), account, order(0));
      r.Some? ==> r.value == start.(done := r.value.done) && |r.value.done| == n
  {
    if n == 0 then Some(ListSites(view(0), account, order(0)))
    else
      match SitesRead(view, order, account, n - 1)
      case None => None
      case Some(d) => ReadSite(d, view(n), order(n))
  }

  function Assembled(view: nat -> Tables, order: nat -> Listing, account: string): Option<Metadata> {
    var n := |ListSites(view(0), account, order(0)).sites|;
    match SitesRead(view, order, account, n)
    case None => None
    case Some(d) => Some(Finish(ReadDatabases(d, view(n + 1), order(n + 1)), view(n + 2), order(n + 2)))
  }

  // ---- A store that holds still ----

  lemma {:induction false} SitesAlign(t: Tables, account: string, ids: seq<string>, domains: seq<string>)
    ensures var sites, ws := WebsiteItems(t, account, ids, []), WebsiteItems(t, account, ids, domains);
      && |sites| == |ws|
      && forall k :: 0 <= k < |ws| ==>
           sites[k].id in t.websites && ws[k] == sites[k].(domains := DomainItems(t, sites[k].id, domains))
  {
    if ids == [] {
    } else {
      SitesAlign(t, account, ids[..|ids| - 1], domains);
    }
  }

  lemma {:induction false} SteadySites(view: nat -> Tables, order: nat -> Listing, account: string, t: Tables, l: Listing, n: nat)
    requires (forall k: nat :: view(k) == t && order(k) == l) && n <= |ListSites(t, account, l).sites|
    ensures var r, ws := SitesRead(view, order, account, n), WebsiteItems(t, account, l.websites, l.domains);
      r.Some? && n <= |ws| && r.value.done == ws[..n]
  {
    SitesAlign(t, account, l.websites, l.domains);
    if n == 0 {
    } else {
      SteadySites(view, order, account, t, l, n - 1);
      var ws := WebsiteItems(t, account, l.websites, l.domains);
      assert ws[..n] == ws[..n - 1] + [ws[n - 1]];
    }
  }

  /** When nothing is written meanwhile, the backup is the export of that one state. */
  lemma SteadyIsExport(view: nat -> Tables, order: nat -> Listing, account: string, t: Tables, l: Listing)
    requires forall k: nat :: view(k) == t && order(k) == l
    ensures Assembled(view, order, account) == Some(Export(t, account, l))
  {
    var n := |ListSites(t, account, l).sites|;
    SteadySites(view, order, account, t, l, n);
    SitesAlign(t, account, l.websites, l.domains);
    var ws := WebsiteItems(t, account, l.websites, l.domains);
    assert ws[..n] == ws;
  }

  // ---- The loops ----

  lemma {:induction false} ItemsPrefix(t: Tables, account: string, ids: seq<string>, domains: seq<string>, i: nat)
    requires i <= |ids|
    ensures WebsiteItems(t, account, ids[..i], domains) <= WebsiteItems(t, account, ids, domains)
  {
    if i == |ids| {
      assert ids[..i] == ids;
    } else {
      var n := |ids| - 1;
      assert ids[..n][..i] == ids[..i];
      ItemsPrefix(t, account, ids[..n], domains, i);
    }
  }

  predicate BelongsTo(t: Tables, id: string, account: string) {
    id in t.websites && t.websites[id].account == account
  }

  function Site(t: Tables, id: string): WebsiteItem
    requires id in t.websites
  {
    WebsiteItem(id, t.websites[id].node, t.websites[id].definition, t.websites[id].enabled, [])
  }

  /** The place of a listed website among the account's websites. */
  lemma SiteAt(t: Tables, account: string, ids: seq<string>, i: nat)
    requires i < |ids|
    ensures var sites, n := WebsiteItems(t, account, ids, []), |WebsiteItems(t, account, ids[..i], [])|;
      if BelongsTo(t, ids[i], account)
      then n < |sites| && sites[n] == Site(t, ids[i]) && |WebsiteItems(t, account, ids[..i + 1], [])| == n + 1
      else n <= |sites| && |WebsiteItems(t, account, ids[..i + 1], [])| == n
  {
    assert ids[..i + 1][..i] == ids[..i];
    ItemsPrefix(t, account, ids, [], i + 1);
  }

  /** Reading the domains of the next website. */
  lemma NextSite(view: nat -> Tables, order: nat -> Listing, account: string, n: nat, id: string)
    requires var sites := ListSites(view(0), account, order(0)).sites;
      n < |sites| && id in view(0).websites && sites[n] == Site(view(0), id)
    requires SitesRead(view, order, account, n).Some?
    ensures var before, r := SitesRead(view, order, account, n).value, SitesRead(view, order, account, n + 1);
      if id in view(n + 1).websites
      then r.Some? && r.value.done == before.done + [Site(view(0), id).(domains := DomainItems(view(n + 1), id, order(n + 1).domains))]
      else r.None?
  {
  }

  lemma {:induction false} SitesStop(view: nat -> Tables, order: nat -> Listing, account: string, k: nat, n: nat)
    requires k <= n <= |ListSites(view(0), account, order(0)).sites| && SitesRead(view, order, account, k).None?
    ensures SitesRead(view, order, account, n).None?
  {
    if k == n {
    } else {
      SitesStop(view, order, account, k, n - 1);
    }
  }

  lemma AssembledFrom(view: nat -> Tables, order: nat -> Listing, account: string, done: seq<WebsiteItem>,
                      databases: seq<ResourceItem>, tasks: seq<ResourceItem>)
    requires var n := |ListSites(view(0), account, order(0)).sites|;
      && SitesRead(view, order, account, n).Some? && SitesRead(view, order, account, n).value.done == done
      && databases == ResourceItems(view(n + 1).databases, account, true, order(n + 1).databases)
      && tasks == ResourceItems(view(n + 2).tasks, account, false, order(n + 2).tasks)
    ensures Assembled(view, order, account) == Some(Metadata(VERSION, account, done, databases, tasks))
  {
  }

  /** The inner loop over the domains of one website. */
  method CollectDomains(t: Tables, website: string, ids: seq<string>) returns (items: seq<DomainItem>)
    ensures items == DomainItems(t, website, ids)
  {
    items := [];
    for i := 0 to |ids|
      invariant items == DomainItems(t, website, ids[..i])
    {
      assert ids[..i + 1][..i] == ids[..i];
      if ids[i] in t.domains && t.domains[ids[i]].website == website {
        var d := t.domains[ids[i]];
        items := items + [DomainItem(ids[i], d.hostname, d.kind, d.enabled)];
      }
    }
    assert ids[..|ids|] == ids;
  }

  method CollectResources(rows: map<string, Resource>, account: string, activeOnly: bool, ids: seq<string>)
    returns (items: seq<ResourceItem>)
    ensures items == ResourceItems(rows, account, activeOnly, ids)
  {
    items := [];
    for i := 0 to |ids|
      invariant items == ResourceItems(rows, account, activeOnly, ids[..i])
    {
      assert ids[..i + 1][..i] == ids[..i];
      if ids[i] in rows && rows[ids[i]].account == account && (!activeOnly || rows[ids[i]].status == Active) {
        items := items + [ResourceItemOf(rows, ids[i])];
      }
    }
    assert ids[..|ids|] == ids;
  }

  /** metadata: the account's websites, one query for the domains of each, its active databases and its tasks. */
  method AssembleMetadata(view: nat -> Tables, order: nat -> Listing, account: string) returns (m: Option<Metadata>)
    ensures m == Assembled(view, order, account)
  {
    var websites, ids := view(0).websites, order(0).websites;
    ghost var count := |ListSites(view(0), account, order(0)).sites|;
    var done: seq<WebsiteItem> := [];
    var query := 0;
    for i := 0 to |ids|
      invariant query == |WebsiteItems(view(0), account, ids[..i], [])| <= count
      invariant var r := SitesRead(view, order, account, query); r.Some? && r.value.done == done
    {
      SiteAt(view(0), account, ids, i);
      if ids[i] in websites && websites[ids[i]].account == account {
        var w := websites[ids[i]];
        NextSite(view, order, account, query, ids[i]);
        query := query + 1;
        if ids[i] !in view(query).websites {
          SitesStop(view, order, account, query, count);
          return None;
        }
        var domains := CollectDomains(view(query), ids[i], order(query).domains);
        done := done + [WebsiteItem(ids[i], w.node, w.definition, w.enabled, domains)];
      }
    }
    assert ids[..|ids|] == ids;
    var databases := CollectResources(view(query + 1).databases, account, true, order(query + 1).databases);
    var tasks := CollectResources(view(query + 2).tasks, account, false, order(query + 2).tasks);
    AssembledFrom(view, order, account, done, databases, tasks);
    return Some(Metadata(VERSION, account, done, databases, tasks));
  }
}
