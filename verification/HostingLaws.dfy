/** The rows that hosting requests, job outcomes and restores leave, column by column, and exactly when a request is taken. */
module HostingLaws {
  import opened Options
  import opened Hosting
  import opened HostingWrites
  import opened MetadataRestore

  // ---- Frames ----

  predicate OnlyWebsite(t: Tables, after: Tables, id: string) {
    && after == t.(websites := after.websites) && id in after.websites
    && after.websites.Keys == t.websites.Keys + {id} && forall k :: k in t.websites && k != id ==> after.websites[k] == t.websites[k]
  }

  predicate OnlyDomain(t: Tables, after: Tables, id: string) {
    && after == t.(domains := after.domains) && id in after.domains
    && after.domains.Keys == t.domains.Keys + {id} && forall k :: k in t.domains && k != id ==> after.domains[k] == t.domains[k]
  }

  predicate OnlyRow(rows: map<string, Resource>, after: map<string, Resource>, id: string) {
    id in after && after.Keys == rows.Keys + {id} && forall k :: k in rows && k != id ==> after[k] == rows[k]
  }

  /** A hostname is in use while a domain has it or waits to give it up. */
  predicate InUse(t: Tables, hostname: string) {
    exists id :: id in t.domains && (t.domains[id].hostname == hostname || t.domains[id].previous == Some(hostname))
  }

  /** The account's node is known. */
  predicate Placed(t: Tables, account: string, node: string) {
    account in t.accounts && t.accounts[account].node == Some(node)
  }

  // ---- New rows ----

  /** A website and its primary domain, both pending and enabled, on the node of the account. */
  lemma WebsiteCreated(t: Tables, id: string, domain: string, account: string, hostname: string, definition: string)
    requires CreateWebsite(t, id, domain, account, hostname, definition).Some?
    ensures var after := CreateWebsite(t, id, domain, account, hostname, definition).value;
      && OnlyWebsite(t, after.(domains := t.domains), id) && OnlyDomain(t, after.(websites := t.websites), domain)
      && id !in t.websites && domain !in t.domains
      && account in t.accounts && t.accounts[account].node == Some(after.websites[id].node)
      && after.websites[id] == Website(account, after.websites[id].node, definition, true, Pending)
      && after.domains[domain] == Domain(id, hostname, Primary, true, Pending, None)
  {
  }

  lemma WebsiteCreatedExactly(t: Tables, id: string, domain: string, account: string, hostname: string, definition: string)
    ensures CreateWebsite(t, id, domain, account, hostname, definition).Some? <==>
      && account in t.accounts && t.accounts[account].node.Some? && id !in t.websites && domain !in t.domains && !InUse(t, hostname)
      && |set w | w in t.websites && t.websites[w].account == account| < t.accounts[account].limits.websites
      && |DomainsOf(t, account, Primary)| < t.accounts[account].limits.domains
  {
    assert WebsitesOf(t, account) == set w | w in t.websites && t.websites[w].account == account;
  }

  lemma AliasCreated(t: Tables, domain: string, website: string, hostname: string)
    ensures CreateAlias(t, domain, website, hostname).Some? <==>
      && website in t.websites && t.websites[website].account in t.accounts && domain !in t.domains && !InUse(t, hostname)
      && |DomainsOf(t, t.websites[website].account, Alias)| < t.accounts[t.websites[website].account].limits.aliases
    ensures CreateAlias(t, domain, website, hostname).Some? ==>
      && OnlyDomain(t, CreateAlias(t, domain, website, hostname).value, domain)
      && CreateAlias(t, domain, website, hostname).value.domains[domain] == Domain(website, hostname, Alias, true, Pending, None)
  {
  }

  predicate Claims(row: Resource, claim: Claim) {
    claim in row.claims
  }

  /** A database on the account's node, pending and enabled, whose names nobody else has. */
  lemma DatabaseCreated(t: Tables, id: string, account: string, name: string, systemName: string, definition: string)
    ensures CreateDatabase(t, id, account, name, systemName, definition).Some? <==>
      && account in t.accounts && t.accounts[account].node.Some? && id !in t.databases
      && |ResourcesOf(t.databases, account)| < t.accounts[account].limits.databases
      && (forall j :: j in t.databases ==> !Claims(t.databases[j], AccountName(account, name)))
      && (forall j :: j in t.databases ==> !Claims(t.databases[j], SystemName(systemName)))
    ensures CreateDatabase(t, id, account, name, systemName, definition).Some? ==>
      var after := CreateDatabase(t, id, account, name, systemName, definition).value;
      && after == t.(databases := after.databases) && OnlyRow(t.databases, after.databases, id)
      && Placed(t, account, after.databases[id].node)
      && after.databases[id] == Resource(account, after.databases[id].node, {AccountName(account, name), SystemName(systemName)},
                                         definition, true, Pending)
  {
  }

  lemma TaskCreated(t: Tables, id: string, account: string, definition: string, enabled: bool)
    ensures CreateTask(t, id, account, definition, enabled).Some? <==>
      && account in t.accounts && t.accounts[account].node.Some? && id !in t.tasks
      && |ResourcesOf(t.tasks, account)| < t.accounts[account].limits.tasks
    ensures CreateTask(t, id, account, definition, enabled).Some? ==>
      var after := CreateTask(t, id, account, definition, enabled).value;
      && after == t.(tasks := after.tasks) && OnlyRow(t.tasks, after.tasks, id)
      && Placed(t, account, after.tasks[id].node)
      && after.tasks[id] == Resource(account, after.tasks[id].node, {}, definition, enabled, Pending)
  {
  }

  /** Deleting a website takes its domains with it; an alias goes alone, and a primary domain does not go. */
  lemma RowsDeleted(t: Tables, id: string)
    ensures var after := DeleteWebsite(t, id);
      && after == t.(websites := after.websites, domains := after.domains)
      && (forall w :: w in after.websites <==> w in t.websites && w != id)
      && (forall w :: w in after.websites ==> after.websites[w] == t.websites[w])
      && (forall d :: d in after.domains <==> d in t.domains && t.domains[d].website != id)
      && (forall d :: d in after.domains ==> after.domains[d] == t.domains[d])
    ensures var after := DeleteDomain(t, id);
      && after == t.(domains := after.domains)
      && (forall d :: d in after.domains <==> d in t.domains && (d != id || t.domains[d].kind == Primary))
      && (forall d :: d in after.domains ==> after.domains[d] == t.domains[d])
    ensures DeleteDatabase(t, id) == t.(databases := t.databases - {id}) && DeleteTask(t, id) == t.(tasks := t.tasks - {id})
  {
  }

  /** New limits are taken up to a million each, with at least as many domains as websites, and change nothing else. */
  lemma LimitsSet(t: Tables, account: string, l: Limits)
    requires account in t.accounts
    ensures var after := SetLimits(t, account, l);
      if l.websites <= l.domains <= 1000000 && l.aliases <= 1000000 && l.databases <= 1000000 && l.tasks <= 1000000
      then after == t.(accounts := t.accounts[account := Account(t.accounts[account].node, l)])
      else after == t
  {
  }

  // ---- Rows that are there ----

  /** A rename keeps the old name beside the new one until it is settled, and then has one name again. */
  lemma RenameWrites(t: Tables, id: string, hostname: string)
    requires id in t.domains
    ensures var d, after := t.domains[id], Written(t, QueueRename(id, hostname));
      if d.status != Pending && !InUse(t, hostname)
      then OnlyDomain(t, after, id) && after.domains[id] == Domain(d.website, hostname, d.kind, d.enabled, Pending, Some(d.hostname))
      else after == t
    ensures var d, after := t.domains[id], Written(t, CompleteRename(id));
      && OnlyDomain(t, after, id)
      && after.domains[id] == Domain(d.website, d.hostname, d.kind, d.enabled, if d.enabled then Active else Disabled, None)
  {
  }

  /** A failed rename goes back to the old name unless another domain got it. */
  lemma RenameFails(t: Tables, id: string)
    requires Indexed(t) && id in t.domains
    ensures var d, after := t.domains[id], Written(t, FailRename(id));
      var name := if d.previous.Some? then d.previous.value else d.hostname;
      if exists j :: j in t.domains && j != id && t.domains[j].hostname == name then after == t
      else OnlyDomain(t, after, id) && after.domains[id] == Domain(d.website, name, d.kind, d.enabled, Error, None)
  {
    var d := t.domains[id];
    assert forall j :: j in t.domains && j != id && t.domains[j].website == d.website && d.kind == Primary ==>
      PrimaryOf(t, d.website, id) && (t.domains[j].kind == Primary ==> PrimaryOf(t, d.website, j));
  }

  /** Requests to enable or disable: the flag is set and the row pending, unless it is pending already or a primary domain. */
  lemma EnableWrites(t: Tables, id: string, enabled: bool)
    ensures id in t.websites && t.websites[id].status != Pending ==>
      var w, after := t.websites[id], Written(t, QueueWebsite(id, enabled));
      OnlyWebsite(t, after, id) && after.websites[id] == Website(w.account, w.node, w.definition, enabled, Pending)
    ensures !(id in t.websites && t.websites[id].status != Pending) ==> Written(t, QueueWebsite(id, enabled)) == t
    ensures id in t.domains && t.domains[id].kind == Alias && t.domains[id].status != Pending ==>
      var d, after := t.domains[id], Written(t, QueueDomain(id, enabled));
      OnlyDomain(t, after, id) && after.domains[id] == Domain(d.website, d.hostname, Alias, enabled, Pending, d.previous)
    ensures !(id in t.domains && t.domains[id].kind == Alias && t.domains[id].status != Pending) ==>
      Written(t, QueueDomain(id, enabled)) == t
  {
  }

  /** A task is given its new definition and flag; a sync then sets the status of every task of the account by its flag. */
  lemma TaskWrites(t: Tables, id: string, definition: string, enabled: bool, account: string, on: Status, off: Status)
    ensures id in t.tasks ==>
      var r, after := t.tasks[id], Written(t, UpdateTask(id, definition, enabled));
      && after == t.(tasks := after.tasks) && OnlyRow(t.tasks, after.tasks, id)
      && after.tasks[id] == Resource(r.account, r.node, r.claims, definition, enabled, Pending)
    ensures var after := Written(t, SetTasks(account, on, off));
      && after == t.(tasks := after.tasks) && after.tasks.Keys == t.tasks.Keys
      && forall k :: k in t.tasks ==>
           && after.tasks[k].(status := Active) == t.tasks[k].(status := Active)
           && (t.tasks[k].account != account ==> after.tasks[k].status == t.tasks[k].status)
           && (t.tasks[k].account == account && t.tasks[k].enabled ==> after.tasks[k].status == on)
           && (t.tasks[k].account == account && !t.tasks[k].enabled ==> after.tasks[k].status == off)
  {
  }

  /** A job writes the status of its own row and nothing else. */
  lemma StatusWrites(t: Tables, id: string, status: Status)
    ensures id in t.websites ==>
      OnlyWebsite(t, Written(t, SetWebsite(id, status)), id)
      && Written(t, SetWebsite(id, status)).websites[id] == t.websites[id].(status := status)
    ensures id in t.domains ==>
      OnlyDomain(t, Written(t, SetDomain(id, status)), id)
      && Written(t, SetDomain(id, status)).domains[id] == t.domains[id].(status := status)
    ensures id in t.databases ==>
      OnlyRow(t.databases, Written(t, SetDatabase(id, status)).databases, id)
      && Written(t, SetDatabase(id, status)).databases[id] == t.databases[id].(status := status)
      && Written(t, QueueDatabase(id)).databases[id] == t.databases[id].(status := Pending)
  {
  }

  // ---- Restored rows ----

  /** A row that is still there keeps its node and what an export does not hold; a new one gets the exported node. */
  lemma RowsRestored(t: Tables, account: string, w: WebsiteItem, d: DomainItem, rows: map<string, Resource>, i: ResourceItem)
    ensures var row := WebsiteRow(t, account, w);
      && row.definition == w.definition && row.enabled == w.enabled && row.status == (if w.enabled then Active else Disabled)
      && (w.id in t.websites ==> row.account == t.websites[w.id].account && row.node == t.websites[w.id].node)
      && (w.id !in t.websites ==> row.account == account && row.node == w.node)
    ensures var row := DomainRow(t, w.id, d);
      && row.hostname == d.hostname && row.kind == d.kind && row.enabled == d.enabled
      && row.status == (if d.enabled then Active else Disabled)
      && (d.id in t.domains ==> row.website == t.domains[d.id].website && row.previous == t.domains[d.id].previous)
      && (d.id !in t.domains ==> row.website == w.id && row.previous.None?)
    ensures var row := ResourceRow(rows, account, i);
      && row.claims == i.claims && row.definition == i.definition && row.enabled == i.enabled
      && row.status == (if i.enabled then Active else Disabled)
      && (i.id in rows ==> row.account == rows[i.id].account && row.node == rows[i.id].node)
      && (i.id !in rows ==> row.account == account && row.node == i.node)
  {
  }

  // ---- What a restore demands ----

  /** One primary domain in the list. */
  predicate OnePrimary(ds: seq<DomainItem>) {
    exists i :: 0 <= i < |ds| && ds[i].kind == Primary && forall j :: 0 <= j < |ds| && ds[j].kind == Primary ==> j == i
  }

  lemma {:induction false} NoPrimary(ds: seq<DomainItem>)
    ensures Primaries(ds) == 0 <==> forall j :: 0 <= j < |ds| ==> ds[j].kind != Primary
  {
    if ds == [] {
    } else {
      var n := |ds| - 1;
      NoPrimary(ds[..n]);
      assert forall j :: 0 <= j < n ==> ds[..n][j] == ds[j];
    }
  }

  lemma {:induction false} PrimariesExactly(ds: seq<DomainItem>)
    ensures Primaries(ds) == 1 <==> OnePrimary(ds)
  {
    if ds == [] {
    } else {
      var n := |ds| - 1;
      var before := ds[..n];
      NoPrimary(before);
      PrimariesExactly(before);
      assert forall j :: 0 <= j < n ==> before[j] == ds[j];
      if OnePrimary(before) && ds[n].kind != Primary {
        var i :| 0 <= i < n && before[i].kind == Primary && forall j :: 0 <= j < n && before[j].kind == Primary ==> j == i;
        assert ds[i].kind == Primary;
      }
      if OnePrimary(ds) {
        var i :| 0 <= i < |ds| && ds[i].kind == Primary && forall j :: 0 <= j < |ds| && ds[j].kind == Primary ==> j == i;
        assert i < n ==> before[i].kind == Primary;
      }
    }
  }

  lemma {:induction false} DomainsDemand(c: Checks, t: Tables, account: string, website: string, ds: seq<DomainItem>, i: nat)
    requires account in t.accounts && RestoreDomains(c, t, account, website, ds).Some? && DomainIdsDistinct(ds) && i < |ds|
    ensures c.domain(ds[i]) && (ds[i].id in t.domains ==> t.domains[ds[i].id].website == website)
  {
    var n := |ds| - 1;
    if i == n {
      DomainsElsewhere(c, t, account, website, ds[..n], ds[n].id);
    } else {
      DomainsDemand(c, t, account, website, ds[..n], i);
    }
  }

  /** What of the store a listed website must fit: its node, its owner, its domains' website. */
  ghost predicate WebsiteFits(c: Checks, t: Tables, account: string, w: WebsiteItem) {
    && c.website(w) && Placed(t, account, w.node) && OnePrimary(w.domains)
    && (w.id in t.websites ==> t.websites[w.id].account == account)
    && forall d :: d in w.domains ==> c.domain(d) && (d.id in t.domains ==> t.domains[d.id].website == w.id)
  }

  lemma WebsiteDemands(c: Checks, t: Tables, account: string, w: WebsiteItem)
    requires account in t.accounts && RestoreWebsite(c, t, account, w).Some? && DomainIdsDistinct(w.domains)
    ensures WebsiteFits(c, t, account, w)
  {
    PrimariesExactly(w.domains);
    forall d | d in w.domains ensures c.domain(d) && (d.id in t.domains ==> t.domains[d.id].website == w.id) {
      var i :| 0 <= i < |w.domains| && w.domains[i] == d;
      DomainsDemand(c, PutWebsite(t, w.id, WebsiteRow(t, account, w)), account, w.id, w.domains, i);
    }
  }

  lemma {:induction false} WebsitesDemand(c: Checks, t: Tables, account: string, ws: seq<WebsiteItem>, i: nat)
    requires account in t.accounts && RestoreWebsites(c, t, account, ws).Some? && WebsitesDistinct(ws) && i < |ws|
    ensures WebsiteFits(c, t, account, ws[i])
  {
    var n := |ws| - 1;
    if i == n {
      WebsiteDemands(c, RestoreWebsites(c, t, account, ws[..n]).value, account, ws[n]);
      WebsiteElsewhere(c, t, account, ws[..n], ws[n].id);
      forall d | d in ws[n].domains ensures SameDomainRow(t, RestoreWebsites(c, t, account, ws[..n]).value, d.id) {
        assert ListsDomain(ws[n].domains, d.id);
        DomainElsewhere(c, t, account, ws[..n], d.id);
      }
    } else {
      WebsitesDemand(c, t, account, ws[..n], i);
    }
  }

  /** A database or task fits its node and owner, and nothing else has its names. */
  predicate ResourceFits(check: ResourceItem -> bool, rows: map<string, Resource>, account: string, node: Option<string>, i: ResourceItem) {
    check(i) && node == Some(i.node) && (i.id in rows ==> rows[i.id].account == account)
  }

  lemma {:induction false} ResourcesDemand(check: ResourceItem -> bool, rows: map<string, Resource>, account: string, node: Option<string>,
                                           limit: nat, items: seq<ResourceItem>, i: nat)
    requires RestoreResources(check, rows, account, node, limit, items).Some? && i < |items|
    ensures ResourceFits(check, rows, account, node, items[i])
  {
    var n := |items| - 1;
    var before := RestoreResources(check, rows, account, node, limit, items[..n]).value;
    if i == n {
      if items[n].id in rows {
        OwnersStay(check, rows, account, node, limit, items[..n], items[n].id);
      }
    } else {
      ResourcesDemand(check, rows, account, node, limit, items[..n], i);
    }
  }

  lemma {:induction false} OwnersStay(check: ResourceItem -> bool, rows: map<string, Resource>, account: string, node: Option<string>,
                                      limit: nat, items: seq<ResourceItem>, id: string)
    requires RestoreResources(check, rows, account, node, limit, items).Some? && id in rows
    ensures id in RestoreResources(check, rows, account, node, limit, items).value
    ensures RestoreResources(check, rows, account, node, limit, items).value[id].account == rows[id].account
  {
    if items == [] {
    } else {
      OwnersStay(check, rows, account, node, limit, items[..|items| - 1], id);
    }
  }

  /**
   * A restore is made only from metadata in format 4 of an account that exists, all on the account's node, whose rows
   * still there are the account's own and under the same website, with one primary domain for each website.
   */
  lemma RestoreDemands(c: Checks, t: Tables, m: Metadata)
    requires Distinct(m) && Restore(c, t, m).Some?
    ensures m.version == 4 && c.account(m.account) && m.account in t.accounts
    ensures forall w :: w in m.websites ==> WebsiteFits(c, t, m.account, w)
    ensures forall i :: i in m.databases ==> ResourceFits(c.database, t.databases, m.account, t.accounts[m.account].node, i)
    ensures forall i :: i in m.tasks ==> ResourceFits(c.task, t.tasks, m.account, t.accounts[m.account].node, i)
  {
    var a := t.accounts[m.account];
    forall w | w in m.websites ensures WebsiteFits(c, t, m.account, w) {
      var k :| 0 <= k < |m.websites| && m.websites[k] == w;
      WebsitesDemand(c, t, m.account, m.websites, k);
    }
    forall i | i in m.databases ensures ResourceFits(c.database, t.databases, m.account, a.node, i) {
      var k :| 0 <= k < |m.databases| && m.databases[k] == i;
      ResourcesDemand(c.database, t.databases, m.account, a.node, a.limits.databases, m.databases, k);
    }
    forall i | i in m.tasks ensures ResourceFits(c.task, t.tasks, m.account, a.node, i) {
      var k :| 0 <= k < |m.tasks| && m.tasks[k] == i;
      ResourcesDemand(c.task, t.tasks, m.account, a.node, a.limits.tasks, m.tasks, k);
    }
  }
}
