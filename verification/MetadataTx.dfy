/** The store's transactions on hosting tables as they run, the restore with its loops among them. */
module MetadataTx {
  import opened Options
  import opened Hosting
  import opened HostingWrites
  import opened MetadataRestore
  import opened MetadataStore

  // ---- Failing part of the way ----

  lemma {:induction false} DomainsStop(c: Checks, t: Tables, account: string, website: string, ds: seq<DomainItem>, i: nat)
    requires account in t.accounts && i <= |ds| && RestoreDomains(c, t, account, website, ds[..i]).None?
    ensures RestoreDomains(c, t, account, website, ds).None?
  {
    if i == |ds| {
      assert ds[..i] == ds;
    } else {
      assert ds[..|ds| - 1][..i] == ds[..i];
      DomainsStop(c, t, account, website, ds[..|ds| - 1], i);
    }
  }

  lemma {:induction false} WebsitesStop(c: Checks, t: Tables, account: string, ws: seq<WebsiteItem>, i: nat)
    requires account in t.accounts && i <= |ws| && RestoreWebsites(c, t, account, ws[..i]).None?
    ensures RestoreWebsites(c, t, account, ws).None?
  {
    if i == |ws| {
      assert ws[..i] == ws;
    } else {
      assert ws[..|ws| - 1][..i] == ws[..i];
      WebsitesStop(c, t, account, ws[..|ws| - 1], i);
    }
  }

  lemma {:induction false} ResourcesStop(check: ResourceItem -> bool, rows: map<string, Resource>, account: string, node: Option<string>,
                                         limit: nat, items: seq<ResourceItem>, i: nat)
    requires i <= |items| && RestoreResources(check, rows, account, node, limit, items[..i]).None?
    ensures RestoreResources(check, rows, account, node, limit, items).None?
  {
    if i == |items| {
      assert items[..i] == items;
    } else {
      assert items[..|items| - 1][..i] == items[..i];
      ResourcesStop(check, rows, account, node, limit, items[..|items| - 1], i);
    }
  }

  /** A transaction that fails leaves the tables as they were. */
  function OrElse(r: Option<Tables>, t: Tables): Tables {
    if r.Some? then r.value else t
  }

  // ---- The loops ----

  /** The inner loop over the domains of one website, with its count of primary domains. */
  method RestoreDomainLoop(c: Checks, t: Tables, account: string, website: string, ds: seq<DomainItem>)
    returns (tx: Tables, primary: nat, ok: bool)
    requires account in t.accounts
    ensures ok <==> RestoreDomains(c, t, account, website, ds).Some?
    ensures ok ==> RestoreDomains(c, t, account, website, ds) == Some(tx) && primary == Primaries(ds)
  {
    tx, primary := t, 0;
    for i := 0 to |ds|
      invariant RestoreDomains(c, t, account, website, ds[..i]) == Some(tx) && primary == Primaries(ds[..i])
    {
      var domain := ds[i];
      assert ds[..i + 1][..i] == ds[..i];
      if domain.kind == Primary {
        primary := primary + 1;
      }
      if !DomainAdmitted(c, tx, account, website, domain) {
        DomainsStop(c, t, account, website, ds, i + 1);
        return t, 0, false;
      }
      tx := PutDomain(tx, domain.id, DomainRow(tx, website, domain));
    }
    assert ds[..|ds|] == ds;
    return tx, primary, true;
  }

  lemma WebsitesStep(c: Checks, t: Tables, account: string, ws: seq<WebsiteItem>, i: nat, tx: Tables)
    requires account in t.accounts && i < |ws| && RestoreWebsites(c, t, account, ws[..i]) == Some(tx)
    ensures account in tx.accounts
    ensures RestoreWebsites(c, t, account, ws[..i + 1]) == RestoreWebsite(c, tx, account, ws[i])
  {
    assert ws[..i + 1][..i] == ws[..i];
  }

  method RestoreWebsiteLoop(c: Checks, t: Tables, account: string, ws: seq<WebsiteItem>) returns (tx: Tables, ok: bool)
    requires account in t.accounts
    ensures ok <==> RestoreWebsites(c, t, account, ws).Some?
    ensures ok ==> RestoreWebsites(c, t, account, ws) == Some(tx)
  {
    tx := t;
    for i := 0 to |ws|
      invariant RestoreWebsites(c, t, account, ws[..i]) == Some(tx)
    {
      var website := ws[i];
      WebsitesStep(c, t, account, ws, i, tx);
      if !WebsiteAdmitted(c, tx, account, website) {
        WebsitesStop(c, t, account, ws, i + 1);
        return t, false;
      }
      var primary, restored;
      tx := PutWebsite(tx, website.id, WebsiteRow(tx, account, website));
      tx, primary, restored := RestoreDomainLoop(c, tx, account, website.id, website.domains);
      if !restored || primary != 1 {
        WebsitesStop(c, t, account, ws, i + 1);
        return t, false;
      }
    }
    assert ws[..|ws|] == ws;
    return tx, true;
  }

  method RestoreResourceLoop(check: ResourceItem -> bool, rows: map<string, Resource>, account: string, node: Option<string>,
                             limit: nat, items: seq<ResourceItem>)
    returns (tx: map<string, Resource>, ok: bool)
    ensures ok <==> RestoreResources(check, rows, account, node, limit, items).Some?
    ensures ok ==> RestoreResources(check, rows, account, node, limit, items) == Some(tx)
  {
    tx := rows;
    for i := 0 to |items|
      invariant RestoreResources(check, rows, account, node, limit, items[..i]) == Some(tx)
    {
      assert items[..i + 1][..i] == items[..i];
      if !ResourceAdmitted(check, tx, account, node, limit, items[i]) {
        ResourcesStop(check, rows, account, node, limit, items, i + 1);
        return rows, false;
      }
      tx := tx[items[i].id := ResourceRow(tx, account, items[i])];
    }
    assert items[..|items|] == items;
    return tx, true;
  }

  class Store {
    var tables: Tables

    constructor (accounts: map<string, Account>)
      ensures tables == Tables(accounts, map[], map[], map[], map[])
    {
      tables := Tables(accounts, map[], map[], map[], map[]);
    }

    /** requireCapacity for one counter: what is used against what the package allows. */
    method RequireCapacity(used: set<string>, limit: nat) returns (ok: bool)
      ensures ok <==> |used| < limit
    {
      return |used| < limit;
    }

    /** ensureHostnameAvailable. */
    method HostnameAvailable(hostname: string) returns (ok: bool)
      ensures ok <==> !HostnameTaken(tables, hostname)
    {
      var rest := tables.domains.Keys;
      while rest != {}
        invariant rest <= tables.domains.Keys
        invariant forall id :: id in tables.domains && id !in rest ==>
          tables.domains[id].hostname != hostname && tables.domains[id].previous != Some(hostname)
        decreases |rest|
      {
        var id :| id in rest;
        if tables.domains[id].hostname == hostname || tables.domains[id].previous == Some(hostname) {
          return false;
        }
        rest := rest - {id};
      }
      return true;
    }

    /** CreateWebsiteProvision: nothing is written unless both counters and the hostname allow it. */
    method CreateWebsiteProvision(id: string, domain: string, account: string, hostname: string, definition: string) returns (ok: bool)
      modifies this
      ensures ok <==> CreateWebsite(old(tables), id, domain, account, hostname, definition).Some?
      ensures tables == OrElse(CreateWebsite(old(tables), id, domain, account, hostname, definition), old(tables))
    {
      if account !in tables.accounts || tables.accounts[account].node.None? {
        return false;
      }
      var l := tables.accounts[account].limits;
      var websites := RequireCapacity(WebsitesOf(tables, account), l.websites);
      if !websites {
        return false;
      }
      var domains := RequireCapacity(DomainsOf(tables, account, Primary), l.domains);
      if !domains {
        return false;
      }
      var available := HostnameAvailable(hostname);
      if !available || id in tables.websites || domain in tables.domains {
        return false;
      }
      var site := Website(account, tables.accounts[account].node.value, definition, true, Pending);
      tables := tables.(websites := tables.websites[id := site]);
      tables := tables.(domains := tables.domains[domain := Domain(id, hostname, Primary, true, Pending, None)]);
      return true;
    }

    /** CreateWebsiteDomainProvision. */
    method CreateWebsiteDomainProvision(domain: string, website: string, hostname: string) returns (ok: bool)
      modifies this
      ensures ok <==> CreateAlias(old(tables), domain, website, hostname).Some?
      ensures tables == OrElse(CreateAlias(old(tables), domain, website, hostname), old(tables))
    {
      if website !in tables.websites || tables.websites[website].account !in tables.accounts {
        return false;
      }
      var account := tables.websites[website].account;
      var aliases := RequireCapacity(DomainsOf(tables, account, Alias), tables.accounts[account].limits.aliases);
      if !aliases {
        return false;
      }
      var available := HostnameAvailable(hostname);
      if !available || domain in tables.domains {
        return false;
      }
      tables := tables.(domains := tables.domains[domain := Domain(website, hostname, Alias, true, Pending, None)]);
      return true;
    }

    /** CreateDatabase: capacity, the name within the account, then the insert with its unique columns. */
    method CreateDatabaseProvision(id: string, account: string, name: string, systemName: string, definition: string) returns (ok: bool)
      modifies this
      ensures ok <==> CreateDatabase(old(tables), id, account, name, systemName, definition).Some?
      ensures tables == OrElse(CreateDatabase(old(tables), id, account, name, systemName, definition), old(tables))
    {
      if account !in tables.accounts || tables.accounts[account].node.None? {
        return false;
      }
      var capacity := RequireCapacity(ResourcesOf(tables.databases, account), tables.accounts[account].limits.databases);
      if !capacity {
        return false;
      }
      var claims := DatabaseClaims(account, name, systemName);
      var unclaimed := Unclaimed(tables.databases, claims);
      if !unclaimed || id in tables.databases {
        return false;
      }
      var row := Resource(account, tables.accounts[account].node.value, claims, definition, true, Pending);
      tables := tables.(databases := tables.databases[id := row]);
      return true;
    }

    method Unclaimed(rows: map<string, Resource>, claims: set<Claim>) returns (ok: bool)
      ensures ok <==> ClaimsFree(rows, claims)
    {
      var rest := rows.Keys;
      while rest != {}
        invariant rest <= rows.Keys
        invariant forall id :: id in rows && id !in rest ==> rows[id].claims !! claims
        decreases |rest|
      {
        var id :| id in rest;
        if !(rows[id].claims !! claims) {
          return false;
        }
        rest := rest - {id};
      }
      return true;
    }

    /** QueueWebsiteDomainRename: the new hostname must be free, and the row must not be pending. */
    method QueueWebsiteDomainRename(id: string, hostname: string) returns (ok: bool)
      modifies this
      ensures tables == Written(old(tables), QueueRename(id, hostname))
      ensures ok <==> id in old(tables).domains && old(tables).domains[id].status != Pending && !HostnameTaken(old(tables), hostname)
    {
      var available := HostnameAvailable(hostname);
      if !available || id !in tables.domains || tables.domains[id].status == Pending {
        return false;
      }
      var d := tables.domains[id];
      tables := tables.(domains := tables.domains[id := d.(previous := Some(d.hostname), hostname := hostname, status := Pending)]);
      return true;
    }

    /** prepare: the loop over the plain limits, then the relation between domains and websites. */
    method PrepareLimits(l: Limits) returns (ok: bool)
      ensures ok <==> Prepared(l)
    {
      var limits := [l.websites, l.domains, l.aliases, l.databases, l.tasks];
      for i := 0 to |limits|
        invariant forall k :: 0 <= k < i ==> limits[k] <= 1_000_000
      {
        if limits[i] > 1_000_000 {
          return false;
        }
      }
      assert limits[0] == l.websites && limits[1] == l.domains && limits[2] == l.aliases;
      assert limits[3] == l.databases && limits[4] == l.tasks;
      return l.domains >= l.websites;
    }

    /** RestoreMetadata: all or nothing, since the transaction commits last. */
    method RestoreMetadata(c: Checks, m: Metadata) returns (ok: bool)
      modifies this
      ensures ok <==> Restore(c, old(tables), m).Some?
      ensures tables == if ok then Restore(c, old(tables), m).value else old(tables)
    {
      if m.version != VERSION || !c.account(m.account) || m.account !in tables.accounts {
        return false;
      }
      var account := tables.accounts[m.account];
      var tx, sites := RestoreWebsiteLoop(c, tables, m.account, m.websites);
      if !sites {
        return false;
      }
      var databases, databasesOk :=
        RestoreResourceLoop(c.database, tables.databases, m.account, account.node, account.limits.databases, m.databases);
      if !databasesOk {
        return false;
      }
      var tasks, tasksOk := RestoreResourceLoop(c.task, tables.tasks, m.account, account.node, account.limits.tasks, m.tasks);
      if !tasksOk {
        return false;
      }
      tables := tx.(databases := databases, tasks := tasks);
      return true;
    }
  }
}
