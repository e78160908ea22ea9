/** Websites, domains and the other package-limited rows of the store, and the transactions that count against limits. */
module Hosting {
  import opened Options

  datatype Status = Pending | Active | Disabled | Error

  datatype DomainKind = Primary | Alias

  /** The columns a row is defined by beyond those named here are one text. */
  datatype Website = Website(account: string, node: string, definition: string, enabled: bool, status: Status)

  datatype Domain = Domain(website: string, hostname: string, kind: DomainKind, enabled: bool, status: Status,
                           previous: Option<string>)

  /** What a unique index forbids two rows to share. */
  datatype Claim = SystemName(name: string) | AccountName(account: string, name: string)

  /** A database or a scheduled task. */
  datatype Resource = Resource(account: string, node: string, claims: set<Claim>, definition: string, enabled: bool, status: Status)

  datatype Limits = Limits(websites: nat, domains: nat, aliases: nat, databases: nat, tasks: nat)

  datatype Account = Account(node: Option<string>, limits: Limits)

  datatype Tables = Tables(accounts: map<string, Account>, websites: map<string, Website>, domains: map<string, Domain>,
                           databases: map<string, Resource>, tasks: map<string, Resource>)

  // ---- Counting ----

  function WebsitesOf(t: Tables, account: string): set<string> {
    set id | id in t.websites && t.websites[id].account == account
  }

  function DomainsOf(t: Tables, account: string, kind: DomainKind): set<string> {
    set id | id in t.domains && t.domains[id].kind == kind && t.domains[id].website in t.websites
      && t.websites[t.domains[id].website].account == account
  }

  function ResourcesOf(rows: map<string, Resource>, account: string): set<string> {
    set id | id in rows && rows[id].account == account
  }

  function DomainLimit(l: Limits, kind: DomainKind): nat {
    if kind == Primary then l.domains else l.aliases
  }

  // ---- What every reachable store satisfies ----

  ghost predicate PrimaryOf(t: Tables, website: string, id: string) {
    id in t.domains && t.domains[id].website == website && t.domains[id].kind == Primary
  }

  /** The foreign key, the two unique indexes on domains, and the unique columns of databases. */
  ghost predicate Indexed(t: Tables) {
    && (forall id :: id in t.domains ==> t.domains[id].website in t.websites)
    && (forall i, j :: i in t.domains && j in t.domains && i != j ==> t.domains[i].hostname != t.domains[j].hostname)
    && (forall w, i, j :: PrimaryOf(t, w, i) && PrimaryOf(t, w, j) ==> i == j)
    && ClaimsApart(t.databases) && ClaimsApart(t.tasks)
  }

  ghost predicate ClaimsApart(rows: map<string, Resource>) {
    forall i, j :: i in rows && j in rows && i != j ==> rows[i].claims !! rows[j].claims
  }

  ghost predicate EveryWebsiteHasPrimary(t: Tables) {
    forall w :: w in t.websites ==> exists id :: PrimaryOf(t, w, id)
  }

  ghost predicate Sound(t: Tables) {
    Indexed(t) && EveryWebsiteHasPrimary(t)
  }

  /** The website a primary domain belongs to: a bijection, so the two counters agree. */
  lemma PrimaryUsageIsWebsiteUsage(t: Tables, account: string)
    requires Sound(t)
    ensures |DomainsOf(t, account, Primary)| == |WebsitesOf(t, account)|
  {
    var f := map id | id in DomainsOf(t, account, Primary) :: t.domains[id].website;
    forall i, j | i in f && j in f && f[i] == f[j] ensures i == j {
      assert PrimaryOf(t, f[i], i) && PrimaryOf(t, f[i], j);
    }
    forall w ensures w in f.Values <==> w in WebsitesOf(t, account) {
      if w in WebsitesOf(t, account) {
        var id :| PrimaryOf(t, w, id);
        assert id in f && f[id] == w;
      }
    }
    InjectiveCount(f);
    assert f.Keys == DomainsOf(t, account, Primary) && f.Values == WebsitesOf(t, account);
  }

  lemma {:induction false} InjectiveCount(f: map<string, string>)
    requires forall i, j :: i in f && j in f && f[i] == f[j] ==> i == j
    ensures |f.Keys| == |f.Values|
    decreases |f.Keys|
  {
    if f.Keys == {} {
      assert f.Values == {};
    } else {
      var k :| k in f.Keys;
      var g := f - {k};
      assert g.Keys == f.Keys - {k};
      forall v ensures v in g.Values <==> v in f.Values && v != f[k] {
        if v in f.Values && v != f[k] {
          var j :| j in f && f[j] == v;
          assert j in g && g[j] == v;
        }
        if v in g.Values {
          var j :| j in g && g[j] == v;
          assert j in f && f[j] == v;
        }
      }
      assert g.Values == f.Values - {f[k]};
      InjectiveCount(g);
    }
  }

  // ---- Creating and deleting ----

  predicate HostnameTaken(t: Tables, hostname: string) {
    exists id :: id in t.domains && (t.domains[id].hostname == hostname || t.domains[id].previous == Some(hostname))
  }

  /** CreateWebsiteProvision: both checks, the hostname, then website and primary domain together. */
  function CreateWebsite(t: Tables, id: string, domain: string, account: string, hostname: string, definition: string): Option<Tables> {
    if account !in t.accounts || t.accounts[account].node.None? then None
    else if |WebsitesOf(t, account)| >= t.accounts[account].limits.websites then None
    else if |DomainsOf(t, account, Primary)| >= t.accounts[account].limits.domains then None
    else if HostnameTaken(t, hostname) || id in t.websites || domain in t.domains then None
    else
      Some(t.(websites := t.websites[id := Website(account, t.accounts[account].node.value, definition, true, Pending)],
              domains := t.domains[domain := Domain(id, hostname, Primary, true, Pending, None)]))
  }

  /** CreateWebsiteDomainProvision. */
  function CreateAlias(t: Tables, domain: string, website: string, hostname: string): Option<Tables> {
    if website !in t.websites || t.websites[website].account !in t.accounts then None
    else
      var account := t.websites[website].account;
      if |DomainsOf(t, account, Alias)| >= t.accounts[account].limits.aliases then None
      else if HostnameTaken(t, hostname) || domain in t.domains then None
      else Some(t.(domains := t.domains[domain := Domain(website, hostname, Alias, true, Pending, None)]))
  }

  /** DELETE FROM websites, with the cascade to its domains. */
  function DeleteWebsite(t: Tables, id: string): Tables {
    t.(websites := t.websites - {id},
       domains := map d | d in t.domains && t.domains[d].website != id :: t.domains[d])
  }

  /** DELETE FROM website_domains ... AND kind = 'alias'. */
  function DeleteDomain(t: Tables, id: string): Tables {
    if id in t.domains && t.domains[id].kind == Alias then t.(domains := t.domains - {id}) else t
  }

  function DeleteDatabase(t: Tables, id: string): Tables {
    t.(databases := t.databases - {id})
  }

  function DeleteTask(t: Tables, id: string): Tables {
    t.(tasks := t.tasks - {id})
  }

  /** prepare: a package allows at least as many domains as websites. */
  predicate Prepared(l: Limits) {
    && l.websites <= 1_000_000 && l.domains <= 1_000_000 && l.aliases <= 1_000_000 && l.databases <= 1_000_000 && l.tasks <= 1_000_000
    && l.domains >= l.websites
  }

  /** An update of the package or an assignment of another one. */
  function SetLimits(t: Tables, account: string, l: Limits): Tables {
    if account in t.accounts && Prepared(l) then t.(accounts := t.accounts[account := t.accounts[account].(limits := l)]) else t
  }

  /** With limits that prepare accepts, the domain check never fails once the website check passed. */
  lemma DomainCheckNeverFails(t: Tables, account: string)
    requires Sound(t) && account in t.accounts && Prepared(t.accounts[account].limits)
    requires |WebsitesOf(t, account)| < t.accounts[account].limits.websites
    ensures |DomainsOf(t, account, Primary)| < t.accounts[account].limits.domains
  {
    PrimaryUsageIsWebsiteUsage(t, account);
  }

  /** Nothing above its limit grew: each counter is at most the larger of its old value and its limit. */
  ghost predicate GrewWithin(t: Tables, after: Tables, account: string, l: Limits) {
    && |WebsitesOf(after, account)| <= Max(|WebsitesOf(t, account)|, l.websites)
    && |DomainsOf(after, account, Primary)| <= Max(|DomainsOf(t, account, Primary)|, l.domains)
    && |DomainsOf(after, account, Alias)| <= Max(|DomainsOf(t, account, Alias)|, l.aliases)
    && |ResourcesOf(after.databases, account)| <= Max(|ResourcesOf(t.databases, account)|, l.databases)
    && |ResourcesOf(after.tasks, account)| <= Max(|ResourcesOf(t.tasks, account)|, l.tasks)
  }

  function Max(a: nat, b: nat): nat {
    if a < b then b else a
  }

  // ---- One row written ----

  /** The unique indexes let a domain row be written. */
  predicate DomainFits(t: Tables, id: string, d: Domain) {
    && d.website in t.websites
    && (forall j :: j in t.domains && j != id ==> t.domains[j].hostname != d.hostname)
    && (d.kind == Primary ==> forall j :: j in t.domains && j != id && t.domains[j].website == d.website ==> t.domains[j].kind != Primary)
  }

  function PutDomain(t: Tables, id: string, d: Domain): Tables {
    t.(domains := t.domains[id := d])
  }

  function PutWebsite(t: Tables, id: string, w: Website): Tables {
    t.(websites := t.websites[id := w])
  }

  lemma PutDomainIndexed(t: Tables, id: string, d: Domain)
    requires Indexed(t) && DomainFits(t, id, d)
    ensures Indexed(PutDomain(t, id, d))
  {
    var after := PutDomain(t, id, d);
    forall w, i, j | PrimaryOf(after, w, i) && PrimaryOf(after, w, j) ensures i == j {
      assert i != id ==> PrimaryOf(t, w, i);
      assert j != id ==> PrimaryOf(t, w, j);
    }
  }

  lemma PutWebsiteIndexed(t: Tables, id: string, w: Website)
    requires Indexed(t)
    ensures Indexed(PutWebsite(t, id, w))
  {
    var after := PutWebsite(t, id, w);
    forall x, i, j | PrimaryOf(after, x, i) && PrimaryOf(after, x, j) ensures i == j {
      assert PrimaryOf(t, x, i) && PrimaryOf(t, x, j);
    }
  }

  predicate Owns(t: Tables, account: string, d: Domain) {
    d.website in t.websites && t.websites[d.website].account == account
  }

  /** A new domain adds one to its own counter; a rewritten one of the same website and kind changes none. */
  lemma PutDomainCounts(t: Tables, id: string, d: Domain, a: string, kind: DomainKind)
    requires id in t.domains ==> t.domains[id].website == d.website && t.domains[id].kind == d.kind
    ensures DomainsOf(PutDomain(t, id, d), a, kind)
         == if Owns(t, a, d) && d.kind == kind then DomainsOf(t, a, kind) + {id} else DomainsOf(t, a, kind)
  {
  }

  lemma PutWebsiteCounts(t: Tables, id: string, w: Website, a: string, kind: DomainKind)
    requires Indexed(t) && (id in t.websites ==> t.websites[id].account == w.account)
    ensures WebsitesOf(PutWebsite(t, id, w), a) == if w.account == a then WebsitesOf(t, a) + {id} else WebsitesOf(t, a)
    ensures DomainsOf(PutWebsite(t, id, w), a, kind) == DomainsOf(t, a, kind)
  {
  }

  lemma PrimariesStay(t: Tables, after: Tables, w: string)
    requires exists d :: PrimaryOf(t, w, d)
    requires forall id :: id in t.domains && t.domains[id].kind == Primary && t.domains[id].website == w ==>
      id in after.domains && after.domains[id] == t.domains[id]
    ensures exists d :: PrimaryOf(after, w, d)
  {
    var d :| PrimaryOf(t, w, d);
    assert PrimaryOf(after, w, d);
  }

  // ---- What every transaction keeps ----

  lemma CreateWebsiteSound(t: Tables, id: string, domain: string, account: string, hostname: string, definition: string)
    requires Sound(t) && CreateWebsite(t, id, domain, account, hostname, definition).Some?
    ensures Sound(CreateWebsite(t, id, domain, account, hostname, definition).value)
  {
    var website := Website(account, t.accounts[account].node.value, definition, true, Pending);
    var primary := Domain(id, hostname, Primary, true, Pending, None);
    var mid := PutWebsite(t, id, website);
    PutWebsiteIndexed(t, id, website);
    PutDomainIndexed(mid, domain, primary);
    var after := PutDomain(mid, domain, primary);
    assert PrimaryOf(after, id, domain);
    forall w | w in after.websites && w != id ensures exists d :: PrimaryOf(after, w, d) {
      PrimariesStay(t, after, w);
    }
  }

  lemma CreateWebsiteSets(t: Tables, id: string, domain: string, website: Website, primary: Domain, a: string)
    requires Indexed(t) && id !in t.websites && domain !in t.domains && primary.website == id && primary.kind == Primary
    ensures var after := PutDomain(PutWebsite(t, id, website), domain, primary);
      && WebsitesOf(after, a) == (if website.account == a then WebsitesOf(t, a) + {id} else WebsitesOf(t, a))
      && DomainsOf(after, a, Primary) == (if website.account == a then DomainsOf(t, a, Primary) + {domain} else DomainsOf(t, a, Primary))
      && DomainsOf(after, a, Alias) == DomainsOf(t, a, Alias)
  {
    var mid := PutWebsite(t, id, website);
    PutWebsiteCounts(t, id, website, a, Primary);
    PutWebsiteCounts(t, id, website, a, Alias);
    PutDomainCounts(mid, domain, primary, a, Primary);
    PutDomainCounts(mid, domain, primary, a, Alias);
    assert WebsitesOf(PutDomain(mid, domain, primary), a) == WebsitesOf(mid, a);
  }

  lemma CreateWebsiteIs(t: Tables, id: string, domain: string, account: string, hostname: string, definition: string)
    requires CreateWebsite(t, id, domain, account, hostname, definition).Some?
    ensures account in t.accounts && t.accounts[account].node.Some? && id !in t.websites && domain !in t.domains
    ensures |WebsitesOf(t, account)| < t.accounts[account].limits.websites
    ensures |DomainsOf(t, account, Primary)| < t.accounts[account].limits.domains
    ensures CreateWebsite(t, id, domain, account, hostname, definition).value
      == PutDomain(PutWebsite(t, id, Website(account, t.accounts[account].node.value, definition, true, Pending)),
                   domain, Domain(id, hostname, Primary, true, Pending, None))
  {
  }

  lemma PutSiteCounts(t: Tables, id: string, domain: string, website: Website, primary: Domain, a: string, l: Limits)
    requires Indexed(t) && id !in t.websites && domain !in t.domains && primary.website == id && primary.kind == Primary
    requires website.account == a ==> |WebsitesOf(t, a)| < l.websites && |DomainsOf(t, a, Primary)| < l.domains
    ensures GrewWithin(t, PutDomain(PutWebsite(t, id, website), domain, primary), a, l)
  {
    CreateWebsiteSets(t, id, domain, website, primary, a);
    OneMore(WebsitesOf(t, a), id);
    OneMore(DomainsOf(t, a, Primary), domain);
    WithinByCounts(t, PutDomain(PutWebsite(t, id, website), domain, primary), a, l);
  }

  lemma CreateWebsiteCounts(t: Tables, id: string, domain: string, account: string, hostname: string, definition: string, a: string)
    requires Indexed(t) && CreateWebsite(t, id, domain, account, hostname, definition).Some? && a in t.accounts
    ensures GrewWithin(t, CreateWebsite(t, id, domain, account, hostname, definition).value, a, t.accounts[a].limits)
  {
    CreateWebsiteIs(t, id, domain, account, hostname, definition);
    var website := Website(account, t.accounts[account].node.value, definition, true, Pending);
    PutSiteCounts(t, id, domain, website, Domain(id, hostname, Primary, true, Pending, None), a, t.accounts[a].limits);
  }

  lemma OneMore(s: set<string>, id: string)
    ensures |s + {id}| <= |s| + 1
  {
    if id in s {
      assert s + {id} == s;
    }
  }

  lemma WithinByCounts(t: Tables, after: Tables, a: string, l: Limits)
    requires after.databases == t.databases && after.tasks == t.tasks
    requires |WebsitesOf(after, a)| <= Max(|WebsitesOf(t, a)|, l.websites)
    requires |DomainsOf(after, a, Primary)| <= Max(|DomainsOf(t, a, Primary)|, l.domains)
    requires |DomainsOf(after, a, Alias)| <= Max(|DomainsOf(t, a, Alias)|, l.aliases)
    ensures GrewWithin(t, after, a, l)
  {
  }

  lemma CreateAliasSound(t: Tables, domain: string, website: string, hostname: string)
    requires Sound(t) && CreateAlias(t, domain, website, hostname).Some?
    ensures Sound(CreateAlias(t, domain, website, hostname).value)
  {
    var row := Domain(website, hostname, Alias, true, Pending, None);
    var after := PutDomain(t, domain, row);
    PutDomainIndexed(t, domain, row);
    forall w | w in after.websites ensures exists d :: PrimaryOf(after, w, d) {
      PrimariesStay(t, after, w);
    }
  }

  lemma CreateAliasIs(t: Tables, domain: string, website: string, hostname: string)
    requires CreateAlias(t, domain, website, hostname).Some?
    ensures website in t.websites && t.websites[website].account in t.accounts && domain !in t.domains
    ensures |DomainsOf(t, t.websites[website].account, Alias)| < t.accounts[t.websites[website].account].limits.aliases
    ensures CreateAlias(t, domain, website, hostname).value == PutDomain(t, domain, Domain(website, hostname, Alias, true, Pending, None))
  {
  }

  lemma CreateAliasCounts(t: Tables, domain: string, website: string, hostname: string, a: string)
    requires CreateAlias(t, domain, website, hostname).Some? && a in t.accounts
    ensures GrewWithin(t, CreateAlias(t, domain, website, hostname).value, a, t.accounts[a].limits)
  {
    CreateAliasIs(t, domain, website, hostname);
    var row := Domain(website, hostname, Alias, true, Pending, None);
    PutDomainCounts(t, domain, row, a, Primary);
    PutDomainCounts(t, domain, row, a, Alias);
    OneMore(DomainsOf(t, a, Alias), domain);
    assert WebsitesOf(PutDomain(t, domain, row), a) == WebsitesOf(t, a);
    WithinByCounts(t, PutDomain(t, domain, row), a, t.accounts[a].limits);
  }

  lemma SubsetCount(a: set<string>, b: set<string>)
    requires a <= b
    ensures |a| <= |b|
  {
    assert b == a + (b - a);
  }

  ghost predicate SomeRows(rows: map<string, Resource>, after: map<string, Resource>) {
    forall id :: id in after ==> id in rows && after[id] == rows[id]
  }

  /** Only rows went away, and no domain lost its website. */
  ghost predicate Shrunk(t: Tables, after: Tables) {
    && after.accounts == t.accounts && SomeRows(t.databases, after.databases) && SomeRows(t.tasks, after.tasks)
    && (forall id :: id in after.websites ==> id in t.websites && after.websites[id] == t.websites[id])
    && (forall id :: id in after.domains ==>
          id in t.domains && after.domains[id] == t.domains[id] && after.domains[id].website in after.websites)
    && (forall id :: id in t.domains && t.domains[id].kind == Primary && t.domains[id].website in after.websites ==>
          id in after.domains && after.domains[id] == t.domains[id])
  }

  lemma ShrunkSound(t: Tables, after: Tables)
    requires Sound(t) && Shrunk(t, after)
    ensures Sound(after)
  {
    forall w, i, j | PrimaryOf(after, w, i) && PrimaryOf(after, w, j) ensures i == j {
      assert PrimaryOf(t, w, i) && PrimaryOf(t, w, j);
    }
    forall w | w in after.websites ensures exists d :: PrimaryOf(after, w, d) {
      PrimariesStay(t, after, w);
    }
  }

  lemma ShrunkCounts(t: Tables, after: Tables, a: string, l: Limits)
    requires Shrunk(t, after)
    ensures GrewWithin(t, after, a, l)
  {
    SubsetCount(WebsitesOf(after, a), WebsitesOf(t, a));
    SubsetCount(DomainsOf(after, a, Primary), DomainsOf(t, a, Primary));
    SubsetCount(DomainsOf(after, a, Alias), DomainsOf(t, a, Alias));
    SubsetCount(ResourcesOf(after.databases, a), ResourcesOf(t.databases, a));
    SubsetCount(ResourcesOf(after.tasks, a), ResourcesOf(t.tasks, a));
  }

  lemma DeleteWebsiteShrinks(t: Tables, id: string)
    requires Indexed(t)
    ensures Shrunk(t, DeleteWebsite(t, id))
  {
  }

  lemma DeleteDomainShrinks(t: Tables, id: string)
    requires Indexed(t)
    ensures Shrunk(t, DeleteDomain(t, id))
  {
  }

  lemma DeleteDatabaseShrinks(t: Tables, id: string)
    requires Indexed(t)
    ensures Shrunk(t, DeleteDatabase(t, id))
  {
  }

  lemma DeleteTaskShrinks(t: Tables, id: string)
    requires Indexed(t)
    ensures Shrunk(t, DeleteTask(t, id))
  {
  }
}
