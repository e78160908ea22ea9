/** Databases and scheduled tasks, and the updates of rows that are already there, with what they keep. */
module HostingWrites {
  import opened Options
  import opened Hosting

  // ---- New databases and tasks ----

  predicate ClaimsFree(rows: map<string, Resource>, claims: set<Claim>) {
    forall j :: j in rows ==> rows[j].claims !! claims
  }

  /** One insert after its capacity check; the unique columns may refuse it. */
  function Insert(rows: map<string, Resource>, limit: nat, id: string, row: Resource): Option<map<string, Resource>> {
    if |ResourcesOf(rows, row.account)| >= limit || !ClaimsFree(rows, row.claims) || id in rows then None
    else Some(rows[id := row])
  }

  function DatabaseClaims(account: string, name: string, systemName: string): set<Claim> {
    {AccountName(account, name), SystemName(systemName)}
  }

  /** CreateDatabase. */
  function CreateDatabase(t: Tables, id: string, account: string, name: string, systemName: string, definition: string): Option<Tables> {
    if account !in t.accounts || t.accounts[account].node.None? then None
    else
      var row := Resource(account, t.accounts[account].node.value, DatabaseClaims(account, name, systemName), definition, true, Pending);
      match Insert(t.databases, t.accounts[account].limits.databases, id, row)
      case None => None
      case Some(rows) => Some(t.(databases := rows))
  }

  /** CreateScheduledTask: no column of a task is unique. */
  function CreateTask(t: Tables, id: string, account: string, definition: string, enabled: bool): Option<Tables> {
    if account !in t.accounts || t.accounts[account].node.None? then None
    else
      var row := Resource(account, t.accounts[account].node.value, {}, definition, enabled, Pending);
      match Insert(t.tasks, t.accounts[account].limits.tasks, id, row)
      case None => None
      case Some(rows) => Some(t.(tasks := rows))
  }

  lemma InsertKeeps(rows: map<string, Resource>, limit: nat, id: string, row: Resource, a: string)
    requires ClaimsApart(rows) && Insert(rows, limit, id, row).Some?
    ensures var after := Insert(rows, limit, id, row).value;
      && ClaimsApart(after)
      && |ResourcesOf(after, a)| <= if a == row.account then Max(|ResourcesOf(rows, a)|, limit) else |ResourcesOf(rows, a)|
  {
    var after := rows[id := row];
    assert ResourcesOf(after, a) == if a == row.account then ResourcesOf(rows, a) + {id} else ResourcesOf(rows, a);
    OneMore(ResourcesOf(rows, a), id);
  }

  /** Only databases and tasks changed. */
  lemma ResourcesSound(t: Tables, after: Tables)
    requires Sound(t) && after == t.(databases := after.databases, tasks := after.tasks)
    requires ClaimsApart(after.databases) && ClaimsApart(after.tasks)
    ensures Sound(after)
  {
    forall w, i, j | PrimaryOf(after, w, i) && PrimaryOf(after, w, j) ensures i == j {
      assert PrimaryOf(t, w, i) && PrimaryOf(t, w, j);
    }
    forall w | w in after.websites ensures exists d :: PrimaryOf(after, w, d) {
      PrimariesStay(t, after, w);
    }
  }

  lemma ResourcesWithin(t: Tables, after: Tables, a: string, l: Limits)
    requires after == t.(databases := after.databases, tasks := after.tasks)
    requires |ResourcesOf(after.databases, a)| <= Max(|ResourcesOf(t.databases, a)|, l.databases)
    requires |ResourcesOf(after.tasks, a)| <= Max(|ResourcesOf(t.tasks, a)|, l.tasks)
    ensures GrewWithin(t, after, a, l)
  {
    assert WebsitesOf(after, a) == WebsitesOf(t, a);
    assert DomainsOf(after, a, Primary) == DomainsOf(t, a, Primary);
    assert DomainsOf(after, a, Alias) == DomainsOf(t, a, Alias);
  }

  lemma CreateDatabaseKeeps(t: Tables, id: string, account: string, name: string, systemName: string, definition: string, a: string)
    requires Sound(t) && CreateDatabase(t, id, account, name, systemName, definition).Some?
    ensures var after := CreateDatabase(t, id, account, name, systemName, definition).value;
      Sound(after) && (a in t.accounts ==> GrewWithin(t, after, a, t.accounts[a].limits))
  {
    var after := CreateDatabase(t, id, account, name, systemName, definition).value;
    InsertKeeps(t.databases, t.accounts[account].limits.databases, id, after.databases[id], a);
    ResourcesSound(t, after);
    if a in t.accounts {
      ResourcesWithin(t, after, a, t.accounts[a].limits);
    }
  }

  lemma CreateTaskKeeps(t: Tables, id: string, account: string, definition: string, enabled: bool, a: string)
    requires Sound(t) && CreateTask(t, id, account, definition, enabled).Some?
    ensures var after := CreateTask(t, id, account, definition, enabled).value;
      Sound(after) && (a in t.accounts ==> GrewWithin(t, after, a, t.accounts[a].limits))
  {
    var after := CreateTask(t, id, account, definition, enabled).value;
    InsertKeeps(t.tasks, t.accounts[account].limits.tasks, id, after.tasks[id], a);
    ResourcesSound(t, after);
    if a in t.accounts {
      ResourcesWithin(t, after, a, t.accounts[a].limits);
    }
  }

  // ---- Rows updated in place ----

  /** The updates of single rows; those from SetWebsite on are made by job handlers. */
  datatype Write =
    | QueueWebsite(id: string, enabled: bool)
    | QueueDomain(id: string, enabled: bool)
    | QueueDatabase(id: string)
    | QueueRename(id: string, hostname: string)
    | UpdateTask(id: string, definition: string, enabled: bool)
    | SetWebsite(id: string, status: Status)
    | SetDomain(id: string, status: Status)
    | SetDatabase(id: string, status: Status)
    | SetTasks(account: string, enabledStatus: Status, disabledStatus: Status)
    | CompleteRename(id: string)
    | FailRename(id: string)

  predicate ByWorker(w: Write) {
    w.SetWebsite? || w.SetDomain? || w.SetDatabase? || w.SetTasks? || w.CompleteRename? || w.FailRename?
  }

  function RenameQueued(d: Domain, hostname: string): Domain {
    d.(previous := Some(d.hostname), hostname := hostname, status := Pending)
  }

  function RenameCompleted(d: Domain): Domain {
    d.(previous := None, status := if d.enabled then Active else Disabled)
  }

  function RenameFailed(d: Domain): Domain {
    d.(hostname := if d.previous.Some? then d.previous.value else d.hostname, previous := None, status := Error)
  }

  /** A statement that finds no row, a row its condition excludes, or a hostname in use, changes nothing. */
  function Written(t: Tables, w: Write): Tables {
    match w
    case QueueWebsite(id, enabled) =>
      if id in t.websites && t.websites[id].status != Pending
      then PutWebsite(t, id, t.websites[id].(enabled := enabled, status := Pending)) else t
    case QueueDomain(id, enabled) =>
      if id in t.domains && t.domains[id].kind == Alias && t.domains[id].status != Pending
      then PutDomain(t, id, t.domains[id].(enabled := enabled, status := Pending)) else t
    case QueueDatabase(id) =>
      if id in t.databases then t.(databases := t.databases[id := t.databases[id].(status := Pending)]) else t
    case QueueRename(id, hostname) =>
      if id in t.domains && t.domains[id].status != Pending && !HostnameTaken(t, hostname)
      then PutDomain(t, id, RenameQueued(t.domains[id], hostname)) else t
    case UpdateTask(id, definition, enabled) =>
      if id in t.tasks then t.(tasks := t.tasks[id := t.tasks[id].(definition := definition, enabled := enabled, status := Pending)])
      else t
    case SetWebsite(id, status) =>
      if id in t.websites then PutWebsite(t, id, t.websites[id].(status := status)) else t
    case SetDomain(id, status) =>
      if id in t.domains then PutDomain(t, id, t.domains[id].(status := status)) else t
    case SetDatabase(id, status) =>
      if id in t.databases then t.(databases := t.databases[id := t.databases[id].(status := status)]) else t
    case SetTasks(account, enabledStatus, disabledStatus) =>
      t.(tasks := map k | k in t.tasks :: if t.tasks[k].account != account then t.tasks[k]
                                          else t.tasks[k].(status := if t.tasks[k].enabled then enabledStatus else disabledStatus))
    case CompleteRename(id) =>
      if id in t.domains then PutDomain(t, id, RenameCompleted(t.domains[id])) else t
    case FailRename(id) =>
      if id in t.domains && DomainFits(t, id, RenameFailed(t.domains[id])) then PutDomain(t, id, RenameFailed(t.domains[id])) else t
  }

  ghost predicate SameOwners(rows: map<string, Resource>, after: map<string, Resource>) {
    && after.Keys == rows.Keys
    && forall id :: id in rows ==> after[id].account == rows[id].account && after[id].claims == rows[id].claims
  }

  /** The same rows with the same owners, kinds and unique columns; hostnames may change but stay apart. */
  ghost predicate Rewritten(t: Tables, after: Tables) {
    && after.accounts == t.accounts && after.websites.Keys == t.websites.Keys && after.domains.Keys == t.domains.Keys
    && (forall id :: id in t.websites ==> after.websites[id].account == t.websites[id].account)
    && (forall id :: id in t.domains ==> after.domains[id].website == t.domains[id].website && after.domains[id].kind == t.domains[id].kind)
    && (forall i, j :: i in after.domains && j in after.domains && i != j ==> after.domains[i].hostname != after.domains[j].hostname)
    && SameOwners(t.databases, after.databases) && SameOwners(t.tasks, after.tasks)
  }

  lemma DomainRewritten(t: Tables, id: string, d: Domain)
    requires Indexed(t) && id in t.domains && d.website == t.domains[id].website && d.kind == t.domains[id].kind
    requires forall j :: j in t.domains && j != id ==> t.domains[j].hostname != d.hostname
    ensures Rewritten(t, PutDomain(t, id, d))
  {
  }

  lemma ResourcesRewritten(t: Tables, after: Tables)
    requires Indexed(t) && after == t.(databases := after.databases, tasks := after.tasks)
    requires SameOwners(t.databases, after.databases) && SameOwners(t.tasks, after.tasks)
    ensures Rewritten(t, after)
  {
  }

  lemma WebsiteRewritten(t: Tables, id: string, w: Website)
    requires Indexed(t) && id in t.websites && w.account == t.websites[id].account
    ensures Rewritten(t, PutWebsite(t, id, w))
  {
  }

  lemma DomainWriteRewrites(t: Tables, w: Write)
    requires Indexed(t) && (w.QueueDomain? || w.QueueRename? || w.SetDomain? || w.CompleteRename? || w.FailRename?)
    ensures Rewritten(t, Written(t, w))
  {
    if Written(t, w) != t {
      DomainRewritten(t, w.id, Written(t, w).domains[w.id]);
    }
  }

  lemma WebsiteWriteRewrites(t: Tables, w: Write)
    requires Indexed(t) && (w.QueueWebsite? || w.SetWebsite?)
    ensures Rewritten(t, Written(t, w))
  {
    if Written(t, w) != t {
      WebsiteRewritten(t, w.id, Written(t, w).websites[w.id]);
    }
  }

  lemma OneRowOwned(rows: map<string, Resource>, id: string, row: Resource)
    requires id in rows && row.account == rows[id].account && row.claims == rows[id].claims
    ensures SameOwners(rows, rows[id := row])
  {
  }

  lemma DatabaseRewritten(t: Tables, id: string, row: Resource)
    requires Indexed(t) && id in t.databases && row.account == t.databases[id].account && row.claims == t.databases[id].claims
    ensures Rewritten(t, t.(databases := t.databases[id := row]))
  {
    OneRowOwned(t.databases, id, row);
    ResourcesRewritten(t, t.(databases := t.databases[id := row]));
  }

  lemma DatabaseWriteRewrites(t: Tables, w: Write)
    requires Indexed(t) && (w.QueueDatabase? || w.SetDatabase?)
    ensures Rewritten(t, Written(t, w))
  {
    if w.id in t.databases {
      var row := t.databases[w.id].(status := if w.QueueDatabase? then Pending else w.status);
      DatabaseRewritten(t, w.id, row);
      assert Written(t, w) == t.(databases := t.databases[w.id := row]);
    } else {
      assert Written(t, w) == t;
    }
  }

  lemma TaskWriteRewrites(t: Tables, w: Write)
    requires Indexed(t) && (w.UpdateTask? || w.SetTasks?)
    ensures Rewritten(t, Written(t, w))
  {
    var rows := Written(t, w).tasks;
    assert SameOwners(t.tasks, rows);
    ResourcesRewritten(t, t.(tasks := rows));
    assert Written(t, w) == t.(tasks := rows);
  }

  lemma WriteRewrites(t: Tables, w: Write)
    requires Indexed(t)
    ensures Rewritten(t, Written(t, w))
  {
    match w
    case QueueWebsite(_, _) => WebsiteWriteRewrites(t, w);
    case SetWebsite(_, _) => WebsiteWriteRewrites(t, w);
    case QueueDatabase(_) => DatabaseWriteRewrites(t, w);
    case SetDatabase(_, _) => DatabaseWriteRewrites(t, w);
    case UpdateTask(_, _, _) => TaskWriteRewrites(t, w);
    case SetTasks(_, _, _) => TaskWriteRewrites(t, w);
    case _ => DomainWriteRewrites(t, w);
  }

  lemma RewrittenSound(t: Tables, after: Tables)
    requires Sound(t) && Rewritten(t, after)
    ensures Sound(after)
  {
    forall w, i, j | PrimaryOf(after, w, i) && PrimaryOf(after, w, j) ensures i == j {
      assert PrimaryOf(t, w, i) && PrimaryOf(t, w, j);
    }
    forall w | w in after.websites ensures exists d :: PrimaryOf(after, w, d) {
      var d :| PrimaryOf(t, w, d);
      assert PrimaryOf(after, w, d);
    }
  }

  lemma RewrittenCounts(t: Tables, after: Tables, a: string, l: Limits)
    requires Rewritten(t, after)
    ensures GrewWithin(t, after, a, l)
  {
    assert WebsitesOf(after, a) == WebsitesOf(t, a);
    assert DomainsOf(after, a, Primary) == DomainsOf(t, a, Primary);
    assert DomainsOf(after, a, Alias) == DomainsOf(t, a, Alias);
    assert ResourcesOf(after.databases, a) == ResourcesOf(t.databases, a);
    assert ResourcesOf(after.tasks, a) == ResourcesOf(t.tasks, a);
  }
}
