/** What FTP requests store, what the agent installs for them and what is printed, field by field, and a request followed to the logins. */
module FtpLaws {
  import opened Jobs
  import opened Options
  import opened Text
  import opened FtpLine
  import opened FtpHost
  import opened FtpStore
  import opened FtpSync

  // ---- The store ----

  /** The row the request asks for: what it names is new, what it leaves out is kept, and a job has to settle it. */
  predicate Asked(r: Row, c: Changes, q: Row) {
    && q.id == r.id && q.account == r.account && q.status == Pending && q.deleting == c.deleting
    && (c.username.Some? ==> q.username == c.username.value) && (c.username.None? ==> q.username == r.username)
    && (c.hash.Some? ==> q.hash == c.hash.value) && (c.hash.None? ==> q.hash == r.hash)
    && (c.enabled.Some? ==> q.enabled == c.enabled.value) && (c.enabled.None? ==> q.enabled == r.enabled)
  }

  ghost predicate JobAdded(jobs: map<nat, SyncJob>, after: map<nat, SyncJob>, key: nat, account: string) {
    && key !in jobs && after.Keys == jobs.Keys + {key} && after[key] == Job(account, Queued, 0, 2)
    && forall k :: k in jobs ==> after[k] == jobs[k]
  }

  lemma Found(rows: seq<Row>, r: Row)
    requires IdsDistinct(rows) && r in rows
    ensures FindRow(rows, r.id).Some? && rows[FindRow(rows, r.id).value] == r
  {
    var k :| 0 <= k < |rows| && rows[k] == r;
  }

  /** A change stores what it was asked to store, in the place of the row, and nothing else. */
  lemma ChangeLeaves(t: Tables, r: Row, c: Changes, key: nat, allowed: bool)
    requires IdsDistinct(t.rows) && r in t.rows && Change(t, r.id, c, key, allowed).ok
    ensures var after := Change(t, r.id, c, key, allowed).tables;
      && |after.rows| == |t.rows| && JobAdded(t.jobs, after.jobs, key, r.account)
      && forall i :: 0 <= i < |t.rows| ==> if t.rows[i] == r then Asked(r, c, after.rows[i]) else after.rows[i] == t.rows[i]
  {
    Found(t.rows, r);
    var j := FindRow(t.rows, r.id).value;
    forall i | 0 <= i < |t.rows| && i != j ensures t.rows[i] != r {
    }
  }

  /** Another row has the name. */
  predicate Taken(rows: seq<Row>, username: string, id: string) {
    exists q :: q in rows && q.username == username && q.id != id
  }

  predicate InHand(jobs: map<nat, SyncJob>, account: string) {
    exists k :: k in jobs && jobs[k].work == account && (jobs[k].status == Queued || jobs[k].status == Running)
  }

  /** It is refused for the account gate, a job in hand, a name in use, or a row that is being deleted. */
  lemma ChangeSucceedsExactly(t: Tables, r: Row, c: Changes, key: nat, allowed: bool)
    requires IdsDistinct(t.rows) && r in t.rows
    ensures Change(t, r.id, c, key, allowed).ok <==>
      && allowed && (r.deleting ==> c.deleting) && !InHand(t.jobs, r.account) && key !in t.jobs
      && !Taken(t.rows, if c.username.Some? then c.username.value else r.username, r.id)
    ensures !Change(t, r.id, c, key, allowed).ok ==> Change(t, r.id, c, key, allowed).tables == t
  {
    Found(t.rows, r);
  }

  lemma UnknownIsRefused(t: Tables, id: string, c: Changes, key: nat, allowed: bool)
    ensures (exists r :: r in t.rows && r.id == id) || Change(t, id, c, key, allowed) == FtpStore.Result(t, false)
  {
    if FindRow(t.rows, id).Some? {
      assert t.rows[FindRow(t.rows, id).value] in t.rows;
    }
  }

  /** A creation adds the row as given, pending and not deleting, at the place its time gives it. */
  lemma CreateLeaves(t: Tables, row: Row, key: nat, at: nat, limit: nat, allowed: bool)
    requires Create(t, row, key, at, limit, allowed).ok
    ensures var after := Create(t, row, key, at, limit, allowed).tables;
      && |after.rows| == |t.rows| + 1 && at <= |t.rows| && JobAdded(t.jobs, after.jobs, key, row.account)
      && after.rows[at] == Row(row.id, row.account, row.username, row.hash, row.enabled, false, Pending)
      && (forall i :: 0 <= i < at ==> after.rows[i] == t.rows[i])
      && forall i :: at <= i < |t.rows| ==> after.rows[i + 1] == t.rows[i]
  {
  }

  function Held(rows: seq<Row>, account: string): set<string> {
    set r | r in rows && r.account == account :: r.id
  }

  lemma HeldHead(rows: seq<Row>, account: string)
    requires rows != [] && IdsDistinct(rows)
    ensures rows[0].account == account ==> Held(rows, account) == Held(rows[1..], account) + {rows[0].id}
    ensures rows[0].account != account ==> Held(rows, account) == Held(rows[1..], account)
    ensures rows[0].id !in Held(rows[1..], account)
  {
    var rest := rows[1..];
    assert rows == [rows[0]] + rest;
    forall r | r in rest ensures r.id != rows[0].id {
      var k :| 0 <= k < |rest| && rest[k] == r;
      assert rows[k + 1] == r;
    }
  }

  lemma {:induction false} RowsAreHeld(rows: seq<Row>, account: string)
    requires IdsDistinct(rows)
    ensures |AccountRows(rows, account)| == |Held(rows, account)|
  {
    if rows == [] {
      assert Held(rows, account) == {};
    } else {
      HeldHead(rows, account);
      RowsAreHeld(rows[1..], account);
    }
  }

  lemma CreateSucceedsExactly(t: Tables, row: Row, key: nat, at: nat, limit: nat, allowed: bool)
    requires IdsDistinct(t.rows)
    ensures Create(t, row, key, at, limit, allowed).ok <==>
      && allowed && !InHand(t.jobs, row.account) && !Taken(t.rows, row.username, row.id)
      && |Held(t.rows, row.account)| < limit
      && (forall r :: r in t.rows ==> r.id != row.id) && key !in t.jobs && at <= |t.rows|
    ensures !Create(t, row, key, at, limit, allowed).ok ==> Create(t, row, key, at, limit, allowed).tables == t
  {
    RowsAreHeld(t.rows, row.account);
  }

  /** The row once its job is recorded: in error after a failure, else as its enabled flag says. */
  predicate Recorded(q: Row, failed: bool, r: Row) {
    && r == q.(status := r.status)
    && (failed ==> r.status == Error) && (!failed && q.enabled ==> r.status == Active) && (!failed && !q.enabled ==> r.status == Disabled)
  }

  /** Recording an outcome: rows of others stay, those being deleted go on success, the rest get their status. */
  lemma FinishLeaves(t: Tables, account: string, failed: bool)
    ensures var after := Finish(t, account, failed);
      && after.jobs == t.jobs
      && (forall r :: r in after.rows && r.account != account ==> r in t.rows)
      && (forall q :: q in t.rows && q.account != account ==> q in after.rows)
      && (forall r :: r in after.rows && r.account == account ==>
            exists q :: q in t.rows && Recorded(q, failed, r) && (failed || !q.deleting))
      && (forall q :: q in t.rows && q.account == account && (failed || !q.deleting) ==>
            exists r :: r in after.rows && Recorded(q, failed, r))
  {
    forall q | q in t.rows {
      RowRecorded(t, account, failed, q);
    }
    forall r | r in Finish(t, account, failed).rows {
      RowCame(t, account, failed, r);
    }
  }

  lemma RowRecorded(t: Tables, account: string, failed: bool, q: Row)
    requires q in t.rows
    ensures var after := Finish(t, account, failed).rows;
      if q.account != account then q in after
      else (failed || !q.deleting) ==> exists r :: r in after && Recorded(q, failed, r)
  {
    var kept, after := if failed then t.rows else WithoutDeleting(t.rows, account), Finish(t, account, failed).rows;
    if q.account != account || failed || !q.deleting {
      assert q in kept;
      var k :| 0 <= k < |kept| && kept[k] == q;
      assert after[k] in after && (q.account == account ==> Recorded(q, failed, after[k]));
    }
  }

  lemma RowCame(t: Tables, account: string, failed: bool, r: Row)
    requires r in Finish(t, account, failed).rows
    ensures if r.account != account then r in t.rows
            else exists q :: q in t.rows && Recorded(q, failed, r) && (failed || !q.deleting)
  {
    var kept, after := if failed then t.rows else WithoutDeleting(t.rows, account), Finish(t, account, failed).rows;
    var k :| 0 <= k < |after| && after[k] == r;
    assert kept[k] in kept && kept[k] in t.rows;
    assert r.account == account ==> Recorded(kept[k], failed, r);
  }

  // ---- The logins ----

  /** A login is its entry's, with the identity of the account's system user, jailed in its home. */
  lemma LoginGiven(users: Users, id: string, e: Entry)
    requires HasIdentity(users, id)
    ensures var l, user := LoginOf(users, id, e), "wcp_" + id[..12];
      && l.username == e.username && l.hash == e.hash && l.id == e.id && l.home == "/home/" + user
      && user in users && l.uid == users[user].uid && l.gid == users[user].gid && users[user].account == id
  {
  }

  /** The line of a login: its six fields in the order the server reads them, then thirteen that stay empty. */
  lemma LineGiven(l: Login)
    ensures Line(l) == l.username + ":" + l.hash + ":" + Decimal(l.uid) + ":" + Decimal(l.gid)
      + ":WEBYCP-" + l.id + ":" + l.home + "/./" + Colons(13)
  {
    SixThenBlank(l.username, l.hash, Decimal(l.uid), Decimal(l.gid), PREFIX + l.id, l.home + SUFFIX);
    assert Fields(l) == [l.username, l.hash, Decimal(l.uid), Decimal(l.gid), PREFIX + l.id, l.home + SUFFIX] + seq(13, i => "");
  }

  lemma SixThenBlank(a: string, b: string, c: string, d: string, e: string, f: string)
    ensures Join([a, b, c, d, e, f] + seq(13, i => ""), ':')
      == a + ":" + (b + ":" + (c + ":" + (d + ":" + (e + ":" + (f + ":" + Colons(12))))))
  {
    var blank := seq(13, i => "");
    BlankFields(13);
    JoinPair(f, blank);
    JoinPair(e, [f] + blank);
    JoinPair(d, [e] + ([f] + blank));
    JoinPair(c, [d] + ([e] + ([f] + blank)));
    JoinPair(b, [c] + ([d] + ([e] + ([f] + blank))));
    JoinPair(a, [b] + ([c] + ([d] + ([e] + ([f] + blank)))));
    assert [a, b, c, d, e, f] + blank == [a] + ([b] + ([c] + ([d] + ([e] + ([f] + blank)))));
  }

  lemma JoinPair(head: string, rest: seq<string>)
    requires rest != []
    ensures Join([head] + rest, ':') == head + ":" + Join(rest, ':')
  {
    assert ([head] + rest)[1..] == rest;
  }

  function Colons(n: nat): string {
    seq(n, i => ':')
  }

  lemma {:induction false} BlankFields(n: nat)
    requires n > 0
    ensures Join(seq(n, i => ""), ':') == Colons(n - 1)
  {
    if n > 1 {
      var rest := seq(n - 1, i => "");
      BlankFields(n - 1);
      JoinPair("", rest);
      assert seq(n, i => "") == [""] + rest;
    } else {
      assert seq(n, i => "") == [""];
    }
  }

  // ---- The agent ----

  /** Account ids are 32 hexadecimal digits, names three to 32 small letters, digits, dots and dashes, hashes well-formed. */
  lemma EntryAcceptedExactly(e: Entry)
    ensures ValidEntry(e) <==>
      && |e.id| == 32 && (forall i :: 0 <= i < 32 ==> '0' <= e.id[i] <= '9' || 'a' <= e.id[i] <= 'f')
      && 3 <= |e.username| <= 32 && e.username[0] !in "._-"
      && (forall i :: 0 <= i < |e.username| ==> NameChar(e.username[i])) && PasswordHash.Parse(e.hash).Some?
  {
  }

  predicate NameChar(c: char) {
    'a' <= c <= 'z' || '0' <= c <= '9' || c == '.' || c == '_' || c == '-'
  }

  /** Nothing failed in writing and compiling, nor in ending the sessions that are open. */
  predicate Saves(f: Faults) {
    !f.read && !f.write && !f.build && !f.session && !f.disconnect
  }

  ghost predicate NameElsewhere(files: Files, id: string, username: string) {
    exists other, x :: other != id && Holds(files, other, x) && x.username == username
  }

  /** A sync succeeds exactly for a proven identity, an open or suspended account, entries nobody else uses, and no fault. */
  lemma SyncSucceedsExactly(h: Host, users: Users, id: string, systemUser: string, entries: seq<Entry>, f: Faults)
    requires Consistent(h, users)
    ensures Sync(h, users, id, systemUser, entries, f).ok <==>
      && ValidId(id) && systemUser == "wcp_" + id[..12] && HasIdentity(users, id) && ValidEntries(entries)
      && (id in h.open || (id in h.files && h.files[id].suspended))
      && (forall e :: e in entries ==> !NameElsewhere(h.files, id, e.username))
      && !f.identity && Saves(f)
  {
    var file := FileOf(h.files, id).(entries := entries);
    var files := h.files[id := file];
    if ValidNames(id, systemUser) && HasIdentity(users, id) && ValidEntries(entries) {
      NamesFree(h.files, users, id, file);
    }
  }

  /** Suspending, resuming and deleting an account without a file do nothing; with one they need every write. */
  lemma AccountCallsExactly(h: Host, users: Users, id: string, systemUser: string, enabled: bool, f: Faults)
    requires Consistent(h, users) && HasIdentity(users, id)
    ensures SetEnabled(h, users, id, systemUser, enabled, f).ok <==>
      systemUser == "wcp_" + id[..12] && !f.read && (id in h.files ==> Saves(f))
    ensures Delete(h, users, id, systemUser, f).ok <==>
      systemUser == "wcp_" + id[..12] && !f.read && (id in h.files ==> Saves(f) && !f.remove)
  {
    if id in h.files {
      SameEntriesBuildable(h.files, users, id, h.files[id].(suspended := !enabled));
      SameEntriesBuildable(h.files, users, id, h.files[id].(suspended := true));
    }
  }

  lemma SameEntriesBuildable(files: Files, users: Users, id: string, file: AccountFile)
    requires Buildable(files, users) && HasIdentity(users, id) && id in files && file.entries == files[id].entries
    ensures Buildable(files[id := file], users)
  {
    SameEntriesUnique(files, id, file);
  }

  lemma SameEntriesUnique(files: Files, id: string, file: AccountFile)
    requires UniqueNames(files) && id in files && file.entries == files[id].entries
    ensures UniqueNames(files[id := file])
  {
    var after := files[id := file];
    forall a, b, x, y | Holds(after, a, x) && Holds(after, b, y) && x.username == y.username ensures a == b && x == y {
      assert Holds(files, a, x) && Holds(files, b, y);
    }
  }

  /** The home of an account is opened and closed for a proven identity; a failing layout step comes after the mode. */
  lemma HomeCallsExactly(h: Host, users: Users, id: string, systemUser: string, m: HomeFaults)
    ensures var proven := ValidId(id) && systemUser == "wcp_" + id[..12] && HasIdentity(users, id) && !m.identity && !m.mode;
      && (HomeDisable(h, users, id, systemUser, m).ok <==> proven)
      && (HomeEnable(h, users, id, systemUser, m).ok <==> proven && !m.layout)
      && HomeDisable(h, users, id, systemUser, m).host == (if proven then h.(open := h.open - {id}) else h)
      && HomeEnable(h, users, id, systemUser, m).host == (if proven then h.(open := h.open + {id}) else h)
  {
  }

  lemma NamesFree(files: Files, users: Users, id: string, file: AccountFile)
    requires Buildable(files, users) && HasIdentity(users, id) && ValidEntries(file.entries)
    ensures Buildable(files[id := file], users) <==> forall e :: e in file.entries ==> !NameElsewhere(files, id, e.username)
  {
    AllButNames(files, users, id, file);
    if UniqueNames(files[id := file]) {
      NamesApart(files, id, file);
    }
    if forall e :: e in file.entries ==> !NameElsewhere(files, id, e.username) {
      NamesUnique(files, id, file);
    }
  }

  lemma AllButNames(files: Files, users: Users, id: string, file: AccountFile)
    requires Buildable(files, users) && HasIdentity(users, id) && ValidEntries(file.entries)
    ensures Buildable(files[id := file], users) <==> UniqueNames(files[id := file])
  {
  }

  lemma NamesApart(files: Files, id: string, file: AccountFile)
    requires UniqueNames(files[id := file])
    ensures forall e :: e in file.entries ==> !NameElsewhere(files, id, e.username)
  {
    var after := files[id := file];
    forall e, other, x | e in file.entries && other != id && Holds(files, other, x) ensures x.username != e.username {
      assert Holds(after, other, x) && Holds(after, id, e);
    }
  }

  lemma NamesUnique(files: Files, id: string, file: AccountFile)
    requires UniqueNames(files) && ValidEntries(file.entries)
    requires forall e :: e in file.entries ==> !NameElsewhere(files, id, e.username)
    ensures UniqueNames(files[id := file])
  {
    var after := files[id := file];
    forall a, b, x, y | Holds(after, a, x) && Holds(after, b, y) && x.username == y.username ensures a == b && x == y {
      if a == id && b == id {
        SameName(file.entries, x, y);
      } else if a == id {
        assert Holds(files, b, y) && NameElsewhere(files, id, x.username);
      } else if b == id {
        assert Holds(files, a, x) && NameElsewhere(files, id, y.username);
      } else {
        assert Holds(files, a, x) && Holds(files, b, y);
      }
    }
  }

  lemma SameName(entries: seq<Entry>, x: Entry, y: Entry)
    requires ValidEntries(entries) && x in entries && y in entries && x.username == y.username
    ensures x == y
  {
    var i :| 0 <= i < |entries| && entries[i] == x;
    var j :| 0 <= j < |entries| && entries[j] == y;
  }

  ghost predicate GrantsExactly(h: Host, users: Users, id: string, entries: seq<Entry>)
    requires HasIdentity(users, id)
  {
    forall l :: l in h.logins && l.home == "/home/wcp_" + id[..12] <==> exists e :: e in entries && e.enabled && l == LoginOf(users, id, e)
  }

  /** After a successful sync the home admits exactly the enabled entries, or nobody while suspended. */
  lemma SyncLeaves(h: Host, users: Users, id: string, systemUser: string, entries: seq<Entry>, f: Faults)
    requires Consistent(h, users) && Sync(h, users, id, systemUser, entries, f).ok
    ensures var after := Sync(h, users, id, systemUser, entries, f).host;
      && HasIdentity(users, id) && id in after.files && after.files[id].entries == entries && after.open == h.open
      && (after.files[id].suspended <==> id in h.files && h.files[id].suspended)
      && GrantsExactly(after, users, id, if after.files[id].suspended then [] else entries)
  {
    var after := Sync(h, users, id, systemUser, entries, f).host;
    ApplyKeepsConsistent(h, users, SyncCall(id, systemUser, entries, f));
    HomeGrants(after, users, id);
  }

  lemma HomeGrants(h: Host, users: Users, id: string)
    requires Consistent(h, users) && HasIdentity(users, id)
    ensures GrantsExactly(h, users, id, if id in h.files && !h.files[id].suspended then h.files[id].entries else [])
  {
    forall l {
      HomeGrant(h, users, id, l);
    }
  }

  lemma HomeGrant(h: Host, users: Users, id: string, l: Login)
    requires Consistent(h, users) && HasIdentity(users, id)
    ensures l in h.logins && l.home == "/home/wcp_" + id[..12]
      <==> id in h.files && !h.files[id].suspended && exists e :: e in h.files[id].entries && e.enabled && l == LoginOf(users, id, e)
  {
    AccountLoginsFromFile(h, users, id);
    FileGrants(users, id, FileOf(h.files, id), l);
    assert HomeOf(id) == "/home/wcp_" + id[..12];
    assert l in AccountLogins(h, id) <==> l in h.logins && l.home == HomeOf(id);
  }

  lemma FileGrants(users: Users, id: string, file: AccountFile, l: Login)
    requires HasIdentity(users, id)
    ensures l in FileLogins(users, id, file)
      <==> !file.suspended && exists e :: e in file.entries && e.enabled && l == LoginOf(users, id, e)
  {
  }

  /** After a successful delete the account has no file and no login. */
  lemma DeleteLeaves(h: Host, users: Users, id: string, systemUser: string, f: Faults)
    requires Consistent(h, users) && HasIdentity(users, id) && Delete(h, users, id, systemUser, f).ok
    ensures var after := Delete(h, users, id, systemUser, f).host;
      id !in after.files && after.open == h.open && GrantsExactly(after, users, id, [])
  {
    DeleteKeepsConsistent(h, users, id, systemUser, f);
    HomeGrants(Delete(h, users, id, systemUser, f).host, users, id);
  }

  /** Disabling an account closes its home and admits nobody to it; enabling it opens the home to its enabled entries. */
  lemma DisableLeaves(h: Host, users: Users, id: string, systemUser: string, m: ManagerFaults)
    requires Consistent(h, users) && Disable(h, users, id, systemUser, m).ok
    ensures var after := Disable(h, users, id, systemUser, m).host;
      && HasIdentity(users, id) && after.open == h.open - {id} && GrantsExactly(after, users, id, [])
      && (id in after.files <==> id in h.files) && (id in h.files ==> after.files[id].entries == h.files[id].entries)
  {
    var after := Disable(h, users, id, systemUser, m).host;
    ApplyKeepsConsistent(h, users, DisableCall(id, systemUser, m));
    HomeGrants(after, users, id);
  }

  lemma EnableLeaves(h: Host, users: Users, id: string, systemUser: string, m: ManagerFaults)
    requires Consistent(h, users) && Enable(h, users, id, systemUser, m).ok
    ensures var after := Enable(h, users, id, systemUser, m).host;
      && HasIdentity(users, id) && after.open == h.open + {id} && (id in after.files <==> id in h.files)
      && (id in h.files ==> after.files[id] == AccountFile(false, h.files[id].entries))
      && GrantsExactly(after, users, id, if id in h.files then h.files[id].entries else [])
  {
    var after := Enable(h, users, id, systemUser, m).host;
    ApplyKeepsConsistent(h, users, EnableCall(id, systemUser, m));
    HomeGrants(after, users, id);
  }

  // ---- The steps of a sync job ----

  /** The stage at which the worker makes a step. */
  predicate InTurn(w: Worker, step: Step) {
    match step
    case ClaimJob(_) => w.Idle?
    case DropJob(_) => w.Claimed?
    case LoadRows => w.Claimed?
    case LoadFails => w.Claimed?
    case CallAgent(_, _, _, _) => w.Loaded?
    case FinishRows(_) => w.Called?
    case SettleJob(_) => w.Done?
    case _ => true
  }

  /** Out of its turn a step does nothing, and a request never moves the worker or the node. */
  lemma OutOfTurn(s: State, users: Users, step: Step)
    ensures !InTurn(s.worker, step) ==> Next(s, users, step) == s
    ensures step.CreateRequest? || step.ChangeRequest? ==> Next(s, users, step) == s.(tables := Next(s, users, step).tables)
    ensures step.Suspension? ==> Next(s, users, step) == s.(host := Next(s, users, step).host)
    ensures step.Suspension? && (step.call.DisableCall? || step.call.EnableCall?) ==>
      Next(s, users, step).host == Apply(s.host, users, step.call).host
  {
  }

  /** A job whose step could not be recorded is closed, one whose rows could not be read has failed. */
  lemma EarlyEndLeaves(s: State, users: Users)
    requires s.worker.Claimed? && WorkerHasJob(s)
    ensures var j := s.tables.jobs[s.worker.job];
      && Next(s, users, DropJob(true)).tables == s.tables.(jobs := s.tables.jobs[s.worker.job := j.(status := Failed)])
      && Next(s, users, DropJob(true)).worker.Idle? && Next(s, users, DropJob(false)) == s.(worker := Idle)
      && Next(s, users, LoadFails) == s.(worker := Called(s.worker.job, false))
  {
  }

  const NO_FAULT := Faults(false, false, false, false, false, false, false)

  /** The agent takes the entries. */
  ghost predicate Takes(h: Host, users: Users, id: string, systemUser: string, entries: seq<Entry>) {
    && ValidId(id) && systemUser == "wcp_" + id[..12] && HasIdentity(users, id) && ValidEntries(entries)
    && id in h.open && forall e :: e in entries ==> !NameElsewhere(h.files, id, e.username)
  }

  lemma Calls(s: State, users: Users, systemUser: string)
    requires Consistent(s.host, users) && s.worker.Loaded? && WorkerHasJob(s)
    requires Takes(s.host, users, JobAccount(s), systemUser, s.worker.entries)
    ensures var a, after := JobAccount(s), Next(s, users, CallAgent(systemUser, NO_FAULT, true, true));
      && after == s.(host := after.host, worker := Called(s.worker.job, true))
      && a in after.host.files && after.host.files[a].entries == s.worker.entries
  {
    SyncSucceedsExactly(s.host, users, JobAccount(s), systemUser, s.worker.entries, NO_FAULT);
    SyncInstalls(s.host, users, JobAccount(s), systemUser, s.worker.entries, NO_FAULT);
  }

  /** The stages of a sync job that meets no fault. */
  ghost function Synced(s: State, users: Users, job: nat, systemUser: string): State {
    var loaded := Next(Next(s, users, ClaimJob(job)), users, LoadRows);
    Next(Next(Next(loaded, users, CallAgent(systemUser, NO_FAULT, true, true)), users, FinishRows(true)), users, SettleJob(true))
  }

  /** From the claim to the last write: the job is closed, the rows have their status, the node has the account's entries. */
  lemma SyncGoesThrough(s: State, users: Users, job: nat, systemUser: string)
    requires Consistent(s.host, users) && s.worker.Idle? && job in s.tables.jobs && Claimable(s.tables.jobs[job])
    requires var a := s.tables.jobs[job].work; Takes(s.host, users, a, systemUser, EntriesOf(s.tables.rows, a))
    ensures var j, after := s.tables.jobs[job], Synced(s, users, job, systemUser);
      && after.worker.Idle? && after.tables.rows == Finish(s.tables, j.work, false).rows && AllSettled(after.tables.rows, j.work)
      && after.tables.jobs == s.tables.jobs[job := Job(j.work, Succeeded, j.attempts + 1, j.maxAttempts)]
      && j.work in after.host.files && after.host.files[j.work].entries == EntriesOf(s.tables.rows, j.work)
  {
    var j := s.tables.jobs[job];
    var loaded := State(SetJob(s.tables, job, Claim(j)), s.host, Loaded(job, EntriesOf(s.tables.rows, j.work)));
    Reads(s, users, job);
    Calls(loaded, users, systemUser);
    Writes(Next(loaded, users, CallAgent(systemUser, NO_FAULT, true, true)), users, job);
    FinishedSettles(s.tables, j.work);
  }

  lemma Reads(s: State, users: Users, job: nat)
    requires s.worker.Idle? && job in s.tables.jobs && Claimable(s.tables.jobs[job])
    ensures var j := s.tables.jobs[job];
      Next(Next(s, users, ClaimJob(job)), users, LoadRows)
      == State(SetJob(s.tables, job, Claim(j)), s.host, Loaded(job, EntriesOf(s.tables.rows, j.work)))
  {
  }

  lemma Writes(s: State, users: Users, job: nat)
    requires s.worker == Called(job, true) && job in s.tables.jobs
    ensures var j := s.tables.jobs[job];
      Next(Next(s, users, FinishRows(true)), users, SettleJob(true))
      == State(Tables(Finish(s.tables, j.work, false).rows, s.tables.jobs[job := Settle(j, true)]), s.host, Idle)
  {
  }

  lemma FinishedSettles(t: Tables, account: string)
    ensures AllSettled(Finish(t, account, false).rows, account)
  {
    forall r | r in Finish(t, account, false).rows && r.account == account ensures RowSettled(r) {
      FinishMembers(t, account, false, r);
    }
  }

  /** A crash leaves rows and node as they are; every running job is queued again with its attempt given back. */
  lemma CrashLeaves(s: State, users: Users)
    requires forall k :: k in s.tables.jobs && s.tables.jobs[k].status == Running ==> s.tables.jobs[k].attempts > 0
    ensures var after := Next(s, users, Crash);
      && after.host == s.host && after.tables.rows == s.tables.rows && after.worker.Idle?
      && after.tables.jobs.Keys == s.tables.jobs.Keys
      && forall k :: k in s.tables.jobs ==> var j := s.tables.jobs[k];
           after.tables.jobs[k] == if j.status == Running then Job(j.work, Queued, j.attempts - 1, j.maxAttempts) else j
  {
  }

  /** A job that cannot be reached or answered is recorded as failed, and its rows as in error. */
  lemma FailureLeaves(s: State, users: Users, systemUser: string, f: Faults, delivered: bool, answered: bool)
    requires s.worker.Loaded? && WorkerHasJob(s) && (!delivered || !answered)
    ensures var called := Next(s, users, CallAgent(systemUser, f, delivered, answered));
      && called.worker == Called(s.worker.job, false) && (!delivered ==> called.host == s.host)
      && (delivered ==> called.host == Sync(s.host, users, JobAccount(s), systemUser, s.worker.entries, f).host)
      && called.tables == s.tables
      && Next(called, users, FinishRows(true)).tables == Finish(s.tables, JobAccount(s), true)
      && Next(called, users, FinishRows(false)).tables == s.tables
      && !Next(called, users, FinishRows(true)).worker.ok && !Next(called, users, FinishRows(false)).worker.ok
  {
  }

  // ---- From a request to the logins ----

  /** Neither a change nor a creation of this id. */
  predicate About(step: Step, id: string) {
    (step.ChangeRequest? && step.id == id) || (step.CreateRequest? && step.row.id == id)
  }

  predicate LeftAlone(steps: seq<Step>, id: string) {
    forall i :: 0 <= i < |steps| ==> !About(steps[i], id)
  }

  /** Every row of the id has these columns. */
  ghost predicate OnlyAs(rows: seq<Row>, q: Row) {
    forall r :: r in rows && r.id == q.id ==> r == q.(status := r.status)
  }

  lemma AsAskedFinish(t: Tables, account: string, failed: bool, q: Row)
    requires OnlyAs(t.rows, q)
    ensures OnlyAs(Finish(t, account, failed).rows, q)
  {
    forall r | r in Finish(t, account, failed).rows && r.id == q.id ensures r == q.(status := r.status) {
      RowCame(t, account, failed, r);
    }
  }

  lemma AsAskedRequest(s: State, users: Users, step: Step, q: Row)
    requires OnlyAs(s.tables.rows, q) && !About(step, q.id) && (step.CreateRequest? || step.ChangeRequest?)
    ensures OnlyAs(Next(s, users, step).tables.rows, q)
  {
    var rows, after := s.tables.rows, Next(s, users, step).tables.rows;
    forall r | r in after && r.id == q.id ensures r == q.(status := r.status) {
      assert r in rows;
    }
  }

  lemma AsAskedStep(s: State, users: Users, step: Step, q: Row)
    requires OnlyAs(s.tables.rows, q) && !About(step, q.id)
    ensures OnlyAs(Next(s, users, step).tables.rows, q)
  {
    if step.CreateRequest? || step.ChangeRequest? {
      AsAskedRequest(s, users, step, q);
    } else if step.FinishRows? && s.worker.Called? && WorkerHasJob(s) && step.written {
      AsAskedFinish(s.tables, JobAccount(s), !s.worker.ok, q);
    } else {
      assert Next(s, users, step).tables.rows == s.tables.rows;
    }
  }

  lemma {:induction false} AsAskedRun(s: State, users: Users, steps: seq<Step>, q: Row)
    requires Inv(s, users) && OnlyAs(s.tables.rows, q) && LeftAlone(steps, q.id)
    ensures OnlyAs(FtpSync.Run(s, users, steps).tables.rows, q)
    decreases |steps|
  {
    if steps == [] {
    } else {
      NextKeeps(s, users, steps[0]);
      AsAskedStep(s, users, steps[0], q);
      AsAskedRun(Next(s, users, steps[0]), users, steps[1..], q);
    }
  }

  lemma {:induction false} RunParts(s: State, users: Users, a: seq<Step>, b: seq<Step>)
    ensures FtpSync.Run(s, users, a + b) == FtpSync.Run(FtpSync.Run(s, users, a), users, b)
    decreases |a|
  {
    if a == [] {
      assert a + b == b;
    } else {
      assert (a + b)[1..] == a[1..] + b;
      RunParts(Next(s, users, a[0]), users, a[1..], b);
    }
  }

  lemma RunAround(s: State, users: Users, before: seq<Step>, step: Step, later: seq<Step>)
    ensures FtpSync.Run(s, users, before + [step] + later) == FtpSync.Run(Next(FtpSync.Run(s, users, before), users, step), users, later)
  {
    RunParts(s, users, before, [step] + later);
    assert before + [step] + later == before + ([step] + later);
    assert ([step] + later)[1..] == later;
  }

  /** An account that is settled and not suspended. */
  ghost predicate Settles(s: State, account: string) {
    AllSettled(s.tables.rows, account) && !FileOf(s.host.files, account).suspended
  }

  /**
   * From the request to the login database: after an accepted change, with no later request for the row, an account
   * that has settled unsuspended is served the row exactly as asked, or not at all when it was disabled or deleted.
   */
  lemma ChangeIsServed(start: State, users: Users, before: seq<Step>, r: Row, c: Changes, key: nat, allowed: bool, later: seq<Step>)
    requires Initial(start) && r in FtpSync.Run(start, users, before).tables.rows && HasIdentity(users, r.account)
    requires Change(FtpSync.Run(start, users, before).tables, r.id, c, key, allowed).ok && LeftAlone(later, r.id)
    requires Settles(FtpSync.Run(start, users, before + [ChangeRequest(r.id, c, key, allowed)] + later), r.account)
    ensures var end := FtpSync.Run(start, users, before + [ChangeRequest(r.id, c, key, allowed)] + later);
      && (c.deleting || c.enabled == Some(false) ==> forall l :: l in AccountLogins(end.host, r.account) ==> l.id != r.id)
      && forall q :: q in end.tables.rows && q.id == r.id ==> Asked(r, c, q.(status := Pending)) && Serves(end, users, q)
  {
    var s, step := FtpSync.Run(start, users, before), ChangeRequest(r.id, c, key, allowed);
    var next := Next(s, users, step);
    InitialInv(start, users);
    RunKeeps(start, users, before);
    RunAround(start, users, before, step, later);
    NextKeeps(s, users, step);
    RunKeeps(next, users, later);
    var q := ChangedRow(s.tables, r, c, key, allowed);
    AsAskedRun(next, users, later, q);
    ServedAsRow(FtpSync.Run(next, users, later), users, q);
  }

  lemma ChangedRow(t: Tables, r: Row, c: Changes, key: nat, allowed: bool) returns (q: Row)
    requires IdsDistinct(t.rows) && r in t.rows && Change(t, r.id, c, key, allowed).ok
    ensures Asked(r, c, q) && OnlyAs(Change(t, r.id, c, key, allowed).tables.rows, q)
  {
    var after := Change(t, r.id, c, key, allowed).tables;
    ChangeLeaves(t, r, c, key, allowed);
    var i :| 0 <= i < |t.rows| && t.rows[i] == r;
    q := after.rows[i];
    forall x | x in after.rows && x.id == r.id ensures x == q {
      var k :| 0 <= k < |after.rows| && after.rows[k] == x;
      assert after.rows[k].id == t.rows[k].id;
    }
  }

  /** The row has one login with its own name and hash while it is enabled, and none while it is not. */
  ghost predicate Serves(s: State, users: Users, q: Row)
    requires HasIdentity(users, q.account)
  {
    forall l :: l in AccountLogins(s.host, q.account) && l.id == q.id <==>
      q.enabled && l == LoginOf(users, q.account, Entry(q.id, q.username, q.hash, true))
  }

  lemma ServedAsRow(s: State, users: Users, q: Row)
    requires Inv(s, users) && HasIdentity(users, q.account) && Settles(s, q.account) && OnlyAs(s.tables.rows, q)
    ensures q.deleting || !q.enabled ==> forall l :: l in AccountLogins(s.host, q.account) ==> l.id != q.id
    ensures forall r :: r in s.tables.rows && r.id == q.id ==> Serves(s, users, r)
  {
    ServedFromRows(s, users, q.account);
  }
}
