/** The FTP side of a hosting node as a value: account files, compiled logins and home modes. */
module FtpHost {
  import opened FtpLine
  import PasswordHash

  datatype Entry = Entry(id: string, username: string, hash: string, enabled: bool)

  /** An account file keeps disabled logins, and marks a suspended account. */
  datatype AccountFile = AccountFile(suspended: bool, entries: seq<Entry>)

  /** A system user: the account its marker names and its numeric identity. */
  datatype Passwd = Passwd(account: string, uid: nat, gid: nat)

  type Users = map<string, Passwd>
  type Files = map<string, AccountFile>

  /** `open` holds the accounts whose home directory its owner may enter. */
  datatype Host = Host(files: Files, logins: set<Login>, open: set<string>)

  predicate ValidNames(id: string, systemUser: string) {
    ValidId(id) && systemUser == SystemUser(id)
  }

  predicate HasIdentity(users: Users, id: string) {
    ValidId(id) && SystemUser(id) in users && users[SystemUser(id)].account == id
  }

  predicate ValidEntry(e: Entry) {
    ValidId(e.id) && ValidUsername(e.username) && PasswordHash.Parse(e.hash).Some?
  }

  predicate ValidEntries(entries: seq<Entry>) {
    && |entries| <= 100
    && (forall i :: 0 <= i < |entries| ==> ValidEntry(entries[i]))
    && (forall i, j :: 0 <= i < j < |entries| ==> entries[i].id != entries[j].id)
    && (forall i, j :: 0 <= i < j < |entries| ==> entries[i].username != entries[j].username)
  }

  ghost predicate Holds(files: Files, id: string, e: Entry) {
    id in files && e in files[id].entries
  }

  /** Usernames are unique over every file, suspended ones and disabled logins included. */
  ghost predicate UniqueNames(files: Files) {
    forall a, b, x, y {:trigger Holds(files, a, x), Holds(files, b, y)} ::
      Holds(files, a, x) && Holds(files, b, y) && x.username == y.username ==> a == b && x == y
  }

  predicate Active(file: AccountFile) {
    !file.suspended && file.entries != []
  }

  /** What a rebuild demands of the directory before it activates a database. */
  ghost predicate Buildable(files: Files, users: Users) {
    && (forall id :: id in files ==> ValidId(id) && ValidEntries(files[id].entries))
    && UniqueNames(files)
    && (forall id :: id in files && Active(files[id]) ==> HasIdentity(users, id))
  }

  function LoginOf(users: Users, id: string, e: Entry): Login
    requires HasIdentity(users, id)
  {
    var user := users[SystemUser(id)];
    Login(e.username, e.hash, user.uid, user.gid, e.id, HomeOf(id))
  }

  /** The logins one account file grants. */
  ghost function FileLogins(users: Users, id: string, file: AccountFile): set<Login> {
    if !HasIdentity(users, id) || file.suspended then {}
    else set e | e in file.entries && e.enabled :: LoginOf(users, id, e)
  }

  /** The logins all account files grant together. */
  ghost function Logins(files: Files, users: Users): set<Login> {
    set id, l | id in files && l in FileLogins(users, id, files[id]) :: l
  }

  /** The logins of one account: those jailed in its home. */
  ghost function AccountLogins(h: Host, id: string): set<Login>
    requires ValidId(id)
  {
    set l | l in h.logins && l.home == HomeOf(id)
  }

  /** The compiled database is what the files denote, and the files pass every check. */
  ghost predicate Consistent(h: Host, users: Users) {
    Buildable(h.files, users) && h.logins == Logins(h.files, users)
  }

  /** Which steps of one driver call fail; a database that was not activated counts as `build`. */
  datatype Faults = Faults(identity: bool, read: bool, write: bool, build: bool,
                           session: bool, disconnect: bool, remove: bool)

  datatype Outcome = Outcome(host: Host, ok: bool)

  function FileOf(files: Files, id: string): AccountFile {
    if id in files then files[id] else AccountFile(false, [])
  }

  /** Write the account file, rebuild, disconnect; a failed rebuild restores the previous file. */
  ghost function Save(h: Host, users: Users, id: string, file: AccountFile, f: Faults): Outcome {
    var files := h.files[id := file];
    if f.write || f.build || !Buildable(files, users) then Outcome(h, false)
    else Outcome(h.(files := files, logins := Logins(files, users)),
                 HasIdentity(users, id) && !f.session && !f.disconnect)
  }

  ghost function Sync(h: Host, users: Users, id: string, systemUser: string, entries: seq<Entry>, f: Faults): Outcome {
    if !ValidNames(id, systemUser) || !HasIdentity(users, id) || f.identity || !ValidEntries(entries) then Outcome(h, false)
    else if f.read || !ValidEntries(FileOf(h.files, id).entries) then Outcome(h, false)
    else if id !in h.open && !FileOf(h.files, id).suspended then Outcome(h, false)
    else Save(h, users, id, FileOf(h.files, id).(entries := entries), f)
  }

  ghost function SetEnabled(h: Host, users: Users, id: string, systemUser: string, enabled: bool, f: Faults): Outcome {
    if !ValidNames(id, systemUser) || f.read || !ValidEntries(FileOf(h.files, id).entries) then Outcome(h, false)
    else if id !in h.files then Outcome(h, true)
    else Save(h, users, id, h.files[id].(suspended := !enabled), f)
  }

  ghost function Delete(h: Host, users: Users, id: string, systemUser: string, f: Faults): Outcome {
    if !ValidNames(id, systemUser) || f.read || !ValidEntries(FileOf(h.files, id).entries) then Outcome(h, false)
    else if id !in h.files then Outcome(h, true)
    else
      var saved := Save(h, users, id, h.files[id].(suspended := true), f);
      if !saved.ok || f.remove then Outcome(saved.host, false)
      else Outcome(saved.host.(files := saved.host.files - {id}), true)
  }

  /** Which steps of one account-home call fail; `layout` fails after the mode was already set. */
  datatype HomeFaults = HomeFaults(identity: bool, mode: bool, layout: bool)

  ghost function HomeDisable(h: Host, users: Users, id: string, systemUser: string, m: HomeFaults): Outcome {
    if !ValidNames(id, systemUser) || !HasIdentity(users, id) || m.identity || m.mode then Outcome(h, false)
    else Outcome(h.(open := h.open - {id}), true)
  }

  ghost function HomeEnable(h: Host, users: Users, id: string, systemUser: string, m: HomeFaults): Outcome {
    if !ValidNames(id, systemUser) || !HasIdentity(users, id) || m.identity || m.mode then Outcome(h, false)
    else Outcome(h.(open := h.open + {id}), !m.layout)
  }

  /** The faults of one account-manager call: its two parts, then the two compensating calls. */
  datatype ManagerFaults = ManagerFaults(home: HomeFaults, ftp: Faults, undoFtp: Faults, undoHome: HomeFaults)

  ghost function Disable(h: Host, users: Users, id: string, systemUser: string, m: ManagerFaults): Outcome {
    var home := HomeDisable(h, users, id, systemUser, m.home);
    var ftp := SetEnabled(home.host, users, id, systemUser, false, m.ftp);
    Outcome(ftp.host, home.ok && ftp.ok)
  }

  ghost function Enable(h: Host, users: Users, id: string, systemUser: string, m: ManagerFaults): Outcome {
    var home := HomeEnable(h, users, id, systemUser, m.home);
    if !home.ok then home
    else
      var ftp := SetEnabled(home.host, users, id, systemUser, true, m.ftp);
      if ftp.ok then ftp
      else
        var undoFtp := SetEnabled(ftp.host, users, id, systemUser, false, m.undoFtp);
        var undoHome := HomeDisable(undoFtp.host, users, id, systemUser, m.undoHome);
        Outcome(undoHome.host, false)
  }

  /** One call an agent serves. */
  datatype Call =
    | SyncCall(id: string, systemUser: string, entries: seq<Entry>, faults: Faults)
    | DeleteCall(id: string, systemUser: string, faults: Faults)
    | DisableCall(id: string, systemUser: string, mfaults: ManagerFaults)
    | EnableCall(id: string, systemUser: string, mfaults: ManagerFaults)

  ghost function Apply(h: Host, users: Users, c: Call): Outcome {
    match c
    case SyncCall(id, user, entries, f) => Sync(h, users, id, user, entries, f)
    case DeleteCall(id, user, f) => Delete(h, users, id, user, f)
    case DisableCall(id, user, m) => Disable(h, users, id, user, m)
    case EnableCall(id, user, m) => Enable(h, users, id, user, m)
  }

  ghost function Run(h: Host, users: Users, calls: seq<Call>): Host
    decreases |calls|
  {
    if calls == [] then h else Run(Apply(h, users, calls[0]).host, users, calls[1..])
  }

  // ---- The compiled database follows the files ----

  lemma SaveKeepsConsistent(h: Host, users: Users, id: string, file: AccountFile, f: Faults)
    requires Consistent(h, users)
    ensures Consistent(Save(h, users, id, file, f).host, users)
  {
  }

  lemma RemoveKeepsBuildable(files: Files, users: Users, id: string)
    requires Buildable(files, users)
    ensures Buildable(files - {id}, users)
  {
    var rest := files - {id};
    forall a, b, x, y | Holds(rest, a, x) && Holds(rest, b, y) && x.username == y.username
      ensures a == b && x == y
    {
      assert Holds(files, a, x) && Holds(files, b, y);
    }
  }

  lemma RemoveSuspendedLogins(files: Files, users: Users, id: string)
    requires id in files && files[id].suspended
    ensures Logins(files - {id}, users) == Logins(files, users)
  {
    var rest := files - {id};
    forall l | l in Logins(files, users) ensures l in Logins(rest, users) {
      var a :| a in files && l in FileLogins(users, a, files[a]);
      assert a in rest && rest[a] == files[a];
    }
  }

  lemma DeleteKeepsConsistent(h: Host, users: Users, id: string, systemUser: string, f: Faults)
    requires Consistent(h, users)
    ensures Consistent(Delete(h, users, id, systemUser, f).host, users)
  {
    if id in h.files {
      var saved := Save(h, users, id, h.files[id].(suspended := true), f).host;
      SaveKeepsConsistent(h, users, id, h.files[id].(suspended := true), f);
      RemoveKeepsBuildable(saved.files, users, id);
      if saved.files[id].suspended {
        RemoveSuspendedLogins(saved.files, users, id);
      }
    }
  }

  lemma SetEnabledKeepsConsistent(h: Host, users: Users, id: string, systemUser: string, enabled: bool, f: Faults)
    requires Consistent(h, users)
    ensures Consistent(SetEnabled(h, users, id, systemUser, enabled, f).host, users)
  {
    if id in h.files {
      SaveKeepsConsistent(h, users, id, h.files[id].(suspended := !enabled), f);
    }
  }

  lemma ApplyKeepsConsistent(h: Host, users: Users, c: Call)
    requires Consistent(h, users)
    ensures Consistent(Apply(h, users, c).host, users)
  {
    match c
    case SyncCall(id, user, entries, f) =>
      SaveKeepsConsistent(h, users, id, FileOf(h.files, id).(entries := entries), f);
    case DeleteCall(id, user, f) =>
      DeleteKeepsConsistent(h, users, id, user, f);
    case DisableCall(id, user, m) =>
      SetEnabledKeepsConsistent(HomeDisable(h, users, id, user, m.home).host, users, id, user, false, m.ftp);
    case EnableCall(id, user, m) =>
      var home := HomeEnable(h, users, id, user, m.home).host;
      SetEnabledKeepsConsistent(home, users, id, user, true, m.ftp);
      var ftp := SetEnabled(home, users, id, user, true, m.ftp).host;
      SetEnabledKeepsConsistent(ftp, users, id, user, false, m.undoFtp);
  }

  /** Whatever fails in whatever calls, the compiled database is the function of all account files. */
  lemma {:induction false} RunKeepsConsistent(h: Host, users: Users, calls: seq<Call>)
    requires Consistent(h, users)
    ensures Consistent(Run(h, users, calls), users)
    decreases |calls|
  {
    if calls == [] {
    } else {
      ApplyKeepsConsistent(h, users, calls[0]);
      RunKeepsConsistent(Apply(h, users, calls[0]).host, users, calls[1..]);
    }
  }

  lemma GrantedBy(h: Host, users: Users, l: Login) returns (a: string, x: Entry)
    requires Consistent(h, users) && l in h.logins
    ensures Holds(h.files, a, x) && HasIdentity(users, a) && l == LoginOf(users, a, x)
  {
    a :| a in h.files && l in FileLogins(users, a, h.files[a]);
    x :| x in h.files[a].entries && l == LoginOf(users, a, x);
  }

  /** A compiled database never holds two logins of one username. */
  lemma LoginsAreAFunction(h: Host, users: Users, k: Login, l: Login)
    requires Consistent(h, users)
    requires k in h.logins && l in h.logins && k.username == l.username
    ensures k == l
  {
    var a, x := GrantedBy(h, users, k);
    var b, y := GrantedBy(h, users, l);
  }

  /** The logins jailed in a home are exactly those its own account file grants. */
  lemma AccountLoginsFromFile(h: Host, users: Users, id: string)
    requires Consistent(h, users) && ValidId(id) && HasIdentity(users, id)
    ensures AccountLogins(h, id) == FileLogins(users, id, FileOf(h.files, id))
  {
    forall l | l in AccountLogins(h, id) ensures l in FileLogins(users, id, FileOf(h.files, id)) {
      var a :| a in h.files && l in FileLogins(users, a, h.files[a]);
      assert HomeOf(a) == HomeOf(id);
      SameHomeSameUser(a, id);
    }
  }

  lemma SameHomeSameUser(a: string, b: string)
    requires ValidId(a) && ValidId(b) && HomeOf(a) == HomeOf(b)
    ensures SystemUser(a) == SystemUser(b)
  {
    assert HomeOf(a)[6..] == SystemUser(a) && HomeOf(b)[6..] == SystemUser(b);
  }

  /** The file and the home of another account are as they were. */
  ghost predicate SameAt(h: Host, after: Host, other: string) {
    && (other in after.files <==> other in h.files)
    && (other in h.files ==> after.files[other] == h.files[other])
    && (other in after.open <==> other in h.open)
  }

  lemma SetEnabledElsewhere(h: Host, users: Users, id: string, user: string, enabled: bool, f: Faults, other: string)
    requires other != id
    ensures SameAt(h, SetEnabled(h, users, id, user, enabled, f).host, other)
  {
  }

  lemma EnableElsewhere(h: Host, users: Users, id: string, user: string, m: ManagerFaults, other: string)
    requires other != id
    ensures SameAt(h, Enable(h, users, id, user, m).host, other)
  {
    var home := HomeEnable(h, users, id, user, m.home).host;
    SetEnabledElsewhere(home, users, id, user, true, m.ftp, other);
    SetEnabledElsewhere(SetEnabled(home, users, id, user, true, m.ftp).host, users, id, user, false, m.undoFtp, other);
  }

  /** A call about one account leaves every other account's file alone. */
  lemma OtherFilesUntouched(h: Host, users: Users, c: Call, other: string)
    requires other != c.id
    ensures SameAt(h, Apply(h, users, c).host, other)
  {
    match c
    case SyncCall(id, user, entries, f) =>
    case DeleteCall(id, user, f) =>
    case DisableCall(id, user, m) =>
      SetEnabledElsewhere(HomeDisable(h, users, id, user, m.home).host, users, id, user, false, m.ftp, other);
    case EnableCall(id, user, m) => EnableElsewhere(h, users, id, user, m, other);
  }

  /** A Sync that succeeds has installed exactly the entries it was given; one that fails installed them or nothing. */
  lemma SyncInstalls(h: Host, users: Users, id: string, systemUser: string, entries: seq<Entry>, f: Faults)
    ensures var r := Sync(h, users, id, systemUser, entries, f);
      && (r.ok ==> id in r.host.files && r.host.files[id].entries == entries && HasIdentity(users, id))
      && (!r.ok ==> r.host == h || (id in r.host.files && r.host.files[id].entries == entries))
      && (id in r.host.files ==> r.host.files[id].suspended == FileOf(h.files, id).suspended)
  {
  }

  // ---- Suspension ----

  /** An account nobody can log in to: its file is suspended, or it has none and its home is closed. */
  predicate Barred(h: Host, id: string) {
    if id in h.files then h.files[id].suspended else id !in h.open
  }

  lemma BarredHasNoLogin(h: Host, users: Users, id: string)
    requires Consistent(h, users) && HasIdentity(users, id) && Barred(h, id)
    ensures AccountLogins(h, id) == {}
  {
    AccountLoginsFromFile(h, users, id);
  }

  /** A Disable that reports success leaves the account barred, with or without FTP state. */
  lemma DisableBars(h: Host, users: Users, id: string, systemUser: string, m: ManagerFaults)
    requires Disable(h, users, id, systemUser, m).ok
    ensures HasIdentity(users, id)
    ensures Barred(Disable(h, users, id, systemUser, m).host, id)
  {
  }

  /** Calls that cannot lift a suspension: any call about another account, and Sync or Disable. */
  predicate KeepsBar(c: Call, id: string) {
    c.id != id || c.SyncCall? || c.DisableCall?
  }

  lemma ApplyKeepsBar(h: Host, users: Users, c: Call, id: string)
    requires Barred(h, id) && KeepsBar(c, id)
    ensures Barred(Apply(h, users, c).host, id)
  {
    if c.id != id {
      OtherFilesUntouched(h, users, c, id);
    } else if c.SyncCall? {
      SyncInstalls(h, users, id, c.systemUser, c.entries, c.faults);
    }
  }

  /** After a successful Disable no login of the account exists through any such calls, whatever fails in them. */
  lemma {:induction false} SuspensionHolds(h: Host, users: Users, id: string, calls: seq<Call>)
    requires Consistent(h, users) && HasIdentity(users, id) && Barred(h, id)
    requires forall i :: 0 <= i < |calls| ==> KeepsBar(calls[i], id)
    ensures Barred(Run(h, users, calls), id)
    ensures AccountLogins(Run(h, users, calls), id) == {}
    decreases |calls|
  {
    if calls == [] {
      BarredHasNoLogin(h, users, id);
    } else {
      ApplyKeepsBar(h, users, calls[0], id);
      ApplyKeepsConsistent(h, users, calls[0]);
      SuspensionHolds(Apply(h, users, calls[0]).host, users, id, calls[1..]);
    }
  }

  /** The home mode was restored by an Enable whose layout step then failed; nothing compensates this. */
  ghost predicate HomeReopened(h: Host, users: Users, id: string, systemUser: string, m: HomeFaults) {
    var home := HomeEnable(h, users, id, systemUser, m);
    !home.ok && id in home.host.open
  }

  /** The compensating calls of a failed Enable, when it makes them, succeed. */
  ghost predicate Compensated(h: Host, users: Users, id: string, systemUser: string, m: ManagerFaults) {
    var home := HomeEnable(h, users, id, systemUser, m.home);
    home.ok ==>
      var ftp := SetEnabled(home.host, users, id, systemUser, true, m.ftp);
      var undo := SetEnabled(ftp.host, users, id, systemUser, false, m.undoFtp);
      undo.ok && HomeDisable(undo.host, users, id, systemUser, m.undoHome).ok
  }

  /** A failed Enable keeps the bar exactly when the account has an FTP file or its home was not reopened. */
  lemma FailedEnable(h: Host, users: Users, id: string, systemUser: string, m: ManagerFaults)
    requires Barred(h, id)
    requires !Enable(h, users, id, systemUser, m).ok && Compensated(h, users, id, systemUser, m)
    ensures Barred(Enable(h, users, id, systemUser, m).host, id)
      <==> id in h.files || !HomeReopened(h, users, id, systemUser, m.home)
  {
  }

  /** The failing family: no FTP file, home reopened by a failed Enable, and the next Sync grants its logins. */
  lemma ReopenedHomeAdmitsLogins(h: Host, users: Users, id: string, m: ManagerFaults, entries: seq<Entry>, f: Faults)
    requires Consistent(h, users) && HasIdentity(users, id)
    requires id !in h.files && Barred(h, id)
    requires HomeReopened(h, users, id, SystemUser(id), m.home)
    requires Buildable(h.files[id := AccountFile(false, entries)], users)
    requires f == Faults(false, false, false, false, false, false, false)
    ensures var failed := Enable(h, users, id, SystemUser(id), m);
      && !failed.ok
      && var synced := Sync(failed.host, users, id, SystemUser(id), entries, f);
      && synced.ok
      && AccountLogins(synced.host, id) == set e | e in entries && e.enabled :: LoginOf(users, id, e)
  {
    var failed := Enable(h, users, id, SystemUser(id), m);
    assert id in failed.host.open && failed.host.files == h.files && failed.host.logins == h.logins;
    assert h.files[id := AccountFile(false, entries)][id] == AccountFile(false, entries);
    var synced := Sync(failed.host, users, id, SystemUser(id), entries, f);
    assert synced == Save(failed.host, users, id, AccountFile(false, entries), f);
    SaveKeepsConsistent(failed.host, users, id, AccountFile(false, entries), f);
    AccountLoginsFromFile(synced.host, users, id);
  }

  function WithSuspended(files: Files, id: string, suspended: bool): Files {
    if id in files then files[id := files[id].(suspended := suspended)] else files
  }

  lemma DisableFiles(h: Host, users: Users, id: string, user: string, m: ManagerFaults)
    requires Disable(h, users, id, user, m).ok
    ensures Disable(h, users, id, user, m).host.files == WithSuspended(h.files, id, true)
  {
  }

  lemma EnableFiles(h: Host, users: Users, id: string, user: string, m: ManagerFaults)
    requires Enable(h, users, id, user, m).ok
    ensures Enable(h, users, id, user, m).host.files == WithSuspended(h.files, id, false)
    ensures id in Enable(h, users, id, user, m).host.open
  {
  }

  /** Disable and then Enable of an account that was not suspended gives back the same files and the same logins. */
  lemma DisableThenEnable(h: Host, users: Users, id: string, user: string, m: ManagerFaults, n: ManagerFaults)
    requires Consistent(h, users)
    requires !FileOf(h.files, id).suspended
    requires Disable(h, users, id, user, m).ok
    requires Enable(Disable(h, users, id, user, m).host, users, id, user, n).ok
    ensures var after := Enable(Disable(h, users, id, user, m).host, users, id, user, n).host;
      after.files == h.files && after.logins == h.logins && id in after.open
  {
    var disabled := Disable(h, users, id, user, m).host;
    DisableFiles(h, users, id, user, m);
    EnableFiles(disabled, users, id, user, n);
    assert WithSuspended(WithSuspended(h.files, id, true), id, false) == h.files;
    ApplyKeepsConsistent(h, users, DisableCall(id, user, m));
    ApplyKeepsConsistent(disabled, users, EnableCall(id, user, n));
  }
}
