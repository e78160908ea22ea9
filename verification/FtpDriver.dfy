/** The Pure-FTPd driver and the account manager above it, as objects that rewrite the node's files. */
module FtpDriver {
  import opened Options
  import opened FtpLine
  import opened FtpHost
  import Order
  import PasswordHash

  function EntryNames(entries: seq<Entry>): set<string> {
    set e | e in entries :: e.username
  }

  ghost function NamesOf(files: Files): set<string> {
    set id, e | id in files && e in files[id].entries :: e.username
  }

  function EntryIds(entries: seq<Entry>): set<string> {
    set e | e in entries :: e.id
  }

  lemma ExtendValid(prefix: seq<Entry>, e: Entry)
    requires ValidEntries(prefix) && |prefix| < 100
    requires ValidEntry(e) && e.id !in EntryIds(prefix) && e.username !in EntryNames(prefix)
    ensures ValidEntries(prefix + [e])
  {
    var grown := prefix + [e];
    forall i | 0 <= i < |grown| ensures ValidEntry(grown[i]) {
      assert i < |prefix| ==> grown[i] == prefix[i];
    }
    forall i, j | 0 <= i < j < |grown| ensures grown[i].id != grown[j].id && grown[i].username != grown[j].username {
      assert grown[i] == prefix[i] && prefix[i].id in EntryIds(prefix) && prefix[i].username in EntryNames(prefix);
      assert j < |prefix| ==> grown[j] == prefix[j];
    }
  }

  lemma RepeatedInvalid(entries: seq<Entry>, i: nat)
    requires i < |entries|
    requires !ValidEntry(entries[i]) || entries[i].id in EntryIds(entries[..i]) || entries[i].username in EntryNames(entries[..i])
    ensures !ValidEntries(entries)
  {
    if entries[i].id in EntryIds(entries[..i]) {
      var e :| e in entries[..i] && e.id == entries[i].id;
      var k :| 0 <= k < i && entries[k] == e;
    } else if entries[i].username in EntryNames(entries[..i]) {
      var e :| e in entries[..i] && e.username == entries[i].username;
      var k :| 0 <= k < i && entries[k] == e;
    }
  }

  /** The ids and names the loop of the entry check has seen. */
  predicate SeenUpTo(entries: seq<Entry>, i: nat, ids: set<string>, names: set<string>)
    requires i <= |entries|
  {
    ids == EntryIds(entries[..i]) && names == EntryNames(entries[..i])
  }

  lemma SeeOne(entries: seq<Entry>, i: nat, ids: set<string>, names: set<string>)
    requires i < |entries| && SeenUpTo(entries, i, ids, names)
    ensures SeenUpTo(entries, i + 1, ids + {entries[i].id}, names + {entries[i].username})
  {
    assert entries[..i + 1] == entries[..i] + [entries[i]];
  }

  lemma ExtendNext(entries: seq<Entry>, i: nat, next: seq<Entry>)
    requires i < |entries| <= 100 && ValidEntries(entries[..i]) && next == entries[..i] + [entries[i]]
    requires ValidEntry(entries[i]) && entries[i].id !in EntryIds(entries[..i]) && entries[i].username !in EntryNames(entries[..i])
    ensures ValidEntries(next)
  {
    ExtendValid(entries[..i], entries[i]);
  }

  /** The entry check of the driver: bounded, well formed, and unique in id and in username. */
  method CheckEntries(list: Option<seq<Entry>>) returns (ok: bool)
    ensures ok <==> list.Some? && ValidEntries(list.value)
  {
    if list.None? || |list.value| > 100 {
      return false;
    }
    var entries := list.value;
    var ids: set<string>, names: set<string> := {}, {};
    for i := 0 to |entries|
      invariant SeenUpTo(entries, i, ids, names) && ValidEntries(entries[..i])
    {
      var entry := entries[i];
      if !ValidEntry(entry) || entry.id in ids || entry.username in names {
        RepeatedInvalid(entries, i);
        return false;
      }
      assert entries[..i + 1] == entries[..i] + [entry];
      ExtendNext(entries, i, entries[..i + 1]);
      SeeOne(entries, i, ids, names);
      ids, names := ids + {entry.id}, names + {entry.username};
    }
    assert entries[..|entries|] == entries;
    return true;
  }

  // ---- Growing the scanned part of the directory by one file ----

  lemma AddFileUnique(part: Files, id: string, file: AccountFile)
    requires UniqueNames(part) && id !in part && EntryNames(file.entries) !! NamesOf(part)
    requires forall x, y :: x in file.entries && y in file.entries && x.username == y.username ==> x == y
    ensures UniqueNames(part[id := file])
  {
    var grown := part[id := file];
    forall a, b, x, y | Holds(grown, a, x) && Holds(grown, b, y) && x.username == y.username
      ensures a == b && x == y
    {
      if a != id {
        assert Holds(part, a, x);
        assert x.username in NamesOf(part);
      }
      if b != id {
        assert Holds(part, b, y);
        assert y.username in NamesOf(part);
      }
      assert a == id ==> x.username in EntryNames(file.entries);
      assert b == id ==> y.username in EntryNames(file.entries);
    }
  }

  lemma DistinctNames(entries: seq<Entry>, x: Entry, y: Entry)
    requires ValidEntries(entries) && x in entries && y in entries && x.username == y.username
    ensures x == y
  {
    var i :| 0 <= i < |entries| && entries[i] == x;
    var j :| 0 <= j < |entries| && entries[j] == y;
  }

  lemma AddFileBuildable(part: Files, users: Users, id: string, file: AccountFile)
    requires Buildable(part, users) && id !in part
    requires ValidId(id) && ValidEntries(file.entries)
    requires EntryNames(file.entries) !! NamesOf(part)
    requires Active(file) ==> HasIdentity(users, id)
    ensures Buildable(part[id := file], users)
  {
    forall x, y | x in file.entries && y in file.entries && x.username == y.username ensures x == y {
      DistinctNames(file.entries, x, y);
    }
    AddFileUnique(part, id, file);
  }

  lemma AddFileNames(part: Files, id: string, file: AccountFile)
    requires id !in part
    ensures NamesOf(part[id := file]) == NamesOf(part) + EntryNames(file.entries)
  {
    var grown := part[id := file];
    forall n | n in NamesOf(part) ensures n in NamesOf(grown) {
      var a, e :| a in part && e in part[a].entries && e.username == n;
      assert grown[a] == part[a];
    }
    forall n | n in EntryNames(file.entries) ensures n in NamesOf(grown) {
      var e :| e in file.entries && e.username == n;
      assert grown[id] == file;
    }
    forall n | n in NamesOf(grown) ensures n in NamesOf(part) + EntryNames(file.entries) {
      var a, e :| a in grown && e in grown[a].entries && e.username == n;
      assert a != id ==> a in part && part[a] == grown[a];
    }
  }

  lemma AddFileLogins(part: Files, users: Users, id: string, file: AccountFile)
    requires id !in part
    ensures Logins(part[id := file], users) == Logins(part, users) + FileLogins(users, id, file)
  {
    var grown := part[id := file];
    forall l | l in Logins(part, users) ensures l in Logins(grown, users) {
      var a :| a in part && l in FileLogins(users, a, part[a]);
      assert a in grown && grown[a] == part[a];
    }
    forall l | l in FileLogins(users, id, file) ensures l in Logins(grown, users) {
      assert grown[id] == file;
    }
    forall l | l in Logins(grown, users) ensures l in Logins(part, users) + FileLogins(users, id, file) {
      var a :| a in grown && l in FileLogins(users, a, grown[a]);
      assert a != id ==> a in part && part[a] == grown[a];
    }
  }

  /** A repeated username in the scanned part and the next file means the directory is not buildable. */
  lemma ClashNotUnique(files: Files, part: Files, id: string, n: string)
    requires id in files && id !in part
    requires forall a :: a in part ==> a in files && part[a] == files[a]
    requires n in EntryNames(files[id].entries) && n in NamesOf(part)
    ensures !UniqueNames(files)
  {
    var x :| x in files[id].entries && x.username == n;
    var a, y :| a in part && y in part[a].entries && y.username == n;
    assert Holds(files, id, x) && Holds(files, a, y);
  }

  lemma LoginIsPrintable(users: Users, id: string, e: Entry)
    requires HasIdentity(users, id) && ValidEntry(e)
    ensures Printable(LoginOf(users, id, e))
  {
    PasswordHash.AcceptedIsSafeText(e.hash);
    assert SafeText(e.username) && SafeText(e.id);
    assert SafeText(id[..12]);
    assert SafeText("/home/") && SafeText("wcp_");
  }

  /** The part of a login set that comes from the first entries of one file. */
  function SomeLogins(users: Users, id: string, entries: seq<Entry>): set<Login>
    requires HasIdentity(users, id)
  {
    set e | e in entries && e.enabled :: LoginOf(users, id, e)
  }

  lemma SomeLoginsStep(users: Users, id: string, entries: seq<Entry>, i: nat)
    requires HasIdentity(users, id) && i < |entries|
    ensures SomeLogins(users, id, entries[..i + 1])
         == SomeLogins(users, id, entries[..i]) + (if entries[i].enabled then {LoginOf(users, id, entries[i])} else {})
  {
    assert entries[..i + 1] == entries[..i] + [entries[i]];
  }

  class Driver {
    const users: Users
    var files: Files
    var database: Option<string>
    var open: set<string>

    constructor (users: Users)
      ensures this.users == users && View() == Host(map[], {}, {})
      ensures Consistent(View(), users)
    {
      this.users := users;
      files, database, open := map[], None, {};
    }

    /** What the node's files mean: the compiled text is read back line by line. */
    ghost function View(): Host
      reads this
    {
      Host(files, if database.None? then {} else DecodeText(database.value), open)
    }

    /** Names of one file join the names seen so far unless one repeats. */
    method ScanNames(entries: seq<Entry>, seen: set<string>) returns (ok: bool, names: set<string>)
      requires ValidEntries(entries)
      ensures ok <==> EntryNames(entries) !! seen
      ensures ok ==> names == seen + EntryNames(entries)
    {
      names := seen;
      for i := 0 to |entries|
        invariant names == seen + EntryNames(entries[..i])
        invariant EntryNames(entries[..i]) !! seen
      {
        assert entries[i].username in EntryNames(entries);
        assert entries[i].username !in EntryNames(entries[..i]);
        if entries[i].username in names {
          return false, names;
        }
        names := names + {entries[i].username};
        assert entries[..i + 1] == entries[..i] + [entries[i]];
      }
      assert entries[..|entries|] == entries;
      return true, names;
    }

    /** One line per enabled entry is appended. */
    method AppendLines(id: string, entries: seq<Entry>, before: seq<string>, ghost logins: set<Login>)
      returns (lines: seq<string>)
      requires HasIdentity(users, id) && ValidEntries(entries)
      requires LinesOf(before, logins)
      ensures LinesOf(lines, logins + SomeLogins(users, id, entries))
    {
      lines := before;
      for i := 0 to |entries|
        invariant LinesOf(lines, logins + SomeLogins(users, id, entries[..i]))
      {
        AppendStep(id, entries, i, lines, logins);
        lines := lines + EntryLines(id, entries[i]);
      }
      assert entries[..|entries|] == entries;
    }

    function EntryLines(id: string, e: Entry): seq<string>
      requires HasIdentity(users, id)
    {
      if e.enabled then [Line(LoginOf(users, id, e))] else []
    }

    lemma AppendStep(id: string, entries: seq<Entry>, i: nat, lines: seq<string>, logins: set<Login>)
      requires HasIdentity(users, id) && i < |entries| && ValidEntry(entries[i])
      requires LinesOf(lines, logins + SomeLogins(users, id, entries[..i]))
      ensures LinesOf(lines + EntryLines(id, entries[i]), logins + SomeLogins(users, id, entries[..i + 1]))
    {
      SomeLoginsStep(users, id, entries, i);
      var was := logins + SomeLogins(users, id, entries[..i]);
      if entries[i].enabled {
        assert logins + SomeLogins(users, id, entries[..i + 1]) == was + {LoginOf(users, id, entries[i])};
        AppendEnabled(id, entries[i], lines, was);
      } else {
        assert logins + SomeLogins(users, id, entries[..i + 1]) == was;
        assert lines + [] == lines;
      }
    }

    lemma AppendEnabled(id: string, e: Entry, lines: seq<string>, logins: set<Login>)
      requires HasIdentity(users, id) && ValidEntry(e) && LinesOf(lines, logins)
      ensures LinesOf(lines + [Line(LoginOf(users, id, e))], logins + {LoginOf(users, id, e)})
    {
      LoginIsPrintable(users, id, e);
      LinesGrow(lines, logins, LoginOf(users, id, e));
    }

    lemma LinesGrow(lines: seq<string>, logins: set<Login>, l: Login)
      requires LinesOf(lines, logins) && Printable(l)
      ensures LinesOf(lines + [Line(l)], logins + {l})
    {
      var grown := lines + [Line(l)];
      forall line | line in grown ensures exists k :: k in logins + {l} && line == Line(k) {
        if line in lines {
          var k :| k in logins && line == Line(k);
          assert k in logins + {l};
        } else {
          assert l in logins + {l};
        }
      }
      forall k | k in logins + {l} ensures Line(k) in grown {
        if k == l {
          assert grown[|lines|] == Line(l);
        } else {
          assert Line(k) in lines;
        }
      }
    }

    /** Compile the login database from every account file, read in any order. */
    method Rebuild(fault: bool) returns (ok: bool)
      modifies this`database
      ensures ok <==> !fault && Buildable(files, users)
      ensures ok ==> database.Some? && DecodeText(database.value) == Logins(files, users)
      ensures !ok ==> database == old(database)
    {
      var names: set<string> := {};
      var lines: seq<string> := [];
      var rest := files.Keys;
      ghost var part: Files := map[];
      while rest != {}
        invariant rest <= files.Keys && part.Keys == files.Keys - rest
        invariant forall a :: a in part ==> part[a] == files[a]
        invariant Buildable(part, users)
        invariant names == NamesOf(part)
        invariant LinesOf(lines, Logins(part, users))
        invariant database == old(database)
        decreases rest
      {
        var id :| id in rest;
        var file := files[id];
        if !ValidId(id) {
          return false;
        }
        var valid := CheckEntries(Some(file.entries));
        if !valid {
          return false;
        }
        var unused, seen := ScanNames(file.entries, names);
        if !unused {
          ghost var n :| n in EntryNames(file.entries) && n in NamesOf(part);
          ClashNotUnique(files, part, id, n);
          return false;
        }
        AddFileNames(part, id, file);
        AddFileLogins(part, users, id, file);
        names := seen;
        if file.suspended || |file.entries| == 0 {
          assert FileLogins(users, id, file) == {};
        } else {
          if !HasIdentity(users, id) {
            assert Active(files[id]);
            return false;
          }
          lines := AppendLines(id, file.entries, lines, Logins(part, users));
          assert FileLogins(users, id, file) == SomeLogins(users, id, file.entries);
        }
        AddFileBuildable(part, users, id, file);
        part := part[id := file];
        rest := rest - {id};
      }
      assert part == files;
      var sorted := Order.Sort(lines);
      SortKeepsLines(lines, sorted, Logins(files, users));
      DecodePrintedText(sorted, Logins(files, users));
      if fault {
        return false;
      }
      database := Some(DatabaseText(sorted));
      return true;
    }

    lemma SortKeepsLines(lines: seq<string>, sorted: seq<string>, logins: set<Login>)
      requires LinesOf(lines, logins) && multiset(sorted) == multiset(lines)
      ensures LinesOf(sorted, logins)
    {
      forall line ensures line in sorted <==> line in lines {
        assert line in sorted <==> line in multiset(sorted);
        assert line in lines <==> line in multiset(lines);
      }
    }

    /** Write, rebuild, disconnect; a failed rebuild puts the previous file back. */
    method SaveFile(id: string, file: AccountFile, f: Faults) returns (ok: bool)
      modifies this`files, this`database
      ensures Outcome(View(), ok) == Save(old(View()), users, id, file, f)
    {
      var existed := id in files;
      var previous := if existed then files[id] else file;
      if f.write {
        return false;
      }
      ghost var before := files;
      files := files[id := file];
      var built := Rebuild(f.build);
      if !built {
        files := if existed then files[id := previous] else files - {id};
        assert files == before;
        return false;
      }
      if !HasIdentity(users, id) || f.session {
        return false;
      }
      return !f.disconnect;
    }

    method SyncEntries(id: string, systemUser: string, list: Option<seq<Entry>>, f: Faults) returns (ok: bool)
      modifies this`files, this`database
      ensures list.Some? ==> Outcome(View(), ok) == Sync(old(View()), users, id, systemUser, list.value, f)
      ensures list.None? ==> !ok && View() == old(View())
    {
      if !ValidNames(id, systemUser) || !HasIdentity(users, id) || f.identity {
        return false;
      }
      var valid := CheckEntries(list);
      if !valid || f.read {
        return false;
      }
      var current := FileOf(files, id);
      var intact := CheckEntries(Some(current.entries));
      if !intact {
        return false;
      }
      if id !in open && !current.suspended {
        return false;
      }
      ok := SaveFile(id, current.(entries := list.value), f);
    }

    method SetAccountEnabled(id: string, systemUser: string, enabled: bool, f: Faults) returns (ok: bool)
      modifies this`files, this`database
      ensures Outcome(View(), ok) == SetEnabled(old(View()), users, id, systemUser, enabled, f)
    {
      if !ValidNames(id, systemUser) || f.read {
        return false;
      }
      var current := FileOf(files, id);
      var intact := CheckEntries(Some(current.entries));
      if !intact {
        return false;
      }
      if id !in files {
        return true;
      }
      ok := SaveFile(id, current.(suspended := !enabled), f);
    }

    method DeleteAccount(id: string, systemUser: string, f: Faults) returns (ok: bool)
      modifies this`files, this`database
      ensures Outcome(View(), ok) == Delete(old(View()), users, id, systemUser, f)
    {
      if !ValidNames(id, systemUser) || f.read {
        return false;
      }
      var current := FileOf(files, id);
      var intact := CheckEntries(Some(current.entries));
      if !intact {
        return false;
      }
      if id !in files {
        return true;
      }
      ok := SaveFile(id, current.(suspended := true), f);
      if !ok || f.remove {
        return false;
      }
      files := files - {id};
      return true;
    }

    method SetHome(id: string, systemUser: string, enable: bool, m: HomeFaults) returns (ok: bool)
      modifies this`open
      ensures Outcome(View(), ok) == (if enable then HomeEnable(old(View()), users, id, systemUser, m)
                                      else HomeDisable(old(View()), users, id, systemUser, m))
    {
      if !ValidNames(id, systemUser) || !HasIdentity(users, id) || m.identity || m.mode {
        return false;
      }
      if enable {
        open := open + {id};
        return !m.layout;
      }
      open := open - {id};
      return true;
    }
  }

  /** The account manager: a home mode change and an FTP change, with compensation on a failed enable. */
  class Manager {
    const driver: Driver

    constructor (driver: Driver)
      ensures this.driver == driver
    {
      this.driver := driver;
    }

    method DisableAccount(id: string, systemUser: string, m: ManagerFaults) returns (ok: bool)
      modifies driver
      ensures Outcome(driver.View(), ok) == Disable(old(driver.View()), driver.users, id, systemUser, m)
    {
      var home := driver.SetHome(id, systemUser, false, m.home);
      var ftp := driver.SetAccountEnabled(id, systemUser, false, m.ftp);
      return home && ftp;
    }

    method EnableAccount(id: string, systemUser: string, m: ManagerFaults) returns (ok: bool)
      modifies driver
      ensures Outcome(driver.View(), ok) == Enable(old(driver.View()), driver.users, id, systemUser, m)
    {
      var home := driver.SetHome(id, systemUser, true, m.home);
      if !home {
        return false;
      }
      var ftp := driver.SetAccountEnabled(id, systemUser, true, m.ftp);
      if ftp {
        return true;
      }
      var undoFtp := driver.SetAccountEnabled(id, systemUser, false, m.undoFtp);
      var undoHome := driver.SetHome(id, systemUser, false, m.undoHome);
      return false;
    }
  }
}
