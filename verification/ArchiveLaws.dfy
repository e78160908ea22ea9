/** What an accepted archive is, what a written one holds, and what a restore leaves, member by member and bit by bit. */
module ArchiveLaws {
  import opened Options
  import opened Text
  import opened EntryPath
  import opened ArchiveFormat
  import opened ArchiveWriter
  import opened ArchiveRestore

  // ---- Acceptance ----

  /** Relative names that never climb, of regular files and directories, each once. */
  ghost predicate PlainMembers(es: seq<Entry>) {
    && (forall e :: e in es ==> e.kind == Regular || e.kind == Directory)
    && (forall e :: e in es ==> e.name == "." || forall part :: part in Split(e.name, '/') ==> part != "" && part != "." && part != "..")
    && (forall i, j :: 0 <= i < j < |es| ==> es[i].name != es[j].name)
  }

  /** The manifest of this account and of a valid run, in format 4, within 1 MiB. */
  ghost predicate Carries(c: Codec, es: seq<Entry>, account: string, m: Manifest) {
    && (exists e :: e in es && e.name == "manifest.json" && |Content(e)| <= 1048576 && c.decode(Content(e)) == Some(m))
    && m.version == 4 && m.accountId == account && c.validId(m.runId)
  }

  /** The scopes it names are those it holds; a home may be empty. */
  ghost predicate Scoped(es: seq<Entry>, m: Manifest) {
    && ((exists e :: e in es && |e.name| >= 6 && e.name[..6] == "files/") ==> m.files)
    && (m.databases <==> exists e :: e in es && |e.name| >= 10 && e.name[..10] == "databases/" && e.kind == Regular)
    && (m.metadata <==> exists e :: e in es && e.name == "metadata.json" && e.kind == Regular)
  }

  ghost predicate Listed(c: Codec, es: seq<Entry>, r: Record) {
    exists e :: e in es && e.kind == Regular && e.name != "manifest.json"
      && r.path == e.name && r.size == |e.data| && r.checksum == c.hash(e.data)
  }

  /** Every file but the manifest has its one record, with its size and hash, and there are no others. */
  ghost predicate Recorded(c: Codec, es: seq<Entry>, records: seq<Record>) {
    && (forall i, j :: 0 <= i < j < |records| ==> records[i].path != records[j].path)
    && (forall r :: r in records ==> Listed(c, es, r))
    && (forall e :: e in es && e.kind == Regular && e.name != "manifest.json" ==> Record(e.name, |e.data|, c.hash(e.data)) in records)
  }

  lemma AcceptedMeans(c: Codec, es: seq<Entry>, account: string, m: Manifest)
    ensures Accepts(c, es, account, m)
      <==> PlainMembers(es) && Carries(c, es, account, m) && Scoped(es, m) && Recorded(c, es, m.entries)
  {
    forall e | e in es
      ensures ValidEntryPath(e.name) <==> (e.name == "." || forall part :: part in Split(e.name, '/') ==> Plain(part))
    {
      ValidEntryPathExactly(e.name);
    }
    RecordedExactly(c, es, m.entries);
    ScopedExactly(es, m);
  }

  lemma RecordedExactly(c: Codec, es: seq<Entry>, records: seq<Record>)
    ensures Bijection(c, records, es) <==> Recorded(c, es, records)
  {
  }

  lemma ScopedExactly(es: seq<Entry>, m: Manifest)
    ensures ScopeMatches(es, m) <==> Scoped(es, m)
  {
    assert forall e :: IsFile(e) <==> |e.name| >= 6 && e.name[..6] == "files/";
    assert forall e :: IsDump(e) <==> |e.name| >= 10 && e.name[..10] == "databases/" && e.kind == Regular;
  }

  /** A member whose contents were changed is accepted only if its length and hash are the same. */
  lemma TamperedIsRefused(c: Codec, es: seq<Entry>, account: string, m: Manifest, i: nat, data: string, n: Manifest)
    requires Accepts(c, es, account, m) && i < |es| && es[i].kind == Regular && es[i].name != "manifest.json"
    requires Accepts(c, es[i := es[i].(data := data)], account, n)
    ensures |data| == |es[i].data| && c.hash(data) == c.hash(es[i].data) && n == m
  {
    var after := es[i := es[i].(data := data)];
    AcceptedMeans(c, es, account, m);
    AcceptedMeans(c, after, account, n);
    SameManifest(c, es, after, account, m, n, i);
    assert after[i] in after && es[i] in es;
    var r, q := Record(es[i].name, |es[i].data|, c.hash(es[i].data)), Record(es[i].name, |data|, c.hash(data));
    var j :| 0 <= j < |m.entries| && m.entries[j] == r;
    var k :| 0 <= k < |m.entries| && m.entries[k] == q;
    assert j < k || k < j || j == k;
  }

  lemma SameManifest(c: Codec, es: seq<Entry>, after: seq<Entry>, account: string, m: Manifest, n: Manifest, i: nat)
    requires PlainMembers(es) && Carries(c, es, account, m) && Carries(c, after, account, n)
    requires i < |es| == |after| && after == es[i := after[i]] && after[i].name == es[i].name != "manifest.json"
    ensures m == n
  {
    var d :| d in es && d.name == "manifest.json" && c.decode(Content(d)) == Some(m);
    var e :| e in after && e.name == "manifest.json" && c.decode(Content(e)) == Some(n);
    var k :| 0 <= k < |after| && after[k] == e;
    assert es[k] == e;
  }

  // ---- What is written ----

  predicate IsCopy(s: Source, e: Entry) {
    e.name == "files/" + Join(s.path, '/') && e.kind == s.kind && e.mode == s.mode && (s.kind == Regular ==> e.data == s.data)
  }

  /** The members in order: the home under files/, a dump per database, the metadata unless empty, the manifest last. */
  lemma WrittenMembers(c: Codec, req: Request, i: nat)
    ensures var home, es := if req.includeFiles then |req.tree| else 0, Written(c, req);
      var rest, last := home + |req.dumps|, |es| - 1;
      && |es| == rest + (if req.metadata == "" then 1 else 2)
      && (i < home ==> IsCopy(req.tree[i], es[i]))
      && (home <= i < rest ==>
            es[i] == Entry("databases/" + req.dumps[i - home].name + ".sql", Regular, 384, req.dumps[i - home].data))
      && (req.metadata != "" ==> es[rest] == Entry("metadata.json", Regular, 384, req.metadata))
      && es[last].name == "manifest.json" && es[last].kind == Regular && es[last].mode == 384
  {
  }

  /** What the accepted manifest of a written archive says. */
  lemma WrittenManifestSays(c: Codec, req: Request, m: Manifest)
    requires Lawful(c) && TreeOk(req.tree) && DumpsOk(req.dumps) && Writable(req) && c.validId(req.runId)
    requires Accepts(c, Written(c, req), req.accountId, m)
    ensures m.version == 4 && m.runId == req.runId && m.accountId == req.accountId && m.createdAt == req.createdAt
    ensures m.files == req.includeFiles && m.databases == (req.dumps != []) && m.metadata == (req.metadata != "")
  {
    AcceptedExactly(c, req, m);
  }

  /** An archive is read for the account it was written for and for no other. */
  lemma ForeignIsRefused(c: Codec, req: Request, account: string)
    requires Lawful(c) && TreeOk(req.tree) && DumpsOk(req.dumps) && Writable(req) && account != req.accountId
    ensures forall m :: !Accepts(c, Written(c, req), account, m)
  {
    forall m ensures !Accepts(c, Written(c, req), account, m) {
      AcceptedMeans(c, Written(c, req), account, m);
      WrittenManifest(c, req, m);
    }
  }

  /** Its restore into another account writes nothing. */
  method RestoreForeign(c: Codec, req: Request, agent: Agent, account: string, scope: Scope, fault: Option<nat>) returns (r: Outcome)
    requires Lawful(c) && TreeOk(req.tree) && DumpsOk(req.dumps) && Writable(req) && account != req.accountId
    modifies agent
    ensures r == Refused && agent.home == old(agent.home) && agent.inputs == old(agent.inputs)
  {
    var archive := WriteArchive(c, req);
    ForeignIsRefused(c, req, account);
    r := agent.Restore(c, archive.value.0, account, scope, true, fault);
  }

  // ---- What a restore leaves ----

  /** rwxrwx--- and the setgid bit of a directory, rw-rw---- of a file. */
  predicate Masked(kind: Kind, before: bv16, after: bv16) {
    after == before & (if kind == Directory then 0x5F8 else 0x1B0)
  }

  lemma Masks(mode: bv16)
    ensures Masked(Directory, mode, DirectoryMode(mode))
  {
  }

  /** A missing directory above a restored path is made by root, the others stay. */
  lemma {:induction false} MkdirLeaves(home: Home, path: Path, mode: bv16, p: Path)
    ensures var after := MkdirAll(home, path, mode);
      && (p in home ==> p in after && after[p] == home[p])
      && (p !in home ==> (p in after <==> exists k :: 0 < k <= |path| && p == path[..k]))
      && (p !in home && p in after ==> after[p] == Node(Directory, mode, "", Foreign))
  {
    if path == [] {
    } else {
      var n := |path| - 1;
      MkdirLeaves(home, path[..n], mode, p);
      assert forall k :: 0 < k <= n ==> path[..n][..k] == path[..k];
      assert path[..|path|] == path;
    }
  }

  predicate Under(relative: string, top: string) {
    relative == top || (|relative| > |top| && relative[..|top|] == top && relative[|top|] == '/')
  }

  lemma OwnerGiven(relative: string)
    ensures OwnerOf(relative) == if Under(relative, "web") then WebGroup else Account
  {
    assert "web/"[..3] == "web";
    if HasPrefix(relative, "web/") {
      assert relative[..3] == relative[..4][..3] && relative[3] == relative[..4][3];
    }
    if Under(relative, "web") && relative != "web" {
      assert relative[..4] == relative[..3] + [relative[3]];
    }
  }

  lemma RestoredNodeAt(home: Home, path: Path, kind: Kind, mode: bv16, data: string, owner: Owner)
    requires path != [] && RestoreAt(home, path, kind, mode, data, owner).Some?
    ensures var after := RestoreAt(home, path, kind, mode, data, owner).value;
      && path in after && after[path].kind == kind && (kind == Regular || kind == Directory)
      && (kind == Regular ==> after[path].data == data) && Masked(kind, mode, after[path].mode) && after[path].owner == owner
  {
    Masks(mode);
  }

  /** A restored path has the member's data and masked mode, and belongs to the account, below web to its group. */
  lemma RestoredMember(home: Home, e: Entry, after: Home)
    requires IsFile(e) && RestoreFile(home, e) == Some(after)
    ensures var relative := e.name[6..]; var path := Split(relative, '/');
      && path in after && after[path].kind == e.kind && (e.kind == Regular || e.kind == Directory)
      && (e.kind == Regular ==> after[path].data == e.data) && Masked(e.kind, e.mode, after[path].mode)
      && after[path].owner == (if Under(relative, "web") then WebGroup else Account)
  {
    var relative := e.name[6..];
    OwnerGiven(relative);
    RestoredNodeAt(home, Split(relative, '/'), e.kind, e.mode, e.data, OwnerOf(relative));
  }

  /** A new directory above the path. */
  ghost predicate MadeAbove(after: Home, path: Path, p: Path) {
    p in after && after[p].kind == Directory && exists k :: 0 < k < |path| && p == path[..k]
  }

  lemma DirectoryElsewhere(home: Home, path: Path, mode: bv16, p: Path)
    requires p != path
    ensures var after := MkdirAll(home, path, mode);
      && (p in home ==> p in after && after[p] == home[p]) && (p !in home && p in after ==> MadeAbove(after, path, p))
  {
    MkdirLeaves(home, path, mode, p);
    assert path[..|path|] == path;
  }

  lemma RegularElsewhere(home: Home, path: Path, mode: bv16, p: Path)
    requires path != []
    ensures var after := MkdirAll(home, path[..|path| - 1], mode);
      && (p in home ==> p in after && after[p] == home[p]) && (p !in home && p in after ==> MadeAbove(after, path, p))
  {
    var above := path[..|path| - 1];
    MkdirLeaves(home, above, mode, p);
    if k :| 0 < k < |path| && p == above[..k] {
      assert p == path[..k];
    }
  }

  /** Everything else stays, but for the missing directories above it. */
  lemma RestoredElsewhere(home: Home, e: Entry, after: Home, p: Path)
    requires IsFile(e) && RestoreFile(home, e) == Some(after) && p != Split(e.name[6..], '/')
    ensures p in home ==> p in after && after[p] == home[p]
    ensures p !in home && p in after ==> MadeAbove(after, Split(e.name[6..], '/'), p)
  {
    var path := Split(e.name[6..], '/');
    if e.kind == Directory {
      DirectoryElsewhere(home, path, e.mode & 0x1F8, p);
    } else {
      RegularElsewhere(home, path, 0x1E8, p);
    }
  }

  /** A member is refused for its name, for a link or a file on its way, and where one of another type stands. */
  lemma RestoredExactly(home: Home, e: Entry)
    requires IsFile(e) && (e.kind == Regular || e.kind == Directory)
    ensures var path := Split(e.name[6..], '/');
      RestoreFile(home, e).Some? <==>
        && ValidEntryPath(e.name[6..])
        && (forall k :: 0 < k < |path| && path[..k] in home ==> home[path[..k]].kind == Directory)
        && (path in home ==> home[path].kind == Directory || home[path].kind == Regular || home[path].kind == Special)
        && (path in home ==> (e.kind == Directory <==> home[path].kind == Directory))
  {
  }

  /** Scopes that were not asked for are not touched, whatever the archive. */
  lemma {:induction false} ScopesApart(h: Host, es: seq<Entry>, scope: Scope)
    requires RestoreAll(h, es, scope).Some?
    ensures !scope.files ==> RestoreAll(h, es, scope).value.home == h.home
    ensures !scope.databases ==> RestoreAll(h, es, scope).value.inputs == h.inputs
    ensures h.inputs <= RestoreAll(h, es, scope).value.inputs
    decreases |es|
  {
    if es == [] {
    } else {
      ScopesApart(h, es[..|es| - 1], scope);
    }
  }

  /** The metadata returned is that of the archive, cut at 4 MiB. */
  lemma {:induction false} MetadataLeaves(es: seq<Entry>, i: nat)
    requires NamesDistinct(es) && i < |es| && es[i].name == "metadata.json" && es[i].kind == Regular
    ensures MetadataOf(es) == (if |es[i].data| <= 4194304 then es[i].data else es[i].data[..4194304])
    decreases |es|
  {
    if i + 1 == |es| {
    } else {
      assert es[i].name != es[|es| - 1].name;
      MetadataLeaves(es[..|es| - 1], i);
    }
  }

  /** Restoring a written archive: each archived path, field by field. */
  lemma RestoredPaths(c: Codec, req: Request, h: Host, scope: Scope, i: nat)
    requires TreeOk(req.tree) && TreeClosed(req.tree) && DumpsOk(req.dumps) && Writable(req)
    requires scope.files && req.includeFiles && i < |req.tree| && RestoreAll(h, Written(c, req), scope).Some?
    ensures var home, s := RestoreAll(h, Written(c, req), scope).value.home, req.tree[i];
      && s.path in home && home[s.path].kind == s.kind && Masked(s.kind, s.mode, home[s.path].mode)
      && (s.kind == Regular ==> home[s.path].data == s.data)
      && home[s.path].owner == (if s.path[0] == "web" then WebGroup else Account)
  {
    RestoreWritten(c, req, h, scope);
    OverrideAt(h.home, req.tree, i);
    Masks(req.tree[i].mode);
  }

  /** The clients are fed the dumps of the archive, in order, each for its own database. */
  lemma RestoredDumps(c: Codec, req: Request, h: Host, scope: Scope)
    requires TreeOk(req.tree) && TreeClosed(req.tree) && DumpsOk(req.dumps) && Writable(req)
    requires scope.databases && RestoreAll(h, Written(c, req), scope).Some?
    ensures var after := RestoreAll(h, Written(c, req), scope).value.inputs;
      && |after| == |h.inputs| + |req.dumps| && h.inputs == after[..|h.inputs|]
      && forall i :: 0 <= i < |req.dumps| ==> after[|h.inputs| + i] == Input(req.dumps[i].name, req.dumps[i].data)
  {
    RestoreWritten(c, req, h, scope);
  }

  /** Which scopes of a written archive can be asked for: at least one, and none it was not asked to hold or found empty. */
  lemma ReturnableExactly(c: Codec, req: Request, scope: Scope)
    ensures Returnable(c, req, scope) <==>
      && |c.encode(ManifestOf(c, req))| <= 1048576 && PathsAreText(c, Body(req))
      && scope != Scope(false, false, false)
      && (scope.files ==> req.includeFiles) && (scope.databases ==> req.dumps != []) && (scope.metadata ==> req.metadata != "")
  {
  }
}
