/** Restoring an archive: nothing is written for a refused one, and a written one gives the home back. */
module ArchiveRestore {
  import opened Options
  import opened Text
  import opened EntryPath
  import opened ArchiveFormat
  import opened ArchiveWriter

  type Path = seq<string>

  datatype Owner = Account | WebGroup | Foreign

  datatype Node = Node(kind: Kind, mode: bv16, data: string, owner: Owner)

  /** The home directory by relative path, itself left out. */
  type Home = map<Path, Node>

  datatype Input = Input(database: string, data: string)

  datatype Host = Host(home: Home, inputs: seq<Input>)

  datatype Scope = Scope(files: bool, databases: bool, metadata: bool)

  const MAX_METADATA := 0x40_0000

  // ---- One member ----

  function MkdirAll(home: Home, path: Path, mode: bv16): Home {
    if path == [] then home
    else
      var above := MkdirAll(home, path[..|path| - 1], mode);
      if path in above then above else above[path := Node(Directory, mode, "", Foreign)]
  }

  /** A link anywhere on the way, or something that is not a directory above the target. */
  predicate Blocked(home: Home, path: Path) {
    || (exists k :: 0 < k < |path| && path[..k] in home && home[path[..k]].kind != Directory)
    || (path in home && home[path].kind == Symlink)
  }

  function OwnerOf(relative: string): Owner {
    if relative == "web" || HasPrefix(relative, "web/") then WebGroup else Account
  }

  function DirectoryMode(mode: bv16): bv16 {
    (mode & 0x1F8) | (mode & 0x400)
  }

  function RestoreAt(home: Home, path: Path, kind: Kind, mode: bv16, data: string, owner: Owner): Option<Home>
    requires path != []
  {
    if Blocked(home, path) then None
    else if kind == Directory then
      if path in home && home[path].kind != Directory then None
      else Some(MkdirAll(home, path, mode & 0x1F8)[path := Node(Directory, DirectoryMode(mode), "", owner)])
    else if kind == Regular then
      if path in home && home[path].kind == Directory then None
      else Some(MkdirAll(home, path[..|path| - 1], 0x1E8)[path := Node(Regular, mode & 0x1B0, data, owner)])
    else None
  }

  /** restoreFile. */
  function RestoreFile(home: Home, e: Entry): Option<Home>
    requires IsFile(e)
  {
    var relative := e.name[6..];
    if !ValidEntryPath(relative) then None
    else RestoreAt(home, Split(relative, '/'), e.kind, e.mode, e.data, OwnerOf(relative))
  }

  /** path.Base without the .sql suffix. */
  function DatabaseOf(name: string): string {
    var parts := Split(name, '/');
    var file := parts[|parts| - 1];
    if |file| >= 4 && file[|file| - 4..] == ".sql" then file[..|file| - 4] else file
  }

  function RestoreEntry(h: Host, e: Entry, scope: Scope): Option<Host> {
    if scope.files && IsFile(e) then
      match RestoreFile(h.home, e)
      case None => None
      case Some(home) => Some(h.(home := home))
    else if scope.databases && IsDump(e) then
      if DatabaseName(DatabaseOf(e.name)) then Some(h.(inputs := h.inputs + [Input(DatabaseOf(e.name), e.data)])) else None
    else Some(h)
  }

  function RestoreAll(h: Host, es: seq<Entry>, scope: Scope): Option<Host> {
    if es == [] then Some(h)
    else
      match RestoreAll(h, es[..|es| - 1], scope)
      case None => None
      case Some(before) => RestoreEntry(before, es[|es| - 1], scope)
  }

  function MetadataOf(es: seq<Entry>): string {
    if es == [] then ""
    else
      var e := es[|es| - 1];
      if IsMetadata(e) then (if |e.data| > MAX_METADATA then e.data[..MAX_METADATA] else e.data) else MetadataOf(es[..|es| - 1])
  }

  predicate ScopeAllowed(m: Manifest, scope: Scope) {
    && (scope.files || scope.databases || scope.metadata)
    && (scope.files ==> m.files) && (scope.databases ==> m.databases) && (scope.metadata ==> m.metadata)
  }

  datatype Outcome = Restored(metadata: string) | Refused | Failed

  /** Scopes are exclusive: a file is neither a dump nor the metadata. */
  lemma KindsDiffer(e: Entry)
    ensures !(IsFile(e) && (IsDump(e) || IsMetadata(e))) && !(IsDump(e) && IsMetadata(e))
  {
    assert IsFile(e) ==> e.name[0] == e.name[..6][0] == 'f';
    assert IsDump(e) ==> e.name[0] == e.name[..10][0] == 'd';
    assert "metadata.json"[0] == 'm';
  }

  /** The members were restored in order up to some point, and none after it. */
  ghost predicate Reached(start: Host, es: seq<Entry>, scope: Scope, now: Host) {
    exists i :: 0 <= i <= |es| && RestoreAll(start, es[..i], scope) == Some(now)
  }

  class Agent {
    var home: Home
    var inputs: seq<Input>

    constructor (home: Home)
      ensures View() == Host(home, [])
    {
      this.home, inputs := home, [];
    }

    function View(): Host
      reads this
    {
      Host(home, inputs)
    }

    /** The loop over the members; `fault` is the member at which a file operation or a database client fails. */
    method RestoreMembers(es: seq<Entry>, scope: Scope, fault: Option<nat>) returns (metadata: string, ok: bool)
      modifies this
      ensures ok ==> RestoreAll(old(View()), es, scope) == Some(View())
      ensures ok ==> metadata == if scope.metadata then MetadataOf(es) else ""
      ensures !ok && fault.None? ==> RestoreAll(old(View()), es, scope).None?
      ensures Reached(old(View()), es, scope, View())
    {
      ghost var start := View();
      metadata := "";
      for i := 0 to |es|
        invariant RestoreAll(start, es[..i], scope) == Some(View())
        invariant metadata == if scope.metadata then MetadataOf(es[..i]) else ""
      {
        var e := es[i];
        assert es[..i + 1][..i] == es[..i];
        KindsDiffer(e);
        assert Reached(start, es, scope, View());
        if fault == Some(i) {
          return "", false;
        }
        if scope.files && HasPrefix(e.name, "files/") {
          var written := RestoreFile(home, e);
          if written.None? {
            RestoreStops(start, es, i, scope);
            return "", false;
          }
          home := written.value;
        } else if scope.databases && HasPrefix(e.name, "databases/") && e.kind == Regular {
          if !DatabaseName(DatabaseOf(e.name)) {
            RestoreStops(start, es, i, scope);
            return "", false;
          }
          inputs := inputs + [Input(DatabaseOf(e.name), e.data)];
        } else if scope.metadata && e.name == "metadata.json" && e.kind == Regular {
          metadata := if |e.data| > MAX_METADATA then e.data[..MAX_METADATA] else e.data;
        }
      }
      assert es[..|es|] == es;
      assert Reached(start, es, scope, View());
      return metadata, true;
    }

    /**
     * Restore. `trusted` stands for the artifact path and checksum and the host identity checks, all made before
     * the first write.
     */
    method Restore(c: Codec, es: seq<Entry>, account: string, scope: Scope, trusted: bool, fault: Option<nat>) returns (r: Outcome)
      modifies this
      ensures r == Refused <==> !(trusted && exists m :: Accepts(c, es, account, m) && ScopeAllowed(m, scope))
      ensures r == Refused ==> View() == old(View())
      ensures r.Restored? ==> RestoreAll(old(View()), es, scope) == Some(View())
      ensures r.Restored? ==> r.metadata == if scope.metadata then MetadataOf(es) else ""
      ensures Reached(old(View()), es, scope, View())
      ensures fault.None? && r == Failed ==> RestoreAll(old(View()), es, scope).None? || (scope.metadata && MetadataOf(es) == "")
    {
      var verdict := Inspect(c, es, account);
      assert RestoreAll(View(), es[..0], scope) == Some(View());
      if !verdict.Accepted? || !ScopeAllowed(verdict.manifest, scope) || !trusted {
        return Refused;
      }
      assert Accepts(c, es, account, verdict.manifest);
      var metadata, ok := RestoreMembers(es, scope, fault);
      if !ok || (scope.metadata && verdict.manifest.metadata && metadata == "") {
        return Failed;
      }
      return Restored(metadata);
    }
  }

  lemma {:induction false} RestoreStops(h: Host, es: seq<Entry>, i: nat, scope: Scope)
    requires i < |es| && RestoreAll(h, es[..i + 1], scope).None?
    ensures RestoreAll(h, es, scope).None?
    decreases |es|
  {
    if i + 1 == |es| {
      assert es[..i + 1] == es;
    } else {
      assert es[..|es| - 1][..i + 1] == es[..i + 1];
      RestoreStops(h, es[..|es| - 1], i, scope);
    }
  }

  // ---- Restoring what was written ----

  /** What a restored path holds. */
  function RestoredNode(s: Source): Node {
    var owner := if s.path != [] && s.path[0] == "web" then WebGroup else Account;
    if s.kind == Directory then Node(Directory, DirectoryMode(s.mode), "", owner)
    else Node(Regular, s.mode & 0x1B0, s.data, owner)
  }

  function Override(home: Home, tree: seq<Source>): Home {
    if tree == [] then home
    else Override(home, tree[..|tree| - 1])[tree[|tree| - 1].path := RestoredNode(tree[|tree| - 1])]
  }

  /** A walk visits a directory before what it holds. */
  ghost predicate TreeClosed(tree: seq<Source>) {
    forall i, k :: 0 <= i < |tree| && 0 < k < |tree[i].path| ==> VisitedBefore(tree, i, tree[i].path[..k])
  }

  ghost predicate VisitedBefore(tree: seq<Source>, i: nat, path: Path)
    requires i <= |tree|
  {
    exists j :: 0 <= j < i && tree[j].path == path && tree[j].kind == Directory
  }

  predicate FitsOver(home: Home, s: Source) {
    s.path in home ==>
      if s.kind == Directory then home[s.path].kind == Directory
      else home[s.path].kind == Regular || home[s.path].kind == Special
  }

  /** No archived directory meets a file or link, and no archived file a directory or link. */
  ghost predicate Compatible(home: Home, tree: seq<Source>) {
    forall i :: 0 <= i < |tree| ==> FitsOver(home, tree[i])
  }

  lemma {:induction false} OverrideAt(home: Home, tree: seq<Source>, i: nat)
    requires TreeOk(tree) && i < |tree|
    ensures tree[i].path in Override(home, tree) && Override(home, tree)[tree[i].path] == RestoredNode(tree[i])
  {
    var n := |tree| - 1;
    if i == n {
    } else {
      assert tree[i].path != tree[n].path;
      OverrideAt(home, tree[..n], i);
    }
  }

  lemma {:induction false} OverrideElsewhere(home: Home, tree: seq<Source>, p: Path)
    requires forall i :: 0 <= i < |tree| ==> tree[i].path != p
    ensures p in Override(home, tree) <==> p in home
    ensures p in home ==> Override(home, tree)[p] == home[p]
  {
    if tree == [] {
    } else {
      OverrideElsewhere(home, tree[..|tree| - 1], p);
    }
  }

  lemma {:induction false} MkdirNothing(home: Home, path: Path, mode: bv16)
    requires forall k :: 0 < k <= |path| ==> path[..k] in home
    ensures MkdirAll(home, path, mode) == home
  {
    if path == [] {
    } else {
      var above := path[..|path| - 1];
      forall k | 0 < k <= |above| ensures above[..k] in home {
        assert above[..k] == path[..k];
      }
      MkdirNothing(home, above, mode);
      assert path[..|path|] == path;
    }
  }

  lemma WebOwner(path: seq<string>)
    requires path != [] && forall k :: 0 <= k < |path| ==> PlainPart(path[k])
    ensures OwnerOf(Join(path, '/')) == if path[0] == "web" then WebGroup else Account
  {
    var relative := Join(path, '/');
    SplitJoin(path, '/');
    if relative == "web" {
      SplitSingle(relative, '/');
    }
    if HasPrefix(relative, "web/") {
      WebHead(relative);
    }
    if path[0] == "web" {
      WebFirst(path);
    }
  }

  lemma WebFirst(path: seq<string>)
    requires path != [] && path[0] == "web"
    ensures Join(path, '/') == "web" || HasPrefix(Join(path, '/'), "web/")
  {
    if |path| > 1 {
      assert Join(path, '/')[..4] == "web/";
    }
  }

  lemma WebHead(relative: string)
    requires HasPrefix(relative, "web/")
    ensures Split(relative, '/')[0] == "web"
  {
    assert relative == "web" + ['/'] + relative[4..];
    SplitHead("web", relative[4..], '/');
  }

  lemma FileEntryName(s: Source)
    requires s.path != [] && forall k :: 0 <= k < |s.path| ==> PlainPart(s.path[k])
    ensures var e := FileEntry(s);
      IsFile(e) && Split(e.name[6..], '/') == s.path && ValidEntryPath(e.name[6..])
      && OwnerOf(e.name[6..]) == RestoredNode(s).owner
  {
    var e := FileEntry(s);
    assert e.name[..6] == "files/" && e.name[6..] == Join(s.path, '/');
    SplitJoin(s.path, '/');
    PlainNameValid(e.name[6..], s.path);
    WebOwner(s.path);
  }

  lemma NotBlocked(home: Home, path: Path)
    requires path != [] && forall k :: 0 < k < |path| ==> path[..k] in home && home[path[..k]].kind == Directory
    ensures Blocked(home, path) <==> path in home && home[path].kind == Symlink
  {
  }

  lemma RestoreDirectory(home: Home, s: Source)
    requires s.path != [] && s.kind == Directory
    requires forall k :: 0 < k < |s.path| ==> s.path[..k] in home && home[s.path[..k]].kind == Directory
    ensures RestoreAt(home, s.path, Directory, s.mode, "", RestoredNode(s).owner)
      == if FitsOver(home, s) then Some(home[s.path := RestoredNode(s)]) else None
  {
    NotBlocked(home, s.path);
    ParentsStand(home, s.path, s.mode & 0x1F8);
    var made := MkdirAll(home, s.path, s.mode & 0x1F8);
    assert made[s.path := RestoredNode(s)] == home[s.path := RestoredNode(s)];
  }

  lemma RestoreRegular(home: Home, s: Source)
    requires s.path != [] && s.kind == Regular
    requires forall k :: 0 < k < |s.path| ==> s.path[..k] in home && home[s.path[..k]].kind == Directory
    ensures RestoreAt(home, s.path, Regular, s.mode, s.data, RestoredNode(s).owner)
      == if FitsOver(home, s) then Some(home[s.path := RestoredNode(s)]) else None
  {
    NotBlocked(home, s.path);
    ParentsStand(home, s.path, 0x1E8);
  }

  /** One archived path over a home that already holds its parents as directories. */
  lemma RestoreOne(home: Home, s: Source)
    requires s.path != [] && forall k :: 0 <= k < |s.path| ==> PlainPart(s.path[k])
    requires Archivable(s.kind)
    requires forall k :: 0 < k < |s.path| ==> s.path[..k] in home && home[s.path[..k]].kind == Directory
    ensures IsFile(FileEntry(s))
    ensures RestoreFile(home, FileEntry(s)) == if FitsOver(home, s) then Some(home[s.path := RestoredNode(s)]) else None
  {
    FileEntryName(s);
    if s.kind == Directory {
      RestoreDirectory(home, s);
    } else {
      RestoreRegular(home, s);
    }
  }

  lemma ParentsStand(home: Home, path: Path, mode: bv16)
    requires path != [] && forall k :: 0 < k < |path| ==> path[..k] in home
    ensures MkdirAll(home, path[..|path| - 1], mode) == home
    ensures MkdirAll(home, path, mode) == if path in home then home else home[path := Node(Directory, mode, "", Foreign)]
  {
    var above := path[..|path| - 1];
    forall k | 0 < k <= |above| ensures above[..k] in home {
      assert above[..k] == path[..k];
    }
    MkdirNothing(home, above, mode);
  }

  lemma RestoreSnoc(h: Host, es: seq<Entry>, e: Entry, scope: Scope)
    ensures RestoreAll(h, es + [e], scope)
      == match RestoreAll(h, es, scope) { case None => None case Some(before) => RestoreEntry(before, e, scope) }
  {
    assert (es + [e])[..|es|] == es;
  }

  lemma ParentsRestored(home: Home, tree: seq<Source>, i: nat)
    requires TreeOk(tree) && TreeClosed(tree) && i < |tree|
    ensures var before := Override(home, tree[..i]);
      forall k :: 0 < k < |tree[i].path| ==> tree[i].path[..k] in before && before[tree[i].path[..k]].kind == Directory
  {
    forall k | 0 < k < |tree[i].path|
      ensures tree[i].path[..k] in Override(home, tree[..i]) && Override(home, tree[..i])[tree[i].path[..k]].kind == Directory
    {
      assert VisitedBefore(tree, i, tree[i].path[..k]);
      var j :| 0 <= j < i && tree[j].path == tree[i].path[..k] && tree[j].kind == Directory;
      OverrideAt(home, tree[..i], j);
    }
  }

  lemma FilesLast(tree: seq<Source>)
    requires tree != []
    ensures FileEntries(tree) == FileEntries(tree[..|tree| - 1]) + [FileEntry(tree[|tree| - 1])]
  {
    FilesSnoc(tree, |tree| - 1);
    assert tree[..|tree|] == tree;
  }

  lemma RestoreTreeStep(h: Host, tree: seq<Source>, scope: Scope)
    requires TreeOk(tree) && TreeClosed(tree) && scope.files && tree != [] && Archivable(tree[|tree| - 1].kind)
    ensures var n := |tree| - 1;
      RestoreEntry(h.(home := Override(h.home, tree[..n])), FileEntry(tree[n]), scope)
      == if FitsOver(h.home, tree[n]) then Some(h.(home := Override(h.home, tree))) else None
  {
    var n := |tree| - 1;
    ParentsRestored(h.home, tree, n);
    RestoreOne(Override(h.home, tree[..n]), tree[n]);
    OverrideElsewhere(h.home, tree[..n], tree[n].path);
  }

  lemma WalkPrefix(tree: seq<Source>, n: nat)
    requires TreeOk(tree) && TreeClosed(tree) && n <= |tree|
    ensures TreeOk(tree[..n]) && TreeClosed(tree[..n])
  {
    var some := tree[..n];
    forall i, k | 0 <= i < |some| && 0 < k < |some[i].path| ensures VisitedBefore(some, i, some[i].path[..k]) {
      assert some[i] == tree[i] && VisitedBefore(tree, i, tree[i].path[..k]);
      var j :| 0 <= j < i && tree[j].path == tree[i].path[..k] && tree[j].kind == Directory;
      assert some[j] == tree[j];
    }
  }

  lemma CompatibleLast(home: Home, tree: seq<Source>)
    requires tree != []
    ensures Compatible(home, tree) <==> Compatible(home, tree[..|tree| - 1]) && FitsOver(home, tree[|tree| - 1])
  {
  }

  /** The files of an archive over any home: overridden, or stopped at the first path that does not fit. */
  lemma {:induction false} RestoreTree(h: Host, tree: seq<Source>, scope: Scope)
    requires TreeOk(tree) && TreeClosed(tree) && scope.files && forall i :: 0 <= i < |tree| ==> Archivable(tree[i].kind)
    ensures RestoreAll(h, FileEntries(tree), scope)
      == if Compatible(h.home, tree) then Some(h.(home := Override(h.home, tree))) else None
  {
    if tree == [] {
    } else {
      var n := |tree| - 1;
      WalkPrefix(tree, n);
      RestoreTree(h, tree[..n], scope);
      FilesLast(tree);
      RestoreSnoc(h, FileEntries(tree[..n]), FileEntry(tree[n]), scope);
      RestoreTreeStep(h, tree, scope);
      CompatibleLast(h.home, tree);
    }
  }

  lemma {:induction false} FilesSkipped(h: Host, tree: seq<Source>, scope: Scope)
    requires TreeOk(tree) && !scope.files
    ensures RestoreAll(h, FileEntries(tree), scope) == Some(h)
  {
    if tree == [] {
    } else {
      var n := |tree| - 1;
      FilesSkipped(h, tree[..n], scope);
      FilesSnoc(tree, n);
      assert tree[..n + 1] == tree;
      RestoreSnoc(h, FileEntries(tree[..n]), FileEntry(tree[n]), scope);
      FileEntryName(tree[n]);
      KindsDiffer(FileEntry(tree[n]));
    }
  }

  lemma {:induction false} RestoreConcat(h: Host, a: seq<Entry>, b: seq<Entry>, scope: Scope)
    ensures RestoreAll(h, a + b, scope)
      == match RestoreAll(h, a, scope) { case None => None case Some(mid) => RestoreAll(mid, b, scope) }
    decreases |b|
  {
    if b == [] {
      assert a + b == a;
    } else {
      var n := |b| - 1;
      RestoreConcat(h, a, b[..n], scope);
      assert a + b == (a + b[..n]) + [b[n]];
      RestoreSnoc(h, a + b[..n], b[n], scope);
    }
  }

  function Loaded(dumps: seq<Dump>): seq<Input> {
    seq(|dumps|, i requires 0 <= i < |dumps| => Input(dumps[i].name, dumps[i].data))
  }

  lemma DumpEntryName(d: Dump)
    requires DatabaseName(d.name)
    ensures IsDump(DumpEntry(d)) && DatabaseOf(DumpEntry(d).name) == d.name
  {
    DumpNameParts(d.name);
    var file := d.name + ".sql";
    assert DumpEntry(d).name[..10] == "databases/";
    assert file[|file| - 4..] == ".sql" && file[..|file| - 4] == d.name;
  }

  lemma {:induction false} RestoreDumps(h: Host, dumps: seq<Dump>, scope: Scope)
    requires DumpsOk(dumps)
    ensures RestoreAll(h, DumpEntries(dumps), scope)
      == Some(if scope.databases then h.(inputs := h.inputs + Loaded(dumps)) else h)
  {
    if dumps == [] {
      assert h.inputs + Loaded(dumps) == h.inputs;
    } else {
      var n := |dumps| - 1;
      RestoreDumps(h, dumps[..n], scope);
      assert DumpEntries(dumps) == DumpEntries(dumps[..n]) + [DumpEntry(dumps[n])];
      RestoreSnoc(h, DumpEntries(dumps[..n]), DumpEntry(dumps[n]), scope);
      DumpEntryName(dumps[n]);
      KindsDiffer(DumpEntry(dumps[n]));
      assert h.inputs + Loaded(dumps) == h.inputs + Loaded(dumps[..n]) + [Input(dumps[n].name, dumps[n].data)];
    }
  }

  predicate TopName(e: Entry) {
    e.name == "metadata.json" || e.name == "manifest.json"
  }

  lemma TopSkipped(h: Host, e: Entry, scope: Scope)
    requires TopName(e)
    ensures RestoreEntry(h, e, scope) == Some(h)
  {
    OtherFirstLetter(e.name, "files/");
    OtherFirstLetter(e.name, "databases/");
  }

  lemma {:induction false} AllTopSkipped(h: Host, es: seq<Entry>, scope: Scope)
    requires forall i :: 0 <= i < |es| ==> TopName(es[i])
    ensures RestoreAll(h, es, scope) == Some(h)
  {
    if es == [] {
    } else {
      AllTopSkipped(h, es[..|es| - 1], scope);
      TopSkipped(h, es[|es| - 1], scope);
    }
  }

  /** The databases and the two top members after the files. */
  lemma RestoreTail(c: Codec, req: Request, h: Host, scope: Scope)
    requires DumpsOk(req.dumps)
    ensures RestoreAll(h, DumpEntries(req.dumps) + (MetadataEntries(req.metadata) + [ManifestEntry(c, req)]), scope)
      == Some(if scope.databases then h.(inputs := h.inputs + Loaded(req.dumps)) else h)
  {
    var dumps, top := DumpEntries(req.dumps), MetadataEntries(req.metadata) + [ManifestEntry(c, req)];
    RestoreConcat(h, dumps, top, scope);
    RestoreDumps(h, req.dumps, scope);
    AllTopSkipped(RestoreAll(h, dumps, scope).value, top, scope);
  }

  /**
   * Restoring a written archive into any home: the home overridden by the archived tree with masked modes and
   * repaired owners, the dumps loaded in order; it stops exactly when an archived path does not fit the home.
   */
  lemma RestoreWritten(c: Codec, req: Request, h: Host, scope: Scope)
    requires TreeOk(req.tree) && TreeClosed(req.tree) && DumpsOk(req.dumps) && Writable(req)
    ensures RestoreAll(h, Written(c, req), scope)
      == if scope.files && req.includeFiles && !Compatible(h.home, req.tree) then None
         else Some(Host(if scope.files && req.includeFiles then Override(h.home, req.tree) else h.home,
                        if scope.databases then h.inputs + Loaded(req.dumps) else h.inputs))
  {
    var files := if req.includeFiles then FileEntries(req.tree) else [];
    var tail := DumpEntries(req.dumps) + (MetadataEntries(req.metadata) + [ManifestEntry(c, req)]);
    assert Written(c, req) == files + tail;
    RestoreConcat(h, files, tail, scope);
    if req.includeFiles {
      if scope.files {
        RestoreTree(h, req.tree, scope);
      } else {
        FilesSkipped(h, req.tree, scope);
      }
    }
    var mid := RestoreAll(h, files, scope);
    if mid.Some? {
      RestoreTail(c, req, mid.value, scope);
    }
  }

  /** The metadata comes back verbatim within the limit the writer enforces. */
  lemma MetadataVerbatim(c: Codec, req: Request)
    requires 0 < |req.metadata| <= MAX_METADATA
    ensures MetadataOf(Written(c, req)) == req.metadata
  {
    var es, n := Written(c, req), |Body(req)|;
    assert es[n] == ManifestEntry(c, req) && es[..n] == Body(req);
    assert Body(req)[n - 1] == Entry("metadata.json", Regular, 0x180, req.metadata);
    assert "metadata.json"[1] == 'e' && "manifest.json"[1] == 'a';
  }

  /** Archived paths hold what was archived, every other path what it held before. */
  lemma OverrideMeaning(home: Home, tree: seq<Source>, p: Path)
    requires TreeOk(tree)
    ensures (exists i :: 0 <= i < |tree| && tree[i].path == p) ==>
      exists i :: 0 <= i < |tree| && tree[i].path == p && p in Override(home, tree) && Override(home, tree)[p] == RestoredNode(tree[i])
    ensures !(exists i :: 0 <= i < |tree| && tree[i].path == p) ==>
      (p in Override(home, tree) <==> p in home) && (p in home ==> Override(home, tree)[p] == home[p])
  {
    if i :| 0 <= i < |tree| && tree[i].path == p {
      OverrideAt(home, tree, i);
    } else {
      OverrideElsewhere(home, tree, p);
    }
  }

  // ---- The whole round trip ----

  /** The archive of the request can be taken back with the scope. */
  ghost predicate Returnable(c: Codec, req: Request, scope: Scope) {
    |c.encode(ManifestOf(c, req))| <= MAX_MANIFEST && PathsAreText(c, Body(req)) && ScopeAllowed(ManifestOf(c, req), scope)
  }

  lemma AcceptedWritten(c: Codec, req: Request, scope: Scope)
    requires Lawful(c) && TreeOk(req.tree) && DumpsOk(req.dumps) && Writable(req) && c.validId(req.runId)
    ensures (exists m :: Accepts(c, Written(c, req), req.accountId, m) && ScopeAllowed(m, scope)) <==> Returnable(c, req, scope)
  {
    forall m ensures Accepts(c, Written(c, req), req.accountId, m)
      <==> |c.encode(ManifestOf(c, req))| <= MAX_MANIFEST && PathsAreText(c, Body(req)) && m == ManifestOf(c, req)
    {
      AcceptedExactly(c, req, m);
    }
  }

  /**
   * Archiving a home and restoring the archive, over whatever the home has become: the restore is refused exactly when
   * the archive cannot be taken back, succeeds exactly when it can and no archived path meets one of another type, and
   * then returns the metadata, overrides the home by the archived tree, and loads the dumps.
   */
  method RoundTrip(c: Codec, req: Request, agent: Agent, scope: Scope) returns (r: Outcome)
    requires Lawful(c) && TreeOk(req.tree) && TreeClosed(req.tree) && DumpsOk(req.dumps) && Writable(req)
    requires c.validId(req.runId) && |req.metadata| <= MAX_METADATA
    modifies agent
    ensures r == Refused <==> !Returnable(c, req, scope)
    ensures r == Failed <==> Returnable(c, req, scope) && scope.files && !Compatible(old(agent.home), req.tree)
    ensures r.Restored? ==> r.metadata == if scope.metadata then req.metadata else ""
    ensures r.Restored? ==> agent.home == if scope.files then Override(old(agent.home), req.tree) else old(agent.home)
    ensures r.Restored? ==> agent.inputs == if scope.databases then old(agent.inputs) + Loaded(req.dumps) else old(agent.inputs)
  {
    ghost var before := agent.View();
    var archive := WriteArchive(c, req);
    AcceptedWritten(c, req, scope);
    RestoreWritten(c, req, before, scope);
    if scope.metadata && req.metadata != "" {
      MetadataVerbatim(c, req);
    }
    r := agent.Restore(c, archive.value.0, req.accountId, scope, true, None);
  }
}
