/** The archive writer, and exactly which archives it writes that the reader accepts. */
module ArchiveWriter {
  import opened Options
  import opened Text
  import opened EntryPath
  import opened ArchiveFormat

  /** One path of the home directory in the order the walk visits it. */
  datatype Source = Source(path: seq<string>, kind: Kind, mode: bv16, data: string)

  datatype Dump = Dump(name: string, data: string)

  datatype Request = Request(runId: string, accountId: string, createdAt: string,
                             includeFiles: bool, tree: seq<Source>, dumps: seq<Dump>, metadata: string)

  predicate PlainPart(part: string) {
    Plain(part) && '/' !in part
  }

  /** What a directory walk gives: distinct relative paths of plain parts. */
  ghost predicate TreeOk(tree: seq<Source>) {
    && (forall i :: 0 <= i < |tree| ==> tree[i].path != [] && forall k :: 0 <= k < |tree[i].path| ==> PlainPart(tree[i].path[k]))
    && (forall i, j :: 0 <= i < j < |tree| ==> tree[i].path != tree[j].path)
  }

  predicate DatabaseName(s: string) {
    && 14 <= |s| <= 45
    && s[..4] == "wcp_" && s[12] == '_' && 'a' <= s[13] <= 'z'
    && (forall i :: 4 <= i < 12 ==> '0' <= s[i] <= '9' || 'a' <= s[i] <= 'f')
    && (forall i :: 14 <= i < |s| ==> s[i] == '_' || '0' <= s[i] <= '9' || 'a' <= s[i] <= 'z')
  }

  /** What the staging directory holds: one dump per valid name. */
  ghost predicate DumpsOk(dumps: seq<Dump>) {
    && (forall i :: 0 <= i < |dumps| ==> DatabaseName(dumps[i].name))
    && (forall i, j :: 0 <= i < j < |dumps| ==> dumps[i].name != dumps[j].name)
  }

  predicate Archivable(k: Kind) {
    k == Regular || k == Directory
  }

  ghost predicate Writable(req: Request) {
    req.includeFiles ==> forall i :: 0 <= i < |req.tree| ==> Archivable(req.tree[i].kind)
  }

  // ---- What is written ----

  function FileEntry(s: Source): Entry {
    Entry("files/" + Join(s.path, '/'), s.kind, s.mode, if s.kind == Regular then s.data else "")
  }

  function DumpEntry(d: Dump): Entry {
    Entry("databases/" + d.name + ".sql", Regular, 0x180, d.data)
  }

  function FileEntries(tree: seq<Source>): (es: seq<Entry>)
    ensures |es| == |tree| && forall i :: 0 <= i < |es| ==> es[i] == FileEntry(tree[i])
  {
    seq(|tree|, i requires 0 <= i < |tree| => FileEntry(tree[i]))
  }

  function DumpEntries(dumps: seq<Dump>): (es: seq<Entry>)
    ensures |es| == |dumps| && forall i :: 0 <= i < |es| ==> es[i] == DumpEntry(dumps[i])
  {
    seq(|dumps|, i requires 0 <= i < |dumps| => DumpEntry(dumps[i]))
  }

  function MetadataEntries(metadata: string): seq<Entry> {
    if metadata == "" then [] else [Entry("metadata.json", Regular, 0x180, metadata)]
  }

  function Body(req: Request): seq<Entry> {
    (if req.includeFiles then FileEntries(req.tree) else []) + DumpEntries(req.dumps) + MetadataEntries(req.metadata)
  }

  function Records(c: Codec, es: seq<Entry>): seq<Record> {
    if es == [] then []
    else Records(c, es[..|es| - 1]) + if es[|es| - 1].kind == Regular then [RecordOf(c, es[|es| - 1])] else []
  }

  function ManifestOf(c: Codec, req: Request): Manifest {
    Manifest(VERSION, req.runId, req.accountId, req.createdAt, req.includeFiles, |req.dumps| > 0, req.metadata != "",
             Records(c, Body(req)))
  }

  function ManifestEntry(c: Codec, req: Request): Entry {
    Entry("manifest.json", Regular, 0x180, c.encode(ManifestOf(c, req)))
  }

  function Written(c: Codec, req: Request): seq<Entry> {
    Body(req) + [ManifestEntry(c, req)]
  }

  lemma RecordsSnoc(c: Codec, es: seq<Entry>, e: Entry)
    ensures Records(c, es + [e]) == Records(c, es) + if e.kind == Regular then [RecordOf(c, e)] else []
  {
    assert (es + [e])[..|es|] == es;
  }

  lemma FilesSnoc(tree: seq<Source>, i: nat)
    requires i < |tree|
    ensures FileEntries(tree[..i + 1]) == FileEntries(tree[..i]) + [FileEntry(tree[i])]
  {
  }

  /** The walk over the home directory; it stops at a link or a special file. */
  method AddFiles(c: Codec, tree: seq<Source>) returns (ok: bool, es: seq<Entry>, records: seq<Record>)
    ensures ok <==> forall k :: 0 <= k < |tree| ==> Archivable(tree[k].kind)
    ensures ok ==> es == FileEntries(tree) && records == Records(c, es)
  {
    es, records := [], [];
    for i := 0 to |tree|
      invariant es == FileEntries(tree[..i]) && records == Records(c, es)
      invariant forall k :: 0 <= k < i ==> Archivable(tree[k].kind)
    {
      var s := tree[i];
      if s.kind != Regular && s.kind != Directory {
        return false, [], [];
      }
      var e := FileEntry(s);
      FilesSnoc(tree, i);
      RecordsSnoc(c, es, e);
      es := es + [e];
      if s.kind == Regular {
        records := records + [Record(e.name, |s.data|, c.hash(s.data))];
      }
    }
    assert tree[..|tree|] == tree;
    return true, es, records;
  }

  /** The staged database dumps. */
  method AddDumps(c: Codec, dumps: seq<Dump>, before: seq<Entry>, written: seq<Record>) returns (es: seq<Entry>, records: seq<Record>)
    requires written == Records(c, before)
    ensures es == before + DumpEntries(dumps) && records == Records(c, es)
  {
    es, records := before, written;
    for i := 0 to |dumps|
      invariant es == before + DumpEntries(dumps[..i]) && records == Records(c, es)
    {
      var e := DumpEntry(dumps[i]);
      assert DumpEntries(dumps[..i + 1]) == DumpEntries(dumps[..i]) + [e];
      RecordsSnoc(c, es, e);
      es := es + [e];
      records := records + [Record(e.name, |e.data|, c.hash(e.data))];
    }
    assert dumps[..|dumps|] == dumps;
  }

  /** writeArchive: walk, dumps, metadata, manifest; nothing when the home holds a link or a special file. */
  method WriteArchive(c: Codec, req: Request) returns (r: Option<(seq<Entry>, Manifest)>)
    ensures r == if Writable(req) then Some((Written(c, req), ManifestOf(c, req))) else None
  {
    var es: seq<Entry>, records: seq<Record> := [], [];
    if req.includeFiles {
      var ok;
      ok, es, records := AddFiles(c, req.tree);
      if !ok {
        return None;
      }
    }
    es, records := AddDumps(c, req.dumps, es, records);
    if req.metadata != "" {
      var e := Entry("metadata.json", Regular, 0x180, req.metadata);
      RecordsSnoc(c, es, e);
      es := es + [e];
      records := records + [Record(e.name, |req.metadata|, c.hash(req.metadata))];
    }
    assert es == Body(req);
    var m := Manifest(VERSION, req.runId, req.accountId, req.createdAt, req.includeFiles, |req.dumps| > 0, req.metadata != "", records);
    return Some((es + [Entry("manifest.json", Regular, 0x180, c.encode(m))], m));
  }

  // ---- Names ----

  lemma PrefixedParts(prefix: string, head: string, rest: string, parts: seq<string>)
    requires Plain(head) && '/' !in head && prefix == head + "/" && Split(rest, '/') == parts
    requires forall k :: 0 <= k < |parts| ==> Plain(parts[k])
    ensures Split(prefix + rest, '/') == [head] + parts
    ensures ValidEntryPath(prefix + rest)
  {
    SplitHead(head, rest, '/');
    assert head + ['/'] + rest == prefix + rest;
    PlainNameValid(prefix + rest, [head] + parts);
  }

  lemma FilePrefix(rest: string, parts: seq<string>)
    requires Split(rest, '/') == parts && forall k :: 0 <= k < |parts| ==> Plain(parts[k])
    ensures Split("files/" + rest, '/') == ["files"] + parts
    ensures ValidEntryPath("files/" + rest)
  {
    PrefixedParts("files/", "files", rest, parts);
  }

  lemma FileNameParts(path: seq<string>)
    requires path != [] && forall k :: 0 <= k < |path| ==> PlainPart(path[k])
    ensures Split("files/" + Join(path, '/'), '/') == ["files"] + path
    ensures ValidEntryPath("files/" + Join(path, '/'))
  {
    SplitJoin(path, '/');
    FilePrefix(Join(path, '/'), path);
  }

  lemma DatabaseFile(name: string)
    requires DatabaseName(name)
    ensures '/' !in name + ".sql" && Plain(name + ".sql")
  {
    var file := name + ".sql";
    forall i | 0 <= i < |file| ensures file[i] != '/' {
      if i < 4 {
        assert name[i] == name[..4][i];
      }
    }
    assert |file| > 4;
  }

  lemma DumpNameParts(name: string)
    requires DatabaseName(name)
    ensures Split("databases/" + name + ".sql", '/') == ["databases", name + ".sql"]
    ensures ValidEntryPath("databases/" + name + ".sql")
  {
    DatabaseFile(name);
    SplitSingle(name + ".sql", '/');
    PrefixedParts("databases/", "databases", name + ".sql", [name + ".sql"]);
    assert "databases/" + (name + ".sql") == "databases/" + name + ".sql";
  }

  lemma TopNameValid(name: string)
    requires name == "metadata.json" || name == "manifest.json"
    ensures ValidEntryPath(name)
  {
    SinglePlainValid(name);
  }

  /** Members of one kind, named by an index. */
  datatype Origin = FromTree(index: nat) | FromDump(index: nat) | FromMetadata | FromManifest

  ghost predicate Comes(c: Codec, req: Request, e: Entry, o: Origin) {
    match o
    case FromTree(i) => req.includeFiles && i < |req.tree| && e == FileEntry(req.tree[i])
    case FromDump(i) => i < |req.dumps| && e == DumpEntry(req.dumps[i])
    case FromMetadata => req.metadata != "" && e == Entry("metadata.json", Regular, 0x180, req.metadata)
    case FromManifest => e == ManifestEntry(c, req)
  }

  function OriginAt(req: Request, i: nat): Origin {
    var t := if req.includeFiles then |req.tree| else 0;
    if i < t then FromTree(i) else if i < t + |req.dumps| then FromDump(i - t)
    else if i < |Body(req)| then FromMetadata else FromManifest
  }

  lemma OriginOf(c: Codec, req: Request, i: nat)
    requires i < |Written(c, req)|
    ensures Comes(c, req, Written(c, req)[i], OriginAt(req, i))
    ensures i < |Body(req)| <==> OriginAt(req, i) != FromManifest
  {
  }

  lemma OriginsDiffer(c: Codec, req: Request, i: nat, j: nat)
    requires i < j < |Written(c, req)|
    ensures OriginAt(req, i) != OriginAt(req, j)
  {
  }

  lemma NamesTellOrigins(c: Codec, req: Request, d: Entry, e: Entry, o: Origin, q: Origin)
    requires TreeOk(req.tree) && DumpsOk(req.dumps)
    requires Comes(c, req, d, o) && Comes(c, req, e, q) && d.name == e.name
    ensures o == q
  {
    assert o.FromTree? ==> d.name[0] == 'f';
    assert o.FromDump? ==> d.name[0] == 'd';
    assert q.FromTree? ==> e.name[0] == 'f';
    assert q.FromDump? ==> e.name[0] == 'd';
    assert "metadata.json"[1] == 'e' && "manifest.json"[1] == 'a';
    if o.FromTree? {
      FileNameParts(req.tree[o.index].path);
      FileNameParts(req.tree[q.index].path);
      assert (["files"] + req.tree[o.index].path)[1..] == req.tree[o.index].path;
      assert (["files"] + req.tree[q.index].path)[1..] == req.tree[q.index].path;
    } else if o.FromDump? {
      assert d.name[10..|d.name| - 4] == req.dumps[o.index].name;
      assert e.name[10..|e.name| - 4] == req.dumps[q.index].name;
    }
  }

  lemma WrittenNames(c: Codec, req: Request)
    requires TreeOk(req.tree) && DumpsOk(req.dumps) && Writable(req)
    ensures NamesDistinct(Written(c, req))
    ensures forall e :: e in Written(c, req) ==> EntrySafe(e)
  {
    var es := Written(c, req);
    forall i, j | 0 <= i < j < |es| ensures es[i].name != es[j].name {
      OriginOf(c, req, i);
      OriginOf(c, req, j);
      OriginsDiffer(c, req, i, j);
      if es[i].name == es[j].name {
        NamesTellOrigins(c, req, es[i], es[j], OriginAt(req, i), OriginAt(req, j));
      }
    }
    forall e | e in es ensures EntrySafe(e) {
      var i :| 0 <= i < |es| && es[i] == e;
      OriginOf(c, req, i);
      match OriginAt(req, i)
      case FromTree(k) => FileNameParts(req.tree[k].path);
      case FromDump(k) => DumpNameParts(req.dumps[k].name);
      case _ => TopNameValid(e.name);
    }
  }

  // ---- When the reader takes it back ----

  lemma {:induction false} RecordsMeaning(c: Codec, es: seq<Entry>)
    requires NamesDistinct(es)
    ensures forall i, j :: 0 <= i < j < |Records(c, es)| ==> Records(c, es)[i].path != Records(c, es)[j].path
    ensures forall r :: r in Records(c, es) ==> exists e :: e in es && e.kind == Regular && RecordOf(c, e) == r
    ensures forall e :: e in es && e.kind == Regular ==> RecordOf(c, e) in Records(c, es)
  {
    if es == [] {
    } else {
      var n := |es| - 1;
      RecordsMeaning(c, es[..n]);
      var before := Records(c, es[..n]);
      forall r | r in before ensures r.path != es[n].name && exists e :: e in es && e.kind == Regular && RecordOf(c, e) == r {
        var e :| e in es[..n] && e.kind == Regular && RecordOf(c, e) == r;
        assert e in es;
      }
      assert es[n] in es;
      forall e | e in es && e.kind == Regular ensures RecordOf(c, e) in Records(c, es) {
        var k :| 0 <= k < |es| && es[k] == e;
        assert k < n ==> e in es[..n];
      }
    }
  }

  /** Every archived path survives the JSON encoding of the manifest. */
  ghost predicate PathsAreText(c: Codec, es: seq<Entry>) {
    forall e :: e in es && e.kind == Regular ==> c.text(e.name) == e.name
  }

  lemma CoercedWhenText(c: Codec, m: Manifest, es: seq<Entry>)
    requires NamesDistinct(es) && m.entries == Records(c, es) && PathsAreText(c, es)
    ensures Coerced(c, m) == m
  {
    RecordsMeaning(c, es);
    forall i | 0 <= i < |m.entries| ensures Coerced(c, m).entries[i] == m.entries[i] {
      assert m.entries[i] in Records(c, es);
    }
    assert Coerced(c, m).entries == m.entries;
  }

  lemma BodyOfWritten(c: Codec, req: Request)
    requires TreeOk(req.tree) && DumpsOk(req.dumps) && Writable(req)
    ensures NamesDistinct(Body(req))
    ensures forall e :: e in Body(req) ==> e.name != "manifest.json"
    ensures forall e :: e in Written(c, req) && Counted(e) <==> e in Body(req) && e.kind == Regular
  {
    WrittenNames(c, req);
    var es := Written(c, req);
    assert forall i :: 0 <= i < |Body(req)| ==> es[i] == Body(req)[i] && es[i].name != es[|es| - 1].name;
  }

  lemma LostPath(c: Codec, m: Manifest, e: Entry)
    requires Lawful(c) && c.text(e.name) != e.name
    ensures RecordOf(c, e) !in Coerced(c, m).entries
  {
    forall i | 0 <= i < |m.entries| ensures Coerced(c, m).entries[i] != RecordOf(c, e) {
      var p := m.entries[i].path;
      assert c.text(c.text(p)) == c.text(p);
    }
  }

  /** The records fit the members exactly when every path is text. */
  lemma RecordsFitExactly(c: Codec, req: Request)
    requires Lawful(c) && TreeOk(req.tree) && DumpsOk(req.dumps) && Writable(req)
    ensures Bijection(c, Coerced(c, ManifestOf(c, req)).entries, Written(c, req)) <==> PathsAreText(c, Body(req))
  {
    var m := ManifestOf(c, req);
    BodyOfWritten(c, req);
    RecordsMeaning(c, Body(req));
    if PathsAreText(c, Body(req)) {
      CoercedWhenText(c, m, Body(req));
    } else {
      var e :| e in Body(req) && e.kind == Regular && c.text(e.name) != e.name;
      LostPath(c, m, e);
    }
  }

  lemma OriginLetters(c: Codec, req: Request, e: Entry, o: Origin)
    requires Comes(c, req, e, o)
    ensures |e.name| > 1
    ensures o.FromTree? ==> e.name[0] == 'f'
    ensures o.FromDump? ==> e.name[0] == 'd'
    ensures o.FromMetadata? || o.FromManifest? ==> e.name[0] == 'm'
    ensures o.FromManifest? ==> e.name[1] == 'a'
  {
  }

  /** A member's name tells where it came from. */
  lemma OriginKinds(c: Codec, req: Request, e: Entry, o: Origin)
    requires Comes(c, req, e, o)
    ensures IsFile(e) ==> o.FromTree?
    ensures IsDump(e) ==> o.FromDump?
    ensures IsMetadata(e) ==> o.FromMetadata?
  {
    OriginLetters(c, req, e, o);
    if !o.FromTree? {
      OtherFirstLetter(e.name, "files/");
    }
    if !o.FromDump? {
      OtherFirstLetter(e.name, "databases/");
    }
    assert "metadata.json"[0] == 'm' && "metadata.json"[1] == 'e';
  }

  lemma WrittenFlags(c: Codec, req: Request, e: Entry)
    requires e in Written(c, req)
    ensures (IsFile(e) ==> req.includeFiles) && (IsDump(e) ==> |req.dumps| > 0) && (IsMetadata(e) ==> req.metadata != "")
  {
    var i :| 0 <= i < |Written(c, req)| && Written(c, req)[i] == e;
    OriginOf(c, req, i);
    OriginKinds(c, req, e, OriginAt(req, i));
  }

  lemma WrittenScope(c: Codec, req: Request, m: Manifest)
    requires m.files == req.includeFiles && m.databases == (|req.dumps| > 0) && m.metadata == (req.metadata != "")
    ensures ScopeMatches(Written(c, req), m)
  {
    var es := Written(c, req);
    forall e | e in es
      ensures (IsFile(e) ==> req.includeFiles) && (IsDump(e) ==> |req.dumps| > 0) && (IsMetadata(e) ==> req.metadata != "")
    {
      WrittenFlags(c, req, e);
    }
    if |req.dumps| > 0 {
      var d := DumpEntry(req.dumps[0]);
      assert d == DumpEntries(req.dumps)[0] && d in es;
      assert d.name[..10] == "databases/" && IsDump(d);
    }
    if req.metadata != "" {
      var e := Entry("metadata.json", Regular, 0x180, req.metadata);
      assert e == MetadataEntries(req.metadata)[0] && e in es && IsMetadata(e);
    }
  }

  lemma WrittenManifest(c: Codec, req: Request, m: Manifest)
    requires Lawful(c) && TreeOk(req.tree) && DumpsOk(req.dumps) && Writable(req)
    ensures ManifestRead(c, Written(c, req), m)
      <==> |c.encode(ManifestOf(c, req))| <= MAX_MANIFEST && m == Coerced(c, ManifestOf(c, req))
  {
    var es := Written(c, req);
    var n := |es| - 1;
    WrittenNames(c, req);
    OnlyManifest(es, n);
    assert es[n] in es && es[n] == ManifestEntry(c, req);
  }

  /**
   * The round trip: the reader gives back exactly the written manifest, and it does so exactly when the manifest
   * fits the reader's limit and every archived path is text.
   */
  lemma AcceptedExactly(c: Codec, req: Request, m: Manifest)
    requires Lawful(c) && TreeOk(req.tree) && DumpsOk(req.dumps) && Writable(req) && c.validId(req.runId)
    ensures Accepts(c, Written(c, req), req.accountId, m)
      <==> |c.encode(ManifestOf(c, req))| <= MAX_MANIFEST && PathsAreText(c, Body(req)) && m == ManifestOf(c, req)
  {
    WrittenNames(c, req);
    WrittenManifest(c, req, m);
    RecordsFitExactly(c, req);
    WrittenScope(c, req, Coerced(c, ManifestOf(c, req)));
    BodyOfWritten(c, req);
    if PathsAreText(c, Body(req)) {
      CoercedWhenText(c, ManifestOf(c, req), Body(req));
    }
  }

  function OneFile(runId: string, accountId: string, createdAt: string, name: string): Request {
    Request(runId, accountId, createdAt, true, [Source([name], Regular, 0x180, "")], [], "")
  }

  /** A home with one file whose name JSON cannot carry is archived, and no reader accepts the archive. */
  lemma WrittenButRefused(c: Codec, runId: string, accountId: string, createdAt: string, name: string)
    requires Lawful(c) && c.validId(runId) && PlainPart(name) && c.text("files/" + name) != "files/" + name
    ensures var req := OneFile(runId, accountId, createdAt, name);
      && TreeOk(req.tree) && DumpsOk(req.dumps) && Writable(req)
      && forall m :: !Accepts(c, Written(c, req), accountId, m)
  {
    var req := OneFile(runId, accountId, createdAt, name);
    assert Join([name], '/') == name;
    var e := FileEntry(req.tree[0]);
    assert FileEntries(req.tree)[0] == e && e in Body(req);
    assert !PathsAreText(c, Body(req));
    forall m ensures !Accepts(c, Written(c, req), accountId, m) {
      AcceptedExactly(c, req, m);
    }
  }
}
