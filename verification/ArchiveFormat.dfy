/** The backup archive: what the writer produces, what the inspecting reader accepts, and when the two agree. */
module ArchiveFormat {
  import opened Options
  import opened Text
  import opened EntryPath

  datatype Kind = Regular | Directory | Symlink | Special

  /** One tar member. */
  datatype Entry = Entry(name: string, kind: Kind, mode: bv16, data: string)

  datatype Record = Record(path: string, size: nat, checksum: string)

  datatype Manifest = Manifest(version: int, runId: string, accountId: string, createdAt: string,
                               files: bool, databases: bool, metadata: bool, entries: seq<Record>)

  const VERSION := 4
  const MAX_MANIFEST := 0x10_0000

  /**
   * The library codecs: JSON text of a manifest, what JSON does to the bytes of a string, SHA-256 in hexadecimal,
   * and the identifier check.
   */
  datatype Codec = Codec(encode: Manifest -> string, decode: string -> Option<Manifest>, text: string -> string,
                         hash: string -> string, validId: string -> bool)

  /** encoding/json replaces bytes that are not UTF-8, so a path comes back as its text. */
  function Coerced(c: Codec, m: Manifest): Manifest {
    m.(entries := seq(|m.entries|, i requires 0 <= i < |m.entries| => m.entries[i].(path := c.text(m.entries[i].path))))
  }

  ghost predicate Lawful(c: Codec) {
    && (forall m: Manifest :: c.decode(c.encode(m)) == Some(Coerced(c, m)))
    && (forall s: string :: c.text(c.text(s)) == c.text(s))
  }

  // ---- What the reader accepts ----

  function Content(e: Entry): string {
    if e.kind == Regular then e.data else ""
  }

  predicate Counted(e: Entry) {
    e.kind == Regular && e.name != "manifest.json"
  }

  function RecordOf(c: Codec, e: Entry): Record {
    Record(e.name, |e.data|, c.hash(e.data))
  }

  predicate EntrySafe(e: Entry) {
    ValidEntryPath(e.name) && (e.kind == Regular || e.kind == Directory)
  }

  ghost predicate NamesDistinct(es: seq<Entry>) {
    forall i, j :: 0 <= i < j < |es| ==> es[i].name != es[j].name
  }

  predicate IsFile(e: Entry) {
    HasPrefix(e.name, "files/")
  }

  predicate IsDump(e: Entry) {
    HasPrefix(e.name, "databases/") && e.kind == Regular
  }

  predicate IsMetadata(e: Entry) {
    e.name == "metadata.json" && e.kind == Regular
  }

  predicate HasFiles(es: seq<Entry>) {
    exists e :: e in es && IsFile(e)
  }

  predicate HasDumps(es: seq<Entry>) {
    exists e :: e in es && IsDump(e)
  }

  predicate HasMetadata(es: seq<Entry>) {
    exists e :: e in es && IsMetadata(e)
  }

  /** The manifest's records and the counted members are in bijection, with equal path, size and checksum. */
  ghost predicate Bijection(c: Codec, records: seq<Record>, es: seq<Entry>) {
    && (forall i, j :: 0 <= i < j < |records| ==> records[i].path != records[j].path)
    && (forall r :: r in records ==> exists e :: e in es && Counted(e) && RecordOf(c, e) == r)
    && (forall e :: e in es && Counted(e) ==> RecordOf(c, e) in records)
  }

  ghost predicate ManifestRead(c: Codec, es: seq<Entry>, m: Manifest) {
    exists e :: e in es && e.name == "manifest.json" && |Content(e)| <= MAX_MANIFEST && c.decode(Content(e)) == Some(m)
  }

  predicate Identified(c: Codec, m: Manifest, account: string) {
    m.version > 0 && m.accountId == account && c.validId(m.runId)
  }

  predicate ScopeMatches(es: seq<Entry>, m: Manifest) {
    (HasFiles(es) ==> m.files) && HasDumps(es) == m.databases && HasMetadata(es) == m.metadata
  }

  ghost predicate Readable(c: Codec, es: seq<Entry>, account: string, m: Manifest) {
    && (forall e :: e in es ==> EntrySafe(e))
    && NamesDistinct(es)
    && ManifestRead(c, es, m)
    && Identified(c, m, account)
  }

  ghost predicate Accepts(c: Codec, es: seq<Entry>, account: string, m: Manifest) {
    && Readable(c, es, account, m)
    && m.version == VERSION
    && ScopeMatches(es, m)
    && Bijection(c, m.entries, es)
  }

  // ---- The reader ----

  datatype Verdict = Accepted(manifest: Manifest) | WrongVersion | Invalid

  /** The map the reader builds while it hashes the members. */
  function Computed(c: Codec, es: seq<Entry>): map<string, Record> {
    if es == [] then map[]
    else
      var e, before := es[|es| - 1], Computed(c, es[..|es| - 1]);
      if Counted(e) then before[e.name := RecordOf(c, e)] else before
  }

  lemma {:induction false} ComputedHas(c: Codec, es: seq<Entry>, i: nat)
    requires NamesDistinct(es) && i < |es| && Counted(es[i])
    ensures es[i].name in Computed(c, es) && Computed(c, es)[es[i].name] == RecordOf(c, es[i])
  {
    var n := |es| - 1;
    if i == n {
    } else {
      assert es[i].name != es[n].name;
      ComputedHas(c, es[..n], i);
    }
  }

  lemma {:induction false} ComputedFrom(c: Codec, es: seq<Entry>, p: string) returns (i: nat)
    requires p in Computed(c, es)
    ensures i < |es| && Counted(es[i]) && es[i].name == p && Computed(c, es)[p] == RecordOf(c, es[i])
  {
    var n := |es| - 1;
    if Counted(es[n]) && es[n].name == p {
      i := n;
    } else {
      i := ComputedFrom(c, es[..n], p);
    }
  }

  lemma ComputedMeaning(c: Codec, es: seq<Entry>)
    requires NamesDistinct(es)
    ensures forall e :: e in es && Counted(e) ==> e.name in Computed(c, es) && Computed(c, es)[e.name] == RecordOf(c, e)
    ensures forall p :: p in Computed(c, es) ==> exists e :: e in es && Counted(e) && e.name == p && Computed(c, es)[p] == RecordOf(c, e)
  {
    forall e | e in es && Counted(e) ensures e.name in Computed(c, es) && Computed(c, es)[e.name] == RecordOf(c, e) {
      var i :| 0 <= i < |es| && es[i] == e;
      ComputedHas(c, es, i);
    }
    forall p | p in Computed(c, es)
      ensures exists e :: e in es && Counted(e) && e.name == p && Computed(c, es)[p] == RecordOf(c, e)
    {
      var i := ComputedFrom(c, es, p);
      assert es[i] in es;
    }
  }

  /** Records that answer for every computed entry once. */
  ghost predicate Matches(records: seq<Record>, computed: map<string, Record>) {
    && (forall i, j :: 0 <= i < j < |records| ==> records[i].path != records[j].path)
    && (forall r :: r in records ==> r.path in computed && computed[r.path].size == r.size && computed[r.path].checksum == r.checksum)
    && (forall p :: p in computed ==> exists r :: r in records && r.path == p)
  }

  lemma MatchesIsBijection(c: Codec, records: seq<Record>, es: seq<Entry>)
    requires NamesDistinct(es)
    ensures Matches(records, Computed(c, es)) <==> Bijection(c, records, es)
  {
    var computed := Computed(c, es);
    ComputedMeaning(c, es);
    if Matches(records, computed) {
      forall r | r in records ensures exists e :: e in es && Counted(e) && RecordOf(c, e) == r {
        assert r.path in computed;
        var e :| e in es && Counted(e) && e.name == r.path && computed[r.path] == RecordOf(c, e);
      }
      forall e | e in es && Counted(e) ensures RecordOf(c, e) in records {
        assert e.name in computed;
        var r :| r in records && r.path == e.name;
        assert r == RecordOf(c, e);
      }
    }
  }

  lemma {:induction false} DistinctPaths(records: seq<Record>)
    requires forall i, j :: 0 <= i < j < |records| ==> records[i].path != records[j].path
    ensures |set r | r in records :: r.path| == |records|
  {
    if records == [] {
      assert (set r | r in records :: r.path) == {};
    } else {
      var n := |records| - 1;
      var before := records[..n];
      DistinctPaths(before);
      assert records[n].path !in (set r | r in before :: r.path);
      assert records == before + [records[n]];
      assert (set r | r in records :: r.path) == (set r | r in before :: r.path) + {records[n].path};
    }
  }

  lemma MatchesCount(records: seq<Record>, computed: map<string, Record>)
    requires Matches(records, computed)
    ensures |records| == |computed|
  {
    DistinctPaths(records);
    assert (set r | r in records :: r.path) == computed.Keys;
  }

  predicate Answers(r: Record, computed: map<string, Record>) {
    r.path in computed && computed[r.path].size == r.size && computed[r.path].checksum == r.checksum
  }

  /** The first i records each answered for an entry of their own; `left` are the entries still to be answered for. */
  ghost predicate Answered(records: seq<Record>, i: nat, computed: map<string, Record>, left: map<string, Record>)
    requires i <= |records|
  {
    && |left| == |computed| - i
    && (forall j, k :: 0 <= j < k < i ==> records[j].path != records[k].path)
    && (forall j :: 0 <= j < i ==> Answers(records[j], computed))
    && (forall p :: p in left <==> p in computed && forall j :: 0 <= j < i ==> records[j].path != p)
    && (forall p :: p in left ==> left[p] == computed[p])
  }

  lemma AnswerOne(records: seq<Record>, i: nat, computed: map<string, Record>, left: map<string, Record>)
    requires i < |records| && Answered(records, i, computed, left)
    ensures if Answers(records[i], left) then Answered(records, i + 1, computed, left - {records[i].path})
            else !Matches(records, computed)
  {
    var p := records[i].path;
    assert records[i] in records;
    if p in left {
      assert (left - {p}).Keys == left.Keys - {p};
    }
  }

  lemma AllAnswered(records: seq<Record>, computed: map<string, Record>, left: map<string, Record>)
    requires Answered(records, |records|, computed, left) && |records| == |computed|
    ensures Matches(records, computed)
  {
    assert left == map[];
    forall p | p in computed ensures exists r :: r in records && r.path == p {
      assert p !in left;
      var j :| 0 <= j < |records| && records[j].path == p;
      assert records[j] in records;
    }
  }

  /** The count test and the look-up-and-delete loop together decide the bijection. */
  method CheckRecords(records: seq<Record>, computed: map<string, Record>) returns (ok: bool)
    ensures ok <==> Matches(records, computed)
  {
    if |records| != |computed| {
      if Matches(records, computed) {
        MatchesCount(records, computed);
      }
      return false;
    }
    var left := computed;
    for i := 0 to |records|
      invariant Answered(records, i, computed, left)
    {
      var r := records[i];
      AnswerOne(records, i, computed, left);
      if r.path !in left || left[r.path].size != r.size || left[r.path].checksum != r.checksum {
        return false;
      }
      left := left - {r.path};
    }
    AllAnswered(records, computed, left);
    return true;
  }

  /** What the reader knows after a prefix of the members. */
  datatype Scan = Scan(seen: set<string>, files: bool, dumps: bool, metadata: bool, manifest: Option<Manifest>,
                       computed: map<string, Record>)

  ghost predicate Scanned(c: Codec, es: seq<Entry>, s: Scan) {
    && (forall e :: e in es ==> EntrySafe(e))
    && NamesDistinct(es)
    && SeenAre(es, s.seen)
    && s.files == HasFiles(es) && s.dumps == HasDumps(es) && s.metadata == HasMetadata(es)
    && s.computed == Computed(c, es)
    && ("manifest.json" in s.seen <==> s.manifest.Some?)
    && (s.manifest.Some? ==> ManifestRead(c, es, s.manifest.value))
  }

  predicate BadManifest(c: Codec, e: Entry) {
    e.name == "manifest.json" && (|Content(e)| > MAX_MANIFEST || c.decode(Content(e)).None?)
  }

  function ScanOne(c: Codec, s: Scan, e: Entry): Scan
    requires !BadManifest(c, e)
  {
    Scan(s.seen + {e.name}, s.files || IsFile(e), s.dumps || IsDump(e), s.metadata || IsMetadata(e),
         if e.name == "manifest.json" then c.decode(Content(e)) else s.manifest,
         if Counted(e) then s.computed[e.name := RecordOf(c, e)] else s.computed)
  }

  lemma ScanFlags(es: seq<Entry>, e: Entry)
    ensures HasFiles(es + [e]) == (HasFiles(es) || IsFile(e))
    ensures HasDumps(es + [e]) == (HasDumps(es) || IsDump(e))
    ensures HasMetadata(es + [e]) == (HasMetadata(es) || IsMetadata(e))
  {
    assert e in es + [e];
    assert forall x :: x in es ==> x in es + [e];
  }

  lemma ScanManifest(c: Codec, es: seq<Entry>, e: Entry, m: Manifest)
    ensures ManifestRead(c, es, m) ==> ManifestRead(c, es + [e], m)
    ensures e.name == "manifest.json" && !BadManifest(c, e) && c.decode(Content(e)) == Some(m) ==> ManifestRead(c, es + [e], m)
  {
    assert e in es + [e];
    assert forall x :: x in es ==> x in es + [e];
  }

  ghost predicate SeenAre(es: seq<Entry>, seen: set<string>) {
    forall n :: n in seen <==> exists e :: e in es && e.name == n
  }

  lemma ScanNames(es: seq<Entry>, seen: set<string>, e: Entry)
    requires SeenAre(es, seen) && NamesDistinct(es) && e.name !in seen
    ensures SeenAre(es + [e], seen + {e.name}) && NamesDistinct(es + [e])
  {
    var after := es + [e];
    assert e in after && forall x :: x in es ==> x in after;
    forall k | 0 <= k < |es| ensures es[k].name != e.name {
      assert es[k] in es;
    }
  }

  lemma ScanComputed(c: Codec, es: seq<Entry>, e: Entry)
    ensures Computed(c, es + [e]) == if Counted(e) then Computed(c, es)[e.name := RecordOf(c, e)] else Computed(c, es)
  {
    assert (es + [e])[..|es|] == es;
  }

  lemma ScanStep(c: Codec, es: seq<Entry>, s: Scan, e: Entry)
    requires Scanned(c, es, s) && EntrySafe(e) && e.name !in s.seen && !BadManifest(c, e)
    ensures Scanned(c, es + [e], ScanOne(c, s, e))
  {
    ScanFlags(es, e);
    ScanNames(es, s.seen, e);
    ScanComputed(c, es, e);
    var t := ScanOne(c, s, e);
    if t.manifest.Some? {
      ScanManifest(c, es, e, t.manifest.value);
    }
  }

  lemma ScanRefuses(c: Codec, es: seq<Entry>, i: nat, s: Scan)
    requires i < |es| && Scanned(c, es[..i], s)
    requires !EntrySafe(es[i]) || es[i].name in s.seen || BadManifest(c, es[i])
    ensures forall m, account :: !Readable(c, es, account, m)
  {
    assert es[i] in es;
    if es[i].name in s.seen {
      SeenTwice(es, i);
    } else if BadManifest(c, es[i]) {
      forall m | NamesDistinct(es) ensures !ManifestRead(c, es, m) {
        OnlyManifest(es, i);
      }
    }
  }

  lemma SeenTwice(es: seq<Entry>, i: nat)
    requires i < |es| && exists e :: e in es[..i] && e.name == es[i].name
    ensures !NamesDistinct(es)
  {
    var e :| e in es[..i] && e.name == es[i].name;
    var k :| 0 <= k < i && es[..i][k] == e;
    assert es[k].name == es[i].name;
  }

  lemma OnlyManifest(es: seq<Entry>, i: nat)
    requires i < |es| && NamesDistinct(es)
    ensures forall e :: e in es && e.name == es[i].name ==> e == es[i]
  {
    forall e | e in es && e.name == es[i].name ensures e == es[i] {
      var k :| 0 <= k < |es| && es[k] == e;
    }
  }

  /** There is one manifest to read. */
  lemma ManifestUnique(c: Codec, es: seq<Entry>, m: Manifest, n: Manifest)
    requires NamesDistinct(es) && ManifestRead(c, es, m) && ManifestRead(c, es, n)
    ensures m == n
  {
    var e :| e in es && e.name == "manifest.json" && c.decode(Content(e)) == Some(m);
    var k :| 0 <= k < |es| && es[k] == e;
    OnlyManifest(es, k);
  }

  lemma ScanVerdict(c: Codec, es: seq<Entry>, s: Scan, account: string)
    requires Scanned(c, es, s)
    ensures forall m :: Readable(c, es, account, m) <==> s.manifest == Some(m) && Identified(c, m, account)
    ensures forall m :: ScopeMatches(es, m) <==> (s.files ==> m.files) && s.dumps == m.databases && s.metadata == m.metadata
  {
    forall m ensures Readable(c, es, account, m) <==> s.manifest == Some(m) && Identified(c, m, account) {
      if ManifestRead(c, es, m) {
        assert "manifest.json" in s.seen;
        ManifestUnique(c, es, m, s.manifest.value);
      }
    }
  }

  /** The loop of inspectArchive over the members. */
  method ScanArchive(c: Codec, es: seq<Entry>) returns (r: Option<Scan>)
    ensures r.Some? ==> Scanned(c, es, r.value)
    ensures r.None? ==> forall m, account :: !Readable(c, es, account, m)
  {
    var computed: map<string, Record> := map[];
    var seen: set<string> := {};
    var hasFiles, hasDumps, hasMetadata := false, false, false;
    var manifest: Option<Manifest> := None;
    for i := 0 to |es|
      invariant Scanned(c, es[..i], Scan(seen, hasFiles, hasDumps, hasMetadata, manifest, computed))
    {
      var e := es[i];
      ghost var s := Scan(seen, hasFiles, hasDumps, hasMetadata, manifest, computed);
      assert es[..i + 1] == es[..i] + [e];
      if !EntrySafe(e) || e.name in seen || BadManifest(c, e) {
        ScanRefuses(c, es, i, s);
        return None;
      }
      ScanStep(c, es[..i], s, e);
      seen := seen + {e.name};
      hasFiles := hasFiles || HasPrefix(e.name, "files/");
      hasDumps := hasDumps || (HasPrefix(e.name, "databases/") && e.kind == Regular);
      hasMetadata := hasMetadata || (e.name == "metadata.json" && e.kind == Regular);
      if e.name == "manifest.json" {
        manifest := c.decode(Content(e));
      } else if e.kind == Regular {
        computed := computed[e.name := Record(e.name, |e.data|, c.hash(e.data))];
      }
    }
    assert es[..|es|] == es;
    return Some(Scan(seen, hasFiles, hasDumps, hasMetadata, manifest, computed));
  }

  /** inspectArchive. */
  method Inspect(c: Codec, es: seq<Entry>, account: string) returns (v: Verdict)
    ensures forall m :: v == Accepted(m) <==> Accepts(c, es, account, m)
    ensures v == WrongVersion <==> exists m :: Readable(c, es, account, m) && m.version != VERSION
  {
    var scan := ScanArchive(c, es);
    if scan.None? {
      return Invalid;
    }
    var s := scan.value;
    ScanVerdict(c, es, s, account);
    if s.manifest.None? || !Identified(c, s.manifest.value, account) {
      return Invalid;
    }
    var m := s.manifest.value;
    assert Readable(c, es, account, m);
    if m.version != VERSION {
      return WrongVersion;
    }
    if (s.files && !m.files) || s.dumps != m.databases || s.metadata != m.metadata {
      return Invalid;
    }
    var ok := CheckRecords(m.entries, s.computed);
    MatchesIsBijection(c, m.entries, es);
    return if ok then Accepted(m) else Invalid;
  }
}
