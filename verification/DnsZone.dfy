/** Record rows of one zone, their normal form, the RRset rules of the store, and the merge into record sets. */
module DnsZone {
  import opened Options
  import opened Text
  import opened Quoting
  import opened DnsNames
  import Order

  datatype Kind = A | AAAA | CNAME | MX | TXT

  datatype Key = Key(name: string, kind: Kind)

  datatype Status = Pending | Active | Deleting | Error

  datatype Row = Row(id: nat, key: Key, content: string, ttl: int, priority: int, synced: Option<Key>, status: Status)

  const MIN_TTL := 60
  const MAX_TTL := 86400

  // ---- Normal form ----

  /** The library parsers of addresses and host names; each returns its canonical text. */
  datatype Parsers = Parsers(ip4: string -> Option<string>, ip6: string -> Option<string>, host: string -> Option<string>)

  predicate PlainChar(c: char) {
    c == '.' || c == ':' || LabelChar(c)
  }

  predicate PlainContent(s: string) {
    1 <= |s| <= 253 && forall i :: 0 <= i < |s| ==> PlainChar(s[i])
  }

  ghost predicate Lawful(p: Parsers) {
    forall s: string ::
      && (p.ip4(s).Some? ==> PlainContent(p.ip4(s).value))
      && (p.ip6(s).Some? ==> PlainContent(p.ip6(s).value))
      && (p.host(s).Some? ==> PlainContent(p.host(s).value))
  }

  predicate OneLine(s: string) {
    forall i :: 0 <= i < |s| ==> s[i] != 0 as char && s[i] != '\r' && s[i] != '\n'
  }

  function RecordContent(p: Parsers, kind: Kind, value: string, priority: int): Option<(string, int)> {
    var content := TrimRight(TrimLeft(value));
    match kind
    case A => if p.ip4(content).None? then None else Some((p.ip4(content).value, 0))
    case AAAA => if p.ip6(content).None? then None else Some((p.ip6(content).value, 0))
    case CNAME => if p.host(content).None? then None else Some((p.host(content).value, 0))
    case MX =>
      if p.host(content).None? || priority < 0 || priority > 65535 then None else Some((p.host(content).value, priority))
    case TXT =>
      if content == "" || |content| > 1000 || !OneLine(content) then None else Some((content, 0))
  }

  datatype Value = Value(key: Key, content: string, ttl: int, priority: int)

  function NormalizeRecord(p: Parsers, zone: string, name: string, kind: Kind, content: string, ttl: int, priority: int): Option<Value> {
    match RecordName(name, zone)
    case None => None
    case Some(full) =>
      if ttl < MIN_TTL || ttl > MAX_TTL then None
      else
        match RecordContent(p, kind, content, priority)
        case None => None
        case Some(c) => if kind == CNAME && full == zone then None else Some(Value(Key(full, kind), c.0, ttl, c.1))
  }

  /** What every stored value satisfies. */
  predicate Normal(v: Value, zone: string) {
    && AgentName(v.key.name, zone)
    && MIN_TTL <= v.ttl <= MAX_TTL
    && (if v.key.kind == TXT then 1 <= |v.content| <= 1000 && OneLine(v.content) else PlainContent(v.content))
    && (if v.key.kind == MX then 0 <= v.priority <= 65535 else v.priority == 0)
  }

  lemma NormalizedIsNormal(p: Parsers, zone: string, name: string, kind: Kind, content: string, ttl: int, priority: int)
    requires Lawful(p) && ValidZone(zone)
    requires NormalizeRecord(p, zone, name, kind, content, ttl, priority).Some?
    ensures var v := NormalizeRecord(p, zone, name, kind, content, ttl, priority).value;
      Normal(v, zone) && v.key.kind == kind && (kind == CNAME ==> v.key.name != zone)
  {
    AgentAcceptsServerName(name, zone);
  }

  function ValueOf(r: Row): Value {
    Value(r.key, r.content, r.ttl, r.priority)
  }

  // ---- Rendering ----

  /** The text a provider stores for a record. */
  function Render(v: Value): string
    requires v.priority >= 0
  {
    match v.key.kind
    case CNAME => v.content + "."
    case MX => Decimal(v.priority) + " " + v.content + "."
    case TXT => Quote(v.content)
    case _ => v.content
  }

  lemma DecimalParts(n: nat, x: string)
    ensures Split(Decimal(n) + " " + x, ' ') == [Decimal(n)] + Split(x, ' ')
  {
    SplitHead(Decimal(n), x, ' ');
    assert Decimal(n) + [' '] + x == Decimal(n) + " " + x;
  }

  lemma DecimalPrefix(m: nat, n: nat, x: string, y: string)
    requires Decimal(m) + " " + x == Decimal(n) + " " + y
    ensures m == n && x == y
  {
    DecimalParts(m, x);
    DecimalParts(n, y);
    var p, q := [Decimal(m)] + Split(x, ' '), [Decimal(n)] + Split(y, ' ');
    assert p[0] == q[0] && p[1..] == q[1..];
    ValueOfDecimal(m);
    ValueOfDecimal(n);
    JoinSplit(x, ' ');
    JoinSplit(y, ' ');
  }

  lemma CutLast(x: string, y: string, z: string)
    requires |z| == 1 && x + z == y + z
    ensures x == y
  {
    assert (x + z)[..|x|] == x && (y + z)[..|y|] == y;
  }

  /** Two normal values of one key that render alike have the same content and priority. */
  lemma RenderInjective(v: Value, w: Value, zone: string)
    requires Normal(v, zone) && Normal(w, zone) && v.key == w.key
    requires Render(v) == Render(w)
    ensures v.content == w.content && v.priority == w.priority
  {
    match v.key.kind
    case CNAME => CutLast(v.content, w.content, ".");
    case MX =>
      CutLast(Decimal(v.priority) + " " + v.content, Decimal(w.priority) + " " + w.content, ".");
      DecimalPrefix(v.priority, w.priority, v.content, w.content);
    case TXT =>
      assert Quote(v.content)[1..|Quote(v.content)| - 1] == QuoteBody(v.content);
      assert Quote(w.content)[1..|Quote(w.content)| - 1] == QuoteBody(w.content);
      UnquoteQuote(v.content);
      UnquoteQuote(w.content);
    case _ =>
  }

  // ---- The rules of the store ----

  /** RFC 2181 sections 5 and 5.2 and section 3.6.2 of RFC 1034, for two values at one name. */
  predicate Compatible(a: Value, b: Value) {
    && !(a.key.kind == b.key.kind && a.content == b.content && a.priority == b.priority)
    && a.key.kind != CNAME && b.key.kind != CNAME
    && (a.key.kind == b.key.kind ==> a.ttl == b.ttl)
  }

  ghost predicate ZoneRules(rows: seq<Row>) {
    forall i, j :: 0 <= i < j < |rows| && rows[i].key.name == rows[j].key.name ==> Compatible(ValueOf(rows[i]), ValueOf(rows[j]))
  }

  /** ensureDNSRecordAvailable: no other row at that name stands in the way. */
  ghost predicate Available(rows: seq<Row>, v: Value, exclude: Option<nat>) {
    forall i :: 0 <= i < |rows| && rows[i].key.name == v.key.name && exclude != Some(rows[i].id) ==> Compatible(ValueOf(rows[i]), v)
  }

  // ---- Merging rows into record sets ----

  datatype RecordSet = RecordSet(key: Key, ttl: int, records: seq<string>)

  predicate Live(r: Row, key: Key, skip: Option<nat>) {
    r.key == key && r.status != Deleting && skip != Some(r.id)
  }

  predicate Renderable(rows: seq<Row>) {
    forall i :: 0 <= i < |rows| ==> rows[i].priority >= 0
  }

  function Rendered(rows: seq<Row>, key: Key, skip: Option<nat>): seq<string>
    requires Renderable(rows)
  {
    if rows == [] then []
    else (if Live(rows[0], key, skip) then [Render(ValueOf(rows[0]))] else []) + Rendered(rows[1..], key, skip)
  }

  /** The TTL left by the merge loop: that of the last live row. */
  function LastTtl(rows: seq<Row>, key: Key, skip: Option<nat>): int {
    if rows == [] then 0
    else
      var n := |rows| - 1;
      if Live(rows[n], key, skip) then rows[n].ttl else LastTtl(rows[..n], key, skip)
  }

  /** The record set of a key: the live rows' common TTL and their sorted renderings. */
  function SetOf(rows: seq<Row>, key: Key, skip: Option<nat>): RecordSet
    requires Renderable(rows)
  {
    RecordSet(key, LastTtl(rows, key, skip), Order.Sort(Rendered(rows, key, skip)))
  }

  /** The keys one job patches: the last synced key when it differs, then the current key. */
  function Keys(r: Row): seq<Key> {
    if r.synced.Some? && r.synced.value != r.key then [r.synced.value, r.key] else [r.key]
  }

  function RecordSets(rows: seq<Row>, current: Row, skip: Option<nat>): (sets: seq<RecordSet>)
    requires Renderable(rows)
    ensures |sets| == |Keys(current)|
    ensures forall i :: 0 <= i < |sets| ==> sets[i] == SetOf(rows, Keys(current)[i], skip)
  {
    seq(|Keys(current)|, i requires 0 <= i < |Keys(current)| => SetOf(rows, Keys(current)[i], skip))
  }

  lemma {:induction false} RenderedConcat(a: seq<Row>, b: seq<Row>, key: Key, skip: Option<nat>)
    requires Renderable(a) && Renderable(b)
    ensures Renderable(a + b)
    ensures Rendered(a + b, key, skip) == Rendered(a, key, skip) + Rendered(b, key, skip)
  {
    if a == [] {
      assert a + b == b;
    } else {
      assert (a + b)[0] == a[0] && (a + b)[1..] == a[1..] + b;
      RenderedConcat(a[1..], b, key, skip);
      var head := if Live(a[0], key, skip) then [Render(ValueOf(a[0]))] else [];
      assert Rendered(a + b, key, skip) == head + Rendered(a[1..] + b, key, skip);
      assert Rendered(a, key, skip) == head + Rendered(a[1..], key, skip);
    }
  }

  lemma RenderedAround(rows: seq<Row>, i: nat, key: Key, skip: Option<nat>)
    requires Renderable(rows) && i < |rows|
    ensures Renderable([rows[i]]) && Renderable(rows[..i]) && Renderable(rows[i + 1..])
    ensures Rendered(rows, key, skip)
         == Rendered(rows[..i], key, skip) + Rendered([rows[i]], key, skip) + Rendered(rows[i + 1..], key, skip)
  {
    RenderedConcat(rows[..i], [rows[i]], key, skip);
    RenderedConcat(rows[..i] + [rows[i]], rows[i + 1..], key, skip);
    assert rows == rows[..i] + [rows[i]] + rows[i + 1..];
  }

  lemma RenderedWithout(rows: seq<Row>, i: nat, key: Key, skip: Option<nat>)
    requires Renderable(rows) && i < |rows|
    ensures Renderable([rows[i]]) && Renderable(rows[..i] + rows[i + 1..])
    ensures multiset(Rendered(rows, key, skip))
         == multiset(Rendered([rows[i]], key, skip)) + multiset(Rendered(rows[..i] + rows[i + 1..], key, skip))
  {
    RenderedAround(rows, i, key, skip);
    RenderedConcat(rows[..i], rows[i + 1..], key, skip);
  }

  lemma RowsWithout(xs: seq<Row>, ys: seq<Row>) returns (i: nat)
    requires xs != [] && multiset(xs) == multiset(ys)
    ensures i < |ys| && ys[i] == xs[0]
    ensures multiset(xs[1..]) == multiset(ys[..i] + ys[i + 1..])
  {
    assert xs[0] in multiset(ys);
    i :| 0 <= i < |ys| && ys[i] == xs[0];
    assert xs == [xs[0]] + xs[1..];
    assert ys == ys[..i] + [ys[i]] + ys[i + 1..];
    assert multiset(xs[1..]) == multiset(xs) - multiset{xs[0]};
    assert multiset(ys[..i] + ys[i + 1..]) == multiset(ys) - multiset{xs[0]};
  }

  lemma RenderedHead(rows: seq<Row>, key: Key, skip: Option<nat>)
    requires Renderable(rows) && rows != []
    ensures Renderable([rows[0]])
    ensures multiset(Rendered(rows, key, skip)) == multiset(Rendered([rows[0]], key, skip)) + multiset(Rendered(rows[1..], key, skip))
  {
    RenderedWithout(rows, 0, key, skip);
    assert rows[..0] + rows[1..] == rows[1..];
  }

  lemma {:induction false} RenderedPermutation(xs: seq<Row>, ys: seq<Row>, key: Key, skip: Option<nat>)
    requires Renderable(xs) && Renderable(ys) && multiset(xs) == multiset(ys)
    ensures multiset(Rendered(xs, key, skip)) == multiset(Rendered(ys, key, skip))
  {
    if xs == [] {
      assert |ys| == |multiset(ys)| == |multiset(xs)|;
    } else {
      var i := RowsWithout(xs, ys);
      RenderedHead(xs, key, skip);
      RenderedWithout(ys, i, key, skip);
      RenderedPermutation(xs[1..], ys[..i] + ys[i + 1..], key, skip);
    }
  }

  /** All live rows of the key share one TTL. */
  ghost predicate CommonTtl(rows: seq<Row>, key: Key, skip: Option<nat>, ttl: int) {
    forall r :: r in rows && Live(r, key, skip) ==> r.ttl == ttl
  }

  lemma {:induction false} LastTtlOfCommon(rows: seq<Row>, key: Key, skip: Option<nat>, ttl: int)
    requires CommonTtl(rows, key, skip, ttl)
    ensures LastTtl(rows, key, skip) == if exists r :: r in rows && Live(r, key, skip) then ttl else 0
  {
    if rows == [] {
    } else {
      var n := |rows| - 1;
      assert rows[n] in rows;
      if !Live(rows[n], key, skip) {
        LastTtlOfCommon(rows[..n], key, skip, ttl);
        forall r | r in rows && Live(r, key, skip) ensures r in rows[..n] {
          var k :| 0 <= k < |rows| && rows[k] == r;
        }
      }
    }
  }

  lemma RulesGiveCommonTtl(rows: seq<Row>, key: Key, skip: Option<nat>) returns (ttl: int)
    requires ZoneRules(rows)
    ensures CommonTtl(rows, key, skip, ttl)
    ensures (exists r :: r in rows && Live(r, key, skip)) ==> exists r :: r in rows && Live(r, key, skip) && r.ttl == ttl
  {
    if r :| r in rows && Live(r, key, skip) {
      ttl := r.ttl;
      var i :| 0 <= i < |rows| && rows[i] == r;
      forall q | q in rows && Live(q, key, skip) ensures q.ttl == ttl {
        var j :| 0 <= j < |rows| && rows[j] == q;
        assert i < j ==> Compatible(ValueOf(rows[i]), ValueOf(rows[j]));
        assert j < i ==> Compatible(ValueOf(rows[j]), ValueOf(rows[i]));
      }
    } else {
      ttl := 0;
    }
  }

  /** Under the rules of the store the merge does not depend on the order the rows are listed in. */
  lemma SetIgnoresOrder(rows: seq<Row>, listing: seq<Row>, key: Key, skip: Option<nat>)
    requires Renderable(rows) && Renderable(listing) && ZoneRules(rows)
    requires multiset(rows) == multiset(listing)
    ensures SetOf(rows, key, skip) == SetOf(listing, key, skip)
  {
    RenderedPermutation(rows, listing, key, skip);
    Order.SortCanonical(Rendered(rows, key, skip), Rendered(listing, key, skip));
    var ttl := RulesGiveCommonTtl(rows, key, skip);
    forall r ensures r in rows <==> r in listing {
      assert r in rows <==> r in multiset(rows);
      assert r in listing <==> r in multiset(listing);
    }
    LastTtlOfCommon(rows, key, skip, ttl);
    LastTtlOfCommon(listing, key, skip, ttl);
  }

  lemma {:induction false} RenderedMembers(rows: seq<Row>, key: Key, skip: Option<nat>, s: string)
    requires Renderable(rows)
    ensures s in Rendered(rows, key, skip) <==> exists r :: r in rows && Live(r, key, skip) && Render(ValueOf(r)) == s
  {
    if rows == [] {
    } else {
      RenderedMembers(rows[1..], key, skip, s);
    }
  }

  ghost predicate AllNormal(rows: seq<Row>, zone: string) {
    forall i :: 0 <= i < |rows| ==> Normal(ValueOf(rows[i]), zone)
  }

  lemma HeadRenderingIsNew(rows: seq<Row>, key: Key, skip: Option<nat>, zone: string)
    requires rows != [] && Renderable(rows) && ZoneRules(rows) && AllNormal(rows, zone) && Live(rows[0], key, skip)
    ensures Render(ValueOf(rows[0])) !in Rendered(rows[1..], key, skip)
  {
    var s := Render(ValueOf(rows[0]));
    RenderedMembers(rows[1..], key, skip, s);
    forall r | r in rows[1..] && Live(r, key, skip) ensures Render(ValueOf(r)) != s {
      var j :| 1 <= j < |rows| && rows[j] == r;
      assert Compatible(ValueOf(rows[0]), ValueOf(rows[j]));
      if Render(ValueOf(r)) == s {
        RenderInjective(ValueOf(rows[0]), ValueOf(r), zone);
      }
    }
  }

  ghost predicate Distinct(records: seq<string>) {
    forall s :: multiset(records)[s] <= 1
  }

  lemma DistinctCons(s: string, records: seq<string>)
    requires Distinct(records) && s !in records
    ensures Distinct([s] + records)
  {
    assert multiset([s] + records) == multiset{s} + multiset(records);
    assert s !in multiset(records);
  }

  /** Under the rules of the store a record set holds no record twice. */
  lemma {:induction false} RenderedDistinct(rows: seq<Row>, key: Key, skip: Option<nat>, zone: string)
    requires Renderable(rows) && ZoneRules(rows) && AllNormal(rows, zone)
    ensures Distinct(Rendered(rows, key, skip))
  {
    if rows == [] {
    } else {
      RenderedDistinct(rows[1..], key, skip, zone);
      if Live(rows[0], key, skip) {
        HeadRenderingIsNew(rows, key, skip, zone);
        DistinctCons(Render(ValueOf(rows[0])), Rendered(rows[1..], key, skip));
      }
    }
  }

  lemma {:induction false} NothingLive(rows: seq<Row>, key: Key, skip: Option<nat>)
    requires Renderable(rows) && forall r :: r in rows ==> !Live(r, key, skip)
    ensures Rendered(rows, key, skip) == []
  {
    if rows == [] {
    } else {
      NothingLive(rows[1..], key, skip);
    }
  }

  lemma SortedMembers(rows: seq<Row>, key: Key, skip: Option<nat>, s: string)
    requires Renderable(rows)
    ensures s in SetOf(rows, key, skip).records
      <==> exists r :: r in rows && Live(r, key, skip) && Render(ValueOf(r)) == s
  {
    RenderedMembers(rows, key, skip, s);
    var records := SetOf(rows, key, skip).records;
    assert s in records <==> s in multiset(records);
    assert s in Rendered(rows, key, skip) <==> s in multiset(Rendered(rows, key, skip));
  }

  /** The TTL of a record set: that of every live row, and 0 exactly when there is none. */
  lemma SetTtl(rows: seq<Row>, key: Key, skip: Option<nat>, zone: string)
    requires Renderable(rows) && ZoneRules(rows) && AllNormal(rows, zone)
    ensures var rs := SetOf(rows, key, skip);
      && (forall r :: r in rows && Live(r, key, skip) ==> r.ttl == rs.ttl)
      && (rs.ttl == 0 <==> rs.records == [])
      && (rs.records != [] ==> MIN_TTL <= rs.ttl <= MAX_TTL)
  {
    var ttl := RulesGiveCommonTtl(rows, key, skip);
    LastTtlOfCommon(rows, key, skip, ttl);
    if r :| r in rows && Live(r, key, skip) {
      SortedMembers(rows, key, skip, Render(ValueOf(r)));
      var i :| 0 <= i < |rows| && rows[i] == r;
    } else {
      NothingLive(rows, key, skip);
    }
  }

  /** What one record set says: sorted, duplicate free, exactly the live renderings, TTL 0 exactly when empty. */
  lemma SetMeaning(rows: seq<Row>, key: Key, skip: Option<nat>, zone: string)
    requires Renderable(rows) && ZoneRules(rows) && AllNormal(rows, zone)
    ensures var rs := SetOf(rows, key, skip);
      && Order.Sorted(rs.records)
      && Distinct(rs.records)
      && (forall s :: s in rs.records <==> exists r :: r in rows && Live(r, key, skip) && Render(ValueOf(r)) == s)
      && (forall r :: r in rows && Live(r, key, skip) ==> r.ttl == rs.ttl)
      && (rs.ttl == 0 <==> rs.records == [])
      && (rs.records != [] ==> MIN_TTL <= rs.ttl <= MAX_TTL)
  {
    Order.SortSorted(Rendered(rows, key, skip));
    RenderedDistinct(rows, key, skip, zone);
    forall s ensures s in SetOf(rows, key, skip).records
      <==> exists r :: r in rows && Live(r, key, skip) && Render(ValueOf(r)) == s
    {
      SortedMembers(rows, key, skip, s);
    }
    SetTtl(rows, key, skip, zone);
  }

  // ---- Agent-side acceptance ----

  predicate RecordAccepted(s: string) {
    s != "" && |s| <= 2048 && OneLine(s)
  }

  predicate ContentAccepted(s: RecordSet) {
    if s.records == [] then s.ttl == 0
    else MIN_TTL <= s.ttl <= MAX_TTL && |s.records| <= 100 && forall i :: 0 <= i < |s.records| ==> RecordAccepted(s.records[i])
  }

  predicate SetAccepted(s: RecordSet, zone: string) {
    AgentName(s.key.name, zone) && ContentAccepted(s)
  }

  predicate SetsAccepted(sets: seq<RecordSet>, zone: string) {
    && 1 <= |sets| <= 2
    && (forall i :: 0 <= i < |sets| ==> SetAccepted(sets[i], zone))
    && (forall i, j :: 0 <= i < j < |sets| ==> sets[i].key != sets[j].key)
  }

  lemma {:induction false} DecimalOneLine(n: nat)
    ensures OneLine(Decimal(n))
  {
  }

  /** A normal value renders to text the agent accepts, unless quoting makes a TXT text too long. */
  lemma RenderAccepted(v: Value, zone: string)
    requires Normal(v, zone)
    ensures RecordAccepted(Render(v)) <==> (v.key.kind == TXT ==> |QuoteBody(v.content)| <= 2046)
    ensures v.key.kind == TXT && PrintableAscii(v.content) ==> RecordAccepted(Render(v))
  {
    match v.key.kind
    case MX =>
      assert Power10(5) == 100000 by {
        assert Power10(2) == 10 * Power10(1);
        assert Power10(4) == 10 * Power10(3);
      }
      DecimalLength(v.priority, 5);
      DecimalOneLine(v.priority);
    case TXT =>
      QuoteLength(v.content);
      QuoteIsOneLine(v.content);
    case _ =>
  }

  /** Every live row of the key renders to text the agent accepts. */
  ghost predicate LiveAccepted(rows: seq<Row>, key: Key, skip: Option<nat>) {
    forall r :: r in rows && Live(r, key, skip) && r.key.kind == TXT ==> |QuoteBody(r.content)| <= 2046
  }

  lemma RecordsAcceptedExactly(rows: seq<Row>, key: Key, skip: Option<nat>, zone: string)
    requires Renderable(rows) && AllNormal(rows, zone)
    ensures (forall s :: s in SetOf(rows, key, skip).records ==> RecordAccepted(s)) <==> LiveAccepted(rows, key, skip)
  {
    forall r | r in rows && Live(r, key, skip)
      ensures Render(ValueOf(r)) in SetOf(rows, key, skip).records
      ensures RecordAccepted(Render(ValueOf(r))) <==> (r.key.kind == TXT ==> |QuoteBody(r.content)| <= 2046)
    {
      SortedMembers(rows, key, skip, Render(ValueOf(r)));
      var i :| 0 <= i < |rows| && rows[i] == r;
      RenderAccepted(ValueOf(r), zone);
    }
    forall s | s in SetOf(rows, key, skip).records
      ensures exists r :: r in rows && Live(r, key, skip) && Render(ValueOf(r)) == s
    {
      SortedMembers(rows, key, skip, s);
    }
  }

  lemma SetAcceptedExactly(rows: seq<Row>, key: Key, skip: Option<nat>, zone: string)
    requires Renderable(rows) && ZoneRules(rows) && AllNormal(rows, zone) && AgentName(key.name, zone)
    ensures SetAccepted(SetOf(rows, key, skip), zone)
      <==> |Rendered(rows, key, skip)| <= 100 && LiveAccepted(rows, key, skip)
  {
    SetTtl(rows, key, skip, zone);
    RecordsAcceptedExactly(rows, key, skip, zone);
    var records := SetOf(rows, key, skip).records;
    assert forall i :: 0 <= i < |records| ==> records[i] in records;
  }

  /** The agent accepts what a job sends exactly when each set has at most 100 rows and no TXT quotes too long. */
  lemma JobAcceptedExactly(rows: seq<Row>, current: Row, skip: Option<nat>, zone: string)
    requires Renderable(rows) && ZoneRules(rows) && AllNormal(rows, zone)
    requires forall i :: 0 <= i < |Keys(current)| ==> AgentName(Keys(current)[i].name, zone)
    ensures SetsAccepted(RecordSets(rows, current, skip), zone)
      <==> forall i :: 0 <= i < |Keys(current)| ==>
             |Rendered(rows, Keys(current)[i], skip)| <= 100 && LiveAccepted(rows, Keys(current)[i], skip)
  {
    var keys := Keys(current);
    forall i | 0 <= i < |keys|
      ensures SetAccepted(RecordSets(rows, current, skip)[i], zone)
        <==> |Rendered(rows, keys[i], skip)| <= 100 && LiveAccepted(rows, keys[i], skip)
    {
      SetAcceptedExactly(rows, keys[i], skip, zone);
    }
  }

  /** Text of 600 control characters at the zone's own name. */
  const CONTROLS: string := seq(600, i => 1 as char)

  /** A request the server accepts and stores whose record the agent refuses: 600 control characters quote to 2402. */
  lemma StoredButRefused(p: Parsers, zone: string)
    requires ValidZone(zone)
    ensures var r := NormalizeRecord(p, zone, "@", TXT, CONTROLS, MIN_TTL, 0);
      r.Some? && Normal(r.value, zone) && !RecordAccepted(Render(r.value))
  {
    assert TrimLeft(CONTROLS) == CONTROLS;
    assert TrimRight(CONTROLS) == CONTROLS;
    assert RecordName("@", zone) == Some(zone) by {
      assert TrimDot(Lower(TrimRight(TrimLeft("@")))) == "@";
    }
    AgentAcceptsServerName("@", zone);
    ControlLength(600);
    RenderAccepted(Value(Key(zone, TXT), CONTROLS, MIN_TTL, 0), zone);
  }
}
