/** strconv.Quote on ASCII text, and the reader that undoes it. */
module Quoting {
  import opened Options

  predicate PrintableAscii(s: string) {
    forall i :: 0 <= i < |s| ==> ' ' <= s[i] <= '~'
  }

  function HexDigit(v: nat): char
    requires v < 16
  {
    if v < 10 then (v + '0' as int) as char else (v - 10 + 'a' as int) as char
  }

  function HexValue(c: char): Option<nat> {
    if '0' <= c <= '9' then Some(c as int - '0' as int)
    else if 'a' <= c <= 'f' then Some(c as int - 'a' as int + 10)
    else None
  }

  /** The short escape of a control character, when it has one. */
  function ShortEscape(c: char): Option<char> {
    if c == 7 as char then Some('a')
    else if c == 8 as char then Some('b')
    else if c == '\t' then Some('t')
    else if c == '\n' then Some('n')
    else if c == 11 as char then Some('v')
    else if c == 12 as char then Some('f')
    else if c == '\r' then Some('r')
    else None
  }

  function QuoteChar(c: char): (s: string)
    ensures 1 <= |s| <= 4
    ensures ' ' <= c <= '~' ==> |s| <= 2
  {
    if c == '"' || c == '\\' then ['\\', c]
    else if c >= 128 as char || ' ' <= c <= '~' then [c]
    else if ShortEscape(c).Some? then ['\\', ShortEscape(c).value]
    else ['\\', 'x', HexDigit(c as int / 16), HexDigit(c as int % 16)]
  }

  function QuoteBody(s: string): string {
    if s == "" then "" else QuoteChar(s[0]) + QuoteBody(s[1..])
  }

  function Quote(s: string): string {
    "\"" + QuoteBody(s) + "\""
  }

  function UnquoteBody(s: string): Option<string> {
    if s == "" then Some("")
    else if s[0] != '\\' then Prepend(s[0], UnquoteBody(s[1..]))
    else if |s| < 2 then None
    else if s[1] == '"' || s[1] == '\\' then Prepend(s[1], UnquoteBody(s[2..]))
    else if s[1] == 'a' then Prepend(7 as char, UnquoteBody(s[2..]))
    else if s[1] == 'b' then Prepend(8 as char, UnquoteBody(s[2..]))
    else if s[1] == 't' then Prepend('\t', UnquoteBody(s[2..]))
    else if s[1] == 'n' then Prepend('\n', UnquoteBody(s[2..]))
    else if s[1] == 'v' then Prepend(11 as char, UnquoteBody(s[2..]))
    else if s[1] == 'f' then Prepend(12 as char, UnquoteBody(s[2..]))
    else if s[1] == 'r' then Prepend('\r', UnquoteBody(s[2..]))
    else if |s| < 4 || s[1] != 'x' || HexValue(s[2]).None? || HexValue(s[3]).None? then None
    else Prepend((16 * HexValue(s[2]).value + HexValue(s[3]).value) as char, UnquoteBody(s[4..]))
  }

  function Prepend(c: char, rest: Option<string>): Option<string> {
    if rest.None? then None else Some([c] + rest.value)
  }

  lemma UnquoteOne(c: char, rest: string)
    ensures UnquoteBody(QuoteChar(c) + rest) == Prepend(c, UnquoteBody(rest))
  {
    var s := QuoteChar(c) + rest;
    assert s[|QuoteChar(c)|..] == rest;
  }

  /** Reading a quoted text gives the text back, so quoting never merges two texts. */
  lemma {:induction false} UnquoteQuote(s: string)
    ensures UnquoteBody(QuoteBody(s)) == Some(s)
  {
    if s == "" {
    } else {
      UnquoteOne(s[0], QuoteBody(s[1..]));
      UnquoteQuote(s[1..]);
      assert [s[0]] + s[1..] == s;
    }
  }

  lemma {:induction false} QuoteLength(s: string)
    ensures |QuoteBody(s)| <= 4 * |s|
    ensures PrintableAscii(s) ==> |QuoteBody(s)| <= 2 * |s|
  {
    if s == "" {
    } else {
      QuoteLength(s[1..]);
    }
  }

  /** Quoting leaves no NUL and no line break. */
  lemma {:induction false} QuoteIsOneLine(s: string)
    ensures forall i :: 0 <= i < |QuoteBody(s)| ==> QuoteBody(s)[i] != 0 as char && QuoteBody(s)[i] != '\r' && QuoteBody(s)[i] != '\n'
  {
    if s == "" {
    } else {
      QuoteIsOneLine(s[1..]);
    }
  }

  /** The longest expansion: n bytes without a short escape quote to 4 n + 2. */
  lemma {:induction false} ControlLength(n: nat)
    ensures |QuoteBody(seq(n, i => 1 as char))| == 4 * n
  {
    if n > 0 {
      assert seq(n, i => 1 as char)[1..] == seq(n - 1, i => 1 as char);
      ControlLength(n - 1);
    }
  }
}

/** Record names and contents: the server's normal forms, and what the agent accepts. */
module DnsNames {
  import opened Options
  import opened Text

  predicate IsBlank(c: char) {
    c == ' ' || c == '\t' || c == '\n' || c == '\r' || c == 11 as char || c == 12 as char
  }

  function TrimLeft(s: string): (r: string)
    ensures r == "" || !IsBlank(r[0])
  {
    if s != "" && IsBlank(s[0]) then TrimLeft(s[1..]) else s
  }

  function TrimRight(s: string): string {
    if s != "" && IsBlank(s[|s| - 1]) then TrimRight(s[..|s| - 1]) else s
  }

  function LowerChar(c: char): char {
    if 'A' <= c <= 'Z' then (c as int + 32) as char else c
  }

  function Lower(s: string): (r: string)
    ensures |r| == |s|
    ensures forall i :: 0 <= i < |s| ==> r[i] == LowerChar(s[i])
  {
    seq(|s|, i requires 0 <= i < |s| => LowerChar(s[i]))
  }

  function TrimDot(s: string): string {
    if s != "" && s[|s| - 1] == '.' then s[..|s| - 1] else s
  }

  predicate HasSuffix(s: string, suffix: string) {
    |suffix| <= |s| && s[|s| - |suffix|..] == suffix
  }

  predicate LabelChar(c: char) {
    c == '-' || c == '_' || 'a' <= c <= 'z' || '0' <= c <= '9'
  }

  /** One label of a record name; only the first may be a wildcard. */
  predicate ValidLabel(part: string, index: nat) {
    (part == "*" && index == 0)
    || (1 <= |part| <= 63 && part[0] != '-' && part[|part| - 1] != '-'
        && forall i :: 0 <= i < |part| ==> LabelChar(part[i]))
  }

  predicate ValidLabels(name: string) {
    var labels := Split(name, '.');
    forall i :: 0 <= i < |labels| ==> ValidLabel(labels[i], i)
  }

  /** The server side: trim, lower, drop the final dot, complete a relative name, check zone and labels. */
  function RecordName(value: string, zone: string): Option<string> {
    var name := TrimDot(Lower(TrimRight(TrimLeft(value))));
    if name == "@" then Some(zone)
    else
      var full := if '.' in name then name else name + "." + zone;
      if full != zone && !HasSuffix(full, "." + zone) then None
      else if !ValidLabels(full) then None
      else Some(full)
  }

  /** The agent side: the name must already be normal, inside the zone, with valid labels. */
  predicate AgentName(value: string, zone: string) {
    value == Lower(TrimDot(value)) && (value == zone || HasSuffix(value, "." + zone)) && ValidLabels(value)
  }

  /** A zone name as validate.Domain returns it: plain lower-case labels, at least two. */
  predicate ValidZone(zone: string) {
    var labels := Split(zone, '.');
    |labels| >= 2 && forall i :: 0 <= i < |labels| ==> ValidLabel(labels[i], 1) && '_' !in labels[i]
  }

  predicate NormalText(s: string) {
    forall i :: 0 <= i < |s| ==> s[i] == '*' || s[i] == '.' || LabelChar(s[i])
  }

  lemma LowerOfNormal(s: string)
    requires NormalText(s)
    ensures Lower(s) == s
  {
    assert Lower(s) == s;
  }

  lemma {:induction false} JoinNormal(parts: seq<string>)
    requires forall i :: 0 <= i < |parts| ==> NormalText(parts[i])
    ensures NormalText(Join(parts, '.'))
  {
    if |parts| <= 1 {
    } else {
      JoinNormal(parts[1..]);
    }
  }

  lemma {:induction false} LastOfSplit(s: string, sep: char)
    ensures var parts := Split(s, sep);
      (s != "" && s[|s| - 1] == sep) ==> parts[|parts| - 1] == ""
  {
    if |s| > 1 {
      LastOfSplit(s[1..], sep);
    } else if |s| == 1 {
      assert s[1..] == "";
    }
  }

  lemma ValidLabelsText(name: string)
    requires ValidLabels(name)
    ensures NormalText(name)
    ensures name != "" && name[|name| - 1] != '.'
  {
    var labels := Split(name, '.');
    JoinSplit(name, '.');
    forall i | 0 <= i < |labels| ensures NormalText(labels[i]) {
      assert ValidLabel(labels[i], i);
    }
    JoinNormal(labels);
    LastOfSplit(name, '.');
    assert ValidLabel(labels[|labels| - 1], |labels| - 1);
  }

  /** A name with valid labels is lower case and has no final dot. */
  lemma ValidLabelsNormal(name: string)
    requires ValidLabels(name)
    ensures Lower(TrimDot(name)) == name
  {
    ValidLabelsText(name);
    LowerOfNormal(name);
  }

  /** Every name the server produces is a name the agent accepts. */
  lemma AgentAcceptsServerName(value: string, zone: string)
    requires ValidZone(zone) && RecordName(value, zone).Some?
    ensures AgentName(RecordName(value, zone).value, zone)
  {
    var name := RecordName(value, zone).value;
    var labels := Split(zone, '.');
    if name == zone {
      assert ValidLabels(zone) by {
        forall i | 0 <= i < |labels| ensures ValidLabel(labels[i], i) {
          assert ValidLabel(labels[i], 1);
        }
      }
    }
    ValidLabelsNormal(name);
  }

  lemma ZoneNameHasDot(name: string, zone: string)
    requires ValidZone(zone) && (name == zone || HasSuffix(name, "." + zone))
    ensures '.' in name
  {
    if name == zone {
      if '.' !in zone {
        SplitSingle(zone, '.');
      }
    } else {
      assert name[|name| - |zone| - 1] == ("." + zone)[0];
    }
  }

  lemma TrimNormal(name: string)
    requires name != "" && NormalText(name)
    ensures TrimRight(TrimLeft(name)) == name
  {
  }

  /** Normalising a normal name changes nothing. */
  lemma RecordNameIdempotent(value: string, zone: string)
    requires ValidZone(zone) && RecordName(value, zone).Some?
    ensures RecordName(RecordName(value, zone).value, zone) == RecordName(value, zone)
  {
    AgentAcceptsServerName(value, zone);
    var name := RecordName(value, zone).value;
    ValidLabelsText(name);
    TrimNormal(name);
    LowerOfNormal(name);
    ZoneNameHasDot(name, zone);
  }
}
