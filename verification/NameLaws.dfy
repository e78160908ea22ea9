/** What normalising a DNS record name gives, character by character, and which names are taken. */
module NameLaws {
  import opened Options
  import opened Text
  import opened DnsNames

  predicate PlainCharacter(c: char) {
    'a' <= c <= 'z' || '0' <= c <= '9' || c == '-' || c == '_'
  }

  /** An ordinary label: at most 63 letters, digits, hyphens and underscores, no hyphen at either end. */
  predicate OrdinaryLabel(part: string) {
    && 1 <= |part| <= 63 && part[0] != '-' && part[|part| - 1] != '-'
    && forall i :: 0 <= i < |part| ==> PlainCharacter(part[i])
  }

  /** Ordinary labels between single dots; the first may be the wildcard. */
  predicate OrdinaryName(name: string) {
    var labels := Split(name, '.');
    forall i :: 0 <= i < |labels| ==> OrdinaryLabel(labels[i]) || (i == 0 && labels[i] == "*")
  }

  predicate Below(name: string, zone: string) {
    |name| > |zone| && name[|name| - |zone| - 1..] == "." + zone
  }

  lemma LabelsExactly(name: string)
    ensures ValidLabels(name) <==> OrdinaryName(name)
  {
    var labels := Split(name, '.');
    forall i | 0 <= i < |labels| ensures ValidLabel(labels[i], i) <==> OrdinaryLabel(labels[i]) || (i == 0 && labels[i] == "*") {
      var part := labels[i];
      assert forall k :: 0 <= k < |part| ==> (LabelChar(part[k]) <==> PlainCharacter(part[k]));
    }
  }

  lemma BelowIsSuffix(name: string, zone: string)
    ensures Below(name, zone) <==> HasSuffix(name, "." + zone)
  {
  }

  /** The agent takes exactly the zone's own name and the ordinary names below it. */
  lemma AgentNameExactly(name: string, zone: string)
    ensures AgentName(name, zone) <==> (name == zone || Below(name, zone)) && OrdinaryName(name)
  {
    LabelsExactly(name);
    BelowIsSuffix(name, zone);
    if ValidLabels(name) {
      ValidLabelsNormal(name);
    }
  }

  /** Whatever the server returns is such a name. */
  lemma RecordNameIsOrdinary(value: string, zone: string)
    requires ValidZone(zone) && RecordName(value, zone).Some?
    ensures var name := RecordName(value, zone).value; (name == zone || Below(name, zone)) && OrdinaryName(name)
  {
    AgentAcceptsServerName(value, zone);
    AgentNameExactly(RecordName(value, zone).value, zone);
  }

  // ---- Which name a request gets ----

  lemma NormalIsTaken(name: string, zone: string)
    requires ValidZone(zone) && OrdinaryName(name) && (name == zone || Below(name, zone))
    ensures RecordName(name, zone) == Some(name)
  {
    LabelsExactly(name);
    BelowIsSuffix(name, zone);
    ValidLabelsText(name);
    TrimNormal(name);
    LowerOfNormal(name);
    ZoneNameHasDot(name, zone);
  }

  /** A name of the zone that is written in full is taken as it is. */
  lemma FullName(name: string, zone: string)
    requires ValidZone(zone) && OrdinaryName(name) && Below(name, zone)
    ensures RecordName(name, zone) == Some(name)
  {
    NormalIsTaken(name, zone);
  }

  /** A zone's name is made of ordinary labels, two at least. */
  lemma ZoneIsOrdinary(zone: string)
    requires ValidZone(zone)
    ensures OrdinaryName(zone) && |Split(zone, '.')| >= 2
    ensures forall i :: 0 <= i < |Split(zone, '.')| ==> OrdinaryLabel(Split(zone, '.')[i])
  {
    var labels := Split(zone, '.');
    forall i | 0 <= i < |labels| ensures OrdinaryLabel(labels[i]) {
      assert ValidLabel(labels[i], 1);
      assert forall k :: 0 <= k < |labels[i]| ==> PlainCharacter(labels[i][k]);
    }
  }

  /** The zone itself, and the sign for it, give the zone. */
  lemma ApexName(zone: string)
    requires ValidZone(zone)
    ensures RecordName("@", zone) == Some(zone) && RecordName(zone, zone) == Some(zone)
  {
    ZoneIsOrdinary(zone);
    NormalIsTaken(zone, zone);
    assert TrimDot(Lower(TrimRight(TrimLeft("@")))) == "@";
  }

  lemma Completed(part: string, zone: string)
    requires ValidZone(zone) && (part == "*" || OrdinaryLabel(part))
    ensures '.' !in part
    ensures OrdinaryName(part + "." + zone) && Below(part + "." + zone, zone)
  {
    ZoneIsOrdinary(zone);
    SplitHead(part, zone, '.');
    assert part + ['.'] + zone == part + "." + zone;
  }

  /** A single label, or the wildcard, is completed by the zone. */
  lemma RelativeName(part: string, zone: string)
    requires ValidZone(zone) && (part == "*" || OrdinaryLabel(part))
    ensures RecordName(part, zone) == Some(part + "." + zone)
  {
    Completed(part, zone);
    LabelsExactly(part + "." + zone);
    assert NormalText(part);
    TrimNormal(part);
    LowerOfNormal(part);
  }

  /** Different labels give different names. */
  lemma LabelsStayApart(part: string, other: string, zone: string)
    requires ValidZone(zone) && part != other
    requires (part == "*" || OrdinaryLabel(part)) && (other == "*" || OrdinaryLabel(other))
    ensures RecordName(part, zone) != RecordName(other, zone)
  {
    RelativeName(part, zone);
    RelativeName(other, zone);
    assert (part + "." + zone)[..|part|] == part && (other + "." + zone)[..|other|] == other;
  }

  /** No blanks around it, no capitals, no final dot. */
  predicate Bare(name: string) {
    && (name != "" ==> !Blank(name[0]) && !Blank(name[|name| - 1]) && name[|name| - 1] != '.')
    && forall i :: 0 <= i < |name| ==> !('A' <= name[i] <= 'Z')
  }

  /** Of such names exactly the sign for the zone, the wildcard, the labels, and the names of the zone are taken. */
  lemma TakenExactly(name: string, zone: string)
    requires ValidZone(zone) && Bare(name)
    ensures RecordName(name, zone).Some? <==>
      name == "@" || name == "*" || OrdinaryLabel(name) || ((name == zone || Below(name, zone)) && OrdinaryName(name))
  {
    assert Lower(name) == name && TrimRight(TrimLeft(name)) == name && TrimDot(name) == name;
    LabelsExactly(name);
    BelowIsSuffix(name, zone);
    if '.' in name {
      assert !OrdinaryLabel(name);
    } else {
      NoDot(name, zone);
      BelowIsSuffix(name + "." + zone, zone);
      if name == zone || Below(name, zone) {
        ZoneNameHasDot(name, zone);
      }
    }
  }

  lemma NoDot(name: string, zone: string)
    requires ValidZone(zone) && '.' !in name
    ensures ValidLabels(name + "." + zone) <==> name == "*" || OrdinaryLabel(name)
    ensures Below(name + "." + zone, zone)
  {
    var full := name + "." + zone;
    SplitHead(name, zone, '.');
    assert name + ['.'] + zone == full;
    LabelsExactly(full);
    assert Split(full, '.')[0] == name;
    if name == "*" || OrdinaryLabel(name) {
      Completed(name, zone);
    }
  }

  // ---- What does not matter ----

  predicate Blank(c: char) {
    c == ' ' || c == '\t' || c == '\n' || c == '\r' || c == 11 as char || c == 12 as char
  }

  lemma {:induction false} TrimLeftAppend(s: string, b: char)
    requires Blank(b)
    ensures TrimLeft(s + [b]) == if TrimLeft(s) == "" then "" else TrimLeft(s) + [b]
  {
    if s == "" {
      assert (s + [b])[1..] == "";
    } else if IsBlank(s[0]) {
      assert (s + [b])[1..] == s[1..] + [b];
      TrimLeftAppend(s[1..], b);
    } else {
      assert (s + [b])[0] == s[0];
    }
  }

  lemma TrimSurrounded(value: string, b: char)
    requires Blank(b)
    ensures TrimRight(TrimLeft([b] + value)) == TrimRight(TrimLeft(value))
    ensures TrimRight(TrimLeft(value + [b])) == TrimRight(TrimLeft(value))
  {
    assert ([b] + value)[1..] == value;
    TrimLeftAppend(value, b);
    if TrimLeft(value) == "" {
    } else {
      var t := TrimLeft(value);
      assert (t + [b])[..|t + [b]| - 1] == t;
    }
  }

  /** Surrounding blanks do not matter. */
  lemma BlanksDoNotMatter(value: string, b: char, zone: string)
    requires Blank(b)
    ensures RecordName([b] + value, zone) == RecordName(value, zone)
    ensures RecordName(value + [b], zone) == RecordName(value, zone)
  {
    TrimSurrounded(value, b);
  }

  /** The same letter but for its case. */
  predicate SameLetter(c: char, d: char) {
    c == d || ('A' <= c <= 'Z' && d as int == c as int + 32) || ('A' <= d <= 'Z' && c as int == d as int + 32)
  }

  predicate SameLetters(s: string, t: string) {
    |s| == |t| && forall i :: 0 <= i < |s| ==> SameLetter(s[i], t[i])
  }

  lemma {:induction false} TrimLeftCase(s: string, t: string)
    requires SameLetters(s, t)
    ensures SameLetters(TrimLeft(s), TrimLeft(t))
  {
    if s == "" {
    } else {
      assert IsBlank(s[0]) <==> IsBlank(t[0]);
      TrimLeftCase(s[1..], t[1..]);
    }
  }

  lemma {:induction false} TrimRightCase(s: string, t: string)
    requires SameLetters(s, t)
    ensures SameLetters(TrimRight(s), TrimRight(t))
  {
    if s == "" {
    } else {
      assert IsBlank(s[|s| - 1]) <==> IsBlank(t[|t| - 1]);
      TrimRightCase(s[..|s| - 1], t[..|t| - 1]);
    }
  }

  /** Nor does case. */
  lemma CaseDoesNotMatter(value: string, other: string, zone: string)
    requires SameLetters(value, other)
    ensures RecordName(value, zone) == RecordName(other, zone)
  {
    TrimLeftCase(value, other);
    TrimRightCase(TrimLeft(value), TrimLeft(other));
    var s, t := TrimRight(TrimLeft(value)), TrimRight(TrimLeft(other));
    assert Lower(s) == Lower(t);
  }

  lemma {:induction false} TrimLeftAppendDot(s: string)
    requires s != "" && !Blank(s[|s| - 1])
    ensures TrimLeft(s) != "" && TrimLeft(s)[|TrimLeft(s)| - 1] == s[|s| - 1]
    ensures TrimLeft(s + ".") == TrimLeft(s) + "."
  {
    if IsBlank(s[0]) {
      assert (s + ".")[1..] == s[1..] + ".";
      TrimLeftAppendDot(s[1..]);
    } else {
      assert (s + ".")[0] == s[0];
    }
  }

  /** Nor does one final dot. */
  lemma FinalDotDoesNotMatter(value: string, zone: string)
    requires value != "" && !Blank(value[|value| - 1]) && value[|value| - 1] != '.'
    ensures RecordName(value + ".", zone) == RecordName(value, zone)
  {
    TrimLeftAppendDot(value);
    var t := TrimLeft(value);
    assert TrimRight(t) == t && TrimRight(t + ".") == t + ".";
    assert Lower(t + ".") == Lower(t) + ".";
    assert (Lower(t) + ".")[..|t|] == Lower(t);
    assert LowerChar(t[|t| - 1]) != '.';
    assert TrimDot(Lower(t)) == Lower(t);
  }
}
