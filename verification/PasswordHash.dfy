/** Unpadded standard base64 (sections 3.2 and 4 of RFC 4648), with the lenient reader of the Go library. */
module Base64 {
  import opened Options

  type Byte = b: int | 0 <= b < 256
  type Sextet = v: int | 0 <= v < 64

  function SextetChar(v: Sextet): char {
    if v < 26 then (v + 'A' as int) as char
    else if v < 52 then (v - 26 + 'a' as int) as char
    else if v < 62 then (v - 52 + '0' as int) as char
    else if v == 62 then '+'
    else '/'
  }

  predicate InAlphabet(c: char) {
    'A' <= c <= 'Z' || 'a' <= c <= 'z' || '0' <= c <= '9' || c == '+' || c == '/'
  }

  function CharSextet(c: char): (v: Sextet)
    requires InAlphabet(c)
    ensures SextetChar(v) == c
  {
    if 'A' <= c <= 'Z' then c as int - 'A' as int
    else if 'a' <= c <= 'z' then c as int - 'a' as int + 26
    else if '0' <= c <= '9' then c as int - '0' as int + 52
    else if c == '+' then 62
    else 63
  }

  lemma SextetRoundTrip(v: Sextet)
    ensures InAlphabet(SextetChar(v)) && CharSextet(SextetChar(v)) == v
  {
  }

  /** Three bytes as four sextets. */
  function Group(a: Byte, b: Byte, c: Byte): (s: string)
    ensures |s| == 4
  {
    FourChars(a / 4, a % 4 * 16 + b / 16, b % 16 * 4 + c / 64, c % 64)
  }

  function FourChars(w: Sextet, x: Sextet, y: Sextet, z: Sextet): (s: string)
    ensures |s| == 4
  {
    [SextetChar(w), SextetChar(x), SextetChar(y), SextetChar(z)]
  }

  function Encode(bytes: seq<Byte>): string {
    if |bytes| == 0 then ""
    else if |bytes| == 1 then
      [SextetChar(bytes[0] / 4), SextetChar(bytes[0] % 4 * 16)]
    else if |bytes| == 2 then
      [SextetChar(bytes[0] / 4), SextetChar(bytes[0] % 4 * 16 + bytes[1] / 16), SextetChar(bytes[1] % 16 * 4)]
    else
      Group(bytes[0], bytes[1], bytes[2]) + Encode(bytes[3..])
  }

  predicate AllInAlphabet(s: string) {
    forall i :: 0 <= i < |s| ==> InAlphabet(s[i])
  }

  lemma GroupInAlphabet(a: Byte, b: Byte, c: Byte)
    ensures AllInAlphabet(Group(a, b, c))
  {
    SextetRoundTrip(a / 4);
    SextetRoundTrip(a % 4 * 16 + b / 16);
    SextetRoundTrip(b % 16 * 4 + c / 64);
    SextetRoundTrip(c % 64);
  }

  lemma {:induction false} EncodeInAlphabet(bytes: seq<Byte>)
    ensures AllInAlphabet(Encode(bytes))
  {
    if |bytes| >= 3 {
      GroupInAlphabet(bytes[0], bytes[1], bytes[2]);
      EncodeInAlphabet(bytes[3..]);
    } else if |bytes| > 0 {
      SextetRoundTrip(bytes[0] / 4);
    }
  }

  lemma {:induction false} EncodeLength(bytes: seq<Byte>)
    ensures |Encode(bytes)| == (4 * |bytes| + 2) / 3
  {
    if |bytes| >= 3 {
      EncodeLength(bytes[3..]);
    }
  }

  /** The reader skips line breaks and drops the unused low bits of a short last group. */
  function Decode(s: string): Option<seq<Byte>> {
    DecodeGroups(WithoutBreaks(s))
  }

  function WithoutBreaks(s: string): string {
    if s == "" then ""
    else if s[0] == '\r' || s[0] == '\n' then WithoutBreaks(s[1..])
    else [s[0]] + WithoutBreaks(s[1..])
  }

  function DecodeGroups(s: string): Option<seq<Byte>> {
    if s == "" then Some([])
    else if |s| == 1 || !InAlphabet(s[0]) || !InAlphabet(s[1]) then None
    else
      var a, b := CharSextet(s[0]), CharSextet(s[1]);
      if |s| == 2 then Some([a * 4 + b / 16])
      else if !InAlphabet(s[2]) then None
      else
        var c := CharSextet(s[2]);
        if |s| == 3 then Some([a * 4 + b / 16, b % 16 * 16 + c / 4])
        else if !InAlphabet(s[3]) then None
        else
          var d := CharSextet(s[3]);
          match DecodeGroups(s[4..])
          case None => None
          case Some(rest) => Some([a * 4 + b / 16, b % 16 * 16 + c / 4, c % 4 * 64 + d] + rest)
  }

  lemma {:induction false} WithoutBreaksClean(s: string)
    requires forall i :: 0 <= i < |s| ==> InAlphabet(s[i])
    ensures WithoutBreaks(s) == s
  {
    if s == "" {
    } else {
      WithoutBreaksClean(s[1..]);
    }
  }

  lemma DecodeGroup(s: string, w: Sextet, x: Sextet, y: Sextet, z: Sextet)
    requires |s| >= 4 && DecodeGroups(s[4..]).Some?
    requires InAlphabet(s[0]) && InAlphabet(s[1]) && InAlphabet(s[2]) && InAlphabet(s[3])
    requires CharSextet(s[0]) == w && CharSextet(s[1]) == x && CharSextet(s[2]) == y && CharSextet(s[3]) == z
    ensures DecodeGroups(s) == Some([w * 4 + x / 16, x % 16 * 16 + y / 4, y % 4 * 64 + z] + DecodeGroups(s[4..]).value)
  {
  }

  lemma FourCharsAt(w: Sextet, x: Sextet, y: Sextet, z: Sextet, rest: string)
    ensures var s := FourChars(w, x, y, z) + rest;
      && s[4..] == rest
      && s[0] == SextetChar(w) && s[1] == SextetChar(x) && s[2] == SextetChar(y) && s[3] == SextetChar(z)
  {
  }

  lemma DecodeFour(w: Sextet, x: Sextet, y: Sextet, z: Sextet, rest: string)
    requires DecodeGroups(rest).Some?
    ensures DecodeGroups(FourChars(w, x, y, z) + rest)
         == Some([w * 4 + x / 16, x % 16 * 16 + y / 4, y % 4 * 64 + z] + DecodeGroups(rest).value)
  {
    FourCharsAt(w, x, y, z, rest);
    SextetRoundTrip(w);
    SextetRoundTrip(x);
    SextetRoundTrip(y);
    SextetRoundTrip(z);
    DecodeGroup(FourChars(w, x, y, z) + rest, w, x, y, z);
  }

  lemma DecodeThree(w: Sextet, x: Sextet, y: Sextet)
    ensures DecodeGroups([SextetChar(w), SextetChar(x), SextetChar(y)]) == Some([w * 4 + x / 16, x % 16 * 16 + y / 4])
  {
    SextetRoundTrip(w);
    SextetRoundTrip(x);
    SextetRoundTrip(y);
  }

  /** The bits of three bytes in four sextets. */
  lemma SextetsOfBytes(a: Byte, b: Byte, c: Byte)
    ensures var w, x, y, z := a / 4, a % 4 * 16 + b / 16, b % 16 * 4 + c / 64, c % 64;
      w < 64 && x < 64 && y < 64 && w * 4 + x / 16 == a && x % 16 * 16 + y / 4 == b && y % 4 * 64 + z == c
  {
  }

  lemma DecodeSextets(w: Sextet, x: Sextet, y: Sextet, z: Sextet, a: Byte, b: Byte, c: Byte, rest: string)
    requires DecodeGroups(rest).Some?
    requires w * 4 + x / 16 == a && x % 16 * 16 + y / 4 == b && y % 4 * 64 + z == c
    ensures DecodeGroups(FourChars(w, x, y, z) + rest) == Some([a, b, c] + DecodeGroups(rest).value)
  {
    DecodeFour(w, x, y, z, rest);
  }

  /** One whole group of three bytes survives, whatever follows. */
  lemma DecodeOneGroup(a: Byte, b: Byte, c: Byte, rest: string)
    requires DecodeGroups(rest).Some?
    ensures DecodeGroups(Group(a, b, c) + rest) == Some([a, b, c] + DecodeGroups(rest).value)
  {
    SextetsOfBytes(a, b, c);
    DecodeSextets(a / 4, a % 4 * 16 + b / 16, b % 16 * 4 + c / 64, c % 64, a, b, c, rest);
  }

  lemma DecodeOneByte(a: Byte)
    ensures DecodeGroups(Encode([a])) == Some([a])
  {
    SextetRoundTrip(a / 4);
    SextetRoundTrip(a % 4 * 16);
    var s := [SextetChar(a / 4), SextetChar(a % 4 * 16)];
    assert Encode([a]) == s;
  }

  lemma TwoBytesText(a: Byte, b: Byte)
    ensures Encode([a, b]) == [SextetChar(a / 4), SextetChar(a % 4 * 16 + b / 16), SextetChar(b % 16 * 4)]
  {
  }

  lemma DecodeTwoBytes(a: Byte, b: Byte)
    ensures DecodeGroups(Encode([a, b])) == Some([a, b])
  {
    SextetsOfBytes(a, b, 0);
    TwoBytesText(a, b);
    DecodeThree(a / 4, a % 4 * 16 + b / 16, b % 16 * 4);
  }

  lemma GroupThenRest(a: Byte, b: Byte, c: Byte, rest: string, tail: seq<Byte>, whole: string)
    requires whole == Group(a, b, c) + rest && DecodeGroups(rest) == Some(tail)
    ensures DecodeGroups(whole) == Some([a, b, c] + tail)
  {
    DecodeOneGroup(a, b, c, rest);
  }

  lemma EncodeMany(bytes: seq<Byte>)
    requires |bytes| >= 3
    ensures Encode(bytes) == Group(bytes[0], bytes[1], bytes[2]) + Encode(bytes[3..])
  {
  }

  lemma FirstThree(bytes: seq<Byte>)
    requires |bytes| >= 3
    ensures bytes == [bytes[0], bytes[1], bytes[2]] + bytes[3..]
  {
  }

  lemma {:induction false} DecodeGroupsEncode(bytes: seq<Byte>)
    ensures DecodeGroups(Encode(bytes)) == Some(bytes)
  {
    if |bytes| == 0 {
    } else if |bytes| == 1 {
      DecodeOneByte(bytes[0]);
      assert bytes == [bytes[0]];
    } else if |bytes| == 2 {
      DecodeTwoBytes(bytes[0], bytes[1]);
      assert bytes == [bytes[0], bytes[1]];
    } else {
      DecodeGroupsEncode(bytes[3..]);
      EncodeMany(bytes);
      FirstThree(bytes);
      GroupThenRest(bytes[0], bytes[1], bytes[2], Encode(bytes[3..]), bytes[3..], Encode(bytes));
    }
  }

  /** Reading what the writer produced gives the bytes back. */
  lemma DecodeEncode(bytes: seq<Byte>)
    ensures Decode(Encode(bytes)) == Some(bytes)
  {
    EncodeInAlphabet(bytes);
    WithoutBreaksClean(Encode(bytes));
    DecodeGroupsEncode(bytes);
  }

  /** The place of a letter in the alphabet. */
  function Place(c: char): int {
    if 'A' <= c <= 'Z' then c as int - 65
    else if 'a' <= c <= 'z' then c as int - 71
    else if '0' <= c <= '9' then c as int + 4
    else if c == '+' then 62
    else 63
  }

  lemma PlaceOf(v: Sextet)
    ensures Place(SextetChar(v)) == v
  {
  }

  function Worth(s: string): int
    requires |s| == 4
  {
    262144 * Place(s[0]) + 4096 * Place(s[1]) + 64 * Place(s[2]) + Place(s[3])
  }

  /** Three bytes are the same number in base 256 as their four letters in base 64; a short end counts zeros. */
  lemma GroupWorth(a: Byte, b: Byte, c: Byte, rest: seq<Byte>)
    ensures |Group(a, b, c)| == 4 && Worth(Group(a, b, c)) == 65536 * a + 256 * b + c
    ensures Encode([a, b, c] + rest) == Group(a, b, c) + Encode(rest)
    ensures Encode([a, b]) + "A" == Group(a, b, 0) && Encode([a]) + "AA" == Group(a, 0, 0)
  {
    PlaceOf(a / 4);
    PlaceOf(a % 4 * 16 + b / 16);
    PlaceOf(b % 16 * 4 + c / 64);
    PlaceOf(c % 64);
    assert ([a, b, c] + rest)[3..] == rest;
  }
}

/** The stored form of a password hash: its printer and its strict parser. */
module PasswordHash {
  import opened Options
  import opened Text
  import B = Base64

  const MEMORY: nat := 64 * 1024
  const TIME: nat := 3
  const THREADS: nat := 2
  const SALT_LENGTH: nat := 16
  const KEY_LENGTH: nat := 32
  const VERSION: nat := 19

  datatype Hash = Hash(memory: nat, iterations: nat, threads: nat, salt: seq<B.Byte>, key: seq<B.Byte>)

  predicate Valid(h: Hash) {
    && 1 <= h.memory <= MEMORY
    && 1 <= h.iterations <= TIME
    && 1 <= h.threads <= THREADS
    && |h.salt| == SALT_LENGTH
    && |h.key| == KEY_LENGTH
  }

  function PrintVersion(version: nat): string {
    "v=" + Decimal(version)
  }

  function PrintCosts(memory: nat, iterations: nat, threads: nat): string {
    "m=" + Decimal(memory) + ",t=" + Decimal(iterations) + ",p=" + Decimal(threads)
  }

  function Parts(h: Hash): seq<string> {
    ["", "argon2id", PrintVersion(VERSION), PrintCosts(h.memory, h.iterations, h.threads),
     B.Encode(h.salt), B.Encode(h.key)]
  }

  function Print(h: Hash): string {
    Join(Parts(h), '$')
  }

  /** The %d verb of Sscanf on an unsigned target: blanks are skipped, the value must fit the target. */
  function ScanUint(s: string, max: nat): Option<(nat, string)> {
    if s != "" && (s[0] == ' ' || s[0] == '\t') then ScanUint(s[1..], max)
    else
      var n := DigitSpan(s);
      if n == 0 || Value(s[..n]) > max then None else Some((Value(s[..n]), s[n..]))
  }

  /** A literal run of the format followed by one %d verb. */
  function ScanField(s: string, literal: string, max: nat): Option<(nat, string)> {
    if literal <= s then ScanUint(s[|literal|..], max) else None
  }

  function ScanVersion(s: string): Option<nat> {
    match ScanField(s, "v=", 0x7fff_ffff_ffff_ffff)
    case None => None
    case Some(found) => Some(found.0)
  }

  /** Text after the last verb is ignored, as Sscanf does. */
  function ScanCosts(s: string): Option<(nat, nat, nat)> {
    match ScanField(s, "m=", 0xffff_ffff)
    case None => None
    case Some(memory) =>
      match ScanField(memory.1, ",t=", 0xffff_ffff)
      case None => None
      case Some(iterations) =>
        match ScanField(iterations.1, ",p=", 0xff)
        case None => None
        case Some(threads) => Some((memory.0, iterations.0, threads.0))
  }

  function ParseBytes(s: string, length: nat): Option<seq<B.Byte>> {
    match B.Decode(s)
    case None => None
    case Some(bytes) => if |bytes| != length || B.Encode(bytes) != s then None else Some(bytes)
  }

  function Parse(encoded: string): Option<Hash> {
    if |encoded| > 128 then None
    else
      var parts := Split(encoded, '$');
      if |parts| != 6 || parts[0] != "" || parts[1] != "argon2id" then None
      else if ScanVersion(parts[2]) != Some(VERSION) then None
      else
        match ScanCosts(parts[3])
        case None => None
        case Some((memory, iterations, threads)) =>
          if memory == 0 || memory > MEMORY || iterations == 0 || iterations > TIME || threads == 0 || threads > THREADS then None
          else if parts[2] != PrintVersion(VERSION) || parts[3] != PrintCosts(memory, iterations, threads) then None
          else
            match ParseBytes(parts[4], SALT_LENGTH)
            case None => None
            case Some(salt) =>
              match ParseBytes(parts[5], KEY_LENGTH)
              case None => None
              case Some(key) => Some(Hash(memory, iterations, threads, salt, key))
  }

  lemma ScanDecimal(n: nat, rest: string, max: nat)
    requires n <= max
    requires rest == "" || !IsDigit(rest[0])
    ensures ScanUint(Decimal(n) + rest, max) == Some((n, rest))
  {
    var d := Decimal(n);
    DigitSpanOf(d, rest);
    ValueOfDecimal(n);
    assert (d + rest)[0] == d[0];
    assert (d + rest)[..|d|] == d;
    assert (d + rest)[|d|..] == rest;
  }

  lemma ScanPrintedField(literal: string, n: nat, rest: string, max: nat)
    requires n <= max
    requires rest == "" || !IsDigit(rest[0])
    ensures ScanField(literal + Decimal(n) + rest, literal, max) == Some((n, rest))
  {
    var s := literal + Decimal(n) + rest;
    assert s[|literal|..] == Decimal(n) + rest;
    ScanDecimal(n, rest, max);
  }

  lemma ScanPrintedCosts(m: nat, t: nat, p: nat)
    requires m <= 0xffff_ffff && t <= 0xffff_ffff && p <= 0xff
    ensures ScanCosts(PrintCosts(m, t, p)) == Some((m, t, p))
  {
    var threads := ",p=" + Decimal(p) + "";
    var iterations := ",t=" + Decimal(t) + threads;
    var s := "m=" + Decimal(m) + iterations;
    assert PrintCosts(m, t, p) == s;
    assert iterations[0] == ',' && threads[0] == ',';
    ScanPrintedField("m=", m, iterations, 0xffff_ffff);
    ScanPrintedField(",t=", t, threads, 0xffff_ffff);
    ScanPrintedField(",p=", p, "", 0xff);
  }

  lemma ScanPrintedVersion()
    ensures ScanVersion(PrintVersion(VERSION)) == Some(VERSION)
  {
    assert PrintVersion(VERSION) == "v=" + Decimal(VERSION) + "";
    ScanPrintedField("v=", VERSION, "", 0x7fff_ffff_ffff_ffff);
  }

  /** No part of a printed hash holds the separator. */
  lemma PartsClean(h: Hash)
    ensures forall i :: 0 <= i < 6 ==> '$' !in Parts(h)[i]
  {
    B.EncodeInAlphabet(h.salt);
    B.EncodeInAlphabet(h.key);
    assert '$' !in B.Encode(h.salt) && '$' !in B.Encode(h.key);
    assert '$' !in Decimal(h.memory) && '$' !in Decimal(h.iterations) && '$' !in Decimal(h.threads);
    assert '$' !in Decimal(VERSION);
  }

  /** A printed hash stays well under the 128-character cut-off. */
  lemma PrintLength(h: Hash)
    requires Valid(h)
    ensures |Print(h)| <= 97
  {
    assert Power10(5) == 100000 by {
      assert Power10(2) == 10 * Power10(1);
      assert Power10(4) == 10 * Power10(3);
    }
    DecimalLength(h.memory, 5);
    B.EncodeLength(h.salt);
    B.EncodeLength(h.key);
    assert |PrintCosts(h.memory, h.iterations, h.threads)| <= 15;
    assert |PrintVersion(VERSION)| <= 4;
    var p := Parts(h);
    JoinLength(p, '$');
    TotalLengthCons(p[0], p[1..]);
    TotalLengthCons(p[1], p[2..]);
    TotalLengthCons(p[2], p[3..]);
    TotalLengthCons(p[3], p[4..]);
    TotalLengthCons(p[4], p[5..]);
    TotalLengthCons(p[5], []);
    assert p == [p[0]] + p[1..] && p[1..] == [p[1]] + p[2..] && p[2..] == [p[2]] + p[3..];
    assert p[3..] == [p[3]] + p[4..] && p[4..] == [p[4]] + p[5..] && p[5..] == [p[5]] + [];
  }

  /** Parsing what the printer produced gives every field back. */
  lemma ParsePrint(h: Hash)
    requires Valid(h)
    ensures Parse(Print(h)) == Some(h)
  {
    PrintLength(h);
    PartsClean(h);
    SplitJoin(Parts(h), '$');
    ScanPrintedVersion();
    ScanPrintedCosts(h.memory, h.iterations, h.threads);
    B.DecodeEncode(h.salt);
    B.DecodeEncode(h.key);
  }

  /** Every accepted string is the printing of the in-bounds hash it parsed to. */
  lemma PrintParse(encoded: string)
    requires Parse(encoded).Some?
    ensures Valid(Parse(encoded).value)
    ensures Print(Parse(encoded).value) == encoded
  {
    var h := Parse(encoded).value;
    var parts := Split(encoded, '$');
    assert parts == Parts(h);
    JoinSplit(encoded, '$');
  }

  /** Accepted strings and in-bounds hashes are in bijection. */
  lemma AcceptedExactlyWhenPrinted(encoded: string)
    ensures Parse(encoded).Some? <==> exists h :: Valid(h) && Print(h) == encoded
    ensures forall g, h :: Valid(g) && Valid(h) && Print(g) == Print(h) ==> g == h
  {
    if Parse(encoded).Some? {
      PrintParse(encoded);
      assert Valid(Parse(encoded).value);
    }
    forall h | Valid(h) ensures Parse(Print(h)) == Some(h) {
      ParsePrint(h);
    }
  }

  lemma CleanParts(h: Hash, c: char)
    requires c == ':' || c == '\n'
    ensures forall i :: 0 <= i < 6 ==> c !in Parts(h)[i]
  {
    B.EncodeInAlphabet(h.salt);
    B.EncodeInAlphabet(h.key);
    assert c !in B.Encode(h.salt) && c !in B.Encode(h.key);
    assert c !in Decimal(h.memory) && c !in Decimal(h.iterations) && c !in Decimal(h.threads);
    assert c !in Decimal(VERSION);
  }

  /** An accepted hash holds no separator of the login database and no line break. */
  lemma AcceptedIsSafeText(encoded: string)
    requires Parse(encoded).Some?
    ensures ':' !in encoded && '\n' !in encoded
  {
    PrintParse(encoded);
    var h := Parse(encoded).value;
    CleanParts(h, ':');
    CleanParts(h, '\n');
    JoinAvoids(Parts(h), '$', ':');
    JoinAvoids(Parts(h), '$', '\n');
  }

  /** The printed form. */
  lemma PrintedForm(h: Hash)
    ensures Print(h) == "$argon2id$v=19$" + CostsForm(h.memory, h.iterations, h.threads) + "$" + B.Encode(h.salt) + "$" + B.Encode(h.key)
  {
    var costs := PrintCosts(h.memory, h.iterations, h.threads);
    VersionForm();
    SixParts("", "argon2id", "v=19", costs, B.Encode(h.salt), B.Encode(h.key));
    assert "" + "$" + "argon2id" + "$" + "v=19" + "$" == "$argon2id$v=19$";
    CostsAsForm(h.memory, h.iterations, h.threads);
  }

  function CostsForm(memory: nat, iterations: nat, threads: nat): string {
    "m=" + Decimal(memory) + ",t=" + Decimal(iterations) + ",p=" + Decimal(threads)
  }

  lemma CostsAsForm(memory: nat, iterations: nat, threads: nat)
    ensures PrintCosts(memory, iterations, threads) == CostsForm(memory, iterations, threads)
  {
  }

  lemma VersionForm()
    ensures PrintVersion(VERSION) == "v=19"
  {
    assert Decimal(1) == "1" && Decimal(19) == Decimal(1) + "9";
  }

  lemma SixParts(a: string, b: string, c: string, d: string, e: string, f: string)
    ensures Join([a, b, c, d, e, f], '$') == a + "$" + b + "$" + c + "$" + d + "$" + e + "$" + f
  {
    Dollar(e, [f]);
    Dollar(d, [e, f]);
    Dollar(c, [d, e, f]);
    Dollar(b, [c, d, e, f]);
    Dollar(a, [b, c, d, e, f]);
  }

  lemma Dollar(head: string, rest: seq<string>)
    requires rest != []
    ensures Join([head] + rest, '$') == head + "$" + Join(rest, '$')
  {
    assert ([head] + rest)[1..] == rest;
  }

  /** The bounds within which the parser takes a printed hash back. */
  lemma ParsedExactly(h: Hash)
    ensures Parse(Print(h)) == Some(h) <==>
      1 <= h.memory <= 65536 && 1 <= h.iterations <= 3 && 1 <= h.threads <= 2 && |h.salt| == 16 && |h.key| == 32
  {
    if Parse(Print(h)) == Some(h) {
      PrintParse(Print(h));
    }
    if Valid(h) {
      ParsePrint(h);
    }
  }
}
