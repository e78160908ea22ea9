/** What the FTP driver prints into the login database, and how a line reads back. */
module FtpLine {
  import opened Options
  import opened Text

  /** One virtual login as the compiled database holds it. */
  datatype Login = Login(username: string, hash: string, uid: nat, gid: nat, id: string, home: string)

  predicate IsHex(c: char) {
    '0' <= c <= '9' || 'a' <= c <= 'f'
  }

  predicate ValidId(s: string) {
    |s| == 32 && forall i :: 0 <= i < |s| ==> IsHex(s[i])
  }

  predicate UsernameStart(c: char) {
    'a' <= c <= 'z' || '0' <= c <= '9'
  }

  predicate ValidUsername(s: string) {
    && 3 <= |s| <= 32
    && UsernameStart(s[0])
    && forall i :: 0 <= i < |s| ==> UsernameStart(s[i]) || s[i] == '.' || s[i] == '_' || s[i] == '-'
  }

  function SystemUser(accountId: string): string
    requires ValidId(accountId)
  {
    "wcp_" + accountId[..12]
  }

  function HomeOf(accountId: string): string
    requires ValidId(accountId)
  {
    "/home/" + SystemUser(accountId)
  }

  predicate SafeText(s: string) {
    ':' !in s && '\n' !in s
  }

  predicate Printable(l: Login) {
    SafeText(l.username) && SafeText(l.hash) && SafeText(l.id) && SafeText(l.home)
  }

  const PREFIX := "WEBYCP-"
  const SUFFIX := "/./"

  function Fields(l: Login): (r: seq<string>)
    ensures |r| == 19
  {
    [l.username, l.hash, Decimal(l.uid), Decimal(l.gid), PREFIX + l.id, l.home + SUFFIX]
    + seq(13, i => "")
  }

  function Line(l: Login): string {
    Join(Fields(l), ':')
  }

  predicate AllDigits(s: string) {
    s != "" && forall i :: 0 <= i < |s| ==> IsDigit(s[i])
  }

  function ParseLine(line: string): Option<Login> {
    var f := Split(line, ':');
    if |f| != 19 || !AllDigits(f[2]) || !AllDigits(f[3]) || !(PREFIX <= f[4]) || |f[5]| < 3 || f[5][|f[5]| - 3..] != SUFFIX
    then None
    else Some(Login(f[0], f[1], Value(f[2]), Value(f[3]), f[4][|PREFIX|..], f[5][..|f[5]| - 3]))
  }

  lemma FieldsAvoidColon(l: Login)
    requires Printable(l)
    ensures forall i :: 0 <= i < 19 ==> ':' !in Fields(l)[i]
  {
    assert ':' !in Decimal(l.uid) && ':' !in Decimal(l.gid);
    assert ':' !in PREFIX && ':' !in SUFFIX;
  }

  lemma FieldsAvoidNewline(l: Login)
    requires Printable(l)
    ensures forall i :: 0 <= i < 19 ==> '\n' !in Fields(l)[i]
  {
    assert '\n' !in Decimal(l.uid) && '\n' !in Decimal(l.gid);
    assert '\n' !in PREFIX && '\n' !in SUFFIX;
  }

  /** Splitting a printed line at ':' gives back exactly the login that was printed. */
  lemma ParsePrintedLine(l: Login)
    requires Printable(l)
    ensures ParseLine(Line(l)) == Some(l)
    ensures Line(l) != "" && '\n' !in Line(l)
  {
    FieldsAvoidColon(l);
    FieldsAvoidNewline(l);
    SplitJoin(Fields(l), ':');
    JoinAvoids(Fields(l), ':', '\n');
    ValueOfDecimal(l.uid);
    ValueOfDecimal(l.gid);
    var f := Fields(l);
    assert f[4][|PREFIX|..] == l.id;
    assert f[5][..|f[5]| - 3] == l.home;
    JoinLength(f, ':');
  }

  /** The text handed to the compiler: the lines joined, with a final line break. */
  function DatabaseText(lines: seq<string>): string {
    Join(lines, '\n') + "\n"
  }

  /** The logins a database text accepts. */
  function DecodeText(text: string): set<Login> {
    set line | line in Split(text, '\n') && ParseLine(line).Some? :: ParseLine(line).value
  }

  lemma {:induction false} SplitDatabaseText(lines: seq<string>)
    requires forall i :: 0 <= i < |lines| ==> '\n' !in lines[i]
    ensures Split(DatabaseText(lines), '\n') == (if lines == [] then [""] else lines) + [""]
  {
    if lines == [] {
      assert DatabaseText(lines) == "" + ['\n'] + "";
      SplitHead("", "", '\n');
    } else if |lines| == 1 {
      assert DatabaseText(lines) == lines[0] + ['\n'] + "";
      SplitHead(lines[0], "", '\n');
    } else {
      SplitDatabaseText(lines[1..]);
      assert DatabaseText(lines) == lines[0] + ['\n'] + DatabaseText(lines[1..]);
      SplitHead(lines[0], DatabaseText(lines[1..]), '\n');
      assert [lines[0]] + (lines[1..] + [""]) == lines + [""];
    }
  }

  /** Each line is the line of one of the logins. */
  ghost predicate LinesOf(lines: seq<string>, logins: set<Login>) {
    && (forall l :: l in logins ==> Printable(l))
    && (forall line :: line in lines ==> exists l :: l in logins && line == Line(l))
    && (forall l :: l in logins ==> Line(l) in lines)
  }

  /** A database text decodes to exactly the logins whose lines it was built from. */
  lemma DecodePrintedText(lines: seq<string>, logins: set<Login>)
    requires LinesOf(lines, logins)
    ensures DecodeText(DatabaseText(lines)) == logins
  {
    forall line | line in lines
      ensures '\n' !in line
      ensures ParseLine(line).Some? && ParseLine(line).value in logins
    {
      var l :| l in logins && line == Line(l);
      ParsePrintedLine(l);
    }
    assert ParseLine("") == None by {
      SplitSingle("", ':');
    }
    SplitDatabaseText(lines);
    var parts := Split(DatabaseText(lines), '\n');
    assert forall p :: p in parts <==> p in lines || p == "";
    forall l | l in logins ensures l in DecodeText(DatabaseText(lines)) {
      ParsePrintedLine(l);
      assert Line(l) in parts;
    }
  }
}
