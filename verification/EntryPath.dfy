/** path.Clean on slash-separated names, and the entry names the backup reader accepts. */
module EntryPath {
  import opened Text

  function CleanParts(parts: seq<string>, stack: seq<string>, rooted: bool): seq<string>
    decreases |parts|
  {
    if parts == [] then stack
    else
      var p, rest := parts[0], parts[1..];
      if p == "" || p == "." then CleanParts(rest, stack, rooted)
      else if p != ".." then CleanParts(rest, stack + [p], rooted)
      else if stack != [] && stack[|stack| - 1] != ".." then CleanParts(rest, stack[..|stack| - 1], rooted)
      else if rooted then CleanParts(rest, stack, rooted)
      else CleanParts(rest, stack + [p], rooted)
  }

  function Clean(value: string): string {
    if value == "" then "."
    else
      var rooted := value[0] == '/';
      var body := Join(CleanParts(Split(value, '/'), [], rooted), '/');
      if rooted then "/" + body else if body == "" then "." else body
  }

  predicate HasPrefix(s: string, prefix: string) {
    |prefix| <= |s| && s[..|prefix|] == prefix
  }

  /** validEntryPath. */
  predicate ValidEntryPath(value: string) {
    value != "" && value == Clean(value) && value[0] != '/' && value != ".." && !HasPrefix(value, "../")
  }

  predicate Plain(part: string) {
    part != "" && part != "." && part != ".."
  }

  predicate PlainParts(value: string) {
    var parts := Split(value, '/');
    forall i :: 0 <= i < |parts| ==> Plain(parts[i])
  }

  /** Some number of dot-dots, then plain parts. */
  ghost predicate Shaped(stack: seq<string>) {
    && (forall i :: 0 <= i < |stack| ==> stack[i] != "" && stack[i] != "." && '/' !in stack[i])
    && (forall i, j :: 0 <= i < j < |stack| && stack[j] == ".." ==> stack[i] == "..")
  }

  lemma {:induction false} CleanShaped(parts: seq<string>, stack: seq<string>)
    requires Shaped(stack) && forall i :: 0 <= i < |parts| ==> '/' !in parts[i]
    ensures Shaped(CleanParts(parts, stack, false))
    decreases |parts|
  {
    if parts == [] {
    } else {
      var p, rest := parts[0], parts[1..];
      if p == "" || p == "." {
        CleanShaped(rest, stack);
      } else if p == ".." && stack != [] && stack[|stack| - 1] != ".." {
        CleanShaped(rest, stack[..|stack| - 1]);
      } else {
        CleanShaped(rest, stack + [p]);
      }
    }
  }

  lemma {:induction false} CleanPlain(parts: seq<string>, stack: seq<string>, rooted: bool)
    requires forall i :: 0 <= i < |parts| ==> Plain(parts[i])
    ensures CleanParts(parts, stack, rooted) == stack + parts
    decreases |parts|
  {
    if parts == [] {
    } else {
      CleanPlain(parts[1..], stack + [parts[0]], rooted);
      assert stack + [parts[0]] + parts[1..] == stack + parts;
    }
  }

  lemma DotsFirst(stack: seq<string>)
    requires stack != [] && stack[0] == ".."
    ensures Join(stack, '/') == ".." || HasPrefix(Join(stack, '/'), "../")
  {
    if |stack| > 1 {
      assert Join(stack, '/')[..3] == "../";
    }
  }

  lemma ShapedWithoutDots(stack: seq<string>)
    requires Shaped(stack) && stack != []
    requires var v := Join(stack, '/'); v != ".." && !HasPrefix(v, "../")
    ensures forall i :: 0 <= i < |stack| ==> Plain(stack[i])
  {
    if stack[0] == ".." {
      DotsFirst(stack);
    }
  }

  lemma SplitStart(value: string)
    requires value != ""
    ensures value[0] == '/' ==> Split(value, '/')[0] == ""
    ensures HasPrefix(value, "../") ==> Split(value, '/')[0] == ".."
  {
    if HasPrefix(value, "../") {
      SplitHead("..", value[3..], '/');
      assert value == ".." + ['/'] + value[3..];
    }
  }

  /** The accepted names are "." and the names whose parts are all plain. */
  lemma ValidEntryPathExactly(value: string)
    ensures ValidEntryPath(value) <==> value == "." || PlainParts(value)
  {
    var parts := Split(value, '/');
    if value == "" || value == "." {
      SplitSingle(".", '/');
    } else if value == ".." {
      SplitSingle("..", '/');
      assert !Plain(Split(value, '/')[0]);
    } else {
      SplitStart(value);
      JoinSplit(value, '/');
      if PlainParts(value) {
        CleanPlain(parts, [], false);
        assert [] + parts == parts;
      } else if ValidEntryPath(value) {
        var stack := CleanParts(parts, [], false);
        CleanShaped(parts, []);
        assert value == Join(stack, '/');
        SplitJoin(stack, '/');
        ShapedWithoutDots(stack);
        assert false;
      }
    }
  }

  lemma PlainNameValid(value: string, parts: seq<string>)
    requires Split(value, '/') == parts && forall i :: 0 <= i < |parts| ==> Plain(parts[i])
    ensures ValidEntryPath(value)
  {
    ValidEntryPathExactly(value);
  }

  lemma SinglePlainValid(value: string)
    requires Plain(value) && '/' !in value
    ensures ValidEntryPath(value)
  {
    SplitSingle(value, '/');
    PlainNameValid(value, [value]);
  }

  lemma OtherFirstLetter(s: string, prefix: string)
    requires s != "" && prefix != "" && s[0] != prefix[0]
    ensures !HasPrefix(s, prefix)
  {
  }
}
