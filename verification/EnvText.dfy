/**
  The env file as text (internal/keyring/env.go): its lines, and what each of them assigns. A text is a
  sequence of characters; the file is parsed, never expanded.
*/
module EnvText {
  import opened Wrappers

  // The characters strings.TrimSpace removes.
  predicate Space(c: char) {
    var n := c as int;
    0x09 <= n <= 0x0d || n == 0x20 || n == 0x85 || n == 0xa0 || n == 0x1680 || 0x2000 <= n <= 0x200a
    || n == 0x2028 || n == 0x2029 || n == 0x202f || n == 0x205f || n == 0x3000
  }

  function TrimLeft(s: string): (t: string)
    ensures |t| <= |s| && (t != [] ==> !Space(t[0]))
  {
    if s != [] && Space(s[0]) then TrimLeft(s[1..]) else s
  }

  function TrimRight(s: string): (t: string)
    ensures t <= s && (t != [] ==> !Space(t[|t| - 1]))
  {
    if s != [] && Space(s[|s| - 1]) then TrimRight(s[..|s| - 1]) else s
  }

  function TrimSpace(s: string): string { TrimRight(TrimLeft(s)) }

  // strings.TrimLeft(s, " \t")
  function TrimBlanks(s: string): string {
    if s != [] && (s[0] == ' ' || s[0] == '\t') then TrimBlanks(s[1..]) else s
  }

  function IndexOf(s: string, c: char): (i: nat)
    ensures i <= |s| && (i < |s| ==> s[i] == c) && forall j :: 0 <= j < i ==> s[j] != c
  {
    if s == [] || s[0] == c then 0 else 1 + IndexOf(s[1..], c)
  }

  predicate Substitutes(v: string) {
    (exists i :: 0 <= i < |v| && v[i] == '`') || (exists i :: 0 <= i < |v| - 1 && v[i] == '$' && v[i + 1] == '(')
  }

  // Matching quotes around a value are dropped.
  function Unquote(v: string): string {
    if |v| >= 2 && v[0] == v[|v| - 1] && (v[0] == '"' || v[0] == '\'') then v[1..|v| - 1] else v
  }

  predicate NameStart(c: char) { 'a' <= c <= 'z' || 'A' <= c <= 'Z' || c == '_' }

  predicate ValidName(n: string) {
    n != [] && NameStart(n[0]) && forall i :: 1 <= i < |n| ==> NameStart(n[i]) || '0' <= n[i] <= '9'
  }

  // ---------------------------------------------------------------- lines

  function Split(text: string): (lines: seq<string>)
    ensures |lines| >= 1
  {
    if text == [] then [""]
    else
      var n, before := |text| - 1, Split(text[..|text| - 1]);
      if text[n] == '\n' then before + [""] else before[..|before| - 1] + [before[|before| - 1] + [text[n]]]
  }

  function Join(lines: seq<string>): string {
    if lines == [] then ""
    else if |lines| == 1 then lines[0]
    else Join(lines[..|lines| - 1]) + "\n" + lines[|lines| - 1]
  }

  predicate OneLine(s: string) { '\n' !in s }

  lemma {:induction false} SplitMore(text: string, s: string)
    requires OneLine(s)
    ensures var b := Split(text); Split(text + s) == b[..|b| - 1] + [b[|b| - 1] + s]
    decreases |s|
  {
    if s == [] {
      var b := Split(text);
      assert text + s == text && b[|b| - 1] + s == b[|b| - 1];
      assert b == b[..|b| - 1] + [b[|b| - 1]];
    } else {
      var n := |s| - 1;
      SplitMore(text, s[..n]);
      assert (text + s)[..|text + s| - 1] == text + s[..n];
      assert s == s[..n] + [s[n]];
      var b := Split(text);
      assert b[|b| - 1] + s == b[|b| - 1] + s[..n] + [s[n]];
    }
  }

  lemma SplitNewline(text: string)
    ensures Split(text + "\n") == Split(text) + [""]
  {
    assert (text + "\n")[..|text|] == text;
  }

  /** Splitting undoes joining. */
  lemma {:induction false} SplitJoin(lines: seq<string>)
    requires lines != [] && forall i :: 0 <= i < |lines| ==> OneLine(lines[i])
    ensures Split(Join(lines)) == lines
    decreases |lines|
  {
    var n := |lines| - 1;
    if n == 0 {
      SplitMore("", lines[0]);
      assert "" + lines[0] == lines[0];
    } else {
      SplitJoin(lines[..n]);
      SplitOneMore(Join(lines[..n]), lines[..n], lines[n]);
      assert lines == lines[..n] + [lines[n]];
    }
  }

  lemma SplitOneMore(text: string, lines: seq<string>, s: string)
    requires Split(text) == lines && OneLine(s)
    ensures Split(text + "\n" + s) == lines + [s]
  {
    SplitNewline(text);
    SplitMore(text + "\n", s);
    assert (lines + [""])[..|lines|] == lines && "" + s == s;
  }

  lemma {:induction false} SplitKeepsCharacters(text: string, i: nat)
    requires i < |Split(text)|
    ensures OneLine(Split(text)[i]) && forall c :: c in Split(text)[i] ==> c in text
    decreases |text|
  {
    if text != [] {
      var n, before := |text| - 1, Split(text[..|text| - 1]);
      assert forall c :: c in text[..n] ==> c in text;
      if i < |before| { SplitKeepsCharacters(text[..n], i); }
    }
  }

  lemma {:induction false} JoinCharacters(lines: seq<string>, c: char)
    requires c in Join(lines)
    ensures c == '\n' || exists i :: 0 <= i < |lines| && c in lines[i]
    decreases |lines|
  {
    if |lines| > 1 {
      var n := |lines| - 1;
      if c in Join(lines[..n]) {
        JoinCharacters(lines[..n], c);
      } else {
        assert c == '\n' || c in lines[n];
      }
    }
  }

  // ---------------------------------------------------------------- reading

  datatype LineError = NotAssignment | BadName | Substitution

  datatype Line = Blank | Bad(error: LineError) | Assign(name: string, value: string)

  predicate StartsWith(s: string, p: string) { |p| <= |s| && forall i :: 0 <= i < |p| ==> s[i] == p[i] }

  function Body(line: string): string { if StartsWith(line, "export ") then TrimBlanks(line[7..]) else line }

  function ReadLine(raw: string): Line {
    var line := TrimSpace(raw);
    if line == "" || StartsWith(line, "#") then Blank
    else
      var body := Body(line);
      var eq := IndexOf(body, '=');
      if eq >= |body| then Bad(NotAssignment)
      else if !ValidName(TrimSpace(body[..eq])) then Bad(BadName)
      else
        var value := TrimSpace(body[eq + 1..]);
        if Substitutes(value) then Bad(Substitution) else Assign(TrimSpace(body[..eq]), Unquote(value))
  }

  type Values = map<string, string>

  datatype EnvError = Characters | AtLine(n: nat, error: LineError)

  // The first bad line is reported; a later assignment to a name replaces an earlier one.
  function ReadLines(lines: seq<string>): Result<Values, EnvError> {
    if lines == [] then Ok(map[])
    else
      var n := |lines| - 1;
      match ReadLines(lines[..n])
      case Err(e) => Err(e)
      case Ok(m) =>
        match ReadLine(lines[n])
        case Blank => Ok(m)
        case Bad(e) => Err(AtLine(n + 1, e))
        case Assign(name, value) => Ok(m[name := value])
  }

  function Parsed(text: string): Result<Values, EnvError> {
    if '\0' in text || '\r' in text then Err(Characters) else ReadLines(Split(text))
  }

  lemma {:induction false} ErrorStays(lines: seq<string>, k: nat)
    requires k <= |lines| && ReadLines(lines[..k]).Err?
    ensures ReadLines(lines) == ReadLines(lines[..k])
    decreases |lines|
  {
    if k < |lines| {
      var n := |lines| - 1;
      assert lines[..n][..k] == lines[..k];
      ErrorStays(lines[..n], k);
    } else {
      assert lines[..k] == lines;
    }
  }

  /** ParseEnvText, line by line. */
  method ParseEnvText(text: string) returns (r: Result<Values, EnvError>)
    ensures r == Parsed(text)
  {
    if '\0' in text || '\r' in text { return Err(Characters); }
    var values: Values := map[];
    var lines := Split(text);
    for i := 0 to |lines|
      invariant ReadLines(lines[..i]) == Ok(values)
    {
      assert lines[..i + 1][..i] == lines[..i];
      match ReadLine(lines[i])
      case Blank =>
      case Bad(e) =>
        ErrorStays(lines, i + 1);
        return Err(AtLine(i + 1, e));
      case Assign(name, value) =>
        values := values[name := value];
    }
    assert lines[..|lines|] == lines;
    r := Ok(values);
  }

  // ---------------------------------------------------------------- reading a written line

  lemma {:induction false} TrimRightAfter(s: string, v: string)
    requires s != [] && !Space(s[|s| - 1])
    ensures TrimRight(s + v) == s + TrimRight(v)
    decreases |v|
  {
    if v == [] {
      assert s + v == s;
    } else if Space(v[|v| - 1]) {
      TrimRightAfter(s, v[..|v| - 1]);
      assert (s + v)[..|s + v| - 1] == s + v[..|v| - 1];
    }
  }

  // Trimming the right end first does not matter.
  lemma {:induction false} TrimTwice(v: string)
    ensures TrimSpace(TrimRight(v)) == TrimSpace(v)
    decreases |v|
  {
    var w := TrimRight(v);
    if w == [] {
      AllSpaceTrims(v);
    } else if Space(v[0]) {
      TrimTwice(v[1..]);
      TrimRightTail(v);
    } else {
      assert w[0] == v[0];
      TrimRightAgain(v);
    }
  }

  lemma {:induction false} TrimRightAgain(v: string)
    ensures TrimRight(TrimRight(v)) == TrimRight(v)
    decreases |v|
  {
    if v != [] && Space(v[|v| - 1]) { TrimRightAgain(v[..|v| - 1]); }
  }

  lemma {:induction false} TrimRightTail(v: string)
    requires v != [] && TrimRight(v) != [] && Space(v[0])
    ensures TrimRight(v)[1..] == TrimRight(v[1..])
    decreases |v|
  {
    if Space(v[|v| - 1]) {
      TrimRightTail(v[..|v| - 1]);
      assert v[..|v| - 1][1..] == v[1..][..|v| - 2];
    }
  }

  lemma {:induction false} AllSpaceTrims(v: string)
    requires TrimRight(v) == []
    ensures TrimSpace(v) == []
    decreases |v|
  {
    if v != [] {
      AllSpace(v);
      NoneLeft(v);
    }
  }

  lemma {:induction false} AllSpace(v: string)
    requires TrimRight(v) == []
    ensures forall i :: 0 <= i < |v| ==> Space(v[i])
    decreases |v|
  {
    if v != [] { AllSpace(v[..|v| - 1]); }
  }

  lemma {:induction false} NoneLeft(v: string)
    requires forall i :: 0 <= i < |v| ==> Space(v[i])
    ensures TrimLeft(v) == []
    decreases |v|
  {
    if v != [] { NoneLeft(v[1..]); }
  }

  predicate NoSpace(s: string) { forall i :: 0 <= i < |s| ==> !Space(s[i]) }

  lemma NameHasNoSpace(n: string)
    requires ValidName(n)
    ensures NoSpace(n) && '=' !in n && TrimSpace(n) == n
  {
  }

  lemma IndexAfter(n: string, rest: string)
    requires '=' !in n
    ensures IndexOf(n + "=" + rest, '=') == |n|
  {
    var s := n + "=" + rest;
    assert s[|n|] == '=';
    assert forall i :: 0 <= i < |n| ==> s[i] == n[i];
  }

  lemma NotExport(n: string, rest: string)
    requires ValidName(n)
    ensures !StartsWith(n + "=" + rest, "export ") && !StartsWith(n + "=" + rest, "#")
  {
    var s := n + "=" + rest;
    assert s[0] == n[0];
    var k, p := if |n| > 6 then 6 else |n|, "export ";
    assert |n| > 6 ==> s[6] == n[6];
    assert s[|n|] == '=';
    assert s[k] != p[k];
  }

  lemma SubstitutesPart(v: string, a: nat, e: nat)
    requires a <= e <= |v| && Substitutes(v[a..e])
    ensures Substitutes(v)
  {
    var w := v[a..e];
    if i :| 0 <= i < |w| && w[i] == '`' { assert v[a + i] == '`'; }
    else {
      var i :| 0 <= i < |w| - 1 && w[i] == '$' && w[i + 1] == '(';
      assert v[a + i] == '$' && v[a + i + 1] == '(';
    }
  }

  lemma {:induction false} TrimLeftIsTail(v: string) returns (a: nat)
    ensures a <= |v| && TrimLeft(v) == v[a..]
    decreases |v|
  {
    a := 0;
    if v != [] && Space(v[0]) {
      a := TrimLeftIsTail(v[1..]);
      a := a + 1;
    }
  }

  lemma TrimWritten(name: string, v: string)
    requires ValidName(name)
    ensures TrimSpace(name + "=" + v) == name + "=" + TrimRight(v)
  {
    assert (name + "=" + v)[0] == name[0];
    TrimRightAfter(name + "=", v);
  }

  lemma SubstitutesTrimmed(v: string)
    requires Substitutes(TrimSpace(v))
    ensures Substitutes(v)
  {
    var a := TrimLeftIsTail(v);
    var value := TrimSpace(v);
    assert value == v[a..a + |value|];
    SubstitutesPart(v, a, a + |value|);
  }

  lemma ReadTrimmed(raw: string, line: string, name: string, value: string)
    requires TrimSpace(raw) == line && line != "" && !StartsWith(line, "export ") && !StartsWith(line, "#")
    requires IndexOf(line, '=') == |name| < |line| && line[..|name|] == name
    requires TrimSpace(name) == name && ValidName(name) && TrimSpace(line[|name| + 1..]) == value && !Substitutes(value)
    ensures ReadLine(raw) == Assign(name, Unquote(value))
  {
  }

  // What the trimmed line of a written assignment looks like.
  lemma WrittenParts(name: string, w: string)
    requires ValidName(name)
    ensures var line := name + "=" + w;
      && line != "" && !StartsWith(line, "export ") && !StartsWith(line, "#")
      && IndexOf(line, '=') == |name| < |line| && line[..|name|] == name && line[|name| + 1..] == w
      && TrimSpace(name) == name
  {
    NotExport(name, w);
    NameHasNoSpace(name);
    IndexAfter(name, w);
  }

  lemma TrimmedValue(v: string)
    requires !Substitutes(v)
    ensures TrimSpace(TrimRight(v)) == TrimSpace(v) && !Substitutes(TrimSpace(v))
  {
    TrimTwice(v);
    if Substitutes(TrimSpace(v)) { SubstitutesTrimmed(v); }
  }

  /** A written assignment is read back as the trimmed and unquoted value. */
  lemma WrittenLine(name: string, v: string)
    requires ValidName(name) && !Substitutes(v)
    ensures ReadLine(name + "=" + v) == Assign(name, Unquote(TrimSpace(v)))
  {
    var w := TrimRight(v);
    TrimWritten(name, v);
    WrittenParts(name, w);
    TrimmedValue(v);
    ReadTrimmed(name + "=" + v, name + "=" + w, name, TrimSpace(v));
  }

  // ---------------------------------------------------------------- what trimming and unquoting do

  lemma {:induction false} LeftSpaces(s: string) returns (a: nat)
    ensures a <= |s| && TrimLeft(s) == s[a..] && forall i :: 0 <= i < a ==> Space(s[i])
    decreases |s|
  {
    a := 0;
    if s != [] && Space(s[0]) {
      a := LeftSpaces(s[1..]);
      a := a + 1;
    }
  }

  lemma {:induction false} RightSpaces(s: string)
    ensures forall i :: |TrimRight(s)| <= i < |s| ==> Space(s[i])
    decreases |s|
  {
    if s != [] && Space(s[|s| - 1]) { RightSpaces(s[..|s| - 1]); }
  }

  /** Trimming takes the spaces off both ends, and nothing else. */
  lemma TrimIs(s: string) returns (a: nat, e: nat)
    ensures a <= e <= |s| && TrimSpace(s) == s[a..e]
    ensures (forall i :: 0 <= i < a ==> Space(s[i])) && forall i :: e <= i < |s| ==> Space(s[i])
    ensures a < e ==> !Space(s[a]) && !Space(s[e - 1])
  {
    a := LeftSpaces(s);
    var t := TrimLeft(s);
    RightSpaces(t);
    e := a + |TrimRight(t)|;
    forall i | e <= i < |s| ensures Space(s[i]) { assert s[i] == t[i - a]; }
  }

  /** One pair of equal quotes around a value is taken off; a value without one stays as it is. */
  lemma UnquoteIs(q: char, v: string)
    ensures q == '"' || q == '\'' ==> Unquote([q] + v + [q]) == v
    ensures (forall c, w: string :: v == [c] + w + [c] ==> c != '"' && c != '\'') ==> Unquote(v) == v
  {
    var x := [q] + v + [q];
    assert x[1..|x| - 1] == v;
    if |v| >= 2 && v[0] == v[|v| - 1] {
      var w := v[1..|v| - 1];
      assert v == [v[0]] + w + [v[0]];
    }
  }

  ghost predicate Comment(s: string, i: nat) { i < |s| && s[i] == '#' && forall j :: 0 <= j < i ==> Space(s[j]) }

  /** A line is skipped exactly when it holds only spaces or its first other character starts a comment. */
  lemma SkippedLines(s: string)
    ensures ReadLine(s).Blank? <==> (forall i :: 0 <= i < |s| ==> Space(s[i])) || exists i: nat :: Comment(s, i)
  {
    var a, e := TrimIs(s);
    var line := TrimSpace(s);
    if a < e {
      assert line[0] == s[a];
      assert StartsWith(line, "#") <==> s[a] == '#';
      if s[a] == '#' { assert Comment(s, a); }
    } else {
      assert line == "";
    }
  }

  /** A leading export is ignored. */
  lemma ExportIgnored(name: string, v: string)
    requires ValidName(name) && !Substitutes(v)
    ensures ReadLine("export " + (name + "=" + v)) == ReadLine(name + "=" + v)
  {
    var w, e := TrimRight(v), "export ";
    var line := name + "=" + v;
    WrittenLine(name, v);
    ExportTrims(e, name, v);
    WrittenParts(name, w);
    TrimmedValue(v);
    ExportBody(e, name + "=" + w, name);
  }

  lemma ExportTrims(e: string, name: string, v: string)
    requires e == "export " && ValidName(name)
    ensures TrimSpace(e + (name + "=" + v)) == e + (name + "=" + TrimRight(v))
  {
    var s := e + name + "=";
    assert e + (name + "=" + v) == s + v && s[|s| - 1] == '=' && (s + v)[0] == 'e';
    TrimRightAfter(s, v);
    assert s + TrimRight(v) == e + (name + "=" + TrimRight(v));
  }

  lemma ExportBody(e: string, line: string, name: string)
    requires e == "export " && ValidName(name) && |line| > 0 && line[0] == name[0]
    ensures StartsWith(e + line, e) && Body(e + line) == line && !StartsWith(e + line, "#")
  {
    var x := e + line;
    assert x[7..] == line;
    assert forall i :: 0 <= i < 7 ==> x[i] == e[i];
    assert x[0] == 'e' && "#"[0] == '#';
    assert TrimBlanks(line) == line;
  }
}
