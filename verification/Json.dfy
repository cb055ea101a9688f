/**
  The order-preserving JSON tree (internal/contract/jsonparse.go): the compact printer, and a reader
  that follows RFC 8259 (sections 4, 6 and 7) with the limits of parseJSON. Text is a sequence of
  Unicode scalar values. Printing and reading undo each other.
*/
module Json {
  import opened Wrappers
  import opened Decimal

  datatype Value =
    | Null
    | Bool(b: bool)
    | Number(lit: string)
    | Str(s: string)
    | Array(arr: seq<Value>)
    | Object(obj: seq<Member>)

  datatype Member = Member(key: string, val: Value)

  datatype Token =
    | TNull | TBool(b: bool) | TNumber(lit: string) | TStr(s: string)
    | LBracket | RBracket | LBrace | RBrace | Comma | Colon

  const MAX_JSON_DEPTH: nat := 256

  // ---------------------------------------------------------------- printing

  function HexDigit(n: nat): char
    requires n < 16
  {
    "0123456789abcdef"[n]
  }

  // One character of a string, as writeString emits it.
  function Escape(c: char): string {
    if c == '"' then "\\\""
    else if c == '\\' then "\\\\"
    else if c == '\n' then "\\n"
    else if c == '\r' then "\\r"
    else if c == '\t' then "\\t"
    else if c as int == 8 then "\\b"
    else if c as int == 12 then "\\f"
    else if c < ' ' then "\\u00" + [HexDigit(c as int / 16), HexDigit(c as int % 16)]
    else [c]
  }

  function EscapedFrom(s: string, i: nat): string
    requires i <= |s|
    decreases |s| - i
  {
    if i == |s| then "" else Escape(s[i]) + EscapedFrom(s, i + 1)
  }

  function Quoted(s: string): string { "\"" + EscapedFrom(s, 0) + "\"" }

  // The compact text of a value, members in their own order.
  function Raw(v: Value): string
    decreases v, 0
  {
    match v
    case Null => "null"
    case Bool(b) => if b then "true" else "false"
    case Number(lit) => lit
    case Str(s) => Quoted(s)
    case Array(arr) => "[" + ItemsFrom(arr, 0) + "]"
    case Object(obj) => "{" + MembersFrom(obj, 0) + "}"
  }

  function ItemsFrom(arr: seq<Value>, i: nat): string
    requires i <= |arr|
    decreases arr, |arr| - i
  {
    if i == |arr| then "" else (if i > 0 then "," else "") + Raw(arr[i]) + ItemsFrom(arr, i + 1)
  }

  function MembersFrom(obj: seq<Member>, i: nat): string
    requires i <= |obj|
    decreases obj, |obj| - i
  {
    if i == |obj| then ""
    else (if i > 0 then "," else "") + Quoted(obj[i].key) + ":" + Raw(obj[i].val) + MembersFrom(obj, i + 1)
  }

  // ---------------------------------------------------------------- tokens of a value

  function Tokens(v: Value): seq<Token>
    decreases v, 0
  {
    match v
    case Null => [TNull]
    case Bool(b) => [TBool(b)]
    case Number(lit) => [TNumber(lit)]
    case Str(s) => [TStr(s)]
    case Array(arr) => [LBracket] + ItemTokens(arr, 0) + [RBracket]
    case Object(obj) => [LBrace] + MemberTokens(obj, 0) + [RBrace]
  }

  function ItemTokens(arr: seq<Value>, i: nat): seq<Token>
    requires i <= |arr|
    decreases arr, |arr| - i
  {
    if i == |arr| then [] else (if i > 0 then [Comma] else []) + Tokens(arr[i]) + ItemTokens(arr, i + 1)
  }

  function MemberTokens(obj: seq<Member>, i: nat): seq<Token>
    requires i <= |obj|
    decreases obj, |obj| - i
  {
    if i == |obj| then []
    else (if i > 0 then [Comma] else []) + [TStr(obj[i].key), Colon] + Tokens(obj[i].val) + MemberTokens(obj, i + 1)
  }

  // ---------------------------------------------------------------- lexing (RFC 8259, sections 2, 3, 6, 7)

  // The end of the run of digits that starts at i.
  function Digits(s: string, i: nat): (j: nat)
    requires i <= |s|
    ensures i <= j <= |s|
    decreases |s| - i
  {
    if i < |s| && IsDigit(s[i]) then Digits(s, i + 1) else i
  }

  // number = [ minus ] int [ frac ] [ exp ]; the length of the number at the start of s.
  function ScanNumber(s: string): Option<nat> {
    var i0 := if s != [] && s[0] == '-' then 1 else 0;
    if i0 == |s| || !IsDigit(s[i0]) then None
    else
      var i1 := if s[i0] == '0' then i0 + 1 else Digits(s, i0);
      var i2 := ScanFraction(s, i1);
      if i2.None? then None else ScanExponent(s, i2.value)
  }

  function ScanFraction(s: string, i: nat): (r: Option<nat>)
    requires i <= |s|
    ensures r.Some? ==> i <= r.value <= |s|
  {
    if i < |s| && s[i] == '.' then
      if Digits(s, i + 1) > i + 1 then Some(Digits(s, i + 1)) else None
    else Some(i)
  }

  function ScanExponent(s: string, i: nat): (r: Option<nat>)
    requires i <= |s|
    ensures r.Some? ==> i <= r.value <= |s|
  {
    if i < |s| && (s[i] == 'e' || s[i] == 'E') then
      var j := if i + 1 < |s| && (s[i + 1] == '+' || s[i + 1] == '-') then i + 2 else i + 1;
      if Digits(s, j) > j then Some(Digits(s, j)) else None
    else Some(i)
  }

  predicate ValidNumber(lit: string) { ScanNumber(lit) == Some(|lit|) }

  function HexValue(c: char): (r: Option<nat>)
    ensures r.Some? ==> r.value < 16
  {
    if IsDigit(c) then Some(c as int - '0' as int)
    else if 'a' <= c <= 'f' then Some(c as int - 'a' as int + 10)
    else if 'A' <= c <= 'F' then Some(c as int - 'A' as int + 10)
    else None
  }

  // The four hex digits after \u at the start of s.
  function Hex4(s: string): (r: Option<nat>)
    ensures r.Some? ==> r.value < 0x10000 && |s| >= 6
  {
    if |s| < 6 || s[0] != '\\' || s[1] != 'u' then None
    else
      var a, b, c, d := HexValue(s[2]), HexValue(s[3]), HexValue(s[4]), HexValue(s[5]);
      if a.None? || b.None? || c.None? || d.None? then None
      else Some(((a.value * 16 + b.value) * 16 + c.value) * 16 + d.value)
  }

  const REPLACEMENT: char := '\U{FFFD}'

  // A \u escape: a surrogate pair is one character, a lone surrogate the replacement character.
  function Unicode(s: string): (r: Option<(char, nat)>)
    ensures r.Some? ==> 0 < r.value.1 <= |s|
  {
    var u := Hex4(s);
    if u.None? then None
    else if u.value < 0xD800 || 0xE000 <= u.value then Some((u.value as char, 6))
    else
      var l := Hex4(s[6..]);
      if u.value < 0xDC00 && l.Some? && 0xDC00 <= l.value < 0xE000
      then Some(((0x10000 + (u.value - 0xD800) * 0x400 + (l.value - 0xDC00)) as char, 12))
      else Some((REPLACEMENT, 6))
  }

  function Simple(c: char): Option<char> {
    if c == '"' || c == '\\' || c == '/' then Some(c)
    else if c == 'n' then Some('\n')
    else if c == 'r' then Some('\r')
    else if c == 't' then Some('\t')
    else if c == 'b' then Some(8 as char)
    else if c == 'f' then Some(12 as char)
    else None
  }

  // The rest of a string after its opening quote: contents and what follows the closing quote.
  function ReadString(s: string): (r: Option<(string, string)>)
    ensures r.Some? ==> |r.value.1| < |s|
    decreases |s|
  {
    if s == [] then None
    else if s[0] == '"' then Some(("", s[1..]))
    else if s[0] < ' ' then None
    else if s[0] != '\\' then Prepend(s[0], ReadString(s[1..]))
    else if |s| > 1 && Simple(s[1]).Some? then Prepend(Simple(s[1]).value, ReadString(s[2..]))
    else
      var u := Unicode(s);
      if u.None? then None else Prepend(u.value.0, ReadString(s[u.value.1..]))
  }

  function Prepend(c: char, r: Option<(string, string)>): Option<(string, string)> {
    if r.None? then None else Some(([c] + r.value.0, r.value.1))
  }

  predicate IsSpace(c: char) { c == ' ' || c == '\n' || c == '\t' || c == '\r' }

  function Punctuation(c: char): Option<Token> {
    match c
    case '[' => Some(LBracket)
    case ']' => Some(RBracket)
    case '{' => Some(LBrace)
    case '}' => Some(RBrace)
    case ',' => Some(Comma)
    case ':' => Some(Colon)
    case _ => None
  }

  function Cons(t: Token, r: Option<seq<Token>>): Option<seq<Token>> {
    if r.None? then None else Some([t] + r.value)
  }

  // All tokens of a text.
  function Lex(s: string): Option<seq<Token>>
    decreases |s|
  {
    if s == [] then Some([])
    else if IsSpace(s[0]) then Lex(s[1..])
    else if Punctuation(s[0]).Some? then Cons(Punctuation(s[0]).value, Lex(s[1..]))
    else if s[0] == '"' then
      var r := ReadString(s[1..]);
      if r.None? then None else Cons(TStr(r.value.0), Lex(r.value.1))
    else if "null" <= s then Cons(TNull, Lex(s[4..]))
    else if "true" <= s then Cons(TBool(true), Lex(s[4..]))
    else if "false" <= s then Cons(TBool(false), Lex(s[5..]))
    else
      var n := ScanNumber(s);
      if n.None? || n.value == 0 || n.value > |s| then None else Cons(TNumber(s[..n.value]), Lex(s[n.value..]))
  }

  // ---------------------------------------------------------------- reading tokens

  // A fraction or exponent makes the literal a double, which has to be finite.
  predicate IsFloatLiteral(lit: string) { '.' in lit || 'e' in lit || 'E' in lit }

  predicate AcceptsNumber(lit: string, finite: string -> bool) { IsFloatLiteral(lit) ==> finite(lit) }

  function ReadValue(toks: seq<Token>, depth: nat, max: nat, finite: string -> bool): (r: Option<(Value, seq<Token>)>)
    ensures r.Some? ==> |r.value.1| < |toks|
    decreases |toks|, 0
  {
    if toks == [] then None
    else match toks[0]
      case TNull => Some((Null, toks[1..]))
      case TBool(b) => Some((Bool(b), toks[1..]))
      case TStr(s) => Some((Str(s), toks[1..]))
      case TNumber(lit) => if AcceptsNumber(lit, finite) then Some((Number(lit), toks[1..])) else None
      case LBracket =>
        if depth >= max then None
        else
          var r := ReadItems(toks[1..], [], depth + 1, max, finite);
          if r.None? then None else Some((Array(r.value.0), r.value.1))
      case LBrace =>
        if depth >= max then None
        else
          var r := ReadMembers(toks[1..], [], depth + 1, max, finite);
          if r.None? then None else Some((Object(r.value.0), r.value.1))
      case _ => None
  }

  function ReadItems(toks: seq<Token>, acc: seq<Value>, depth: nat, max: nat,
      finite: string -> bool): (r: Option<(seq<Value>, seq<Token>)>)
    ensures r.Some? ==> |r.value.1| < |toks|
    decreases |toks|, 1
  {
    if toks == [] then None
    else if toks[0] == RBracket then Some((acc, toks[1..]))
    else if acc != [] && toks[0] != Comma then None
    else
      var r := ReadValue(if acc == [] then toks else toks[1..], depth, max, finite);
      if r.None? then None else ReadItems(r.value.1, acc + [r.value.0], depth, max, finite)
  }

  function ReadMembers(toks: seq<Token>, acc: seq<Member>, depth: nat, max: nat,
      finite: string -> bool): (r: Option<(seq<Member>, seq<Token>)>)
    ensures r.Some? ==> |r.value.1| < |toks|
    decreases |toks|, 1
  {
    if toks == [] then None
    else if toks[0] == RBrace then Some((acc, toks[1..]))
    else if acc != [] && toks[0] != Comma then None
    else
      var t := if acc == [] then toks else toks[1..];
      if |t| < 2 || !t[0].TStr? || t[1] != Colon || HasKey(acc, t[0].s) then None
      else
        var r := ReadValue(t[2..], depth, max, finite);
        if r.None? then None else ReadMembers(r.value.1, acc + [Member(t[0].s, r.value.0)], depth, max, finite)
  }

  predicate HasKey(obj: seq<Member>, key: string) { exists i :: 0 <= i < |obj| && obj[i].key == key }

  /** parseJSON: exactly one value and nothing after it. */
  function ParseJSON(body: string, max: nat, finite: string -> bool): Option<Value> {
    var toks := Lex(body);
    if toks.None? then None
    else
      var r := ReadValue(toks.value, 0, max, finite);
      if r.None? || r.value.1 != [] then None else Some(r.value.0)
  }

  // ---------------------------------------------------------------- which values can be read

  // Distinct keys, number literals of the grammar that are finite, nesting within max.
  ghost predicate Readable(v: Value, depth: nat, max: nat, finite: string -> bool)
    decreases v
  {
    match v
    case Number(lit) => ValidNumber(lit) && AcceptsNumber(lit, finite)
    case Array(arr) => depth < max && forall i :: 0 <= i < |arr| ==> Readable(arr[i], depth + 1, max, finite)
    case Object(obj) =>
      depth < max && DistinctKeys(obj) && forall i :: 0 <= i < |obj| ==> Readable(obj[i].val, depth + 1, max, finite)
    case _ => true
  }

  // Every number literal is one of the grammar: all the lexer needs.
  ghost predicate Lexable(v: Value)
    decreases v
  {
    match v
    case Number(lit) => ValidNumber(lit)
    case Array(arr) => forall i :: 0 <= i < |arr| ==> Lexable(arr[i])
    case Object(obj) => forall i :: 0 <= i < |obj| ==> Lexable(obj[i].val)
    case _ => true
  }

  lemma {:induction false} ReadableIsLexable(v: Value, depth: nat, max: nat, finite: string -> bool)
    requires Readable(v, depth, max, finite)
    ensures Lexable(v)
    decreases v
  {
    match v
    case Array(arr) =>
      forall i | 0 <= i < |arr| ensures Lexable(arr[i]) { ReadableIsLexable(arr[i], depth + 1, max, finite); }
    case Object(obj) =>
      forall i | 0 <= i < |obj| ensures Lexable(obj[i].val) { ReadableIsLexable(obj[i].val, depth + 1, max, finite); }
    case _ =>
  }

  ghost predicate DistinctKeys(obj: seq<Member>) {
    forall i, j :: 0 <= i < j < |obj| ==> obj[i].key != obj[j].key
  }

  // A text after which a number has certainly ended.
  predicate EndsNumber(rest: string) { rest == [] || rest[0] == ',' || rest[0] == ']' || rest[0] == '}' }

  // ---------------------------------------------------------------- lexing undoes printing

  lemma {:induction false} DigitsOfPrefix(lit: string, rest: string, i: nat)
    requires i <= |lit| && EndsNumber(rest)
    ensures Digits(lit + rest, i) == Digits(lit, i)
    decreases |lit| - i
  {
    if i < |lit| { DigitsOfPrefix(lit, rest, i + 1); }
  }

  lemma FractionOfPrefix(lit: string, rest: string, i: nat)
    requires i <= |lit| && EndsNumber(rest)
    ensures ScanFraction(lit + rest, i) == ScanFraction(lit, i)
  {
    if i < |lit| { DigitsOfPrefix(lit, rest, i + 1); }
  }

  lemma ExponentOfPrefix(lit: string, rest: string, i: nat)
    requires i <= |lit| && EndsNumber(rest)
    ensures ScanExponent(lit + rest, i) == ScanExponent(lit, i)
  {
    if i < |lit| {
      DigitsOfPrefix(lit, rest, i + 1);
      if i + 1 < |lit| { DigitsOfPrefix(lit, rest, i + 2); }
    }
  }

  // A number ends where it ended, whatever harmless text follows.
  lemma ScanOfPrefix(lit: string, rest: string)
    requires lit != [] && EndsNumber(rest) && ScanNumber(lit).Some?
    ensures ScanNumber(lit + rest) == ScanNumber(lit)
  {
    var i0 := if lit[0] == '-' then 1 else 0;
    DigitsOfPrefix(lit, rest, i0);
    var i1 := if lit[i0] == '0' then i0 + 1 else Digits(lit, i0);
    FractionOfPrefix(lit, rest, i1);
    ExponentOfPrefix(lit, rest, ScanFraction(lit, i1).value);
  }

  lemma NumberStarts(lit: string)
    requires ValidNumber(lit)
    ensures lit != [] && (lit[0] == '-' || IsDigit(lit[0]))
  {
  }

  // A text that starts with nothing else is read by the number grammar.
  lemma LexOther(s: string)
    requires s != [] && !IsSpace(s[0]) && Punctuation(s[0]).None? && s[0] != '"'
    requires !("null" <= s) && !("true" <= s) && !("false" <= s)
    ensures Lex(s) == var n := ScanNumber(s);
      if n.None? || n.value == 0 || n.value > |s| then None else Cons(TNumber(s[..n.value]), Lex(s[n.value..]))
  {
  }

  lemma LexByNumber(s: string, n: nat)
    requires s != [] && (s[0] == '-' || IsDigit(s[0])) && ScanNumber(s) == Some(n) && 0 < n <= |s|
    ensures Lex(s) == Cons(TNumber(s[..n]), Lex(s[n..]))
  {
    NoWord(s);
    LexOther(s);
  }

  lemma NoWord(s: string)
    requires s != [] && s[0] != 'n' && s[0] != 't' && s[0] != 'f'
    ensures !("null" <= s) && !("true" <= s) && !("false" <= s)
  {
    assert "null"[0] == 'n' && "true"[0] == 't' && "false"[0] == 'f';
  }

  lemma LexNumber(lit: string, rest: string)
    requires ValidNumber(lit) && EndsNumber(rest)
    ensures Lex(lit + rest) == Cons(TNumber(lit), Lex(rest))
  {
    NumberStarts(lit);
    ScanOfPrefix(lit, rest);
    var s := lit + rest;
    assert s[0] == lit[0];
    assert s[..|lit|] == lit && s[|lit|..] == rest;
    LexByNumber(s, |lit|);
  }

  lemma ReadPlain(c: char, rest: string)
    requires c >= ' ' && c != '"' && c != '\\'
    ensures ReadString([c] + rest) == Prepend(c, ReadString(rest))
  {
    assert ([c] + rest)[1..] == rest;
  }

  lemma ReadShort(c: char, rest: string)
    requires c == '"' || c == '\\' || c == '\n' || c == '\r' || c == '\t' || c as int == 8 || c as int == 12
    ensures ReadString(Escape(c) + rest) == Prepend(c, ReadString(rest))
  {
    assert (Escape(c) + rest)[2..] == rest;
  }

  lemma ReadControl(c: char, rest: string)
    requires c < ' ' && !(c == '\n' || c == '\r' || c == '\t' || c as int == 8 || c as int == 12)
    ensures ReadString(Escape(c) + rest) == Prepend(c, ReadString(rest))
  {
    var s := Escape(c) + rest;
    HexOfDigit(c as int / 16);
    HexOfDigit(c as int % 16);
    assert s[0] == '\\' && s[1] == 'u' && s[2] == '0' && s[3] == '0' && s[4] == HexDigit(c as int / 16)
      && s[5] == HexDigit(c as int % 16);
    assert Hex4(s) == Some(c as int);
    assert s[6..] == rest;
  }

  lemma ReadEscape(c: char, rest: string)
    ensures ReadString(Escape(c) + rest) == Prepend(c, ReadString(rest))
  {
    if c == '"' || c == '\\' || c == '\n' || c == '\r' || c == '\t' || c as int == 8 || c as int == 12 {
      ReadShort(c, rest);
    } else if c < ' ' {
      ReadControl(c, rest);
    } else {
      ReadPlain(c, rest);
    }
  }

  lemma HexOfDigit(n: nat)
    requires n < 16
    ensures HexValue(HexDigit(n)) == Some(n)
  {
  }

  lemma EscapedStep(s: string, i: nat, rest: string)
    requires i < |s|
    ensures EscapedFrom(s, i) + "\"" + rest == Escape(s[i]) + (EscapedFrom(s, i + 1) + "\"" + rest)
  {
  }

  lemma EscapedEnd(s: string, rest: string)
    ensures ReadString(EscapedFrom(s, |s|) + "\"" + rest) == Some(([], rest))
  {
    assert ("\"" + rest)[1..] == rest;
    assert EscapedFrom(s, |s|) + "\"" + rest == "\"" + rest;
  }

  lemma PrependTo(c: char, s: string, i: nat, rest: string)
    requires i < |s| && c == s[i]
    ensures Prepend(c, Some((s[i + 1..], rest))) == Some((s[i..], rest))
  {
    assert [c] + s[i + 1..] == s[i..];
  }

  lemma {:induction false} ReadEscaped(s: string, i: nat, rest: string)
    requires i <= |s|
    ensures ReadString(EscapedFrom(s, i) + "\"" + rest) == Some((s[i..], rest))
    decreases |s| - i
  {
    if i == |s| {
      EscapedEnd(s, rest);
      assert s[i..] == [];
    } else {
      EscapedStep(s, i, rest);
      ReadEscape(s[i], EscapedFrom(s, i + 1) + "\"" + rest);
      ReadEscaped(s, i + 1, rest);
      PrependTo(s[i], s, i, rest);
    }
  }

  lemma LexByString(s: string, text: string, rest: string)
    requires s != [] && s[0] == '"' && ReadString(s[1..]) == Some((text, rest))
    ensures Lex(s) == Cons(TStr(text), Lex(rest))
  {
  }

  lemma LexQuoted(s: string, rest: string)
    ensures Lex(Quoted(s) + rest) == Cons(TStr(s), Lex(rest))
  {
    var t := Quoted(s) + rest;
    assert t[1..] == EscapedFrom(s, 0) + "\"" + rest;
    ReadEscaped(s, 0, rest);
    assert s[0..] == s;
    LexByString(t, s, rest);
  }

  lemma LexPunctuation(c: char, rest: string)
    requires Punctuation(c).Some?
    ensures Lex([c] + rest) == Cons(Punctuation(c).value, Lex(rest))
  {
    assert ([c] + rest)[1..] == rest;
  }

  function Append(t: seq<Token>, r: Option<seq<Token>>): Option<seq<Token>> {
    if r.None? then None else Some(t + r.value)
  }

  lemma AppendCons(t: Token, ts: seq<Token>, r: Option<seq<Token>>)
    ensures Cons(t, Append(ts, r)) == Append([t] + ts, r)
    ensures Append([t], r) == Cons(t, r)
  {
    if r.Some? { assert [t] + (ts + r.value) == ([t] + ts) + r.value; }
  }

  lemma AppendAppend(t: seq<Token>, u: seq<Token>, r: Option<seq<Token>>)
    ensures Append(t, Append(u, r)) == Append(t + u, r)
  {
    if r.Some? { assert t + (u + r.value) == (t + u) + r.value; }
  }

  lemma LexWord(w: string, rest: string)
    requires w == "null" || w == "true" || w == "false"
    ensures Lex(w + rest) == Cons(if w == "null" then TNull else TBool(w == "true"), Lex(rest))
  {
    var s := w + rest;
    assert w <= s && s[|w|..] == rest && s[0] == w[0];
  }

  lemma LexBracketed(open: char, inner: string, close: char, rest: string, ts: seq<Token>)
    requires Punctuation(open).Some? && Punctuation(close).Some?
    requires Lex(inner + ([close] + rest)) == Append(ts, Lex([close] + rest))
    ensures Lex([open] + inner + [close] + rest) ==
      Append([Punctuation(open).value] + ts + [Punctuation(close).value], Lex(rest))
  {
    var o, c := Punctuation(open).value, Punctuation(close).value;
    assert [open] + inner + [close] + rest == [open] + (inner + ([close] + rest));
    LexPunctuation(open, inner + ([close] + rest));
    LexPunctuation(close, rest);
    AppendCons(c, [], Lex(rest));
    AppendAppend(ts, [c], Lex(rest));
    AppendCons(o, ts + [c], Lex(rest));
    assert [o] + ts + [c] == [o] + (ts + [c]);
  }

  lemma {:induction false} LexRaw(v: Value, rest: string)
    requires Lexable(v) && EndsNumber(rest)
    ensures Lex(Raw(v) + rest) == Append(Tokens(v), Lex(rest))
    decreases v, 0
  {
    match v
    case Null => LexWord("null", rest); AppendCons(TNull, [], Lex(rest));
    case Bool(b) => LexWord(Raw(v), rest); AppendCons(TBool(b), [], Lex(rest));
    case Number(lit) => LexNumber(lit, rest); AppendCons(TNumber(lit), [], Lex(rest));
    case Str(s) => LexQuoted(s, rest); AppendCons(TStr(s), [], Lex(rest));
    case Array(arr) =>
      LexItems(arr, 0, "]" + rest);
      LexBracketed('[', ItemsFrom(arr, 0), ']', rest, ItemTokens(arr, 0));
    case Object(obj) =>
      LexMembers(obj, 0, "}" + rest);
      LexBracketed('{', MembersFrom(obj, 0), '}', rest, MemberTokens(obj, 0));
  }

  // The comma in front of every element but the first.
  function Sep(i: nat): string { if i > 0 then "," else "" }

  function SepToken(i: nat): seq<Token> { if i > 0 then [Comma] else [] }

  lemma LexSep(i: nat, w: string, ts: seq<Token>, r: Option<seq<Token>>)
    requires Lex(w) == Append(ts, r)
    ensures Lex(Sep(i) + w) == Append(SepToken(i) + ts, r)
  {
    if i > 0 {
      LexPunctuation(',', w);
      AppendCons(Comma, ts, r);
    } else {
      assert Sep(i) + w == w && SepToken(i) + ts == ts;
    }
  }

  lemma ItemText(arr: seq<Value>, i: nat)
    requires i < |arr|
    ensures ItemsFrom(arr, i) == Sep(i) + Raw(arr[i]) + ItemsFrom(arr, i + 1)
    ensures ItemTokens(arr, i) == SepToken(i) + Tokens(arr[i]) + ItemTokens(arr, i + 1)
  {
  }

  lemma ItemsUnfold(arr: seq<Value>, i: nat, rest: string)
    requires i < |arr|
    ensures ItemsFrom(arr, i) + rest == Sep(i) + (Raw(arr[i]) + (ItemsFrom(arr, i + 1) + rest))
    ensures ItemTokens(arr, i) == SepToken(i) + (Tokens(arr[i]) + ItemTokens(arr, i + 1))
  {
    ItemText(arr, i);
    AppendRest(SepToken(i), Tokens(arr[i]), ItemTokens(arr, i + 1));
    AppendRest(Sep(i) + Raw(arr[i]), ItemsFrom(arr, i + 1), rest);
    AppendRest(Sep(i), Raw(arr[i]), ItemsFrom(arr, i + 1) + rest);
  }

  lemma ItemsEnd(arr: seq<Value>, i: nat, rest: string)
    requires 0 < i <= |arr| && EndsNumber(rest)
    ensures EndsNumber(ItemsFrom(arr, i) + rest)
  {
  }

  lemma LexNothing(rest: string)
    ensures Lex([] + rest) == Append([], Lex(rest))
  {
    assert [] + rest == rest;
    if Lex(rest).Some? { assert [] + Lex(rest).value == Lex(rest).value; }
  }

  // One element in front of a text that lexes.
  lemma {:induction false} LexOneItem(i: nat, v: Value, more: string, ts: seq<Token>, r: Option<seq<Token>>)
    requires Lexable(v) && EndsNumber(more) && Lex(more) == Append(ts, r)
    ensures Lex(Sep(i) + (Raw(v) + more)) == Append(SepToken(i) + (Tokens(v) + ts), r)
    decreases v, 1
  {
    LexRaw(v, more);
    AppendAppend(Tokens(v), ts, r);
    LexSep(i, Raw(v) + more, Tokens(v) + ts, r);
  }

  lemma {:induction false} LexItems(arr: seq<Value>, i: nat, rest: string)
    requires i <= |arr| && (forall k :: 0 <= k < |arr| ==> Lexable(arr[k])) && EndsNumber(rest)
    ensures Lex(ItemsFrom(arr, i) + rest) == Append(ItemTokens(arr, i), Lex(rest))
    decreases arr, |arr| - i
  {
    if i == |arr| {
      LexNothing(rest);
    } else {
      var v, more, ts := arr[i], ItemsFrom(arr, i + 1) + rest, ItemTokens(arr, i + 1);
      LexItems(arr, i + 1, rest);
      ItemsEnd(arr, i + 1, rest);
      ItemsUnfold(arr, i, rest);
      LexOneItem(i, v, more, ts, Lex(rest));
    }
  }

  lemma Associate<T>(a: seq<T>, b: seq<T>, c: seq<T>, d: seq<T>, e: seq<T>)
    ensures a + b + c + d + e == a + (b + (c + (d + e)))
  {
  }

  lemma MembersUnfold(obj: seq<Member>, i: nat, rest: string)
    requires i < |obj|
    ensures MembersFrom(obj, i) + rest ==
      Sep(i) + (Quoted(obj[i].key) + (":" + (Raw(obj[i].val) + (MembersFrom(obj, i + 1) + rest))))
    ensures MemberTokens(obj, i) ==
      SepToken(i) + ([TStr(obj[i].key), Colon] + (Tokens(obj[i].val) + MemberTokens(obj, i + 1)))
  {
    MemberText(obj, i);
    Associate(Sep(i), Quoted(obj[i].key), ":", Raw(obj[i].val), MembersFrom(obj, i + 1));
    Associate(Sep(i), Quoted(obj[i].key), ":", Raw(obj[i].val), MembersFrom(obj, i + 1) + rest);
    AppendRest(Sep(i) + Quoted(obj[i].key) + ":" + Raw(obj[i].val), MembersFrom(obj, i + 1), rest);
    MemberTokenText(obj, i);
    Associate(SepToken(i), [TStr(obj[i].key), Colon], Tokens(obj[i].val), MemberTokens(obj, i + 1), []);
    assert MemberTokens(obj, i + 1) + [] == MemberTokens(obj, i + 1);
  }

  lemma AppendRest<T>(a: seq<T>, b: seq<T>, c: seq<T>)
    ensures a + b + c == a + (b + c)
  {
  }

  lemma MemberText(obj: seq<Member>, i: nat)
    requires i < |obj|
    ensures MembersFrom(obj, i) == Sep(i) + Quoted(obj[i].key) + ":" + Raw(obj[i].val) + MembersFrom(obj, i + 1)
  {
  }

  lemma MemberTokenText(obj: seq<Member>, i: nat)
    requires i < |obj|
    ensures MemberTokens(obj, i) ==
      SepToken(i) + [TStr(obj[i].key), Colon] + Tokens(obj[i].val) + MemberTokens(obj, i + 1) + []
  {
    assert MemberTokens(obj, i) + [] == MemberTokens(obj, i);
  }

  lemma MembersEnd(obj: seq<Member>, i: nat, rest: string)
    requires 0 < i <= |obj| && EndsNumber(rest)
    ensures EndsNumber(MembersFrom(obj, i) + rest)
  {
  }

  lemma LexMember(key: string, w: string, ts: seq<Token>, r: Option<seq<Token>>)
    requires Lex(w) == Append(ts, r)
    ensures Lex(Quoted(key) + (":" + w)) == Append([TStr(key), Colon] + ts, r)
  {
    LexQuoted(key, ":" + w);
    LexPunctuation(':', w);
    ConsTwice(TStr(key), Colon, ts, r);
  }

  lemma ConsTwice(t: Token, u: Token, ts: seq<Token>, r: Option<seq<Token>>)
    ensures Cons(t, Cons(u, Append(ts, r))) == Append([t, u] + ts, r)
  {
    AppendCons(u, ts, r);
    AppendCons(t, [u] + ts, r);
    assert [t] + ([u] + ts) == [t, u] + ts;
  }

  lemma {:induction false} LexMembers(obj: seq<Member>, i: nat, rest: string)
    requires i <= |obj| && (forall k :: 0 <= k < |obj| ==> Lexable(obj[k].val)) && EndsNumber(rest)
    ensures Lex(MembersFrom(obj, i) + rest) == Append(MemberTokens(obj, i), Lex(rest))
    decreases obj, |obj| - i
  {
    if i == |obj| {
      LexNothing(rest);
    } else {
      LexMembers(obj, i + 1, rest);
      MembersEnd(obj, i + 1, rest);
      LexRaw(obj[i].val, MembersFrom(obj, i + 1) + rest);
      LexNextMember(obj, i, rest);
    }
  }

  lemma LexNextMember(obj: seq<Member>, i: nat, rest: string)
    requires i < |obj|
    requires Lex(MembersFrom(obj, i + 1) + rest) == Append(MemberTokens(obj, i + 1), Lex(rest))
    requires Lex(Raw(obj[i].val) + (MembersFrom(obj, i + 1) + rest)) ==
      Append(Tokens(obj[i].val), Lex(MembersFrom(obj, i + 1) + rest))
    ensures Lex(MembersFrom(obj, i) + rest) == Append(MemberTokens(obj, i), Lex(rest))
  {
    var more, w, ts := MembersFrom(obj, i + 1) + rest, Raw(obj[i].val), MemberTokens(obj, i + 1);
    LexOneMember(i, obj[i].key, w, Tokens(obj[i].val), more, ts, Lex(rest));
    MembersUnfold(obj, i, rest);
  }

  // One member, whose value w lexes to vs, in front of a text that lexes.
  lemma LexOneMember(i: nat, key: string, w: string, vs: seq<Token>, more: string, ts: seq<Token>,
      r: Option<seq<Token>>)
    requires Lex(w + more) == Append(vs, Lex(more)) && Lex(more) == Append(ts, r)
    ensures Lex(Sep(i) + (Quoted(key) + (":" + (w + more)))) ==
      Append(SepToken(i) + ([TStr(key), Colon] + (vs + ts)), r)
  {
    AppendAppend(vs, ts, r);
    LexMember(key, w + more, vs + ts, r);
    LexSep(i, Quoted(key) + (":" + (w + more)), [TStr(key), Colon] + (vs + ts), r);
  }

  // ---------------------------------------------------------------- reading undoes tokenising

  lemma {:induction false} ReadTokens(v: Value, rest: seq<Token>, d: nat, max: nat, finite: string -> bool)
    requires Readable(v, d, max, finite)
    ensures ReadValue(Tokens(v) + rest, d, max, finite) == Some((v, rest))
    decreases v, 0
  {
    var toks := Tokens(v) + rest;
    match v
    case Null => assert toks[1..] == rest;
    case Bool(b) => assert toks[1..] == rest;
    case Number(lit) => assert toks[1..] == rest;
    case Str(s) => assert toks[1..] == rest;
    case Array(arr) =>
      assert toks[1..] == ItemTokens(arr, 0) + ([RBracket] + rest);
      ReadItemTokens(arr, 0, rest, d + 1, max, finite);
      assert arr[..0] == [];
    case Object(obj) =>
      assert toks[1..] == MemberTokens(obj, 0) + ([RBrace] + rest);
      ReadMemberTokens(obj, 0, rest, d + 1, max, finite);
      assert obj[..0] == [];
  }

  // One element in front of tokens that read as it and then more.
  lemma ReadOneItem(i: nat, acc: seq<Value>, w: seq<Token>, v: Value, more: seq<Token>, d: nat, max: nat,
      finite: string -> bool)
    requires |acc| == i && ReadValue(w, d, max, finite) == Some((v, more)) && w != [] && w[0] != RBracket
    ensures ReadItems(SepToken(i) + w, acc, d, max, finite) == ReadItems(more, acc + [v], d, max, finite)
  {
    var toks := SepToken(i) + w;
    assert (if acc == [] then toks else toks[1..]) == w;
  }

  lemma {:induction false} ReadItemTokens(arr: seq<Value>, i: nat, rest: seq<Token>, d: nat, max: nat,
      finite: string -> bool)
    requires i <= |arr| && forall k :: 0 <= k < |arr| ==> Readable(arr[k], d, max, finite)
    ensures ReadItems(ItemTokens(arr, i) + ([RBracket] + rest), arr[..i], d, max, finite) == Some((arr, rest))
    decreases arr, |arr| - i
  {
    if i == |arr| {
      var toks := ItemTokens(arr, i) + ([RBracket] + rest);
      assert toks[1..] == rest && arr[..i] == arr;
    } else {
      var more := ItemTokens(arr, i + 1) + ([RBracket] + rest);
      ReadTokens(arr[i], more, d, max, finite);
      ReadItemTokens(arr, i + 1, rest, d, max, finite);
      FirstToken(arr[i]);
      ReadOneItem(i, arr[..i], Tokens(arr[i]) + more, arr[i], more, d, max, finite);
      assert arr[..i + 1] == arr[..i] + [arr[i]];
      ItemsUnfold(arr, i, "");
      RegroupItem(SepToken(i), Tokens(arr[i]), ItemTokens(arr, i + 1), [RBracket] + rest);
    }
  }

  lemma RegroupItem(a: seq<Token>, b: seq<Token>, c: seq<Token>, d: seq<Token>)
    ensures a + (b + c) + d == a + (b + (c + d))
  {
  }

  lemma FirstToken(v: Value)
    ensures Tokens(v) != [] && Tokens(v)[0] != RBracket && Tokens(v)[0] != RBrace
  {
  }

  // One member in front of tokens that read as its value and then more.
  lemma ReadOneMember(i: nat, acc: seq<Member>, key: string, w: seq<Token>, v: Value, more: seq<Token>, d: nat,
      max: nat, finite: string -> bool)
    requires |acc| == i && !HasKey(acc, key) && ReadValue(w, d, max, finite) == Some((v, more))
    ensures ReadMembers(SepToken(i) + ([TStr(key), Colon] + w), acc, d, max, finite) ==
      ReadMembers(more, acc + [Member(key, v)], d, max, finite)
  {
    var t := [TStr(key), Colon] + w;
    assert t[2..] == w;
    var toks := SepToken(i) + t;
    assert (if acc == [] then toks else toks[1..]) == t;
  }

  lemma {:induction false} ReadNextMember(i: nat, acc: seq<Member>, key: string, v: Value, more: seq<Token>, d: nat,
      max: nat, finite: string -> bool)
    requires |acc| == i && !HasKey(acc, key) && Readable(v, d, max, finite)
    ensures ReadMembers(SepToken(i) + ([TStr(key), Colon] + (Tokens(v) + more)), acc, d, max, finite)
      == ReadMembers(more, acc + [Member(key, v)], d, max, finite)
    decreases v, 1
  {
    ReadTokens(v, more, d, max, finite);
    ReadOneMember(i, acc, key, Tokens(v) + more, v, more, d, max, finite);
  }

  lemma MembersDone(obj: seq<Member>, rest: seq<Token>, d: nat, max: nat, finite: string -> bool)
    ensures ReadMembers([RBrace] + rest, obj, d, max, finite) == Some((obj, rest))
  {
    assert ([RBrace] + rest)[1..] == rest;
  }

  lemma NewKey(obj: seq<Member>, i: nat)
    requires i < |obj| && DistinctKeys(obj)
    ensures !HasKey(obj[..i], obj[i].key) && obj[..i + 1] == obj[..i] + [Member(obj[i].key, obj[i].val)]
  {
  }

  lemma {:induction false} ReadMemberTokens(obj: seq<Member>, i: nat, rest: seq<Token>, d: nat, max: nat,
      finite: string -> bool)
    requires i <= |obj| && DistinctKeys(obj) && forall k :: 0 <= k < |obj| ==> Readable(obj[k].val, d, max, finite)
    ensures ReadMembers(MemberTokens(obj, i) + ([RBrace] + rest), obj[..i], d, max, finite) == Some((obj, rest))
    decreases obj, |obj| - i
  {
    if i == |obj| {
      MembersDone(obj, rest, d, max, finite);
      assert obj[..i] == obj && MemberTokens(obj, i) + ([RBrace] + rest) == [RBrace] + rest;
    } else {
      var m := obj[i];
      ReadMemberTokens(obj, i + 1, rest, d, max, finite);
      NewKey(obj, i);
      ReadNextMember(i, obj[..i], m.key, m.val, MemberTokens(obj, i + 1) + ([RBrace] + rest), d, max, finite);
      MemberTokensRest(obj, i, [RBrace] + rest);
    }
  }

  lemma MemberTokensRest(obj: seq<Member>, i: nat, rest: seq<Token>)
    requires i < |obj|
    ensures MemberTokens(obj, i) + rest ==
      SepToken(i) + ([TStr(obj[i].key), Colon] + (Tokens(obj[i].val) + (MemberTokens(obj, i + 1) + rest)))
  {
    MembersUnfold(obj, i, "");
    Regroup(SepToken(i), [TStr(obj[i].key), Colon], Tokens(obj[i].val), MemberTokens(obj, i + 1), rest);
  }

  lemma Regroup(a: seq<Token>, b: seq<Token>, c: seq<Token>, d: seq<Token>, e: seq<Token>)
    ensures a + (b + (c + d)) + e == a + (b + (c + (d + e)))
  {
  }

  // ---------------------------------------------------------------- everything read is readable

  // Tokens that Lex can produce carry numbers of the grammar.
  ghost predicate NumbersValid(toks: seq<Token>) {
    forall i :: 0 <= i < |toks| && toks[i].TNumber? ==> ValidNumber(toks[i].lit)
  }

  lemma {:induction false} DigitsOfTake(s: string, n: nat, i: nat)
    requires i <= n <= |s|
    ensures Digits(s[..n], i) == if Digits(s, i) <= n then Digits(s, i) else n
    decreases n - i
  {
    if i < n && IsDigit(s[i]) { DigitsOfTake(s, n, i + 1); }
    if i == n { assert Digits(s, i) >= n; }
  }

  lemma FractionOfTake(s: string, n: nat, i: nat)
    requires i <= |s| && ScanFraction(s, i).Some? && ScanFraction(s, i).value <= n <= |s|
    ensures ScanFraction(s[..n], i) == ScanFraction(s, i)
  {
    if i < n && s[i] == '.' { DigitsOfTake(s, n, i + 1); }
  }

  lemma ExponentOfTake(s: string, n: nat, i: nat)
    requires i <= |s| && ScanExponent(s, i) == Some(n)
    ensures n <= |s| && ScanExponent(s[..n], i) == Some(n)
  {
    if i < n {
      var j := if i + 1 < |s| && (s[i + 1] == '+' || s[i + 1] == '-') then i + 2 else i + 1;
      DigitsOfTake(s, n, j);
    }
  }

  lemma WholeOfTake(s: string, n: nat, i0: nat, i1: nat)
    requires i0 < n <= |s| && IsDigit(s[i0]) && i1 == (if s[i0] == '0' then i0 + 1 else Digits(s, i0)) <= n
    ensures i0 < i1 && i1 == if s[..n][i0] == '0' then i0 + 1 else Digits(s[..n], i0)
  {
    DigitsOfTake(s, n, i0);
    assert Digits(s, i0) == Digits(s, i0 + 1);
  }

  lemma ScanOfTake(s: string)
    requires ScanNumber(s).Some?
    ensures 0 < ScanNumber(s).value <= |s| && ValidNumber(s[..ScanNumber(s).value])
  {
    var n := ScanNumber(s).value;
    var i0 := if s[0] == '-' then 1 else 0;
    var i1 := if s[i0] == '0' then i0 + 1 else Digits(s, i0);
    var i2 := ScanFraction(s, i1).value;
    WholeOfTake(s, n, i0, i1);
    FractionOfTake(s, n, i1);
    ExponentOfTake(s, n, i2);
    assert s[..n][0] == s[0];
  }

  lemma {:induction false} LexNumbersValid(s: string)
    requires Lex(s).Some?
    ensures NumbersValid(Lex(s).value)
    decreases |s|
  {
    if s == [] {
    } else if IsSpace(s[0]) {
      LexNumbersValid(s[1..]);
    } else if Punctuation(s[0]).Some? {
      LexNumbersValid(s[1..]);
    } else if s[0] == '"' {
      LexNumbersValid(ReadString(s[1..]).value.1);
    } else if "null" <= s || "true" <= s {
      LexNumbersValid(s[4..]);
    } else if "false" <= s {
      LexNumbersValid(s[5..]);
    } else {
      ScanOfTake(s);
      LexNumbersValid(s[ScanNumber(s).value..]);
    }
  }

  // The tokens left over are a suffix of the tokens given.
  ghost predicate Suffix(rest: seq<Token>, toks: seq<Token>) {
    |rest| <= |toks| && rest == toks[|toks| - |rest|..]
  }

  lemma SuffixValid(rest: seq<Token>, toks: seq<Token>)
    requires Suffix(rest, toks) && NumbersValid(toks)
    ensures NumbersValid(rest)
  {
    forall i | 0 <= i < |rest| ensures rest[i] == toks[|toks| - |rest| + i] { }
  }

  lemma {:induction false} ReadIsReadable(toks: seq<Token>, d: nat, max: nat, finite: string -> bool)
    requires NumbersValid(toks) && ReadValue(toks, d, max, finite).Some?
    ensures var r := ReadValue(toks, d, max, finite).value; Readable(r.0, d, max, finite) && NumbersValid(r.1)
    decreases |toks|, 0
  {
    assert Suffix(toks[1..], toks);
    SuffixValid(toks[1..], toks);
    match toks[0]
    case LBracket => ReadItemsReadable(toks[1..], [], d + 1, max, finite);
    case LBrace => ReadMembersReadable(toks[1..], [], d + 1, max, finite);
    case _ =>
  }

  lemma {:induction false} ReadItemsReadable(toks: seq<Token>, acc: seq<Value>, d: nat, max: nat,
      finite: string -> bool)
    requires NumbersValid(toks) && ReadItems(toks, acc, d, max, finite).Some?
    requires forall i :: 0 <= i < |acc| ==> Readable(acc[i], d, max, finite)
    ensures var r := ReadItems(toks, acc, d, max, finite).value;
      (forall i :: 0 <= i < |r.0| ==> Readable(r.0[i], d, max, finite)) && NumbersValid(r.1)
    decreases |toks|, 1
  {
    assert Suffix(toks[1..], toks);
    SuffixValid(toks[1..], toks);
    if toks[0] != RBracket {
      var t := if acc == [] then toks else toks[1..];
      ReadIsReadable(t, d, max, finite);
      var r := ReadValue(t, d, max, finite).value;
      ReadItemsReadable(r.1, acc + [r.0], d, max, finite);
    }
  }

  lemma {:induction false} ReadMembersReadable(toks: seq<Token>, acc: seq<Member>, d: nat, max: nat,
      finite: string -> bool)
    requires NumbersValid(toks) && ReadMembers(toks, acc, d, max, finite).Some? && DistinctKeys(acc)
    requires forall i :: 0 <= i < |acc| ==> Readable(acc[i].val, d, max, finite)
    ensures var r := ReadMembers(toks, acc, d, max, finite).value;
      DistinctKeys(r.0) && (forall i :: 0 <= i < |r.0| ==> Readable(r.0[i].val, d, max, finite)) && NumbersValid(r.1)
    decreases |toks|, 1
  {
    assert Suffix(toks[1..], toks);
    SuffixValid(toks[1..], toks);
    if toks[0] != RBrace {
      var t := if acc == [] then toks else toks[1..];
      assert Suffix(t[2..], t);
      SuffixValid(t[2..], t);
      ReadIsReadable(t[2..], d, max, finite);
      var r := ReadValue(t[2..], d, max, finite).value;
      ReadMembersReadable(r.1, acc + [Member(t[0].s, r.0)], d, max, finite);
    }
  }

  /** Reading the printed text of v gives v back exactly when v has distinct keys, valid finite number
      literals and nesting within the limit. */
  lemma RawRoundTrip(v: Value, max: nat, finite: string -> bool)
    ensures ParseJSON(Raw(v), max, finite) == Some(v) <==> Readable(v, 0, max, finite)
  {
    if Readable(v, 0, max, finite) {
      ReadableIsLexable(v, 0, max, finite);
      LexRaw(v, "");
      assert Raw(v) + "" == Raw(v);
      ReadTokens(v, [], 0, max, finite);
    } else if ParseJSON(Raw(v), max, finite).Some? {
      LexNumbersValid(Raw(v));
      ReadIsReadable(Lex(Raw(v)).value, 0, max, finite);
    }
  }

  /** Printing what was parsed and parsing it again changes nothing, for every accepted body. */
  lemma ParsedSurvives(body: string, max: nat, finite: string -> bool)
    requires ParseJSON(body, max, finite).Some?
    ensures ParseJSON(Raw(ParseJSON(body, max, finite).value), max, finite) == ParseJSON(body, max, finite)
  {
    LexNumbersValid(body);
    ReadIsReadable(Lex(body).value, 0, max, finite);
    RawRoundTrip(ParseJSON(body, max, finite).value, max, finite);
  }
}
