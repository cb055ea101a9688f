module JsonLaws
  /**
    What the JSON reader accepts and the writer produces, told apart from each other
    (internal/contract/jsonparse.go): the grammar of a number, every spelling of a character in a string, and
    the text as nothing but its tokens.
  */
{
  import opened Decimal
  import opened Json
  import opened Wrappers

  // ---------------------------------------------------------------- numbers

  // RFC 8259, section 6: the parts of a number.
  ghost predicate IntegerPart(s: string) { s != "" && AllDigits(s) && (s[0] == '0' ==> |s| == 1) }

  ghost predicate FractionPart(s: string) { s == "" || (|s| > 1 && s[0] == '.' && AllDigits(s[1..])) }

  ghost predicate ExponentPart(s: string) {
    || s == ""
    || (|s| > 1 && (s[0] == 'e' || s[0] == 'E') && AllDigits(s[1..]))
    || (|s| > 2 && (s[0] == 'e' || s[0] == 'E') && (s[1] == '+' || s[1] == '-') && AllDigits(s[2..]))
  }

  // The integer part ends at b, the fraction at c.
  ghost predicate NumberAt(s: string, a: nat, b: nat, c: nat) {
    && a <= b <= c <= |s| && a == (if s != "" && s[0] == '-' then 1 else 0)
    && IntegerPart(s[a..b]) && FractionPart(s[b..c]) && ExponentPart(s[c..])
  }

  lemma {:induction false} DigitsEnd(s: string, i: nat)
    requires i <= |s|
    ensures var j := Digits(s, i);
      (forall k :: i <= k < j ==> IsDigit(s[k])) && (j < |s| ==> !IsDigit(s[j]))
    decreases |s| - i
  {
    if i < |s| && IsDigit(s[i]) { DigitsEnd(s, i + 1); }
  }

  lemma DigitsUntil(s: string, i: nat, j: nat)
    requires i <= j <= |s| && AllDigits(s[i..j]) && (j < |s| ==> !IsDigit(s[j]))
    ensures Digits(s, i) == j
  {
    DigitsEnd(s, i);
    forall k | i <= k < j ensures IsDigit(s[k]) { assert s[i..j][k - i] == s[k]; }
  }

  lemma DigitsPart(s: string, i: nat)
    requires i <= |s|
    ensures AllDigits(s[i..Digits(s, i)])
  {
    DigitsEnd(s, i);
  }

  lemma IntegerIs(s: string, a: nat, b: nat)
    requires a <= b <= |s| && (b < |s| ==> !IsDigit(s[b]))
    ensures IntegerPart(s[a..b]) <==>
      a < |s| && IsDigit(s[a]) && b == if s[a] == '0' then a + 1 else Digits(s, a)
  {
    if a < b {
      assert s[a..b][0] == s[a];
      DigitsEnd(s, a);
      if AllDigits(s[a..b]) { DigitsUntil(s, a, b); }
      if s[a] != '0' && b == Digits(s, a) { DigitsPart(s, a); }
    } else if a < |s| {
      DigitsEnd(s, a);
    }
  }

  lemma FractionIs(s: string, b: nat, c: nat)
    requires b <= c <= |s| && (c < |s| ==> !IsDigit(s[c]) && (c == b ==> s[c] != '.'))
    ensures FractionPart(s[b..c]) <==> ScanFraction(s, b) == Some(c)
  {
    if b < |s| && s[b] == '.' {
      DigitsEnd(s, b + 1);
      if b < c {
        assert s[b..c][1..] == s[b + 1..c];
        if AllDigits(s[b + 1..c]) { DigitsUntil(s, b + 1, c); }
        if Digits(s, b + 1) == c { DigitsPart(s, b + 1); }
      }
    } else if b < c {
      assert s[b..c][0] == s[b];
    }
  }

  lemma ExponentIs(s: string, c: nat)
    requires c <= |s|
    ensures ExponentPart(s[c..]) <==> ScanExponent(s, c) == Some(|s|)
  {
    if c < |s| && (s[c] == 'e' || s[c] == 'E') {
      var t := s[c..];
      assert t[0] == s[c] && t[1..] == s[c + 1..|s|];
      if c + 1 < |s| && (s[c + 1] == '+' || s[c + 1] == '-') {
        assert t[1] == s[c + 1] && t[2..] == s[c + 2..|s|];
        assert !IsDigit(t[1..][0]);
        AllOrSome(s, c + 2);
      } else {
        if c + 1 < |s| { assert t[1] == s[c + 1]; }
        AllOrSome(s, c + 1);
      }
    } else if c < |s| {
      assert s[c..][0] == s[c];
    }
  }

  lemma AllOrSome(s: string, i: nat)
    requires i <= |s|
    ensures AllDigits(s[i..|s|]) <==> Digits(s, i) == |s|
  {
    if AllDigits(s[i..|s|]) { DigitsUntil(s, i, |s|); }
    if Digits(s, i) == |s| { DigitsPart(s, i); }
  }

  // Where the scanner ends the integer part and the fraction.
  lemma ScanEnds(s: string) returns (a: nat, b: nat, c: nat)
    requires ValidNumber(s)
    ensures NumberAt(s, a, b, c)
  {
    a := if s != "" && s[0] == '-' then 1 else 0;
    b := if s[a] == '0' then a + 1 else Digits(s, a);
    c := ScanFraction(s, b).value;
    DigitsEnd(s, a);
    if b < |s| && s[b] == '.' { DigitsEnd(s, b + 1); }
    NoDigitAt(s, a, b, c);
    IntegerIs(s, a, b);
    FractionIs(s, b, c);
    ExponentIs(s, c);
  }

  lemma NoDigitAt(s: string, a: nat, b: nat, c: nat)
    requires a < b <= c <= |s| && b == (if s[a] == '0' then a + 1 else Digits(s, a)) && ScanFraction(s, b) == Some(c)
    requires ScanExponent(s, c) == Some(|s|)
    ensures (b < |s| ==> !IsDigit(s[b])) && (c < |s| ==> !IsDigit(s[c]) && (c == b ==> s[c] != '.'))
  {
    DigitsEnd(s, a);
    if b < |s| && s[b] == '.' { DigitsEnd(s, b + 1); }
  }

  /** A literal is a number exactly when it is an integer part, an optional fraction and an optional exponent. */
  lemma NumberGrammar(s: string)
    ensures ValidNumber(s) <==> exists a: nat, b: nat, c: nat :: NumberAt(s, a, b, c)
  {
    if ValidNumber(s) { var a, b, c := ScanEnds(s); }
    if a: nat, b: nat, c: nat :| NumberAt(s, a, b, c) {
      PartsApart(s, a, b, c);
      IntegerIs(s, a, b);
      FractionIs(s, b, c);
      ExponentIs(s, c);
    }
  }

  lemma PartsApart(s: string, a: nat, b: nat, c: nat)
    requires NumberAt(s, a, b, c)
    ensures (b < |s| ==> !IsDigit(s[b])) && (c < |s| ==> !IsDigit(s[c]) && (c == b ==> s[c] != '.'))
  {
    if c < |s| { assert s[c..][0] == s[c]; }
    if b < c { assert s[b..c][0] == s[b]; }
  }

  // ---------------------------------------------------------------- the spellings of a character

  function HexOf(n: nat, upper: bool): char
    requires n < 16
  {
    if n < 10 then ('0' as int + n) as char
    else if upper then ('A' as int + n - 10) as char
    else ('a' as int + n - 10) as char
  }

  // The \u escape of a 16-bit unit.
  function UnitText(n: nat, upper: bool): (s: string)
    requires n < 0x10000
    ensures |s| == 6
  {
    ['\\', 'u', HexOf(n / 4096, upper), HexOf(n / 256 % 16, upper), HexOf(n / 16 % 16, upper), HexOf(n % 16, upper)]
  }

  lemma HexRead(n: nat, upper: bool)
    requires n < 16
    ensures HexValue(HexOf(n, upper)) == Some(n)
  {
  }

  lemma FourDigits(n: nat)
    requires n < 0x10000
    ensures n / 4096 < 16 && ((n / 4096 * 16 + n / 256 % 16) * 16 + n / 16 % 16) * 16 + n % 16 == n
  {
  }

  lemma UnitRead(n: nat, upper: bool, rest: string)
    requires n < 0x10000
    ensures Hex4(UnitText(n, upper) + rest) == Some(n) && (UnitText(n, upper) + rest)[6..] == rest
  {
    var s := UnitText(n, upper) + rest;
    FourDigits(n);
    HexRead(n / 4096, upper);
    HexRead(n / 256 % 16, upper);
    HexRead(n / 16 % 16, upper);
    HexRead(n % 16, upper);
    assert s[0] == '\\' && s[1] == 'u' && s[2] == HexOf(n / 4096, upper) && s[3] == HexOf(n / 256 % 16, upper);
    assert s[4] == HexOf(n / 16 % 16, upper) && s[5] == HexOf(n % 16, upper);
  }

  // The \u spelling of any character: one unit, or a surrogate pair.
  function UnicodeText(c: char, upper: bool): string {
    var n := c as int;
    if n < 0x10000 then UnitText(n, upper)
    else UnitText(0xD800 + (n - 0x10000) / 0x400, upper) + UnitText(0xDC00 + (n - 0x10000) % 0x400, upper)
  }

  lemma ReadUnicode(s: string, c: char, k: nat)
    requires |s| > 1 && s[0] == '\\' && s[1] == 'u' && Unicode(s) == Some((c, k))
    ensures ReadString(s) == Prepend(c, ReadString(s[k..]))
  {
  }

  /** Every character is read back from its \u spelling, in digits of either case, as a surrogate pair where it needs
      one. */
  lemma UnicodeIsRead(c: char, upper: bool, rest: string)
    ensures ReadString(UnicodeText(c, upper) + rest) == Prepend(c, ReadString(rest))
  {
    var n, s := c as int, UnicodeText(c, upper) + rest;
    if n < 0x10000 {
      UnitRead(n, upper, rest);
      ReadUnicode(s, c, 6);
    } else {
      var hi, lo := 0xD800 + (n - 0x10000) / 0x400, 0xDC00 + (n - 0x10000) % 0x400;
      PairRead(c, hi, lo, upper, rest, s);
      ReadUnicode(s, c, 12);
    }
  }

  lemma PairRead(c: char, hi: nat, lo: nat, upper: bool, rest: string, s: string)
    requires 0xD800 <= hi < 0xDC00 <= lo < 0xE000 && c as int == 0x10000 + (hi - 0xD800) * 0x400 + (lo - 0xDC00)
    requires s == UnitText(hi, upper) + UnitText(lo, upper) + rest
    ensures Unicode(s) == Some((c, 12)) && s[12..] == rest && s[0] == '\\' && s[1] == 'u'
  {
    var low := UnitText(lo, upper) + rest;
    assert s == UnitText(hi, upper) + low;
    UnitRead(hi, upper, low);
    UnitRead(lo, upper, rest);
    assert s[12..] == low[6..];
  }

  /** Half a pair is read as the replacement character. */
  lemma LoneSurrogate(n: nat, upper: bool, rest: string)
    requires 0xD800 <= n < 0xE000 && (n < 0xDC00 ==> Hex4(rest).None? || !(0xDC00 <= Hex4(rest).value < 0xE000))
    ensures ReadString(UnitText(n, upper) + rest) == Prepend(REPLACEMENT, ReadString(rest))
  {
    UnitRead(n, upper, rest);
    ReadUnicode(UnitText(n, upper) + rest, REPLACEMENT, 6);
  }

  /** Characters that need none are written without an escape, and the slash may still be read from one. */
  lemma PlainIsPlain(c: char, rest: string)
    ensures Escape(c) == [c] <==> c >= ' ' && c != '"' && c != '\\'
    ensures Escape(c) != [c] ==> |Escape(c)| == 2 || (|Escape(c)| == 6 && Escape(c)[1] == 'u')
    ensures ReadString("\\/" + rest) == Prepend('/', ReadString(rest))
  {
    assert ("\\/" + rest)[2..] == rest;
  }

  // ---------------------------------------------------------------- nothing but the tokens

  function TokenText(t: Token): string {
    match t
    case TNull => "null"
    case TBool(b) => if b then "true" else "false"
    case TNumber(lit) => lit
    case TStr(s) => Quoted(s)
    case LBracket => "["
    case RBracket => "]"
    case LBrace => "{"
    case RBrace => "}"
    case Comma => ","
    case Colon => ":"
  }

  function Texts(ts: seq<Token>): string { if ts == [] then "" else TokenText(ts[0]) + Texts(ts[1..]) }

  lemma {:induction false} TextsAppend(ts: seq<Token>, us: seq<Token>)
    ensures Texts(ts + us) == Texts(ts) + Texts(us)
    decreases |ts|
  {
    if ts == [] {
      assert ts + us == us;
    } else {
      TextsAppend(ts[1..], us);
      FirstText(ts, us);
      Joined(TokenText(ts[0]), Texts(ts[1..]), Texts(us));
    }
  }

  lemma FirstText(ts: seq<Token>, us: seq<Token>)
    requires ts != []
    ensures Texts(ts + us) == TokenText(ts[0]) + Texts(ts[1..] + us)
  {
    assert (ts + us)[1..] == ts[1..] + us;
  }

  lemma Joined(a: string, b: string, c: string)
    ensures a + (b + c) == a + b + c
  {
  }

  lemma OneText(t: Token)
    ensures Texts([t]) == TokenText(t)
  {
  }

  /** A value is written as its tokens one after the other, with nothing between them. */
  lemma {:induction false} RawIsTokens(v: Value)
    ensures Raw(v) == Texts(Tokens(v))
    decreases v, 0
  {
    match v
    case Array(arr) =>
      ItemsAreTokens(arr, 0);
      Bracketed(LBracket, ItemTokens(arr, 0), RBracket);
    case Object(obj) =>
      MembersAreTokens(obj, 0);
      Bracketed(LBrace, MemberTokens(obj, 0), RBrace);
    case _ =>
      assert |Tokens(v)| == 1 && Tokens(v)[1..] == [];
      OneText(Tokens(v)[0]);
  }

  lemma Bracketed(open: Token, ts: seq<Token>, close: Token)
    ensures Texts([open] + ts + [close]) == TokenText(open) + Texts(ts) + TokenText(close)
  {
    TextsAppend([open] + ts, [close]);
    TextsAppend([open], ts);
    OneText(open);
    OneText(close);
  }

  lemma {:induction false} ItemsAreTokens(arr: seq<Value>, i: nat)
    requires i <= |arr|
    ensures ItemsFrom(arr, i) == Texts(ItemTokens(arr, i))
    decreases arr, |arr| - i
  {
    if i < |arr| {
      RawIsTokens(arr[i]);
      ItemsAreTokens(arr, i + 1);
      var sep := if i > 0 then [Comma] else [];
      assert Texts(sep) == (if i > 0 then "," else "") by { OneText(Comma); }
      TextsAppend(sep + Tokens(arr[i]), ItemTokens(arr, i + 1));
      TextsAppend(sep, Tokens(arr[i]));
    }
  }

  lemma {:induction false} MembersAreTokens(obj: seq<Member>, i: nat)
    requires i <= |obj|
    ensures MembersFrom(obj, i) == Texts(MemberTokens(obj, i))
    decreases obj, |obj| - i
  {
    if i < |obj| {
      RawIsTokens(obj[i].val);
      MembersAreTokens(obj, i + 1);
      MemberIsTokens(if i > 0 then [Comma] else [], obj[i].key, Tokens(obj[i].val), MemberTokens(obj, i + 1));
      assert Texts(if i > 0 then [Comma] else []) == (if i > 0 then "," else "") by { OneText(Comma); }
    }
  }

  lemma MemberIsTokens(sep: seq<Token>, key: string, ts: seq<Token>, more: seq<Token>)
    ensures Texts(sep + [TStr(key), Colon] + ts + more) == Texts(sep) + Quoted(key) + ":" + Texts(ts) + Texts(more)
  {
    KeyIsTokens(key);
    TextsAppend(sep + [TStr(key), Colon] + ts, more);
    TextsAppend(sep + [TStr(key), Colon], ts);
    TextsAppend(sep, [TStr(key), Colon]);
    Joined(Texts(sep), Quoted(key), ":");
  }

  lemma KeyIsTokens(key: string)
    ensures Texts([TStr(key), Colon]) == Quoted(key) + ":"
  {
    OneText(TStr(key));
    OneText(Colon);
    TextsAppend([TStr(key)], [Colon]);
    assert [TStr(key)] + [Colon] == [TStr(key), Colon];
  }

  // ---------------------------------------------------------------- nothing else is read

  /** The reader takes exactly the tokens of the value it returns: no trailing comma, nothing skipped. */
  lemma {:induction false} ReadTakesTokens(toks: seq<Token>, depth: nat, max: nat, finite: string -> bool)
    requires ReadValue(toks, depth, max, finite).Some?
    ensures var r := ReadValue(toks, depth, max, finite).value; toks == Tokens(r.0) + r.1
    decreases |toks|, 0
  {
    assert toks == [toks[0]] + toks[1..];
    if toks[0] == LBracket {
      ItemsTake(toks[1..], [], depth + 1, max, finite);
      var r := ReadItems(toks[1..], [], depth + 1, max, finite).value;
      BracketTakes(toks, ItemTokens(r.0, 0), RBracket, r.1);
    } else if toks[0] == LBrace {
      MembersTake(toks[1..], [], depth + 1, max, finite);
      var r := ReadMembers(toks[1..], [], depth + 1, max, finite).value;
      BracketTakes(toks, MemberTokens(r.0, 0), RBrace, r.1);
    }
  }

  lemma BracketTakes(toks: seq<Token>, inner: seq<Token>, close: Token, rest: seq<Token>)
    requires toks != [] && toks[1..] == inner + [close] + rest
    ensures toks == [toks[0]] + inner + [close] + rest
  {
    assert toks == [toks[0]] + toks[1..];
  }

  lemma ItemStep(toks: seq<Token>, acc: seq<Value>, depth: nat, max: nat, finite: string -> bool)
    returns (t: seq<Token>, v: Value, after: seq<Token>)
    requires ReadItems(toks, acc, depth, max, finite).Some? && toks[0] != RBracket
    ensures |t| <= |toks| && toks == (if acc == [] then [] else [Comma]) + t
    ensures ReadValue(t, depth, max, finite) == Some((v, after)) && |after| < |t|
    ensures ReadItems(after, acc + [v], depth, max, finite) == ReadItems(toks, acc, depth, max, finite)
  {
    t := if acc == [] then toks else toks[1..];
    v, after := ReadValue(t, depth, max, finite).value.0, ReadValue(t, depth, max, finite).value.1;
    assert acc != [] ==> toks == [Comma] + toks[1..];
  }

  // Items from number |acc| on.
  lemma {:induction false} ItemsTake(toks: seq<Token>, acc: seq<Value>, depth: nat, max: nat, finite: string -> bool)
    requires ReadItems(toks, acc, depth, max, finite).Some?
    ensures var r := ReadItems(toks, acc, depth, max, finite).value;
      acc <= r.0 && toks == ItemTokens(r.0, |acc|) + [RBracket] + r.1
    decreases |toks|, 1
  {
    if toks[0] == RBracket {
      assert toks == [RBracket] + toks[1..];
    } else {
      var t, v, after := ItemStep(toks, acc, depth, max, finite);
      ReadTakesTokens(t, depth, max, finite);
      ItemsTake(after, acc + [v], depth, max, finite);
      var r := ReadItems(toks, acc, depth, max, finite).value;
      ItemTakes(toks, acc, r.0, v, r.1, t, after);
    }
  }

  lemma ItemTakes(toks: seq<Token>, acc: seq<Value>, arr: seq<Value>, v: Value, rest: seq<Token>, t: seq<Token>,
      after: seq<Token>)
    requires acc + [v] <= arr && toks == (if acc == [] then [] else [Comma]) + t && t == Tokens(v) + after
    requires after == ItemTokens(arr, |acc| + 1) + [RBracket] + rest
    ensures acc <= arr && toks == ItemTokens(arr, |acc|) + [RBracket] + rest
  {
    assert arr[|acc|] == v;
    Regrouped(if acc == [] then [] else [Comma], Tokens(v), ItemTokens(arr, |acc| + 1), [RBracket], rest);
  }

  lemma Regrouped(sep: seq<Token>, w: seq<Token>, more: seq<Token>, close: seq<Token>, rest: seq<Token>)
    ensures sep + (w + (more + close + rest)) == (sep + w + more) + close + rest
  {
  }

  lemma MemberStep(toks: seq<Token>, acc: seq<Member>, depth: nat, max: nat, finite: string -> bool)
    returns (t: seq<Token>, m: Member, after: seq<Token>)
    requires ReadMembers(toks, acc, depth, max, finite).Some? && toks[0] != RBrace
    ensures |t| < |toks| && toks == (if acc == [] then [] else [Comma]) + ([TStr(m.key), Colon] + t)
    ensures ReadValue(t, depth, max, finite) == Some((m.val, after)) && |after| < |t|
    ensures ReadMembers(after, acc + [m], depth, max, finite) == ReadMembers(toks, acc, depth, max, finite)
  {
    var u := if acc == [] then toks else toks[1..];
    t := u[2..];
    var v := ReadValue(t, depth, max, finite).value;
    m, after := Member(u[0].s, v.0), v.1;
    assert u == [TStr(m.key), Colon] + t;
    assert acc != [] ==> toks == [Comma] + u;
  }

  lemma {:induction false} MembersTake(toks: seq<Token>, acc: seq<Member>, depth: nat, max: nat, finite: string -> bool)
    requires ReadMembers(toks, acc, depth, max, finite).Some?
    ensures var r := ReadMembers(toks, acc, depth, max, finite).value;
      acc <= r.0 && toks == MemberTokens(r.0, |acc|) + [RBrace] + r.1
    decreases |toks|, 1
  {
    if toks[0] == RBrace {
      assert toks == [RBrace] + toks[1..];
    } else {
      var t, m, after := MemberStep(toks, acc, depth, max, finite);
      ReadTakesTokens(t, depth, max, finite);
      MembersTake(after, acc + [m], depth, max, finite);
      var r := ReadMembers(toks, acc, depth, max, finite).value;
      MemberTakes(toks, acc, r.0, m, r.1, t, after);
    }
  }

  lemma MemberTakes(toks: seq<Token>, acc: seq<Member>, obj: seq<Member>, m: Member, rest: seq<Token>, t: seq<Token>,
      after: seq<Token>)
    requires acc + [m] <= obj && toks == (if acc == [] then [] else [Comma]) + ([TStr(m.key), Colon] + t)
    requires t == Tokens(m.val) + after && after == MemberTokens(obj, |acc| + 1) + [RBrace] + rest
    ensures acc <= obj && toks == MemberTokens(obj, |acc|) + [RBrace] + rest
  {
    assert obj[|acc|] == m;
    var sep, key := if acc == [] then [] else [Comma], [TStr(m.key), Colon];
    assert sep + (key + t) == (sep + key) + t;
    Regrouped(sep + key, Tokens(m.val), MemberTokens(obj, |acc| + 1), [RBrace], rest);
  }
}
