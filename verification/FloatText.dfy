module FloatText
  /**
    The number form of the sorted text (internal/contract/jsonparse.go, pyNumber and pyFloatRepr) keeps numbers
    apart: different doubles print differently in every layout, so equal sorted text means equal numbers.
  */
{
  import opened Canonical
  import opened Decimal
  import opened Json

  // ---------------------------------------------------------------- unique parts

  // The first occurrence of c splits a text in one way.
  lemma SplitUnique(a: string, b: string, a': string, b': string, c: char)
    requires a + [c] + b == a' + [c] + b' && c !in a && c !in a'
    ensures a == a' && b == b'
  {
    var s, s' := a + [c] + b, a' + [c] + b';
    assert s[|a|] == c && s'[|a'|] == c;
    assert a == s[..|a|] && a' == s'[..|a'|];
    assert b == s[|a| + 1..] && b' == s'[|a'| + 1..];
  }

  lemma SignUnique(neg: bool, a: string, neg': bool, a': string)
    requires a != [] && a' != [] && IsDigit(a[0]) && IsDigit(a'[0]) && Sign(neg) + a == Sign(neg') + a'
    ensures neg == neg' && a == a'
  {
    var s, s' := Sign(neg) + a, Sign(neg') + a';
    assert (s[0] == '-') == neg && (s'[0] == '-') == neg';
    assert a == s[|Sign(neg)|..] && a' == s'[|Sign(neg')|..];
  }

  predicate Trimmed(d: string) { d != [] && d[0] != '0' && d[|d| - 1] != '0' }

  // i zeros, the digits, j zeros.
  function Padded(i: nat, d: string, j: nat): string { ZeroDigits(i) + d + ZeroDigits(j) }

  lemma PaddedAt(i: nat, d: string, j: nat)
    requires Trimmed(d)
    ensures var s := Padded(i, d, j);
      && |s| == i + |d| + j && s[i] != '0' && s[i + |d| - 1] != '0' && s[i..i + |d|] == d
      && (forall k :: 0 <= k < i ==> s[k] == '0') && forall k :: i + |d| <= k < |s| ==> s[k] == '0'
  {
  }

  lemma PaddedUnique(i: nat, d: string, j: nat, i': nat, d': string, j': nat)
    requires Trimmed(d) && Trimmed(d') && Padded(i, d, j) == Padded(i', d', j')
    ensures i == i' && d == d'
  {
    PaddedAt(i, d, j);
    PaddedAt(i', d', j');
  }

  // ---------------------------------------------------------------- the fixed layouts

  predicate Fixed(exp: int) { -4 < exp + 1 <= 16 }

  function Whole(digits: string, exp: int): string
    requires Fixed(exp)
  {
    var decpt := exp + 1;
    if decpt <= 0 then "0" else if decpt >= |digits| then digits + ZeroDigits(decpt - |digits|) else digits[..decpt]
  }

  function Frac(digits: string, exp: int): string
    requires Fixed(exp)
  {
    var decpt := exp + 1;
    if decpt <= 0 then ZeroDigits(-decpt) + digits else if decpt >= |digits| then "0" else digits[decpt..]
  }

  function Lead(exp: int): nat { if exp + 1 <= 0 then -exp else 0 }

  function Trail(digits: string, exp: int): nat { if exp + 1 > 0 && exp + 1 >= |digits| then exp + 2 - |digits| else 0 }

  lemma LayoutIsFixed(digits: string, exp: int)
    requires digits != [] && AllDigits(digits) && Fixed(exp)
    ensures Layout(digits, exp) == Whole(digits, exp) + "." + Frac(digits, exp)
    ensures AllDigits(Whole(digits, exp)) && AllDigits(Frac(digits, exp)) && Whole(digits, exp) != []
  {
    var decpt := exp + 1;
    if decpt <= 0 {
      assert "0" + "." + (ZeroDigits(-decpt) + digits) == "0." + (ZeroDigits(-decpt) + digits);
    } else if decpt >= |digits| {
      assert digits + ZeroDigits(decpt - |digits|) + "." + "0" == digits + ZeroDigits(decpt - |digits|) + ".0";
    }
  }

  // All the digits of a fixed layout, and where its point is.
  lemma FixedDigits(digits: string, exp: int)
    requires digits != [] && Fixed(exp)
    ensures Whole(digits, exp) + Frac(digits, exp) == Padded(Lead(exp), digits, Trail(digits, exp))
    ensures |Whole(digits, exp)| == Lead(exp) + exp + 1
  {
    var decpt := exp + 1;
    if decpt <= 0 {
      assert "0" + (ZeroDigits(-decpt) + digits) == ZeroDigits(1 - decpt) + digits + ZeroDigits(0);
    } else if decpt >= |digits| {
      assert digits + ZeroDigits(decpt - |digits|) + "0" == ZeroDigits(0) + digits + ZeroDigits(decpt - |digits| + 1);
    } else {
      assert digits[..decpt] + digits[decpt..] == ZeroDigits(0) + digits + ZeroDigits(0);
    }
  }

  lemma FixedUnique(d: string, e: int, d': string, e': int)
    requires Trimmed(d) && Trimmed(d') && AllDigits(d) && AllDigits(d') && Fixed(e) && Fixed(e')
    requires Layout(d, e) == Layout(d', e')
    ensures d == d' && e == e'
  {
    LayoutIsFixed(d, e);
    LayoutIsFixed(d', e');
    SplitUnique(Whole(d, e), Frac(d, e), Whole(d', e'), Frac(d', e'), '.');
    FixedDigits(d, e);
    FixedDigits(d', e');
    PaddedUnique(Lead(e), d, Trail(d, e), Lead(e'), d', Trail(d', e'));
  }

  // ---------------------------------------------------------------- the exponent layout

  function Mantissa(digits: string): string
    requires digits != []
  {
    digits[..1] + Point(digits[1..])
  }

  lemma LayoutIsScientific(digits: string, exp: int)
    requires digits != [] && AllDigits(digits) && !Fixed(exp)
    ensures Layout(digits, exp) == Mantissa(digits) + ['e'] + Exponent(exp) && 'e' !in Mantissa(digits)
  {
    assert digits[..1] + Point(digits[1..]) + "e" + Exponent(exp) == Mantissa(digits) + ['e'] + Exponent(exp);
  }

  lemma MantissaUnique(d: string, d': string)
    requires d != [] && d' != [] && Mantissa(d) == Mantissa(d')
    ensures d == d'
  {
    MantissaRead(d);
    MantissaRead(d');
  }

  lemma MantissaRead(d: string)
    requires d != []
    ensures d == Mantissa(d)[..1] + if |Mantissa(d)| > 2 then Mantissa(d)[2..] else []
  {
    assert d == d[..1] + d[1..];
    if |d| > 1 { assert Mantissa(d)[2..] == d[1..]; }
  }

  function PadTwo(s: string): string { if |s| < 2 then "0" + s else s }

  lemma PadTwoKeeps(s: string)
    requires s != [] && AllDigits(s)
    ensures AllDigits(PadTwo(s)) && Atoi(PadTwo(s)) == Atoi(s)
  {
    if |s| < 2 {
      var t := "0" + s;
      assert t[..1] == "0" && s[..0] == "" && t[..1][..0] == "";
      assert Atoi(t[..1]) == Atoi("") * 10;
    }
  }

  lemma ExponentUnique(e: int, e': int)
    requires Exponent(e) == Exponent(e')
    ensures e == e'
  {
    var n, n' := if e < 0 then -e else e, if e' < 0 then -e' else e';
    assert Exponent(e) == (if e < 0 then "-" else "+") + PadTwo(Itoa(n));
    assert Exponent(e') == (if e' < 0 then "-" else "+") + PadTwo(Itoa(n'));
    assert Exponent(e)[1..] == PadTwo(Itoa(n)) && Exponent(e')[1..] == PadTwo(Itoa(n'));
    assert (Exponent(e)[0] == '-') == (e < 0) && (Exponent(e')[0] == '-') == (e' < 0);
    PadTwoKeeps(Itoa(n));
    PadTwoKeeps(Itoa(n'));
    AtoiOfItoa(n);
    AtoiOfItoa(n');
  }

  lemma ScientificUnique(d: string, e: int, d': string, e': int)
    requires d != [] && d' != [] && AllDigits(d) && AllDigits(d') && !Fixed(e) && !Fixed(e')
    requires Layout(d, e) == Layout(d', e')
    ensures d == d' && e == e'
  {
    LayoutIsScientific(d, e);
    LayoutIsScientific(d', e');
    SplitUnique(Mantissa(d), Exponent(e), Mantissa(d'), Exponent(e'), 'e');
    MantissaUnique(d, d');
    ExponentUnique(e, e');
  }

  // ---------------------------------------------------------------- different doubles print differently

  lemma HasExponent(d: string, e: int)
    requires d != [] && AllDigits(d)
    ensures 'e' in Layout(d, e) <==> !Fixed(e)
  {
    if Fixed(e) {
      LayoutIsFixed(d, e);
    } else {
      LayoutIsScientific(d, e);
      assert Layout(d, e)[|Mantissa(d)|] == 'e';
    }
  }

  lemma LayoutStarts(d: string, e: int)
    requires d != [] && AllDigits(d)
    ensures Layout(d, e) != [] && IsDigit(Layout(d, e)[0])
  {
    if Fixed(e) { LayoutIsFixed(d, e); } else { LayoutIsScientific(d, e); }
  }

  lemma NeverZero(d: string, e: int)
    requires Trimmed(d) && AllDigits(d)
    ensures Layout(d, e) != "0.0"
  {
    HasExponent(d, e);
    if Fixed(e) && Layout(d, e) == "0.0" {
      LayoutIsFixed(d, e);
      assert "0" + ['.'] + "0" == "0.0";
      SplitUnique(Whole(d, e), Frac(d, e), "0", "0", '.');
      FixedDigits(d, e);
      PaddedAt(Lead(e), d, Trail(d, e));
      assert false;
    }
  }

  function Body(f: Double): string
    requires Shortest(f)
  {
    match f case Zero(_) => "0.0" case Decimal(_, digits, exp) => Layout(digits, exp)
  }

  lemma BodyOf(f: Double)
    requires Shortest(f)
    ensures PyFloatRepr(f) == Sign(f.neg) + Body(f) && Body(f) != [] && IsDigit(Body(f)[0])
  {
    if f.Decimal? {
      assert AllDigits(f.digits);
      LayoutStarts(f.digits, f.exp);
    }
  }

  /** The printed form of a double determines it. */
  lemma ReprUnique(f: Double, g: Double)
    requires Shortest(f) && Shortest(g) && PyFloatRepr(f) == PyFloatRepr(g)
    ensures f == g
  {
    BodyOf(f);
    BodyOf(g);
    SignUnique(f.neg, Body(f), g.neg, Body(g));
    if f.Decimal? {
      assert AllDigits(f.digits) && Trimmed(f.digits);
      NeverZero(f.digits, f.exp);
      HasExponent(f.digits, f.exp);
    }
    if g.Decimal? {
      assert AllDigits(g.digits) && Trimmed(g.digits);
      NeverZero(g.digits, g.exp);
      HasExponent(g.digits, g.exp);
    }
    if f.Decimal? && g.Decimal? {
      if Fixed(f.exp) {
        FixedUnique(f.digits, f.exp, g.digits, g.exp);
      } else {
        ScientificUnique(f.digits, f.exp, g.digits, g.exp);
      }
    }
  }

  // ---------------------------------------------------------------- the printed number is the double

  function Tens(n: nat): nat { if n == 0 then 1 else 10 * Tens(n - 1) }

  lemma {:induction false} ZerosBefore(i: nat, d: string)
    requires AllDigits(d)
    ensures AllDigits(ZeroDigits(i) + d) && Atoi(ZeroDigits(i) + d) == Atoi(d)
    decreases |d|, i
  {
    var s := ZeroDigits(i) + d;
    if d != [] {
      ZerosBefore(i, d[..|d| - 1]);
      assert s[..|s| - 1] == ZeroDigits(i) + d[..|d| - 1];
    } else if i > 0 {
      ZerosBefore(i - 1, d);
      assert s[..|s| - 1] == ZeroDigits(i - 1) + d;
    }
  }

  lemma {:induction false} ZerosAfter(d: string, j: nat)
    requires AllDigits(d)
    ensures AllDigits(d + ZeroDigits(j)) && Atoi(d + ZeroDigits(j)) == Atoi(d) * Tens(j)
    decreases j
  {
    var s := d + ZeroDigits(j);
    if j == 0 {
      assert s == d;
    } else {
      ZerosAfter(d, j - 1);
      assert s[..|s| - 1] == d + ZeroDigits(j - 1);
      TenTimes(Atoi(d), Tens(j - 1));
    }
  }

  lemma TenTimes(a: nat, b: nat)
    ensures a * b * 10 == a * (10 * b)
  {
  }

  // m * 10^p and m' * 10^p' are the same number.
  ghost predicate SameValue(m: nat, p: int, m': nat, p': int) {
    if p <= p' then m == m' * Tens(p' - p) else m * Tens(p - p') == m'
  }

  // The text of a decimal exponent, nothing for none.
  ghost predicate ExponentText(tail: string, e: int) {
    || (tail == "" && e == 0)
    || exists x: string :: x != "" && AllDigits(x) && tail == "e" + (if e < 0 then "-" else "+") + x
         && Atoi(x) == if e < 0 then -e else e
  }

  // s writes out a sign, the digits before and after the point, and a power of ten.
  ghost predicate WritesOut(s: string, neg: bool, whole: string, frac: string, tail: string) {
    && whole != "" && AllDigits(whole) && AllDigits(frac)
    && s == Sign(neg) + (whole + Point(frac) + tail)
  }

  lemma FixedValue(digits: string, exp: int)
    requires digits != [] && AllDigits(digits) && Fixed(exp)
    ensures var whole, frac := Whole(digits, exp), Frac(digits, exp);
      && AllDigits(whole + frac) && frac != ""
      && SameValue(Atoi(whole + frac), -|frac|, Atoi(digits), exp + 1 - |digits|)
  {
    LayoutIsFixed(digits, exp);
    FixedDigits(digits, exp);
    ZerosBefore(Lead(exp), digits);
    ZerosAfter(ZeroDigits(Lead(exp)) + digits, Trail(digits, exp));
  }

  lemma ExponentIs(exp: int)
    ensures ExponentText("e" + Exponent(exp), exp)
  {
    var n := if exp < 0 then -exp else exp;
    var x := PadTwo(Itoa(n));
    PadTwoKeeps(Itoa(n));
    AtoiOfItoa(n);
    assert "e" + Exponent(exp) == "e" + (if exp < 0 then "-" else "+") + x;
  }

  lemma FixedWrites(neg: bool, digits: string, exp: int)
    requires digits != [] && AllDigits(digits) && Fixed(exp)
    ensures WritesOut(Sign(neg) + Layout(digits, exp), neg, Whole(digits, exp), Frac(digits, exp), "")
  {
    FixedValue(digits, exp);
    LayoutIsFixed(digits, exp);
    PointWrites(neg, Layout(digits, exp), Whole(digits, exp), Frac(digits, exp));
  }

  lemma PointWrites(neg: bool, s: string, whole: string, frac: string)
    requires s == whole + "." + frac && whole != "" && frac != "" && AllDigits(whole) && AllDigits(frac)
    ensures WritesOut(Sign(neg) + s, neg, whole, frac, "")
  {
    assert s == whole + Point(frac) + "";
  }

  lemma ScientificWrites(neg: bool, digits: string, exp: int)
    requires digits != [] && AllDigits(digits) && !Fixed(exp)
    ensures WritesOut(Sign(neg) + Layout(digits, exp), neg, digits[..1], digits[1..], "e" + Exponent(exp))
    ensures digits[..1] + digits[1..] == digits
  {
    LayoutIsScientific(digits, exp);
    assert Mantissa(digits) + ['e'] + Exponent(exp) == digits[..1] + Point(digits[1..]) + ("e" + Exponent(exp));
  }

  lemma ZeroWrites(neg: bool)
    ensures WritesOut(PyFloatRepr(Zero(neg)), neg, "0", "0", "") && AllDigits("0" + "0") && Atoi("0" + "0") == 0
  {
    assert "0" + "0" == ZeroDigits(2) + "";
    ZerosBefore(2, "");
    assert Sign(neg) + ("0" + Point("0") + "") == PyFloatRepr(Zero(neg));
  }

  /** The printed form writes out the number the double stands for, with an exponent exactly below 1e-4 and from
      1e16 up. */
  lemma PrintsTheNumber(f: Double) returns (whole: string, frac: string, tail: string, e: int)
    requires Shortest(f)
    ensures WritesOut(PyFloatRepr(f), f.neg, whole, frac, tail) && ExponentText(tail, e) && AllDigits(whole + frac)
    ensures f.Zero? ==> Atoi(whole + frac) == 0
    ensures f.Decimal? ==> AllDigits(f.digits)
    ensures f.Decimal? ==> SameValue(Atoi(whole + frac), e - |frac|, Atoi(f.digits), f.exp + 1 - |f.digits|)
    ensures f.Decimal? ==> (tail == "" <==> -4 <= f.exp < 16)
  {
    if f.Zero? {
      whole, frac, tail, e := "0", "0", "", 0;
      ZeroWrites(f.neg);
    } else {
      whole, frac, tail, e := PrintsDecimal(f.neg, f.digits, f.exp);
    }
  }

  lemma PrintsDecimal(neg: bool, digits: string, exp: int) returns (whole: string, frac: string, tail: string, e: int)
    requires digits != [] && AllDigits(digits)
    ensures WritesOut(Sign(neg) + Layout(digits, exp), neg, whole, frac, tail) && ExponentText(tail, e)
    ensures AllDigits(whole + frac)
    ensures SameValue(Atoi(whole + frac), e - |frac|, Atoi(digits), exp + 1 - |digits|)
    ensures tail == "" <==> -4 <= exp < 16
  {
    if Fixed(exp) {
      whole, frac, tail, e := Whole(digits, exp), Frac(digits, exp), "", 0;
      FixedWrites(neg, digits, exp);
      FixedValue(digits, exp);
    } else {
      whole, frac, tail, e := digits[..1], digits[1..], "e" + Exponent(exp), exp;
      ScientificWrites(neg, digits, exp);
      ExponentIs(exp);
    }
  }

  // ---------------------------------------------------------------- number literals

  // What a literal stands for in Python: an integer by its text (-0 is 0), anything else by its double.
  ghost predicate SameNumber(a: string, b: string, double: string -> Double) {
    if IsFloatLiteral(a) then IsFloatLiteral(b) && double(a) == double(b)
    else !IsFloatLiteral(b) && (a == b || (a == "0" && b == "-0") || (a == "-0" && b == "0"))
  }

  lemma ReprIsFloat(f: Double)
    requires Shortest(f)
    ensures IsFloatLiteral(PyFloatRepr(f))
  {
    BodyOf(f);
    var s, n := PyFloatRepr(f), |Sign(f.neg)|;
    if f.Decimal? {
      var d, e := f.digits, f.exp;
      assert AllDigits(d);
      if Fixed(e) {
        LayoutIsFixed(d, e);
        assert s[n + |Whole(d, e)|] == Body(f)[|Whole(d, e)|] == '.';
      } else {
        LayoutIsScientific(d, e);
        assert s[n + |Mantissa(d)|] == Body(f)[|Mantissa(d)|] == 'e';
      }
    } else {
      assert s[n + 1] == Body(f)[1] == '.';
    }
  }

  /** Two number literals have the same form exactly when they stand for the same number. */
  lemma NumberFormExact(a: string, b: string, double: string -> Double)
    requires Shortest(double(a)) && Shortest(double(b))
    ensures PyNumber(a, double) == PyNumber(b, double) <==> SameNumber(a, b, double)
  {
    if IsFloatLiteral(a) { ReprIsFloat(double(a)); }
    if IsFloatLiteral(b) { ReprIsFloat(double(b)); }
    if IsFloatLiteral(a) && IsFloatLiteral(b) && PyNumber(a, double) == PyNumber(b, double) {
      ReprUnique(double(a), double(b));
    }
  }

  /** With the real number form: equal sorted text means equal up to member order, and numbers are compared by
      what they stand for. */
  lemma SortedTextDecides(v: Value, w: Value, double: string -> Double, max: nat, finite: string -> bool)
    requires Readable(v, 0, max, finite) && Readable(w, 0, max, finite) && forall lit: string :: Shortest(double(lit))
    ensures var py := NumberForm(double);
      && (Raw(Canon(v, py)) == Raw(Canon(w, py)) <==> Same(v, w, py))
      && forall a: string, b: string :: py(a) == py(b) <==> SameNumber(a, b, double)
  {
    PyNumberNormalises(double);
    SortedTextExact(v, w, NumberForm(double), max, finite);
    forall a: string, b: string ensures NumberForm(double)(a) == NumberForm(double)(b) <==> SameNumber(a, b, double) {
      NumberFormExact(a, b, double);
    }
  }
}
