module Canonical
  /**
    Canonical text of a JSON tree (internal/contract/jsonparse.go): write with sorted keys and Python's
    number form. Two trees have the same sorted text exactly when they are equal up to member order at
    every level and number normalisation.
  */
{
  import opened Wrappers
  import opened Json
  import opened Decimal

  // ---------------------------------------------------------------- numbers

  // A double as its shortest round-trip digits d.ddd x 10^exp, or a zero.
  datatype Double = Zero(neg: bool) | Decimal(neg: bool, digits: string, exp: int)

  // No zero at either end of the digits: the one spelling a shortest form has.
  ghost predicate Shortest(f: Double) {
    f.Decimal? ==>
      && f.digits != [] && f.digits[0] != '0' && f.digits[|f.digits| - 1] != '0'
      && forall i :: 0 <= i < |f.digits| ==> IsDigit(f.digits[i])
  }

  function ZeroDigits(n: nat): (s: string)
    ensures |s| == n && forall i :: 0 <= i < n ==> s[i] == '0'
  {
    seq(n, _ => '0')
  }

  function PyFloatRepr(f: Double): string
    requires Shortest(f)
  {
    match f
    case Zero(neg) => if neg then "-0.0" else "0.0"
    case Decimal(neg, digits, exp) => Sign(neg) + Layout(digits, exp)
  }

  function Layout(digits: string, exp: int): string
    requires digits != []
  {
    var decpt := exp + 1;
    if decpt <= -4 || decpt > 16 then
      digits[..1] + Point(digits[1..]) + "e" + Exponent(exp)
    else if decpt <= 0 then "0." + (ZeroDigits(-decpt) + digits)
    else if decpt >= |digits| then digits + ZeroDigits(decpt - |digits|) + ".0"
    else digits[..decpt] + "." + digits[decpt..]
  }

  function Exponent(exp: int): string {
    var e := Itoa(if exp < 0 then -exp else exp);
    (if exp < 0 then "-" else "+") + (if |e| < 2 then "0" + e else e)
  }

  // Integers are kept, except -0; a literal with a fraction or an exponent goes through its double.
  function PyNumber(lit: string, double: string -> Double): string
    requires Shortest(double(lit))
  {
    if !IsFloatLiteral(lit) then (if lit == "-0" then "0" else lit) else PyFloatRepr(double(lit))
  }

  lemma {:induction false} DigitsRun(s: string, i: nat, j: nat)
    requires i <= j <= |s| && (forall k :: i <= k < j ==> IsDigit(s[k])) && (j < |s| ==> !IsDigit(s[j]))
    ensures Digits(s, i) == j
    decreases j - i
  {
    if i < j { DigitsRun(s, i + 1, j); }
  }

  predicate DigitsIn(s: string, i: nat, j: nat)
    requires i <= j <= |s|
  {
    forall k :: i <= k < j ==> IsDigit(s[k])
  }

  // Integer digits in [i0, i1), a fraction in [i1, i2), an exponent from i2 on; the last two may be empty.
  lemma ScanParts(s: string, i0: nat, i1: nat, i2: nat)
    requires s != [] && i0 == (if s[0] == '-' then 1 else 0) && i0 < i1 <= i2 <= |s|
    requires DigitsIn(s, i0, i1) && (s[i0] == '0' ==> i1 == i0 + 1)
    requires if i1 < i2 then s[i1] == '.' && i1 + 1 < i2 && DigitsIn(s, i1 + 1, i2) else true
    requires i2 < |s| ==>
      s[i2] == 'e' && i2 + 2 < |s| && (s[i2 + 1] == '+' || s[i2 + 1] == '-') && DigitsIn(s, i2 + 2, |s|)
    ensures ValidNumber(s)
  {
    DigitsRun(s, i0, i1);
    if i1 < i2 { DigitsRun(s, i1 + 1, i2); }
    if i2 < |s| { DigitsRun(s, i2 + 2, |s|); }
  }

  function Sign(neg: bool): string { if neg then "-" else "" }

  lemma SignedDigits(neg: bool, whole: string, tail: string)
    requires whole != [] && DigitsIn(whole, 0, |whole|)
    ensures var s := Sign(neg) + whole + tail; var i0 := |Sign(neg)|;
      && (s[0] == '-' <==> neg) && DigitsIn(s, i0, i0 + |whole|) && s[i0] == whole[0]
      && forall k :: 0 <= k < |tail| ==> s[i0 + |whole| + k] == tail[k]
  {
  }

  lemma FixedOf(s: string, i0: nat, i1: nat, frac: string)
    requires s != [] && i0 == (if s[0] == '-' then 1 else 0) && i0 < i1 && |s| == i1 + 1 + |frac|
    requires DigitsIn(s, i0, i1) && (s[i0] == '0' ==> i1 == i0 + 1) && s[i1] == '.'
    requires frac != [] && DigitsIn(frac, 0, |frac|) && forall k :: 0 <= k < |frac| ==> s[i1 + 1 + k] == frac[k]
    ensures ValidNumber(s)
  {
    DigitsShift(s, frac, i1 + 1, 0, |frac|);
    ScanParts(s, i0, i1, |s|);
  }

  // The fixed layout: digits, a point, digits.
  lemma FixedValid(neg: bool, whole: string, frac: string)
    requires whole != [] && DigitsIn(whole, 0, |whole|) && (whole[0] == '0' ==> |whole| == 1)
    requires frac != [] && DigitsIn(frac, 0, |frac|)
    ensures ValidNumber(Sign(neg) + (whole + "." + frac))
  {
    var s := Sign(neg) + (whole + "." + frac);
    FixedText(Sign(neg), whole, frac, s);
    DigitsShift(s, whole + "." + frac, |Sign(neg)|, 0, |whole|);
    FixedOf(s, |Sign(neg)|, |Sign(neg)| + |whole|, frac);
  }

  // Where the parts of the fixed layout are.
  lemma FixedText(sign: string, whole: string, frac: string, s: string)
    requires s == sign + (whole + "." + frac)
    ensures |s| == |sign| + |whole| + 1 + |frac|
    ensures forall k :: 0 <= k < |whole + "." + frac| ==> s[|sign| + k] == (whole + "." + frac)[k]
    ensures s[|sign| + |whole|] == '.' && forall k :: 0 <= k < |frac| ==> s[|sign| + |whole| + 1 + k] == frac[k]
  {
  }

  lemma ExponentParts(exp: int)
    ensures var e := Exponent(exp); |e| > 2 && (e[0] == '+' || e[0] == '-') && DigitsIn(e, 1, |e|)
  {
    var e := Itoa(if exp < 0 then -exp else exp);
    var f := if |e| < 2 then "0" + e else e;
    forall k | 0 <= k < |f| ensures IsDigit(f[k]) { }
    assert Exponent(exp) == (if exp < 0 then "-" else "+") + f;
  }

  function Point(frac: string): string { if frac == [] then "" else "." + frac }

  lemma TailParts(frac: string, exp: int)
    requires DigitsIn(frac, 0, |frac|)
    ensures var tail := Point(frac) + ("e" + Exponent(exp)); var n := |Point(frac)|;
      && (n > 0 ==> n > 1 && tail[0] == '.' && DigitsIn(tail, 1, n))
      && n + 2 < |tail| && tail[n] == 'e' && (tail[n + 1] == '+' || tail[n + 1] == '-') && DigitsIn(tail, n + 2, |tail|)
  {
    ExponentParts(exp);
    var ex, n := Exponent(exp), |Point(frac)|;
    var tail := Point(frac) + ("e" + ex);
    forall k | n + 2 <= k < |tail| ensures IsDigit(tail[k]) { assert tail[k] == ex[k - n - 1]; }
    forall k | 1 <= k < n ensures IsDigit(tail[k]) { assert tail[k] == frac[k - 1]; }
    assert tail[n + 1] == ex[0];
  }

  lemma DigitsShift(s: string, tail: string, o: nat, i: nat, j: nat)
    requires |s| == o + |tail| && (forall k :: 0 <= k < |tail| ==> s[o + k] == tail[k])
    requires i <= j <= |tail| && DigitsIn(tail, i, j)
    ensures DigitsIn(s, o + i, o + j)
  {
    forall k | o + i <= k < o + j ensures IsDigit(s[k]) { assert s[o + (k - o)] == tail[k - o]; }
  }

  // A signed digit, perhaps a fraction of length n, then an exponent.
  lemma SignedTail(neg: bool, first: string, tail: string, n: nat)
    requires |first| == 1 && DigitsIn(first, 0, 1) && n + 2 < |tail|
    requires n > 0 ==> n > 1 && tail[0] == '.' && DigitsIn(tail, 1, n)
    requires tail[n] == 'e' && (tail[n + 1] == '+' || tail[n + 1] == '-') && DigitsIn(tail, n + 2, |tail|)
    ensures ValidNumber(Sign(neg) + first + tail)
  {
    SignedDigits(neg, first, tail);
    SignedTailOf(Sign(neg) + first + tail, |Sign(neg)|, |Sign(neg)| + |first|, tail, n);
  }

  lemma SignedTailOf(s: string, i0: nat, o: nat, tail: string, n: nat)
    requires o == i0 + 1 && |s| == o + |tail| && i0 == (if s[0] == '-' then 1 else 0) && IsDigit(s[i0])
    requires forall k :: 0 <= k < |tail| ==> s[o + k] == tail[k]
    requires n + 2 < |tail| && (n > 0 ==> n > 1 && tail[0] == '.' && DigitsIn(tail, 1, n))
    requires tail[n] == 'e' && (tail[n + 1] == '+' || tail[n + 1] == '-') && DigitsIn(tail, n + 2, |tail|)
    ensures ValidNumber(s)
  {
    if n > 0 { DigitsShift(s, tail, o, 1, n); }
    DigitsShift(s, tail, o, n + 2, |tail|);
    assert s[o + 0] == tail[0] && s[o + n] == tail[n] && s[o + (n + 1)] == tail[n + 1];
    ScanParts(s, i0, o, o + n);
  }

  // The exponent layout.
  lemma ScientificValid(neg: bool, first: string, frac: string, exp: int)
    requires |first| == 1 && DigitsIn(first, 0, 1) && DigitsIn(frac, 0, |frac|)
    ensures ValidNumber(Sign(neg) + (first + Point(frac) + "e" + Exponent(exp)))
  {
    TailParts(frac, exp);
    SignedTail(neg, first, Point(frac) + ("e" + Exponent(exp)), |Point(frac)|);
    Reassociate(Sign(neg), first, Point(frac), "e", Exponent(exp));
  }

  lemma Reassociate(a: string, b: string, c: string, d: string, e: string)
    ensures a + (b + c + d + e) == a + b + (c + (d + e))
  {
  }

  lemma LayoutValid(neg: bool, digits: string, exp: int)
    requires Shortest(Decimal(neg, digits, exp))
    ensures ValidNumber(Sign(neg) + Layout(digits, exp))
  {
    var decpt := exp + 1;
    if decpt <= -4 || decpt > 16 {
      ScientificValid(neg, digits[..1], digits[1..], exp);
    } else {
      PlainValid(neg, digits, exp);
    }
  }

  lemma ZerosBefore(neg: bool, digits: string, n: nat)
    requires digits != [] && DigitsIn(digits, 0, |digits|)
    ensures ValidNumber(Sign(neg) + ("0." + (ZeroDigits(n) + digits)))
  {
    FixedValid(neg, "0", ZeroDigits(n) + digits);
    assert "0" + "." + (ZeroDigits(n) + digits) == "0." + (ZeroDigits(n) + digits);
  }

  lemma ZerosAfter(neg: bool, digits: string, n: nat)
    requires digits != [] && DigitsIn(digits, 0, |digits|) && digits[0] != '0'
    ensures ValidNumber(Sign(neg) + (digits + ZeroDigits(n) + ".0"))
  {
    FixedValid(neg, digits + ZeroDigits(n), "0");
    assert digits + ZeroDigits(n) + "." + "0" == digits + ZeroDigits(n) + ".0";
  }

  lemma PlainValid(neg: bool, digits: string, exp: int)
    requires Shortest(Decimal(neg, digits, exp)) && -4 < exp + 1 <= 16
    ensures ValidNumber(Sign(neg) + Layout(digits, exp))
  {
    var decpt := exp + 1;
    if decpt <= 0 {
      ZerosBefore(neg, digits, -decpt);
    } else if decpt >= |digits| {
      ZerosAfter(neg, digits, decpt - |digits|);
    } else {
      FixedValid(neg, digits[..decpt], digits[decpt..]);
    }
  }

  /** The normalised form of a number literal is a number literal. */
  lemma PyNumberValid(lit: string, double: string -> Double)
    requires ValidNumber(lit) && Shortest(double(lit))
    ensures ValidNumber(PyNumber(lit, double))
  {
    if IsFloatLiteral(lit) {
      match double(lit)
      case Zero(neg) =>
        FixedValid(neg, "0", "0");
        assert Sign(neg) + ("0" + "." + "0") == PyFloatRepr(Zero(neg));
      case Decimal(neg, digits, exp) => LayoutValid(neg, digits, exp);
    } else {
      assert ValidNumber("0") by { DigitsRun("0", 0, 1); }
    }
  }

  // What the sorted printer needs of the number form.
  ghost predicate Normaliser(py: string -> string) {
    forall lit: string :: ValidNumber(lit) ==> ValidNumber(py(lit))
  }

  // The number form as the sorted printer uses it.
  ghost function NumberForm(double: string -> Double): string -> string
    requires forall lit: string :: Shortest(double(lit))
  {
    lit => PyNumber(lit, double)
  }

  lemma PyNumberNormalises(double: string -> Double)
    requires forall lit: string :: Shortest(double(lit))
    ensures Normaliser(NumberForm(double))
  {
    forall lit: string | ValidNumber(lit) ensures ValidNumber(NumberForm(double)(lit)) { PyNumberValid(lit, double); }
  }

  // ---------------------------------------------------------------- key order

  // Lexicographic by code point, which is the byte order of UTF-8.
  predicate KeyLess(a: string, b: string) {
    b != [] && (a == [] || a[0] < b[0] || (a[0] == b[0] && KeyLess(a[1..], b[1..])))
  }

  lemma {:induction false} KeyOrder(a: string, b: string)
    ensures !(KeyLess(a, b) && KeyLess(b, a)) && (a != b ==> KeyLess(a, b) || KeyLess(b, a)) && !KeyLess(a, a)
    decreases |a|
  {
    if a != [] {
      KeyOrder(a[1..], a[1..]);
      if b != [] && a[0] == b[0] {
        KeyOrder(a[1..], b[1..]);
        if a[1..] == b[1..] { assert a == [a[0]] + a[1..] == b; }
      }
    }
  }

  lemma {:induction false} KeyTransitive(a: string, b: string, c: string)
    requires KeyLess(a, b) && KeyLess(b, c)
    ensures KeyLess(a, c)
    decreases |a|
  {
    if a != [] && a[0] == b[0] == c[0] { KeyTransitive(a[1..], b[1..], c[1..]); }
  }

  // a is before b: where they first differ its character is the smaller, or it ends there.
  ghost predicate Before(a: string, b: string, k: nat) {
    && k <= |a| && k < |b| && a[..k] == b[..k]
    && (k == |a| || a[k] < b[k])
  }

  /** Keys are ordered by their first different character, a prefix first. */
  lemma {:induction false} KeysByCharacter(a: string, b: string)
    ensures KeyLess(a, b) <==> exists k: nat :: Before(a, b, k)
    decreases |a|
  {
    if b != [] && a != [] && a[0] == b[0] {
      KeysByCharacter(a[1..], b[1..]);
      if KeyLess(a[1..], b[1..]) {
        var k: nat :| Before(a[1..], b[1..], k);
        assert a[..k + 1] == [a[0]] + a[1..][..k] && b[..k + 1] == [b[0]] + b[1..][..k];
        assert Before(a, b, k + 1);
      }
      if k: nat :| Before(a, b, k) {
        assert k > 0;
        assert a[1..][..k - 1] == a[..k][1..] && b[1..][..k - 1] == b[..k][1..];
        assert Before(a[1..], b[1..], k - 1);
      }
    } else if b != [] {
      if KeyLess(a, b) { assert Before(a, b, 0); }
      if k: nat :| Before(a, b, k) {
        if k > 0 { assert a[..k][0] == b[..k][0]; }
      }
    }
  }

  function InsertMember(ms: seq<Member>, m: Member): (r: seq<Member>)
    ensures |r| == |ms| + 1 && forall x :: x in r <==> x == m || x in ms
  {
    if ms == [] || !KeyLess(m.key, ms[|ms| - 1].key) then ms + [m]
    else
      assert ms == ms[..|ms| - 1] + [ms[|ms| - 1]];
      InsertMember(ms[..|ms| - 1], m) + [ms[|ms| - 1]]
  }

  function SortMembers(ms: seq<Member>): (r: seq<Member>)
    ensures |r| == |ms| && forall x :: x in r <==> x in ms
  {
    if ms == [] then []
    else
      assert ms == ms[..|ms| - 1] + [ms[|ms| - 1]];
      InsertMember(SortMembers(ms[..|ms| - 1]), ms[|ms| - 1])
  }

  ghost predicate Ascending(ms: seq<Member>) {
    forall i, j :: 0 <= i < j < |ms| ==> KeyLess(ms[i].key, ms[j].key)
  }

  lemma {:induction false} InsertAscends(ms: seq<Member>, m: Member)
    requires Ascending(ms) && forall i :: 0 <= i < |ms| ==> ms[i].key != m.key
    ensures Ascending(InsertMember(ms, m))
    decreases |ms|
  {
    if ms != [] {
      var z := ms[|ms| - 1];
      KeyOrder(m.key, z.key);
      if KeyLess(m.key, z.key) {
        InsertAscends(ms[..|ms| - 1], m);
        var r := InsertMember(ms[..|ms| - 1], m);
        forall i | 0 <= i < |r| ensures KeyLess(r[i].key, z.key) {
          assert r[i] in r;
        }
      } else {
        forall i | 0 <= i < |ms| ensures KeyLess(ms[i].key, m.key) {
          if i < |ms| - 1 { KeyTransitive(ms[i].key, z.key, m.key); }
        }
      }
    }
  }

  lemma {:induction false} SortAscends(ms: seq<Member>)
    requires DistinctKeys(ms)
    ensures Ascending(SortMembers(ms))
    decreases |ms|
  {
    if ms != [] {
      var r := SortMembers(ms[..|ms| - 1]);
      SortAscends(ms[..|ms| - 1]);
      forall i | 0 <= i < |r| ensures r[i].key != ms[|ms| - 1].key {
        assert r[i] in r;
        var k :| 0 <= k < |ms| - 1 && ms[k] == r[i];
      }
      InsertAscends(r, ms[|ms| - 1]);
    }
  }

  lemma LastIsLargest(a: seq<Member>, x: Member)
    requires Ascending(a) && x in a && a != []
    ensures x == a[|a| - 1] || KeyLess(x.key, a[|a| - 1].key)
  {
    var i :| 0 <= i < |a| && a[i] == x;
  }

  // Members in strictly ascending key order are determined by their set.
  lemma {:induction false} AscendingUnique(a: seq<Member>, b: seq<Member>)
    requires Ascending(a) && Ascending(b) && |a| == |b| && forall x :: x in a <==> x in b
    ensures a == b
    decreases |a|
  {
    if a != [] {
      var x, y := a[|a| - 1], b[|b| - 1];
      assert x in a && y in b;
      LastIsLargest(a, y);
      LastIsLargest(b, x);
      KeyOrder(x.key, y.key);
      var a0, b0 := a[..|a| - 1], b[..|b| - 1];
      assert a == a0 + [x] && b == b0 + [y];
      KeyOrder(x.key, x.key);
      forall z ensures z in a0 <==> z in b0 {
        if z in a0 { assert z in a; assert z != x; }
        if z in b0 { assert z in b; assert z != y; }
      }
      AscendingUnique(a0, b0);
    }
  }

  // ---------------------------------------------------------------- canonical form

  // Members sorted at every level, numbers normalised.
  function Canon(v: Value, py: string -> string): Value
    decreases v, 0
  {
    match v
    case Number(lit) => Number(py(lit))
    case Array(arr) => Array(CanonItems(arr, py))
    case Object(obj) => Object(SortMembers(CanonMembers(obj, py)))
    case _ => v
  }

  function CanonItems(arr: seq<Value>, py: string -> string): (r: seq<Value>)
    ensures |r| == |arr| && forall i :: 0 <= i < |arr| ==> r[i] == Canon(arr[i], py)
    decreases arr, 1
  {
    if arr == [] then [] else CanonItems(arr[..|arr| - 1], py) + [Canon(arr[|arr| - 1], py)]
  }

  function CanonMembers(obj: seq<Member>, py: string -> string): (r: seq<Member>)
    ensures |r| == |obj| && forall i :: 0 <= i < |obj| ==> r[i] == Member(obj[i].key, Canon(obj[i].val, py))
    decreases obj, 1
  {
    if obj == [] then []
    else CanonMembers(obj[..|obj| - 1], py) + [Member(obj[|obj| - 1].key, Canon(obj[|obj| - 1].val, py))]
  }

  // Equal up to member order at every level and number normalisation.
  ghost predicate Same(v: Value, w: Value, py: string -> string)
    decreases v
  {
    match v
    case Number(lit) => w.Number? && py(lit) == py(w.lit)
    case Array(arr) => w.Array? && |arr| == |w.arr| && forall i :: 0 <= i < |arr| ==> Same(arr[i], w.arr[i], py)
    case Object(obj) =>
      && w.Object? && |obj| == |w.obj|
      && forall i :: 0 <= i < |obj| ==>
        exists j :: 0 <= j < |obj| && obj[i].key == w.obj[j].key && Same(obj[i].val, w.obj[j].val, py)
    case _ => v == w
  }

  lemma {:induction false} CanonReadable(v: Value, py: string -> string, d: nat, max: nat, finite: string -> bool,
      all: string -> bool)
    requires Readable(v, d, max, finite) && Normaliser(py) && forall s: string :: all(s)
    ensures Readable(Canon(v, py), d, max, all)
    decreases v
  {
    match v
    case Array(arr) =>
      forall i | 0 <= i < |arr| ensures Readable(Canon(arr[i], py), d + 1, max, all) {
        CanonReadable(arr[i], py, d + 1, max, finite, all);
      }
    case Object(obj) =>
      var ms := CanonMembers(obj, py);
      forall i | 0 <= i < |obj| ensures Readable(ms[i].val, d + 1, max, all) {
        CanonReadable(obj[i].val, py, d + 1, max, finite, all);
      }
      SortAscends(ms);
      SortedReadable(ms, d + 1, max, all);
    case _ =>
  }

  lemma SortedReadable(ms: seq<Member>, d: nat, max: nat, finite: string -> bool)
    requires DistinctKeys(ms) && Ascending(SortMembers(ms))
      && forall i :: 0 <= i < |ms| ==> Readable(ms[i].val, d, max, finite)
    ensures DistinctKeys(SortMembers(ms))
      && forall i :: 0 <= i < |ms| ==> Readable(SortMembers(ms)[i].val, d, max, finite)
  {
    var r := SortMembers(ms);
    forall i | 0 <= i < |r| ensures Readable(r[i].val, d, max, finite) {
      assert r[i] in r;
      var k :| 0 <= k < |ms| && ms[k] == r[i];
    }
    forall i, j | 0 <= i < j < |r| ensures r[i].key != r[j].key { KeyOrder(r[i].key, r[i].key); }
  }

  // Printing is injective on readable trees.
  lemma RawInjective(v: Value, w: Value, max: nat, finite: string -> bool)
    requires Readable(v, 0, max, finite) && Readable(w, 0, max, finite) && Raw(v) == Raw(w)
    ensures v == w
  {
    RawRoundTrip(v, max, finite);
    RawRoundTrip(w, max, finite);
  }

  lemma {:induction false} SameIsCanonEqual(v: Value, w: Value, py: string -> string, d: nat, max: nat,
      finite: string -> bool)
    requires Readable(v, d, max, finite) && Readable(w, d, max, finite)
    ensures Canon(v, py) == Canon(w, py) <==> Same(v, w, py)
    decreases v
  {
    if v.Array? && w.Array? && |v.arr| == |w.arr| {
      forall i | 0 <= i < |v.arr| ensures Canon(v.arr[i], py) == Canon(w.arr[i], py) <==> Same(v.arr[i], w.arr[i], py) {
        SameIsCanonEqual(v.arr[i], w.arr[i], py, d + 1, max, finite);
      }
      var a, b := CanonItems(v.arr, py), CanonItems(w.arr, py);
      if a == b {
        forall i | 0 <= i < |v.arr| ensures Same(v.arr[i], w.arr[i], py) { assert a[i] == b[i]; }
      }
    } else if v.Array? && w.Array? {
      assert |CanonItems(v.arr, py)| != |CanonItems(w.arr, py)|;
    } else if v.Object? && w.Object? {
      forall i, j | 0 <= i < |v.obj| && 0 <= j < |w.obj|
        ensures Canon(v.obj[i].val, py) == Canon(w.obj[j].val, py) <==> Same(v.obj[i].val, w.obj[j].val, py)
      {
        SameIsCanonEqual(v.obj[i].val, w.obj[j].val, py, d + 1, max, finite);
      }
      SameMembers(v.obj, w.obj, py);
    }
  }

  // For each pair of members, equal canonical values are the same value.
  ghost predicate MembersAgree(obj: seq<Member>, other: seq<Member>, py: string -> string) {
    forall i, j :: 0 <= i < |obj| && 0 <= j < |other| ==>
      (Canon(obj[i].val, py) == Canon(other[j].val, py) <==> Same(obj[i].val, other[j].val, py))
  }

  lemma PartnerMember(obj: seq<Member>, other: seq<Member>, py: string -> string, i: nat)
    requires MembersAgree(obj, other, py) && Same(Object(obj), Object(other), py) && i < |obj|
    ensures CanonMembers(obj, py)[i] in CanonMembers(other, py)
  {
    var j :| 0 <= j < |obj| && obj[i].key == other[j].key && Same(obj[i].val, other[j].val, py);
    assert CanonMembers(obj, py)[i] == CanonMembers(other, py)[j];
  }

  lemma SameMembersSort(obj: seq<Member>, other: seq<Member>, py: string -> string)
    requires DistinctKeys(obj) && DistinctKeys(other) && MembersAgree(obj, other, py)
    requires Same(Object(obj), Object(other), py)
    ensures SortMembers(CanonMembers(obj, py)) == SortMembers(CanonMembers(other, py))
  {
    var a, b := CanonMembers(obj, py), CanonMembers(other, py);
    forall i | 0 <= i < |a| ensures a[i] in b { PartnerMember(obj, other, py, i); }
    SameSetBySize(a, b);
    SortAscends(a);
    SortAscends(b);
    AscendingUnique(SortMembers(a), SortMembers(b));
  }

  lemma MemberOfSorted(a: seq<Member>, b: seq<Member>, i: nat) returns (j: nat)
    requires SortMembers(a) == SortMembers(b) && i < |a|
    ensures j < |b| == |a| && b[j] == a[i]
  {
    assert |a| == |SortMembers(a)| == |b|;
    assert a[i] in SortMembers(a);
    j :| j < |b| && b[j] == a[i];
  }

  lemma SameMembers(obj: seq<Member>, other: seq<Member>, py: string -> string)
    requires DistinctKeys(obj) && DistinctKeys(other) && MembersAgree(obj, other, py)
    ensures SortMembers(CanonMembers(obj, py)) == SortMembers(CanonMembers(other, py)) <==>
      Same(Object(obj), Object(other), py)
  {
    var a, b := CanonMembers(obj, py), CanonMembers(other, py);
    if Same(Object(obj), Object(other), py) {
      SameMembersSort(obj, other, py);
    } else if SortMembers(a) == SortMembers(b) {
      assert |a| == |SortMembers(a)| == |b|;
      forall i | 0 <= i < |obj|
        ensures exists j :: 0 <= j < |obj| && obj[i].key == other[j].key && Same(obj[i].val, other[j].val, py)
      {
        var j := MemberOfSorted(a, b, i);
        assert a[i].val == b[j].val && obj[i].key == other[j].key;
      }
      assert false;
    }
  }

  // Distinct members included one way, equally many on both sides: the same members.
  lemma SameSetBySize(a: seq<Member>, b: seq<Member>)
    requires DistinctKeys(a) && DistinctKeys(b) && |a| == |b| && forall i :: 0 <= i < |a| ==> a[i] in b
    ensures forall x :: x in a <==> x in b
  {
    var s, t := set i | 0 <= i < |a| :: a[i], set i | 0 <= i < |b| :: b[i];
    SetSize(a);
    SetSize(b);
    assert s <= t;
    SubsetSize(s, t);
    forall x ensures x in a <==> x in b {
      assert x in a <==> x in s;
      assert x in b <==> x in t;
    }
  }

  lemma {:induction false} SetSize(a: seq<Member>)
    requires DistinctKeys(a)
    ensures |set i | 0 <= i < |a| :: a[i]| == |a|
    decreases |a|
  {
    if a != [] {
      var n := |a| - 1;
      SetSize(a[..n]);
      var s := set i | 0 <= i < n :: a[..n][i];
      assert (set i | 0 <= i < |a| :: a[i]) == s + {a[n]};
    }
  }

  lemma SubsetSize<T>(s: set<T>, t: set<T>)
    requires s <= t && |s| == |t|
    ensures s == t
  {
    var d := t - s;
    assert t == s + d;
    assert |t| == |s| + |d|;
  }

  /** Two readable trees have the same sorted text exactly when they are equal up to member order and
      number normalisation. */
  lemma SortedTextExact(v: Value, w: Value, py: string -> string, max: nat, finite: string -> bool)
    requires Readable(v, 0, max, finite) && Readable(w, 0, max, finite) && Normaliser(py)
    ensures Raw(Canon(v, py)) == Raw(Canon(w, py)) <==> Same(v, w, py)
  {
    var all: string -> bool := (s: string) => true;
    CanonReadable(v, py, 0, max, finite, all);
    CanonReadable(w, py, 0, max, finite, all);
    if Raw(Canon(v, py)) == Raw(Canon(w, py)) { RawInjective(Canon(v, py), Canon(w, py), max, all); }
    SameIsCanonEqual(v, w, py, 0, max, finite);
  }

  // ---------------------------------------------------------------- the text of a state or description

  // A string as is, null as nothing, everything else sorted.
  function Text(v: Value, py: string -> string): string {
    match v
    case Null => ""
    case Str(s) => s
    case _ => Raw(Canon(v, py))
  }

  // Null has no text, and neither has the empty string.
  predicate NullAndEmpty(v: Value, w: Value) { v.Null? && w == Str("") }

  // A string that spells the sorted text of a value that is neither a string nor null.
  predicate Spells(v: Value, w: Value, py: string -> string) {
    v.Str? && !w.Str? && !w.Null? && v.s == Raw(Canon(w, py))
  }

  lemma TextNotEmpty(v: Value, py: string -> string, max: nat, finite: string -> bool)
    requires Readable(v, 0, max, finite) && Normaliser(py) && !v.Str? && !v.Null?
    ensures Text(v, py) != ""
  {
    if v.Number? { assert ValidNumber(py(v.lit)); }
  }

  /** When two values have the same text: they are the same up to member order and number normalisation, they are
      null and the empty string, or one is a string that spells the other. */
  lemma TextExact(v: Value, w: Value, py: string -> string, max: nat, finite: string -> bool)
    requires Readable(v, 0, max, finite) && Readable(w, 0, max, finite) && Normaliser(py)
    ensures Text(v, py) == Text(w, py) <==>
      Same(v, w, py) || NullAndEmpty(v, w) || NullAndEmpty(w, v) || Spells(v, w, py) || Spells(w, v, py)
  {
    if !v.Str? && !v.Null? {
      TextNotEmpty(v, py, max, finite);
      if !w.Str? && !w.Null? { SortedTextExact(v, w, py, max, finite); }
    } else if !w.Str? && !w.Null? {
      TextNotEmpty(w, py, max, finite);
    }
  }
}
