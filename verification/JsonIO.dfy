/**
  The two loops of internal/contract/jsonparse.go over their state: readValue consumes a decoder,
  write appends to a builder. Each is proved to do what the functions of Json and Canonical say.
*/
module JsonIO {
  import opened Wrappers
  import opened Json
  import opened Canonical

  class Builder {
    var buf: string

    constructor ()
      ensures buf == ""
    {
      buf := "";
    }

    method WriteString(s: string)
      modifies this
      ensures buf == old(buf) + s
    {
      buf := buf + s;
    }
  }

  class Decoder {
    const toks: seq<Token>
    var pos: nat

    constructor (toks: seq<Token>)
      ensures this.toks == toks && pos == 0 && Valid()
    {
      this.toks, pos := toks, 0;
    }

    ghost predicate Valid()
      reads this
    {
      pos <= |toks|
    }

    // What is still to be read.
    ghost function Rest(): seq<Token>
      requires Valid()
      reads this
    {
      toks[pos..]
    }

    method Next() returns (t: Option<Token>)
      requires Valid()
      modifies this
      ensures Valid()
      ensures t.None? ==> old(Rest()) == [] && Rest() == []
      ensures t.Some? ==>
        pos == old(pos) + 1 && old(Rest()) != [] && t.value == old(Rest())[0] && Rest() == old(Rest())[1..]
    {
      if pos == |toks| { return None; }
      t := Some(toks[pos]);
      pos := pos + 1;
    }

    // The next token is there and closes neither an array nor an object.
    method More() returns (b: bool)
      requires Valid()
      ensures b <==> Rest() != [] && Rest()[0] != RBracket && Rest()[0] != RBrace
    {
      b := pos < |toks| && toks[pos] != RBracket && toks[pos] != RBrace;
    }
  }

  // ---------------------------------------------------------------- writing

  lemma Assoc(a: string, b: string, c: string)
    ensures (a + b) + c == a + (b + c)
  {
  }

  method WriteQuoted(sb: Builder, s: string)
    modifies sb
    ensures sb.buf == old(sb.buf) + Quoted(s)
  {
    sb.WriteString("\"");
    ghost var goal := sb.buf + EscapedFrom(s, 0);
    for i := 0 to |s|
      invariant sb.buf + EscapedFrom(s, i) == goal
    {
      Assoc(sb.buf, Escape(s[i]), EscapedFrom(s, i + 1));
      sb.WriteString(Escape(s[i]));
    }
    assert sb.buf == goal;
    sb.WriteString("\"");
    Assoc(old(sb.buf), "\"", EscapedFrom(s, 0));
    Assoc(old(sb.buf), "\"" + EscapedFrom(s, 0), "\"");
  }

  function Shown(v: Value, sorted: bool, py: string -> string): Value {
    if sorted then Canon(v, py) else v
  }

  lemma {:induction false} CanonOfInsert(ms: seq<Member>, m: Member, py: string -> string)
    ensures CanonMembers(InsertMember(ms, m), py) == InsertMember(CanonMembers(ms, py), Member(m.key, Canon(m.val, py)))
    decreases |ms|
  {
    if ms == [] || !KeyLess(m.key, ms[|ms| - 1].key) {
      assert (ms + [m])[..|ms|] == ms;
    } else {
      var ms0, z := ms[..|ms| - 1], ms[|ms| - 1];
      CanonOfInsert(ms0, m, py);
      assert (InsertMember(ms0, m) + [z])[..|ms|] == InsertMember(ms0, m);
      assert CanonMembers(ms, py)[..|ms| - 1] == CanonMembers(ms0, py);
    }
  }

  // Sorting looks at keys only, so it commutes with canonicalising the values.
  lemma {:induction false} CanonOfSort(ms: seq<Member>, py: string -> string)
    ensures CanonMembers(SortMembers(ms), py) == SortMembers(CanonMembers(ms, py))
    decreases |ms|
  {
    if ms != [] {
      CanonOfSort(ms[..|ms| - 1], py);
      CanonOfInsert(SortMembers(ms[..|ms| - 1]), ms[|ms| - 1], py);
    }
  }

  /** write appends the compact text of the value, or of its canonical form when sorted. */
  method Write(v: Value, sorted: bool, py: string -> string, sb: Builder)
    modifies sb
    ensures sb.buf == old(sb.buf) + Raw(Shown(v, sorted, py))
    decreases v, 0
  {
    match v
    case Null => sb.WriteString("null");
    case Bool(b) => sb.WriteString(if b then "true" else "false");
    case Number(lit) => sb.WriteString(if sorted then py(lit) else lit);
    case Str(s) => WriteQuoted(sb, s);
    case Array(arr) => WriteArray(arr, sorted, py, sb);
    case Object(obj) => WriteObject(obj, sorted, py, sb);
  }

  method WriteSep(i: nat, sb: Builder)
    modifies sb
    ensures sb.buf == old(sb.buf) + Sep(i)
  {
    if i > 0 { sb.WriteString(","); }
  }

  lemma Bracketed(pre: string, open: string, inner: string, close: string)
    ensures pre + open + inner + close == pre + (open + inner + close)
  {
  }

  // A separator and an element move from what is to come to what is written.
  lemma Moved(buf: string, sep: string, one: string, rest: string)
    ensures (buf + sep + one) + rest == buf + (sep + one + rest)
  {
  }

  method WriteArray(arr: seq<Value>, sorted: bool, py: string -> string, sb: Builder)
    modifies sb
    ensures sb.buf == old(sb.buf) + ("[" + ItemsFrom(if sorted then CanonItems(arr, py) else arr, 0) + "]")
    decreases arr, 1
  {
    ghost var shown := if sorted then CanonItems(arr, py) else arr;
    sb.WriteString("[");
    ghost var goal := sb.buf + ItemsFrom(shown, 0);
    for i := 0 to |arr|
      invariant sb.buf + ItemsFrom(shown, i) == goal
    {
      assert shown[i] == Shown(arr[i], sorted, py);
      Moved(sb.buf, Sep(i), Raw(shown[i]), ItemsFrom(shown, i + 1));
      WriteSep(i, sb);
      Write(arr[i], sorted, py, sb);
    }
    assert sb.buf == goal;
    sb.WriteString("]");
    Bracketed(old(sb.buf), "[", ItemsFrom(shown, 0), "]");
  }

  function MemberText(m: Member): string { Quoted(m.key) + ":" + Raw(m.val) }

  lemma MembersStep(obj: seq<Member>, i: nat)
    requires i < |obj|
    ensures MembersFrom(obj, i) == Sep(i) + MemberText(obj[i]) + MembersFrom(obj, i + 1)
  {
    Regroup(Sep(i), Quoted(obj[i].key), ":", Raw(obj[i].val), MembersFrom(obj, i + 1));
  }

  lemma Regroup(a: string, b: string, c: string, d: string, e: string)
    ensures a + b + c + d + e == a + (b + c + d) + e
  {
  }

  method WriteMember(m: Member, sorted: bool, py: string -> string, sb: Builder)
    modifies sb
    ensures sb.buf == old(sb.buf) + MemberText(Member(m.key, Shown(m.val, sorted, py)))
    decreases m, 0
  {
    WriteQuoted(sb, m.key);
    sb.WriteString(":");
    Write(m.val, sorted, py, sb);
    Bracketed(old(sb.buf), Quoted(m.key), ":", Raw(Shown(m.val, sorted, py)));
  }

  function Listing(obj: seq<Member>, sorted: bool): seq<Member> { if sorted then SortMembers(obj) else obj }

  function ShownMembers(obj: seq<Member>, sorted: bool, py: string -> string): seq<Member> {
    if sorted then SortMembers(CanonMembers(obj, py)) else obj
  }

  lemma ShownIsListed(obj: seq<Member>, sorted: bool, py: string -> string)
    ensures var ms, shown := Listing(obj, sorted), ShownMembers(obj, sorted, py);
      |shown| == |ms| && forall i :: 0 <= i < |ms| ==> shown[i] == Member(ms[i].key, Shown(ms[i].val, sorted, py))
  {
    CanonOfSort(obj, py);
  }

  method WriteObject(obj: seq<Member>, sorted: bool, py: string -> string, sb: Builder)
    modifies sb
    ensures sb.buf == old(sb.buf) + ("{" + MembersFrom(ShownMembers(obj, sorted, py), 0) + "}")
    decreases obj, 1
  {
    var ms := Listing(obj, sorted);
    ghost var shown := ShownMembers(obj, sorted, py);
    ShownIsListed(obj, sorted, py);
    sb.WriteString("{");
    ghost var goal := sb.buf + MembersFrom(shown, 0);
    for i := 0 to |ms|
      invariant sb.buf + MembersFrom(shown, i) == goal
    {
      MemberInside(obj, ms, i);
      MembersStep(shown, i);
      Moved(sb.buf, Sep(i), MemberText(shown[i]), MembersFrom(shown, i + 1));
      WriteSep(i, sb);
      WriteMember(ms[i], sorted, py, sb);
    }
    assert sb.buf == goal;
    sb.WriteString("}");
    Bracketed(old(sb.buf), "{", MembersFrom(shown, 0), "}");
  }

  // A member of the sorted list is one of the object's own.
  lemma MemberInside(obj: seq<Member>, ms: seq<Member>, i: nat)
    requires (ms == obj || ms == SortMembers(obj)) && i < |ms|
    ensures exists j :: 0 <= j < |obj| && obj[j] == ms[i]
  {
    assert ms[i] in ms;
    assert ms[i] in obj;
  }

  // ---------------------------------------------------------------- reading

  // A method's result and the decoder's rest against the function's.
  ghost predicate Agrees<T>(r: Option<T>, rest: seq<Token>, spec: Option<(T, seq<Token>)>) {
    if spec.None? then r.None? else r == Some(spec.value.0) && rest == spec.value.1
  }

  /** readValue: the tree of the next value, with the decoder left just behind it. */
  method ReadOne(dec: Decoder, depth: nat, max: nat, finite: string -> bool) returns (r: Option<Value>)
    requires dec.Valid()
    modifies dec
    ensures dec.Valid() && dec.pos >= old(dec.pos) && (r.Some? ==> dec.pos > old(dec.pos))
    ensures Agrees(r, dec.Rest(), ReadValue(old(dec.Rest()), depth, max, finite))
    decreases |dec.toks| - dec.pos, 0
  {
    var t := dec.Next();
    if t.None? { return None; }
    match t.value
    case TNull => r := Some(Null);
    case TBool(b) => r := Some(Bool(b));
    case TStr(s) => r := Some(Str(s));
    case TNumber(lit) => r := if AcceptsNumber(lit, finite) then Some(Number(lit)) else None;
    case LBracket =>
      if depth >= max { return None; }
      var arr := ReadArray(dec, depth + 1, max, finite);
      r := if arr.None? then None else Some(Array(arr.value));
    case LBrace =>
      if depth >= max { return None; }
      var obj := ReadObject(dec, depth + 1, max, finite);
      r := if obj.None? then None else Some(Object(obj.value));
    case _ => r := None;
  }

  // The rest of an array after its opening bracket.
  method ReadArray(dec: Decoder, depth: nat, max: nat, finite: string -> bool) returns (r: Option<seq<Value>>)
    requires dec.Valid()
    modifies dec
    ensures dec.Valid() && dec.pos >= old(dec.pos)
    ensures Agrees(r, dec.Rest(), ReadItems(old(dec.Rest()), [], depth, max, finite))
    decreases |dec.toks| - dec.pos, 1
  {
    var arr: seq<Value> := [];
    ghost var goal := ReadItems(dec.Rest(), [], depth, max, finite);
    var more := dec.More();
    while more
      invariant dec.Valid() && dec.pos >= old(dec.pos)
      invariant more <==> dec.Rest() != [] && dec.Rest()[0] != RBracket && dec.Rest()[0] != RBrace
      invariant goal == ReadItems(dec.Rest(), arr, depth, max, finite)
      decreases |dec.toks| - dec.pos
    {
      if arr != [] {
        var c := dec.Next();
        if c != Some(Comma) { return None; }
      }
      var e := ReadOne(dec, depth, max, finite);
      if e.None? { return None; }
      arr := arr + [e.value];
      more := dec.More();
    }
    NoItem(dec.Rest(), arr, depth, max, finite);
    var close := dec.Next();
    r := if close == Some(RBracket) then Some(arr) else None;
  }

  // Where More is false only a closing bracket lets the array end.
  lemma NoItem(toks: seq<Token>, arr: seq<Value>, depth: nat, max: nat, finite: string -> bool)
    requires toks == [] || toks[0] == RBracket || toks[0] == RBrace
    ensures ReadItems(toks, arr, depth, max, finite)
      == if toks != [] && toks[0] == RBracket then Some((arr, toks[1..])) else None
  {
  }

  lemma NoMember(toks: seq<Token>, obj: seq<Member>, depth: nat, max: nat, finite: string -> bool)
    requires toks == [] || toks[0] == RBracket || toks[0] == RBrace
    ensures ReadMembers(toks, obj, depth, max, finite)
      == if toks != [] && toks[0] == RBrace then Some((obj, toks[1..])) else None
  {
  }

  // The key and the colon of the next member; None when they are not there or the key was seen.
  method ReadKey(dec: Decoder, seen: set<string>) returns (k: Option<string>)
    requires dec.Valid()
    modifies dec
    ensures dec.Valid() && dec.pos >= old(dec.pos)
    ensures k.Some? ==> |old(dec.Rest())| >= 2 && old(dec.Rest())[0] == TStr(k.value) && old(dec.Rest())[1] == Colon
    ensures k.Some? ==> k.value !in seen && dec.Rest() == old(dec.Rest())[2..] && dec.pos == old(dec.pos) + 2
    ensures k.None? ==>
      |old(dec.Rest())| < 2 || !old(dec.Rest())[0].TStr? || old(dec.Rest())[1] != Colon || old(dec.Rest())[0].s in seen
  {
    var t := dec.Next();
    if t.None? || !t.value.TStr? || t.value.s in seen { return None; }
    var c := dec.Next();
    k := if c == Some(Colon) then Some(t.value.s) else None;
  }

  // The rest of an object after its opening brace; a repeated key fails.
  method ReadObject(dec: Decoder, depth: nat, max: nat, finite: string -> bool) returns (r: Option<seq<Member>>)
    requires dec.Valid()
    modifies dec
    ensures dec.Valid() && dec.pos >= old(dec.pos)
    ensures Agrees(r, dec.Rest(), ReadMembers(old(dec.Rest()), [], depth, max, finite))
    decreases |dec.toks| - dec.pos, 1
  {
    var obj: seq<Member> := [];
    var seen: set<string> := {};
    ghost var goal := ReadMembers(dec.Rest(), [], depth, max, finite);
    var more := dec.More();
    while more
      invariant dec.Valid() && dec.pos >= old(dec.pos)
      invariant more <==> dec.Rest() != [] && dec.Rest()[0] != RBracket && dec.Rest()[0] != RBrace
      invariant forall k: string :: k in seen <==> HasKey(obj, k)
      invariant goal == ReadMembers(dec.Rest(), obj, depth, max, finite)
      decreases |dec.toks| - dec.pos
    {
      if obj != [] {
        var c := dec.Next();
        if c != Some(Comma) { return None; }
      }
      var k := ReadKey(dec, seen);
      if k.None? { return None; }
      var e := ReadOne(dec, depth, max, finite);
      if e.None? { return None; }
      AddKey(obj, Member(k.value, e.value));
      seen := seen + {k.value};
      obj := obj + [Member(k.value, e.value)];
      more := dec.More();
    }
    NoMember(dec.Rest(), obj, depth, max, finite);
    var close := dec.Next();
    r := if close == Some(RBrace) then Some(obj) else None;
  }

  lemma AddKey(obj: seq<Member>, m: Member)
    ensures forall k: string :: HasKey(obj + [m], k) <==> HasKey(obj, k) || k == m.key
  {
    forall k: string ensures HasKey(obj + [m], k) <==> HasKey(obj, k) || k == m.key {
      if HasKey(obj, k) {
        var i :| 0 <= i < |obj| && obj[i].key == k;
        assert (obj + [m])[i].key == k;
      }
      if k == m.key { assert (obj + [m])[|obj|].key == k; }
    }
  }

  /** parseJSON over the decoder: the parser of the round trip. */
  method Parse(body: string, finite: string -> bool) returns (r: Option<Value>)
    ensures r == ParseJSON(body, MAX_JSON_DEPTH, finite)
  {
    var toks := Lex(body);
    if toks.None? { return None; }
    var dec := new Decoder(toks.value);
    var v := ReadOne(dec, 0, MAX_JSON_DEPTH, finite);
    if v.None? { return None; }
    var end := dec.Next();
    if end.Some? { return None; }
    r := v;
  }
}
