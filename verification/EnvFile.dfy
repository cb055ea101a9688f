/**
  Rewriting the env file (internal/keyring/env.go): updates and removals line by line, and exactly what
  the rewritten text parses to.
*/
module EnvFile {
  import opened Wrappers
  import opened EnvText
  import C = Canonical
  import K = Keyring
  import D = Decimal

  // The name the rewriter sees on a line; empty when there is none.
  function NameOf(raw: string): string {
    var stripped := TrimSpace(raw);
    if stripped == "" || StartsWith(stripped, "#") || '=' !in stripped then ""
    else TrimSpace(Body(stripped)[..IndexOf(Body(stripped), '=')])
  }

  function Written(name: string, value: string): string { name + "=" + value }

  // What a written value is read back as.
  function Read(value: string): string { Unquote(TrimSpace(value)) }

  datatype Rewriting = Rewriting(out: seq<string>, pending: Values)

  function RewriteLine(s: Rewriting, raw: string, remove: set<string>): Rewriting {
    var name := NameOf(raw);
    if name != "" && name in remove then s
    else if name != "" && name in s.pending then Rewriting(s.out + [Written(name, s.pending[name])], s.pending - {name})
    else s.(out := s.out + [raw])
  }

  function RewriteTo(lines: seq<string>, updates: Values, remove: set<string>): Rewriting {
    if lines == [] then Rewriting([], updates)
    else RewriteLine(RewriteTo(lines[..|lines| - 1], updates, remove), lines[|lines| - 1], remove)
  }

  function DropBlank(out: seq<string>): seq<string> {
    if out != [] && out[|out| - 1] == "" then DropBlank(out[..|out| - 1]) else out
  }

  function Append(out: seq<string>, names: seq<string>, pending: Values): seq<string>
    requires forall i :: 0 <= i < |names| ==> names[i] in pending
  {
    if names == [] then out
    else
      Append(out, names[..|names| - 1], pending) + [Written(names[|names| - 1], pending[names[|names| - 1]])]
  }

  // The names of pending, in byte order.
  ghost predicate Names(names: seq<string>, pending: Values) {
    && (forall i :: 0 <= i < |names| ==> names[i] in pending)
    && (forall k :: k in pending ==> k in names)
    && forall i, j :: 0 <= i < j < |names| ==> C.KeyLess(names[i], names[j])
  }

  function Rewritten(text: string, updates: Values, remove: set<string>, names: seq<string>): string
    requires forall i :: 0 <= i < |names| ==> names[i] in RewriteTo(Split(text), updates, remove).pending
  {
    var s := RewriteTo(Split(text), updates, remove);
    Join(Append(DropBlank(s.out), names, s.pending)) + "\n"
  }

  // ---------------------------------------------------------------- the loops

  function Insert(names: seq<string>, k: string): (r: seq<string>)
    ensures forall x :: x in r <==> x in names || x == k
  {
    if names == [] || !C.KeyLess(k, names[|names| - 1]) then names + [k]
    else
      assert names == names[..|names| - 1] + [names[|names| - 1]];
      Insert(names[..|names| - 1], k) + [names[|names| - 1]]
  }

  ghost predicate Ascending(names: seq<string>) {
    forall i, j :: 0 <= i < j < |names| ==> C.KeyLess(names[i], names[j])
  }

  lemma {:induction false} InsertAscends(names: seq<string>, k: string)
    requires Ascending(names) && k !in names
    ensures Ascending(Insert(names, k))
    decreases |names|
  {
    if names != [] {
      var z := names[|names| - 1];
      C.KeyOrder(k, z);
      if C.KeyLess(k, z) {
        InsertAscends(names[..|names| - 1], k);
        var r := Insert(names[..|names| - 1], k);
        forall i | 0 <= i < |r| ensures C.KeyLess(r[i], z) { assert r[i] in r; }
      } else {
        forall i | 0 <= i < |names| ensures C.KeyLess(names[i], k) {
          if i < |names| - 1 { C.KeyTransitive(names[i], z, k); }
        }
      }
    }
  }

  method SortedNames(pending: Values) returns (names: seq<string>)
    ensures Names(names, pending)
  {
    names := [];
    var rest := pending.Keys;
    while rest != {}
      invariant rest <= pending.Keys && Ascending(names)
      invariant forall k :: k in names <==> k in pending.Keys - rest
      decreases |rest|
    {
      var k :| k in rest;
      InsertAscends(names, k);
      names := Insert(names, k);
      rest := rest - {k};
    }
    assert forall i :: 0 <= i < |names| ==> names[i] in names;
  }

  /** rewriteLines. */
  method RewriteLines(existing: string, updates: Values, remove: set<string>)
    returns (text: string, ghost names: seq<string>)
    ensures Names(names, RewriteTo(Split(existing), updates, remove).pending)
    ensures text == Rewritten(existing, updates, remove, names)
  {
    var pending := updates;
    var out: seq<string> := [];
    var lines := Split(existing);
    for i := 0 to |lines|
      invariant RewriteTo(lines[..i], updates, remove) == Rewriting(out, pending)
    {
      assert lines[..i + 1][..i] == lines[..i];
      var name := NameOf(lines[i]);
      if name != "" && name in remove { continue; }
      if name in pending && name != "" {
        out := out + [Written(name, pending[name])];
        pending := pending - {name};
        continue;
      }
      out := out + [lines[i]];
    }
    assert lines[..|lines|] == lines;
    ghost var all := out;
    while |out| > 0 && out[|out| - 1] == ""
      invariant DropBlank(out) == DropBlank(all)
      decreases |out|
    {
      out := out[..|out| - 1];
    }
    var sorted := SortedNames(pending);
    ghost var kept := out;
    for i := 0 to |sorted|
      invariant out == Append(kept, sorted[..i], pending)
    {
      assert sorted[..i + 1][..i] == sorted[..i];
      out := out + [Written(sorted[i], pending[sorted[i]])];
    }
    assert sorted[..|sorted|] == sorted;
    text := Join(out) + "\n";
    names := sorted;
  }

  ghost predicate SafeValue(v: string) { '\n' !in v && '\r' !in v && '\0' !in v && !Substitutes(v) }

  ghost predicate SafeUpdates(updates: Values) {
    forall k :: k in updates ==> ValidName(k) && SafeValue(updates[k])
  }

  method ValidateUpdates(updates: Values) returns (ok: bool)
    ensures ok <==> SafeUpdates(updates)
  {
    var rest := updates.Keys;
    while rest != {}
      invariant rest <= updates.Keys && forall k :: k in updates && k !in rest ==> ValidName(k) && SafeValue(updates[k])
      decreases |rest|
    {
      var k :| k in rest;
      var v := updates[k];
      if !ValidName(k) { return false; }
      if '\n' in v || '\r' in v || '\0' in v || Substitutes(v) { return false; }
      rest := rest - {k};
    }
    ok := true;
  }

  // ---------------------------------------------------------------- the two readers agree

  lemma {:induction false} BlanksTail(s: string, c: char)
    requires c in TrimBlanks(s)
    ensures c in s
    decreases |s|
  {
    if s != [] && (s[0] == ' ' || s[0] == '\t') { BlanksTail(s[1..], c); }
  }

  /** The rewriter sees the name the parser assigns, and none on a line that assigns nothing. */
  lemma NameAgrees(raw: string)
    ensures match ReadLine(raw)
      case Blank => NameOf(raw) == ""
      case Bad(_) => true
      case Assign(name, _) => NameOf(raw) == name != ""
  {
    if ReadLine(raw).Assign? {
      var line := TrimSpace(raw);
      var body := Body(line);
      assert '=' in body;
      if body != line { BlanksTail(line[7..], '='); }
    }
  }

  // How many lines assign k.
  function Times(lines: seq<string>, k: string): nat {
    if lines == [] then 0
    else
      Times(lines[..|lines| - 1], k)
      + if ReadLine(lines[|lines| - 1]).Assign? && ReadLine(lines[|lines| - 1]).name == k then 1 else 0
  }

  function Lookup(m: Values, k: string): Option<string> { if k in m then Some(m[k]) else None }

  // What the kept lines assign to k.
  function KeptValue(m: Values, times: nat, updates: Values, remove: set<string>, k: string): Option<string> {
    if k in remove then None
    else if k in updates && times <= 1 then (if times == 1 then Some(Read(updates[k])) else None)
    else Lookup(m, k)
  }

  ghost predicate Tracks(m: Values, lines: seq<string>, updates: Values, remove: set<string>, s: Rewriting) {
    && ReadLines(s.out).Ok?
    && forall k :: TracksAt(m, Times(lines, k), updates, remove, ReadLines(s.out).value, s.pending, k)
  }

  ghost predicate TracksAt(m: Values, times: nat, updates: Values, remove: set<string>, w: Values, pending: Values,
      k: string)
  {
    && Lookup(w, k) == KeptValue(m, times, updates, remove, k)
    && Lookup(pending, k) == (if k in updates && (k in remove || times == 0) then Some(updates[k]) else None)
    && (times == 0 <==> k !in m)
  }

  lemma ReadSnoc(lines: seq<string>, raw: string)
    ensures ReadLines(lines + [raw]) ==
      match ReadLines(lines)
      case Err(e) => Err(e)
      case Ok(m) =>
        match ReadLine(raw)
        case Blank => Ok(m)
        case Bad(e) => Err(AtLine(|lines| + 1, e))
        case Assign(name, value) => Ok(m[name := value])
  {
    assert (lines + [raw])[..|lines|] == lines;
  }

  // What one assignment of name does to the values read from the kept lines, and to the pending updates.
  function KeptAfter(w: Values, pending: Values, remove: set<string>, name: string, value: string): Values {
    if name in remove then w else if name in pending then w[name := Read(pending[name])] else w[name := value]
  }

  function PendingAfter(pending: Values, remove: set<string>, name: string): Values {
    if name in remove then pending else pending - {name}
  }

  lemma TracksAssign(m: Values, t: nat, tn: nat, updates: Values, remove: set<string>, w: Values, pending: Values,
                     name: string, value: string, k: string)
    requires TracksAt(m, t, updates, remove, w, pending, k) && TracksAt(m, tn, updates, remove, w, pending, name)
    requires k == name ==> t == tn
    ensures TracksAt(m[name := value], t + if k == name then 1 else 0, updates, remove,
                     KeptAfter(w, pending, remove, name, value), PendingAfter(pending, remove, name), k)
  {
  }

  ghost predicate PendingSafe(pending: Values) { forall k :: k in pending ==> ValidName(k) && SafeValue(pending[k]) }

  lemma RewriteAssign(s: Rewriting, raw: string, remove: set<string>, w: Values, name: string, value: string)
    requires ReadLines(s.out) == Ok(w) && ReadLine(raw) == Assign(name, value) && PendingSafe(s.pending)
    ensures ReadLines(RewriteLine(s, raw, remove).out) == Ok(KeptAfter(w, s.pending, remove, name, value))
    ensures RewriteLine(s, raw, remove).pending == PendingAfter(s.pending, remove, name)
  {
    NameAgrees(raw);
    ReadsNext(s.out, w, raw, name, value);
    if name !in remove {
      if name in s.pending { WrittenReads(s.out, w, name, s.pending[name]); } else { NotPending(s.pending, name); }
    }
  }

  lemma ReadsNext(out: seq<string>, w: Values, raw: string, name: string, value: string)
    requires ReadLines(out) == Ok(w) && ReadLine(raw) == Assign(name, value)
    ensures ReadLines(out + [raw]) == Ok(w[name := value])
  {
    ReadSnoc(out, raw);
  }

  lemma WrittenReads(out: seq<string>, w: Values, name: string, v: string)
    requires ReadLines(out) == Ok(w) && ValidName(name) && SafeValue(v)
    ensures ReadLines(out + [Written(name, v)]) == Ok(w[name := Read(v)])
  {
    WrittenLine(name, v);
    ReadsNext(out, w, Written(name, v), name, Read(v));
  }

  lemma NotPending(pending: Values, name: string)
    requires name !in pending
    ensures pending - {name} == pending
  {
  }

  lemma TimesSnoc(lines: seq<string>, raw: string, k: string)
    ensures Times(lines + [raw], k)
      == Times(lines, k) + if ReadLine(raw).Assign? && ReadLine(raw).name == k then 1 else 0
  {
    assert (lines + [raw])[..|lines|] == lines;
  }

  lemma TracksBlank(m: Values, lines: seq<string>, raw: string, updates: Values, remove: set<string>, s: Rewriting)
    requires ReadLines(lines) == Ok(m) && Tracks(m, lines, updates, remove, s) && ReadLine(raw) == Blank
    ensures Tracks(m, lines + [raw], updates, remove, RewriteLine(s, raw, remove))
  {
    NameAgrees(raw);
    ReadSnoc(s.out, raw);
    forall k ensures TracksAt(m, Times(lines + [raw], k), updates, remove, ReadLines(s.out).value, s.pending, k) {
      TimesSnoc(lines, raw, k);
    }
  }

  lemma TracksNext(m: Values, lines: seq<string>, raw: string, updates: Values, remove: set<string>, s: Rewriting,
      name: string, value: string)
    requires ReadLines(lines) == Ok(m) && Tracks(m, lines, updates, remove, s) && PendingSafe(s.pending)
    requires ReadLine(raw) == Assign(name, value)
    ensures Tracks(m[name := value], lines + [raw], updates, remove, RewriteLine(s, raw, remove))
  {
    var w, p := ReadLines(s.out).value, s.pending;
    RewriteAssign(s, raw, remove, w, name, value);
    var w', p' := KeptAfter(w, p, remove, name, value), PendingAfter(p, remove, name);
    forall k ensures TracksAt(m[name := value], Times(lines + [raw], k), updates, remove, w', p', k) {
      TimesSnoc(lines, raw, k);
      assert TracksAt(m, Times(lines, k), updates, remove, w, p, k)
        && TracksAt(m, Times(lines, name), updates, remove, w, p, name);
      TracksAssign(m, Times(lines, k), Times(lines, name), updates, remove, w, p, name, value, k);
    }
  }

  // One more line keeps the relation.
  lemma TracksStep(m: Values, lines: seq<string>, raw: string, updates: Values, remove: set<string>, s: Rewriting)
    requires ReadLines(lines) == Ok(m) && Tracks(m, lines, updates, remove, s) && PendingSafe(s.pending)
    requires ReadLines(lines + [raw]).Ok?
    ensures Tracks(ReadLines(lines + [raw]).value, lines + [raw], updates, remove, RewriteLine(s, raw, remove))
  {
    ReadSnoc(lines, raw);
    match ReadLine(raw)
    case Blank => TracksBlank(m, lines, raw, updates, remove, s);
    case Assign(name, value) => TracksNext(m, lines, raw, updates, remove, s, name, value);
  }

  // Nothing becomes pending that was not an update.
  lemma {:induction false} PendingIsSafe(lines: seq<string>, updates: Values, remove: set<string>)
    requires SafeUpdates(updates)
    ensures PendingSafe(RewriteTo(lines, updates, remove).pending)
    decreases |lines|
  {
    if lines != [] {
      PendingIsSafe(lines[..|lines| - 1], updates, remove);
      PendingStaysSafe(RewriteTo(lines[..|lines| - 1], updates, remove), lines[|lines| - 1], remove);
    }
  }

  lemma PendingStaysSafe(s: Rewriting, raw: string, remove: set<string>)
    requires PendingSafe(s.pending)
    ensures PendingSafe(RewriteLine(s, raw, remove).pending)
  {
  }

  lemma {:induction false} RewriteTracks(lines: seq<string>, m: Values, updates: Values, remove: set<string>)
    requires ReadLines(lines) == Ok(m) && SafeUpdates(updates)
    ensures Tracks(m, lines, updates, remove, RewriteTo(lines, updates, remove))
    decreases |lines|
  {
    if lines == [] {
      assert m == map[];
    } else {
      var n := |lines| - 1;
      var before, s := ReadLines(lines[..n]).value, RewriteTo(lines[..n], updates, remove);
      RewriteTracks(lines[..n], before, updates, remove);
      PendingIsSafe(lines[..n], updates, remove);
      assert lines == lines[..n] + [lines[n]];
      TracksStep(before, lines[..n], lines[n], updates, remove, s);
    }
  }

  lemma {:induction false} DropBlankReads(out: seq<string>)
    requires ReadLines(out).Ok?
    ensures ReadLines(DropBlank(out)) == ReadLines(out)
    decreases |out|
  {
    if out != [] && out[|out| - 1] == "" { DropBlankReads(out[..|out| - 1]); }
  }

  function AppendValues(w: Values, names: seq<string>, pending: Values): Values
    requires forall i :: 0 <= i < |names| ==> names[i] in pending
  {
    if names == [] then w
    else AppendValues(w, names[..|names| - 1], pending)[names[|names| - 1] := Read(pending[names[|names| - 1]])]
  }

  lemma {:induction false} AppendReads(out: seq<string>, w: Values, names: seq<string>, pending: Values)
    requires ReadLines(out) == Ok(w) && PendingSafe(pending) && forall i :: 0 <= i < |names| ==> names[i] in pending
    ensures ReadLines(Append(out, names, pending)) == Ok(AppendValues(w, names, pending))
    decreases |names|
  {
    if names != [] {
      var n := |names| - 1;
      AppendReads(out, w, names[..n], pending);
      assert names[n] in pending;
      WrittenLine(names[n], pending[names[n]]);
      ReadSnoc(Append(out, names[..n], pending), Written(names[n], pending[names[n]]));
    }
  }

  lemma {:induction false} AppendValuesAt(w: Values, names: seq<string>, pending: Values, k: string)
    requires forall i :: 0 <= i < |names| ==> names[i] in pending
    ensures Lookup(AppendValues(w, names, pending), k) == (if k in names then Some(Read(pending[k])) else Lookup(w, k))
    decreases |names|
  {
    if names != [] {
      AppendValuesAt(w, names[..|names| - 1], pending, k);
      assert names == names[..|names| - 1] + [names[|names| - 1]];
    }
  }

  // ---------------------------------------------------------------- the text round trip

  ghost predicate SafeLine(line: string) { OneLine(line) && '\0' !in line && '\r' !in line }

  ghost predicate SafeLines(lines: seq<string>) { forall i :: 0 <= i < |lines| ==> SafeLine(lines[i]) }

  lemma {:induction false} RewriteSafe(lines: seq<string>, updates: Values, remove: set<string>)
    requires SafeLines(lines) && SafeUpdates(updates)
    ensures SafeLines(RewriteTo(lines, updates, remove).out)
    decreases |lines|
  {
    if lines != [] {
      var n := |lines| - 1;
      RewriteSafe(lines[..n], updates, remove);
      PendingIsSafe(lines[..n], updates, remove);
      LineSafe(RewriteTo(lines[..n], updates, remove), lines[n], remove);
    }
  }

  lemma LineSafe(s: Rewriting, raw: string, remove: set<string>)
    requires SafeLines(s.out) && SafeLine(raw) && PendingSafe(s.pending)
    ensures SafeLines(RewriteLine(s, raw, remove).out)
  {
    var name := NameOf(raw);
    if name in s.pending { WrittenSafe(name, s.pending[name]); }
  }

  lemma WrittenSafe(name: string, v: string)
    requires ValidName(name) && SafeValue(v)
    ensures SafeLine(Written(name, v))
  {
    forall c | c in Written(name, v) ensures c != '\n' && c != '\r' && c != '\0' {
      assert c in name || c == '=' || c in v;
    }
  }

  lemma {:induction false} AppendSafe(out: seq<string>, names: seq<string>, pending: Values)
    requires SafeLines(out) && PendingSafe(pending) && forall i :: 0 <= i < |names| ==> names[i] in pending
    ensures SafeLines(Append(out, names, pending))
    decreases |names|
  {
    if names != [] {
      var n := |names| - 1;
      AppendSafe(out, names[..n], pending);
      WrittenSafe(names[n], pending[names[n]]);
    }
  }

  lemma {:induction false} DropBlankSafe(out: seq<string>)
    requires SafeLines(out)
    ensures SafeLines(DropBlank(out))
    decreases |out|
  {
    if out != [] && out[|out| - 1] == "" { DropBlankSafe(out[..|out| - 1]); }
  }

  // Writing the lines out and parsing them again reads the lines.
  lemma JoinedSafe(lines: seq<string>)
    requires SafeLines(lines)
    ensures '\0' !in Join(lines) + "\n" && '\r' !in Join(lines) + "\n"
  {
    var text := Join(lines) + "\n";
    forall c | c in text ensures c != '\0' && c != '\r' {
      if c in Join(lines) { JoinCharacters(lines, c); } else { assert c == '\n'; }
    }
  }

  lemma BlankReads(lines: seq<string>)
    requires ReadLines(lines).Ok?
    ensures ReadLines(lines + [""]) == ReadLines(lines)
  {
    ReadSnoc(lines, "");
  }

  lemma TextReads(lines: seq<string>)
    requires SafeLines(lines) && ReadLines(lines).Ok?
    ensures Parsed(Join(lines) + "\n") == ReadLines(lines)
  {
    JoinedSafe(lines);
    SplitNewline(Join(lines));
    if lines == [] {
      BlankReads([]);
      BlankReads([] + [""]);
      assert Split(Join(lines) + "\n") == [] + [""] + [""];
    } else {
      SplitJoin(lines);
      BlankReads(lines);
    }
  }

  // What the rewritten file should hold when names are assigned as often as times says.
  function Effective(m: Values, lines: seq<string>, updates: Values, remove: set<string>): Values {
    map k | k in (m.Keys - remove) + updates.Keys ::
      if k in updates && (k in remove || k !in m || Times(lines, k) <= 1) then Read(updates[k]) else m[k]
  }

  lemma SameValues(a: Values, b: Values)
    requires forall k :: Lookup(a, k) == Lookup(b, k)
    ensures a == b
  {
    forall k ensures k in a <==> k in b { assert Lookup(a, k) == Lookup(b, k); }
    forall k | k in a ensures a[k] == b[k] { assert Lookup(a, k) == Lookup(b, k); }
    assert a.Keys == b.Keys;
  }

  /** Exactly what a rewritten file parses to: removed names are gone, and an update is what is read back
      unless its name was assigned more than once; then the last old assignment still wins. */
  lemma RewriteExact(text: string, m: Values, updates: Values, remove: set<string>, names: seq<string>)
    requires Parsed(text) == Ok(m) && SafeUpdates(updates)
    requires Names(names, RewriteTo(Split(text), updates, remove).pending)
    ensures Parsed(Rewritten(text, updates, remove, names)) == Ok(Effective(m, Split(text), updates, remove))
  {
    var lines := Split(text);
    var s := RewriteTo(lines, updates, remove);
    var kept := DropBlank(s.out);
    var all := Append(kept, names, s.pending);
    forall i | 0 <= i < |lines| ensures SafeLine(lines[i]) { SplitKeepsCharacters(text, i); }
    RewriteSafe(lines, updates, remove);
    DropBlankSafe(s.out);
    PendingIsSafe(lines, updates, remove);
    AppendSafe(kept, names, s.pending);
    RewriteTracks(lines, m, updates, remove);
    DropBlankReads(s.out);
    var w := ReadLines(s.out).value;
    AppendReads(kept, w, names, s.pending);
    TextReads(all);
    var got, want := ReadLines(all).value, Effective(m, lines, updates, remove);
    forall k ensures Lookup(got, k) == Lookup(want, k) {
      assert TracksAt(m, Times(lines, k), updates, remove, w, s.pending, k);
      AppendValuesAt(w, names, s.pending, k);
    }
    SameValues(got, want);
  }

  // The old values without the removed names, with the updates.
  function Merged(m: Values, updates: Values, remove: set<string>): Values {
    map k | k in (m.Keys - remove) + updates.Keys :: if k in updates then Read(updates[k]) else m[k]
  }

  /** Rewriting gives the old map minus the removals plus the updates exactly when no updated name that is
      not removed was assigned twice, or its old value happened to be the new one. */
  lemma RewriteMerges(text: string, m: Values, updates: Values, remove: set<string>, names: seq<string>)
    requires Parsed(text) == Ok(m) && SafeUpdates(updates)
    requires Names(names, RewriteTo(Split(text), updates, remove).pending)
    ensures Parsed(Rewritten(text, updates, remove, names)) == Ok(Merged(m, updates, remove))
      <==> forall k :: k in updates && k !in remove && k in m && Times(Split(text), k) > 1 ==> m[k] == Read(updates[k])
  {
    RewriteExact(text, m, updates, remove, names);
    var e, w := Effective(m, Split(text), updates, remove), Merged(m, updates, remove);
    assert e.Keys == w.Keys;
    if e == w {
      forall k | k in updates && k !in remove && k in m && Times(Split(text), k) > 1 ensures m[k] == Read(updates[k]) {
        assert k in e && e[k] == w[k];
      }
    } else if forall k :: k in updates && k !in remove && k in m && Times(Split(text), k) > 1 ==>
        m[k] == Read(updates[k]) {
      forall k | k in e ensures e[k] == w[k] {}
    }
  }

  // ---------------------------------------------------------------- rotations in the text

  lemma KeyReadsBack(k: string)
    requires k != "" && forall i :: 0 <= i < |k| ==> K.KeyChar(k[i])
    ensures Read(k) == k && SafeValue(k)
  {
    assert TrimLeft(k) == k && TrimRight(k) == k;
  }

  lemma ExpiryReadsBack(n: int)
    ensures Read(K.FormatInt(n)) == K.FormatInt(n) && SafeValue(K.FormatInt(n))
  {
    var s := K.FormatInt(n);
    forall i | 0 <= i < |s| ensures K.KeyChar(s[i]) {
      if n < 0 && i > 0 { assert s[i] == D.Itoa(-n)[i - 1]; }
    }
    KeyReadsBack(s);
  }

  lemma NamesDiffer()
    ensures K.KEY != K.PREV && K.KEY != K.PREV_EXPIRES && K.PREV != K.PREV_EXPIRES
    ensures ValidName(K.KEY) && ValidName(K.PREV) && ValidName(K.PREV_EXPIRES)
  {
    assert |K.KEY| < |K.PREV| < |K.PREV_EXPIRES|;
  }

  // What Rotate asks the writer for.
  function KeepingUpdates(newKey: string, prior: string, expires: int): Values {
    map[K.KEY := newKey][K.PREV := prior][K.PREV_EXPIRES := K.FormatInt(expires)]
  }

  function RotationUpdates(v: Values, keeps: bool, expires: int, newKey: string): Values
    requires keeps ==> K.KEY in v
  {
    if keeps then KeepingUpdates(newKey, v[K.KEY], expires) else map[K.KEY := newKey]
  }

  function RotationRemoves(keeps: bool): set<string> { if keeps then {} else {K.PREV, K.PREV_EXPIRES} }

  // Every update may be written, and is read back as it is.
  ghost predicate ReadBack(u: Values) { SafeUpdates(u) && forall k :: k in u ==> Read(u[k]) == u[k] }

  lemma ReadBackAdd(u: Values, k: string, v: string)
    requires ReadBack(u) && ValidName(k) && SafeValue(v) && Read(v) == v
    ensures ReadBack(u[k := v])
  {
  }

  lemma KeepingReadsBack(newKey: string, prior: string, expires: int)
    requires newKey != "" && forall i :: 0 <= i < |newKey| ==> K.KeyChar(newKey[i])
    requires prior != "" && forall i :: 0 <= i < |prior| ==> K.KeyChar(prior[i])
    ensures ReadBack(KeepingUpdates(newKey, prior, expires)) && ReadBack(map[K.KEY := newKey])
  {
    NamesDiffer();
    KeyReadsBack(newKey);
    KeyReadsBack(prior);
    ExpiryReadsBack(expires);
    ReadBackAdd(map[], K.KEY, newKey);
    ReadBackAdd(map[K.KEY := newKey], K.PREV, prior);
    ReadBackAdd(map[K.KEY := newKey][K.PREV := prior], K.PREV_EXPIRES, K.FormatInt(expires));
  }

  lemma MergeThree(v: Values, a: string, x: string, b: string, y: string, c: string, z: string)
    requires a != b && a != c && b != c && Read(x) == x && Read(y) == y && Read(z) == z
    ensures Merged(v, map[a := x][b := y][c := z], {}) == v[a := x][b := y][c := z]
  {
  }

  lemma KeepingMerges(v: Values, newKey: string, prior: string, expires: int)
    requires ReadBack(KeepingUpdates(newKey, prior, expires))
    ensures Merged(v, KeepingUpdates(newKey, prior, expires), {})
      == v[K.KEY := newKey][K.PREV := prior][K.PREV_EXPIRES := K.FormatInt(expires)]
  {
    NamesDiffer();
    var u := KeepingUpdates(newKey, prior, expires);
    assert u[K.KEY] == newKey && u[K.PREV] == prior && u[K.PREV_EXPIRES] == K.FormatInt(expires);
    MergeThree(v, K.KEY, newKey, K.PREV, prior, K.PREV_EXPIRES, K.FormatInt(expires));
  }

  lemma MergeOne(v: Values, a: string, x: string, b: string, c: string)
    requires a != b && a != c && Read(x) == x
    ensures Merged(v, map[a := x], {b, c}) == v[a := x] - {b, c}
  {
  }

  lemma DroppingMerges(v: Values, newKey: string)
    requires Read(newKey) == newKey
    ensures Merged(v, map[K.KEY := newKey], {K.PREV, K.PREV_EXPIRES}) == v[K.KEY := newKey] - {K.PREV, K.PREV_EXPIRES}
  {
    NamesDiffer();
    MergeOne(v, K.KEY, newKey, K.PREV, K.PREV_EXPIRES);
  }

  lemma MergedIsRotated(v: Values, keeps: bool, expires: int, newKey: string)
    requires (keeps ==> K.KEY in v) && ReadBack(RotationUpdates(v, keeps, expires, newKey))
    ensures Merged(v, RotationUpdates(v, keeps, expires, newKey), RotationRemoves(keeps)) ==
      K.RotatedFile(v, keeps, expires, newKey)
  {
    if keeps {
      KeepingMerges(v, newKey, v[K.KEY], expires);
    } else {
      assert K.KEY in RotationUpdates(v, keeps, expires, newKey);
      DroppingMerges(v, newKey);
    }
  }

  lemma UpdatesReadBack(v: Values, keeps: bool, expires: int, newKey: string)
    requires K.WellFormed(newKey) && (keeps ==> K.KEY in v && K.WellFormed(v[K.KEY]))
    ensures ReadBack(RotationUpdates(v, keeps, expires, newKey))
    ensures K.KEY in RotationUpdates(v, keeps, expires, newKey) && K.KEY !in RotationRemoves(keeps)
  {
    NamesDiffer();
    if keeps { KeepingReadsBack(newKey, v[K.KEY], expires); } else { KeepingReadsBack(newKey, newKey, expires); }
  }

  /** Rotating the text of a file that assigns each of the updated names at most once parses to the rotated
      file. */
  lemma RotationInText(text: string, v: Values, keeps: bool, expires: int, newKey: string, u: Values, r: set<string>,
      names: seq<string>)
    requires Parsed(text) == Ok(v) && K.WellFormed(newKey) && (keeps ==> K.KEY in v && K.WellFormed(v[K.KEY]))
    requires u == RotationUpdates(v, keeps, expires, newKey) && r == RotationRemoves(keeps)
    requires forall k :: k in u ==> Times(Split(text), k) <= 1
    requires Names(names, RewriteTo(Split(text), u, r).pending)
    ensures Parsed(Rewritten(text, u, r, names)) == Ok(K.RotatedFile(v, keeps, expires, newKey))
  {
    UpdatesReadBack(v, keeps, expires, newKey);
    MergedIsRotated(v, keeps, expires, newKey);
    RewriteMerges(text, v, u, r, names);
  }

  /** A file that assigns the key twice keeps its old key through every rotation: the first line is
      rewritten, the last one is read. */
  lemma DuplicateOutlivesRotation(text: string, v: Values, keeps: bool, expires: int, newKey: string, u: Values,
      r: set<string>, names: seq<string>)
    requires Parsed(text) == Ok(v) && K.WellFormed(newKey) && (keeps ==> K.KEY in v && K.WellFormed(v[K.KEY]))
    requires u == RotationUpdates(v, keeps, expires, newKey) && r == RotationRemoves(keeps)
    requires K.KEY in v && Times(Split(text), K.KEY) > 1
    requires Names(names, RewriteTo(Split(text), u, r).pending)
    ensures var after := Parsed(Rewritten(text, u, r, names));
      after.Ok? && K.KEY in after.value && after.value[K.KEY] == v[K.KEY]
  {
    UpdatesReadBack(v, keeps, expires, newKey);
    RewriteExact(text, v, u, r, names);
    KeyStays(v, Split(text), u, r);
  }

  lemma KeyStays(v: Values, lines: seq<string>, u: Values, r: set<string>)
    requires K.KEY in v && K.KEY !in r && Times(lines, K.KEY) > 1
    ensures K.KEY in Effective(v, lines, u, r) && Effective(v, lines, u, r)[K.KEY] == v[K.KEY]
  {
  }

  /** Such files exist: two lines that assign the key, the last of which is read. */
  lemma DuplicateExists(first: string, last: string)
    requires first != "" && forall i :: 0 <= i < |first| ==> K.KeyChar(first[i])
    requires last != "" && forall i :: 0 <= i < |last| ==> K.KeyChar(last[i])
    ensures var text := Join([Written(K.KEY, first), Written(K.KEY, last)]) + "\n";
      Parsed(text) == Ok(map[K.KEY := last]) && Times(Split(text), K.KEY) == 2
  {
    NamesDiffer();
    KeyReadsBack(first);
    KeyReadsBack(last);
    TwoLines(K.KEY, first, last);
  }

  lemma TwoLines(name: string, first: string, last: string)
    requires ValidName(name) && SafeValue(first) && SafeValue(last) && Read(last) == last
    ensures var text := Join([Written(name, first), Written(name, last)]) + "\n";
      Parsed(text) == Ok(map[name := last]) && Times(Split(text), name) == 2
  {
    var a, b := Written(name, first), Written(name, last);
    WrittenLine(name, first);
    WrittenLine(name, last);
    TwoLinesRead(a, b, name, Read(first), last);
    WrittenSafe(name, first);
    WrittenSafe(name, last);
    TextReads([a, b]);
    SplitJoin([a, b]);
    SplitNewline(Join([a, b]));
  }

  lemma ReadsAssign(lines: seq<string>, m: Values, raw: string, name: string, value: string, times: nat)
    requires ReadLines(lines) == Ok(m) && ReadLine(raw) == Assign(name, value) && Times(lines, name) == times
    ensures ReadLines(lines + [raw]) == Ok(m[name := value]) && Times(lines + [raw], name) == times + 1
  {
    ReadSnoc(lines, raw);
    TimesSnoc(lines, raw, name);
  }

  lemma Overwritten(name: string, first: string, last: string)
    ensures map[][name := first][name := last] == map[name := last]
  {
  }

  lemma TwoLinesRead(a: string, b: string, name: string, first: string, last: string)
    requires ReadLine(a) == Assign(name, first) && ReadLine(b) == Assign(name, last)
    ensures ReadLines([a, b]) == Ok(map[name := last]) && Times([a, b] + [""], name) == 2
  {
    ReadsAssign([], map[], a, name, first, 0);
    ReadsAssign([] + [a], map[][name := first], b, name, last, 1);
    assert [] + [a] + [b] == [a, b];
    Overwritten(name, first, last);
    BlankUncounted([a, b], name);
  }

  lemma BlankUncounted(lines: seq<string>, name: string)
    ensures Times(lines + [""], name) == Times(lines, name)
  {
    TimesSnoc(lines, "", name);
  }
}
