/**
  Runs of key rotations on the text of the env file (internal/keyring/env.go, internal/keyring/keyring.go):
  a rewrite never makes a name assigned twice, so over a whole run the text stands for the rotated file.
*/
module EnvRuns {
  import opened Wrappers
  import opened EnvText
  import opened EnvFile
  import C = Canonical
  import K = Keyring

  // ---------------------------------------------------------------- a rewrite duplicates nothing

  function One(b: bool): nat { if b then 1 else 0 }

  // The kept lines and the pending updates assign k no more often than the old lines, or once.
  ghost predicate Single(s: Rewriting, times: nat, k: string) {
    && Times(s.out, k) <= times
    && (Times(s.out, k) + One(k in s.pending) <= 1 || Times(s.out, k) + One(k in s.pending) <= times)
  }

  lemma WrittenTimes(out: seq<string>, name: string, v: string, k: string)
    requires ValidName(name) && SafeValue(v)
    ensures Times(out + [Written(name, v)], k) == Times(out, k) + One(k == name)
  {
    WrittenLine(name, v);
    TimesSnoc(out, Written(name, v), k);
  }

  lemma SingleStep(s: Rewriting, times: nat, raw: string, remove: set<string>, k: string)
    requires Single(s, times, k) && PendingSafe(s.pending) && !ReadLine(raw).Bad?
    ensures Single(RewriteLine(s, raw, remove), times + One(ReadLine(raw).Assign? && ReadLine(raw).name == k), k)
  {
    var name := NameOf(raw);
    NameAgrees(raw);
    TimesSnoc(s.out, raw, k);
    if name != "" && name in s.pending { WrittenTimes(s.out, name, s.pending[name], k); }
  }

  lemma {:induction false} RewriteSingle(lines: seq<string>, updates: Values, remove: set<string>, k: string)
    requires ReadLines(lines).Ok? && SafeUpdates(updates)
    ensures Single(RewriteTo(lines, updates, remove), Times(lines, k), k)
    decreases |lines|
  {
    if lines != [] {
      var n := |lines| - 1;
      assert lines == lines[..n] + [lines[n]];
      ReadSnoc(lines[..n], lines[n]);
      RewriteSingle(lines[..n], updates, remove, k);
      PendingIsSafe(lines[..n], updates, remove);
      SingleStep(RewriteTo(lines[..n], updates, remove), Times(lines[..n], k), lines[n], remove, k);
    }
  }

  lemma {:induction false} DropBlankTimes(out: seq<string>, k: string)
    ensures Times(DropBlank(out), k) == Times(out, k)
    decreases |out|
  {
    if out != [] && out[|out| - 1] == "" { DropBlankTimes(out[..|out| - 1], k); }
  }

  lemma {:induction false} AppendTimes(out: seq<string>, names: seq<string>, pending: Values, k: string)
    requires Ascending(names) && PendingSafe(pending) && forall i :: 0 <= i < |names| ==> names[i] in pending
    ensures Times(Append(out, names, pending), k) == Times(out, k) + One(k in names)
    decreases |names|
  {
    if names != [] {
      var n := |names| - 1;
      AppendTimes(out, names[..n], pending, k);
      assert names[n] in pending;
      WrittenTimes(Append(out, names[..n], pending), names[n], pending[names[n]], k);
      NotBefore(names, k);
    }
  }

  lemma NotBefore(names: seq<string>, k: string)
    requires Ascending(names) && names != []
    ensures var n := |names| - 1; One(k in names) == One(k in names[..n]) + One(k == names[n])
  {
    var n := |names| - 1;
    assert names == names[..n] + [names[n]];
    C.KeyOrder(names[n], names[n]);
  }

  lemma TextTimes(lines: seq<string>, k: string)
    requires SafeLines(lines)
    ensures Times(Split(Join(lines) + "\n"), k) == Times(lines, k)
  {
    SplitNewline(Join(lines));
    if lines == [] {
      assert Split(Join(lines) + "\n") == [] + [""] + [""];
      BlankUncounted([], k);
      BlankUncounted([] + [""], k);
    } else {
      SplitJoin(lines);
      BlankUncounted(lines, k);
    }
  }

  /** A rewrite leaves no name assigned more than once that was not before. */
  lemma RewriteKeepsSingle(text: string, updates: Values, remove: set<string>, names: seq<string>, k: string)
    requires Parsed(text).Ok? && SafeUpdates(updates) && Names(names, RewriteTo(Split(text), updates, remove).pending)
    requires Times(Split(text), k) <= 1
    ensures Times(Split(Rewritten(text, updates, remove, names)), k) <= 1
  {
    var lines := Split(text);
    var s := RewriteTo(lines, updates, remove);
    var all := Append(DropBlank(s.out), names, s.pending);
    forall i | 0 <= i < |lines| ensures SafeLine(lines[i]) { SplitKeepsCharacters(text, i); }
    RewriteSafe(lines, updates, remove);
    DropBlankSafe(s.out);
    PendingIsSafe(lines, updates, remove);
    AppendSafe(DropBlank(s.out), names, s.pending);
    TextTimes(all, k);
    AppendTimes(DropBlank(s.out), names, s.pending, k);
    DropBlankTimes(s.out, k);
    RewriteSingle(lines, updates, remove, k);
  }

  // ---------------------------------------------------------------- rotations of the text

  ghost predicate Tidy(text: string) {
    && Times(Split(text), K.KEY) <= 1 && Times(Split(text), K.PREV) <= 1 && Times(Split(text), K.PREV_EXPIRES) <= 1
  }

  ghost predicate Refused(v: Values, env: Option<string>, r: K.Rotation) {
    K.Rotated(v, env, r.grace, r.at, r.newKey).Err?
  }

  // What Rotate does to the text: nothing when it is refused, a rewrite with the rotation's updates otherwise.
  ghost predicate RotatesTo(text: string, after: string, env: Option<string>, r: K.Rotation) {
    match Parsed(text)
    case Err(_) => after == text
    case Ok(v) =>
      if Refused(v, env, r) then after == text
      else RewritesTo(text, after, v, K.Keeps(v, env, r.grace), K.Unix(r.at) + r.grace, r.newKey)
  }

  ghost predicate RewritesTo(text: string, after: string, v: Values, keeps: bool, expires: int, newKey: string)
    requires keeps ==> K.KEY in v
  {
    var u, gone := RotationUpdates(v, keeps, expires, newKey), RotationRemoves(keeps);
    exists names :: Names(names, RewriteTo(Split(text), u, gone).pending) && after == Rewritten(text, u, gone, names)
  }

  lemma RewrittenTidy(text: string, v: Values, u: Values, gone: set<string>, names: seq<string>)
    requires Parsed(text) == Ok(v) && Tidy(text) && SafeUpdates(u)
      && Names(names, RewriteTo(Split(text), u, gone).pending)
    ensures Tidy(Rewritten(text, u, gone, names))
  {
    RewriteKeepsSingle(text, u, gone, names, K.KEY);
    RewriteKeepsSingle(text, u, gone, names, K.PREV);
    RewriteKeepsSingle(text, u, gone, names, K.PREV_EXPIRES);
  }

  lemma UpdatedOnce(text: string, v: Values, keeps: bool, expires: int, newKey: string, k: string)
    requires Tidy(text) && (keeps ==> K.KEY in v) && k in RotationUpdates(v, keeps, expires, newKey)
    ensures Times(Split(text), k) <= 1
  {
    assert k == K.KEY || k == K.PREV || k == K.PREV_EXPIRES;
  }

  lemma RewrittenStep(text: string, v: Values, keeps: bool, expires: int, newKey: string, u: Values, gone: set<string>,
      names: seq<string>)
    requires Parsed(text) == Ok(v) && Tidy(text) && K.WellFormed(newKey)
      && (keeps ==> K.KEY in v && K.WellFormed(v[K.KEY]))
    requires u == RotationUpdates(v, keeps, expires, newKey) && gone == RotationRemoves(keeps)
    requires Names(names, RewriteTo(Split(text), u, gone).pending)
    ensures Tidy(Rewritten(text, u, gone, names))
    ensures Parsed(Rewritten(text, u, gone, names)) == Ok(K.RotatedFile(v, keeps, expires, newKey))
  {
    UpdatesReadBack(v, keeps, expires, newKey);
    forall k | k in u ensures Times(Split(text), k) <= 1 { UpdatedOnce(text, v, keeps, expires, newKey, k); }
    RotationInText(text, v, keeps, expires, newKey, u, gone, names);
    RewrittenTidy(text, v, u, gone, names);
  }

  lemma RotationParts(text: string, after: string, v: Values, env: Option<string>, r: K.Rotation)
    returns (refused: bool, keeps: bool, w: Values)
    requires Parsed(text) == Ok(v) && RotatesTo(text, after, env, r)
    ensures w == K.AfterRotation(v, env, r) && (refused ==> after == text && w == v) && (keeps ==> K.KEY in v)
    ensures !refused ==>
      (keeps ==> K.WellFormed(v[K.KEY])) && w == K.RotatedFile(v, keeps, K.Unix(r.at) + r.grace, r.newKey)
    ensures !refused ==> RewritesTo(text, after, v, keeps, K.Unix(r.at) + r.grace, r.newKey)
  {
    refused, keeps, w := Refused(v, env, r), K.Keeps(v, env, r.grace), K.AfterRotation(v, env, r);
    K.AfterRotationIs(v, env, r, keeps);
  }

  lemma RewritesStep(text: string, after: string, v: Values, keeps: bool, expires: int, newKey: string, w: Values)
    requires Parsed(text) == Ok(v) && Tidy(text) && K.WellFormed(newKey)
      && (keeps ==> K.KEY in v && K.WellFormed(v[K.KEY]))
    requires RewritesTo(text, after, v, keeps, expires, newKey) && w == K.RotatedFile(v, keeps, expires, newKey)
    ensures Tidy(after) && Parsed(after) == Ok(w)
  {
    var u, gone := RotationUpdates(v, keeps, expires, newKey), RotationRemoves(keeps);
    var names :| Names(names, RewriteTo(Split(text), u, gone).pending) && after == Rewritten(text, u, gone, names);
    RewrittenStep(text, v, keeps, expires, newKey, u, gone, names);
  }

  /** One rotation of a tidy text: the text afterwards is tidy and stands for the rotated file. */
  lemma RotationStep(text: string, after: string, v: Values, env: Option<string>, r: K.Rotation)
    requires Parsed(text) == Ok(v) && Tidy(text) && K.WellFormed(r.newKey) && RotatesTo(text, after, env, r)
    ensures Tidy(after) && Parsed(after) == Ok(K.AfterRotation(v, env, r))
  {
    var refused, keeps, w := RotationParts(text, after, v, env, r);
    StepOf(text, after, v, refused, keeps, K.Unix(r.at) + r.grace, r.newKey, w);
  }

  lemma StepOf(text: string, after: string, v: Values, refused: bool, keeps: bool, expires: int, newKey: string,
      w: Values)
    requires Parsed(text) == Ok(v) && Tidy(text) && K.WellFormed(newKey) && (keeps ==> K.KEY in v)
    requires refused ==> after == text && w == v
    requires !refused ==> (keeps ==> K.WellFormed(v[K.KEY])) && w == K.RotatedFile(v, keeps, expires, newKey)
    requires !refused ==> RewritesTo(text, after, v, keeps, expires, newKey)
    ensures Tidy(after) && Parsed(after) == Ok(w)
  {
    if !refused { RewritesStep(text, after, v, keeps, expires, newKey, w); }
  }

  // texts[i] is the file after i rotations.
  ghost predicate TextRun(texts: seq<string>, env: Option<string>, rs: seq<K.Rotation>) {
    |texts| == |rs| + 1 && forall i :: 0 <= i < |rs| ==> RotatesTo(texts[i], texts[i + 1], env, rs[i])
  }

  /** Over every run of rotations of a tidy text, the text stands for the rotated file. */
  lemma {:induction false} RunInText(texts: seq<string>, v: Values, env: Option<string>, rs: seq<K.Rotation>)
    requires TextRun(texts, env, rs) && Parsed(texts[0]) == Ok(v) && Tidy(texts[0])
    requires forall i :: 0 <= i < |rs| ==> K.WellFormed(rs[i].newKey)
    ensures Tidy(texts[|rs|]) && Parsed(texts[|rs|]) == Ok(K.AfterRun(v, env, rs))
    decreases |rs|
  {
    if rs != [] {
      var n := |rs| - 1;
      RunPrefix(texts, env, rs);
      RunInText(texts[..n + 1], v, env, rs[..n]);
      RotationStep(texts[n], texts[n + 1], K.AfterRun(v, env, rs[..n]), env, rs[n]);
    }
  }

  lemma RunPrefix(texts: seq<string>, env: Option<string>, rs: seq<K.Rotation>)
    requires TextRun(texts, env, rs) && rs != []
    ensures var n := |rs| - 1;
      TextRun(texts[..n + 1], env, rs[..n]) && texts[..n + 1][0] == texts[0] && texts[..n + 1][n] == texts[n]
        && RotatesTo(texts[n], texts[n + 1], env, rs[n])
  {
    var n := |rs| - 1;
    forall i | 0 <= i < n ensures RotatesTo(texts[..n + 1][i], texts[..n + 1][i + 1], env, rs[..n][i]) {
      assert RotatesTo(texts[i], texts[i + 1], env, rs[i]);
    }
  }

  /** So over every run the file on disk never lets anything in but new keys and what it accepted at the start. */
  lemma TextNeverWidens(texts: seq<string>, v: Values, env: Option<string>, rs: seq<K.Rotation>, from: int, to: int)
    requires TextRun(texts, env, rs) && Parsed(texts[0]) == Ok(v) && Tidy(texts[0]) && K.InOrder(rs, from, to)
    requires forall i :: 0 <= i < |rs| ==> K.WellFormed(rs[i].newKey)
    ensures Parsed(texts[|rs|]).Ok?
    ensures K.AcceptedSet(Parsed(texts[|rs|]).value, env, to) <= K.FreshKeys(rs) + K.AcceptedSet(v, env, from)
  {
    RunInText(texts, v, env, rs);
    K.RunNeverWidens(v, env, rs, from, to);
  }
}
