module Keyring
  /**
    Key lifecycle (internal/keyring/keyring.go): which keys a request may present, and what a rotation
    does to that set. The env file is the map of its assignments; times are nanoseconds.
  */
{
  import opened Wrappers
  import opened Decimal
  import opened KeyStrength

  const KEY := "LLMCTL_API_KEY"
  const PREV := "LLMCTL_API_KEY_PREVIOUS"
  const PREV_EXPIRES := "LLMCTL_API_KEY_PREVIOUS_EXPIRES"

  const SECOND: int := 1_000_000_000
  const MAX_INT64: int := 0x7FFF_FFFF_FFFF_FFFF

  type File = map<string, string>

  datatype KeyError = InvalidKey | BadGrace

  datatype KeyResult = FromEnv(key: string) | FromFile(key: string) | Generated(key: string) | NoKey

  function Unix(t: int): int { t / SECOND }

  predicate KeyChar(c: char) { 'a' <= c <= 'z' || 'A' <= c <= 'Z' || '0' <= c <= '9' || c == '_' || c == '-' }

  predicate WellFormed(k: string) { 32 <= |k| <= 512 && forall i :: 0 <= i < |k| ==> KeyChar(k[i]) }

  // What ValidateKey accepts.
  ghost predicate Usable(k: string) { WellFormed(k) && WeaknessOf(k) == Strong }

  function FormatInt(n: int): string { if n < 0 then "-" + Itoa(-n) else Itoa(n) }

  // The seconds an expiry text stands for; None when it is not a plain 64-bit number.
  function ParseExpiry(s: string): Option<int> {
    if s == "" || !AllDigits(s) || Atoi(s) > MAX_INT64 then None else Some(Atoi(s))
  }

  // ---------------------------------------------------------------- accepted keys

  ghost predicate PreviousAccepted(v: File, now: int) {
    && PREV in v && PREV_EXPIRES in v && Usable(v[PREV])
    && ParseExpiry(v[PREV_EXPIRES]).Some? && Unix(now) < ParseExpiry(v[PREV_EXPIRES]).value
  }

  // None stands for the error of an unusable key.
  ghost function Accepted(v: File, env: Option<string>, now: int): Option<seq<string>> {
    if env.Some? then (if Usable(env.value) then Some([env.value]) else None)
    else if KEY !in v then Some([])
    else if !Usable(v[KEY]) then None
    else if PreviousAccepted(v, now) && v[PREV] != v[KEY] then Some([v[KEY], v[PREV]])
    else Some([v[KEY]])
  }

  ghost function KeysIn(a: seq<string>): (s: set<string>)
    ensures |a| == 0 ==> s == {}
    ensures |a| == 1 ==> s == {a[0]}
    ensures |a| == 2 ==> s == {a[0], a[1]}
  {
    set k | k in a
  }

  ghost function AcceptedSet(v: File, env: Option<string>, now: int): set<string> {
    var a := Accepted(v, env, now);
    if a.None? then {} else KeysIn(a.value)
  }

  // Only the accepted file key may stay on as the previous key.
  ghost predicate Keeps(v: File, env: Option<string>, grace: int) {
    grace > 0 && KEY in v && v[KEY] != "" && (env.None? || env.value == v[KEY]) && WeaknessOf(v[KEY]) == Strong
  }

  function RotatedFile(v: File, keeps: bool, expires: int, newKey: string): File
    requires keeps ==> KEY in v
  {
    if keeps then v[KEY := newKey][PREV := v[KEY]][PREV_EXPIRES := FormatInt(expires)]
    else v[KEY := newKey] - {PREV, PREV_EXPIRES}
  }

  ghost function Rotated(v: File, env: Option<string>, grace: int, now: int, newKey: string): Result<File, KeyError> {
    if grace < 0 then Err(BadGrace)
    else if KEY in v && !WellFormed(v[KEY]) then Err(InvalidKey)
    else Ok(RotatedFile(v, Keeps(v, env, grace), Unix(now) + grace, newKey))
  }

  class KeyFile {
    var values: File

    constructor (values: File)
      ensures this.values == values
    {
      this.values := values;
    }

    method ValidateKey(k: string) returns (ok: bool)
      ensures ok <==> Usable(k)
    {
      if !WellFormed(k) { return false; }
      var w := WeakKey(k);
      ok := w == Strong;
    }

    method Resolve(env: Option<string>, generate: bool, newKey: string) returns (r: Result<KeyResult, KeyError>)
      modifies this
      ensures env.Some? ==> r == (if Usable(env.value) then Ok(FromEnv(env.value)) else Err(InvalidKey))
      ensures env.None? && KEY in old(values) ==>
        r == (if Usable(old(values)[KEY]) then Ok(FromFile(old(values)[KEY])) else Err(InvalidKey))
      ensures env.None? && KEY !in old(values) ==> r == Ok(if generate then Generated(newKey) else NoKey)
      ensures values == if env.None? && KEY !in old(values) && generate then old(values)[KEY := newKey] else old(values)
    {
      if env.Some? {
        var ok := ValidateKey(env.value);
        return if ok then Ok(FromEnv(env.value)) else Err(InvalidKey);
      }
      if KEY in values {
        var ok := ValidateKey(values[KEY]);
        return if ok then Ok(FromFile(values[KEY])) else Err(InvalidKey);
      }
      if !generate { return Ok(NoKey); }
      values := values[KEY := newKey];
      r := Ok(Generated(newKey));
    }

    method AcceptedKeys(env: Option<string>, now: int) returns (r: Result<seq<string>, KeyError>)
      modifies this
      ensures values == old(values)
      ensures Accepted(values, env, now) == if r.Ok? then Some(r.value) else None
    {
      var res := Resolve(env, false, "");
      if res.Err? { return Err(res.error); }
      match res.value
      case FromEnv(k) => r := Ok([k]);
      case FromFile(k) =>
        r := Ok([k]);
        if PREV in values && PREV_EXPIRES in values {
          var ok := ValidateKey(values[PREV]);
          var exp := ParseExpiry(values[PREV_EXPIRES]);
          if ok && exp.Some? && Unix(now) < exp.value && values[PREV] != k {
            r := Ok([k, values[PREV]]);
          }
        }
      case _ => r := Ok([]);
    }

    method Rotate(env: Option<string>, grace: int, now: int, newKey: string) returns (r: Result<int, KeyError>)
      modifies this
      ensures Rotated(old(values), env, grace, now, newKey) == if r.Ok? then Ok(values) else Err(r.error)
      ensures r.Err? ==> values == old(values)
      ensures r.Ok? ==> r.value == if Keeps(old(values), env, grace) then Unix(now) + grace else 0
    {
      if grace < 0 { return Err(BadGrace); }
      if KEY in values && !WellFormed(values[KEY]) { return Err(InvalidKey); }
      var accepted := false;
      if KEY in values && values[KEY] != "" && (env.None? || env.value == values[KEY]) {
        var w := WeakKey(values[KEY]);
        accepted := w == Strong;
      }
      if grace > 0 && accepted {
        var expires := Unix(now) + grace;
        values := values[KEY := newKey][PREV := values[KEY]][PREV_EXPIRES := FormatInt(expires)];
        r := Ok(expires);
      } else {
        values := values[KEY := newKey] - {PREV, PREV_EXPIRES};
        r := Ok(0);
      }
    }
  }

  // ---------------------------------------------------------------- one rotation

  lemma ExpiryRoundTrip(n: int)
    ensures ParseExpiry(FormatInt(n)) == if 0 <= n <= MAX_INT64 then Some(n) else None
  {
    if n >= 0 {
      AtoiOfItoa(n);
    } else {
      assert FormatInt(n)[0] == '-';
    }
  }

  /** Exactly what is accepted after a rotation, at every later time: the new key, and the replaced key
      only when it was accepted, a grace was asked for and its last second has not begun to expire. */
  lemma AcceptedAfterRotation(v: File, grace: int, now: int, newKey: string, later: int)
    requires Rotated(v, None, grace, now, newKey).Ok?
    ensures var kept := grace > 0 && KEY in v && Usable(v[KEY]) && Unix(later) < Unix(now) + grace
      && 0 <= Unix(now) + grace <= MAX_INT64;
      AcceptedSet(Rotated(v, None, grace, now, newKey).value, None, later)
        == if !Usable(newKey) then {} else if kept then {newKey, v[KEY]} else {newKey}
  {
    var keeps, e := Keeps(v, None, grace), Unix(now) + grace;
    AcceptedOfRotated(v, RotatedFile(v, keeps, e, newKey), keeps, e, newKey, later);
  }

  lemma AcceptedOfRotated(v: File, w: File, keeps: bool, expires: int, newKey: string, later: int)
    requires keeps ==> KEY in v && Usable(v[KEY])
    requires w == RotatedFile(v, keeps, expires, newKey)
    ensures var kept := keeps && Unix(later) < expires && 0 <= expires <= MAX_INT64;
      AcceptedSet(w, None, later) == if !Usable(newKey) then {} else if kept then {newKey, v[KEY]} else {newKey}
  {
    ExpiryRoundTrip(expires);
    assert KEY in w && w[KEY] == newKey;
    if keeps {
      assert PREV in w && w[PREV] == v[KEY] && PREV_EXPIRES in w && w[PREV_EXPIRES] == FormatInt(expires);
    } else {
      assert PREV !in w;
    }
  }

  /** A rotation never widens what is accepted, whatever the environment holds. */
  lemma RotationNeverWidens(v: File, env: Option<string>, grace: int, now: int, newKey: string, later: int)
    requires Rotated(v, env, grace, now, newKey).Ok? && now <= later
    ensures AcceptedSet(Rotated(v, env, grace, now, newKey).value, env, later) <= {newKey} + AcceptedSet(v, env, now)
  {
    if env.None? { AcceptedAfterRotation(v, grace, now, newKey, later); }
  }

  /** A rotation leaves a previous key behind exactly when it has a grace and the file's key was accepted until then;
      that key is the one it leaves. */
  lemma KeptWasAccepted(v: File, env: Option<string>, grace: int, now: int, newKey: string)
    requires Rotated(v, env, grace, now, newKey).Ok?
    ensures var w := Rotated(v, env, grace, now, newKey).value;
      && w[KEY := newKey] == w && KEY in w
      && (PREV in w <==> grace > 0 && KEY in v && v[KEY] in AcceptedSet(v, env, now))
      && (PREV in w ==> w[PREV] == v[KEY])
  {
    if KEY in v && v[KEY] in AcceptedSet(v, env, now) { assert Usable(v[KEY]); }
  }

  // ---------------------------------------------------------------- runs of rotations

  datatype Rotation = Rotation(at: int, grace: int, newKey: string)

  // A refused rotation leaves the file alone.
  ghost function AfterRotation(v: File, env: Option<string>, r: Rotation): File {
    var w := Rotated(v, env, r.grace, r.at, r.newKey);
    if w.Ok? then w.value else v
  }

  lemma AfterRotationIs(v: File, env: Option<string>, r: Rotation, keeps: bool)
    requires keeps == Keeps(v, env, r.grace)
    ensures Rotated(v, env, r.grace, r.at, r.newKey).Err? ==> AfterRotation(v, env, r) == v
    ensures Rotated(v, env, r.grace, r.at, r.newKey).Ok? ==>
      (keeps ==> KEY in v && WellFormed(v[KEY]))
        && AfterRotation(v, env, r) == RotatedFile(v, keeps, Unix(r.at) + r.grace, r.newKey)
  {
  }

  ghost function AfterRun(v: File, env: Option<string>, rs: seq<Rotation>): File {
    if rs == [] then v else AfterRotation(AfterRun(v, env, rs[..|rs| - 1]), env, rs[|rs| - 1])
  }

  ghost predicate InOrder(rs: seq<Rotation>, from: int, to: int) {
    && from <= to
    && (forall i :: 0 <= i < |rs| ==> from <= rs[i].at <= to)
    && forall i, j :: 0 <= i < j < |rs| ==> rs[i].at <= rs[j].at
  }

  ghost function FreshKeys(rs: seq<Rotation>): set<string> { set i | 0 <= i < |rs| :: rs[i].newKey }

  // Time alone only takes keys away.
  lemma TimeNarrows(v: File, env: Option<string>, now: int, later: int)
    requires now <= later
    ensures AcceptedSet(v, env, later) <= AcceptedSet(v, env, now)
  {
    assert Unix(now) <= Unix(later);
  }

  /** Over a whole run nothing is accepted but freshly generated keys and what was accepted at the start. */
  lemma {:induction false} RunNeverWidens(v: File, env: Option<string>, rs: seq<Rotation>, from: int, to: int)
    requires InOrder(rs, from, to)
    ensures AcceptedSet(AfterRun(v, env, rs), env, to) <= FreshKeys(rs) + AcceptedSet(v, env, from)
    decreases |rs|
  {
    if rs == [] {
      TimeNarrows(v, env, from, to);
    } else {
      var n := |rs| - 1;
      var r, u := rs[n], AfterRun(v, env, rs[..n]);
      RunNeverWidens(v, env, rs[..n], from, r.at);
      assert FreshKeys(rs) == FreshKeys(rs[..n]) + {r.newKey};
      if Rotated(u, env, r.grace, r.at, r.newKey).Ok? {
        RotationNeverWidens(u, env, r.grace, r.at, r.newKey, to);
      } else {
        TimeNarrows(u, env, r.at, to);
      }
    }
  }

  /** Never more than two keys, and with an environment key never any other. */
  lemma AtMostTwo(v: File, env: Option<string>, now: int)
    ensures |AcceptedSet(v, env, now)| <= 2
    ensures env.Some? ==> AcceptedSet(v, env, now) <= {env.value}
  {
    var a := Accepted(v, env, now);
    if a.Some? && |a.value| == 2 {
      assert KeysIn(a.value) == {a.value[0]} + {a.value[1]};
    }
  }

  /** With an environment key what is accepted is always that one key, whatever the file holds. */
  lemma EnvironmentAlone(v: File, k: string, now: int)
    ensures AcceptedSet(v, Some(k), now) == if Usable(k) then {k} else {}
  {
    if Usable(k) { assert KeysIn([k]) == {k}; }
  }

  /** A previous key does not outlive the next rotation: afterwards only the two new keys can be accepted, or the
      environment key where there is one. */
  lemma SecondRotationDrops(v: File, env: Option<string>, r1: Rotation, r2: Rotation, later: int)
    requires Rotated(v, env, r1.grace, r1.at, r1.newKey).Ok?
    requires Rotated(AfterRotation(v, env, r1), env, r2.grace, r2.at, r2.newKey).Ok?
    ensures AcceptedSet(AfterRun(v, env, [r1, r2]), env, later) <=
      match env case None => {r1.newKey, r2.newKey} case Some(k) => {k}
  {
    var u := AfterRotation(v, env, r1);
    assert [r1, r2][..1] == [r1] && [r1][..0] == [];
    assert AfterRun(v, env, [r1]) == AfterRotation(AfterRun(v, env, []), env, r1) == u;
    match env
    case None => AcceptedAfterRotation(u, r2.grace, r2.at, r2.newKey, later);
    case Some(k) => EnvironmentAlone(AfterRun(v, env, [r1, r2]), k, later);
  }

  /** Generating a key for a file without one widens the set beyond that key exactly when the file still
      carries a usable, unexpired previous key: it was not accepted before and is afterwards. */
  lemma GenerationWidens(v: File, now: int, newKey: string)
    requires KEY !in v && Usable(newKey)
    ensures AcceptedSet(v, None, now) == {}
    ensures AcceptedSet(v[KEY := newKey], None, now) == {newKey} <==> !(PreviousAccepted(v, now) && v[PREV] != newKey)
  {
    var w := v[KEY := newKey];
    assert PreviousAccepted(w, now) <==> PreviousAccepted(v, now);
    if PreviousAccepted(v, now) && v[PREV] != newKey {
      assert Accepted(w, None, now) == Some([newKey, v[PREV]]);
      assert v[PREV] in AcceptedSet(w, None, now);
    }
  }
}
