module KeyCache
  /**
    The accepted-key cache of the gateway (cmd/llmctl-decide/serve_hardening.go) and its composition with
    the key file: how soon a rotated-away key stops being served.
  */
{
  import opened Wrappers
  import opened Keyring

  const STALE_GRACE: int := 5 * SECOND

  // What a read of the key source yields.
  datatype Read = Keys(ks: seq<string>) | Failed(msg: string)

  // last is the last good set, at the last attempt, goodAt the last good one, problem the last report.
  datatype State = State(last: seq<string>, at: Option<int>, goodAt: int, problem: Option<string>)

  predicate Good(read: Read) { read.Keys? && |read.ks| > 0 }

  function Problem(read: Read): string {
    match read
    case Keys(_) => "the access-key source yielded no usable key"
    case Failed(msg) => "the access-key source cannot be used: " + msg
  }

  predicate Due(c: State, now: int) { c.at.None? || now - c.at.value >= SECOND }

  function Refreshed(c: State, now: int, read: Read): State {
    if !Due(c, now) then c
    else if Good(read) then State(read.ks, Some(now), now, None)
    else State(c.last, Some(now), c.goodAt, Some(Problem(read)))
  }

  function Outcome(read: Read): Option<string> { if Good(read) then None else Some(Problem(read)) }

  // What a call says on the error stream: a problem when it is new, its end once.
  function ReportsOf(c: State, now: int, read: Read): seq<string> {
    if !Due(c, now) then []
    else if Good(read) then (if c.problem.Some? then ["usable again"] else [])
    else if c.problem != Some(Problem(read)) then [Problem(read)]
    else []
  }

  // Past the grace nothing is served.
  function Serving(c: State, now: int): seq<string> {
    if now - c.goodAt > STALE_GRACE then [] else c.last
  }

  class KeyCache {
    var last: seq<string>
    var at: Option<int>
    var goodAt: int
    var lastProb: Option<string>
    var reports: seq<string>

    function Abs(): State
      reads this
    {
      State(last, at, goodAt, lastProb)
    }

    constructor (initial: seq<string>, now: int)
      ensures Abs() == State(initial, None, now, None) && reports == []
    {
      last, at, goodAt, lastProb, reports := initial, None, now, None, [];
    }

    /** keys: refreshes at most once a second, keeps the last good set over a failed read, and fails
        closed after the grace. */
    method Get(now: int, read: Read) returns (ks: seq<string>)
      modifies this
      ensures Abs() == Refreshed(old(Abs()), now, read)
      ensures ks == Serving(Abs(), now)
      ensures reports == old(reports) + ReportsOf(old(Abs()), now, read)
    {
      if at.Some? && now - at.value < SECOND {
        return if now - goodAt > STALE_GRACE then [] else last;
      }
      at := Some(now);
      if Good(read) {
        last, goodAt := read.ks, now;
        if lastProb.Some? {
          reports := reports + ["usable again"];
          lastProb := None;
        }
      } else {
        if lastProb != Some(Problem(read)) {
          lastProb := Some(Problem(read));
          reports := reports + [Problem(read)];
        }
      }
      ks := if now - goodAt > STALE_GRACE then [] else last;
    }
  }

  // ---------------------------------------------------------------- the file and the cache together

  // readable is false when the source cannot be read at that moment.
  datatype Event = Rotate(at: int, grace: int, newKey: string) | Call(at: int, readable: bool)

  datatype World = World(file: File, cache: State)

  ghost function ReadOf(file: File, env: Option<string>, e: Event): Read
    requires e.Call?
  {
    if !e.readable || Accepted(file, env, e.at).None? then Failed("unreadable")
    else Keys(Accepted(file, env, e.at).value)
  }

  ghost function Step(w: World, env: Option<string>, e: Event): World {
    match e
    case Rotate(at, grace, newKey) => w.(file := AfterRotation(w.file, env, Rotation(at, grace, newKey)))
    case Call(at, _) => w.(cache := Refreshed(w.cache, at, ReadOf(w.file, env, e)))
  }

  // The keys a call is answered with after the events before it.
  ghost function Answer(w: World, env: Option<string>, es: seq<Event>, e: Event): seq<string>
    requires e.Call?
  {
    Serving(Step(Run(w, env, es), env, e).cache, e.at)
  }

  ghost function Run(w: World, env: Option<string>, es: seq<Event>): World {
    if es == [] then w else Step(Run(w, env, es[..|es| - 1]), env, es[|es| - 1])
  }

  ghost predicate NeverMakes(es: seq<Event>, k: string) {
    forall i :: 0 <= i < |es| && es[i].Rotate? ==> es[i].newKey != k
  }

  // The file can accept k only as a previous key that expires at e.
  ghost predicate FileSafe(file: File, k: string, e: int) {
    && (KEY in file ==> file[KEY] != k)
    && ((PREV in file && file[PREV] == k && PREV_EXPIRES in file && ParseExpiry(file[PREV_EXPIRES]).Some?)
        ==> ParseExpiry(file[PREV_EXPIRES]).value <= e)
  }

  ghost predicate CacheSafe(c: State, k: string, bound: int) { k in c.last ==> c.goodAt <= bound }

  // The last moment a read can still have held the replaced key.
  function LastGoodRead(t: int, grace: int): int {
    if (Unix(t) + grace) * SECOND - 1 > t then (Unix(t) + grace) * SECOND - 1 else t
  }

  lemma LastGoodReadBound(t: int, grace: int)
    requires grace >= 0
    ensures t <= LastGoodRead(t, grace) <= t + grace * SECOND
    ensures grace > 0 ==> LastGoodRead(t, grace) < t + grace * SECOND
    ensures forall now: int :: Unix(now) < Unix(t) + grace ==> now <= LastGoodRead(t, grace)
  {
    assert Unix(t) * SECOND <= t;
    assert (Unix(t) + grace) * SECOND == Unix(t) * SECOND + grace * SECOND;
    forall now: int | Unix(now) < Unix(t) + grace ensures now <= LastGoodRead(t, grace) {
      assert now < (Unix(now) + 1) * SECOND <= (Unix(t) + grace) * SECOND;
    }
  }

  lemma RotationSafe(file: File, env: Option<string>, r: Rotation, k: string)
    requires Rotated(file, env, r.grace, r.at, r.newKey).Ok? && r.newKey != k
    ensures FileSafe(AfterRotation(file, env, r), k, Unix(r.at) + r.grace)
  {
    var keeps, e := Keeps(file, env, r.grace), Unix(r.at) + r.grace;
    AfterRotationIs(file, env, r, keeps);
    RotatedSafe(file, AfterRotation(file, env, r), keeps, e, r.newKey, k);
  }

  lemma RotatedSafe(v: File, w: File, keeps: bool, e: int, newKey: string, k: string)
    requires (keeps ==> KEY in v) && w == RotatedFile(v, keeps, e, newKey) && newKey != k
    ensures FileSafe(w, k, e)
  {
    ExpiryRoundTrip(e);
    assert keeps ==> w[PREV_EXPIRES] == FormatInt(e);
    assert !keeps ==> PREV !in w;
  }

  lemma LaterRotationSafe(file: File, env: Option<string>, r: Rotation, k: string, e: int)
    requires FileSafe(file, k, e) && r.newKey != k
    ensures FileSafe(AfterRotation(file, env, r), k, e)
  {
  }

  // A read that holds k happened before it expired.
  lemma ReadSafe(file: File, env: Option<string>, e: Event, k: string, expires: int)
    requires e.Call? && FileSafe(file, k, expires) && env != Some(k)
    ensures Good(ReadOf(file, env, e)) && k in ReadOf(file, env, e).ks ==> Unix(e.at) < expires
  {
  }

  ghost predicate Safe(w: World, k: string, t: int, grace: int) {
    FileSafe(w.file, k, Unix(t) + grace) && CacheSafe(w.cache, k, LastGoodRead(t, grace))
  }

  lemma StepSafe(w: World, env: Option<string>, e: Event, k: string, t: int, grace: int)
    requires Safe(w, k, t, grace) && env != Some(k) && grace >= 0 && (e.Rotate? ==> e.newKey != k)
    ensures Safe(Step(w, env, e), k, t, grace)
  {
    match e
    case Rotate(at, g, newKey) => LaterRotationSafe(w.file, env, Rotation(at, g, newKey), k, Unix(t) + grace);
    case Call(at, _) =>
      ReadSafe(w.file, env, e, k, Unix(t) + grace);
      LastGoodReadBound(t, grace);
  }

  lemma {:induction false} RunSafe(w: World, env: Option<string>, es: seq<Event>, k: string, t: int, grace: int)
    requires Safe(w, k, t, grace) && env != Some(k) && grace >= 0 && NeverMakes(es, k)
    ensures Safe(Run(w, env, es), k, t, grace)
    decreases |es|
  {
    if es != [] {
      RunSafe(w, env, es[..|es| - 1], k, t, grace);
      StepSafe(Run(w, env, es[..|es| - 1]), env, es[|es| - 1], k, t, grace);
    }
  }

  // A world in which the rotation r is about to happen.
  ghost predicate BeforeRotation(w: World, env: Option<string>, r: Event, k: string) {
    && r.Rotate? && Rotated(w.file, env, r.grace, r.at, r.newKey).Ok? && r.newKey != k && env != Some(k)
    && w.cache.goodAt <= r.at && (w.cache.at.Some? ==> w.cache.at.value <= r.at)
  }

  /** After a rotation with grace g at t, whatever reads succeed or fail and whatever is rotated next, no
      call after t+g+5s is answered with any key but freshly made ones; with g > 0 not even at t+g+5s. */
  lemma RevokedWithinGrace(w: World, env: Option<string>, r: Event, es: seq<Event>, call: Event, k: string)
    requires BeforeRotation(w, env, r, k) && NeverMakes(es, k) && call.Call?
    requires call.at > r.at + r.grace * SECOND + STALE_GRACE
      || (r.grace > 0 && call.at == r.at + r.grace * SECOND + STALE_GRACE)
    ensures k !in Answer(Step(w, env, r), env, es, call)
  {
    RotationSafe(w.file, env, Rotation(r.at, r.grace, r.newKey), k);
    LastGoodReadBound(r.at, r.grace);
    RunSafe(Step(w, env, r), env, es, k, r.at, r.grace);
    StepSafe(Run(Step(w, env, r), env, es), env, call, k, r.at, r.grace);
  }

  /** At exactly t+5s after a rotation without a grace the replaced key is still served just when the last
      good read happened at the very moment of the rotation, held the key, and this call's read fails. */
  lemma BoundaryWithoutGrace(w: World, env: Option<string>, r: Event, es: seq<Event>, call: Event, k: string)
    requires BeforeRotation(w, env, r, k) && NeverMakes(es, k) && r.grace == 0
    requires call.Call? && call.at == r.at + STALE_GRACE
    ensures var u := Run(Step(w, env, r), env, es);
      (k in Answer(Step(w, env, r), env, es, call))
        <==>
          (u.cache.goodAt == r.at && k in u.cache.last && !(Due(u.cache, call.at) && Good(ReadOf(u.file, env, call))))
  {
    RotationSafe(w.file, env, Rotation(r.at, r.grace, r.newKey), k);
    LastGoodReadBound(r.at, r.grace);
    RunSafe(Step(w, env, r), env, es, k, r.at, r.grace);
    StepSafe(Run(Step(w, env, r), env, es), env, call, k, r.at, r.grace);
  }

  // Such a run exists: the cache read at the moment of the rotation, and nothing can be read afterwards.
  lemma BoundaryReached(w: World, env: Option<string>, r: Event, k: string)
    requires BeforeRotation(w, env, r, k) && r.grace == 0
    requires w.cache.goodAt == r.at && k in w.cache.last
    ensures k in Answer(Step(w, env, r), env, [], Call(r.at + STALE_GRACE, false))
  {
    BoundaryWithoutGrace(w, env, r, [], Call(r.at + STALE_GRACE, false), k);
  }

  // ---------------------------------------------------------------- while reads succeed

  ghost predicate AllReadable(es: seq<Event>) {
    forall i :: 0 <= i < |es| ==> (es[i].Call? ==> es[i].readable) && (es[i].Rotate? ==> Usable(es[i].newKey))
  }

  // The source holds a usable key: the environment's where there is one, the file's otherwise.
  ghost predicate Supplied(file: File, env: Option<string>) {
    match env case None => KEY in file && Usable(file[KEY]) case Some(k) => Usable(k)
  }

  // Every attempt since t was good.
  ghost predicate UpToDate(w: World, env: Option<string>, t: int) {
    && Supplied(w.file, env)
    && (w.cache.at.Some? && w.cache.at.value > t ==> w.cache.goodAt == w.cache.at.value)
  }

  lemma StepUpToDate(w: World, env: Option<string>, e: Event, t: int)
    requires UpToDate(w, env, t) && (e.Call? ==> e.readable) && (e.Rotate? ==> Usable(e.newKey))
    ensures UpToDate(Step(w, env, e), env, t)
  {
  }

  lemma {:induction false} RunUpToDate(w: World, env: Option<string>, es: seq<Event>, t: int)
    requires UpToDate(w, env, t) && AllReadable(es)
    ensures UpToDate(Run(w, env, es), env, t)
    decreases |es|
  {
    if es != [] {
      RunUpToDate(w, env, es[..|es| - 1], t);
      StepUpToDate(Run(w, env, es[..|es| - 1]), env, es[|es| - 1], t);
    }
  }

  /** While reads succeed the replaced key is gone one second after its grace, with and without an environment
      key. */
  lemma RevokedWithinASecond(w: World, env: Option<string>, r: Event, es: seq<Event>, call: Event, k: string)
    requires BeforeRotation(w, env, r, k) && NeverMakes(es, k) && AllReadable(es) && Usable(r.newKey)
    requires env.Some? ==> Usable(env.value)
    requires call.Call? && call.readable && call.at >= r.at + r.grace * SECOND + SECOND
    ensures k !in Answer(Step(w, env, r), env, es, call)
  {
    RotationSafe(w.file, env, Rotation(r.at, r.grace, r.newKey), k);
    LastGoodReadBound(r.at, r.grace);
    var u := Step(w, env, r);
    RunSafe(u, env, es, k, r.at, r.grace);
    RunUpToDate(u, env, es, r.at);
    StepSafe(Run(u, env, es), env, call, k, r.at, r.grace);
    StepUpToDate(Run(u, env, es), env, call, r.at);
  }

  // ---------------------------------------------------------------- what is served is the newest good read

  // A call together with what its read would yield.
  datatype Visit = Visit(now: int, read: Read)

  function Visits(c: State, vs: seq<Visit>): State {
    if vs == [] then c else Refreshed(Visits(c, vs[..|vs| - 1]), vs[|vs| - 1].now, vs[|vs| - 1].read)
  }

  // Visit i really read, and well.
  ghost predicate GoodRead(c: State, vs: seq<Visit>, i: nat)
    requires i < |vs|
  {
    Due(Visits(c, vs[..i]), vs[i].now) && Good(vs[i].read)
  }

  /** Every set a visit is answered with is the initial one or that of the newest good read, at most five
      seconds old; past that the answer is empty until a read is good again. */
  lemma {:induction false} ServedIsNewest(c: State, vs: seq<Visit>, now: int) returns (i: int)
    ensures -1 <= i < |vs| && forall j :: i < j < |vs| ==> !GoodRead(c, vs, j)
    ensures i >= 0 ==> GoodRead(c, vs, i)
    ensures var keys, t := if i < 0 then c.last else vs[i].read.ks, if i < 0 then c.goodAt else vs[i].now;
      Serving(Visits(c, vs), now) == if now - t <= STALE_GRACE then keys else []
    decreases |vs|
  {
    if vs == [] { return -1; }
    var n := |vs| - 1;
    if GoodRead(c, vs, n) { return n; }
    i := ServedIsNewest(c, vs[..n], now);
    forall j | 0 <= j < n ensures GoodRead(c, vs, j) <==> GoodRead(c, vs[..n], j) {
      assert vs[..n][..j] == vs[..j];
    }
  }

  // ---------------------------------------------------------------- how often the source is read

  // Visit i read the source.
  ghost predicate Reads(c: State, vs: seq<Visit>, i: nat)
    requires i < |vs|
  {
    Due(Visits(c, vs[..i]), vs[i].now)
  }

  ghost predicate InTime(vs: seq<Visit>) { forall i, j :: 0 <= i < j < |vs| ==> vs[i].now <= vs[j].now }

  // Since visit i the source was last read at or after that visit, and at it when no visit since has read it.
  lemma {:induction false} LastRead(c: State, vs: seq<Visit>, i: nat, k: nat)
    requires InTime(vs) && i < k <= |vs| && Reads(c, vs, i)
    ensures Visits(c, vs[..k]).at.Some? && vs[i].now <= Visits(c, vs[..k]).at.value
    ensures (forall j :: i < j < k ==> !Reads(c, vs, j)) ==> Visits(c, vs[..k]).at == Some(vs[i].now)
    decreases k
  {
    assert vs[..k][..k - 1] == vs[..k - 1];
    if k - 1 > i {
      LastRead(c, vs, i, k - 1);
      if !Reads(c, vs, k - 1) { assert Visits(c, vs[..k]) == Visits(c, vs[..k - 1]); }
    }
  }

  /** The source is read at most once a second, and read again by the first visit a second later. */
  lemma ReadOnceASecond(c: State, vs: seq<Visit>, i: nat, j: nat)
    requires InTime(vs) && i < j < |vs| && Reads(c, vs, i)
    ensures Reads(c, vs, j) ==> vs[j].now - vs[i].now >= SECOND
    ensures (forall k :: i < k < j ==> !Reads(c, vs, k)) ==> (Reads(c, vs, j) <==> vs[j].now - vs[i].now >= SECOND)
  {
    LastRead(c, vs, i, j);
  }

  // ---------------------------------------------------------------- what is reported

  // Visits i and j read the source, and none between them.
  ghost predicate NextRead(c: State, vs: seq<Visit>, i: nat, j: nat) {
    i < j < |vs| && Reads(c, vs, i) && Reads(c, vs, j) && forall k :: i < k < j ==> !Reads(c, vs, k)
  }

  lemma {:induction false} ProblemStays(c: State, vs: seq<Visit>, i: nat, k: nat)
    requires i < k <= |vs| && Reads(c, vs, i) && forall j :: i < j < k ==> !Reads(c, vs, j)
    ensures Visits(c, vs[..k]).problem == Outcome(vs[i].read)
    decreases k
  {
    assert vs[..k][..k - 1] == vs[..k - 1];
    if k - 1 > i {
      ProblemStays(c, vs, i, k - 1);
      assert !Reads(c, vs, k - 1);
    }
  }

  /** A read is reported exactly when it went differently from the one before it. */
  lemma ReportsChanges(c: State, vs: seq<Visit>, i: nat, j: nat)
    requires NextRead(c, vs, i, j)
    ensures ReportsOf(Visits(c, vs[..j]), vs[j].now, vs[j].read) ==
      if Outcome(vs[i].read) == Outcome(vs[j].read) then []
      else if Outcome(vs[j].read).None? then ["usable again"]
      else [Outcome(vs[j].read).value]
  {
    ProblemStays(c, vs, i, j);
  }
}
