module Slots
  /**
    The instance slots of the router (internal/gateway/router.go): a state machine over every interleaving
    of the requests' channel and counter steps. Each instance has a semaphore channel and an in-flight
    counter that are changed in separate steps.
  */
{
  type Url = string

  // A request is only routed over at least one healthy endpoint.
  type Endpoints = e: seq<Url> | |e| > 0 witness [""]

  datatype Mode = Deterministic | Throughput

  datatype Config = Config(mode: Mode, concurrency: int) {
    function Cap(): nat { if concurrency < 1 then 1 else concurrency }
  }

  const ONE := Config(Deterministic, 1)

  datatype Slot = Slot(sem: nat, inflight: int)

  /** Where one request stands. The plan is the order the instances are tried in; position k of it is the
      instance, and the position past its end is the wait on the primary. */
  datatype Request =
    | Start(eps: Endpoints)
    | Reading(eps: Endpoints, loads: seq<int>)
    | Trying(eps: Endpoints, plan: seq<Url>, k: nat)
    | Waiting(eps: Endpoints, plan: seq<Url>)
    | Sleeping(eps: Endpoints, plan: seq<Url>)
    | Sent(eps: Endpoints, plan: seq<Url>, k: nat)
    | Deciding(eps: Endpoints, plan: seq<Url>, k: nat)
    | Leaving(eps: Endpoints, plan: seq<Url>, k: nat)
    | Done(eps: Endpoints)
    | Overloaded(eps: Endpoints, plan: seq<Url>)

  datatype State = State(slots: map<Url, Slot>, requests: seq<Request>)

  // Cancel is the end of a waiting request's context; every other step is the request's own next one.
  datatype Step = Go(t: nat) | Cancel(t: nat)

  function At(eps: Endpoints, plan: seq<Url>, k: nat): Url { if k < |plan| then plan[k] else eps[0] }

  // slotFor: a slot is created empty at its first use.
  function SlotFor(s: State, u: Url): Slot { if u in s.slots then s.slots[u] else Slot(0, 0) }

  // The first of the least loads.
  function Least(loads: seq<int>): (b: nat)
    requires |loads| > 0
    ensures b < |loads|
    ensures forall i :: 0 <= i < |loads| ==> loads[b] <= loads[i] && (i < b ==> loads[b] < loads[i])
  {
    if |loads| == 1 then 0
    else
      var b := Least(loads[..|loads| - 1]);
      if loads[|loads| - 1] < loads[b] then |loads| - 1 else b
  }

  // The least loaded first, then the rest in order.
  function LeastFirst(eps: Endpoints, loads: seq<int>): seq<Url>
    requires |loads| == |eps|
  {
    var b := Least(loads);
    [eps[b]] + eps[..b] + eps[b + 1..]
  }

  predicate Enabled(c: Config, s: State, e: Step) {
    && e.t < |s.requests|
    && match s.requests[e.t]
       case Done(_) => false
       case Overloaded(_, _) => false
       case Waiting(eps, _) => e.Cancel? || SlotFor(s, eps[0]).sem < c.Cap()
       case Sleeping(_, _) => true
       // A receive blocks while the channel is empty.
       case Leaving(eps, plan, k) => e.Go? && SlotFor(s, At(eps, plan, k)).sem > 0
       case Reading(eps, loads) => e.Go? && |loads| <= |eps|
       case _ => e.Go?
  }

  function Become(s: State, t: nat, r: Request): State
    requires t < |s.requests|
  {
    s.(requests := s.requests[t := r])
  }

  function Update(s: State, t: nat, r: Request, u: Url, slot: Slot): State
    requires t < |s.requests|
  {
    State(s.slots[u := slot], s.requests[t := r])
  }

  function Apply(c: Config, s: State, e: Step): State
    requires Enabled(c, s, e)
  {
    match s.requests[e.t]
    case Start(eps) =>
      Become(s, e.t, if c.mode == Throughput then Reading(eps, []) else Trying(eps, eps, 0))
    case Reading(eps, loads) =>
      Become(s, e.t, if |loads| < |eps| then Reading(eps, loads + [SlotFor(s, eps[|loads|]).inflight])
                     else Trying(eps, LeastFirst(eps, loads), 0))
    case Trying(eps, plan, k) =>
      if k >= |plan| then
        Become(s, e.t, if c.mode == Throughput then Sleeping(eps, plan) else Waiting(eps, plan))
      else
        var slot := SlotFor(s, plan[k]);
        if slot.sem < c.Cap() then Update(s, e.t, Sent(eps, plan, k), plan[k], slot.(sem := slot.sem + 1))
        else Update(s, e.t, Trying(eps, plan, k + 1), plan[k], slot)
    case Waiting(eps, plan) =>
      if e.Cancel? then Become(s, e.t, Overloaded(eps, plan))
      else
        var slot := SlotFor(s, eps[0]);
        Update(s, e.t, Sent(eps, plan, |plan|), eps[0], slot.(sem := slot.sem + 1))
    case Sleeping(eps, plan) =>
      Become(s, e.t, if e.Cancel? then Overloaded(eps, plan) else Reading(eps, []))
    case Sent(eps, plan, k) =>
      var slot := SlotFor(s, At(eps, plan, k));
      Update(s, e.t, Deciding(eps, plan, k), At(eps, plan, k), slot.(inflight := slot.inflight + 1))
    case Deciding(eps, plan, k) =>
      var slot := SlotFor(s, At(eps, plan, k));
      Update(s, e.t, Leaving(eps, plan, k), At(eps, plan, k), slot.(inflight := slot.inflight - 1))
    case Leaving(eps, plan, k) =>
      var slot := SlotFor(s, At(eps, plan, k));
      Update(s, e.t, Done(eps), At(eps, plan, k), slot.(sem := slot.sem - 1))
  }

  predicate Initial(s: State) {
    s.slots == map[] && forall t :: 0 <= t < |s.requests| ==> s.requests[t].Start?
  }

  ghost predicate Legal(c: Config, s: State, es: seq<Step>)
    decreases |es|, 0
  {
    es == [] || (Legal(c, s, es[..|es| - 1]) && Enabled(c, Run(c, s, es[..|es| - 1]), es[|es| - 1]))
  }

  ghost function Run(c: Config, s: State, es: seq<Step>): State
    requires Legal(c, s, es)
    ensures |Run(c, s, es).requests| == |s.requests|
    decreases |es|, 1
  {
    if es == [] then s else Apply(c, Run(c, s, es[..|es| - 1]), es[|es| - 1])
  }

  // ---------------------------------------------------------------- counting requests

  function Total(rs: seq<Request>, f: Request -> nat): nat {
    if rs == [] then 0 else Total(rs[..|rs| - 1], f) + f(rs[|rs| - 1])
  }

  lemma {:induction false} TotalUpdate(rs: seq<Request>, t: nat, r: Request, f: Request -> nat)
    requires t < |rs|
    ensures Total(rs[t := r], f) == Total(rs, f) - f(rs[t]) + f(r)
    decreases |rs|
  {
    var n := |rs| - 1;
    if t < n {
      TotalUpdate(rs[..n], t, r, f);
      assert rs[t := r][..n] == rs[..n][t := r];
    } else {
      assert rs[t := r][..n] == rs[..n];
    }
  }

  lemma {:induction false} TotalOrder(rs: seq<Request>, f: Request -> nat, g: Request -> nat)
    requires forall r :: f(r) <= g(r)
    ensures Total(rs, f) <= Total(rs, g)
    decreases |rs|
  {
    if rs != [] { TotalOrder(rs[..|rs| - 1], f, g); }
  }

  lemma {:induction false} TotalZero(rs: seq<Request>, f: Request -> nat)
    ensures Total(rs, f) == 0 <==> forall t :: 0 <= t < |rs| ==> f(rs[t]) == 0
    decreases |rs|
  {
    if rs != [] { TotalZero(rs[..|rs| - 1], f); }
  }

  // The requests whose token is in the channel of u, and those counted as in flight there.
  function Token(r: Request, u: Url): nat {
    if (r.Sent? || r.Deciding? || r.Leaving?) && At(r.eps, r.plan, r.k) == u then 1 else 0
  }

  function InFlight(r: Request, u: Url): nat {
    if r.Deciding? && At(r.eps, r.plan, r.k) == u then 1 else 0
  }

  function Holding(u: Url): Request -> nat { (r: Request) => Token(r, u) }

  function Counted(u: Url): Request -> nat { (r: Request) => InFlight(r, u) }

  // ---------------------------------------------------------------- safety

  ghost predicate SlotExact(c: Config, s: State, u: Url) {
    && SlotFor(s, u).sem == Total(s.requests, Holding(u)) <= c.Cap()
    && SlotFor(s, u).inflight == Total(s.requests, Counted(u))
  }

  ghost predicate Inv(c: Config, s: State) {
    && (forall u: Url :: SlotExact(c, s, u))
    && forall t :: 0 <= t < |s.requests| && s.requests[t].Reading? ==> |s.requests[t].loads| <= |s.requests[t].eps|
  }

  // A step is exact when the slot it writes changes by what its request starts or stops holding.
  ghost predicate Balanced(c: Config, s: State, s': State, t: nat, u: Url)
    requires t < |s.requests| == |s'.requests|
  {
    && SlotFor(s', u).sem - SlotFor(s, u).sem == Token(s'.requests[t], u) - Token(s.requests[t], u)
    && SlotFor(s', u).inflight - SlotFor(s, u).inflight == InFlight(s'.requests[t], u) - InFlight(s.requests[t], u)
    && (SlotFor(s, u).sem <= c.Cap() ==> SlotFor(s', u).sem <= c.Cap())
  }

  lemma StepBalanced(c: Config, s: State, e: Step, u: Url)
    requires Enabled(c, s, e)
    ensures Balanced(c, s, Apply(c, s, e), e.t, u)
  {
  }

  lemma StepKeeps(c: Config, s: State, e: Step)
    requires Inv(c, s) && Enabled(c, s, e)
    ensures Inv(c, Apply(c, s, e))
  {
    var s' := Apply(c, s, e);
    var r := s'.requests[e.t];
    assert s'.requests == s.requests[e.t := r];
    forall u: Url ensures SlotExact(c, s', u) {
      assert SlotExact(c, s, u);
      StepBalanced(c, s, e, u);
      TotalUpdate(s.requests, e.t, r, Holding(u));
      TotalUpdate(s.requests, e.t, r, Counted(u));
    }
  }

  lemma {:induction false} RunKeeps(c: Config, s: State, es: seq<Step>)
    requires Initial(s) && Legal(c, s, es)
    ensures Inv(c, Run(c, s, es))
    decreases |es|
  {
    if es == [] {
      forall u: Url ensures SlotExact(c, s, u) {
        TotalZero(s.requests, Holding(u));
        TotalZero(s.requests, Counted(u));
      }
    } else {
      RunKeeps(c, s, es[..|es| - 1]);
      StepKeeps(c, Run(c, s, es[..|es| - 1]), es[|es| - 1]);
    }
  }

  /** In every reachable state the counter lies between zero and the tokens held, which never exceed the
      concurrency; the tokens in the channel are exactly the requests that took one and have not given it back. */
  lemma Bounded(c: Config, s: State, es: seq<Step>, u: Url)
    requires Initial(s) && Legal(c, s, es)
    ensures var now := Run(c, s, es); var slot := SlotFor(now, u);
      0 <= slot.inflight <= slot.sem == Total(now.requests, Holding(u)) <= c.Cap()
  {
    RunKeeps(c, s, es);
    var now := Run(c, s, es);
    assert SlotExact(c, now, u);
    TotalOrder(now.requests, Counted(u), Holding(u));
  }

  /** When no request is between its send and its receive, every counter is zero again. */
  lemma QuietMeansZero(c: Config, s: State, es: seq<Step>, u: Url)
    requires Initial(s) && Legal(c, s, es)
    ensures (forall t :: 0 <= t < |s.requests| ==> Token(Run(c, s, es).requests[t], u) == 0)
      ==> SlotFor(Run(c, s, es), u) == Slot(0, 0)
  {
    Bounded(c, s, es, u);
    TotalZero(Run(c, s, es).requests, Holding(u));
  }

  // ---------------------------------------------------------------- every token comes back once

  ghost predicate Reachable(c: Config, s: State, es: seq<Step>) { Initial(s) && Legal(c, s, es) }

  predicate Took(r: Request) { r.Sent? || r.Deciding? || r.Leaving? || r.Done? }

  // How many of the steps are sends, and receives, of request t.
  ghost function SendsOf(c: Config, s: State, es: seq<Step>, t: nat): nat
    requires Legal(c, s, es) && t < |s.requests|
    decreases |es|
  {
    if es == [] then 0
    else
      var before := Run(c, s, es[..|es| - 1]);
      SendsOf(c, s, es[..|es| - 1], t)
        + if es[|es| - 1].t == t && !before.requests[t].Sent? && Run(c, s, es).requests[t].Sent? then 1 else 0
  }

  ghost function ReceivesOf(c: Config, s: State, es: seq<Step>, t: nat): nat
    requires Legal(c, s, es) && t < |s.requests|
    decreases |es|
  {
    if es == [] then 0
    else
      var before := Run(c, s, es[..|es| - 1]);
      ReceivesOf(c, s, es[..|es| - 1], t) + if es[|es| - 1].t == t && before.requests[t].Leaving? then 1 else 0
  }

  // A request takes its token by one step and gives it back by another.
  lemma StepTakes(c: Config, s: State, e: Step, t: nat)
    requires Enabled(c, s, e) && t < |s.requests|
    ensures var r, r' := s.requests[t], Apply(c, s, e).requests[t];
      && (e.t == t && !r.Sent? && r'.Sent? <==> !Took(r) && Took(r'))
      && (e.t == t && r.Leaving? <==> !r.Done? && r'.Done?)
      && (Took(r) ==> Took(r')) && (r.Done? ==> r'.Done?)
  {
  }

  /** Over every run a request sends at most one token and takes back exactly the one it sent, at its end. */
  lemma {:induction false} TokenReturnedOnce(c: Config, s: State, es: seq<Step>, t: nat)
    requires Reachable(c, s, es) && t < |s.requests|
    ensures SendsOf(c, s, es, t) == if Took(Run(c, s, es).requests[t]) then 1 else 0
    ensures ReceivesOf(c, s, es, t) == if Run(c, s, es).requests[t].Done? then 1 else 0
    decreases |es|
  {
    if es != [] {
      TokenReturnedOnce(c, s, es[..|es| - 1], t);
      StepTakes(c, Run(c, s, es[..|es| - 1]), es[|es| - 1], t);
    }
  }

  lemma HolderOf(s: State, u: Url) returns (t: nat)
    requires Total(s.requests, Holding(u)) > 0
    ensures t < |s.requests| && Token(s.requests[t], u) == 1
  {
    TotalZero(s.requests, Holding(u));
    t :| t < |s.requests| && Holding(u)(s.requests[t]) != 0;
  }

  /** The receive of a release never blocks. */
  lemma ReleaseNeverBlocks(c: Config, s: State, es: seq<Step>, t: nat)
    requires Reachable(c, s, es) && t < |s.requests| && Run(c, s, es).requests[t].Leaving?
    ensures Enabled(c, Run(c, s, es), Go(t))
  {
    var now := Run(c, s, es);
    var u := At(now.requests[t].eps, now.requests[t].plan, now.requests[t].k);
    RunKeeps(c, s, es);
    assert SlotExact(c, now, u);
    TotalZero(now.requests, Holding(u));
    assert Holding(u)(now.requests[t]) == 1;
  }

  // ---------------------------------------------------------------- when an instance is passed over

  // At step m request t found the channel of u full.
  ghost predicate FullAt(c: Config, s: State, es: seq<Step>, m: nat, t: nat, u: Url)
    requires Legal(c, s, es)
  {
    && m < |es| && es[m] == Go(t) && t < |s.requests| && Legal(c, s, es[..m])
    && var then0 := Run(c, s, es[..m]);
       && then0.requests[t].Trying? && then0.requests[t].k < |then0.requests[t].plan|
       && then0.requests[t].plan[then0.requests[t].k] == u && SlotFor(then0, u).sem == c.Cap()
  }

  ghost predicate SeenFull(c: Config, s: State, es: seq<Step>, t: nat, u: Url)
    requires Legal(c, s, es)
  {
    exists m: nat :: FullAt(c, s, es, m, t, u)
  }

  // How many instances of its plan a request has passed over.
  function Passed(r: Request): nat {
    match r
    case Trying(_, plan, k) => if k < |plan| then k else |plan|
    case Sent(_, plan, k) => if k < |plan| then k else |plan|
    case Deciding(_, plan, k) => if k < |plan| then k else |plan|
    case Leaving(_, plan, k) => if k < |plan| then k else |plan|
    case Waiting(_, plan) => |plan|
    case Sleeping(_, plan) => |plan|
    case Overloaded(_, plan) => |plan|
    case _ => 0
  }

  function PlanOf(r: Request): seq<Url> {
    if r.Start? || r.Reading? || r.Done? then [] else r.plan
  }

  ghost predicate PlanOk(c: Config, r: Request) {
    && (c.mode == Deterministic ==> !r.Reading? && !r.Sleeping?)
    && (r.Start? || r.Reading? || r.Done? ||
        if c.mode == Deterministic then r.plan == r.eps
        else exists loads: seq<int> :: |loads| == |r.eps| && r.plan == LeastFirst(r.eps, loads))
  }

  lemma StepPlan(c: Config, s: State, e: Step)
    requires Enabled(c, s, e) && PlanOk(c, s.requests[e.t])
    ensures PlanOk(c, Apply(c, s, e).requests[e.t])
  {
  }

  lemma {:induction false} RunPlan(c: Config, s: State, es: seq<Step>, t: nat)
    requires Reachable(c, s, es) && t < |s.requests|
    ensures PlanOk(c, Run(c, s, es).requests[t])
    decreases |es|
  {
    if es != [] {
      var before, e := es[..|es| - 1], es[|es| - 1];
      RunPlan(c, s, before, t);
      if e.t == t { StepPlan(c, Run(c, s, before), e); }
    }
  }

  lemma SeenStays(c: Config, s: State, es: seq<Step>, t: nat, u: Url)
    requires Legal(c, s, es) && es != [] && SeenFull(c, s, es[..|es| - 1], t, u)
    ensures SeenFull(c, s, es, t, u)
  {
    var before := es[..|es| - 1];
    var m: nat :| FullAt(c, s, before, m, t, u);
    assert before[..m] == es[..m];
    assert FullAt(c, s, es, m, t, u);
  }

  // A step passes over at most the instance it found full.
  lemma StepPasses(c: Config, s: State, e: Step, t: nat, j: nat)
    requires Enabled(c, s, e) && t < |s.requests| && j < Passed(Apply(c, s, e).requests[t])
    ensures PlanOf(Apply(c, s, e).requests[t]) == PlanOf(s.requests[t])
    ensures j < Passed(s.requests[t])
      || (e == Go(t) && s.requests[t].Trying? && j == s.requests[t].k < |s.requests[t].plan|
          && SlotFor(s, s.requests[t].plan[j]).sem >= c.Cap())
  {
  }

  /** An instance of the plan is passed over only after this very acquire found it full. */
  lemma {:induction false} PassedWereFull(c: Config, s: State, es: seq<Step>, t: nat, j: nat)
    requires Reachable(c, s, es) && t < |s.requests|
    requires j < Passed(Run(c, s, es).requests[t])
    ensures SeenFull(c, s, es, t, PlanOf(Run(c, s, es).requests[t])[j])
    decreases |es|
  {
    if es != [] {
      var n := |es| - 1;
      var before := Run(c, s, es[..n]);
      var u := PlanOf(Run(c, s, es).requests[t])[j];
      StepPasses(c, before, es[n], t, j);
      if j < Passed(before.requests[t]) {
        PassedWereFull(c, s, es[..n], t, j);
        SeenStays(c, s, es, t, u);
      } else {
        RunKeeps(c, s, es[..n]);
        assert SlotExact(c, before, u);
        assert FullAt(c, s, es, n, t, u);
      }
    }
  }

  /** Deterministic mode: a request served by a later instance found every earlier one full, in resolver
      order, during its own acquire; one that waited for the primary found all of them full. */
  lemma OverflowInOrder(c: Config, s: State, es: seq<Step>, t: nat, j: nat)
    requires Reachable(c, s, es) && c.mode == Deterministic && t < |s.requests|
    requires Run(c, s, es).requests[t].Deciding?
    ensures var r := Run(c, s, es).requests[t];
      && At(r.eps, r.plan, r.k) == r.eps[if r.k < |r.eps| then r.k else 0]
      && (j < r.k && j < |r.eps| ==> SeenFull(c, s, es, t, r.eps[j]))
  {
    RunPlan(c, s, es, t);
    var r := Run(c, s, es).requests[t];
    if j < r.k && j < |r.eps| { PassedWereFull(c, s, es, t, j); }
  }

  lemma LeastFirstCovers(eps: Endpoints, loads: seq<int>)
    requires |loads| == |eps|
    ensures multiset(LeastFirst(eps, loads)) == multiset(eps)
    ensures forall i :: 0 <= i < |loads| ==> loads[Least(loads)] <= loads[i]
  {
    var b := Least(loads);
    assert eps == eps[..b] + [eps[b]] + eps[b + 1..];
  }

  lemma PlanCovers(c: Config, r: Request, u: Url) returns (j: nat)
    requires PlanOk(c, r) && r.Overloaded? && u in r.eps
    ensures j < |r.plan| && r.plan[j] == u
  {
    if c.mode == Throughput {
      var loads: seq<int> :| |loads| == |r.eps| && r.plan == LeastFirst(r.eps, loads);
      LeastFirstCovers(r.eps, loads);
      assert u in multiset(r.eps);
      assert u in multiset(r.plan);
    }
    j :| 0 <= j < |r.plan| && r.plan[j] == u;
  }

  /** In both modes a request is only refused as overloaded after it found every instance full. */
  lemma OverloadedFoundAllFull(c: Config, s: State, es: seq<Step>, t: nat, u: Url)
    requires Reachable(c, s, es) && t < |s.requests| && Run(c, s, es).requests[t].Overloaded?
    requires u in Run(c, s, es).requests[t].eps
    ensures SeenFull(c, s, es, t, u)
  {
    RunPlan(c, s, es, t);
    var j := PlanCovers(c, Run(c, s, es).requests[t], u);
    PassedWereFull(c, s, es, t, j);
  }

  // ---------------------------------------------------------------- the loads of the throughput order

  // At step m request t read load as the number in flight at u, its i-th instance.
  ghost predicate ReadAt(c: Config, s: State, es: seq<Step>, m: nat, t: nat, i: nat, u: Url, load: int)
    requires Legal(c, s, es)
  {
    && m < |es| && es[m] == Go(t) && t < |s.requests| && Legal(c, s, es[..m])
    && var then0 := Run(c, s, es[..m]);
       && then0.requests[t].Reading? && |then0.requests[t].loads| == i < |then0.requests[t].eps|
       && then0.requests[t].eps[i] == u && SlotFor(then0, u).inflight == load
  }

  ghost predicate WasRead(c: Config, s: State, es: seq<Step>, t: nat, i: nat, u: Url, load: int)
    requires Legal(c, s, es)
  {
    exists m: nat :: ReadAt(c, s, es, m, t, i, u, load)
  }

  ghost predicate AllRead(c: Config, s: State, es: seq<Step>, t: nat, eps: Endpoints, loads: seq<int>)
    requires Legal(c, s, es)
  {
    |loads| <= |eps| && forall i :: 0 <= i < |loads| ==> WasRead(c, s, es, t, i, eps[i], loads[i])
  }

  lemma ReadStays(c: Config, s: State, es: seq<Step>, t: nat, eps: Endpoints, loads: seq<int>)
    requires Legal(c, s, es) && es != [] && AllRead(c, s, es[..|es| - 1], t, eps, loads)
    ensures AllRead(c, s, es, t, eps, loads)
  {
    var before := es[..|es| - 1];
    forall i | 0 <= i < |loads| ensures WasRead(c, s, es, t, i, eps[i], loads[i]) {
      var m: nat :| ReadAt(c, s, before, m, t, i, eps[i], loads[i]);
      assert before[..m] == es[..m];
      assert ReadAt(c, s, es, m, t, i, eps[i], loads[i]);
    }
  }

  // The loads behind where a throughput request stands: those read so far, or those its plan was made from.
  ghost predicate LoadsOf(r: Request, loads: seq<int>) {
    if r.Reading? then loads == r.loads
    else r.Start? || r.Done? || (|loads| == |r.eps| && r.plan == LeastFirst(r.eps, loads))
  }

  // A step keeps the loads, reads one more, or starts reading anew.
  lemma StepLoads(c: Config, s: State, e: Step, loads: seq<int>) returns (next: seq<int>)
    requires Enabled(c, s, e) && c.mode == Throughput && LoadsOf(s.requests[e.t], loads)
    ensures LoadsOf(Apply(c, s, e).requests[e.t], next) && Apply(c, s, e).requests[e.t].eps == s.requests[e.t].eps
    ensures next == loads || next == []
      || (e == Go(e.t) && s.requests[e.t].Reading? && loads == s.requests[e.t].loads && |loads| < |s.requests[e.t].eps|
          && next == loads + [SlotFor(s, s.requests[e.t].eps[|loads|]).inflight])
  {
    var r' := Apply(c, s, e).requests[e.t];
    next := if r'.Reading? then r'.loads else loads;
  }

  /** Throughput mode: the plan a request tries is the least loaded instance first, by loads that it read itself, one
      instance after the other, each the number in flight there at that moment. */
  lemma {:induction false} LoadsWereRead(c: Config, s: State, es: seq<Step>, t: nat) returns (loads: seq<int>)
    requires Reachable(c, s, es) && c.mode == Throughput && t < |s.requests|
    ensures LoadsOf(Run(c, s, es).requests[t], loads) && AllRead(c, s, es, t, Run(c, s, es).requests[t].eps, loads)
    decreases |es|
  {
    if es == [] { return []; }
    var n := |es| - 1;
    var was := LoadsWereRead(c, s, es[..n], t);
    ReadStays(c, s, es, t, Run(c, s, es[..n]).requests[t].eps, was);
    loads := LoadsAfter(c, s, es, t, was);
  }

  lemma LoadsAfter(c: Config, s: State, es: seq<Step>, t: nat, was: seq<int>) returns (loads: seq<int>)
    requires Legal(c, s, es) && c.mode == Throughput && t < |s.requests| && es != []
    requires var r := Run(c, s, es[..|es| - 1]).requests[t]; LoadsOf(r, was) && AllRead(c, s, es, t, r.eps, was)
    ensures LoadsOf(Run(c, s, es).requests[t], loads) && AllRead(c, s, es, t, Run(c, s, es).requests[t].eps, loads)
  {
    var n := |es| - 1;
    var before, e := Run(c, s, es[..n]), es[n];
    if e.t != t { return was; }
    loads := StepLoads(c, before, e, was);
    if loads != was && loads != [] { OneMoreRead(c, s, es, t, before, was, loads); }
  }

  lemma OneMoreRead(c: Config, s: State, es: seq<Step>, t: nat, before: State, was: seq<int>, loads: seq<int>)
    requires Legal(c, s, es) && t < |s.requests| && es != [] && es[|es| - 1] == Go(t)
    requires before == Run(c, s, es[..|es| - 1]) && before.requests[t].Reading? && was == before.requests[t].loads
    requires |was| < |before.requests[t].eps|
      && loads == was + [SlotFor(before, before.requests[t].eps[|was|]).inflight]
    requires AllRead(c, s, es, t, before.requests[t].eps, was)
    ensures AllRead(c, s, es, t, before.requests[t].eps, loads)
  {
    var eps := before.requests[t].eps;
    assert ReadAt(c, s, es, |es| - 1, t, |was|, eps[|was|], loads[|was|]);
    forall i | 0 <= i < |loads| ensures WasRead(c, s, es, t, i, eps[i], loads[i]) {
      if i < |was| { assert WasRead(c, s, es, t, i, eps[i], was[i]); }
    }
  }

  // ---------------------------------------------------------------- full at the moment of the grant

  // If this step serves a request by a later instance of its plan, the earlier ones are full right then.
  ghost predicate FullBefore(c: Config, s: State, e: Step)
    requires Enabled(c, s, e)
  {
    var r, r' := s.requests[e.t], Apply(c, s, e).requests[e.t];
    r.Trying? && r'.Sent? ==> forall j :: 0 <= j < r.k && j < |r.plan| ==> SlotFor(s, r.plan[j]).sem == c.Cap()
  }

  // In every run from s.
  ghost predicate OverflowsOnlyWhileFull(c: Config, s: State) {
    forall es: seq<Step>, e: Step :: Legal(c, s, es) && Enabled(c, Run(c, s, es), e) ==> FullBefore(c, Run(c, s, es), e)
  }

  // n requests over the same endpoints.
  function Crowd(n: nat, p: Endpoints): (s: State)
    ensures Initial(s) && |s.requests| == n && forall t :: 0 <= t < n ==> s.requests[t] == Start(p)
  {
    State(map[], seq(n, _ => Start(p)))
  }

  lemma {:induction false} TotalBelow(rs: seq<Request>, t: nat, u: Url)
    requires t < |rs| && Token(rs[t], u) == 0
    ensures Total(rs, Holding(u)) < |rs|
    decreases |rs|
  {
    var n := |rs| - 1;
    if t < n { TotalBelow(rs[..n], t, u); } else { TotalAtMost(rs[..n], u); }
  }

  lemma {:induction false} TotalAtMost(rs: seq<Request>, u: Url)
    ensures Total(rs, Holding(u)) <= |rs|
    decreases |rs|
  {
    if rs != [] { TotalAtMost(rs[..|rs| - 1], u); }
  }

  // An instance is found full only when more requests than its places have arrived.
  lemma FullNeedsCrowd(c: Config, s: State, es: seq<Step>, t: nat, u: Url)
    requires Reachable(c, s, es) && t < |s.requests| && SeenFull(c, s, es, t, u)
    ensures |s.requests| > c.Cap()
  {
    var m: nat :| FullAt(c, s, es, m, t, u);
    RunKeeps(c, s, es[..m]);
    assert SlotExact(c, Run(c, s, es[..m]), u);
    TotalBelow(Run(c, s, es[..m]).requests, t, u);
  }

  lemma {:induction false} RunEndpoints(c: Config, s: State, es: seq<Step>, t: nat)
    requires Legal(c, s, es) && t < |s.requests|
    ensures Run(c, s, es).requests[t].eps == s.requests[t].eps
    decreases |es|
  {
    if es != [] { RunEndpoints(c, s, es[..|es| - 1], t); }
  }

  lemma FewOrSingle(c: Config, n: nat, p: Endpoints, es: seq<Step>, e: Step)
    requires c.mode == Deterministic && (n <= c.Cap() || |p| == 1)
    requires Legal(c, Crowd(n, p), es) && Enabled(c, Run(c, Crowd(n, p), es), e)
    ensures FullBefore(c, Run(c, Crowd(n, p), es), e)
  {
    var s := Crowd(n, p);
    var r := Run(c, s, es).requests[e.t];
    if r.Trying? && 0 < r.k < |r.plan| {
      RunEndpoints(c, s, es, e.t);
      RunPlan(c, s, es, e.t);
      PassedWereFull(c, s, es, e.t, 0);
      FullNeedsCrowd(c, s, es, e.t, r.plan[0]);
      assert false;
    }
  }

  // After es the requests stand as in rs, and only the primary holds tokens, used many.
  ghost predicate Stands(c: Config, s: State, es: seq<Step>, rs: seq<Request>, u: Url, used: nat) {
    && Legal(c, s, es) && Run(c, s, es).requests == rs && SlotFor(Run(c, s, es), u).sem == used
    && forall v: Url :: v != u ==> SlotFor(Run(c, s, es), v).sem == 0
  }

  lemma Extend(c: Config, s: State, es: seq<Step>, e: Step) returns (longer: seq<Step>)
    requires Legal(c, s, es) && Enabled(c, Run(c, s, es), e)
    ensures Legal(c, s, longer) && Run(c, s, longer) == Apply(c, Run(c, s, es), e)
  {
    longer := es + [e];
    assert longer[..|es|] == es;
  }

  // Request t takes a step that concerns no instance but u.
  lemma Moves(c: Config, s: State, es: seq<Step>, rs: seq<Request>, u: Url, used: nat, t: nat, r: Request)
    returns (longer: seq<Step>)
    requires Stands(c, s, es, rs, u, used) && t < |rs| && Enabled(c, Run(c, s, es), Go(t))
    requires Apply(c, Run(c, s, es), Go(t)).requests[t] == r
    requires forall v: Url :: v != u ==> Token(r, v) == Token(rs[t], v)
    ensures Legal(c, s, longer) && Run(c, s, longer) == Apply(c, Run(c, s, es), Go(t))
    ensures used + Token(r, u) >= Token(rs[t], u)
    ensures Stands(c, s, longer, rs[t := r], u, used + Token(r, u) - Token(rs[t], u))
  {
    longer := Extend(c, s, es, Go(t));
    StepBalanced(c, Run(c, s, es), Go(t), u);
    forall v: Url | v != u ensures SlotFor(Run(c, s, longer), v).sem == 0 { StepBalanced(c, Run(c, s, es), Go(t), v); }
  }

  // Request t comes, and tries the primary.
  lemma Comes(c: Config, s: State, es: seq<Step>, rs: seq<Request>, p: Endpoints, used: nat, t: nat)
    returns (longer: seq<Step>)
    requires c.mode == Deterministic && Stands(c, s, es, rs, p[0], used) && used <= c.Cap() && t < |rs|
      && rs[t] == Start(p)
    ensures if used < c.Cap() then Stands(c, s, longer, rs[t := Sent(p, p, 0)], p[0], used + 1)
            else Stands(c, s, longer, rs[t := Trying(p, p, 1)], p[0], used)
  {
    var r := if used < c.Cap() then Sent(p, p, 0) else Trying(p, p, 1);
    longer := Moves(c, s, es, rs, p[0], used, t, Trying(p, p, 0));
    longer := Moves(c, s, longer, rs[t := Trying(p, p, 0)], p[0], used, t, r);
    assert rs[t := Trying(p, p, 0)][t := r] == rs[t := r];
  }

  // Request t is decided, and leaves the primary.
  lemma Goes(c: Config, s: State, es: seq<Step>, rs: seq<Request>, p: Endpoints, used: nat, t: nat)
    returns (longer: seq<Step>)
    requires Stands(c, s, es, rs, p[0], used) && used > 0 && t < |rs| && rs[t] == Sent(p, p, 0)
    ensures Stands(c, s, longer, rs[t := Done(p)], p[0], used - 1)
  {
    var r1, r2 := Deciding(p, p, 0), Leaving(p, p, 0);
    longer := Moves(c, s, es, rs, p[0], used, t, r1);
    longer := Moves(c, s, longer, rs[t := r1], p[0], used, t, r2);
    assert rs[t := r1][t := r2] == rs[t := r2];
    longer := Moves(c, s, longer, rs[t := r2], p[0], used, t, Done(p));
    assert rs[t := r2][t := Done(p)] == rs[t := Done(p)];
  }

  // The first k of n requests hold the primary.
  function Served(n: nat, p: Endpoints, k: nat): (rs: seq<Request>)
    ensures |rs| == n && forall t :: 0 <= t < n ==> rs[t] == if t < k then Sent(p, p, 0) else Start(p)
  {
    seq(n, t => if t < k then Sent(p, p, 0) else Start(p))
  }

  lemma {:induction false} Fills(c: Config, n: nat, p: Endpoints, k: nat) returns (es: seq<Step>)
    requires c.mode == Deterministic && k <= c.Cap() && k <= n
    ensures Stands(c, Crowd(n, p), es, Served(n, p, k), p[0], k)
    decreases k
  {
    if k == 0 {
      es := [];
      assert Crowd(n, p).requests == Served(n, p, 0);
    } else {
      es := Fills(c, n, p, k - 1);
      es := Comes(c, Crowd(n, p), es, Served(n, p, k - 1), p, k - 1, k - 1);
      assert Served(n, p, k - 1)[k - 1 := Sent(p, p, 0)] == Served(n, p, k);
    }
  }

  /** The instances are seen full one after the other, not together: with more requests than the primary has
      places, one of them can turn to the second instance and find the primary free again by then. */
  lemma FreedPrimary(c: Config, n: nat, p: Endpoints) returns (es: seq<Step>)
    requires c.mode == Deterministic && n > c.Cap() && |p| >= 2
    ensures Legal(c, Crowd(n, p), es) && Run(c, Crowd(n, p), es).requests[c.Cap()] == Trying(p, p, 1)
    ensures SlotFor(Run(c, Crowd(n, p), es), p[0]).sem == c.Cap() - 1
      && SlotFor(Run(c, Crowd(n, p), es), p[1]).sem < c.Cap()
  {
    var s, k, rs := Crowd(n, p), c.Cap(), Served(n, p, c.Cap());
    es := Fills(c, n, p, k);
    es := Comes(c, s, es, rs, p, k, k);
    es := Goes(c, s, es, rs[k := Trying(p, p, 1)], p, k, 0);
  }

  /** Deterministic mode, n requests over p: a later instance is only ever granted while every earlier one is full,
      whatever the interleaving, exactly when the requests fit the primary or there is no later instance. */
  lemma OverflowsOnlyWhileFullExact(c: Config, n: nat, p: Endpoints)
    requires c.mode == Deterministic
    ensures OverflowsOnlyWhileFull(c, Crowd(n, p)) <==> n <= c.Cap() || |p| == 1
  {
    if n <= c.Cap() || |p| == 1 {
      forall es: seq<Step>, e: Step | Legal(c, Crowd(n, p), es) && Enabled(c, Run(c, Crowd(n, p), es), e)
        ensures FullBefore(c, Run(c, Crowd(n, p), es), e)
      {
        FewOrSingle(c, n, p, es, e);
      }
    } else {
      var es := FreedPrimary(c, n, p);
      var now := Run(c, Crowd(n, p), es);
      assert Enabled(c, now, Go(c.Cap())) && !FullBefore(c, now, Go(c.Cap()));
    }
  }

  /** The least such run: one place, two requests; the second is served by y although x is free. */
  lemma OverflowIsNotSimultaneous(x: Url, y: Url) returns (s: State, es: seq<Step>)
    requires x != y
    ensures Reachable(ONE, s, es) && |s.requests| == 2
    ensures Run(ONE, s, es).requests[1] == Sent([x, y], [x, y], 1) && SlotFor(Run(ONE, s, es), x).sem == 0
  {
    var p: Endpoints := [x, y];
    s := Crowd(2, p);
    es := FreedPrimary(ONE, 2, p);
    es := Extend(ONE, s, es, Go(1));
  }

  // ---------------------------------------------------------------- progress

  /** While a request is unfinished some request can take a step of its own, without any cancellation. */
  lemma NoDeadlock(c: Config, s: State, es: seq<Step>, t: nat) returns (t': nat)
    requires Reachable(c, s, es) && t < |s.requests|
    requires !Run(c, s, es).requests[t].Done? && !Run(c, s, es).requests[t].Overloaded?
    ensures Enabled(c, Run(c, s, es), Go(t'))
  {
    var now := Run(c, s, es);
    RunKeeps(c, s, es);
    t' := t;
    var r := now.requests[t];
    if r.Waiting? && !Enabled(c, now, Go(t)) {
      assert SlotExact(c, now, r.eps[0]);
      t' := HolderOf(now, r.eps[0]);
    }
    if now.requests[t'].Leaving? { ReleaseNeverBlocks(c, s, es, t'); }
  }

  // Steps a request may still take in deterministic mode.
  function Left(r: Request): nat {
    match r
    case Start(eps) => |eps| + 6
    case Trying(_, plan, k) => if k < |plan| then |plan| - k + 5 else 5
    case Waiting(_, _) => 4
    case Sent(_, _, _) => 3
    case Deciding(_, _, _) => 2
    case Leaving(_, _, _) => 1
    case _ => 0
  }

  lemma StepLeft(c: Config, s: State, e: Step)
    requires Enabled(c, s, e) && PlanOk(c, s.requests[e.t]) && c.mode == Deterministic
    ensures Left(Apply(c, s, e).requests[e.t]) < Left(s.requests[e.t])
    ensures Apply(c, s, e).requests == s.requests[e.t := Apply(c, s, e).requests[e.t]]
  {
  }

  /** Deterministic mode: no run is longer than |eps| + 6 steps for each request. */
  lemma {:induction false} RunsEnd(c: Config, s: State, es: seq<Step>)
    requires Reachable(c, s, es) && c.mode == Deterministic
    ensures |es| + Total(Run(c, s, es).requests, Left) <= Total(s.requests, Left)
    decreases |es|
  {
    if es != [] {
      var before, e := es[..|es| - 1], es[|es| - 1];
      RunsEnd(c, s, before);
      var u := Run(c, s, before);
      RunPlan(c, s, before, e.t);
      StepLeft(c, u, e);
      TotalUpdate(u.requests, e.t, Apply(c, u, e).requests[e.t], Left);
    }
  }

  ghost predicate NoCancel(es: seq<Step>) { forall i :: 0 <= i < |es| ==> es[i].Go? }

  lemma {:induction false} OverloadedNeedsCancel(c: Config, s: State, es: seq<Step>, t: nat)
    requires Reachable(c, s, es) && t < |s.requests| && NoCancel(es)
    ensures !Run(c, s, es).requests[t].Overloaded?
    decreases |es|
  {
    if es != [] { OverloadedNeedsCancel(c, s, es[..|es| - 1], t); }
  }

  /** With RunsEnd: whatever the interleaving, if no context ends then every request is decided in the end. */
  lemma EveryoneIsServed(c: Config, s: State, es: seq<Step>, t: nat)
    requires Reachable(c, s, es) && NoCancel(es) && t < |s.requests|
    requires forall t' :: !Enabled(c, Run(c, s, es), Go(t'))
    ensures Run(c, s, es).requests[t].Done?
  {
    OverloadedNeedsCancel(c, s, es, t);
    if !Run(c, s, es).requests[t].Done? {
      var t' := NoDeadlock(c, s, es, t);
    }
  }
}
