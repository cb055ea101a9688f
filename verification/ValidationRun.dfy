module ValidationRun
  /**
    The validation run of a text or vision suite (lib/validate_judge.py, run and do_record): what a PASS
    verdict, and a recorded pass, mean. The endpoint is an arbitrary sequence of replies, the judge an
    arbitrary predicate on a probe and an answer. Probes are numbered in suite order.
  */
{
  import opened Wrappers

  const MIN_DECISION_REPEAT := 3

  // Blank content is empty after stripping.
  datatype Reply =
    | Answer(content: string, blank: bool, truncated: bool, reasoning: nat)
    | Rejected
    | NoAnswer

  // Probe j asked first, again for the i-th time, or shown the image of control c.
  datatype Request = First(j: nat) | Control(c: nat) | Again(j: nat, i: nat)

  datatype Entry = Entry(request: Request, reply: Reply)

  // controls names the probe each control image is held against; quick the probes asked once more in quick
  // mode.
  datatype Suite = Suite(probes: nat, controls: seq<nat>, quick: seq<nat>) {
    predicate Valid() {
      && (forall c :: 0 <= c < |controls| ==> controls[c] < probes)
      && forall q :: 0 <= q < |quick| ==> quick[q] < probes
    }
  }

  // The checks before any request: settings, suite schema, files, judge self-test, served model.
  datatype Precheck = Ready | Unusable | SelfTestFailed

  datatype Verdict = Pass | Fail | Undetermined

  type Judge = (nat, string) -> bool

  // undetermined_reason: a cut-off answer is not trusted when it could be right.
  predicate Unjudged(judge: Judge, a: Reply, probe: Option<nat>)
    requires a.Answer?
  {
    if a.truncated then a.reasoning > 0 || probe.None? || judge(probe.value, a.content)
    else a.blank && a.reasoning > 0
  }

  predicate Complete(a: Reply) { a.Answer? && !a.truncated && !(a.blank && a.reasoning > 0) }

  // ---------------------------------------------------------------- what a clean run looks like

  // The reply a request needs for the run to pass.
  predicate Good(judge: Judge, suite: Suite, firsts: seq<Reply>, e: Entry) {
    match e.request
    case First(j) => Complete(e.reply) && judge(j, e.reply.content)
    case Control(c) =>
      c < |suite.controls| && e.reply.Answer? && !Unjudged(judge, e.reply, Some(suite.controls[c]))
      && !judge(suite.controls[c], e.reply.content)
    case Again(j, _) =>
      Complete(e.reply) && j < |firsts| && firsts[j].Answer? && e.reply.content == firsts[j].content
  }

  // The reply speaks against the model: a refused or wrong first answer, a control taken for its probe, or a
  // complete answer that differs from the first.
  predicate Against(judge: Judge, suite: Suite, firsts: seq<Reply>, e: Entry) {
    match e.request
    case First(j) =>
      e.reply.Rejected?
      || (e.reply.Answer? && !Unjudged(judge, e.reply, Some(j)) && !judge(j, e.reply.content))
    case Control(c) =>
      c < |suite.controls| && e.reply.Answer? && !Unjudged(judge, e.reply, Some(suite.controls[c]))
      && judge(suite.controls[c], e.reply.content)
    case Again(j, _) =>
      Complete(e.reply) && j < |firsts| && firsts[j].Answer? && e.reply.content != firsts[j].content
  }

  ghost predicate NoneAgainst(judge: Judge, suite: Suite, firsts: seq<Reply>, log: seq<Entry>) {
    forall i :: 0 <= i < |log| ==> !Against(judge, suite, firsts, log[i])
  }

  ghost predicate AllGood(judge: Judge, suite: Suite, firsts: seq<Reply>, log: seq<Entry>) {
    forall i :: 0 <= i < |log| ==> Good(judge, suite, firsts, log[i])
  }

  function Requests(log: seq<Entry>): (rs: seq<Request>)
    ensures |rs| == |log| && forall i :: 0 <= i < |log| ==> rs[i] == log[i].request
  {
    seq(|log|, i requires 0 <= i < |log| => log[i].request)
  }

  function Firsts(n: nat): (rs: seq<Request>)
    ensures |rs| == n && forall j :: 0 <= j < n ==> rs[j] == First(j)
  {
    seq(n, j requires 0 <= j < n => First(j))
  }

  function Controls(m: nat): (rs: seq<Request>)
    ensures |rs| == m && forall c :: 0 <= c < m ==> rs[c] == Control(c)
  {
    seq(m, c requires 0 <= c < m => Control(c))
  }

  function Agains(j: nat, extra: nat): seq<Request> {
    if extra == 0 then [] else Agains(j, extra - 1) + [Again(j, extra - 1)]
  }

  function PlanRequests(plan: seq<(nat, nat)>): seq<Request> {
    if plan == [] then [] else PlanRequests(plan[..|plan| - 1]) + Agains(plan[|plan| - 1].0, plan[|plan| - 1].1)
  }

  // Which answered probes are asked again, and how often.
  function PlanTo(answered: seq<bool>, repeat: nat, k: nat): seq<(nat, nat)>
    requires k <= |answered| && repeat > 0
  {
    if k == 0 then []
    else PlanTo(answered, repeat, k - 1) + if answered[k - 1] then [(k - 1, repeat - 1)] else []
  }

  function QuickTo(quick: seq<nat>, answered: seq<bool>, k: nat): seq<(nat, nat)>
    requires k <= |quick| && forall q :: 0 <= q < |quick| ==> quick[q] < |answered|
  {
    if k == 0 then []
    else QuickTo(quick, answered, k - 1) + if answered[quick[k - 1]] then [(quick[k - 1], 1)] else []
  }

  function Plan(suite: Suite, answered: seq<bool>, repeat: nat): seq<(nat, nat)>
    requires suite.Valid() && |answered| == suite.probes && repeat > 0
  {
    if repeat == 1 then QuickTo(suite.quick, answered, |suite.quick|) else PlanTo(answered, repeat, |answered|)
  }

  function AllAnswered(n: nat): (a: seq<bool>)
    ensures |a| == n && forall j :: 0 <= j < n ==> a[j]
  {
    seq(n, _ => true)
  }

  // The requests of a run in which nothing goes wrong.
  function CleanRequests(suite: Suite, repeat: nat): seq<Request>
    requires suite.Valid() && repeat > 0
  {
    Firsts(suite.probes) + Controls(|suite.controls|) + PlanRequests(Plan(suite, AllAnswered(suite.probes), repeat))
  }

  lemma GoodSnoc(judge: Judge, suite: Suite, firsts: seq<Reply>, log: seq<Entry>, e: Entry)
    ensures AllGood(judge, suite, firsts, log + [e]) <==>
      AllGood(judge, suite, firsts, log) && Good(judge, suite, firsts, e)
    ensures NoneAgainst(judge, suite, firsts, log + [e]) <==>
      NoneAgainst(judge, suite, firsts, log) && !Against(judge, suite, firsts, e)
  {
    forall i | 0 <= i < |log| ensures (log + [e])[i] == log[i] {}
    assert (log + [e])[|log|] == e;
    if AllGood(judge, suite, firsts, log + [e]) {
      forall i | 0 <= i < |log| ensures Good(judge, suite, firsts, log[i]) { assert (log + [e])[i] == log[i]; }
    }
    if NoneAgainst(judge, suite, firsts, log + [e]) {
      forall i | 0 <= i < |log| ensures !Against(judge, suite, firsts, log[i]) { assert (log + [e])[i] == log[i]; }
    }
  }

  lemma RequestsSnoc(log: seq<Entry>, e: Entry)
    ensures Requests(log + [e]) == Requests(log) + [e.request]
  {
  }

  lemma PlanSnoc(plan: seq<(nat, nat)>, k: nat, before: seq<Request>)
    requires k < |plan|
    ensures before + PlanRequests(plan[..k]) + Agains(plan[k].0, plan[k].1) == before + PlanRequests(plan[..k + 1])
  {
    assert plan[..k + 1][..k] == plan[..k];
  }

  // What is good about a first reply does not depend on the other replies.
  lemma OnlyFirsts(judge: Judge, suite: Suite, had: seq<Reply>, firsts: seq<Reply>, log: seq<Entry>)
    requires forall i :: 0 <= i < |log| ==> log[i].request.First?
    ensures AllGood(judge, suite, had, log) <==> AllGood(judge, suite, firsts, log)
    ensures NoneAgainst(judge, suite, had, log) <==> NoneAgainst(judge, suite, firsts, log)
  {
    forall i | 0 <= i < |log| ensures Against(judge, suite, had, log[i]) <==> Against(judge, suite, firsts, log[i]) {}
    forall i | 0 <= i < |log| ensures Good(judge, suite, had, log[i]) <==> Good(judge, suite, firsts, log[i]) {}
  }

  lemma {:induction false} PlanToAnswered(answered: seq<bool>, repeat: nat, k: nat)
    requires k <= |answered| && repeat > 0
    ensures forall i :: 0 <= i < |PlanTo(answered, repeat, k)| ==>
      PlanTo(answered, repeat, k)[i].0 < k && answered[PlanTo(answered, repeat, k)[i].0]
  {
    if k > 0 { PlanToAnswered(answered, repeat, k - 1); }
  }

  lemma {:induction false} QuickToAnswered(quick: seq<nat>, answered: seq<bool>, k: nat)
    requires k <= |quick| && forall q :: 0 <= q < |quick| ==> quick[q] < |answered|
    ensures forall i :: 0 <= i < |QuickTo(quick, answered, k)| ==>
      QuickTo(quick, answered, k)[i].0 < |answered| && answered[QuickTo(quick, answered, k)[i].0]
  {
    if k > 0 { QuickToAnswered(quick, answered, k - 1); }
  }

  lemma PlanAnswered(suite: Suite, answered: seq<bool>, repeat: nat)
    requires suite.Valid() && |answered| == suite.probes && repeat > 0
    ensures forall i :: 0 <= i < |Plan(suite, answered, repeat)| ==>
      Plan(suite, answered, repeat)[i].0 < suite.probes && answered[Plan(suite, answered, repeat)[i].0]
  {
    if repeat == 1 { QuickToAnswered(suite.quick, answered, |suite.quick|); }
    else { PlanToAnswered(answered, repeat, |answered|); }
  }

  // ---------------------------------------------------------------- repetitions

  predicate Repeated(first: Reply, a: Reply)
    requires first.Answer?
  {
    Complete(a) && a.content == first.content
  }

  // The repetitions of probe j from number i on, answered by the replies from the given one on: the first
  // reply that is missing, incomplete or different is the last one asked for.
  function Repetitions(first: Reply, replies: nat -> Reply, next: nat, j: nat, i: nat, extra: nat): seq<Entry>
    requires first.Answer?
    decreases extra - i
  {
    if i >= extra then []
    else
      var e := Entry(Again(j, i), replies(next));
      if Repeated(first, e.reply) then [e] + Repetitions(first, replies, next + 1, j, i + 1, extra) else [e]
  }

  // How the repetitions of one probe are counted.
  function Outcome(first: Reply, es: seq<Entry>): Verdict
    requires first.Answer?
  {
    if es == [] || Repeated(first, es[|es| - 1].reply) then Pass
    else if !Complete(es[|es| - 1].reply) then Undetermined
    else Fail
  }

  // After i good repetitions, and perhaps a bad one.
  ghost predicate Asking(first: Reply, replies: nat -> Reply, next: nat, j: nat, extra: nat, i: nat, done: seq<Entry>,
      unknown: bool, differs: bool)
    requires first.Answer?
  {
    var all := Repetitions(first, replies, next, j, 0, extra);
    if unknown || differs then
      all == done && done != [] && Outcome(first, all) == if unknown then Undetermined else Fail
    else all == done + Repetitions(first, replies, next + |done|, j, i, extra) && Outcome(first, done) == Pass
  }

  lemma AskingStep(first: Reply, replies: nat -> Reply, next: nat, j: nat, extra: nat, i: nat, done: seq<Entry>,
      unknown: bool, differs: bool)
    requires first.Answer? && i < extra && Asking(first, replies, next, j, extra, i, done, false, false)
    requires var a := replies(next + |done|);
      (!unknown && !differs <==> Repeated(first, a)) && (unknown <==> !Complete(a)) && !(unknown && differs)
    ensures var e := Entry(Again(j, i), replies(next + |done|));
      Asking(first, replies, next, j, extra, if !unknown && !differs then i + 1 else i, done + [e], unknown, differs)
  {
    var e := Entry(Again(j, i), replies(next + |done|));
    if Repeated(first, e.reply) {
      assert done + ([e] + Repetitions(first, replies, next + |done| + 1, j, i + 1, extra))
          == (done + [e]) + Repetitions(first, replies, next + |done + [e]|, j, i + 1, extra);
    }
  }

  /** All repetitions are asked, or asking stops right after the first bad reply. */
  lemma {:induction false} RepetitionsStop(first: Reply, replies: nat -> Reply, next: nat, j: nat, i: nat, extra: nat)
    requires first.Answer? && i <= extra
    ensures var es := Repetitions(first, replies, next, j, i, extra);
      && |es| <= extra - i && (i < extra ==> es != [])
      && (forall k :: 0 <= k < |es| ==> es[k] == Entry(Again(j, i + k), replies(next + k)))
      && (forall k :: 0 <= k < |es| - 1 ==> Repeated(first, es[k].reply))
      && (|es| == extra - i || !Repeated(first, es[|es| - 1].reply))
    decreases extra - i
  {
    if i < extra && Repeated(first, replies(next)) {
      RepetitionsStop(first, replies, next + 1, j, i + 1, extra);
      var es, rest := Repetitions(first, replies, next, j, i, extra),
        Repetitions(first, replies, next + 1, j, i + 1, extra);
      forall k | 0 <= k < |es| ensures es[k] == Entry(Again(j, i + k), replies(next + k)) {
        if k > 0 { assert es[k] == rest[k - 1]; }
      }
    }
  }

  lemma {:induction false} AgainsAre(j: nat, extra: nat)
    ensures |Agains(j, extra)| == extra && forall k :: 0 <= k < extra ==> Agains(j, extra)[k] == Again(j, k)
  {
    if extra > 0 { AgainsAre(j, extra - 1); }
  }

  // Each entry holds the reply with its own number.
  ghost predicate InOrder(log: seq<Entry>, replies: nat -> Reply) {
    forall i :: 0 <= i < |log| ==> log[i].reply == replies(i)
  }

  lemma StillLogged(replies: nat -> Reply, log: seq<Entry>, es: seq<Entry>, j: nat, extra: nat, first: Reply)
    requires first.Answer? && InOrder(log, replies) && es == Repetitions(first, replies, |log|, j, 0, extra)
    ensures InOrder(log + es, replies)
  {
    RepetitionsStop(first, replies, |log|, j, 0, extra);
    forall i | 0 <= i < |log + es| ensures (log + es)[i].reply == replies(i) {
      if i >= |log| { assert (log + es)[i] == es[i - |log|]; }
    }
  }

  // They count as passed exactly when every reply was good, and then all of them were asked.
  lemma RepetitionsGood(judge: Judge, suite: Suite, firsts: seq<Reply>, replies: nat -> Reply, next: nat, j: nat,
      extra: nat)
    requires j < |firsts| && firsts[j].Answer?
    ensures var es := Repetitions(firsts[j], replies, next, j, 0, extra); var out := Outcome(firsts[j], es);
      && (AllGood(judge, suite, firsts, es) <==> out == Pass) && (out == Pass ==> Requests(es) == Agains(j, extra))
      && (NoneAgainst(judge, suite, firsts, es) <==> out != Fail)
  {
    RepetitionsStop(firsts[j], replies, next, j, 0, extra);
    AgainsAre(j, extra);
    var es := Repetitions(firsts[j], replies, next, j, 0, extra);
    forall k | 0 <= k < |es| ensures Good(judge, suite, firsts, es[k]) <==> Repeated(firsts[j], es[k].reply) {}
    if es != [] && AllGood(judge, suite, firsts, es) { assert Good(judge, suite, firsts, es[|es| - 1]); }
    forall k | 0 <= k < |es|
      ensures Against(judge, suite, firsts, es[k]) <==> (k == |es| - 1 && Outcome(firsts[j], es) == Fail) {}
  }

  lemma {:induction false} Appended(judge: Judge, suite: Suite, firsts: seq<Reply>, log: seq<Entry>, es: seq<Entry>)
    ensures AllGood(judge, suite, firsts, log + es) <==>
      AllGood(judge, suite, firsts, log) && AllGood(judge, suite, firsts, es)
    ensures NoneAgainst(judge, suite, firsts, log + es) <==>
      NoneAgainst(judge, suite, firsts, log) && NoneAgainst(judge, suite, firsts, es)
    ensures Requests(log + es) == Requests(log) + Requests(es)
    decreases |es|
  {
    if es == [] {
      assert log + es == log;
    } else {
      var n := |es| - 1;
      Appended(judge, suite, firsts, log, es[..n]);
      assert es == es[..n] + [es[n]] && log + es == (log + es[..n]) + [es[n]];
      GoodSnoc(judge, suite, firsts, log + es[..n], es[n]);
      GoodSnoc(judge, suite, firsts, es[..n], es[n]);
    }
  }

  // Every planned probe has a first answer.
  predicate Askable(plan: seq<(nat, nat)>, firsts: seq<Reply>) {
    forall p :: 0 <= p < |plan| ==> plan[p].0 < |firsts| && firsts[plan[p].0].Answer?
  }

  // The plan goes on after a probe whose repetitions went wrong.
  function PlanLog(plan: seq<(nat, nat)>, firsts: seq<Reply>, replies: nat -> Reply, next: nat, k: nat): seq<Entry>
    requires k <= |plan| && Askable(plan, firsts)
  {
    if k == 0 then []
    else
      var before := PlanLog(plan, firsts, replies, next, k - 1);
      before + Repetitions(firsts[plan[k - 1].0], replies, next + |before|, plan[k - 1].0, 0, plan[k - 1].1)
  }

  lemma PlanLogSnoc(plan: seq<(nat, nat)>, firsts: seq<Reply>, replies: nat -> Reply, next: nat, k: nat,
      es: seq<Entry>, more: seq<Entry>)
    requires k < |plan| && Askable(plan, firsts) && es == PlanLog(plan, firsts, replies, next, k)
    requires more == Repetitions(firsts[plan[k].0], replies, next + |es|, plan[k].0, 0, plan[k].1)
    ensures PlanLog(plan, firsts, replies, next, k + 1) == es + more && |es + more| == |es| + |more|
  {
  }

  lemma Regrouped(log: seq<Entry>, es: seq<Entry>, more: seq<Entry>)
    ensures log + es + more == log + (es + more)
  {
  }

  /** Whatever went wrong before, every planned probe is asked again at least once. */
  lemma {:induction false} PlanGoesOn(plan: seq<(nat, nat)>, firsts: seq<Reply>, replies: nat -> Reply, next: nat,
      k: nat, p: nat)
    requires p < k <= |plan| && Askable(plan, firsts)
    requires plan[p].1 > 0
    ensures Again(plan[p].0, 0) in Requests(PlanLog(plan, firsts, replies, next, k))
    decreases k
  {
    var all, before := PlanLog(plan, firsts, replies, next, k), PlanLog(plan, firsts, replies, next, k - 1);
    if p == k - 1 {
      RepetitionsStop(firsts[plan[p].0], replies, next + |before|, plan[p].0, 0, plan[p].1);
      assert Requests(all)[|before|] == Again(plan[p].0, 0);
    } else {
      PlanGoesOn(plan, firsts, replies, next, k - 1, p);
      var q :| 0 <= q < |before| && Requests(before)[q] == Again(plan[p].0, 0);
      assert Requests(all)[q] == Again(plan[p].0, 0);
    }
  }

  lemma NothingPlanned(suite: Suite, answered: seq<bool>, repeat: nat)
    requires suite.Valid() && |answered| == suite.probes == 0 && repeat > 0
    ensures Plan(suite, answered, repeat) == []
  {
    PlanAnswered(suite, answered, repeat);
  }

  // ---------------------------------------------------------------- the run

  class Run {
    const suite: Suite
    const judge: Judge
    const replies: nat -> Reply

    var passed: nat
    var failed: nat
    var undetermined: nat
    var sent: nat
    // answers: the replies that were judged, by probe.
    var firsts: seq<Reply>
    var answered: seq<bool>
    ghost var log: seq<Entry>

    constructor (suite: Suite, judge: Judge, replies: nat -> Reply)
      ensures this.suite == suite && this.judge == judge && this.replies == replies
      ensures passed == failed == undetermined == sent == 0
      ensures firsts == [] && answered == [] && log == []
    {
      this.suite, this.judge, this.replies := suite, judge, replies;
      passed, failed, undetermined, sent := 0, 0, 0, 0;
      firsts, answered, log := [], [], [];
    }

    ghost predicate Logged()
      reads this
    {
      |log| == sent && InOrder(log, replies)
    }

    // Nothing counted against the model or left open exactly when every reply so far was good, and a failure
    // exactly when some reply spoke against it.
    ghost predicate Counted()
      reads this
    {
      && ((failed == 0 && undetermined == 0) <==> AllGood(judge, suite, firsts, log))
      && (failed == 0 <==> NoneAgainst(judge, suite, firsts, log))
    }

    method Ask(request: Request) returns (reply: Reply)
      modifies this
      ensures passed == old(passed) && failed == old(failed) && undetermined == old(undetermined)
      ensures firsts == old(firsts) && answered == old(answered)
      ensures sent == old(sent) + 1 && reply == replies(old(sent)) && log == old(log) + [Entry(request, reply)]
    {
      reply := replies(sent);
      sent := sent + 1;
      log := log + [Entry(request, reply)];
    }

    // The last entry is e, and a count against the model grew exactly when it is not good.
    twostate predicate Asked(e: Entry)
      reads this
    {
      && log == old(log) + [e]
      && passed >= old(passed) && failed >= old(failed) && undetermined >= old(undetermined)
      && passed + failed + undetermined == old(passed) + old(failed) + old(undetermined) + 1
      && (Good(judge, suite, firsts, e) <==> failed == old(failed) && undetermined == old(undetermined))
      && (Against(judge, suite, firsts, e) <==> failed > old(failed))
    }

    method AskFirst(j: nat)
      requires Logged() && |firsts| == |answered| == j
      modifies this
      ensures Logged() && |firsts| == |answered| == j + 1 && firsts[..j] == old(firsts)
        && answered[..j] == old(answered)
      ensures Asked(Entry(First(j), firsts[j]))
      ensures answered[j] ==> firsts[j].Answer?
      ensures Good(judge, suite, firsts, Entry(First(j), firsts[j])) ==> answered[j]
    {
      var a := Ask(First(j));
      firsts := firsts + [a];
      if a.Rejected? {
        failed := failed + 1;
        answered := answered + [false];
      } else if a.NoAnswer? || Unjudged(judge, a, Some(j)) {
        undetermined := undetermined + 1;
        answered := answered + [false];
      } else {
        answered := answered + [true];
        if judge(j, a.content) { passed := passed + 1; } else { failed := failed + 1; }
      }
    }

    method AskFirsts()
      requires Logged() && log == [] && firsts == [] && answered == [] && failed == 0 && undetermined == 0
        && passed == 0
      modifies this
      ensures Logged() && Counted() && |firsts| == |answered| == suite.probes
      ensures Requests(log) == Firsts(suite.probes)
      ensures failed == 0 && undetermined == 0 ==> forall j :: 0 <= j < suite.probes ==> answered[j]
      ensures passed + failed + undetermined == suite.probes
      ensures forall j :: 0 <= j < suite.probes ==> firsts[j] == log[j].reply && (answered[j] ==> firsts[j].Answer?)
    {
      for j := 0 to suite.probes
        invariant Logged() && Counted() && |firsts| == |answered| == |log| == j
        invariant Requests(log) == Firsts(j)
        invariant failed == 0 && undetermined == 0 ==> forall t :: 0 <= t < j ==> answered[t]
        invariant passed + failed + undetermined == j
        invariant forall t :: 0 <= t < j ==> firsts[t] == log[t].reply && (answered[t] ==> firsts[t].Answer?)
      {
        AskNextFirst(j);
      }
    }

    method AskNextFirst(j: nat)
      requires Logged() && Counted() && |firsts| == |answered| == |log| == j && Requests(log) == Firsts(j)
      modifies this
      ensures Logged() && Counted() && |firsts| == |answered| == |log| == j + 1 && Requests(log) == Firsts(j + 1)
      ensures firsts[..j] == old(firsts) && answered[..j] == old(answered) && log[..j] == old(log)
      ensures log[j].reply == firsts[j] && (answered[j] ==> firsts[j].Answer?)
      ensures failed == 0 && undetermined == 0 ==> old(failed) == 0 && old(undetermined) == 0 && answered[j]
      ensures passed + failed + undetermined == old(passed) + old(failed) + old(undetermined) + 1
    {
      ghost var before, had := log, firsts;
      assert forall t :: 0 <= t < |before| ==> before[t].request == Requests(before)[t];
      AskFirst(j);
      var e := Entry(First(j), firsts[j]);
      OnlyFirsts(judge, suite, had, firsts, before);
      GoodSnoc(judge, suite, firsts, before, e);
      RequestsSnoc(before, e);
      assert Firsts(j + 1) == Firsts(j) + [First(j)];
    }

    method AskControl(c: nat)
      requires Logged() && suite.Valid() && c < |suite.controls|
      modifies this
      ensures Logged() && firsts == old(firsts) && answered == old(answered)
      ensures Asked(Entry(Control(c), replies(old(sent))))
    {
      var target := suite.controls[c];
      var a := Ask(Control(c));
      if !a.Answer? {
        undetermined := undetermined + 1;
      } else if Unjudged(judge, a, Some(target)) {
        undetermined := undetermined + 1;
      } else if judge(target, a.content) {
        failed := failed + 1;
      } else {
        passed := passed + 1;
      }
    }

    // Counts never go down, and what was logged stays.
    twostate predicate Grown()
      reads this
    {
      && passed >= old(passed) && failed >= old(failed) && undetermined >= old(undetermined)
      && firsts == old(firsts) && answered == old(answered) && old(log) <= log
    }

    method AskControls()
      requires Logged() && Counted() && suite.Valid()
      modifies this
      ensures Logged() && Counted() && Grown()
      ensures Requests(log) == Requests(old(log)) + Controls(|suite.controls|)
      ensures suite.probes == 0 ==> passed == old(passed)
    {
      for c := 0 to |suite.controls|
        invariant Logged() && Counted() && Grown()
        invariant Requests(log) == Requests(old(log)) + Controls(c)
        invariant suite.probes == 0 ==> passed == old(passed)
      {
        ghost var before := log;
        AskNextControl(c);
        assert Controls(c + 1) == Controls(c) + [Control(c)];
        assert Requests(before) + [Control(c)] == Requests(old(log)) + Controls(c + 1);
      }
    }

    method AskNextControl(c: nat)
      requires Logged() && Counted() && suite.Valid() && c < |suite.controls|
      modifies this
      ensures Logged() && Counted() && Grown() && Requests(log) == Requests(old(log)) + [Control(c)]
      ensures suite.probes == 0 ==> passed == old(passed)
    {
      ghost var before := log;
      AskControl(c);
      var e := log[|log| - 1];
      GoodSnoc(judge, suite, firsts, before, e);
      RequestsSnoc(before, e);
    }

    // Nothing counted, no first reply changed.
    twostate predicate Unmoved()
      reads this
    {
      && passed == old(passed) && failed == old(failed) && undetermined == old(undetermined)
      && firsts == old(firsts) && answered == old(answered)
    }

    // One repetition, and whether it is missing or incomplete, or different.
    method AskOnceMore(first: Reply, j: nat, i: nat) returns (unknown: bool, differs: bool)
      requires first.Answer?
      modifies this
      ensures Unmoved() && sent == old(sent) + 1 && log == old(log) + [Entry(Again(j, i), replies(old(sent)))]
      ensures var a := replies(old(sent));
        (!unknown && !differs <==> Repeated(first, a)) && (unknown <==> !Complete(a)) && !(unknown && differs)
    {
      var a := Ask(Again(j, i));
      if !a.Answer? || Unjudged(judge, a, None) { return true, false; }
      return false, a.content != first.content;
    }

    // The repetitions of one probe: stops at the first reply that is not good.
    method AskRepeats(first: Reply, j: nat, extra: nat) returns (unknown: bool, differs: bool)
      requires first.Answer?
      modifies this
      ensures Unmoved()
      ensures var es := Repetitions(first, replies, old(sent), j, 0, extra); var out := Outcome(first, es);
        && log == old(log) + es && sent == old(sent) + |es|
        && (unknown <==> out == Undetermined) && (differs <==> out == Fail)
    {
      unknown, differs := false, false;
      var i := 0;
      ghost var next, done: seq<Entry> := sent, [];
      while i < extra && !differs && !unknown
        invariant 0 <= i <= extra && Unmoved() && !(unknown && differs)
        invariant log == old(log) + done && sent == next + |done|
        invariant Asking(first, replies, next, j, extra, i, done, unknown, differs)
        decreases extra - i, !differs && !unknown
      {
        ghost var e := Entry(Again(j, i), replies(sent));
        unknown, differs := AskOnceMore(first, j, i);
        AskingStep(first, replies, next, j, extra, i, done, unknown, differs);
        done := done + [e];
        if !unknown && !differs { i := i + 1; }
      }
    }

    // How a verdict moves the counts.
    twostate predicate CountedAs(v: Verdict)
      reads this
    {
      && passed == old(passed) + (if v == Pass then 1 else 0) && failed == old(failed) + (if v == Fail then 1 else 0)
      && undetermined == old(undetermined) + if v == Undetermined then 1 else 0
    }

    method AskAgain(j: nat, extra: nat)
      requires Logged() && Counted() && j < |firsts| && firsts[j].Answer?
      modifies this
      ensures Logged() && Counted() && Grown()
      ensures var es := Repetitions(firsts[j], replies, old(sent), j, 0, extra);
        log == old(log) + es && sent == old(sent) + |es| && CountedAs(Outcome(firsts[j], es))
      ensures failed == old(failed) && undetermined == old(undetermined) ==>
        Requests(log) == Requests(old(log)) + Agains(j, extra)
    {
      ghost var before, es := log, Repetitions(firsts[j], replies, sent, j, 0, extra);
      var unknown, differs := AskRepeats(firsts[j], j, extra);
      StillLogged(replies, before, es, j, extra, firsts[j]);
      RepetitionsGood(judge, suite, firsts, replies, |before|, j, extra);
      Appended(judge, suite, firsts, before, es);
      if unknown { undetermined := undetermined + 1; }
      else if differs { failed := failed + 1; }
      else { passed := passed + 1; }
    }

    // The next probe of the plan; es is what the plan has logged so far.
    method AskNext(plan: seq<(nat, nat)>, k: nat, ghost next: nat, ghost es: seq<Entry>)
      returns (ghost more: seq<Entry>)
      requires Logged() && Counted() && Askable(plan, firsts) && k < |plan|
      requires sent == next + |es| && es == PlanLog(plan, firsts, replies, next, k)
      modifies this
      ensures Logged() && Counted() && Grown() && log == old(log) + more && sent == next + |es + more|
      ensures es + more == PlanLog(plan, firsts, replies, next, k + 1)
      ensures failed == old(failed) && undetermined == old(undetermined) ==>
        Requests(log) == Requests(old(log)) + Agains(plan[k].0, plan[k].1)
    {
      var j, extra := plan[k].0, plan[k].1;
      more := Repetitions(firsts[j], replies, sent, j, 0, extra);
      PlanLogSnoc(plan, firsts, replies, next, k, es, more);
      AskAgain(j, extra);
    }

    method AskPlanned(plan: seq<(nat, nat)>)
      requires Logged() && Counted() && Askable(plan, firsts)
      modifies this
      ensures Logged() && Counted() && Grown() && log == old(log) + PlanLog(plan, firsts, replies, old(sent), |plan|)
      ensures failed == old(failed) && undetermined == old(undetermined) ==>
        Requests(log) == Requests(old(log)) + PlanRequests(plan)
      ensures plan == [] ==> passed == old(passed)
    {
      ghost var next, es: seq<Entry> := sent, [];
      for k := 0 to |plan|
        invariant Logged() && Counted() && Grown() && log == old(log) + es && sent == next + |es|
        invariant es == PlanLog(plan, firsts, replies, next, k)
        invariant failed == old(failed) && undetermined == old(undetermined) ==>
          Requests(log) == Requests(old(log)) + PlanRequests(plan[..k])
        invariant k == 0 ==> passed == old(passed)
      {
        ghost var more := AskNext(plan, k, next, es);
        PlanSnoc(plan, k, Requests(old(log)));
        Regrouped(old(log), es, more);
        es := es + more;
      }
      assert plan[..|plan|] == plan;
    }

    method AskPlan(repeat: nat)
      requires Logged() && Counted() && suite.Valid() && |firsts| == |answered| == suite.probes && repeat > 0
      requires forall j :: 0 <= j < suite.probes && answered[j] ==> firsts[j].Answer?
      modifies this
      ensures Logged() && Counted() && Grown()
      ensures var plan := Plan(suite, answered, repeat);
        Askable(plan, firsts) && log == old(log) + PlanLog(plan, firsts, replies, old(sent), |plan|)
      ensures failed == old(failed) && undetermined == old(undetermined) ==>
        Requests(log) == Requests(old(log)) + PlanRequests(Plan(suite, old(answered), repeat))
      ensures suite.probes == 0 ==> passed == old(passed)
    {
      var plan := Plan(suite, answered, repeat);
      PlanAnswered(suite, answered, repeat);
      if suite.probes == 0 { NothingPlanned(suite, answered, repeat); }
      AskPlanned(plan);
    }

    function Finish(): Verdict
      reads this
    {
      if failed > 0 then Fail else if undetermined > 0 || passed == 0 then Undetermined else Pass
    }

    /** The whole run: the verdict is PASS exactly when every check before it held, at least one probe was
        asked, and the replies were good ones to exactly the requests of a clean run; it is FAIL exactly when the
        judge's self-test failed or some reply spoke against the model; otherwise it is UNDETERMINED. */
    method Go(precheck: Precheck, repeat: nat) returns (v: Verdict)
      requires Logged() && log == [] && firsts == [] && answered == []
      requires failed == 0 && undetermined == 0 && passed == 0
      requires suite.Valid() && repeat > 0
      modifies this
      ensures Logged()
      ensures precheck.Ready? ==>
        |firsts| == suite.probes && forall j :: 0 <= j < suite.probes ==> j < |log| && firsts[j] == log[j].reply
      ensures v == Pass <==>
        precheck.Ready? && suite.probes > 0 && Requests(log) == CleanRequests(suite, repeat)
          && AllGood(judge, suite, firsts, log)
      ensures v == Fail <==>
        precheck.SelfTestFailed?
        || (precheck.Ready? && exists i :: 0 <= i < |log| && Against(judge, suite, firsts, log[i]))
    {
      if precheck.Unusable? { undetermined := undetermined + 1; }
      if precheck.SelfTestFailed? { failed := failed + 1; }
      if !precheck.Ready? { return Finish(); }
      AskFirsts();
      ghost var one := log;
      assert |one| == suite.probes by { assert |Requests(one)| == |one|; }
      AskControls();
      AskPlan(repeat);
      assert failed == 0 && undetermined == 0 ==> answered == AllAnswered(suite.probes);
      v := Finish();
    }
  }

  // ---------------------------------------------------------------- what PASS means

  lemma {:induction false} AgainAsked(j: nat, extra: nat, i: nat)
    requires i < extra
    ensures Again(j, i) in Agains(j, extra)
  {
    if i < extra - 1 { AgainAsked(j, extra - 1, i); }
  }

  lemma {:induction false} PlanAsks(plan: seq<(nat, nat)>, k: nat, r: Request)
    requires k < |plan| && r in Agains(plan[k].0, plan[k].1)
    ensures r in PlanRequests(plan)
    decreases |plan|
  {
    if k < |plan| - 1 { PlanAsks(plan[..|plan| - 1], k, r); }
  }

  lemma {:induction false} PlanToHas(answered: seq<bool>, repeat: nat, k: nat, j: nat)
    requires j < k <= |answered| && repeat > 0 && answered[j]
    ensures (j, repeat - 1) in PlanTo(answered, repeat, k)
  {
    if j < k - 1 { PlanToHas(answered, repeat, k - 1, j); }
  }

  lemma AskedAgain(suite: Suite, repeat: nat, j: nat, i: nat)
    requires suite.Valid() && repeat > 1 && j < suite.probes && i < repeat - 1
    ensures Again(j, i) in CleanRequests(suite, repeat)
  {
    var all := AllAnswered(suite.probes);
    var plan := Plan(suite, all, repeat);
    PlanToHas(all, repeat, |all|, j);
    var k :| 0 <= k < |plan| && plan[k] == (j, repeat - 1);
    AgainAsked(j, repeat - 1, i);
    PlanAsks(plan, k, Again(j, i));
  }

  lemma EntryOf(log: seq<Entry>, r: Request) returns (i: nat)
    requires r in Requests(log)
    ensures i < |log| && log[i].request == r
  {
    i :| 0 <= i < |log| && Requests(log)[i] == r;
  }

  /** A PASS at repeat n means: every probe's first answer was complete and judged right, each of its n - 1
      repetitions was complete and the same, and every control was answered and judged wrong. */
  lemma PassMeans(judge: Judge, suite: Suite, firsts: seq<Reply>, log: seq<Entry>, repeat: nat, j: nat, i: nat, c: nat)
    returns (again: nat, control: nat)
    requires suite.Valid() && repeat > 1 && |firsts| == suite.probes && |log| >= suite.probes
    requires forall t :: 0 <= t < suite.probes ==> firsts[t] == log[t].reply
    requires Requests(log) == CleanRequests(suite, repeat) && AllGood(judge, suite, firsts, log)
    requires j < suite.probes && i < repeat - 1
    ensures Complete(firsts[j]) && judge(j, firsts[j].content)
    ensures again < |log| && log[again].request == Again(j, i) && Complete(log[again].reply)
      && log[again].reply.content == firsts[j].content
    ensures c < |suite.controls| ==>
      control < |log| && log[control].request == Control(c) && log[control].reply.Answer?
        && !judge(suite.controls[c], log[control].reply.content)
  {
    assert Requests(log)[j] == First(j);
    assert Good(judge, suite, firsts, log[j]);
    AskedAgain(suite, repeat, j, i);
    again := EntryOf(log, Again(j, i));
    assert Good(judge, suite, firsts, log[again]);
    control := 0;
    if c < |suite.controls| {
      assert CleanRequests(suite, repeat)[suite.probes + c] == Control(c);
      control := suite.probes + c;
      assert Requests(log)[control] == Control(c);
      assert Good(judge, suite, firsts, log[control]);
    }
  }

  /** A reply counts as a failure only when it was refused or judged: never an answer cut off while the model was
      still reasoning, nor a cut-off one that could be right, nor a missing one. */
  lemma FailMeans(judge: Judge, suite: Suite, firsts: seq<Reply>, e: Entry)
    requires Against(judge, suite, firsts, e)
    ensures e.reply.Rejected? ==> e.request.First?
    ensures !e.reply.NoAnswer?
      && (e.reply.Answer? && e.reply.truncated && !e.request.Control? ==> e.reply.reasoning == 0)
    ensures e.reply.Answer? && e.request.First? ==> !judge(e.request.j, e.reply.content)
    ensures e.request.Control? ==> !e.reply.truncated && judge(suite.controls[e.request.c], e.reply.content)
    ensures e.request.Again? ==> !e.reply.truncated && e.reply.content != firsts[e.request.j].content
  {
  }

  // ---------------------------------------------------------------- recording

  datatype Report = Report(repeat: nat, servedMismatch: bool)

  datatype Recorded = Written(status: Verdict, repeat: nat) | KeptPrior | NotRecorded(code: nat)

  method MinRepeat(reports: seq<Report>) returns (m: nat)
    ensures LeastRepeat(reports, m)
  {
    if reports == [] { return 0; }
    m := reports[0].repeat;
    for r := 1 to |reports|
      invariant forall t :: 0 <= t < r ==> m <= reports[t].repeat
      invariant exists t :: 0 <= t < r && reports[t].repeat == m
    {
      if reports[r].repeat < m { m := reports[r].repeat; }
    }
  }

  // Every report comes from a run that asked each probe often enough.
  ghost predicate DecisionBearing(reports: seq<Report>) {
    reports != [] && forall r :: 0 <= r < |reports| ==> reports[r].repeat >= MIN_DECISION_REPEAT
  }

  ghost predicate ModelConfirmed(reports: seq<Report>, pinned: bool, files: seq<bool>) {
    && pinned && (forall f :: 0 <= f < |files| ==> files[f])
    && forall r :: 0 <= r < |reports| ==> !reports[r].servedMismatch
  }

  // An earlier verdict that an undetermined run leaves alone.
  predicate Keeps(status: Verdict, prior: Option<Verdict>) {
    status.Undetermined? && prior.Some? && !prior.value.Undetermined?
  }

  // The smallest number of repetitions of the reports.
  ghost predicate LeastRepeat(reports: seq<Report>, m: nat) {
    if reports == [] then m == 0
    else
      && (forall r :: 0 <= r < |reports| ==> m <= reports[r].repeat)
      && exists r :: 0 <= r < |reports| && reports[r].repeat == m
  }

  // What is written, kept or refused, and why; every outcome is determined.
  ghost predicate Recording(status: Verdict, reports: seq<Report>, prior: Option<Verdict>, pinned: bool,
      files: seq<bool>, signable: bool, o: Recorded)
  {
    var bearing, confirmed := DecisionBearing(reports), ModelConfirmed(reports, pinned, files);
    && (o == KeptPrior <==> Keeps(status, prior))
    && (o == NotRecorded(4) <==> status.Pass? && !bearing)
    && (o == NotRecorded(5) <==> status.Pass? && bearing && !confirmed)
    && (o == NotRecorded(2) <==> !Keeps(status, prior) && (status.Pass? ==> bearing && confirmed) && !signable)
    && (o.Written? <==> !Keeps(status, prior) && (status.Pass? ==> bearing && confirmed) && signable)
    && (o.Written? ==> o.status == status && LeastRepeat(reports, o.repeat))
  }

  /** do_record: a pass is written exactly for decision-bearing runs of the confirmed model, an undetermined run never
      replaces an earlier verdict, and everything else is written whenever it can be signed. pinned and files say
      whether the bytes on disk are still the validated ones, signable whether the record can be signed. */
  method Record(status: Verdict, reports: seq<Report>, prior: Option<Verdict>, pinned: bool, files: seq<bool>,
      signable: bool)
    returns (o: Recorded)
    ensures Recording(status, reports, prior, pinned, files, signable, o)
  {
    if status.Undetermined? && prior.Some? && !prior.value.Undetermined? { return KeptPrior; }
    var repeat := MinRepeat(reports);
    if status.Pass? {
      if repeat < MIN_DECISION_REPEAT { return NotRecorded(4); }
      if !pinned { return NotRecorded(5); }
      for f := 0 to |files|
        invariant forall t :: 0 <= t < f ==> files[t]
      {
        if !files[f] { return NotRecorded(5); }
      }
      for r := 0 to |reports|
        invariant forall t :: 0 <= t < r ==> !reports[t].servedMismatch
      {
        if reports[r].servedMismatch { return NotRecorded(5); }
      }
    }
    if !signable { return NotRecorded(2); }
    o := Written(status, repeat);
  }

  // ---------------------------------------------------------------- what a recorded pass means

  // A run that is over, as its report tells of it.
  datatype Finished = Finished(judge: Judge, suite: Suite, firsts: seq<Reply>, log: seq<Entry>,
      repeat: nat, mismatch: bool)

  // What Run.Go ensures for the verdict PASS.
  ghost predicate Passed(r: Finished) {
    && r.suite.Valid() && r.repeat > 0 && r.suite.probes > 0
    && |r.firsts| == r.suite.probes && |r.log| >= r.suite.probes
    && (forall j :: 0 <= j < r.suite.probes ==> r.firsts[j] == r.log[j].reply)
    && Requests(r.log) == CleanRequests(r.suite, r.repeat) && AllGood(r.judge, r.suite, r.firsts, r.log)
  }

  function ReportsOf(runs: seq<Finished>): (rs: seq<Report>)
    ensures |rs| == |runs| && forall t :: 0 <= t < |rs| ==> rs[t] == Report(runs[t].repeat, runs[t].mismatch)
  {
    seq(|runs|, t requires 0 <= t < |runs| => Report(runs[t].repeat, runs[t].mismatch))
  }

  // Entry p answers probe j, first or among the first n repetitions: complete, right, and like the first answer.
  ghost predicate AnswerTo(r: Finished, j: nat, n: nat, p: nat) {
    && p < |r.log| && Complete(r.log[p].reply)
    && (r.log[p].request == First(j) || (r.log[p].request.Again? && r.log[p].request.j == j && r.log[p].request.i < n))
    && j < |r.firsts| && r.firsts[j].Answer? && r.log[p].reply.content == r.firsts[j].content
    && r.judge(j, r.log[p].reply.content)
  }

  /** In a passed run each probe was answered at least repeat times, each answer complete, right and the same. */
  lemma {:induction false} AnsweredAlike(r: Finished, j: nat, n: nat) returns (ps: set<nat>)
    requires Passed(r) && j < r.suite.probes && n < r.repeat
    ensures |ps| == n + 1 && forall p :: p in ps ==> AnswerTo(r, j, n, p)
    decreases n
  {
    if n == 0 {
      assert Requests(r.log)[j] == First(j);
      assert Good(r.judge, r.suite, r.firsts, r.log[j]);
      ps := {j};
    } else {
      var before := AnsweredAlike(r, j, n - 1);
      var again, _ := PassMeans(r.judge, r.suite, r.firsts, r.log, r.repeat, j, n - 1, 0);
      forall p | p in before ensures p != again { assert AnswerTo(r, j, n - 1, p); }
      ps := before + {again};
    }
  }

  /** So when a pass is written for runs that passed, every probe of every one of them was answered alike at least
      MIN_DECISION_REPEAT times, and the answers were complete and right. The recorder does not read the verdicts in
      the reports: that the runs passed is its caller's part. */
  lemma WrittenPassMeans(runs: seq<Finished>, prior: Option<Verdict>, pinned: bool, files: seq<bool>, signable: bool,
      o: Recorded, t: nat, j: nat)
    returns (ps: set<nat>)
    requires Recording(Pass, ReportsOf(runs), prior, pinned, files, signable, o) && o.Written?
    requires forall u :: 0 <= u < |runs| ==> Passed(runs[u])
    requires t < |runs| && j < runs[t].suite.probes
    ensures |ps| >= MIN_DECISION_REPEAT && !runs[t].mismatch
    ensures forall p :: p in ps ==> AnswerTo(runs[t], j, runs[t].repeat - 1, p)
  {
    var reports := ReportsOf(runs);
    assert reports[t].repeat == runs[t].repeat && reports[t].servedMismatch == runs[t].mismatch;
    ps := AnsweredAlike(runs[t], j, runs[t].repeat - 1);
  }

  /** And nothing is written for a quick run, whatever it answered. */
  lemma QuickIsNotWritten(runs: seq<Finished>, prior: Option<Verdict>, pinned: bool, files: seq<bool>, signable: bool,
      o: Recorded, t: nat)
    requires Recording(Pass, ReportsOf(runs), prior, pinned, files, signable, o)
    requires t < |runs| && runs[t].repeat < MIN_DECISION_REPEAT
    ensures o == NotRecorded(4)
  {
    assert ReportsOf(runs)[t].repeat < MIN_DECISION_REPEAT;
  }
}
