/** What holds in every run of the lifecycle. */
module LifecycleSafety {
  import opened Options
  import opened ContextReading
  import opened LifecycleModel
  import opened Runs

  function Reports(outcomes: seq<Outcome>, id: nat): nat {
    if outcomes == [] then 0
    else Reports(outcomes[..|outcomes| - 1], id) + if outcomes[|outcomes| - 1].request == id then 1 else 0
  }

  function ResultsFor(results: seq<Result>, id: nat): nat {
    if results == [] then 0
    else ResultsFor(results[..|results| - 1], id) + if results[|results| - 1].replacement == id then 1 else 0
  }

  lemma ReportsOfOneMore(outcomes: seq<Outcome>, last: Outcome, id: nat)
    ensures Reports(outcomes + [last], id) == Reports(outcomes, id) + if last.request == id then 1 else 0
  {
    assert (outcomes + [last])[..|outcomes|] == outcomes;
  }

  lemma ResultsOfOneMore(results: seq<Result>, last: Result, id: nat)
    ensures ResultsFor(results + [last], id) == ResultsFor(results, id) + if last.replacement == id then 1 else 0
  {
    assert (results + [last])[..|results|] == results;
  }

  // ------------------------------------------------------------- single flight

  /** Reports due to a request: none before it is made or while it is suspended,
      then one; two when its `onComplete` threw. */
  function ReportsDue(c: Compactions, id: nat): nat {
    if id >= c.requests || id in c.running then 0 else if id in c.threw then 2 else 1
  }

  /** The flag says exactly that a compaction is suspended, there is never a
      second one, and every request has had exactly the reports it is due. */
  ghost predicate CompactionsAccounted(c: Compactions) {
    && (c.compacting <==> exists a :: a in c.running)
    && (forall a, b :: a in c.running && b in c.running ==> a == b)
    && (forall a :: a in c.running ==> a < c.requests && a !in c.threw)
    && (forall a :: a in c.threw ==> a < c.requests)
    && (forall a: nat :: Reports(c.outcomes, a) == ReportsDue(c, a))
  }

  function ResultsDue(r: Replacements, id: nat): nat {
    if id >= r.accepted || id in r.serving then 0 else 1
  }

  ghost predicate ReplacementsAccounted(r: Replacements) {
    && (r.replacing <==> exists a :: a in r.serving)
    && (forall a, b :: a in r.serving && b in r.serving ==> a == b)
    && (forall a :: a in r.serving ==> a < r.accepted)
    && (forall a: nat :: ResultsFor(r.results, a) == ResultsDue(r, a))
  }

  /** `session_shutdown` fires once, on stopping, and detaching waits for its handlers. */
  ghost predicate ClosingAccounted(c: Closing) {
    && c.fires == (if c.stopped then 1 else 0)
    && c.fires == c.firing + (if c.attached then 0 else 1)
  }

  lemma AskKeepsAccounts(c: Compactions, stopped: bool, reason: Reason, length: nat)
    requires CompactionsAccounted(c)
    ensures CompactionsAccounted(Ask(c, stopped, reason, length))
  {
    var t := Ask(c, stopped, reason, length);
    if !(c.compacting || stopped) { assert c.requests in t.running; }
    forall a: nat ensures Reports(t.outcomes, a) == ReportsDue(t, a) {
      ReportsOfOneMore(c.outcomes, Outcome(c.requests, Refused), a);
    }
  }

  lemma FinishKeepsAccounts(c: Compactions, id: nat, callbackThrows: bool)
    requires CompactionsAccounted(c) && id in c.running
    ensures CompactionsAccounted(Finish(c, id, callbackThrows))
  {
    var t := Finish(c, id, callbackThrows);
    var once := c.outcomes + [Outcome(id, Completed)];
    forall a: nat ensures Reports(t.outcomes, a) == ReportsDue(t, a) {
      ReportsOfOneMore(c.outcomes, Outcome(id, Completed), a);
      ReportsOfOneMore(once, Outcome(id, Failed), a);
    }
  }

  lemma FailKeepsAccounts(c: Compactions, id: nat)
    requires CompactionsAccounted(c) && id in c.running
    ensures CompactionsAccounted(Fail(c, id))
  {
    var t := Fail(c, id);
    forall a: nat ensures Reports(t.outcomes, a) == ReportsDue(t, a) {
      ReportsOfOneMore(c.outcomes, Outcome(id, Failed), a);
    }
  }

  lemma ReportKeepsAccounts(r: Replacements, id: nat, completed: bool)
    requires ReplacementsAccounted(r) && id in r.serving
    ensures ReplacementsAccounted(Report(r, id, completed))
  {
    var t := Report(r, id, completed);
    forall a: nat ensures ResultsFor(t.results, a) == ResultsDue(t, a) {
      ResultsOfOneMore(r.results, Result(id, completed), a);
    }
  }

  lemma AcceptKeepsAccounts(r: Replacements, stopped: bool, wellFormed: bool)
    requires ReplacementsAccounted(r)
    ensures ReplacementsAccounted(Accept(r, stopped, wellFormed))
  {
    if Accepts(r, stopped, wellFormed) { assert r.accepted in Accept(r, stopped, wellFormed).serving; }
  }

  lemma ServeKeepsAccounts(r: Replacements, idle: bool, pending: bool, id: nat)
    requires ReplacementsAccounted(r) && id in r.serving
    ensures ReplacementsAccounted(Serve(r, idle, pending, id))
  {
    ReportKeepsAccounts(r, id, false);
    assert id in r.serving[id := Replacing];
  }

  /** Marking the suspended compaction's progress leaves the accounts as they are. */
  lemma ProgressKeepsAccounts(c: Compactions, id: nat, task: Compaction)
    requires CompactionsAccounted(c) && id in c.running
    ensures CompactionsAccounted(c.(running := c.running[id := task]))
  {
    var t := c.(running := c.running[id := task]);
    assert id in t.running;
    forall a: nat ensures Reports(t.outcomes, a) == ReportsDue(t, a) {}
  }

  ghost predicate Accounted(s: Driver) {
    CompactionsAccounted(s.compactions) && ReplacementsAccounted(s.replacements) && ClosingAccounted(s.closing)
  }

  lemma HandlerKeepsCompactions(due: Due, s: Driver, answer: LifecycleModel.Answer)
    requires CompactionsAccounted(s.compactions)
    ensures CompactionsAccounted(HandleSettled(due, s, answer).compactions)
  {
    AskKeepsAccounts(s.compactions, s.closing.stopped, Threshold, |s.branch|);
  }

  lemma StepKeepsCompactions(due: Due, s: Driver, e: Event)
    requires CompactionsAccounted(s.compactions)
    ensures CompactionsAccounted(Step(due, s, e).compactions)
  {
    var c, stopped, length := s.compactions, s.closing.stopped, |s.branch|;
    if Enabled(s, e) {
      match e
      case CompactionAsked => AskKeepsAccounts(c, stopped, Manual, length);
      case SummaryWritten(id) => ProgressKeepsAccounts(c, id, c.running[id].(summary := Some(length)));
      case HarnessCompacted(id) => ProgressKeepsAccounts(c, id, c.running[id].(resolved := true));
      case HarnessRefused(id) => FailKeepsAccounts(c, id);
      case CompactionReread(id, read, callbackThrows) => FinishKeepsAccounts(c, id, callbackThrows);
      case SettledHandled(answer) =>
        HandlerKeepsCompactions(due, s.(awaits := s.awaits.(settledFiring := s.awaits.settledFiring - 1)), answer);
      case _ =>
    }
  }

  lemma StepKeepsReplacements(due: Due, s: Driver, e: Event)
    requires ReplacementsAccounted(s.replacements)
    ensures ReplacementsAccounted(Step(due, s, e).replacements)
  {
    var r, stopped := s.replacements, s.closing.stopped;
    if Enabled(s, e) {
      match e
      case SettledHandled(answer) => if answer.NewSession? { AcceptKeepsAccounts(r, stopped, answer.wellFormed); }
      case StartHandled(answer) => if answer.NewSession? { AcceptKeepsAccounts(r, stopped, answer.wellFormed); }
      case ReplacementAsked(wellFormed) => AcceptKeepsAccounts(r, stopped, wellFormed);
      case ReplacementTimer(id) => ServeKeepsAccounts(r, s.idle, s.pending, id);
      case SessionReplaced(id, ok) => ReportKeepsAccounts(r, id, ok);
      case _ =>
    }
  }

  lemma StepKeepsClosing(due: Due, s: Driver, e: Event)
    requires ClosingAccounted(s.closing)
    ensures ClosingAccounted(Step(due, s, e).closing)
  {
  }

  lemma StepKeepsAccounts(due: Due, s: Driver, e: Event)
    requires Accounted(s)
    ensures Accounted(Step(due, s, e))
  {
    StepKeepsCompactions(due, s, e);
    StepKeepsReplacements(due, s, e);
    StepKeepsClosing(due, s, e);
  }

  /** In every run: at most one compaction and one replacement in flight, every
      request reported as often as it is due, every accepted replacement given one
      result, `session_shutdown` fired at most once and before detaching. */
  lemma {:induction false} EveryRunIsAccounted(due: Due, branch: seq<Entry>, run: seq<Event>)
    ensures Accounted(After(due, branch, run))
  {
    if run == [] {
      forall a: nat ensures Reports([], a) == 0 && ResultsFor([], a) == 0 {}
    } else {
      EveryRunIsAccounted(due, branch, run[..|run| - 1]);
      StepKeepsAccounts(due, After(due, branch, run[..|run| - 1]), run[|run| - 1]);
    }
  }

  // ------------------------------------------------------------ reported twice

  /** The request's `onComplete` was called, and threw. */
  predicate Throws(s: Driver, e: Event, id: nat) {
    e.CompactionReread? && e.id == id && e.callbackThrows && Enabled(s, e)
  }

  ghost function States(due: Due, branch: seq<Entry>): seq<Event> -> Driver {
    (run: seq<Event>) => After(due, branch, run)
  }

  ghost predicate ItsCallbackThrew(due: Due, branch: seq<Entry>, run: seq<Event>, id: nat) {
    Ever(run, States(due, branch), Throws, id)
  }

  lemma StepThrows(due: Due, s: Driver, e: Event, id: nat)
    ensures id in Step(due, s, e).compactions.threw <==> id in s.compactions.threw || Throws(s, e, id)
  {
  }

  lemma {:induction false} ThrewIsHistory(due: Due, branch: seq<Entry>, run: seq<Event>, id: nat)
    ensures id in After(due, branch, run).compactions.threw <==> ItsCallbackThrew(due, branch, run, id)
  {
    if run != [] {
      var before := run[..|run| - 1];
      ThrewIsHistory(due, branch, before, id);
      StepThrows(due, After(due, branch, before), run[|run| - 1], id);
      EverOneMore(run, States(due, branch), Throws, id);
    }
  }

  /** A compaction is reported twice exactly when its `onComplete` threw. */
  lemma ReportedTwiceIffThrew(due: Due, branch: seq<Entry>, run: seq<Event>, id: nat)
    ensures Reports(After(due, branch, run).compactions.outcomes, id) == 2
            <==> ItsCallbackThrew(due, branch, run, id)
  {
    EveryRunIsAccounted(due, branch, run);
    ThrewIsHistory(due, branch, run, id);
  }

  lemma AfterOneMore(due: Due, branch: seq<Entry>, run: seq<Event>, e: Event)
    ensures After(due, branch, run + [e]) == Step(due, After(due, branch, run), e)
  {
    assert (run + [e])[..|run|] == run;
  }

  /** Which happens: a driver's first compaction, when its callback throws. */
  lemma ThrowingCallbackIsReportedTwice(due: Due, branch: seq<Entry>, read: Read) returns (run: seq<Event>)
    ensures Reports(After(due, branch, run).compactions.outcomes, 0) == 2
  {
    var ready := ReadyToReport(due, branch);
    var thrown := CompactionReread(0, read, true);
    AfterOneMore(due, branch, ready, thrown);
    run := ready + [thrown];
    ThrewIsHistory(due, branch, run, 0);
    StepThrows(due, After(due, branch, ready), thrown, 0);
    ReportedTwiceIffThrew(due, branch, run, 0);
  }

  lemma ReadyToReport(due: Due, branch: seq<Entry>) returns (run: seq<Event>)
    ensures Enabled(After(due, branch, run), CompactionReread(0, Read(None, 0, true), true))
  {
    run := [CompactionAsked];
    AfterOneMore(due, branch, [], CompactionAsked);
    assert [] + [CompactionAsked] == run;
    assert After(due, branch, run).compactions.running == map[0 := Compaction(Manual, |branch|, None, false)];
    AfterOneMore(due, branch, run, SummaryWritten(0));
    run := run + [SummaryWritten(0)];
    AfterOneMore(due, branch, run, HarnessCompacted(0));
    run := run + [HarnessCompacted(0)];
  }
}
