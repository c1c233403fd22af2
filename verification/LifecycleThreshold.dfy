/** Why one compaction cannot set off an endless run of them: between two
    compactions of which the second was started by the threshold, an assistant
    turn finished and reported usage. */
module LifecycleThreshold {
  import opened Options
  import opened ContextReading
  import opened LifecycleModel
  import opened LifecycleSafety

  function AnswerCount(branch: seq<Entry>): nat {
    if branch == [] then 0
    else AnswerCount(branch[..|branch| - 1]) + if Answers(branch[|branch| - 1]) then 1 else 0
  }

  lemma {:induction false} AnswerCountGrows(branch: seq<Entry>, m: nat, n: nat)
    requires m <= n <= |branch|
    ensures AnswerCount(branch[..m]) <= AnswerCount(branch[..n])
    ensures (exists k :: m <= k < n && Answers(branch[k])) ==> AnswerCount(branch[..m]) < AnswerCount(branch[..n])
    decreases n
  {
    if m < n {
      AnswerCountGrows(branch, m, n - 1);
      assert branch[..n][..n - 1] == branch[..n - 1];
    }
  }

  type Running = map<nat, Compaction>

  /** Nothing has succeeded yet, or an answer stands between the last successful
      compaction's summary and position `end`. */
  ghost predicate Justified(h: History, branch: seq<Entry>, end: nat) {
    h.successes > 0 ==> exists k :: h.mark <= k < end && k < |branch| && Answers(branch[k])
  }

  /** How many threshold successes the transcript and the lost re-reads account for. */
  function Allowance(h: History, branch: seq<Entry>): nat
    requires h.mark <= |branch|
  {
    1 + AnswerCount(branch[..h.mark]) + h.lost
  }

  ghost predicate MarkIsSound(h: History, branch: seq<Entry>) {
    && h.mark <= |branch|
    && (h.successes > 0 ==> h.mark > 0 && branch[h.mark - 1].Summary?)
    && h.thresholdSuccesses <= h.successes
    && h.thresholdSuccesses <= Allowance(h, branch)
  }

  /** A suspended compaction the threshold started had an answer behind it, or
      there is still a lost re-read to account for it. */
  ghost predicate TaskIsSound(h: History, branch: seq<Entry>, c: Compaction)
    requires h.mark <= |branch|
  {
    && c.since <= |branch|
    && (c.summary.Some? ==> c.since <= c.summary.value < |branch| && branch[c.summary.value].Summary?)
    && (c.resolved ==> c.summary.Some?)
    && (!c.resolved ==> h.mark <= c.since)
    && (!c.resolved && c.reason == Threshold ==>
          Justified(h, branch, c.since) || h.thresholdSuccesses < Allowance(h, branch))
  }

  ghost predicate NoneResolved(running: Running) {
    forall id :: id in running ==> !running[id].resolved
  }

  /** What relates the driver's reading to its transcript: unless a read is owed
      since the last success, a token count on show has an answer behind it, and
      a re-read that was lost and not made good is still to be accounted for. */
  ghost predicate Grounded(h: History, branch: seq<Entry>, running: Running, usage: Option<Usage>) {
    && MarkIsSound(h, branch)
    && (forall id :: id in running ==> TaskIsSound(h, branch, running[id]))
    && (h.owed && NoneResolved(running) ==> h.lost > 0 && h.thresholdSuccesses < Allowance(h, branch))
    && (!h.owed && HasTokens(usage) ==> Justified(h, branch, |branch|))
  }

  ghost predicate IsGrounded(s: Driver) { Grounded(s.history, s.branch, s.compactions.running, s.usage) }

  ghost predicate Single(running: Running) { forall a, b :: a in running && b in running ==> a == b }

  // -------------------------------------------------------- what each step keeps

  lemma AskKeepsGrounded(h: History, branch: seq<Entry>, running: Running, usage: Option<Usage>,
                         id: nat, reason: Reason)
    requires Grounded(h, branch, running, usage) && forall a :: a !in running
    requires reason == Threshold ==> HasTokens(usage)
    ensures Grounded(h, branch, running[id := Compaction(reason, |branch|, None, false)], usage)
  {
  }

  lemma AnswersStay(h: History, branch: seq<Entry>, e: Entry, end: nat)
    requires h.mark <= |branch| && end <= |branch|
    ensures Allowance(h, branch + [e]) == Allowance(h, branch)
    ensures Justified(h, branch, end) ==> Justified(h, branch + [e], end) && Justified(h, branch + [e], |branch| + 1)
  {
    var more := branch + [e];
    assert more[..h.mark] == branch[..h.mark];
    if h.successes > 0 && Justified(h, branch, end) {
      var k :| h.mark <= k < end && k < |branch| && Answers(branch[k]);
      assert more[k] == branch[k];
    }
  }

  lemma TaskStaysSound(h: History, branch: seq<Entry>, e: Entry, c: Compaction)
    requires h.mark <= |branch| && TaskIsSound(h, branch, c)
    ensures TaskIsSound(h, branch + [e], c)
  {
    AnswersStay(h, branch, e, c.since);
  }

  lemma GrowthKeepsGrounded(h: History, branch: seq<Entry>, running: Running, usage: Option<Usage>, e: Entry)
    requires Grounded(h, branch, running, usage)
    ensures Grounded(h, branch + [e], running, usage)
  {
    AnswersStay(h, branch, e, |branch|);
    forall id | id in running ensures TaskIsSound(h, branch + [e], running[id]) {
      TaskStaysSound(h, branch, e, running[id]);
    }
  }

  lemma SummaryKeepsGrounded(h: History, branch: seq<Entry>, running: Running, usage: Option<Usage>, id: nat)
    requires Grounded(h, branch, running, usage) && id in running && !running[id].resolved
    ensures Grounded(h, branch + [Summary], running[id := running[id].(summary := Some(|branch|))], usage)
  {
    GrowthKeepsGrounded(h, branch, running, usage, Summary);
    var next := running[id := running[id].(summary := Some(|branch|))];
    assert NoneResolved(next) ==> NoneResolved(running) by {
      if NoneResolved(next) {
        forall a | a in running ensures !running[a].resolved { assert a in next; }
      }
    }
  }

  lemma AllowanceGrows(h: History, branch: seq<Entry>, mark: nat)
    requires h.mark <= mark <= |branch|
    ensures Allowance(h, branch) <= Allowance(h.(mark := mark), branch)
    ensures h.successes > 0 && Justified(h, branch, mark) ==> Allowance(h, branch) < Allowance(h.(mark := mark), branch)
  {
    AnswerCountGrows(branch, h.mark, mark);
  }

  lemma SuccessKeepsGrounded(s: Driver, id: nat)
    requires IsGrounded(s) && Single(s.compactions.running) && id in s.compactions.running
    requires s.compactions.running[id].summary.Some? && !s.compactions.running[id].resolved
    ensures IsGrounded(Succeed(s, id))
  {
    var task, t := s.compactions.running[id], Succeed(s, id);
    assert id in t.compactions.running && t.compactions.running[id].resolved;
    AllowanceGrows(s.history, s.branch, t.history.mark);
  }

  lemma RefusalKeepsGrounded(h: History, branch: seq<Entry>, running: Running, usage: Option<Usage>, id: nat)
    requires Grounded(h, branch, running, usage) && Single(running) && id in running && !running[id].resolved
    ensures Grounded(h, branch, running - {id}, usage)
  {
    assert NoneResolved(running);
  }

  /** A reading taken now is justified, since the last success left a summary behind. */
  lemma ReadingIsJustified(h: History, branch: seq<Entry>, read: Read)
    requires MarkIsSound(h, branch)
    requires HasTokens(Reading(read.contextWindow, branch, read.estimate))
    ensures Justified(h, branch, |branch|)
  {
    if h.successes > 0 {
      TokensNeedAnAnswer(read.contextWindow, branch, read.estimate, h.mark - 1);
    }
  }

  lemma SnapshotKeepsGrounded(h: History, branch: seq<Entry>, running: Running, usage: Option<Usage>, read: Read)
    requires Grounded(h, branch, running, usage)
    ensures Grounded(h.(owed := h.owed && !read.ok), branch, running, Snapshot(usage, branch, read))
  {
    if read.ok && HasTokens(Reading(read.contextWindow, branch, read.estimate)) {
      ReadingIsJustified(h, branch, read);
    }
  }

  lemma RereadKeepsGrounded(s: Driver, id: nat, read: Read, callbackThrows: bool)
    requires IsGrounded(s) && Single(s.compactions.running) && id in s.compactions.running
    ensures IsGrounded(FinishReread(s, id, read, callbackThrows))
  {
    SnapshotKeepsGrounded(s.history, s.branch, s.compactions.running, s.usage, read);
    assert forall a :: a !in s.compactions.running - {id};
  }

  lemma RequestKeepsGrounded(s: Driver, reason: Reason)
    requires Accounted(s) && IsGrounded(s)
    requires reason == Threshold ==> HasTokens(s.usage)
    ensures IsGrounded(RequestCompaction(s, reason))
  {
    if !s.compactions.compacting && !s.closing.stopped {
      AskKeepsGrounded(s.history, s.branch, s.compactions.running, s.usage, s.compactions.requests, reason);
    }
  }

  predicate IsCompactionStep(e: Event) {
    e.CompactionAsked? || e.SummaryWritten? || e.HarnessCompacted? || e.HarnessRefused? || e.CompactionReread?
  }

  lemma CompactionStepKeepsGrounded(due: Due, s: Driver, e: Event)
    requires Accounted(s) && IsGrounded(s) && Enabled(s, e) && IsCompactionStep(e)
    ensures IsGrounded(Happen(due, s, e))
  {
    var h, branch, running, usage := s.history, s.branch, s.compactions.running, s.usage;
    match e
    case CompactionAsked => RequestKeepsGrounded(s, Manual);
    case SummaryWritten(id) => SummaryKeepsGrounded(h, branch, running, usage, id);
    case HarnessCompacted(id) => SuccessKeepsGrounded(s, id);
    case HarnessRefused(id) => RefusalKeepsGrounded(h, branch, running, usage, id);
    case CompactionReread(id, read, callbackThrows) => RereadKeepsGrounded(s, id, read, callbackThrows);
  }

  lemma HandlerKeepsGrounded(due: Due, s: Driver, answer: LifecycleModel.Answer)
    requires Accounted(s) && IsGrounded(s)
    ensures IsGrounded(HandleSettled(due, s, answer))
  {
    if IsDue(due, s.usage) { RequestKeepsGrounded(s, Threshold); }
  }

  lemma ReadStepKeepsGrounded(due: Due, s: Driver, e: Event)
    requires IsGrounded(s) && Enabled(s, e) && (e.SettledRead? || e.StartRead?)
    ensures IsGrounded(Happen(due, s, e))
  {
    SnapshotKeepsGrounded(s.history, s.branch, s.compactions.running, s.usage, e.read);
  }

  /** The other steps leave the transcript, the reading and the compactions alone. */
  lemma QuietStep(due: Due, s: Driver, e: Event)
    requires Enabled(s, e) && !IsCompactionStep(e)
    requires !e.EntryAppended? && !e.SettledRead? && !e.StartRead? && !e.SettledHandled?
    ensures var t := Happen(due, s, e);
            t.history == s.history && t.branch == s.branch && t.compactions == s.compactions && t.usage == s.usage
  {
  }

  lemma StepKeepsGrounded(due: Due, s: Driver, e: Event)
    requires Accounted(s) && IsGrounded(s) && Enabled(s, e)
    ensures IsGrounded(Happen(due, s, e))
  {
    if IsCompactionStep(e) {
      CompactionStepKeepsGrounded(due, s, e);
    } else if e.EntryAppended? {
      GrowthKeepsGrounded(s.history, s.branch, s.compactions.running, s.usage, e.entry);
    } else if e.SettledRead? || e.StartRead? {
      ReadStepKeepsGrounded(due, s, e);
    } else if e.SettledHandled? {
      HandlerKeepsGrounded(due, s.(awaits := s.awaits.(settledFiring := s.awaits.settledFiring - 1)), e.answer);
    } else {
      QuietStep(due, s, e);
    }
  }

  lemma {:induction false} EveryRunIsGrounded(due: Due, branch: seq<Entry>, run: seq<Event>)
    ensures Accounted(After(due, branch, run)) && IsGrounded(After(due, branch, run))
  {
    EveryRunIsAccounted(due, branch, run);
    if run != [] {
      var before, e := After(due, branch, run[..|run| - 1]), run[|run| - 1];
      EveryRunIsGrounded(due, branch, run[..|run| - 1]);
      if Enabled(before, e) { StepKeepsGrounded(due, before, e); }
    }
  }

  // ------------------------------------------------------------- what follows

  /** `e` puts a threshold compaction in flight. */
  ghost predicate StartsThreshold(due: Due, s: Driver, e: Event) {
    var before, after := s.compactions.running, Step(due, s, e).compactions.running;
    exists id :: id in after && id !in before && after[id].reason == Threshold
  }

  /** Only a settled listener that finds the window due, and nothing in flight, does. */
  lemma OnlySettlingStartsOne(due: Due, s: Driver, e: Event)
    requires StartsThreshold(due, s, e)
    ensures e.SettledHandled? && IsDue(due, s.usage) && !s.compactions.compacting
  {
  }

  // ------------------------------------------------- the run behind the bookkeeping

  predicate LosesReread(s: Driver, e: Event) { e.CompactionReread? && !e.read.ok && Enabled(s, e) }

  predicate ReadsTranscript(s: Driver, e: Event) {
    (e.CompactionReread? || e.SettledRead? || e.StartRead?) && e.read.ok && Enabled(s, e)
  }

  /** How many re-reads of the run failed. */
  ghost function LostRereads(due: Due, branch: seq<Entry>, run: seq<Event>): nat {
    if |run| == 0 then 0
    else
      var before := run[..|run| - 1];
      LostRereads(due, branch, before) + if LosesReread(After(due, branch, before), run[|run| - 1]) then 1 else 0
  }

  /** Whether a compaction has succeeded with no read gone through since. */
  ghost function ReadIsOwed(due: Due, branch: seq<Entry>, run: seq<Event>): bool {
    if |run| == 0 then false
    else
      var s, e := After(due, branch, run[..|run| - 1]), run[|run| - 1];
      (e.HarnessCompacted? && Enabled(s, e)) || (ReadIsOwed(due, branch, run[..|run| - 1]) && !ReadsTranscript(s, e))
  }

  lemma StepHistory(due: Due, s: Driver, e: Event)
    ensures var t := Step(due, s, e);
            && t.history.lost == s.history.lost + (if LosesReread(s, e) then 1 else 0)
            && t.history.owed == ((e.HarnessCompacted? && Enabled(s, e)) || (s.history.owed && !ReadsTranscript(s, e)))
  {
  }

  lemma {:induction false} BookkeepingIsHistory(due: Due, branch: seq<Entry>, run: seq<Event>)
    ensures After(due, branch, run).history.lost == LostRereads(due, branch, run)
    ensures After(due, branch, run).history.owed == ReadIsOwed(due, branch, run)
  {
    if |run| != 0 {
      BookkeepingIsHistory(due, branch, run[..|run| - 1]);
      StepHistory(due, After(due, branch, run[..|run| - 1]), run[|run| - 1]);
    }
  }

  ghost predicate EveryRereadWentThrough(run: seq<Event>) {
    forall e :: e in run && e.CompactionReread? ==> e.read.ok
  }

  lemma {:induction false} NothingWasLost(due: Due, branch: seq<Entry>, run: seq<Event>)
    requires EveryRereadWentThrough(run)
    ensures LostRereads(due, branch, run) == 0
  {
    if |run| != 0 {
      assert run[|run| - 1] in run && forall e :: e in run[..|run| - 1] ==> e in run;
      NothingWasLost(due, branch, run[..|run| - 1]);
    }
  }

  /** In every run that lost no re-read, when the threshold starts a compaction after an
      earlier one succeeded, an assistant answer stands in the transcript after that
      earlier one's summary. It is enough that no read is owed. */
  lemma ThresholdFollowsAnAnswer(due: Due, branch: seq<Entry>, run: seq<Event>, e: Event)
    requires var s := After(due, branch, run);
             StartsThreshold(due, s, e) && s.history.successes > 0
    requires LostRereads(due, branch, run) == 0 || !ReadIsOwed(due, branch, run)
    ensures var s := After(due, branch, run);
            && 0 < s.history.mark <= |s.branch| && s.branch[s.history.mark - 1].Summary?
            && AnsweredSince(s.branch, s.history.mark)
  {
    EveryRunIsGrounded(due, branch, run);
    BookkeepingIsHistory(due, branch, run);
    OnlySettlingStartsOne(due, After(due, branch, run), e);
    assert NoneResolved(After(due, branch, run).compactions.running);
  }

  /** So whenever every re-read went through. */
  lemma ReadingEnsuresAnAnswer(due: Due, branch: seq<Entry>, run: seq<Event>, e: Event)
    requires EveryRereadWentThrough(run)
    requires StartsThreshold(due, After(due, branch, run), e) && After(due, branch, run).history.successes > 0
    ensures AnsweredSince(After(due, branch, run).branch, After(due, branch, run).history.mark)
  {
    NothingWasLost(due, branch, run);
    ThresholdFollowsAnAnswer(due, branch, run, e);
  }

  /** The same from the reading's side: with no read owed, a token count on show
      means the transcript was answered after its newest compaction. */
  lemma TokensOnShowWereEarned(due: Due, branch: seq<Entry>, run: seq<Event>)
    requires var s := After(due, branch, run);
             s.history.successes > 0 && !ReadIsOwed(due, branch, run) && HasTokens(s.usage)
    ensures var s := After(due, branch, run); AnsweredSince(s.branch, s.history.mark)
  {
    EveryRunIsGrounded(due, branch, run);
    BookkeepingIsHistory(due, branch, run);
  }

  /** So no run of threshold compactions is endless: those that succeed are no more
      than one, the answers in the transcript and the lost re-reads together. */
  lemma ThresholdCompactionsAreBounded(due: Due, branch: seq<Entry>, run: seq<Event>)
    ensures var s := After(due, branch, run);
            s.history.thresholdSuccesses <= 1 + AnswerCount(s.branch) + LostRereads(due, branch, run)
  {
    EveryRunIsGrounded(due, branch, run);
    var s := After(due, branch, run);
    BookkeepingIsHistory(due, branch, run);
    AnswerCountGrows(s.branch, s.history.mark, |s.branch|);
    assert s.branch[..|s.branch|] == s.branch;
  }

  lemma StoppedStartsNoCompaction(due: Due, s: Driver, e: Event)
    requires s.closing.stopped
    ensures Step(due, s, e).compactions.running.Keys <= s.compactions.running.Keys
  {
  }

  lemma StoppedStartsNoReplacement(due: Due, s: Driver, e: Event)
    requires s.closing.stopped
    ensures Step(due, s, e).replacements.serving.Keys <= s.replacements.serving.Keys
    ensures Step(due, s, e).replacements.accepted == s.replacements.accepted
  {
  }

  lemma StoppedStays(due: Due, s: Driver, e: Event)
    requires s.closing.stopped
    ensures Step(due, s, e).closing.stopped
  {
  }

  /** Once stopped, whatever happens next puts nothing new in flight. */
  lemma {:induction false} StoppedStartsNothing(due: Due, branch: seq<Entry>, run: seq<Event>, more: seq<Event>)
    requires After(due, branch, run).closing.stopped
    ensures var s, t := After(due, branch, run), After(due, branch, run + more);
            && t.closing.stopped
            && t.compactions.running.Keys <= s.compactions.running.Keys
            && t.replacements.serving.Keys <= s.replacements.serving.Keys
            && t.replacements.accepted == s.replacements.accepted
  {
    if |more| == 0 {
      assert run + more == run;
    } else {
      var init, e := more[..|more| - 1], more[|more| - 1];
      StoppedStartsNothing(due, branch, run, init);
      assert run + more == (run + init) + [e];
      AfterOneMore(due, branch, run + init, e);
      var s := After(due, branch, run + init);
      StoppedStays(due, s, e);
      StoppedStartsNoCompaction(due, s, e);
      StoppedStartsNoReplacement(due, s, e);
    }
  }

  // ----------------------------------------------- when the re-read goes missing

  lemma AfterTwoMore(due: Due, branch: seq<Entry>, run: seq<Event>, a: Event, b: Event)
    ensures After(due, branch, run + [a, b]) == Step(due, Step(due, After(due, branch, run), a), b)
  {
    assert run + [a, b] == run + [a] + [b];
    AfterOneMore(due, branch, run, a);
    AfterOneMore(due, branch, run + [a], b);
  }

  /** A threshold compaction whose re-read is lost leaves the old count on show. */
  lemma LostRound(due: Due, s: Driver, id: nat, since: nat, read: Read)
    requires s.compactions.running == map[id := Compaction(Threshold, since, None, false)] && !read.ok
    ensures var t := Step(due, Step(due, Step(due, s, SummaryWritten(id)), HarnessCompacted(id)),
                          CompactionReread(id, read, false));
            && t.usage == s.usage && t.awaits == s.awaits && t.closing == s.closing
            && !t.compactions.compacting && t.compactions.running == map[]
            && t.branch == s.branch + [Summary]
            && t.history == History(s.history.successes + 1, s.history.thresholdSuccesses + 1,
                                    |s.branch| + 1, true, s.history.lost + 1)
  {
    var written := Step(due, s, SummaryWritten(id));
    assert written.compactions.running == map[id := Compaction(Threshold, since, Some(|s.branch|), false)];
    var compacted := Step(due, written, HarnessCompacted(id));
    assert compacted.compactions.running == map[id := Compaction(Threshold, since, Some(|s.branch|), true)];
    assert compacted.compactions.running - {id} == map[];
  }

  lemma TurnSettles(due: Due, branch: seq<Entry>, run: seq<Event>, read: Read)
    requires After(due, branch, run).closing.attached
    ensures var s, t := After(due, branch, run), After(due, branch, run + [Settled, SettledRead(read)]);
            && t.usage == Snapshot(s.usage, s.branch, read)
            && t.branch == s.branch && t.compactions == s.compactions && t.closing == s.closing
            && t.awaits.settledFiring > 0 && (!read.ok ==> t.history == s.history)
            && t.history.mark == s.history.mark && t.history.successes == s.history.successes
  {
    AfterTwoMore(due, branch, run, Settled, SettledRead(read));
  }

  /** What a settled listener does with nothing in flight. */
  lemma ListenerCompactsIffDue(due: Due, s: Driver)
    requires s.awaits.settledFiring > 0
    requires !s.compactions.compacting && !s.closing.stopped && forall a :: a !in s.compactions.running
    ensures StartsThreshold(due, s, SettledHandled(Nothing)) <==> IsDue(due, s.usage)
  {
    if IsDue(due, s.usage) {
      assert s.compactions.requests in Step(due, s, SettledHandled(Nothing)).compactions.running;
    }
  }

  /** Exactly when a transcript nobody has answered in since its last compaction is
      compacted again: a turn that settles there starts a threshold compaction if and
      only if its read fails and the count on show is due. A count can only be on show
      there because a re-read was lost and no read has gone through since. */
  lemma UnansweredCompactionIff(due: Due, branch: seq<Entry>, run: seq<Event>, read: Read)
    requires var s := After(due, branch, run);
             && s.closing.attached && !s.closing.stopped && !s.compactions.compacting
             && s.history.successes > 0 && !AnsweredSince(s.branch, s.history.mark)
    ensures var s := After(due, branch, run);
            var t := After(due, branch, run + [Settled, SettledRead(read)]);
            && (StartsThreshold(due, t, SettledHandled(Nothing)) <==> !read.ok && IsDue(due, s.usage))
            && (HasTokens(s.usage) ==> ReadIsOwed(due, branch, run) && LostRereads(due, branch, run) > 0)
            && t.history.mark == s.history.mark && t.branch == s.branch && (!read.ok ==> t.history == s.history)
  {
    var s := After(due, branch, run);
    EveryRunIsGrounded(due, branch, run);
    BookkeepingIsHistory(due, branch, run);
    TurnSettles(due, branch, run, read);
    ListenerCompactsIffDue(due, After(due, branch, run + [Settled, SettledRead(read)]));
    UnansweredReadShowsNothing(s, read);
    assert NoneResolved(s.compactions.running);
    if HasTokens(s.usage) && !ReadIsOwed(due, branch, run) { TokensOnShowWereEarned(due, branch, run); }
  }

  /** A read that goes through hides the count there. */
  lemma UnansweredReadShowsNothing(s: Driver, read: Read)
    requires IsGrounded(s) && s.history.successes > 0 && !AnsweredSince(s.branch, s.history.mark)
    ensures !HasTokens(Reading(read.contextWindow, s.branch, read.estimate))
  {
    if HasTokens(Reading(read.contextWindow, s.branch, read.estimate)) {
      TokensNeedAnAnswer(read.contextWindow, s.branch, read.estimate, s.history.mark - 1);
    }
  }

  /** A turn settles over a reading that is due, and the compaction it starts loses
      its re-read. */
  function FirstRound(read: Read, lost: Read): seq<Event> {
    [Settled, SettledRead(read)]
    + [SettledHandled(Nothing), SummaryWritten(0), HarnessCompacted(0), CompactionReread(0, lost, false)]
  }

  lemma FirstTurnSettles(due: Due, branch: seq<Entry>, read: Read)
    requires read.ok
    ensures After(due, branch, [Settled, SettledRead(read)])
            == Initial(branch).(usage := Reading(read.contextWindow, branch, read.estimate),
                                awaits := Awaits(0, 1, 0, 0))
  {
    AfterTwoMore(due, branch, [], Settled, SettledRead(read));
    assert [] + [Settled, SettledRead(read)] == [Settled, SettledRead(read)];
  }

  lemma DueListenerCompacts(due: Due, s: Driver)
    requires s.awaits.settledFiring > 0 && IsDue(due, s.usage)
    requires !s.compactions.compacting && !s.closing.stopped && s.compactions.running == map[]
    ensures var t := Step(due, s, SettledHandled(Nothing));
            && t.compactions.running == map[s.compactions.requests := Compaction(Threshold, |s.branch|, None, false)]
            && t.usage == s.usage && t.branch == s.branch && t.history == s.history && t.closing == s.closing
  {
  }

  lemma FirstRoundLosesReread(due: Due, branch: seq<Entry>, read: Read, lost: Read)
    requires read.ok && !lost.ok && IsDue(due, Reading(read.contextWindow, branch, read.estimate))
    ensures var s := After(due, branch, FirstRound(read, lost));
            && s.closing == Closing(false, true, 0, 0) && !s.compactions.compacting
            && s.usage == Reading(read.contextWindow, branch, read.estimate)
            && s.branch == branch + [Summary] && s.history == History(1, 1, |branch| + 1, true, 1)
  {
    var opening := [Settled, SettledRead(read)];
    FirstTurnSettles(due, branch, read);
    var s := After(due, branch, opening);
    DueListenerCompacts(due, s);
    LostRound(due, Step(due, s, SettledHandled(Nothing)), 0, |branch|, lost);
    AfterFourMore(due, branch, opening, SettledHandled(Nothing), SummaryWritten(0), HarnessCompacted(0),
                  CompactionReread(0, lost, false));
  }

  /** Such runs exist wherever the threshold can be reached at all: whatever due
      reading starts the first compaction starts a second, unanswered one. */
  lemma LostRereadCompactsAgain(due: Due, branch: seq<Entry>, read: Read, lost: Read)
    requires read.ok && !lost.ok && IsDue(due, Reading(read.contextWindow, branch, read.estimate))
    ensures var s := After(due, branch, FirstRound(read, lost) + [Settled, SettledRead(lost)]);
            && s.history.successes == 1 && !AnsweredSince(s.branch, s.history.mark)
            && StartsThreshold(due, s, SettledHandled(Nothing))
  {
    FirstRoundLosesReread(due, branch, read, lost);
    UnansweredCompactionIff(due, branch, FirstRound(read, lost), lost);
  }

  lemma FourSingles<T>(s: seq<T>, a: T, b: T, c: T, d: T)
    ensures s + [a, b, c, d] == s + [a] + [b] + [c] + [d]
  {
  }

  lemma AfterFourMore(due: Due, branch: seq<Entry>, run: seq<Event>, a: Event, b: Event, c: Event, d: Event)
    ensures After(due, branch, run + [a, b, c, d])
            == Step(due, Step(due, Step(due, Step(due, After(due, branch, run), a), b), c), d)
  {
    FourSingles(run, a, b, c, d);
    var one := run + [a];
    var two := one + [b];
    var three := two + [c];
    AfterOneMore(due, branch, run, a);
    AfterOneMore(due, branch, one, b);
    AfterOneMore(due, branch, two, c);
    AfterOneMore(due, branch, three, d);
  }
}
