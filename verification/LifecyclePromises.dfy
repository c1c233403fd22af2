/** What one event of a run brings about, given what holds of every run: the promises
    the driver's methods make. */
module LifecyclePromises {
  import opened Options
  import opened ContextReading
  import opened LifecycleModel
  import opened LifecycleSafety
  import opened LifecycleThreshold

  // -------------------------------------------------- what every run says of a state

  lemma OneCompaction(c: Compactions, id: nat)
    requires CompactionsAccounted(c) && id in c.running
    ensures c.running.Keys == {id} && c.compacting && Reports(c.outcomes, id) == 0
    ensures id < c.requests && id !in c.threw
  {
  }

  lemma FinishedRequest(c: Compactions, id: nat)
    requires CompactionsAccounted(c) && id < c.requests && id !in c.running
    ensures Reports(c.outcomes, id) == if id in c.threw then 2 else 1
  {
  }

  lemma NoCompaction(c: Compactions)
    requires CompactionsAccounted(c) && forall a :: a !in c.running
    ensures c.running == map[] && !c.compacting
  {
  }

  lemma OneReplacement(r: Replacements, id: nat)
    requires ReplacementsAccounted(r) && id in r.serving
    ensures r.serving.Keys == {id} && r.replacing && ResultsFor(r.results, id) == 0 && id < r.accepted
  {
  }

  lemma NoReplacement(r: Replacements, id: nat)
    requires ReplacementsAccounted(r) && id < r.accepted && forall a :: a !in r.serving
    ensures r.serving == map[] && !r.replacing && ResultsFor(r.results, id) == 1
  {
  }

  /** At any time: at most one of each in flight, no request reported more than twice,
      and the hook fired at most once and before anything is detached. */
  lemma SingleFlight(due: Due, start: seq<Entry>, run: seq<Event>)
    ensures var s := After(due, start, run); var c, r := s.compactions, s.replacements;
            && |c.running| <= 1 && |r.serving| <= 1 && s.closing.fires <= 1
            && (c.compacting <==> c.running != map[]) && (r.replacing <==> r.serving != map[])
            && (!s.closing.attached ==> s.closing.fires == 1 && s.closing.firing == 0)
            && forall id: nat :: Reports(c.outcomes, id) <= 2 && ResultsFor(r.results, id) <= 1
  {
    EveryRunIsAccounted(due, start, run);
    var s := After(due, start, run);
    if a :| a in s.compactions.running { OneCompaction(s.compactions, a); }
    if a :| a in s.replacements.serving { OneReplacement(s.replacements, a); }
    assert |s.compactions.running| == |s.compactions.running.Keys|;
    assert |s.replacements.serving| == |s.replacements.serving.Keys|;
  }

  // ------------------------------------------------------------------ compactions

  /** A request is refused with its one report, or is the only compaction in flight, not
      yet reported and the one `session_compact` is told of. */
  lemma RefusedOrAlone(due: Due, start: seq<Entry>, run: seq<Event>)
    ensures var s, t := After(due, start, run), After(due, start, run + [CompactionAsked]);
            var id := s.compactions.requests;
            if s.compactions.compacting || s.closing.stopped
            then && t.compactions.running == s.compactions.running && t.compactionReason == s.compactionReason
                 && t.compactions.outcomes == s.compactions.outcomes + [Outcome(id, Refused)]
                 && Reports(t.compactions.outcomes, id) == 1
            else && t.compactions.running == map[id := Compaction(Manual, |s.branch|, None, false)]
                 && t.compactionReason == Manual && t.compactions.outcomes == s.compactions.outcomes
                 && Reports(t.compactions.outcomes, id) == 0
  {
    EveryRunIsAccounted(due, start, run);
    EveryRunIsAccounted(due, start, run + [CompactionAsked]);
    AfterOneMore(due, start, run, CompactionAsked);
    var s, c := After(due, start, run), After(due, start, run + [CompactionAsked]).compactions;
    if s.compactions.compacting || s.closing.stopped {
      FinishedRequest(c, s.compactions.requests);
    } else {
      OneCompaction(c, s.compactions.requests);
    }
  }

  lemma OnlyThisIsRunning(due: Due, start: seq<Entry>, run: seq<Event>, id: nat)
    requires id in After(due, start, run).compactions.running
    ensures After(due, start, run).compactions.running.Keys == {id}
  {
    EveryRunIsAccounted(due, start, run);
    OneCompaction(After(due, start, run).compactions, id);
  }

  /** The mark of the last success stands just past a summary. */
  lemma MarkIsASummary(due: Due, start: seq<Entry>, run: seq<Event>)
    requires After(due, start, run).history.successes > 0
    ensures var s := After(due, start, run);
            0 < s.history.mark <= |s.branch| && s.branch[s.history.mark - 1].Summary?
  {
    EveryRunIsGrounded(due, start, run);
  }

  lemma SucceedAlone(s: Driver, id: nat)
    requires s.compactions.running.Keys == {id} && s.compactions.running[id].summary.Some?
    ensures Succeed(s, id).compactions.running == map[id := s.compactions.running[id].(resolved := true)]
    ensures Succeed(s, id).history.owed && Some(Succeed(s, id).history.mark - 1) == s.compactions.running[id].summary
    ensures Succeed(s, id).history.successes > 0
  {
  }

  /** A success moves the mark just past the summary of the only compaction in flight,
      and a read is owed. */
  lemma SuccessMovesMark(due: Due, start: seq<Entry>, run: seq<Event>, id: nat)
    requires Enabled(After(due, start, run), HarnessCompacted(id))
    ensures var s, t := After(due, start, run), After(due, start, run + [HarnessCompacted(id)]);
            && t.compactions.running == map[id := s.compactions.running[id].(resolved := true)]
            && t.history.owed && Some(t.history.mark - 1) == s.compactions.running[id].summary
            && t.history.successes > 0
  {
    AfterOneMore(due, start, run, HarnessCompacted(id));
    OnlyThisIsRunning(due, start, run, id);
    SucceedAlone(After(due, start, run), id);
  }

  /** Finishing leaves nothing in flight and the request reported completed, then failed
      too when its callback threw; the reading is what the transcript now gives, or as
      it was when it could not be read. */
  lemma RereadSettlesRequest(due: Due, start: seq<Entry>, run: seq<Event>, id: nat, read: Read, callbackThrows: bool)
    requires Enabled(After(due, start, run), CompactionReread(id, read, callbackThrows))
    ensures var s, t := After(due, start, run), After(due, start, run + [CompactionReread(id, read, callbackThrows)]);
            var c := t.compactions;
            && c.running == map[] && !c.compacting
            && c.outcomes == s.compactions.outcomes + [Outcome(id, Completed)]
                             + (if callbackThrows then [Outcome(id, Failed)] else [])
            && Reports(c.outcomes, id) == (if callbackThrows then 2 else 1)
            && t.usage == if read.ok then Reading(read.contextWindow, s.branch, read.estimate) else s.usage
  {
    var e := CompactionReread(id, read, callbackThrows);
    EveryRunIsAccounted(due, start, run);
    EveryRunIsAccounted(due, start, run + [e]);
    AfterOneMore(due, start, run, e);
    OneCompaction(After(due, start, run).compactions, id);
    NoCompaction(After(due, start, run + [e]).compactions);
    FinishedRequest(After(due, start, run + [e]).compactions, id);
  }

  lemma FailureSettlesRequest(due: Due, start: seq<Entry>, run: seq<Event>, id: nat)
    requires Enabled(After(due, start, run), HarnessRefused(id))
    ensures var c := After(due, start, run + [HarnessRefused(id)]).compactions;
            && c.running == map[] && !c.compacting && Reports(c.outcomes, id) == 1
            && c.outcomes == After(due, start, run).compactions.outcomes + [Outcome(id, Failed)]
  {
    EveryRunIsAccounted(due, start, run);
    EveryRunIsAccounted(due, start, run + [HarnessRefused(id)]);
    AfterOneMore(due, start, run, HarnessRefused(id));
    OneCompaction(After(due, start, run).compactions, id);
    NoCompaction(After(due, start, run + [HarnessRefused(id)]).compactions);
    FinishedRequest(After(due, start, run + [HarnessRefused(id)]).compactions, id);
  }

  /** A count read since the last success stands on an answer later than its summary. */
  lemma CountWasEarned(due: Due, start: seq<Entry>, run: seq<Event>)
    ensures var s := After(due, start, run);
            s.history.successes > 0 && !s.history.owed && HasTokens(s.usage) ==> AnsweredSince(s.branch, s.history.mark)
  {
    var s := After(due, start, run);
    BookkeepingIsHistory(due, start, run);
    if s.history.successes > 0 && !s.history.owed && HasTokens(s.usage) { TokensOnShowWereEarned(due, start, run); }
  }

  // ----------------------------------------------------------------- replacements

  /** A request is taken exactly when well formed, with none pending and the driver
      running; it is then the only one, without a result yet. */
  lemma TakenOrUnchanged(due: Due, start: seq<Entry>, run: seq<Event>, wellFormed: bool)
    ensures var s, t := After(due, start, run), After(due, start, run + [ReplacementAsked(wellFormed)]);
            var id := s.replacements.accepted;
            && (Accepts(s.replacements, s.closing.stopped, wellFormed)
                <==> wellFormed && s.replacements.serving == map[] && !s.closing.stopped)
            && if Accepts(s.replacements, s.closing.stopped, wellFormed)
               then t.replacements.serving == map[id := Queued] && ResultsFor(t.replacements.results, id) == 0
               else t.replacements == s.replacements
  {
    var e := ReplacementAsked(wellFormed);
    SingleFlight(due, start, run);
    EveryRunIsAccounted(due, start, run + [e]);
    AfterOneMore(due, start, run, e);
    var s, r := After(due, start, run), After(due, start, run + [e]).replacements;
    if Accepts(s.replacements, s.closing.stopped, wellFormed) { OneReplacement(r, s.replacements.accepted); }
  }

  /** The timer gives the only replacement up with its one result, or starts it. */
  lemma TimerGivesUpOrReplaces(due: Due, start: seq<Entry>, run: seq<Event>, id: nat)
    requires Enabled(After(due, start, run), ReplacementTimer(id))
    ensures var s, r := After(due, start, run), After(due, start, run + [ReplacementTimer(id)]).replacements;
            if !s.idle || s.pending
            then && r.serving == map[] && ResultsFor(r.results, id) == 1
                 && r.results == s.replacements.results + [Result(id, false)]
            else r.serving == map[id := Replacing] && ResultsFor(r.results, id) == 0
  {
    EveryRunIsAccounted(due, start, run);
    EveryRunIsAccounted(due, start, run + [ReplacementTimer(id)]);
    AfterOneMore(due, start, run, ReplacementTimer(id));
    OneReplacement(After(due, start, run).replacements, id);
    var s, r := After(due, start, run), After(due, start, run + [ReplacementTimer(id)]).replacements;
    if !s.idle || s.pending { NoReplacement(r, id); } else { OneReplacement(r, id); }
  }

  lemma ReplacedOnce(due: Due, start: seq<Entry>, run: seq<Event>, id: nat, ok: bool)
    requires Enabled(After(due, start, run), SessionReplaced(id, ok))
    ensures var r := After(due, start, run + [SessionReplaced(id, ok)]).replacements;
            && r.serving == map[] && !r.replacing
            && ResultsFor(r.results, id) == 1 && r.results[|r.results| - 1..] == [Result(id, ok)]
  {
    EveryRunIsAccounted(due, start, run);
    EveryRunIsAccounted(due, start, run + [SessionReplaced(id, ok)]);
    AfterOneMore(due, start, run, SessionReplaced(id, ok));
    OneReplacement(After(due, start, run).replacements, id);
    NoReplacement(After(due, start, run + [SessionReplaced(id, ok)]).replacements, id);
  }

  // -------------------------------------------------------------------- listeners

  /** What a `settled` listener's answer leads to. A well-formed replacement with none in
      flight on a running driver is taken, is then the only one, and nothing is
      compacted. Otherwise, and only over a count that is due, a compaction is asked
      for: it is the only one in flight if there was none on a running driver, and
      refused with a report if not. */
  lemma SettlingStartsOne(due: Due, start: seq<Entry>, run: seq<Event>, answer: LifecycleModel.Answer)
    requires Enabled(After(due, start, run), SettledHandled(answer))
    ensures var s, t := After(due, start, run), After(due, start, run + [SettledHandled(answer)]);
            var c, r, stopped := s.compactions, s.replacements, s.closing.stopped;
            var takes := answer.NewSession? && answer.wellFormed && r.serving == map[] && !stopped;
            var asks := !takes && s.usage.Some? && s.usage.value.tokens.Some?
                        && due(s.usage.value.tokens.value, s.usage.value.contextWindow);
            && (t.replacements != r <==> takes)
            && (t.compactions != c <==> asks)
            && (takes ==> t.replacements.serving == map[r.accepted := Queued]
                          && ResultsFor(t.replacements.results, r.accepted) == 0)
            && (t.compactions.running != c.running <==> asks && c.running == map[] && !stopped)
            && (t.compactions.running != c.running ==>
                  && t.compactions.running == map[c.requests := Compaction(Threshold, |s.branch|, None, false)]
                  && Reports(t.compactions.outcomes, c.requests) == 0 && t.compactionReason == Threshold)
            && (asks && t.compactions.running == c.running ==>
                  t.compactions.outcomes == c.outcomes + [Outcome(c.requests, Refused)])
  {
    AfterOneMore(due, start, run, SettledHandled(answer));
    SingleFlight(due, start, run);
    NothingReportedYet(due, start, run);
  }

  /** The next request and the next replacement have had no report. */
  lemma NothingReportedYet(due: Due, start: seq<Entry>, run: seq<Event>)
    ensures var s := After(due, start, run);
            && Reports(s.compactions.outcomes, s.compactions.requests) == 0
            && ResultsFor(s.replacements.results, s.replacements.accepted) == 0
  {
    EveryRunIsAccounted(due, start, run);
  }

  /** The end of `start` compacts nothing, and a replacement it starts is the only one. */
  lemma StartingAsksAtMostReplacement(due: Due, start: seq<Entry>, run: seq<Event>, answer: LifecycleModel.Answer)
    requires Enabled(After(due, start, run), StartHandled(answer))
    ensures var s, t := After(due, start, run), After(due, start, run + [StartHandled(answer)]);
            && t.compactions == s.compactions
            && (t.replacements != s.replacements <==>
                  answer.NewSession? && answer.wellFormed && s.replacements.serving == map[] && !s.closing.stopped)
            && (t.replacements != s.replacements ==>
                  && t.replacements.serving == map[s.replacements.accepted := Queued]
                  && ResultsFor(t.replacements.results, s.replacements.accepted) == 0)
  {
    SingleFlight(due, start, run);
    EveryRunIsAccounted(due, start, run + [StartHandled(answer)]);
    AfterOneMore(due, start, run, StartHandled(answer));
    var s, r := After(due, start, run), After(due, start, run + [StartHandled(answer)]).replacements;
    if s.replacements.accepted in r.serving { OneReplacement(r, s.replacements.accepted); }
  }

  /** However often `shutdown` is called the hook has been fired once, and what is
      still attached waits for its handlers. */
  lemma StoppedFiredOnce(due: Due, start: seq<Entry>, run: seq<Event>)
    ensures var c := After(due, start, run + [ShutdownCalled]).closing;
            c.stopped && c.fires == 1 && c.firing == if c.attached then 1 else 0
  {
    EveryRunIsAccounted(due, start, run + [ShutdownCalled]);
    AfterOneMore(due, start, run, ShutdownCalled);
  }

  lemma DetachedAfterFiring(due: Due, start: seq<Entry>, run: seq<Event>)
    requires Enabled(After(due, start, run), ShutdownHandled)
    ensures After(due, start, run).closing.attached
    ensures After(due, start, run + [ShutdownHandled]).closing == Closing(true, false, 1, 0)
  {
    EveryRunIsAccounted(due, start, run);
    AfterOneMore(due, start, run, ShutdownHandled);
  }
}
