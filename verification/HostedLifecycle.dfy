/** `LifecycleDriver` and its `LifecycleState` as the object the source has: fields
    that each uninterrupted stretch of a method updates in place. A valid driver is
    where its recorded run of `LifecycleModel` and of `DeliveryChain` leads. A method
    that requires and ensures `Valid()` is one more event of one of them, and promises
    of the object what holds of every run. The methods without `Valid()` are helpers,
    the shared updates those are made of, and leave the recording to them. */
module HostedLifecycle {
  import opened Options
  import opened ContextReading
  import opened LifecycleModel
  import opened LifecycleSafety
  import opened LifecyclePromises
  import Chained = DeliveryChain

  class LifecycleDriver {
    // `shouldCompact` under the default settings
    const due: Due
    // LifecycleState
    var idle: bool
    var pending: bool
    var usage: Option<Usage>
    // the transcript of `subject.session`
    var branch: seq<Entry>
    // flags
    var compacting: bool
    var compactionReason: Reason
    var replacing: bool
    var stopped: bool
    var attached: bool
    // suspended stretches and what they have reported
    var requests: nat
    var running: map<nat, Compaction>
    var outcomes: seq<Outcome>
    var threw: set<nat>
    var accepted: nat
    var serving: map<nat, Phase>
    var results: seq<Result>
    var awaits: Awaits
    var fires: nat
    var firing: nat
    // `delivering`
    var chain: Chained.Chain
    ghost var history: History
    /** The transcript the driver began on, and what has happened since. */
    ghost const start: seq<Entry>
    ghost var run: seq<Event>
    ghost var chainRun: seq<Chained.Event>

    ghost function CompactionsNow(): Compactions
      reads this`compacting, this`requests, this`running, this`outcomes, this`threw
    {
      Compactions(compacting, requests, running, outcomes, threw)
    }

    ghost function ReplacementsNow(): Replacements
      reads this`replacing, this`accepted, this`serving, this`results
    {
      Replacements(replacing, accepted, serving, results)
    }

    ghost function ClosingNow(): Closing
      reads this`stopped, this`attached, this`fires, this`firing
    {
      Closing(stopped, attached, fires, firing)
    }

    ghost function View(): Driver
      reads this`idle, this`pending, this`usage, this`branch, this`compactionReason,
            this`compacting, this`requests, this`running, this`outcomes, this`threw,
            this`replacing, this`accepted, this`serving, this`results, this`awaits,
            this`stopped, this`attached, this`fires, this`firing, this`history
    {
      Driver(idle, pending, usage, branch, compactionReason, CompactionsNow(), ReplacementsNow(),
             awaits, ClosingNow(), history)
    }

    ghost predicate Valid()
      reads this
    {
      View() == After(due, start, run) && chain == Chained.After(chainRun)
    }

    constructor (due: Due, branch: seq<Entry>)
      ensures Valid() && run == [] && chainRun == []
      ensures this.due == due && start == branch == this.branch
      ensures idle && !pending && usage == None && !compacting && !replacing && !stopped && attached
      ensures running == map[] && outcomes == [] && serving == map[] && results == [] && fires == firing == 0
      ensures awaits == Awaits(0, 0, 0, 0) && chain == Chained.Chain([], [], [])
    {
      this.due, this.branch, start := due, branch, branch;
      idle, pending, usage := true, false, None;
      compacting, compactionReason := false, Manual;
      replacing, stopped, attached := false, false, true;
      requests, running, outcomes, threw := 0, map[], [], {};
      accepted, serving, results := 0, map[], [];
      awaits, fires, firing := Awaits(0, 0, 0, 0), 0, 0;
      chain := Chained.Chain([], [], []);
      history := History(0, 0, 0, false, 0);
      run, chainRun := [], [];
    }

    /** One more event. */
    ghost method Record(e: Event)
      requires View() == Step(due, After(due, start, run), e) && chain == Chained.After(chainRun)
      modifies this`run
      ensures Valid() && run == old(run) + [e]
    {
      AfterOneMore(due, start, run, e);
      run := run + [e];
    }

    ghost method RecordDelivery(e: Chained.Event)
      requires View() == After(due, start, run)
      requires chain == Chained.Step(Chained.After(chainRun), e)
      modifies this`chainRun
      ensures Valid() && chainRun == old(chainRun) + [e]
    {
      assert (chainRun + [e])[..|chainRun|] == chainRun;
      chainRun := chainRun + [e];
    }

    /** At any time: at most one of each in flight, no request reported more than
        twice, and the hook fired at most once and before anything is detached. */
    lemma HoldsOfEveryDriver()
      requires Valid()
      ensures |running| <= 1 && |serving| <= 1 && fires <= 1
      ensures (compacting <==> running != map[]) && (replacing <==> serving != map[])
      ensures !attached ==> fires == 1 && firing == 0
      ensures forall id: nat :: Reports(outcomes, id) <= 2 && ResultsFor(results, id) <= 1
    {
      SingleFlight(due, start, run);
    }

    // ----------------------------------------------------------- compaction

    method SnapshotSession(read: Read)
      modifies this`usage, this`history
      ensures usage == Snapshot(old(usage), branch, read)
      ensures history == old(history).(owed := old(history).owed && !read.ok)
    {
      if read.ok {
        usage := ContextUsage(read.contextWindow, branch, read.estimate);
        history := history.(owed := false);
      }
    }

    /** `runCompaction` up to its first `await`. */
    method RunCompaction(reason: Reason)
      modifies this`requests, this`outcomes, this`compacting, this`compactionReason, this`running
      ensures CompactionsNow() == Ask(old(CompactionsNow()), stopped, reason, |branch|)
      ensures compactionReason == if old(compacting) || stopped then old(compactionReason) else reason
    {
      var request := requests;
      requests := requests + 1;
      if compacting || stopped {
        outcomes := outcomes + [Outcome(request, Refused)];
        return;
      }
      compacting := true;
      compactionReason := reason;
      running := running[request := Compaction(reason, |branch|, None, false)];
    }

    /** An extension's `compact`: refused at once with one report, or the only
        compaction in flight and not yet reported. */
    method StartCompaction()
      requires Valid()
      modifies this`requests, this`outcomes, this`compacting, this`compactionReason, this`running, this`run
      ensures Valid() && run == old(run) + [CompactionAsked]
      ensures old(compacting) || stopped ==>
                && running == old(running) && Reports(outcomes, old(requests)) == 1
                && outcomes == old(outcomes) + [Outcome(old(requests), Refused)]
                && compactionReason == old(compactionReason)
      ensures !old(compacting) && !stopped ==>
                && running == map[old(requests) := Compaction(Manual, |branch|, None, false)]
                && Reports(outcomes, old(requests)) == 0 && compactionReason == Manual
    {
      ghost var before := run;
      RunCompaction(Manual);
      Record(CompactionAsked);
      RefusedOrAlone(due, start, before);
    }

    method WriteSummary(id: nat)
      requires id in running
      modifies this`branch, this`running
      ensures running == old(running)[id := old(running)[id].(summary := Some(|old(branch)|))]
      ensures branch == old(branch) + [Summary]
    {
      running := running[id := running[id].(summary := Some(|branch|))];
      branch := branch + [Summary];
    }

    /** `harness.compact()` appends its summary. */
    method SummaryWritten(id: nat)
      requires Valid() && id in running && running[id].summary.None?
      modifies this`branch, this`running, this`run
      ensures Valid() && run == old(run) + [LifecycleModel.Event.SummaryWritten(id)]
      ensures branch == old(branch) + [Summary] && running.Keys == old(running).Keys == {id}
      ensures running[id].summary == Some(|old(branch)|) && running[id].resolved == old(running)[id].resolved
    {
      OnlyThisIsRunning(due, start, run, id);
      WriteSummary(id);
      Record(LifecycleModel.Event.SummaryWritten(id));
    }

    method MarkSuccess(id: nat)
      requires id in running && running[id].summary.Some?
      modifies this`running, this`history
      ensures View() == Succeed(old(View()), id)
    {
      ghost var task := running[id];
      history := history.(mark := task.summary.value + 1, owed := true, successes := history.successes + 1,
                          thresholdSuccesses := history.thresholdSuccesses + if task.reason == Threshold then 1 else 0);
      running := running[id := running[id].(resolved := true)];
    }

    /** `harness.compact()` resolves: the summary is now the transcript's mark, and a
        read of what follows it is owed. */
    method HarnessCompacted(id: nat)
      requires Valid() && id in running && running[id].summary.Some? && !running[id].resolved
      modifies this`running, this`history, this`run
      ensures Valid() && run == old(run) + [LifecycleModel.Event.HarnessCompacted(id)]
      ensures running == map[id := old(running)[id].(resolved := true)] && history.owed
      ensures Some(history.mark - 1) == old(running)[id].summary
      ensures 0 < history.mark <= |branch| && branch[history.mark - 1].Summary?
    {
      ghost var before := run;
      MarkSuccess(id);
      Record(LifecycleModel.Event.HarnessCompacted(id));
      SuccessMovesMark(due, start, before, id);
      MarkIsASummary(due, start, run);
    }

    /** Any other entry the harness appends. */
    method EntryAppended(entry: Entry)
      requires Valid() && !entry.Summary?
      modifies this`branch, this`run
      ensures Valid() && run == old(run) + [LifecycleModel.Event.EntryAppended(entry)]
      ensures branch == old(branch) + [entry]
    {
      branch := branch + [entry];
      Record(LifecycleModel.Event.EntryAppended(entry));
    }

    /** `options.onComplete?.(result)`, its `catch`, and the `finally`. */
    method ReportCompleted(id: nat, callbackThrows: bool)
      modifies this`outcomes, this`threw, this`running, this`compacting
      ensures CompactionsNow() == Finish(old(CompactionsNow()), id, callbackThrows)
    {
      outcomes := outcomes + [Outcome(id, Completed)];
      if callbackThrows {
        threw := threw + {id};
        outcomes := outcomes + [Outcome(id, Failed)];
      }
      running := running - {id};
      compacting := false;
    }

    method RereadAndReport(id: nat, read: Read, callbackThrows: bool)
      modifies this`usage, this`history, this`outcomes, this`threw, this`running, this`compacting
      ensures CompactionsNow() == Finish(old(CompactionsNow()), id, callbackThrows)
      ensures usage == Snapshot(old(usage), branch, read)
      ensures history == old(history).(owed := old(history).owed && !read.ok,
                                       lost := old(history).lost + if read.ok then 0 else 1)
    {
      SnapshotSession(read);
      if !read.ok { history := history.(lost := history.lost + 1); }
      ReportCompleted(id, callbackThrows);
    }

    method FinishCompaction(id: nat, read: Read, callbackThrows: bool)
      modifies this`usage, this`history, this`outcomes, this`threw, this`running, this`compacting
      ensures View() == FinishReread(old(View()), id, read, callbackThrows)
    {
      RereadAndReport(id, read, callbackThrows);
    }

    /** `runCompaction` once `harness.compact()` has resolved and the transcript is
        read: nothing stays in flight, the request is reported completed, and failed
        too when its callback threw, and a count read now stands on an answer. */
    method CompactionReread(id: nat, read: Read, callbackThrows: bool)
      requires Valid() && id in running && running[id].resolved
      modifies this`usage, this`history, this`outcomes, this`threw, this`running, this`compacting, this`run
      ensures Valid() && run == old(run) + [LifecycleModel.Event.CompactionReread(id, read, callbackThrows)]
      ensures running == map[] && !compacting
      ensures Reports(outcomes, id) == if callbackThrows then 2 else 1
      ensures outcomes == old(outcomes) + [Outcome(id, Completed)]
                          + if callbackThrows then [Outcome(id, Failed)] else []
      ensures usage == if read.ok then Reading(read.contextWindow, branch, read.estimate) else old(usage)
      ensures read.ok && history.successes > 0 && HasTokens(usage) ==> AnsweredSince(branch, history.mark)
    {
      ghost var before := run;
      FinishCompaction(id, read, callbackThrows);
      Record(LifecycleModel.Event.CompactionReread(id, read, callbackThrows));
      RereadSettlesRequest(due, start, before, id, read, callbackThrows);
      CountWasEarned(due, start, run);
    }

    /** The `catch` of `runCompaction`. */
    method ReportFailed(id: nat)
      modifies this`outcomes, this`running, this`compacting
      ensures CompactionsNow() == Fail(old(CompactionsNow()), id)
    {
      outcomes := outcomes + [Outcome(id, Failed)];
      running := running - {id};
      compacting := false;
    }

    /** `runCompaction` once `harness.compact()` has rejected: reported once, nothing
        in flight. */
    method CompactionFailed(id: nat)
      requires Valid() && id in running && !running[id].resolved
      modifies this`outcomes, this`running, this`compacting, this`run
      ensures Valid() && run == old(run) + [HarnessRefused(id)]
      ensures running == map[] && !compacting && Reports(outcomes, id) == 1
      ensures outcomes == old(outcomes) + [Outcome(id, Failed)]
    {
      ghost var before := run;
      ReportFailed(id);
      Record(HarnessRefused(id));
      FailureSettlesRequest(due, start, before, id);
    }

    method CompactWhenDue()
      modifies this`requests, this`outcomes, this`compacting, this`compactionReason, this`running
      ensures View() == LifecycleModel.CompactWhenDue(due, old(View()))
    {
      if usage.None? || usage.value.tokens.None? { return; }
      if !due(usage.value.tokens.value, usage.value.contextWindow) { return; }
      RunCompaction(Threshold);
    }

    // ---------------------------------------------------------- replacement

    method AcceptReplacement(wellFormed: bool) returns (taken: bool)
      modifies this`replacing, this`serving, this`accepted
      ensures ReplacementsNow() == Accept(old(ReplacementsNow()), stopped, wellFormed)
      ensures taken == Accepts(old(ReplacementsNow()), stopped, wellFormed)
    {
      if !wellFormed || replacing || stopped { return false; }
      replacing := true;
      serving := serving[accepted := Queued];
      accepted := accepted + 1;
      return true;
    }

    method AskReplacement(wellFormed: bool) returns (taken: bool)
      modifies this`replacing, this`serving, this`accepted
      ensures View() == LifecycleModel.RequestReplacement(old(View()), wellFormed)
      ensures taken == Accepts(old(ReplacementsNow()), stopped, wellFormed)
    {
      taken := AcceptReplacement(wellFormed);
    }

    /** `requestReplacement`: true exactly for a well-formed request with none pending
        on a running driver, which is then the only one in flight. */
    method RequestReplacement(wellFormed: bool) returns (taken: bool)
      requires Valid()
      modifies this`replacing, this`serving, this`accepted, this`run
      ensures Valid() && run == old(run) + [ReplacementAsked(wellFormed)]
      ensures taken <==> wellFormed && old(serving) == map[] && !stopped
      ensures taken ==> serving == map[old(accepted) := Queued] && ResultsFor(results, old(accepted)) == 0
      ensures !taken ==> serving == old(serving) && accepted == old(accepted)
    {
      ghost var before := run;
      taken := AskReplacement(wellFormed);
      Record(ReplacementAsked(wellFormed));
      TakenOrUnchanged(due, start, before, wellFormed);
    }

    method ReportReplacement(id: nat, completed: bool)
      modifies this`replacing, this`serving, this`results
      ensures ReplacementsNow() == Report(old(ReplacementsNow()), id, completed)
    {
      replacing := false;
      serving := serving - {id};
      results := results + [Result(id, completed)];
    }

    method Serve(id: nat)
      modifies this`replacing, this`serving, this`results
      ensures ReplacementsNow() == LifecycleModel.Serve(old(ReplacementsNow()), idle, pending, id)
    {
      if !idle || pending {
        ReportReplacement(id, false);
        return;
      }
      serving := serving[id := Replacing];
    }

    /** `serveReplacement` up to `replaceSession`: given up with its one result when
        the person has left the idle boundary, otherwise still the only one. */
    method ServeReplacement(id: nat)
      requires Valid() && id in serving && serving[id] == Queued
      modifies this`replacing, this`serving, this`results, this`run
      ensures Valid() && run == old(run) + [ReplacementTimer(id)]
      ensures !idle || pending ==>
                serving == map[] && ResultsFor(results, id) == 1 && results == old(results) + [Result(id, false)]
      ensures idle && !pending ==> serving == map[id := Replacing] && ResultsFor(results, id) == 0
    {
      ghost var before := run;
      Serve(id);
      Record(ReplacementTimer(id));
      TimerGivesUpOrReplaces(due, start, before, id);
    }

    /** `serveReplacement` once `replaceSession` has settled: one result, none pending. */
    method SessionReplaced(id: nat, ok: bool)
      requires Valid() && id in serving && serving[id] == Replacing
      modifies this`replacing, this`serving, this`results, this`run
      ensures Valid() && run == old(run) + [LifecycleModel.Event.SessionReplaced(id, ok)]
      ensures serving == map[] && !replacing && ResultsFor(results, id) == 1
      ensures results[|results| - 1..] == [Result(id, ok)]
    {
      ghost var before := run;
      ReportReplacement(id, ok);
      Record(LifecycleModel.Event.SessionReplaced(id, ok));
      ReplacedOnce(due, start, before, id, ok);
    }

    method HonourReplacementResult(answer: Answer) returns (taken: bool)
      modifies this`replacing, this`serving, this`accepted
      ensures View() == LifecycleModel.HandleStart(old(View()), answer)
      ensures taken == (answer.NewSession? && Accepts(old(ReplacementsNow()), stopped, answer.wellFormed))
    {
      if answer == Nothing { return false; }
      taken := AskReplacement(answer.wellFormed);
    }

    // ------------------------------------------------------ harness listeners

    method TurnStarted()
      requires Valid() && attached
      modifies this`idle, this`run
      ensures Valid() && run == old(run) + [LifecycleModel.Event.TurnStarted] && !idle
    {
      idle := false;
      Record(LifecycleModel.Event.TurnStarted);
    }

    method QueueUpdated(steer: nat, followUp: nat, nextTurn: nat)
      requires Valid() && attached
      modifies this`pending, this`run
      ensures Valid() && run == old(run) + [LifecycleModel.Event.QueueUpdated(pending)]
      ensures pending <==> steer + followUp + nextTurn > 0
    {
      pending := steer > 0 || followUp > 0 || nextTurn > 0;
      Record(LifecycleModel.Event.QueueUpdated(pending));
    }

    method BecomeIdle()
      modifies this`idle, this`awaits
      ensures idle && awaits == old(awaits).(settledReading := old(awaits).settledReading + 1)
    {
      idle := true;
      awaits := awaits.(settledReading := awaits.settledReading + 1);
    }

    method Settled()
      requires Valid() && attached
      modifies this`idle, this`awaits, this`run
      ensures Valid() && run == old(run) + [LifecycleModel.Event.Settled] && idle
      ensures awaits.settledReading == old(awaits).settledReading + 1
    {
      BecomeIdle();
      Record(LifecycleModel.Event.Settled);
    }

    method ReadForSettled(read: Read)
      requires awaits.settledReading > 0
      modifies this`awaits, this`usage, this`history
      ensures View() == TakeSnapshot(old(View()), read).(awaits := old(awaits).(
                settledReading := old(awaits).settledReading - 1, settledFiring := old(awaits).settledFiring + 1))
    {
      SnapshotSession(read);
      awaits := awaits.(settledReading := awaits.settledReading - 1, settledFiring := awaits.settledFiring + 1);
    }

    method ReadForStart(read: Read)
      requires awaits.startReading > 0
      modifies this`awaits, this`usage, this`history
      ensures View() == TakeSnapshot(old(View()), read).(awaits := old(awaits).(
                startReading := old(awaits).startReading - 1, startFiring := old(awaits).startFiring + 1))
    {
      SnapshotSession(read);
      awaits := awaits.(startReading := awaits.startReading - 1, startFiring := awaits.startFiring + 1);
    }

    /** The listener's snapshot: a count it shows stands on an answer later than the
        last successful compaction's summary. */
    method SettledRead(read: Read)
      requires Valid() && awaits.settledReading > 0
      modifies this`awaits, this`usage, this`history, this`run
      ensures Valid() && run == old(run) + [LifecycleModel.Event.SettledRead(read)]
      ensures awaits.settledFiring == old(awaits).settledFiring + 1
      ensures usage == if read.ok then Reading(read.contextWindow, branch, read.estimate) else old(usage)
      ensures read.ok && history.successes > 0 && HasTokens(usage) ==> AnsweredSince(branch, history.mark)
    {
      ReadForSettled(read);
      Record(LifecycleModel.Event.SettledRead(read));
      CountWasEarned(due, start, run);
    }

    method HandleSettled(answer: Answer)
      requires awaits.settledFiring > 0
      modifies this`awaits, this`replacing, this`serving, this`accepted,
               this`requests, this`outcomes, this`compacting, this`compactionReason, this`running
      ensures View() == LifecycleModel.HandleSettled(
                due, old(View()).(awaits := old(awaits).(settledFiring := old(awaits).settledFiring - 1)), answer)
    {
      awaits := awaits.(settledFiring := awaits.settledFiring - 1);
      var taken := HonourReplacementResult(answer);
      if taken { return; }
      CompactWhenDue();
    }

    /** The end of the `settled` listener. A well-formed replacement with none in flight on
        a running driver is then the only one, and nothing is compacted. Otherwise, over
        a count that is due, a compaction is asked for, alone in flight or refused; such
        a count, when a read has gone through since the last success, was earned by an
        answer. */
    method SettledHandled(answer: Answer)
      requires Valid() && awaits.settledFiring > 0
      modifies this`awaits, this`replacing, this`serving, this`accepted,
               this`requests, this`outcomes, this`compacting, this`compactionReason, this`running, this`run
      ensures Valid() && run == old(run) + [LifecycleModel.Event.SettledHandled(answer)]
      ensures var takes := answer.NewSession? && answer.wellFormed && old(serving) == map[] && !stopped;
              && (if takes then serving == map[old(accepted) := Queued] && ResultsFor(results, old(accepted)) == 0
                  else serving == old(serving) && accepted == old(accepted))
              && (requests > old(requests) <==> !takes && HasTokens(usage)
                                                && due(usage.value.tokens.value, usage.value.contextWindow))
      ensures requests == old(requests) ==> running == old(running) && outcomes == old(outcomes)
      ensures requests > old(requests) ==>
                if old(running) == map[] && !stopped
                then running == map[old(requests) := Compaction(Threshold, |branch|, None, false)]
                     && Reports(outcomes, old(requests)) == 0 && compactionReason == Threshold
                else running == old(running) && outcomes == old(outcomes) + [Outcome(old(requests), Refused)]
      ensures requests > old(requests) && history.successes > 0 && !history.owed ==>
                AnsweredSince(branch, history.mark)
    {
      ghost var before := run;
      HandleSettled(answer);
      Record(LifecycleModel.Event.SettledHandled(answer));
      SettlingStartsOne(due, start, before, answer);
      CountWasEarned(due, start, run);
    }

    // ------------------------------------------------------ the host's boundaries

    method Start()
      requires Valid()
      modifies this`awaits, this`run
      ensures Valid() && run == old(run) + [StartCalled] && awaits.startReading == old(awaits).startReading + 1
    {
      awaits := awaits.(startReading := awaits.startReading + 1);
      Record(StartCalled);
    }

    method StartRead(read: Read)
      requires Valid() && awaits.startReading > 0
      modifies this`awaits, this`usage, this`history, this`run
      ensures Valid() && run == old(run) + [LifecycleModel.Event.StartRead(read)]
      ensures awaits.startFiring == old(awaits).startFiring + 1
      ensures usage == if read.ok then Reading(read.contextWindow, branch, read.estimate) else old(usage)
      ensures read.ok && history.successes > 0 && HasTokens(usage) ==> AnsweredSince(branch, history.mark)
    {
      ReadForStart(read);
      Record(LifecycleModel.Event.StartRead(read));
      CountWasEarned(due, start, run);
    }

    method HandleStart(answer: Answer)
      requires awaits.startFiring > 0
      modifies this`awaits, this`replacing, this`serving, this`accepted
      ensures View() == LifecycleModel.HandleStart(
                old(View()).(awaits := old(awaits).(startFiring := old(awaits).startFiring - 1)), answer)
    {
      awaits := awaits.(startFiring := awaits.startFiring - 1);
      var _ := HonourReplacementResult(answer);
    }

    /** The end of `start`: a replacement answered by the hook is the only one in
        flight, and nothing is compacted. */
    method StartHandled(answer: Answer)
      requires Valid() && awaits.startFiring > 0
      modifies this`awaits, this`replacing, this`serving, this`accepted, this`run
      ensures Valid() && run == old(run) + [LifecycleModel.Event.StartHandled(answer)]
      ensures answer.NewSession? && answer.wellFormed && old(serving) == map[] && !stopped ==>
                serving == map[old(accepted) := Queued] && ResultsFor(results, old(accepted)) == 0
      ensures serving != old(serving) ==> old(serving) == map[] && !stopped
    {
      ghost var before := run;
      HandleStart(answer);
      Record(LifecycleModel.Event.StartHandled(answer));
      StartingAsksAtMostReplacement(due, start, before, answer);
    }

    method StopAndFire()
      modifies this`stopped, this`fires, this`firing
      ensures ClosingNow() == Close(old(ClosingNow()))
    {
      if stopped { return; }
      stopped := true;
      fires, firing := fires + 1, firing + 1;
    }

    method Detach()
      requires firing > 0
      modifies this`attached, this`firing
      ensures ClosingNow() == old(ClosingNow()).(attached := false, firing := old(firing) - 1)
    {
      attached := false;
      firing := firing - 1;
    }

    /** `shutdown` up to its `await`: however often it is called, the hook has been
        fired exactly once, and whatever is still attached waits for its handlers. */
    method Shutdown()
      requires Valid()
      modifies this`stopped, this`fires, this`firing, this`run
      ensures Valid() && run == old(run) + [ShutdownCalled]
      ensures stopped && fires == 1 && (attached <==> firing == 1)
    {
      ghost var before := run;
      StopAndFire();
      Record(ShutdownCalled);
      StoppedFiredOnce(due, start, before);
    }

    /** `shutdown` once the hook is handled: detached, for good, after its one firing. */
    method ShutdownHandled()
      requires Valid() && firing > 0
      modifies this`attached, this`firing, this`run
      ensures Valid() && run == old(run) + [LifecycleModel.Event.ShutdownHandled]
      ensures old(attached) && !attached && stopped && fires == 1 && firing == 0
    {
      ghost var before := run;
      Detach();
      Record(LifecycleModel.Event.ShutdownHandled);
      DetachedAfterFiring(due, start, before);
    }

    // --------------------------------------------------------------- delivery

    method Deliver(text: string, mode: Chained.Mode)
      requires Valid()
      modifies this`chain, this`chainRun
      ensures Valid() && chainRun == old(chainRun) + [Chained.Delivered(text, mode)]
      ensures Chained.Pushed(chainRun)
              == Chained.Pushed(old(chainRun)) + if Chained.IsBlank(text) then [] else [(text, mode)]
    {
      ghost var before := chainRun;
      if !Chained.IsBlank(text) {
        chain := chain.(jobs := chain.jobs + [Chained.Job(text, mode, Chained.Waiting)]);
      }
      RecordDelivery(Chained.Delivered(text, mode));
      assert (before + [Chained.Delivered(text, mode)])[..|before|] == before;
    }

    method CallHarness(k: nat, call: Chained.Call)
      requires k < |chain.jobs|
      modifies this`chain
      ensures chain == Chained.Issue(old(chain), k, call)
    {
      chain := chain.(jobs := chain.jobs[k := chain.jobs[k].(status := Chained.Calling(call))],
                      calls := chain.calls + [(k, call)]);
    }

    method BeginDelivery(k: nat)
      requires Chained.CanBegin(chain, k)
      modifies this`chain
      ensures chain == Chained.Begin(old(chain), k, idle)
    {
      var mode := chain.jobs[k].mode;
      if !idle && mode != Chained.NextTurn {
        CallHarness(k, if mode == Chained.Steer then Chained.Steering else Chained.FollowingUp);
        return;
      }
      CallHarness(k, Chained.Prompting);
    }

    /** `deliverOne` up to its harness call: everything before it is settled, and its
        call is the only one outstanding. */
    method DeliverOne(k: nat)
      requires Valid() && Chained.CanBegin(chain, k)
      modifies this`chain, this`chainRun
      ensures Valid() && chainRun == old(chainRun) + [Chained.Begun(k, idle)]
      ensures var mode := old(chain).jobs[k].mode;
              var call := if idle || mode.NextTurn? then Chained.Prompting
                          else if mode.Steer? then Chained.Steering else Chained.FollowingUp;
              chain.calls == old(chain).calls + [(k, call)] && chain.jobs[k].status == Chained.Calling(call)
      ensures forall j: nat :: Chained.IsOpen(chain, j) <==> j == k
      ensures forall j :: 0 <= j < k ==> Chained.IsSettled(chain.jobs[j])
    {
      BeginDelivery(k);
      RecordDelivery(Chained.Begun(k, idle));
      Chained.OnlyOpenCall(chainRun, k);
    }

    method TakeText(k: nat)
      requires Chained.IsOpen(chain, k)
      modifies this`chain
      ensures chain == Chained.Resolve(old(chain), k)
    {
      chain := chain.(jobs := chain.jobs[k := chain.jobs[k].(status := Chained.Reached(chain.jobs[k].status.call))],
                      taken := chain.taken + [k]);
    }

    /** The harness took the text: every text it took before came earlier. */
    method CallResolved(k: nat)
      requires Valid() && Chained.IsOpen(chain, k)
      modifies this`chain, this`chainRun
      ensures Valid() && chainRun == old(chainRun) + [Chained.Resolved(k)]
      ensures chain.taken == old(chain).taken + [k] && forall j :: j in old(chain).taken ==> j < k
    {
      ghost var taken := chain.taken;
      TakeText(k);
      RecordDelivery(Chained.Resolved(k));
      Chained.EveryRunIsInOrder(chainRun);
      assert chain.taken[|taken|] == k && forall i :: 0 <= i < |taken| ==> chain.taken[i] == taken[i];
    }

    method TakeRefusal(k: nat, idleRefusal: bool)
      requires Chained.IsOpen(chain, k)
      modifies this`chain
      ensures chain == Chained.Reject(old(chain), k, idleRefusal)
    {
      if chain.jobs[k].status.call != Chained.Prompting && idleRefusal {
        CallHarness(k, Chained.Prompting);
        return;
      }
      chain := chain.(jobs := chain.jobs[k := chain.jobs[k].(status := Chained.Dropped)]);
    }

    /** The two `catch` blocks: an idle refusal of a queue leaves the same text as the
        only open call, now a prompt; any other ends its link, untaken. */
    method CallRejected(k: nat, idleRefusal: bool)
      requires Valid() && Chained.IsOpen(chain, k)
      modifies this`chain, this`chainRun
      ensures Valid() && chainRun == old(chainRun) + [Chained.Rejected(k, idleRefusal)]
      ensures chain.taken == old(chain).taken && k !in chain.taken
      ensures if old(chain).jobs[k].status.call != Chained.Prompting && idleRefusal
              then chain.jobs[k].text == old(chain).jobs[k].text
                   && chain.jobs[k].status == Chained.Calling(Chained.Prompting)
                   && forall j: nat :: Chained.IsOpen(chain, j) <==> j == k
              else chain.jobs[k].status.Dropped? && Chained.RefusedOutright(chainRun, k)
    {
      TakeRefusal(k, idleRefusal);
      RecordDelivery(Chained.Rejected(k, idleRefusal));
      Chained.EveryRunIsInOrder(chainRun);
      if Chained.IsOpen(chain, k) { Chained.OnlyOpenCall(chainRun, k); }
    }
  }

  /** A compaction an idle driver is asked for, until the harness has resolved it. */
  method CompactInHarness(driver: LifecycleDriver)
    requires driver.Valid() && !driver.compacting && !driver.stopped
    modifies driver
    ensures driver.Valid() && driver.branch == old(driver.branch) + [Summary]
    ensures old(driver.requests) in driver.running && driver.running[old(driver.requests)].resolved
  {
    var id := driver.requests;
    driver.StartCompaction();
    driver.SummaryWritten(id);
    driver.HarnessCompacted(id);
  }

  /** ... and from the request to its report. */
  method CompactOnce(driver: LifecycleDriver, read: Read, callbackThrows: bool)
    requires driver.Valid() && !driver.compacting && !driver.stopped
    modifies driver
    ensures driver.Valid() && driver.branch == old(driver.branch) + [Summary] && !driver.compacting
    ensures Reports(driver.outcomes, old(driver.requests)) == if callbackThrows then 2 else 1
  {
    var id := driver.requests;
    CompactInHarness(driver);
    driver.CompactionReread(id, read, callbackThrows);
  }
}
