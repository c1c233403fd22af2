/** How full the context window is (`ContextUsage.ts`): the rule that refuses to
    read a token count taken before the newest compaction. */
module ContextReading {
  import opened Options

  datatype StopReason = Finished | Aborted | Errored

  /** What the two scans look at in a transcript entry. `contextTokens` is
      `calculateContextTokens(message.usage)`. */
  datatype Entry =
    | Summary                                                     // type 'compaction'
    | AssistantMessage(stopReason: StopReason, contextTokens: int)
    | OtherMessage                                                // any other role
    | OtherEntry                                                  // any other type

  datatype Usage = Usage(tokens: Option<int>, contextWindow: int, percent: Option<real>)

  /** An assistant turn that finished and reported usage. */
  predicate Answers(e: Entry) {
    e.AssistantMessage? && e.stopReason == Finished && e.contextTokens > 0
  }

  /** Some answer stands in `branch` at or after `from`. */
  ghost predicate AnsweredSince(branch: seq<Entry>, from: int) {
    exists k :: 0 <= k < |branch| && from <= k && Answers(branch[k])
  }

  ghost predicate IsNewestSummary(branch: seq<Entry>, index: int) {
    && -1 <= index < |branch|
    && (index >= 0 ==> branch[index].Summary?)
    && forall k :: index < k < |branch| ==> !branch[k].Summary?
  }

  method LatestCompactionIndex(entries: seq<Entry>) returns (found: int)
    ensures IsNewestSummary(entries, found)
  {
    var index := |entries| - 1;
    while index >= 0
      invariant -1 <= index < |entries|
      invariant forall k :: index < k < |entries| ==> !entries[k].Summary?
    {
      if entries[index].Summary? { return index; }
      index := index - 1;
    }
    return -1;
  }

  method HasUsageAfter(entries: seq<Entry>, compactionIndex: int) returns (found: bool)
    requires -1 <= compactionIndex < |entries|
    ensures found <==> AnsweredSince(entries, compactionIndex + 1)
  {
    var index := |entries| - 1;
    while index > compactionIndex
      invariant compactionIndex <= index < |entries|
      invariant forall k :: index < k < |entries| ==> !Answers(entries[k])
    {
      if Answers(entries[index]) { return true; }
      index := index - 1;
    }
    return false;
  }

  /** The newest summary, counted from the end as the source scans. */
  function NewestSummary(branch: seq<Entry>): (index: int)
    ensures IsNewestSummary(branch, index)
  {
    if branch == [] then -1
    else if branch[|branch| - 1].Summary? then |branch| - 1
    else NewestSummary(branch[..|branch| - 1])
  }

  /** Whether a token count read from this branch describes what the window holds now. */
  ghost predicate Readable(branch: seq<Entry>) {
    NewestSummary(branch) < 0 || AnsweredSince(branch, NewestSummary(branch) + 1)
  }

  /** `contextUsage`. `estimate` is `estimateContextTokens` over the built context. */
  ghost function Reading(contextWindow: Option<int>, branch: seq<Entry>, estimate: int): Option<Usage> {
    if contextWindow.None? || contextWindow.value <= 0 then None
    else if !Readable(branch) then Some(Usage(None, contextWindow.value, None))
    else Some(Usage(Some(estimate), contextWindow.value,
                    Some(estimate as real / contextWindow.value as real * 100.0)))
  }

  method ContextUsage(contextWindow: Option<int>, branch: seq<Entry>, estimate: int) returns (reading: Option<Usage>)
    ensures reading == Reading(contextWindow, branch, estimate)
  {
    if contextWindow.None? || contextWindow.value <= 0 { return None; }
    var compactionIndex := LatestCompactionIndex(branch);
    if compactionIndex >= 0 {
      var answered := HasUsageAfter(branch, compactionIndex);
      if !answered {
        return Some(Usage(None, contextWindow.value, None));
      }
    }
    return Some(Usage(Some(estimate), contextWindow.value,
                      Some(estimate as real / contextWindow.value as real * 100.0)));
  }

  predicate HasTokens(reading: Option<Usage>) {
    reading.Some? && reading.value.tokens.Some?
  }

  /** An assistant turn that was neither aborted nor failed, and reported tokens, stands
      after position `from`. */
  ghost predicate FinishedAfter(branch: seq<Entry>, from: nat) {
    exists k :: from < k < |branch| && branch[k].AssistantMessage?
                && branch[k].stopReason != Aborted && branch[k].stopReason != Errored && branch[k].contextTokens > 0
  }

  /** A reading is given for a usable window and no other, and has a token count, with
      its share of that window in percent, exactly when every summary of the branch
      has a finished turn after it. */
  lemma CountIsGivenIff(contextWindow: Option<int>, branch: seq<Entry>, estimate: int)
    ensures var reading := Reading(contextWindow, branch, estimate);
            if contextWindow.None? || contextWindow.value <= 0 then reading == None
            else
              && reading.Some? && reading.value.contextWindow == contextWindow.value
              && (reading.value.tokens.Some?
                  <==> forall s: nat :: s < |branch| && branch[s].Summary? ==> FinishedAfter(branch, s))
              && (reading.value.tokens.None? ==> reading.value.percent == None)
              && (reading.value.tokens.Some? ==>
                    && reading.value.tokens == Some(estimate) && reading.value.percent.Some?
                    && reading.value.percent.value * contextWindow.value as real == 100.0 * estimate as real)
  {
    var newest := NewestSummary(branch);
    assert newest >= 0 ==> (AnsweredSince(branch, newest + 1) <==> FinishedAfter(branch, newest));
    forall s: nat | s < |branch| && branch[s].Summary? && FinishedAfter(branch, newest)
      ensures FinishedAfter(branch, s)
    {
      var k :| newest < k < |branch| && branch[k].AssistantMessage?
               && branch[k].stopReason != Aborted && branch[k].stopReason != Errored && branch[k].contextTokens > 0;
      assert s <= newest;
    }
  }

  /** A token count is only ever given when an answer stands after every summary. */
  lemma TokensNeedAnAnswer(contextWindow: Option<int>, branch: seq<Entry>, estimate: int, summary: nat)
    requires summary < |branch| && branch[summary].Summary?
    requires HasTokens(Reading(contextWindow, branch, estimate))
    ensures AnsweredSince(branch, summary + 1)
  {
    assert summary <= NewestSummary(branch);
  }

  /** A freshly written summary always hides the count, until an answer follows it. */
  lemma SummaryHidesTokens(contextWindow: Option<int>, branch: seq<Entry>, later: seq<Entry>, estimate: int)
    requires forall e :: e in later ==> !Answers(e)
    ensures !HasTokens(Reading(contextWindow, branch + [Summary] + later, estimate))
  {
    var all := branch + [Summary] + later;
    assert all[|branch|].Summary?;
    assert forall k :: |branch| + 1 <= k < |all| ==> all[k] in later;
    if HasTokens(Reading(contextWindow, all, estimate)) {
      TokensNeedAnAnswer(contextWindow, all, estimate, |branch|);
    }
  }
}
