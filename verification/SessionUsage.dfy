/** Session token totals (`team-ui.ts`): the fold over all entries, and the
    collector that remembers the settled prefix and re-reads only the tail. */
module SessionUsage {
  import opened Options

  /** A field of a usage record; only a finite number is ever added. */
  datatype Field = Missing | NotANumber | Infinite | Finite(value: real)

  datatype TokenUsage = TokenUsage(input: Field, output: Field, cacheRead: Field, cacheWrite: Field, costTotal: Field)

  /** What an entry holds, and which object it is: `===` looks at `identity` alone. */
  datatype Entry = Entry(identity: nat, content: Content)
  datatype Content = AssistantUsage(usage: TokenUsage) | Anything

  datatype Sums = Sums(input: real, output: real, cacheRead: real, cacheWrite: real, cost: real)
  datatype Totals = Totals(sums: Sums, cacheHitRate: Option<real>)

  const ZERO := Sums(0.0, 0.0, 0.0, 0.0, 0.0)

  function Amount(f: Field): real { if f.Finite? then f.value else 0.0 }

  /** `addSessionEntryUsage`. */
  function AddEntry(s: Sums, e: Entry): Sums {
    if e.content.Anything? then s
    else
      var u := e.content.usage;
      Sums(s.input + Amount(u.input), s.output + Amount(u.output), s.cacheRead + Amount(u.cacheRead),
           s.cacheWrite + Amount(u.cacheWrite), s.cost + Amount(u.costTotal))
  }

  /** `finishSessionUsage`. */
  function Finish(s: Sums): Totals {
    var promptTokens := s.input + s.cacheRead + s.cacheWrite;
    Totals(s, if promptTokens > 0.0 && s.cacheRead > 0.0 then Some(s.cacheRead / promptTokens * 100.0) else None)
  }

  /** A fold from the left, for any way of adding an entry. */
  function FoldWith<S>(add: (S, Entry) -> S, zero: S, entries: seq<Entry>): S {
    if |entries| == 0 then zero else add(FoldWith(add, zero, entries[..|entries| - 1]), entries[|entries| - 1])
  }

  lemma FoldOfOneMore<S>(add: (S, Entry) -> S, zero: S, s: seq<Entry>, e: Entry)
    ensures FoldWith(add, zero, s + [e]) == add(FoldWith(add, zero, s), e)
  {
    assert (s + [e])[..|s|] == s;
  }

  function Fold(entries: seq<Entry>): Sums { FoldWith(AddEntry, ZERO, entries) }

  // ------------------------------------------------------ what the totals mean

  /** The sum of one field over the assistant entries with usage, where it is a finite
      number. */
  function Sum(entries: seq<Entry>, field: TokenUsage -> Field): real {
    if |entries| == 0 then 0.0
    else
      var last := entries[|entries| - 1].content;
      Sum(entries[..|entries| - 1], field)
      + if last.AssistantUsage? && field(last.usage).Finite? then field(last.usage).value else 0.0
  }

  /** Each total is the sum of its own field. The hit rate is the share of the prompt read
      from the cache, in percent, and given only when there is any. */
  ghost predicate AreTotalsOf(totals: Totals, entries: seq<Entry>) {
    var t, rate := totals.sums, totals.cacheHitRate;
    var prompt := t.input + t.cacheRead + t.cacheWrite;
    && t.input == Sum(entries, (u: TokenUsage) => u.input)
    && t.output == Sum(entries, (u: TokenUsage) => u.output)
    && t.cacheRead == Sum(entries, (u: TokenUsage) => u.cacheRead)
    && t.cacheWrite == Sum(entries, (u: TokenUsage) => u.cacheWrite)
    && t.cost == Sum(entries, (u: TokenUsage) => u.costTotal)
    && (rate.Some? <==> t.cacheRead > 0.0 && prompt > 0.0)
    && (rate.Some? ==> rate.value * prompt == 100.0 * t.cacheRead)
  }

  lemma {:induction false} FoldIsSums(entries: seq<Entry>)
    ensures Fold(entries) == Sums(Sum(entries, (u: TokenUsage) => u.input), Sum(entries, (u: TokenUsage) => u.output),
                                  Sum(entries, (u: TokenUsage) => u.cacheRead),
                                  Sum(entries, (u: TokenUsage) => u.cacheWrite),
                                  Sum(entries, (u: TokenUsage) => u.costTotal))
  {
    if |entries| != 0 { FoldIsSums(entries[..|entries| - 1]); }
  }

  lemma FoldGivesTotals(entries: seq<Entry>)
    ensures AreTotalsOf(Finish(Fold(entries)), entries)
  {
    FoldIsSums(entries);
    var t := Fold(entries);
    var prompt := t.input + t.cacheRead + t.cacheWrite;
    if prompt > 0.0 { assert t.cacheRead / prompt * 100.0 * prompt == 100.0 * t.cacheRead; }
  }

  /** `collectSessionUsage`. */
  method CollectSessionUsage(entries: seq<Entry>) returns (totals: Totals)
    ensures totals == Finish(Fold(entries)) && AreTotalsOf(totals, entries)
  {
    var sums := ZERO;
    for i := 0 to |entries|
      invariant sums == Fold(entries[..i])
    {
      assert entries[..i + 1] == entries[..i] + [entries[i]];
      FoldOfOneMore(AddEntry, ZERO, entries[..i], entries[i]);
      sums := AddEntry(sums, entries[i]);
    }
    assert entries[..|entries|] == entries;
    totals := Finish(sums);
    FoldGivesTotals(entries);
  }

  // ------------------------------------------------------------ the collector

  function Target(entries: seq<Entry>): nat { if |entries| == 0 then 0 else |entries| - 1 }

  /** Whether the remembered prefix is given up: the array no longer reaches it, or
      its first or last object is another one. */
  predicate Resets(prefix: seq<Entry>, entries: seq<Entry>) {
    || Target(entries) < |prefix|
    || (|prefix| > 0 && (entries[0].identity != prefix[0].identity
                         || entries[|prefix| - 1].identity != prefix[|prefix| - 1].identity))
  }

  /** The entries whose sum is remembered after a call. */
  function Settled(prefix: seq<Entry>, entries: seq<Entry>): seq<Entry> {
    if Resets(prefix, entries) then entries[..Target(entries)]
    else prefix + entries[|prefix|..Target(entries)]
  }

  /** The sum a call finishes: what is settled, and the live tail. */
  function AnswerWith<S>(add: (S, Entry) -> S, zero: S, prefix: seq<Entry>, entries: seq<Entry>): S {
    var settled := FoldWith(add, zero, Settled(prefix, entries));
    if |entries| == 0 then settled else add(settled, entries[|entries| - 1])
  }

  /** The settled entries and the live tail. */
  function Counted(prefix: seq<Entry>, entries: seq<Entry>): seq<Entry> {
    Settled(prefix, entries) + if |entries| == 0 then [] else [entries[|entries| - 1]]
  }

  lemma AnswerIsTotals(prefix: seq<Entry>, entries: seq<Entry>)
    ensures AreTotalsOf(Answer(prefix, entries), Counted(prefix, entries))
  {
    var settled := Settled(prefix, entries);
    if |entries| == 0 {
      assert Counted(prefix, entries) == settled;
    } else {
      FoldOfOneMore(AddEntry, ZERO, settled, entries[|entries| - 1]);
    }
    FoldGivesTotals(Counted(prefix, entries));
  }

  /** What a call answers. */
  function Answer(prefix: seq<Entry>, entries: seq<Entry>): Totals {
    Finish(AnswerWith(AddEntry, ZERO, prefix, entries))
  }

  /** How many entries a call adds up. */
  function Work(prefix: seq<Entry>, entries: seq<Entry>): nat {
    (if Resets(prefix, entries) then Target(entries) else Target(entries) - |prefix|)
    + if |entries| == 0 then 0 else 1
  }

  class SessionUsageCollector {
    var settledCount: nat
    var firstSettledEntry: Option<nat>
    var lastSettledEntry: Option<nat>
    var settled: Sums
    ghost var prefix: seq<Entry>
    ghost var added: nat

    ghost predicate Valid()
      reads this
    {
      && settledCount == |prefix| && settled == Fold(prefix)
      && firstSettledEntry == (if prefix == [] then None else Some(prefix[0].identity))
      && lastSettledEntry == (if prefix == [] then None else Some(prefix[|prefix| - 1].identity))
    }

    constructor ()
      ensures Valid() && prefix == [] && added == 0
    {
      settledCount, firstSettledEntry, lastSettledEntry, settled := 0, None, None, ZERO;
      prefix, added := [], 0;
    }

    /** The body of the loop over newly settled entries. */
    method SettleOne(entry: Entry)
      requires Valid()
      modifies this
      ensures Valid() && prefix == old(prefix) + [entry] && added == old(added) + 1
    {
      FoldOfOneMore(AddEntry, ZERO, prefix, entry);
      settled := AddEntry(settled, entry);
      if settledCount == 0 { firstSettledEntry := Some(entry.identity); }
      lastSettledEntry := Some(entry.identity);
      settledCount := settledCount + 1;
      prefix, added := prefix + [entry], added + 1;
    }

    /** The loop over newly settled entries. */
    method SettleUpTo(entries: seq<Entry>, settledTarget: nat)
      requires Valid() && settledCount <= settledTarget <= |entries|
      modifies this
      ensures Valid() && prefix == old(prefix) + entries[|old(prefix)|..settledTarget]
      ensures added == old(added) + settledTarget - |old(prefix)|
    {
      ghost var kept := prefix;
      while settledCount < settledTarget
        invariant |kept| <= settledCount <= settledTarget
        invariant Valid() && prefix == kept + entries[|kept|..settledCount]
        invariant added == old(added) + settledCount - |kept|
      {
        SettleOne(entries[settledCount]);
        assert entries[|kept|..settledCount] == entries[|kept|..settledCount - 1] + [entries[settledCount - 1]];
      }
    }

    /** The collector's closure, up to `finishSessionUsage`. */
    method CollectSums(entries: seq<Entry>) returns (sums: Sums)
      requires Valid()
      modifies this
      ensures Valid() && prefix == Settled(old(prefix), entries)
      ensures sums == AnswerWith(AddEntry, ZERO, old(prefix), entries)
      ensures added == old(added) + Work(old(prefix), entries)
    {
      var settledTarget := if |entries| - 1 > 0 then |entries| - 1 else 0;
      var replacedPrefix := settledCount > 0 &&
        (|entries| == 0 || Some(entries[0].identity) != firstSettledEntry
         || settledCount > |entries| || Some(entries[settledCount - 1].identity) != lastSettledEntry);
      if settledTarget < settledCount || replacedPrefix {
        settledCount, firstSettledEntry, lastSettledEntry, settled := 0, None, None, ZERO;
        prefix := [];
      }
      SettleUpTo(entries, settledTarget);
      sums := settled;
      if |entries| > 0 {
        sums := AddEntry(sums, entries[|entries| - 1]);
        added := added + 1;
      }
    }

    method Collect(entries: seq<Entry>) returns (totals: Totals)
      requires Valid()
      modifies this
      ensures Valid() && prefix == Settled(old(prefix), entries)
      ensures totals == Answer(old(prefix), entries) && AreTotalsOf(totals, Counted(old(prefix), entries))
      ensures added == old(added) + Work(old(prefix), entries)
    {
      AnswerIsTotals(prefix, entries);
      var sums := CollectSums(entries);
      totals := Finish(sums);
    }
  }

  // ------------------------------------------------------- when it is exact

  predicate CancelsAt<S(==)>(add: (S, Entry) -> S, a: S, b: S, e: Entry) { add(a, e) == add(b, e) ==> a == b }

  /** Adding one entry never makes two sums equal that were not. */
  ghost predicate Injective<S(!new)>(add: (S, Entry) -> S) {
    forall a, b, e :: CancelsAt(add, a, b, e)
  }

  /** Two sums over one suffix agree exactly when the parts before it do. */
  lemma {:induction false} SuffixCancels<S(!new)>(add: (S, Entry) -> S, zero: S,
                                                  a: seq<Entry>, b: seq<Entry>, suffix: seq<Entry>)
    requires Injective(add)
    ensures FoldWith(add, zero, a + suffix) == FoldWith(add, zero, b + suffix)
            <==> FoldWith(add, zero, a) == FoldWith(add, zero, b)
  {
    if |suffix| == 0 {
      assert a + suffix == a && b + suffix == b;
    } else {
      var init, last := suffix[..|suffix| - 1], suffix[|suffix| - 1];
      SuffixCancels(add, zero, a, b, init);
      assert a + suffix == (a + init) + [last] && b + suffix == (b + init) + [last];
      FoldOfOneMore(add, zero, a + init, last);
      FoldOfOneMore(add, zero, b + init, last);
      assert CancelsAt(add, FoldWith(add, zero, a + init), FoldWith(add, zero, b + init), last);
    }
  }

  /** What a call answers, when it keeps its prefix, is the sum of that prefix and
      of the entries after it. */
  lemma KeptAnswer<S>(add: (S, Entry) -> S, zero: S, prefix: seq<Entry>, entries: seq<Entry>)
    requires !Resets(prefix, entries)
    ensures AnswerWith(add, zero, prefix, entries) == FoldWith(add, zero, prefix + entries[|prefix|..])
  {
    if |entries| != 0 {
      var last := entries[|entries| - 1];
      SplitLast(prefix, entries);
      FoldOfOneMore(add, zero, Settled(prefix, entries), last);
    }
  }

  lemma SplitLast<T>(prefix: seq<T>, s: seq<T>)
    requires |prefix| < |s|
    ensures prefix + s[|prefix|..] == (prefix + s[|prefix|..|s| - 1]) + [s[|s| - 1]]
  {
  }

  lemma ResetAnswer<S>(add: (S, Entry) -> S, zero: S, prefix: seq<Entry>, entries: seq<Entry>)
    requires Resets(prefix, entries)
    ensures AnswerWith(add, zero, prefix, entries) == FoldWith(add, zero, entries)
  {
  }

  lemma SplicedSumsAgree<S(!new)>(add: (S, Entry) -> S, zero: S, prefix: seq<Entry>, entries: seq<Entry>)
    requires Injective(add) && |prefix| <= |entries|
    ensures FoldWith(add, zero, prefix + entries[|prefix|..]) == FoldWith(add, zero, entries)
            <==> FoldWith(add, zero, prefix) == FoldWith(add, zero, entries[..|prefix|])
  {
    assert entries == entries[..|prefix|] + entries[|prefix|..];
    SuffixCancels(add, zero, prefix, entries[..|prefix|], entries[|prefix|..]);
  }

  lemma SumsAgreeIffPrefixSumsAgree<S(!new)>(add: (S, Entry) -> S, zero: S, prefix: seq<Entry>, entries: seq<Entry>)
    requires Injective(add)
    ensures AnswerWith(add, zero, prefix, entries) == FoldWith(add, zero, entries)
            <==> Resets(prefix, entries) || FoldWith(add, zero, prefix) == FoldWith(add, zero, entries[..|prefix|])
  {
    if Resets(prefix, entries) {
      ResetAnswer(add, zero, prefix, entries);
    } else {
      KeptAnswer(add, zero, prefix, entries);
      SplicedSumsAgree(add, zero, prefix, entries);
    }
  }

  lemma AddEntryIsInjective()
    ensures Injective(AddEntry)
  {
  }

  lemma FinishIsInjective(a: Sums, b: Sums)
    ensures Finish(a) == Finish(b) <==> a == b
  {
  }

  /** A call is exact precisely when it starts over or the sum it kept is still
      the sum of the entries it stands for. */
  lemma ExactIffPrefixSumsAgree(prefix: seq<Entry>, entries: seq<Entry>)
    ensures Answer(prefix, entries) == Finish(Fold(entries))
            <==> Resets(prefix, entries) || Fold(prefix) == Fold(entries[..|prefix|])
  {
    AddEntryIsInjective();
    SumsAgreeIffPrefixSumsAgree(AddEntry, ZERO, prefix, entries);
    FinishIsInjective(AnswerWith(AddEntry, ZERO, prefix, entries), Fold(entries));
  }

  /** The contract of a session's entries: append-only except for the live tail. */
  ghost predicate AppendOnly(arrays: seq<seq<Entry>>) {
    forall i :: 0 < i < |arrays| ==> arrays[i - 1][..Target(arrays[i - 1])] <= arrays[i][..Target(arrays[i])]
  }

  /** The prefix remembered after a run of calls on one collector. */
  function PrefixAfter(arrays: seq<seq<Entry>>): seq<Entry> {
    if arrays == [] then [] else Settled(PrefixAfter(arrays[..|arrays| - 1]), arrays[|arrays| - 1])
  }

  /** Entries added up since the collector last started over. */
  function WorkSinceReset(arrays: seq<seq<Entry>>): nat {
    if |arrays| == 0 then 0
    else
      var before, last := arrays[..|arrays| - 1], arrays[|arrays| - 1];
      Work(PrefixAfter(before), last) + if Resets(PrefixAfter(before), last) then 0 else WorkSinceReset(before)
  }

  /** Calls with a live tail since then, the one that started over included. */
  function TailsSinceReset(arrays: seq<seq<Entry>>): nat {
    if |arrays| == 0 then 0
    else
      var before, last := arrays[..|arrays| - 1], arrays[|arrays| - 1];
      (if |last| == 0 then 0 else 1) + if Resets(PrefixAfter(before), last) then 0 else TailsSinceReset(before)
  }

  /** Over any calls whatever, what has been added up since the collector last
      started over is each settled entry once and one tail for each call with one. */
  lemma {:induction false} SettledEntriesAreAddedOnce(arrays: seq<seq<Entry>>)
    ensures WorkSinceReset(arrays) == |PrefixAfter(arrays)| + TailsSinceReset(arrays)
  {
    if |arrays| != 0 { SettledEntriesAreAddedOnce(arrays[..|arrays| - 1]); }
  }

  /** An append-only session never starts over, and remembers exactly its settled part. */
  lemma {:induction false} AppendOnlyKeepsPrefix(arrays: seq<seq<Entry>>)
    requires AppendOnly(arrays)
    ensures arrays != [] ==>
              var before, last := arrays[..|arrays| - 1], arrays[|arrays| - 1];
              PrefixAfter(arrays) == last[..Target(last)] && !Resets(PrefixAfter(before), last)
  {
    if arrays != [] {
      var before, last := arrays[..|arrays| - 1], arrays[|arrays| - 1];
      AppendOnlyKeepsPrefix(before);
      var prefix := PrefixAfter(before);
      assert prefix <= last[..Target(last)] by {
        if before != [] { assert arrays[|arrays| - 2] == before[|before| - 1]; }
      }
      KeptPrefix(prefix, last);
    }
  }

  lemma KeptPrefix(prefix: seq<Entry>, entries: seq<Entry>)
    requires prefix <= entries[..Target(entries)]
    ensures !Resets(prefix, entries) && Settled(prefix, entries) == entries[..Target(entries)]
  {
    var settled := entries[..Target(entries)];
    assert settled == prefix + settled[|prefix|..];
    if |prefix| > 0 {
      assert prefix[0] == settled[0] == entries[0];
      assert prefix[|prefix| - 1] == settled[|prefix| - 1] == entries[|prefix| - 1];
    }
  }

  /** And every one of its answers is the full fold. */
  lemma AppendOnlyIsExact(arrays: seq<seq<Entry>>, i: nat)
    requires AppendOnly(arrays) && i < |arrays|
    ensures Answer(PrefixAfter(arrays[..i]), arrays[i]) == Finish(Fold(arrays[i]))
  {
    var before := arrays[..i];
    AppendOnlyKeepsPrefix(before);
    var prefix := PrefixAfter(before);
    assert prefix <= arrays[i][..Target(arrays[i])] by {
      if before != [] { assert arrays[i - 1] == before[|before| - 1]; }
    }
    assert arrays[i][..|prefix|] == prefix;
    ExactIffPrefixSumsAgree(prefix, arrays[i]);
  }

  /** An array that keeps the remembered prefix, no longer reaches it, or changes
      its first or last object is answered exactly, whatever came before. */
  lemma KeptOrVisiblyReplacedIsExact(prefix: seq<Entry>, entries: seq<Entry>)
    requires prefix <= entries || Target(entries) < |prefix|
             || entries[0].identity != prefix[0].identity
             || entries[|prefix| - 1].identity != prefix[|prefix| - 1].identity
    ensures Answer(prefix, entries) == Finish(Fold(entries))
  {
    ExactIffPrefixSumsAgree(prefix, entries);
    if prefix <= entries { assert entries[..|prefix|] == prefix; }
  }

  function Plus(a: Sums, b: Sums): Sums {
    Sums(a.input + b.input, a.output + b.output, a.cacheRead + b.cacheRead,
         a.cacheWrite + b.cacheWrite, a.cost + b.cost)
  }

  lemma {:induction false} FoldOfConcat(a: seq<Entry>, b: seq<Entry>)
    ensures Fold(a + b) == Plus(Fold(a), Fold(b))
  {
    if |b| == 0 {
      assert a + b == a;
    } else {
      var init, last := b[..|b| - 1], b[|b| - 1];
      FoldOfConcat(a, init);
      assert a + b == (a + init) + [last];
      FoldOfOneMore(AddEntry, ZERO, a + init, last);
    }
  }

  lemma PlusCancels(a: Sums, b: Sums, c: Sums)
    ensures Plus(a, b) == Plus(a, c) <==> b == c
  {
  }

  lemma EndCancels(a: seq<Entry>, b: seq<Entry>, end: seq<Entry>)
    ensures Fold(a + end) == Fold(b + end) <==> Fold(a) == Fold(b)
  {
    AddEntryIsInjective();
    SuffixCancels(AddEntry, ZERO, a, b, end);
  }

  lemma HeadCancels(head: seq<Entry>, a: seq<Entry>, b: seq<Entry>)
    ensures Fold(head + a) == Fold(head + b) <==> Fold(a) == Fold(b)
  {
    FoldOfConcat(head, a);
    FoldOfConcat(head, b);
    PlusCancels(Fold(head), Fold(a), Fold(b));
  }

  lemma InnerPartMatters(head: seq<Entry>, inner: seq<Entry>, other: seq<Entry>, end: seq<Entry>)
    ensures Fold(head + inner + end) == Fold(head + other + end) <==> Fold(inner) == Fold(other)
  {
    EndCancels(head + inner, head + other, end);
    HeadCancels(head, inner, other);
  }

  /** A replacement strictly inside the prefix goes unseen: the answer is then exact
      only if it happens to leave the sum of that part as it was. */
  lemma InnerReplacementIsMissed(head: seq<Entry>, inner: seq<Entry>, other: seq<Entry>, end: seq<Entry>, tail: Entry)
    requires head != [] && end != [] && |inner| == |other|
    ensures Answer(head + inner + end, head + other + end + [tail]) == Finish(Fold(head + other + end + [tail]))
            <==> Fold(inner) == Fold(other)
  {
    var prefix, entries := head + inner + end, head + other + end + [tail];
    ExactIffPrefixSumsAgree(prefix, entries);
    assert prefix[0] == head[0] == entries[0];
    assert prefix[|prefix| - 1] == end[|end| - 1] == entries[|prefix| - 1];
    assert entries[..|prefix|] == head + other + end;
    InnerPartMatters(head, inner, other, end);
  }
}
