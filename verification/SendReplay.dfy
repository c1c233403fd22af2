/** The replay identity of a send (`org-send-replay.ts`), and the mailbox runs it
    is for: the same words sent again are a replay inside the window and a new
    message outside it. */
module SendReplay {
  import opened Options
  import opened Separators

  const REPLAY_WINDOW_MS := 600_000
  const SCAN_LIMIT := 64

  /** A stored `createdAt`, read through `Date.parse`. */
  datatype Stamp = At(ms: int) | Unparseable(text: string)

  type Mailbox = map<string, Stamp>

  datatype Resolution = Resolution(id: string, replayedFrom: Option<Stamp>)

  // ------------------------------------------------------------ candidate ids

  function Digit(n: nat): char
    requires n < 10
  {
    '0' + n as char
  }

  function Decimal(n: nat): string {
    if n < 10 then [Digit(n)] else Decimal(n / 10) + [Digit(n % 10)]
  }

  /** `messageReplayCandidateId`. */
  function CandidateId(fingerprint: string, index: nat): string {
    if index == 0 then "msg-" + fingerprint else "msg-" + fingerprint + "-" + Decimal(index + 1)
  }

  function DigitsValue(s: string): int {
    if |s| == 0 then 0 else 10 * DigitsValue(s[..|s| - 1]) + (s[|s| - 1] as int - '0' as int)
  }

  /** Read as a decimal number, the digits give the number back. */
  lemma {:induction false} DecimalReadsBack(n: nat)
    ensures DigitsValue(Decimal(n)) == n && forall c :: c in Decimal(n) ==> '0' <= c <= '9'
  {
    if n >= 10 {
      DecimalReadsBack(n / 10);
      assert Decimal(n)[..|Decimal(n)| - 1] == Decimal(n / 10);
    } else {
      assert Decimal(n)[..0] == "";
    }
  }

  lemma DecimalIsInjective(m: nat, n: nat)
    requires Decimal(m) == Decimal(n)
    ensures m == n
  {
    DecimalReadsBack(m);
    DecimalReadsBack(n);
  }

  /** The ids of a fingerprint: bare, then numbered from 2. */
  lemma CandidateIdsInWords(fingerprint: string, index: nat)
    ensures CandidateId(fingerprint, 0) == "msg-" + fingerprint
    ensures index > 0 ==>
              exists digits :: CandidateId(fingerprint, index) == "msg-" + fingerprint + "-" + digits
                               && DigitsValue(digits) == index + 1
  {
    DecimalReadsBack(index + 1);
  }

  lemma HasHyphen(a: string, x: string)
    ensures '-' in a + "-" + x
  {
    assert (a + "-" + x)[|a|] == '-';
  }

  /** An id names one fingerprint and one index: fingerprints hold no hyphen. */
  lemma CandidateIdsAreInjective(fingerprint: string, i: nat, other: string, j: nat)
    requires '-' !in fingerprint && '-' !in other
    requires CandidateId(fingerprint, i) == CandidateId(other, j)
    ensures fingerprint == other && i == j
  {
    var a, b := CandidateId(fingerprint, i)[4..], CandidateId(other, j)[4..];
    assert a == if i == 0 then fingerprint else fingerprint + "-" + Decimal(i + 1);
    assert b == if j == 0 then other else other + "-" + Decimal(j + 1);
    HasHyphen(fingerprint, Decimal(i + 1));
    HasHyphen(other, Decimal(j + 1));
    if i > 0 && j > 0 {
      SplitAt(fingerprint, Decimal(i + 1), '-', other, Decimal(j + 1));
      DecimalIsInjective(i + 1, j + 1);
    }
  }

  // ------------------------------------------------------------ the resolution

  /** An occupied candidate inside the window: unparseable stamps and an unusable
      clock (`None`) prove nothing recent. */
  predicate IsRecent(prior: Stamp, now: Option<int>, windowMs: int) {
    prior.At? && now.Some? && now.value - prior.ms <= windowMs
  }

  function ResolveFrom(m: Mailbox, fingerprint: string, now: Option<int>, windowMs: int, index: nat): Resolution
    requires index <= SCAN_LIMIT
    decreases SCAN_LIMIT - index
  {
    var candidate := CandidateId(fingerprint, index);
    if index == SCAN_LIMIT || candidate !in m then Resolution(candidate, None)
    else if IsRecent(m[candidate], now, windowMs) then Resolution(candidate, Some(m[candidate]))
    else ResolveFrom(m, fingerprint, now, windowMs, index + 1)
  }

  /** The message stored under this id has a readable stamp, no older than the window on a
      usable clock. */
  ghost predicate IsProvenRecent(m: Mailbox, id: string, now: Option<int>, windowMs: int) {
    id in m && match m[id]
               case Unparseable(_) => false
               case At(ms) => now.Some? && now.value <= ms + windowMs
  }

  /** Resolved to candidate `k`: the first of the 64 looked at that is free, or is stored
      and proven recent and so the message replayed, and the one after them, never
      looked at, if there is none. */
  ghost predicate ResolvesTo(m: Mailbox, fingerprint: string, now: Option<int>, windowMs: int, r: Resolution, k: nat) {
    && k <= 64 && r.id == CandidateId(fingerprint, k)
    && (forall j :: 0 <= j < k ==>
          CandidateId(fingerprint, j) in m && !IsProvenRecent(m, CandidateId(fingerprint, j), now, windowMs))
    && (k < 64 && r.id in m ==> IsProvenRecent(m, r.id, now, windowMs) && r.replayedFrom == Some(m[r.id]))
    && (k == 64 || r.id !in m ==> r.replayedFrom == None)
  }

  lemma {:induction false} ResolvesToTheFirst(m: Mailbox, fingerprint: string, now: Option<int>, windowMs: int,
                                              index: nat) returns (k: nat)
    requires index <= SCAN_LIMIT
    requires forall j :: 0 <= j < index ==>
               CandidateId(fingerprint, j) in m && !IsProvenRecent(m, CandidateId(fingerprint, j), now, windowMs)
    ensures ResolvesTo(m, fingerprint, now, windowMs, ResolveFrom(m, fingerprint, now, windowMs, index), k)
    decreases SCAN_LIMIT - index
  {
    var candidate := CandidateId(fingerprint, index);
    k := index;
    if index < SCAN_LIMIT && candidate in m && !IsRecent(m[candidate], now, windowMs) {
      k := ResolvesToTheFirst(m, fingerprint, now, windowMs, index + 1);
    }
  }

  /** The loop over the candidates. */
  method ScanCandidates(m: Mailbox, fingerprint: string, now: Option<int>, windowMs: int) returns (r: Resolution)
    ensures r == ResolveFrom(m, fingerprint, now, windowMs, 0)
  {
    for index := 0 to SCAN_LIMIT
      invariant ResolveFrom(m, fingerprint, now, windowMs, 0) == ResolveFrom(m, fingerprint, now, windowMs, index)
    {
      var candidate := CandidateId(fingerprint, index);
      var prior := if candidate in m then Some(m[candidate]) else None;
      if prior.None? { return Resolution(candidate, None); }
      if prior.value.At? && now.Some? && now.value - prior.value.ms <= windowMs {
        return Resolution(candidate, Some(prior.value));
      }
    }
    return Resolution(CandidateId(fingerprint, SCAN_LIMIT), None);
  }

  /** `resolveSendReplay`; `lookup` reads the mailbox. */
  method ResolveSendReplay(m: Mailbox, fingerprint: string, now: Option<int>, windowMs: int) returns (r: Resolution)
    ensures r == ResolveFrom(m, fingerprint, now, windowMs, 0)
    ensures exists k :: ResolvesTo(m, fingerprint, now, windowMs, r, k)
  {
    r := ScanCandidates(m, fingerprint, now, windowMs);
    var k := ResolvesToTheFirst(m, fingerprint, now, windowMs, 0);
  }

  /** A send at `now`: whatever id it resolves to, only a free one is delivered under. */
  function Send(m: Mailbox, fingerprint: string, now: int): Mailbox {
    var r := ResolveFrom(m, fingerprint, Some(now), REPLAY_WINDOW_MS, 0);
    if r.id in m then m else m[r.id := At(now)]
  }

  // ---------------------------------------------------------------------- runs

  /** Delivery times, oldest first, each more than the window after the one before. */
  ghost predicate Spaced(times: seq<int>) {
    forall i, j :: 0 <= i < j < |times| ==> times[j] - times[i] > 10 * 60 * 1000
  }

  /** The mailbox holds exactly these deliveries of a fingerprint, in index order
      and with no gap. */
  ghost predicate Delivered(m: Mailbox, fingerprint: string, times: seq<int>) {
    && (forall i :: 0 <= i < |times| ==>
          CandidateId(fingerprint, i) in m && m[CandidateId(fingerprint, i)] == At(times[i]))
    && (forall i: nat :: CandidateId(fingerprint, i) in m ==> i < |times|)
  }

  predicate Repeats(times: seq<int>, now: int) {
    times != [] && now - times[|times| - 1] <= 10 * 60 * 1000
  }

  /** The scan passes every settled delivery and stops at the first recent or free one. */
  lemma {:induction false} ScanReaches(m: Mailbox, fingerprint: string, times: seq<int>, now: int, index: nat)
    requires Delivered(m, fingerprint, times) && Spaced(times) && index <= |times| <= SCAN_LIMIT
    requires times != [] ==> times[|times| - 1] <= now
    requires Repeats(times, now) ==> index < |times|
    ensures ResolveFrom(m, fingerprint, Some(now), REPLAY_WINDOW_MS, index)
         == if Repeats(times, now) then Resolution(CandidateId(fingerprint, |times| - 1), Some(At(times[|times| - 1])))
            else Resolution(CandidateId(fingerprint, |times|), None)
    decreases |times| - index
  {
    if index < |times| {
      if index < |times| - 1 {
        assert times[|times| - 1] - times[index] > REPLAY_WINDOW_MS;
      }
      if !IsRecent(At(times[index]), Some(now), REPLAY_WINDOW_MS) {
        ScanReaches(m, fingerprint, times, now, index + 1);
      }
    }
  }

  /** With at most 64 deliveries stored, a replay names the newest delivery and
      anything else gets the next free id. */
  lemma ReplayNamesTheNewest(m: Mailbox, fingerprint: string, times: seq<int>, now: int)
    requires Delivered(m, fingerprint, times) && Spaced(times) && |times| <= SCAN_LIMIT
    requires times != [] ==> times[|times| - 1] <= now
    ensures var r := ResolveFrom(m, fingerprint, Some(now), REPLAY_WINDOW_MS, 0);
            && (r.replayedFrom.Some? <==> Repeats(times, now))
            && (Repeats(times, now) ==> r.id == CandidateId(fingerprint, |times| - 1)
                                        && r.replayedFrom == Some(At(times[|times| - 1])))
            && (!Repeats(times, now) ==> r.id == CandidateId(fingerprint, |times|) && r.id !in m)
  {
    ScanReaches(m, fingerprint, times, now, 0);
  }

  datatype Sending = Sending(fingerprint: string, now: int)

  function After(run: seq<Sending>): Mailbox {
    if run == [] then map[]
    else Send(After(run[..|run| - 1]), run[|run| - 1].fingerprint, run[|run| - 1].now)
  }

  /** The sends of a fingerprint that should be delivered: the first, and each one
      more than the window after the last delivered. */
  function Distinct(run: seq<Sending>, fingerprint: string): seq<int> {
    if run == [] then []
    else
      var before, last := Distinct(run[..|run| - 1], fingerprint), run[|run| - 1];
      if last.fingerprint != fingerprint || Repeats(before, last.now) then before else before + [last.now]
  }

  ghost predicate ClockNeverGoesBack(run: seq<Sending>) {
    forall i, j :: 0 <= i < j < |run| ==> run[i].now <= run[j].now
  }

  lemma {:induction false} DistinctIsSpaced(run: seq<Sending>, fingerprint: string)
    requires ClockNeverGoesBack(run)
    ensures Spaced(Distinct(run, fingerprint))
    ensures forall t :: t in Distinct(run, fingerprint) ==> run != [] && t <= run[|run| - 1].now
  {
    if run != [] {
      var before := run[..|run| - 1];
      DistinctIsSpaced(before, fingerprint);
      if before != [] { assert before[|before| - 1] == run[|run| - 2]; }
      var times := Distinct(before, fingerprint);
      forall t | t in times ensures t <= run[|run| - 1].now {}
      if times != [] { assert times[|times| - 1] in times; }
    }
  }

  /** A send touches no candidate of another fingerprint. */
  lemma SendKeepsOthers(m: Mailbox, fingerprint: string, now: int, other: string, times: seq<int>)
    requires '-' !in fingerprint && '-' !in other && fingerprint != other && Delivered(m, other, times)
    ensures Delivered(Send(m, fingerprint, now), other, times)
  {
    ResolvesToACandidate(m, fingerprint, Some(now), REPLAY_WINDOW_MS, 0);
    forall i: nat, k: nat ensures CandidateId(other, i) != CandidateId(fingerprint, k) {
      if CandidateId(other, i) == CandidateId(fingerprint, k) {
        CandidateIdsAreInjective(other, i, fingerprint, k);
      }
    }
  }

  lemma {:induction false} ResolvesToACandidate(m: Mailbox, fingerprint: string, now: Option<int>, windowMs: int,
                                                index: nat)
    requires index <= SCAN_LIMIT
    ensures exists k: nat :: ResolveFrom(m, fingerprint, now, windowMs, index).id == CandidateId(fingerprint, k)
    decreases SCAN_LIMIT - index
  {
    var candidate := CandidateId(fingerprint, index);
    if index < SCAN_LIMIT && candidate in m && !IsRecent(m[candidate], now, windowMs) {
      ResolvesToACandidate(m, fingerprint, now, windowMs, index + 1);
    }
  }

  lemma SendDelivers(m: Mailbox, fingerprint: string, times: seq<int>, now: int)
    requires '-' !in fingerprint && Delivered(m, fingerprint, times) && Spaced(times) && |times| <= SCAN_LIMIT
    requires times != [] ==> times[|times| - 1] <= now
    ensures Delivered(Send(m, fingerprint, now), fingerprint, if Repeats(times, now) then times else times + [now])
  {
    ReplayNamesTheNewest(m, fingerprint, times, now);
    forall i: nat | CandidateId(fingerprint, i) == CandidateId(fingerprint, |times|) ensures i == |times| {
      CandidateIdsAreInjective(fingerprint, i, fingerprint, |times|);
    }
  }

  // --------------------------------------------------- past the end of the scan

  lemma {:induction false} ScanRunsOut(m: Mailbox, fingerprint: string, times: seq<int>, now: int, index: nat)
    requires Delivered(m, fingerprint, times) && Spaced(times) && |times| > SCAN_LIMIT && index <= SCAN_LIMIT
    requires times[|times| - 1] <= now
    ensures ResolveFrom(m, fingerprint, Some(now), REPLAY_WINDOW_MS, index)
         == Resolution(CandidateId(fingerprint, SCAN_LIMIT), None)
    decreases SCAN_LIMIT - index
  {
    if index < SCAN_LIMIT {
      assert times[|times| - 1] - times[index] > REPLAY_WINDOW_MS;
      ScanRunsOut(m, fingerprint, times, now, index + 1);
    }
  }

  /** A send that is not told it is a replay has a free id to be delivered under
      exactly while at most 64 deliveries are stored. The 65th takes the index the
      scan never looks at; from then on that id is returned, occupied and without
      `replayedFrom`, and nothing more is ever delivered for the fingerprint. */
  lemma FreeIdIffScanSeesAll(m: Mailbox, fingerprint: string, times: seq<int>, now: int)
    requires Delivered(m, fingerprint, times) && Spaced(times)
    requires times != [] ==> times[|times| - 1] <= now
    ensures var r := ResolveFrom(m, fingerprint, Some(now), REPLAY_WINDOW_MS, 0);
            && ((r.replayedFrom.None? ==> r.id !in m) <==> |times| <= 64)
            && (|times| > 64 ==> Send(m, fingerprint, now) == m)
  {
    if |times| <= SCAN_LIMIT {
      ReplayNamesTheNewest(m, fingerprint, times, now);
    } else {
      ScanRunsOut(m, fingerprint, times, now, 0);
    }
  }

  /** At most 65 deliveries of one fingerprint are ever told apart. */
  function Tellable(times: seq<int>): seq<int> {
    if |times| <= SCAN_LIMIT then times else times[..SCAN_LIMIT + 1]
  }

  lemma SendKeepsTellable(m: Mailbox, fingerprint: string, times: seq<int>, now: int)
    requires '-' !in fingerprint && Delivered(m, fingerprint, Tellable(times)) && Spaced(times)
    requires forall t :: t in times ==> t <= now
    ensures var next := if Repeats(times, now) then times else times + [now];
            Delivered(Send(m, fingerprint, now), fingerprint, Tellable(next))
  {
    if times != [] { assert times[|times| - 1] in times; }
    if |times| <= SCAN_LIMIT {
      SendDelivers(m, fingerprint, times, now);
      assert Tellable(times + [now]) == times + [now];
    } else {
      var kept := Tellable(times);
      assert kept[|kept| - 1] == times[SCAN_LIMIT] && times[SCAN_LIMIT] in times;
      FreeIdIffScanSeesAll(m, fingerprint, kept, now);
      assert (times + [now])[..SCAN_LIMIT + 1] == kept;
    }
  }

  lemma {:induction false} MailboxHoldsTellable(run: seq<Sending>, fingerprint: string)
    requires ClockNeverGoesBack(run) && '-' !in fingerprint && forall s :: s in run ==> '-' !in s.fingerprint
    ensures Delivered(After(run), fingerprint, Tellable(Distinct(run, fingerprint)))
  {
    if run != [] {
      var before, last := run[..|run| - 1], run[|run| - 1];
      MailboxHoldsTellable(before, fingerprint);
      assert last in run;
      var times := Distinct(before, fingerprint);
      if last.fingerprint == fingerprint {
        DistinctIsSpaced(before, fingerprint);
        if before != [] { assert before[|before| - 1] == run[|run| - 2]; }
        SendKeepsTellable(After(before), fingerprint, times, last.now);
      } else {
        SendKeepsOthers(After(before), last.fingerprint, last.now, fingerprint, Tellable(times));
      }
    }
  }

  /** Over every run of interleaved sends on a clock that never goes back, the
      mailbox holds exactly a fingerprint's distinct sends, in index order and
      without a gap, if and only if there are at most 65 of them. */
  lemma MailboxIsDistinctSends(run: seq<Sending>, fingerprint: string)
    requires ClockNeverGoesBack(run) && '-' !in fingerprint && forall s :: s in run ==> '-' !in s.fingerprint
    ensures Delivered(After(run), fingerprint, Distinct(run, fingerprint))
            <==> |Distinct(run, fingerprint)| <= 65
  {
    MailboxHoldsTellable(run, fingerprint);
    var times := Distinct(run, fingerprint);
    if |times| == SCAN_LIMIT + 1 { assert Tellable(times) == times; }
    if |times| > SCAN_LIMIT + 1 { assert CandidateId(fingerprint, SCAN_LIMIT + 1) !in After(run); }
  }
}
