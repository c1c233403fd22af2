/** The delivery chain of `ExtensionLifecycle.ts`: texts pushed at a hosted person,
    one harness call at a time, waking the person when no turn is running. */
module DeliveryChain {
  import opened Runs

  datatype Mode = Steer | FollowUp | NextTurn
  datatype Call = Steering | FollowingUp | Prompting

  /** A link of the promise chain: not begun, waiting on a harness call, or settled. */
  datatype Status = Waiting | Calling(call: Call) | Reached(through: Call) | Dropped

  datatype Job = Job(text: string, mode: Mode, status: Status)

  /** The links in chain order, the jobs the harness took in the order it took
      them, and every call made to it. */
  datatype Chain = Chain(jobs: seq<Job>, taken: seq<nat>, calls: seq<(nat, Call)>)

  /** What `String.prototype.trim` removes. */
  predicate IsWhitespace(c: char) {
    || '\U{0009}' <= c <= '\U{000D}' || c == ' ' || c == '\U{00A0}' || c == '\U{1680}'
    || '\U{2000}' <= c <= '\U{200A}' || c == '\U{2028}' || c == '\U{2029}' || c == '\U{202F}'
    || c == '\U{205F}' || c == '\U{3000}' || c == '\U{FEFF}'
  }

  predicate IsBlank(text: string) { forall c :: c in text ==> IsWhitespace(c) }

  /** `String.prototype.trim`. */
  function Trim(text: string): string {
    if |text| == 0 then text
    else if IsWhitespace(text[0]) then Trim(text[1..])
    else if IsWhitespace(text[|text| - 1]) then Trim(text[..|text| - 1])
    else text
  }

  /** A text is blank exactly when trimming leaves nothing of it: one of spaces, tabs and
      line ends is, and one with a printed ASCII character anywhere is not. */
  lemma {:induction false} BlankIffNothingIsLeft(text: string)
    ensures IsBlank(text) <==> Trim(text) == ""
    ensures (forall c :: c in text ==> c in " \t\r\n") ==> IsBlank(text)
    ensures (exists c :: c in text && '!' <= c <= '~') ==> !IsBlank(text)
  {
    if |text| != 0 {
      var first, last := text[0], text[|text| - 1];
      assert first in text && last in text;
      if IsWhitespace(first) {
        BlankIffNothingIsLeft(text[1..]);
        assert text == [first] + text[1..];
      } else if IsWhitespace(last) {
        BlankIffNothingIsLeft(text[..|text| - 1]);
        assert text == text[..|text| - 1] + [last];
      }
    }
  }

  predicate IsSettled(j: Job) { j.status.Reached? || j.status.Dropped? }

  /** `deliver`: blank texts are ignored, anything else is chained untrimmed. */
  function Deliver(s: Chain, text: string, mode: Mode): Chain {
    if IsBlank(text) then s else s.(jobs := s.jobs + [Job(text, mode, Waiting)])
  }

  /** Which call `deliverOne` makes first. */
  function FirstCall(idle: bool, mode: Mode): Call {
    if idle || mode == NextTurn then Prompting else if mode == Steer then Steering else FollowingUp
  }

  function Issue(s: Chain, k: nat, call: Call): Chain
    requires k < |s.jobs|
  {
    s.(jobs := s.jobs[k := s.jobs[k].(status := Calling(call))], calls := s.calls + [(k, call)])
  }

  /** A link may begin once the one before it has settled, however it settled. */
  predicate CanBegin(s: Chain, k: nat) {
    k < |s.jobs| && s.jobs[k].status.Waiting? && (k == 0 || IsSettled(s.jobs[k - 1]))
  }

  predicate IsOpen(s: Chain, k: nat) { k < |s.jobs| && s.jobs[k].status.Calling? }

  function Begin(s: Chain, k: nat, idle: bool): Chain
    requires CanBegin(s, k)
  {
    Issue(s, k, FirstCall(idle, s.jobs[k].mode))
  }

  function Resolve(s: Chain, k: nat): Chain
    requires IsOpen(s, k)
  {
    s.(jobs := s.jobs[k := s.jobs[k].(status := Reached(s.jobs[k].status.call))], taken := s.taken + [k])
  }

  /** A queue that refuses because nothing is running falls through to a prompt;
      any other refusal is reported and the chain goes on. */
  function Reject(s: Chain, k: nat, idleRefusal: bool): Chain
    requires IsOpen(s, k)
  {
    if s.jobs[k].status.call != Prompting && idleRefusal then Issue(s, k, Prompting)
    else s.(jobs := s.jobs[k := s.jobs[k].(status := Dropped)])
  }

  datatype Event =
    | Delivered(text: string, mode: Mode)
    | Begun(k: nat, idle: bool)
    | Resolved(k: nat)
    | Rejected(k: nat, idleRefusal: bool)

  function Step(s: Chain, e: Event): Chain {
    match e
    case Delivered(text, mode) => Deliver(s, text, mode)
    case Begun(k, idle) => if CanBegin(s, k) then Begin(s, k, idle) else s
    case Resolved(k) => if IsOpen(s, k) then Resolve(s, k) else s
    case Rejected(k, idleRefusal) => if IsOpen(s, k) then Reject(s, k, idleRefusal) else s
  }

  function After(run: seq<Event>): Chain {
    if run == [] then Chain([], [], []) else Step(After(run[..|run| - 1]), run[|run| - 1])
  }

  /** The non-blank texts pushed in a run, in order. */
  function Pushed(run: seq<Event>): seq<(string, Mode)> {
    if run == [] then []
    else
      var last := run[|run| - 1];
      Pushed(run[..|run| - 1]) + if last.Delivered? && !IsBlank(last.text) then [(last.text, last.mode)] else []
  }

  /** A harness call refuses the text for a reason other than an idle queue's. */
  predicate RefusesOutright(s: Chain, e: Event, k: nat) {
    e.Rejected? && e.k == k && IsOpen(s, k) && (s.jobs[k].status.call == Prompting || !e.idleRefusal)
  }

  /** A queue refuses the text because nothing is running. */
  predicate RefusesIdle(s: Chain, e: Event, k: nat) {
    e.Rejected? && e.k == k && IsOpen(s, k) && s.jobs[k].status.call != Prompting && e.idleRefusal
  }

  ghost predicate RefusedOutright(run: seq<Event>, k: nat) { Ever(run, After, RefusesOutright, k) }

  ghost predicate RefusedIdle(run: seq<Event>, k: nat) { Ever(run, After, RefusesIdle, k) }

  // ------------------------------------------------------------------- safety

  ghost predicate InOrder(s: Chain) {
    forall i, j :: 0 <= i < j < |s.jobs| && !s.jobs[j].status.Waiting? ==> IsSettled(s.jobs[i])
  }

  ghost predicate TakenInOrder(s: Chain) {
    && (forall i, j :: 0 <= i < j < |s.taken| ==> s.taken[i] < s.taken[j])
    && (forall k :: k in s.taken <==> 0 <= k < |s.jobs| && s.jobs[k].status.Reached?)
  }

  ghost predicate MatchesPushed(s: Chain, run: seq<Event>) {
    && |s.jobs| == |Pushed(run)|
    && forall k :: 0 <= k < |s.jobs| ==> (s.jobs[k].text, s.jobs[k].mode) == Pushed(run)[k]
  }

  /** A text is dropped exactly when a call refused it outright. */
  ghost predicate DropsExplained(s: Chain, run: seq<Event>) {
    forall k: nat :: k < |s.jobs| && s.jobs[k].status.Dropped? <==> RefusedOutright(run, k)
  }

  lemma StepKeepsOrder(s: Chain, e: Event)
    requires InOrder(s) && TakenInOrder(s)
    ensures InOrder(Step(s, e)) && TakenInOrder(Step(s, e))
  {
    var t := Step(s, e);
    if e.Resolved? && IsOpen(s, e.k) {
      forall i | 0 <= i < |s.taken| ensures s.taken[i] < e.k {
        var k := s.taken[i];
        assert k in s.taken;
      }
      forall k ensures k in t.taken <==> 0 <= k < |t.jobs| && t.jobs[k].status.Reached? {
        assert k in t.taken <==> k in s.taken || k == e.k;
      }
    }
  }

  lemma StepDrops(s: Chain, e: Event, k: nat)
    ensures var t := Step(s, e);
            k < |t.jobs| && t.jobs[k].status.Dropped?
            <==> (k < |s.jobs| && s.jobs[k].status.Dropped?) || RefusesOutright(s, e, k)
  {
  }

  lemma {:induction false} DropsAreExplained(run: seq<Event>, k: nat)
    ensures k < |After(run).jobs| && After(run).jobs[k].status.Dropped? <==> RefusedOutright(run, k)
  {
    if run != [] {
      var before, e := run[..|run| - 1], run[|run| - 1];
      DropsAreExplained(before, k);
      StepDrops(After(before), e, k);
      EverOneMore(run, After, RefusesOutright, k);
    }
  }

  function Texts(jobs: seq<Job>): seq<(string, Mode)> {
    seq(|jobs|, i requires 0 <= i < |jobs| => (jobs[i].text, jobs[i].mode))
  }

  lemma StepTexts(s: Chain, e: Event)
    ensures Texts(Step(s, e).jobs)
            == Texts(s.jobs) + if e.Delivered? && !IsBlank(e.text) then [(e.text, e.mode)] else []
  {
  }

  lemma {:induction false} TextsArePushed(run: seq<Event>)
    ensures Texts(After(run).jobs) == Pushed(run)
  {
    if run != [] {
      TextsArePushed(run[..|run| - 1]);
      StepTexts(After(run[..|run| - 1]), run[|run| - 1]);
    }
  }

  lemma JobsMatchPushed(run: seq<Event>)
    ensures MatchesPushed(After(run), run)
  {
    TextsArePushed(run);
    var jobs := After(run).jobs;
    assert forall k :: 0 <= k < |jobs| ==> (jobs[k].text, jobs[k].mode) == Texts(jobs)[k];
  }

  lemma {:induction false} EveryRunIsInOrder(run: seq<Event>)
    ensures InOrder(After(run)) && TakenInOrder(After(run)) && MatchesPushed(After(run), run)
    ensures DropsExplained(After(run), run)
  {
    if run != [] {
      EveryRunIsInOrder(run[..|run| - 1]);
      StepKeepsOrder(After(run[..|run| - 1]), run[|run| - 1]);
    }
    JobsMatchPushed(run);
    forall k: nat
      ensures k < |After(run).jobs| && After(run).jobs[k].status.Dropped? <==> RefusedOutright(run, k)
    {
      DropsAreExplained(run, k);
    }
  }

  /** An open call is the only one, and everything before it is settled. */
  lemma OnlyOpenCall(run: seq<Event>, k: nat)
    requires IsOpen(After(run), k)
    ensures forall j: nat :: IsOpen(After(run), j) <==> j == k
    ensures forall j :: 0 <= j < k ==> IsSettled(After(run).jobs[j])
  {
    EveryRunIsInOrder(run);
  }

  /** No two harness calls are ever outstanding together. */
  lemma CallsDoNotOverlap(run: seq<Event>, i: nat, j: nat)
    requires IsOpen(After(run), i) && IsOpen(After(run), j)
    ensures i == j
  {
    EveryRunIsInOrder(run);
    assert i < j || i == j || j < i;
  }

  /** Each non-blank text is taken at most once and in delivery order, and a text has
      been taken exactly when its turn has come and gone and no call refused it outright. */
  lemma TextsAreTakenInOrder(run: seq<Event>)
    ensures var s := After(run);
            && (forall i, j :: 0 <= i < j < |s.taken| ==> s.taken[i] < s.taken[j])
            && (forall k :: k in s.taken ==> 0 <= k < |Pushed(run)|)
            && |s.jobs| == |Pushed(run)|
            && forall k :: 0 <= k < |Pushed(run)| ==>
                 (k in s.taken <==> IsSettled(s.jobs[k]) && !RefusedOutright(run, k))
  {
    EveryRunIsInOrder(run);
  }

  ghost predicate AllTaken(s: Chain, pushed: nat) {
    |s.taken| == pushed && forall i :: 0 <= i < pushed ==> s.taken[i] == i
  }

  lemma AllTakenIff(s: Chain)
    requires TakenInOrder(s)
    ensures AllTaken(s, |s.jobs|) <==> forall j :: j in s.jobs ==> j.status.Reached?
  {
    if forall j :: j in s.jobs ==> j.status.Reached? {
      forall k | 0 <= k < |s.jobs| ensures k in s.taken {
        assert s.jobs[k] in s.jobs;
      }
      AscendingIsCounting(s.taken, |s.jobs|);
    }
    if AllTaken(s, |s.jobs|) {
      forall k | 0 <= k < |s.jobs| ensures s.jobs[k].status.Reached? { assert s.taken[k] == k; }
    }
  }

  /** Once nothing is left to do, the harness has taken exactly the pushed texts, once
      each and in order, if and only if no call refused one outright. */
  lemma NothingIsLostIff(run: seq<Event>)
    requires forall j :: j in After(run).jobs ==> IsSettled(j)
    ensures AllTaken(After(run), |Pushed(run)|) <==> forall k: nat :: !RefusedOutright(run, k)
  {
    EveryRunIsInOrder(run);
    var s := After(run);
    AllTakenIff(s);
    if forall k: nat :: !RefusedOutright(run, k) {
      forall j | j in s.jobs ensures j.status.Reached? {
        var k :| 0 <= k < |s.jobs| && s.jobs[k] == j;
        assert !RefusedOutright(run, k);
      }
    } else {
      var k: nat :| RefusedOutright(run, k);
      assert s.jobs[k] in s.jobs;
    }
  }

  /** An ascending list of exactly the numbers below `n` starts 0, 1, 2, ... */
  lemma {:induction false} AscendingAndFull(taken: seq<nat>, n: nat, upTo: nat)
    requires forall i, j :: 0 <= i < j < |taken| ==> taken[i] < taken[j]
    requires forall k :: k in taken <==> 0 <= k < n
    requires upTo <= n
    ensures upTo <= |taken| && forall i :: 0 <= i < upTo ==> taken[i] == i
  {
    if upTo > 0 {
      AscendingAndFull(taken, n, upTo - 1);
      assert upTo - 1 in taken;
      var j :| 0 <= j < |taken| && taken[j] == upTo - 1;
      assert j >= upTo - 1;
      assert upTo > 1 ==> taken[upTo - 2] == upTo - 2;
    }
  }

  lemma AscendingIsCounting(taken: seq<nat>, n: nat)
    requires forall i, j :: 0 <= i < j < |taken| ==> taken[i] < taken[j]
    requires forall k :: k in taken <==> 0 <= k < n
    ensures |taken| == n && forall i :: 0 <= i < n ==> taken[i] == i
  {
    AscendingAndFull(taken, n, n);
    if taken != [] {
      AscendingAtLeast(taken, |taken| - 1);
      assert taken[|taken| - 1] in taken;
    }
  }

  lemma {:induction false} AscendingAtLeast(taken: seq<nat>, i: nat)
    requires forall i, j :: 0 <= i < j < |taken| ==> taken[i] < taken[j]
    requires i < |taken|
    ensures taken[i] >= i
  {
    if i > 0 {
      AscendingAtLeast(taken, i - 1);
      assert taken[i - 1] < taken[i];
    }
  }

  /** The chain never stalls of itself: while some text is not settled, a call is open
      or a link may begin. */
  lemma {:induction false} SomethingCanHappen(s: Chain, upTo: nat) returns (k: nat)
    requires upTo < |s.jobs| && !IsSettled(s.jobs[upTo])
    ensures k <= upTo && (IsOpen(s, k) || CanBegin(s, k))
  {
    if upTo == 0 || IsSettled(s.jobs[upTo - 1]) {
      k := upTo;
    } else {
      k := SomethingCanHappen(s, upTo - 1);
    }
  }

  // ---------------------------------------------------------- the calls of a text

  /** The calls made for one text, in order. */
  function CallsFor(calls: seq<(nat, Call)>, k: nat): seq<Call> {
    if calls == [] then []
    else
      var last := calls[|calls| - 1];
      CallsFor(calls[..|calls| - 1], k) + if last.0 == k then [last.1] else []
  }

  lemma CallsForOneMore(calls: seq<(nat, Call)>, j: nat, call: Call, k: nat)
    ensures CallsFor(calls + [(j, call)], k) == CallsFor(calls, k) + if j == k then [call] else []
  {
    assert (calls + [(j, call)])[..|calls|] == calls;
  }

  /** A queue, then the prompt it fell through to. */
  predicate IsFallThrough(calls: seq<Call>) { |calls| == 2 && calls[0] != Prompting && calls[1] == Prompting }

  /** The calls a text's link has made by the time it is where it is. */
  predicate CallsFit(status: Status, calls: seq<Call>) {
    match status
    case Waiting => calls == []
    case Calling(c) => calls == [c] || (IsFallThrough(calls) && c == Prompting)
    case Reached(c) => calls == [c] || (IsFallThrough(calls) && c == Prompting)
    case Dropped => |calls| == 1 || IsFallThrough(calls)
  }

  predicate CallsAreFit(s: Chain, k: nat) {
    if k < |s.jobs| then CallsFit(s.jobs[k].status, CallsFor(s.calls, k)) else CallsFor(s.calls, k) == []
  }

  lemma IssueKeepsCallsFit(s: Chain, j: nat, call: Call, k: nat)
    requires j < |s.jobs| && CallsAreFit(s, k)
    requires var now := s.jobs[j].status;
             now.Waiting? || (now.Calling? && now.call != Prompting && call == Prompting)
    ensures CallsAreFit(Issue(s, j, call), k)
    ensures IsFallThrough(CallsFor(Issue(s, j, call).calls, k))
            <==> IsFallThrough(CallsFor(s.calls, k)) || (j == k && s.jobs[j].status.Calling?)
  {
    CallsForOneMore(s.calls, j, call, k);
  }

  ghost predicate CallsStayFit(s: Chain, t: Chain, fallsThrough: bool, k: nat) {
    && CallsAreFit(t, k)
    && (IsFallThrough(CallsFor(t.calls, k)) <==> IsFallThrough(CallsFor(s.calls, k)) || fallsThrough)
  }

  lemma BeginKeepsCallsFit(s: Chain, j: nat, idle: bool, k: nat)
    requires CallsAreFit(s, k) && CanBegin(s, j)
    ensures CallsStayFit(s, Begin(s, j, idle), false, k)
  {
    IssueKeepsCallsFit(s, j, FirstCall(idle, s.jobs[j].mode), k);
  }

  lemma RejectKeepsCallsFit(s: Chain, j: nat, idleRefusal: bool, k: nat)
    requires CallsAreFit(s, k) && IsOpen(s, j)
    ensures CallsStayFit(s, Reject(s, j, idleRefusal), RefusesIdle(s, Rejected(j, idleRefusal), k), k)
  {
    if s.jobs[j].status.call != Prompting && idleRefusal { IssueKeepsCallsFit(s, j, Prompting, k); }
  }

  lemma StepKeepsCallsFit(s: Chain, e: Event, k: nat)
    requires CallsAreFit(s, k)
    ensures CallsStayFit(s, Step(s, e), RefusesIdle(s, e, k), k)
  {
    if e.Begun? && CanBegin(s, e.k) { BeginKeepsCallsFit(s, e.k, e.idle, k); }
    if e.Rejected? && IsOpen(s, e.k) { RejectKeepsCallsFit(s, e.k, e.idleRefusal, k); }
  }

  lemma {:induction false} EveryCallIsExplained(run: seq<Event>, k: nat)
    ensures CallsAreFit(After(run), k)
    ensures IsFallThrough(CallsFor(After(run).calls, k)) <==> RefusedIdle(run, k)
  {
    if run != [] {
      var before := run[..|run| - 1];
      EveryCallIsExplained(before, k);
      StepKeepsCallsFit(After(before), run[|run| - 1], k);
      EverOneMore(run, After, RefusesIdle, k);
    }
  }

  /** In every run a text costs at most two calls, and two exactly when a queue
      refused it for idleness: that queue's and then a prompt. Nothing is lost by it:
      once settled, such a text was taken through the prompt unless the prompt
      itself was refused. */
  lemma IdleRefusalLosesNothing(run: seq<Event>, k: nat)
    ensures var s := After(run); var calls := CallsFor(s.calls, k);
            && |calls| <= 2
            && (|calls| == 2 <==> RefusedIdle(run, k))
            && (RefusedIdle(run, k) ==>
                  && IsFallThrough(calls) && k < |s.jobs|
                  && (IsSettled(s.jobs[k]) && !RefusedOutright(run, k) ==>
                        s.jobs[k].status == Reached(Prompting) && k in s.taken))
  {
    EveryRunIsInOrder(run);
    EveryCallIsExplained(run, k);
  }
}
