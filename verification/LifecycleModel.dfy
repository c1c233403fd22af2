/** The hosted person's lifecycle as a state machine: what each uninterrupted
    stretch of `ExtensionLifecycle.ts`, from one `await` to the next, does to the
    driver's flags, the transcript and the work left suspended. */
module LifecycleModel {
  import opened Options
  import opened ContextReading

  // -------------------------------------------------------------- compactions

  datatype Reason = Manual | Threshold

  /** A `runCompaction` that got past its guard. `since` is the transcript length
      at that moment, `summary` where the harness wrote the summary, `resolved`
      whether `harness.compact()` has succeeded. */
  datatype Compaction = Compaction(reason: Reason, since: nat, summary: Option<nat>, resolved: bool)

  datatype Kind = Completed | Failed | Refused

  /** One report to whoever asked: `onComplete`, or `onError` (the log when there is none). */
  datatype Outcome = Outcome(request: nat, kind: Kind)

  /** The driver's flag, the compactions suspended at an `await`, and every report
      made. `threw` lists the requests whose `onComplete` threw. */
  datatype Compactions = Compactions(
    compacting: bool,
    requests: nat,
    running: map<nat, Compaction>,
    outcomes: seq<Outcome>,
    threw: set<nat>)

  /** `runCompaction` up to `harness.compact()`. */
  function Ask(c: Compactions, stopped: bool, reason: Reason, length: nat): Compactions {
    if c.compacting || stopped then
      c.(requests := c.requests + 1, outcomes := c.outcomes + [Outcome(c.requests, Refused)])
    else
      c.(requests := c.requests + 1, compacting := true,
         running := c.running[c.requests := Compaction(reason, length, None, false)])
  }

  /** The end of `runCompaction` after the harness succeeded. A throwing `onComplete`
      lands in the same `catch` and is reported as a failure too. */
  function Finish(c: Compactions, id: nat, callbackThrows: bool): Compactions {
    var once := c.outcomes + [Outcome(id, Completed)];
    c.(compacting := false, running := c.running - {id},
       outcomes := if callbackThrows then once + [Outcome(id, Failed)] else once,
       threw := if callbackThrows then c.threw + {id} else c.threw)
  }

  /** The end of `runCompaction` after the harness failed. */
  function Fail(c: Compactions, id: nat): Compactions {
    c.(compacting := false, running := c.running - {id}, outcomes := c.outcomes + [Outcome(id, Failed)])
  }

  // ------------------------------------------------------------- replacements

  /** An accepted replacement: its timer is queued, or `replaceSession` is running. */
  datatype Phase = Queued | Replacing

  datatype Result = Result(replacement: nat, completed: bool)

  datatype Replacements = Replacements(
    replacing: bool,
    accepted: nat,
    serving: map<nat, Phase>,
    results: seq<Result>)

  predicate Accepts(r: Replacements, stopped: bool, wellFormed: bool) {
    wellFormed && !r.replacing && !stopped
  }

  /** `requestReplacement`; it answers `Accepts`. */
  function Accept(r: Replacements, stopped: bool, wellFormed: bool): Replacements {
    if !Accepts(r, stopped, wellFormed) then r
    else r.(replacing := true, accepted := r.accepted + 1, serving := r.serving[r.accepted := Queued])
  }

  /** `report` inside `serveReplacement`. */
  function Report(r: Replacements, id: nat, completed: bool): Replacements {
    r.(replacing := false, serving := r.serving - {id}, results := r.results + [Result(id, completed)])
  }

  /** `serveReplacement` up to `replaceSession`: skipped when the person is no longer idle. */
  function Serve(r: Replacements, idle: bool, pending: bool, id: nat): Replacements {
    if !idle || pending then Report(r, id, false) else r.(serving := r.serving[id := Replacing])
  }

  // --------------------------------------------------------------- the driver

  /** How many `settled` and `start` calls are suspended at each of their awaits. */
  datatype Awaits = Awaits(settledReading: nat, settledFiring: nat, startReading: nat, startFiring: nat)

  datatype Closing = Closing(stopped: bool, attached: bool, fires: nat, firing: nat)

  /** Successful compactions so far, the transcript position just past the summary
      of the last one, whether no read has gone through since, and how often the
      re-read after a success failed. */
  datatype History = History(successes: nat, thresholdSuccesses: nat, mark: nat, owed: bool, lost: nat)

  datatype Driver = Driver(
    idle: bool,
    pending: bool,
    usage: Option<Usage>,
    branch: seq<Entry>,
    compactionReason: Reason,
    compactions: Compactions,
    replacements: Replacements,
    awaits: Awaits,
    closing: Closing,
    history: History)

  function Initial(branch: seq<Entry>): Driver {
    Driver(true, false, None, branch, Manual,
           Compactions(false, 0, map[], [], {}), Replacements(false, 0, map[], []),
           Awaits(0, 0, 0, 0), Closing(false, true, 0, 0), History(0, 0, 0, false, 0))
  }

  /** `harness.getModel().contextWindow`, `estimateContextTokens`, and whether the
      transcript read went through; it is one atomic read. */
  datatype Read = Read(contextWindow: Option<int>, estimate: int, ok: bool)

  /** What a `session_start` or `agent_settled` handler answered. */
  datatype Answer = Nothing | NewSession(wellFormed: bool)

  /** `shouldCompact` under the default settings: tokens, then window. */
  type Due = (int, int) -> bool

  /** `snapshotSession`: a failed read is reported and leaves the reading alone. */
  ghost function Snapshot(usage: Option<Usage>, branch: seq<Entry>, read: Read): Option<Usage> {
    if read.ok then Reading(read.contextWindow, branch, read.estimate) else usage
  }

  /** `snapshotSession` on the driver. */
  ghost function TakeSnapshot(s: Driver, read: Read): Driver {
    s.(usage := Snapshot(s.usage, s.branch, read), history := s.history.(owed := s.history.owed && !read.ok))
  }

  function RequestCompaction(s: Driver, reason: Reason): Driver {
    s.(compactions := Ask(s.compactions, s.closing.stopped, reason, |s.branch|),
       compactionReason := if s.compactions.compacting || s.closing.stopped then s.compactionReason else reason)
  }

  predicate IsDue(due: Due, usage: Option<Usage>) {
    HasTokens(usage) && due(usage.value.tokens.value, usage.value.contextWindow)
  }

  /** `compactWhenDue`. */
  function CompactWhenDue(due: Due, s: Driver): Driver {
    if IsDue(due, s.usage) then RequestCompaction(s, Threshold) else s
  }

  function RequestReplacement(s: Driver, wellFormed: bool): Driver {
    s.(replacements := Accept(s.replacements, s.closing.stopped, wellFormed))
  }

  /** The end of the `settled` listener: a replacement takes precedence over the threshold. */
  function HandleSettled(due: Due, s: Driver, answer: Answer): Driver {
    if answer.NewSession? && Accepts(s.replacements, s.closing.stopped, answer.wellFormed)
    then RequestReplacement(s, answer.wellFormed)
    else CompactWhenDue(due, s)
  }

  /** The end of `start`. */
  function HandleStart(s: Driver, answer: Answer): Driver {
    if answer.NewSession? then RequestReplacement(s, answer.wellFormed) else s
  }

  // ------------------------------------------------------------------- events

  datatype Event =
    | TurnStarted
    | QueueUpdated(pending: bool)
    | EntryAppended(entry: Entry)
    | CompactionAsked
    | SummaryWritten(id: nat)
    | HarnessCompacted(id: nat)
    | HarnessRefused(id: nat)
    | CompactionReread(id: nat, read: Read, callbackThrows: bool)
    | Settled
    | SettledRead(read: Read)
    | SettledHandled(answer: Answer)
    | StartCalled
    | StartRead(read: Read)
    | StartHandled(answer: Answer)
    | ReplacementAsked(wellFormed: bool)
    | ReplacementTimer(id: nat)
    | SessionReplaced(id: nat, ok: bool)
    | ShutdownCalled
    | ShutdownHandled

  /** When an event can happen. Listeners only hear the harness while attached,
      and only a suspended stretch can be resumed. */
  predicate Enabled(s: Driver, e: Event) {
    var running, serving := s.compactions.running, s.replacements.serving;
    match e
    case TurnStarted => s.closing.attached
    case QueueUpdated(_) => s.closing.attached
    case EntryAppended(entry) => !entry.Summary?
    case CompactionAsked => true
    case SummaryWritten(id) => id in running && running[id].summary.None?
    case HarnessCompacted(id) => id in running && running[id].summary.Some? && !running[id].resolved
    case HarnessRefused(id) => id in running && !running[id].resolved
    case CompactionReread(id, _, _) => id in running && running[id].resolved
    case Settled => s.closing.attached
    case SettledRead(_) => s.awaits.settledReading > 0
    case SettledHandled(_) => s.awaits.settledFiring > 0
    case StartCalled => true
    case StartRead(_) => s.awaits.startReading > 0
    case StartHandled(_) => s.awaits.startFiring > 0
    case ReplacementAsked(_) => true
    case ReplacementTimer(id) => id in serving && serving[id] == Queued
    case SessionReplaced(id, _) => id in serving && serving[id] == Replacing
    case ShutdownCalled => true
    case ShutdownHandled => s.closing.firing > 0
  }

  ghost function Happen(due: Due, s: Driver, e: Event): Driver
    requires Enabled(s, e)
  {
    var w := s.awaits;
    match e
    case TurnStarted => s.(idle := false)
    case QueueUpdated(pending) => s.(pending := pending)
    case EntryAppended(entry) => s.(branch := s.branch + [entry])
    case CompactionAsked => RequestCompaction(s, Manual)
    case SummaryWritten(id) => WriteSummary(s, id)
    case HarnessCompacted(id) => Succeed(s, id)
    case HarnessRefused(id) => s.(compactions := Fail(s.compactions, id))
    case CompactionReread(id, read, callbackThrows) =>
      FinishReread(s, id, read, callbackThrows)
    case Settled => s.(idle := true, awaits := w.(settledReading := w.settledReading + 1))
    case SettledRead(read) =>
      TakeSnapshot(s, read).(
        awaits := w.(settledReading := w.settledReading - 1, settledFiring := w.settledFiring + 1))
    case SettledHandled(answer) =>
      HandleSettled(due, s.(awaits := w.(settledFiring := w.settledFiring - 1)), answer)
    case StartCalled => s.(awaits := w.(startReading := w.startReading + 1))
    case StartRead(read) =>
      TakeSnapshot(s, read).(
        awaits := w.(startReading := w.startReading - 1, startFiring := w.startFiring + 1))
    case StartHandled(answer) => HandleStart(s.(awaits := w.(startFiring := w.startFiring - 1)), answer)
    case ReplacementAsked(wellFormed) => RequestReplacement(s, wellFormed)
    case ReplacementTimer(id) => s.(replacements := Serve(s.replacements, s.idle, s.pending, id))
    case SessionReplaced(id, ok) => s.(replacements := Report(s.replacements, id, ok))
    case ShutdownCalled => s.(closing := Close(s.closing))
    case ShutdownHandled => s.(closing := s.closing.(attached := false, firing := s.closing.firing - 1))
  }

  /** `harness.compact()` appends its summary to the transcript. */
  function WriteSummary(s: Driver, id: nat): Driver
    requires id in s.compactions.running
  {
    var c := s.compactions;
    s.(branch := s.branch + [Summary],
       compactions := c.(running := c.running[id := c.running[id].(summary := Some(|s.branch|))]))
  }

  /** `harness.compact()` succeeds. */
  function Succeed(s: Driver, id: nat): Driver
    requires id in s.compactions.running && s.compactions.running[id].summary.Some?
  {
    var c, h := s.compactions, s.history;
    var task := c.running[id];
    s.(compactions := c.(running := c.running[id := task.(resolved := true)]),
       history := h.(mark := task.summary.value + 1, owed := true, successes := h.successes + 1,
                     thresholdSuccesses := h.thresholdSuccesses + if task.reason == Threshold then 1 else 0))
  }

  /** The end of `runCompaction` after the harness succeeded: re-read, report, release. */
  ghost function FinishReread(s: Driver, id: nat, read: Read, callbackThrows: bool): Driver {
    var t := TakeSnapshot(s, read);
    t.(compactions := Finish(s.compactions, id, callbackThrows),
       history := t.history.(lost := t.history.lost + if read.ok then 0 else 1))
  }

  /** `shutdown` up to its `await`. */
  function Close(c: Closing): Closing {
    if c.stopped then c else c.(stopped := true, fires := c.fires + 1, firing := c.firing + 1)
  }

  /** An event that cannot happen now changes nothing. */
  ghost function Step(due: Due, s: Driver, e: Event): Driver {
    if Enabled(s, e) then Happen(due, s, e) else s
  }

  /** The state after a run of events. */
  ghost function After(due: Due, branch: seq<Entry>, run: seq<Event>): Driver {
    if run == [] then Initial(branch)
    else Step(due, After(due, branch, run[..|run| - 1]), run[|run| - 1])
  }
}
