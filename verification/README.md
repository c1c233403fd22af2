# A verified model of chief

Ten stateful or arithmetic pieces of chief, written as Dafny programs and proved
against what their code and comments promise. `dafny verify dfyconfig.toml`
checks the whole project.

| files | what they model |
|---|---|
| `AccentColor`, `AccentLuminance`, `Accents` | identity colours: RGB/HSL conversion (CSS Color Module Level 3, section 4.2.4), relative luminance (WCAG 2.1, section 6), the bisection to a target luminance, the probing allocator and the roster order it is fed |
| `ContextReading`, `LifecycleModel`, `LifecycleSafety`, `LifecycleThreshold`, `LifecyclePromises`, `DeliveryChain`, `HostedLifecycle` | a hosted person's lifecycle driver: single-flight compaction and session replacement, the context reading, shutdown, and the serial delivery chain |
| `Journal` | the rotating journal several processes append to, each with its own idea of the file's size |
| `PersonStream`, `ArrivalOrder` | the bounded, sorted, deduplicated event window, and when it depends on the order of arrival |
| `SessionUsage` | the incremental token totals |
| `FooterStore` | the footer's store cache: cursor probe, named wakes, staleness ceiling |
| `SendReplay` | the replay identity of a send, over whole runs of sends |
| `BuildGraph`, `BuildDigest`, `BuildSources`, `BuildSensitivity`, `BuildSeparation` | the build fingerprint: dependency reachability, the sources found, the bytes fed to the digest, and what changes to the sources do to them |
| `ReactiveScan` | bag matching against an allowlist, a balanced-paren scanner, and line lookup |
| `ReleaseInstall`, `ReleaseRun` | the versioned install as file-system steps with a crash possible after any of them, and the code that takes those steps |
| `Ordering`, `Paths`, `Separators`, `Runs`, `Options` | the library sort, lexicographic and path order, keys with a separator, what was once true in a run, optional values |

Code that updates objects in place is modelled by classes whose methods are proved
equal to a step function; the properties over whole runs are lemmas about that
function, and a valid `LifecycleDriver` or `Installation` carries the run that led
to it, so those lemmas hold of the object. Asynchronous code is a state machine whose events are the uninterrupted
stretches between two `await`s, so a property of every run covers every
interleaving.

## Where the code and its own account of itself part

Each of these is a lemma below, with the condition under which the code does what
it says.

- The journal's comment bounds the files by twice the cap plus one line. That holds
  of every run exactly when at most one process writes, or the cap allows no line;
  two processes reach two short of four times any cap (`Journal.DocumentedBoundIffAlone`).
- A compaction is reported through both callbacks exactly when its `onComplete`
  throws (`LifecycleSafety.ReportedTwiceIffThrew`).
- A transcript nobody has answered in since its last compaction is compacted again
  exactly when a turn settles there over a failed read while a count that is due is
  still on show, which takes a lost re-read (`LifecycleThreshold.UnansweredCompactionIff`).
- The send-replay scan delivers rather than refuses past its limit once only: the
  65th delivery takes the id the scan never looks at, and every later send of those
  words resolves to that occupied id and is not delivered (`SendReplay.FreeIdIffScanSeesAll`).
- The footer's comment caps the risk of a reused cursor at the staleness ceiling;
  each unchanged probe renews the age, so there is no cap. `FooterStore.AnswerIsCurrentIff`
  says exactly when an answer is current, `FooterStore.RefreshKeepsPinnedIff` what
  ends the old value's reign.
- A replacement strictly inside the settled prefix does not reset the usage
  collector (`SessionUsage.InnerReplacementIsMissed`).
- The event window depends on arrival order exactly when an event due a place in it,
  one with fewer than 512 strictly later, shares its id or its cursor with another
  (`ArrivalOrder.ArrivalOrderMattersIff`). The client reads the cursor out of the id
  as two numbers (`apps/web/src/services/SseClientService.ts:109-123`), so two ids
  share one when they spell it differently, as `1.5` and `1.05` do.
- The digest's separator stands between a path and its bytes but not after the
  bytes. Text files that are empty or end in a newline, at paths without newlines,
  are told apart whatever is edited, moved, added or removed
  (`BuildSeparation.LineTreesShow`), and text files at unchanged paths always are
  (`BuildSensitivity.TextEditsShow`). In general what may stand in a file decides:
  listings of text files are told apart exactly when no content goes on, in another,
  with text that can begin a path (`BuildSeparation.ListingsToldApartIff`), so a file
  without its last newline can hide a neighbour's move (`BuildSensitivity.MovedListingsCollide`);
  and where a file may hold a NUL, the contents of two or more files are not told
  apart (`BuildSensitivity.ContentsToldApartIffOneFile`).
- Releasing the version a link names takes its tree down before the new one is in
  place (`ReleaseInstall.ReleaseIsSafeIffFresh`).

## Model

| member | source | states |
|---|---|---|
| AccentColor.HexRoundTrip | packages/piing/extensions/card-style.ts:646-652 | writing a colour as `#rrggbb` and reading it back loses nothing, so comparing strings is comparing channels |
| AccentColor.TurnIsFraction | packages/piing/extensions/card-style.ts:679 | the doubled remainder, with JavaScript's truncating `%`, is the fractional part of the number of turns for every hue, negative ones included |
| AccentColor.MixesRecoverExtremes | packages/piing/extensions/card-style.ts:669-685 | `q` and `p` give back the largest and the smallest channel of the colour the saturation and lightness were computed from |
| AccentColor.ChannelsRecovered | packages/piing/extensions/card-style.ts:670-695 | in each hue sector the three weights give back red, green and blue exactly |
| AccentColor.RotateByWholeTurns | packages/piing/extensions/card-style.ts:663-702 | RGB to HSL to RGB is the identity for every colour, and so is rotation by any multiple of 360 degrees |
| AccentColor.RotationTurnsTheHue | packages/piing/extensions/card-style.ts:663-702 | rotation by any real angle: grey is fixed, and for every other colour each channel of the result is the nearest byte, ties up, to the blend of the unchanged largest and smallest channel at the hue that many degrees further round |
| AccentColor.WeightIsNearness | packages/piing/extensions/card-style.ts:686-694 | the weight in that blend is how near the hue is, the shorter way round, to red, green or blue: full up to a sixth of a turn, none from a third on, falling in proportion between |
| AccentColor.RotationIsPeriodic | packages/piing/extensions/card-style.ts:699-702 | rotation by any angle sees it only modulo a full turn |
| AccentColor.ThirdOfATurn | packages/piing/extensions/card-style.ts:678-702 | 120 degrees more hands every channel on, red to green to blue, for every colour and every angle |
| AccentColor.HalfATurn | packages/piing/extensions/card-style.ts:663-702 | 180 degrees exchanges the largest and smallest channel and mirrors the third, exactly, for every colour |
| AccentColor.HslChannelInRange | packages/piing/extensions/card-style.ts:684-695 | every channel stays between 0 and 1, so rounding gives a legal byte |
| AccentColor.LightnessIsMonotone | packages/piing/extensions/card-style.ts:678-697 | at a fixed hue and saturation more lightness never lowers any channel |
| AccentColor.CloseLightnessCloseColour | packages/piing/extensions/card-style.ts:678-697 | lightnesses less than one 510th apart make colours at most one step apart in each channel |
| AccentLuminance.CurveIsIncreasing | packages/piing/extensions/card-style.ts:706-709 | the transfer curve, its 2.4 power taken exactly as a fifth root of a twelfth power, climbs strictly over all 256 channel values from 0 to 1, across the seam at 0.04045 too |
| AccentLuminance.HalvesMeet | packages/piing/extensions/card-style.ts:708 | the straight half of the transfer curve runs on into the curved one: a step of at most a hundred-thousandth across the seam climbs, by less than a millionth |
| AccentLuminance.LuminanceIsShared | packages/piing/extensions/card-style.ts:705-711 | a colour's luminance is the sum of its channels', of which full red has 0.2126, full green 0.7152 and full blue 0.0722 |
| AccentLuminance.LuminanceIsMonotone | packages/piing/extensions/card-style.ts:705-711 | luminance never falls as lightness grows |
| AccentLuminance.LuminanceOfEnds | packages/piing/extensions/card-style.ts:705-711 | no lightness is luminance 0 and full lightness is luminance 1, whatever the hue |
| AccentLuminance.BisectLightness | packages/piing/extensions/card-style.ts:714-727 | the loop computes the bracket of the halving specification and keeps its nearer end |
| AccentLuminance.ColorWithRelativeLuminance | packages/piing/extensions/card-style.ts:713-728 | the method computes the colour `WithLuminanceIsNearest` speaks of |
| AccentLuminance.BisectBrackets | packages/piing/extensions/card-style.ts:717-721 | after any number of halvings the gap is exactly that power of one half, and its ends lie below and not below any target above 0 and up to 1 |
| AccentLuminance.NearerEndIsNearest | packages/piing/extensions/card-style.ts:722-727 | no lightness outside the final gap comes closer to the target than the end that is kept |
| AccentLuminance.WithLuminanceIsNearest | packages/piing/extensions/card-style.ts:713-728 | the colour returned has the given hue and saturation and, up to a gap of 2^-32, the lightness nearest to the target luminance |
| AccentLuminance.WithLuminanceIsANeighbour | packages/piing/extensions/card-style.ts:713-728 | for any target above 0 and up to 1 the colour returned is one of two, at most one step apart in each channel, whose luminances stand on either side of the target |
| Accents.AllocateInOrder | packages/piing/extensions/card-style.ts:790-819 | the allocator's loops compute the specification below for any palette: colours in roster order, or the position it gave up on |
| Accents.OrganizationPersonAccents | packages/piing/extensions/card-style.ts:790-819 | the same for the ten base colours, 37 degrees a lap and luminance 0.202 |
| Accents.AccentIsFirstFree | packages/piing/extensions/card-style.ts:793-807 | each person holds the first candidate of their position that everybody before them left free |
| Accents.PersonHoldsFirstFree | packages/piing/extensions/card-style.ts:790-819 | lap after lap, the person at a place holds the first of these that nobody before them holds, within 360 refusals: the base of that place, unturned on the first lap, otherwise turned by 37 degrees a lap and one more a refusal |
| Accents.PaintIsNearRawLuminance | packages/piing/extensions/card-style.ts:797-806 | a turned base is brought to luminance 0.202: it is one of two colours at most a step apart in each channel on either side of it |
| Accents.PublishedAccents | packages/piing/extensions/card-style.ts:619-626 | the palette is the ten published colours |
| Accents.FirstFreeIsFirst | packages/piing/extensions/card-style.ts:796-807 | the probes stop at the first free candidate and give up only when all 361 are held |
| Accents.AccentsAreDistinct | packages/piing/extensions/card-style.ts:802-818 | one colour per person and no two alike, for any roster and palette |
| Accents.AccentsArePrefixStable | packages/piing/extensions/card-style.ts:793-818 | a roster that grows at its end, and can still be coloured, repaints nobody |
| Accents.ExhaustedMeansEveryHueTaken | packages/piing/extensions/card-style.ts:796-807 | no candidate is free exactly when all 360 whole-degree rotations of the base are held, and the untouched base too on the first lap |
| Accents.ThrowsOnlyWhenExhausted | packages/piing/extensions/card-style.ts:808-814 | the allocator throws for a position exactly when everybody before it was coloured and they hold every colour that position could try |
| Accents.AccentPaletteIsPeriodic | packages/piing/extensions/card-style.ts:797-806 | the real palette meets what those two lemmas ask of rotation |
| Accents.HueStepsAreDistinct | packages/piing/extensions/card-style.ts:654-657 | steps of 37 degrees come back to a hue only after a whole 360 of them |
| Accents.FirstLapIsThePalette | packages/piing/extensions/card-style.ts:794-799 | any palette of distinct bases hands itself out, in order, on its first lap |
| Accents.FirstTenAreThePalette | packages/piing/extensions/card-style.ts:619-799 | up to ten people receive the ten published accents, in order and unrotated |
| Accents.IdentityOrderIsTotal | packages/piing/extensions/card-style.ts:784-787 | `createdAt`, then id, orders people totally |
| Accents.OrderIsByCreation | packages/piing/extensions/card-style.ts:783-788 | the order the allocator is fed holds everybody once, by `createdAt` and, that being equal, by id |
| Accents.GrowthAppends | packages/piing/extensions/card-style.ts:783-788 | people with a later `createdAt` sort after everyone already there, however the object lists its keys |
| Accents.GrowthKeepsColours | packages/piing/extensions/card-style.ts:783-819 | while the grown roster can be coloured, hiring people with a later `createdAt` changes nobody's place or colour |
| ContextReading.LatestCompactionIndex | apps/web/src/server/ContextUsage.ts:47-52 | finds the newest summary, or -1 when there is none |
| ContextReading.HasUsageAfter | apps/web/src/server/ContextUsage.ts:60-70 | true exactly when a finished assistant entry with positive usage stands after the summary |
| ContextReading.ContextUsage | apps/web/src/server/ContextUsage.ts:79-95 | the reading is absent without a usable window, has no token count while the newest summary is unanswered, and is the estimate otherwise |
| ContextReading.CountIsGivenIff | apps/web/src/server/ContextUsage.ts:47-95 | a reading is given exactly for a usable window, and has a token count, the estimate and its percentage of the window, exactly when every summary has a later assistant turn that was neither aborted nor failed and reported tokens |
| ContextReading.TokensNeedAnAnswer | apps/web/src/server/ContextUsage.ts:85-88 | a token count is given only when an answer stands after every summary of the branch |
| ContextReading.SummaryHidesTokens | apps/web/src/server/ContextUsage.ts:85-88 | a new summary hides the count until an answer follows it, whatever else does |
| HostedLifecycle.LifecycleDriver.constructor | apps/web/src/server/ExtensionLifecycle.ts:269-285 | a new driver is idle, attached and running, with no reading, nothing asked for, in flight or reported, at the start of its run |
| HostedLifecycle.LifecycleDriver.HoldsOfEveryDriver | apps/web/src/server/ExtensionLifecycle.ts:464-743 | of any driver at any time: at most one compaction and one replacement in flight, each flag raised exactly while there is one, no request reported more than twice and no replacement more than once, and a detached driver has fired its hook exactly once and waits for nothing |
| HostedLifecycle.LifecycleDriver.StartCompaction | apps/web/src/server/ExtensionLifecycle.ts:460-473 | the request is refused with exactly one report, a refusal, or is the only compaction in flight, manual and not yet reported |
| HostedLifecycle.LifecycleDriver.HarnessCompacted | apps/web/src/server/ExtensionLifecycle.ts:474-477 | the only compaction in flight has succeeded, the mark stands just past its summary, and a read is owed |
| HostedLifecycle.LifecycleDriver.CompactionReread | apps/web/src/server/ExtensionLifecycle.ts:475-486 | nothing is left in flight, the request has been reported completed, and failed too if its callback threw, the reading is that of the transcript now, and a count read now stands on an answer after the summary |
| HostedLifecycle.LifecycleDriver.CompactionFailed | apps/web/src/server/ExtensionLifecycle.ts:479-486 | nothing is left in flight and the request has been reported exactly once, as failed |
| HostedLifecycle.LifecycleDriver.RequestReplacement | apps/web/src/server/ExtensionLifecycle.ts:515-521 | true exactly for a well-formed request with no replacement in flight on a running driver; it is then the only one, without a result |
| HostedLifecycle.LifecycleDriver.ServeReplacement | apps/web/src/server/ExtensionLifecycle.ts:523-543 | off the idle boundary the replacement is given up with exactly one result, a failure, and none stays in flight; otherwise it is the one being served |
| HostedLifecycle.LifecycleDriver.SessionReplaced | apps/web/src/server/ExtensionLifecycle.ts:542-551 | exactly one result, the last one reported, and none in flight |
| HostedLifecycle.LifecycleDriver.SettledRead | apps/web/src/server/ExtensionLifecycle.ts:632-640 | the reading is that of the transcript now, and a count it shows stands on an answer after the last success; a failed read leaves the reading alone |
| HostedLifecycle.LifecycleDriver.SettledHandled | apps/web/src/server/ExtensionLifecycle.ts:641-647 | a well-formed replacement is taken exactly when none is in flight on a running driver, is then the only one, and nothing is compacted; otherwise a compaction is asked for exactly when the count is due, is put in flight exactly when there is none on a running driver, and is refused with a report if not; unless a read is owed such a count was earned by an answer |
| HostedLifecycle.LifecycleDriver.StartHandled | apps/web/src/server/ExtensionLifecycle.ts:728-732 | a well-formed replacement with none pending on a running driver is then the only one in flight |
| HostedLifecycle.LifecycleDriver.Shutdown | apps/web/src/server/ExtensionLifecycle.ts:734-740 | however often it is called the hook has been fired exactly once, and what is attached waits for its handlers |
| HostedLifecycle.LifecycleDriver.ShutdownHandled | apps/web/src/server/ExtensionLifecycle.ts:740-743 | a driver detaches only once, after the one firing of its hook |
| HostedLifecycle.LifecycleDriver.Deliver | apps/web/src/server/ExtensionLifecycle.ts:697-703 | the texts pushed so far grow by the text, untrimmed, unless it is blank |
| HostedLifecycle.LifecycleDriver.DeliverOne | apps/web/src/server/ExtensionLifecycle.ts:705-726 | an idle person is prompted, and so is a next-turn text; otherwise the text is steered or queued as asked; its call is the only one outstanding, and every text before it is settled |
| HostedLifecycle.LifecycleDriver.CallResolved | apps/web/src/server/ExtensionLifecycle.ts:713-726 | the harness takes the text after every text it took before, in delivery order |
| HostedLifecycle.LifecycleDriver.CallRejected | apps/web/src/server/ExtensionLifecycle.ts:717-725 | nothing is taken; an idle refusal of a queue leaves the same text as the only open call, a prompt, and any other ends it as refused outright |
| HostedLifecycle.CompactOnce | apps/web/src/server/ExtensionLifecycle.ts:460-486 | an idle driver can be taken from the request to its report, through every step of the harness |
| LifecyclePromises.RefusedOrAlone | apps/web/src/server/ExtensionLifecycle.ts:464-473 | after any run, a compaction asked for is refused with its one report or is the only one in flight, with its reason the one extensions are told |
| LifecyclePromises.SuccessMovesMark | apps/web/src/server/ExtensionLifecycle.ts:474-477 | after any run, a success puts the mark just past the summary of the only compaction in flight, and a read is owed |
| LifecyclePromises.RereadSettlesRequest | apps/web/src/server/ExtensionLifecycle.ts:475-486 | after any run, finishing a compaction leaves none in flight, its request reported completed, and failed too if its callback threw, and the transcript read again |
| LifecyclePromises.TakenOrUnchanged | apps/web/src/server/ExtensionLifecycle.ts:515-521 | after any run, a replacement asked for is taken exactly when well formed with none in flight on a running driver |
| LifecyclePromises.TimerGivesUpOrReplaces | apps/web/src/server/ExtensionLifecycle.ts:523-543 | after any run, a queued replacement ends with its one result off the idle boundary and is served otherwise |
| LifecyclePromises.SettlingStartsOne | apps/web/src/server/ExtensionLifecycle.ts:641-647 | after any run, a settled listener's answer changes the replacements exactly when it is a well-formed request, none is in flight and the driver runs, and the compactions exactly when it is not that and the count is due; a compaction starts exactly if, besides, none is in flight on a running driver, and is refused with a report otherwise |
| LifecyclePromises.StoppedFiredOnce | apps/web/src/server/ExtensionLifecycle.ts:734-743 | after any run, a stopped driver has fired its hook exactly once |
| LifecycleSafety.StepKeepsAccounts | apps/web/src/server/ExtensionLifecycle.ts:464-566 | each of the 19 events keeps the accounts of compactions, replacements and shutdown |
| LifecycleSafety.EveryRunIsAccounted | apps/web/src/server/ExtensionLifecycle.ts:464-743 | in every run: at most one compaction and one replacement in flight, the flags say exactly whether there is one; every finished compaction request reported once, or twice if its `onComplete` threw; every accepted replacement given one result and every refused one none; `session_shutdown` fired at most once and before detaching |
| LifecycleSafety.ReportedTwiceIffThrew | apps/web/src/server/ExtensionLifecycle.ts:478-483 | in every run a compaction request is reported twice if and only if its `onComplete` was called and threw |
| LifecycleSafety.ThrowingCallbackIsReportedTwice | apps/web/src/server/ExtensionLifecycle.ts:478-483 | a run in which that happens |
| LifecycleThreshold.StepKeepsGrounded | apps/web/src/server/ExtensionLifecycle.ts:426-501 | each event keeps the relation between the reading, the transcript and the compaction in flight |
| LifecycleThreshold.EveryRunIsGrounded | apps/web/src/server/ExtensionLifecycle.ts:426-647 | the relation holds in every run |
| LifecycleThreshold.ThresholdFollowsAnAnswer | apps/web/src/server/ExtensionLifecycle.ts:475-501 | in every run that lost no re-read, or has read the transcript since, a compaction started by the threshold after an earlier success follows an assistant answer later than that success's summary |
| LifecycleThreshold.ReadingEnsuresAnAnswer | apps/web/src/server/ExtensionLifecycle.ts:475-501 | in every run whose re-reads all went through, a threshold compaction after an earlier success follows an answer |
| LifecycleThreshold.BookkeepingIsHistory | apps/web/src/server/ExtensionLifecycle.ts:446-477 | the recorded number of lost re-reads, and whether a read is owed, are those of the run's events |
| LifecycleThreshold.TokensOnShowWereEarned | apps/web/src/server/ExtensionLifecycle.ts:426-449 | when the run has read the transcript since its last success, a token count on show means an answer after that summary |
| LifecycleThreshold.ThresholdCompactionsAreBounded | apps/web/src/server/ExtensionLifecycle.ts:475-501 | in every run, successful threshold compactions number at most one, the transcript's answers and the re-reads the run lost together: one compaction cannot set off an endless run of them |
| LifecycleThreshold.UnansweredCompactionIff | apps/web/src/server/ExtensionLifecycle.ts:446-501 | in any run, on a transcript unanswered since its last compaction, a turn that settles starts a threshold compaction if and only if its read fails and the count on show is due; a count can be on show there only after a lost re-read, with no read since |
| LifecycleThreshold.LostRereadCompactsAgain | apps/web/src/server/ExtensionLifecycle.ts:446-477 | such runs exist wherever the threshold can be reached: whatever due reading starts a first compaction starts a second, unanswered one after a lost re-read |
| LifecycleThreshold.StoppedStartsNothing | apps/web/src/server/ExtensionLifecycle.ts:465-517 | once stopped, whatever happens next puts no compaction and no replacement in flight |
| DeliveryChain.EveryRunIsInOrder | apps/web/src/server/ExtensionLifecycle.ts:697-726 | in every run links settle in order, the harness takes texts in order, the jobs are the non-blank texts pushed, and a text is dropped exactly when a call refused it outright |
| DeliveryChain.CallsDoNotOverlap | apps/web/src/server/ExtensionLifecycle.ts:700-702 | no two harness calls of the driver are ever outstanding together |
| DeliveryChain.BlankIffNothingIsLeft | apps/web/src/server/ExtensionLifecycle.ts:697-699 | a text is ignored exactly when trimming leaves nothing of it, so never if it has a printed ASCII character |
| DeliveryChain.SomethingCanHappen | apps/web/src/server/ExtensionLifecycle.ts:700-702 | while some text is not settled, a call is open or a link may begin: the chain never stalls of itself |
| DeliveryChain.TextsAreTakenInOrder | apps/web/src/server/ExtensionLifecycle.ts:697-726 | each non-blank text is taken at most once and in delivery order, and has been taken exactly when it is settled and no call refused it outright |
| DeliveryChain.NothingIsLostIff | apps/web/src/server/ExtensionLifecycle.ts:697-726 | a chain with nothing left to do has taken exactly the pushed texts, once each and in order, if and only if no call refused one outright |
| DeliveryChain.IdleRefusalLosesNothing | apps/web/src/server/ExtensionLifecycle.ts:712-725 | in every run a text costs at most two calls, and two, a queue and then a prompt, exactly when the queue refused it for idleness; once settled it was taken through the prompt unless the prompt was refused too |
| Journal.Producer.AppendBoundedJsonlLine | packages/piing/extensions/bus-events-bounded-append.ts:30-58 | one call changes the two files and this process's memory of them as the step function says, and nothing else |
| Journal.AppendExtends | packages/piing/extensions/bus-events-bounded-append.ts:45-57 | one call either extends the journal by its line or, rotating, gives up only the generation already rotated |
| Journal.JournalIsRecentHistory | packages/piing/extensions/bus-events-bounded-append.ts:30-58 | for any producers, interleaving, line lengths and failed renames, the two files together are always the most recent lines written, in order |
| Journal.LastLineIsOnDisk | packages/piing/extensions/bus-events-bounded-append.ts:49-55 | a line is on disk, last, when its call returns, even if the rotation could not be published |
| Journal.RotationIsNeverEager | packages/piing/extensions/bus-events-bounded-append.ts:45-48 | a rotation found the file, on disk, non-empty and too full for the line, whatever any process remembered |
| Journal.MemoryIsTrueOnceLooked | packages/piing/extensions/bus-events-bounded-append.ts:30-57 | a call by a process that remembers nothing, has no room left by what it remembers, or has more than half the cap and has not looked for 256 calls, leaves its memory the size on disk; any other call goes on from memory and rotates nothing |
| Journal.FullMemoryIsFresh | packages/piing/extensions/bus-events-bounded-append.ts:33-44 | in every run with renames succeeding, no process that remembers more than half a cap has made more than 256 calls since it looked |
| Journal.StepKeepsRemembered | packages/piing/extensions/bus-events-bounded-append.ts:33-57 | under the same conditions each producer's tracked size covers its own lines in the current file and stays within the cap |
| Journal.CurrentFileIsBounded | packages/piing/extensions/bus-events-bounded-append.ts:24-58 | with lines within the cap and renames succeeding, N producers never take the current file past N times the cap beyond what was found there |
| Journal.RotatedFileIsBounded | packages/piing/extensions/bus-events-bounded-append.ts:24-58 | under the same conditions the same bound holds of the rotated file, once it is not the one found there |
| Journal.SizesFollow | packages/piing/extensions/bus-events-bounded-append.ts:30-58 | what a call does to the two sizes depends on the sizes and the memories alone |
| Journal.LoneProducerIsExact | packages/piing/extensions/bus-events-bounded-append.ts:24-58 | under the same conditions a lone producer's tracked size is the size on disk, and both files together never exceed twice the cap when they started within it |
| Journal.TwoProducersOvershoot | packages/piing/extensions/bus-events-bounded-append.ts:24-29 | under any cap that allows a line, two producers among any number take the files to two bytes short of four times the cap with lines below it |
| Journal.DocumentedBoundIffAlone | packages/piing/extensions/bus-events-bounded-append.ts:24-29 | the documented bound, twice the cap plus one line, holds of every ordinary run on a new journal if and only if at most one process writes to it or the cap allows no line |
| PersonStream.PersonStreamStore.AddSession | apps/web/src/hooks/UsePersonStream.ts:61-66 | a known id changes and publishes nothing; any other event is sorted in, the oldest dropped beyond 512, and published once |
| PersonStream.AddKeepsWindow | apps/web/src/hooks/UsePersonStream.ts:61-66 | under the same promise, one frame keeps the store the sorted top 512 of everything received, even when it redelivers an evicted event |
| PersonStream.StoreHoldsTheWindow | apps/web/src/hooks/UsePersonStream.ts:30-66 | when an id names one event and no two events share a cursor: after any run of frames, in any order and with any redelivery, the store holds exactly the sorted top 512 of the events ever received |
| PersonStream.WindowIsUnique | apps/web/src/hooks/UsePersonStream.ts:30-66 | a set has one such window |
| PersonStream.ArrivalOrderDoesNotMatter | apps/web/src/hooks/UsePersonStream.ts:30-66 | under the same promise, two runs that receive the same set of events end in the same window |
| ArrivalOrder.WindowIsNewest | apps/web/src/hooks/UsePersonStream.ts:61-66 | without that promise: where no event due a place shares its id or cursor with another, a store sent the set in any order holds exactly the events due a place |
| ArrivalOrder.EnoughAreNewest | apps/web/src/hooks/UsePersonStream.ts:64 | as many events of a set are due a place as the window has places, or all of them |
| ArrivalOrder.ArrivalOrderMattersIff | apps/web/src/hooks/UsePersonStream.ts:30-66 | a set of events of any size ends in one window, in whatever order and however often they arrive, if and only if no event with fewer than 512 strictly later shares its id or its cursor with another |
| SessionUsage.CollectSessionUsage | packages/piing/extensions/team-ui.ts:987-1010 | each total is the sum of its own field over the assistant entries with usage, finite numbers only; the hit rate is the share of the prompt read from the cache, in percent, given exactly when both are positive |
| SessionUsage.SessionUsageCollector.SettleOne | packages/piing/extensions/team-ui.ts:1034-1040 | one settled entry joins the remembered prefix, its sum and its two guards |
| SessionUsage.SessionUsageCollector.Collect | packages/piing/extensions/team-ui.ts:1019-1045 | a call's totals are, in the same sense, those of the entries it remembers as settled and the live tail, and it adds up exactly the entries it counts as work |
| SessionUsage.ExactIffPrefixSumsAgree | packages/piing/extensions/team-ui.ts:1024-1044 | a call equals the full fold exactly when it starts over or the sum it kept is still the sum of the entries it stands for |
| SessionUsage.KeptOrVisiblyReplacedIsExact | packages/piing/extensions/team-ui.ts:1012-1033 | an array that keeps the prefix, no longer reaches it, or changes its first or last object is answered exactly, whatever came before |
| SessionUsage.SettledEntriesAreAddedOnce | packages/piing/extensions/team-ui.ts:1025-1043 | over any calls whatever, what has been added up since the collector last started over is each settled entry once plus one live tail per call |
| SessionUsage.AppendOnlyKeepsPrefix | packages/piing/extensions/team-ui.ts:1012-1018 | an append-only session never starts over, and remembers exactly its settled part |
| SessionUsage.AppendOnlyIsExact | packages/piing/extensions/team-ui.ts:1019-1045 | every answer over an append-only session is the full fold |
| SessionUsage.InnerReplacementIsMissed | packages/piing/extensions/team-ui.ts:1026-1027 | a replacement strictly inside the prefix is answered exactly only if it leaves the sum of that part as it was |
| FooterStore.FooterCache.ReadFooterStoreDocument | packages/piing/extensions/team-ui.ts:433-467 | the server is asked unless the change set is present, does not name the store, and the entry is under 60,000 ms old; what it holds is then returned and cached, except that without a change set such an entry with the server's cursor is kept and made newly read; a failed read changes nothing |
| FooterStore.KeysAreDistinct | packages/piing/extensions/team-ui.ts:439-442 | stores of different companies never share an entry |
| FooterStore.CachedValuesWereTrue | packages/piing/extensions/team-ui.ts:442-467 | in every run with honest cursors, the cached value was the server's at the time stamped on it |
| FooterStore.ServedValuesAreRecent | packages/piing/extensions/team-ui.ts:401-467 | with honest cursors, every value served was the server's less than 60 seconds ago, is the server's now whenever a read is made, and a read is skipped only for a fresh entry the wake did not name |
| FooterStore.NamedOrStaleIsCurrent | packages/piing/extensions/team-ui.ts:448-466 | a named, stale or absent store is read in full, so its answer is current even when the server reuses cursors |
| FooterStore.AnswerIsCurrentIff | packages/piing/extensions/team-ui.ts:443-466 | an answer is the server's present value if and only if the wake names the store, the entry is stale or absent, the cached value is the present one, or a blind resync finds the cursor moved |
| FooterStore.RefreshKeepsPinnedIff | packages/piing/extensions/team-ui.ts:454-464 | a reused cursor goes on hiding the new value exactly while refreshes come within the minute and do not name the store |
| FooterStore.PinnedStaysPinned | packages/piing/extensions/team-ui.ts:445-464 | over any run of such refreshes the old value is served to its end |
| FooterStore.ReusedCursorPinsTheOldValue | packages/piing/extensions/team-ui.ts:454-464 | from any state in which the server has reused the cached cursor for another value, any number of blind resyncs under a minute apart serve the old value, each making it look newly read |
| SendReplay.CandidateIdsAreInjective | packages/piing/extensions/org-send-replay.ts:35-37 | an id names one fingerprint and one index |
| SendReplay.CandidateIdsInWords | packages/piing/extensions/org-send-replay.ts:35-37 | the first id is `msg-` and the fingerprint, the others add a hyphen and their number, counted from 2, in decimal |
| SendReplay.ResolveSendReplay | packages/piing/extensions/org-send-replay.ts:54-78 | the id is the first of 64 candidates that is free or stored with a readable stamp within the window on a usable clock, and then a replay of that message; failing those it is the 65th |
| SendReplay.ReplayNamesTheNewest | packages/piing/extensions/org-send-replay.ts:61-73 | with at most 64 deliveries stored, a send is a replay exactly when the newest is within the window, names that one, and otherwise gets the next free id |
| SendReplay.FreeIdIffScanSeesAll | packages/piing/extensions/org-send-replay.ts:74-78 | every send not told it is a replay has a free id exactly while at most 64 deliveries are stored; beyond that nothing more is delivered |
| SendReplay.DistinctIsSpaced | packages/piing/extensions/org-send-replay.ts:69-71 | the sends that count as new are pairwise more than the window apart |
| SendReplay.MailboxHoldsTellable | packages/piing/extensions/org-send-replay.ts:54-78 | over every run of interleaved sends on a clock that never goes back, the mailbox holds a fingerprint's new sends, up to 65 of them, in index order and without a gap |
| SendReplay.MailboxIsDistinctSends | packages/piing/extensions/org-send-replay.ts:54-78 | it holds all of them if and only if there are at most 65 |
| BuildGraph.VisitKeepsWalkSound | apps/chiefd/crates/chiefd-daemon/build.rs:213-226 | popping an id keeps everything found reachable and everything a visited id depends on found |
| BuildGraph.SuccessorsAreDependencies | apps/chiefd/crates/chiefd-daemon/build.rs:219-225 | what the walk follows from an id is the strings its node's dependency list holds, and nothing for an id without a node or a list |
| BuildGraph.Reach | apps/chiefd/crates/chiefd-daemon/build.rs:213-226 | the worklist ends on every graph, cyclic ones included, having visited exactly the ids reachable from the root |
| BuildGraph.ListDirs | apps/chiefd/crates/chiefd-daemon/build.rs:228-233 | whatever order the hash set yields, the result is the sorted directories of the visited workspace members, each as often as it has members |
| BuildGraph.ManifestDirOfLast | apps/chiefd/crates/chiefd-daemon/build.rs:180-190 | an id stands for the parent directory of its last package's manifest, and every package must have both |
| BuildGraph.OnlyPackagesHaveDirs | apps/chiefd/crates/chiefd-daemon/build.rs:180-190 | no id but a package's stands for a directory |
| BuildGraph.GraphHoldsLast | apps/chiefd/crates/chiefd-daemon/build.rs:199-204 | an id stands for its last node |
| BuildGraph.RootIsFirstNamed | apps/chiefd/crates/chiefd-daemon/build.rs:192-197 | the root is the first package of its name |
| BuildGraph.FirstMissingIsTheError | apps/chiefd/crates/chiefd-daemon/build.rs:179-211 | the metadata is read exactly when every package is whole, one has the root's name, every node has an id and every member is a string; whatever fails first in that order is the error |
| BuildGraph.ResolveDependencyDirs | apps/chiefd/crates/chiefd-daemon/build.rs:175-259 | the first missing field is the error; otherwise the directories of the reachable members, or an error when there are none |
| BuildGraph.AnswersAgree | apps/chiefd/crates/chiefd-daemon/build.rs:213-258 | pop order and hash-map iteration leave no trace: one graph has one answer |
| BuildGraph.RootIsListed | apps/chiefd/crates/chiefd-daemon/build.rs:235-257 | a root that is a member with a manifest is listed, so an empty answer means the id formats have parted |
| BuildDigest.PushEntries | apps/chiefd/crates/chiefd-daemon/build.rs:350-357 | in any order the file system likes, a directory is replaced on the stack by what lies below it |
| BuildDigest.ListedIffSource | apps/chiefd/crates/chiefd-daemon/build.rs:267-274 | below any path exactly the files named `Cargo.toml`, `Cargo.lock` or a non-empty stem and `.rs` are listed, through directories none of which, the first included, is named `target` |
| BuildDigest.WalkSources | apps/chiefd/crates/chiefd-daemon/build.rs:267-363 | the walk finds exactly the Rust sources and Cargo files that lie below some starting point and outside `target`, each once per starting point it lies under |
| BuildDigest.FeedHasher | apps/chiefd/crates/chiefd-daemon/build.rs:366-374 | the update calls feed path, separator and bytes of every file in order |
| BuildDigest.StreamIsPathsAndBytes | apps/chiefd/crates/chiefd-daemon/build.rs:366-374 | file after file: its path from the repository root, or its whole path outside it, a NUL, its bytes |
| Paths.FirstDifferentCharacterDecides | apps/chiefd/crates/chiefd-daemon/build.rs:364 | paths sort by their first different name and names by their first different character, a directory before what is in it |
| Paths.JoinOfConcat | apps/chiefd/crates/chiefd-daemon/build.rs:371 | a path is written as its names with single slashes between |
| BuildDigest.HashInput | apps/chiefd/crates/chiefd-daemon/build.rs:337-374 | the whole input is that of the sorted list of exactly those files |
| BuildDigest.SourceListIsUnique | apps/chiefd/crates/chiefd-daemon/build.rs:364 | a tree has one sorted list of hashed files, whatever the walk order |
| BuildDigest.StrippedList | apps/chiefd/crates/chiefd-daemon/build.rs:364-371 | a checkout's list, paths taken relative to its root, is the tree's own list: component order ignores a common prefix |
| BuildDigest.CheckoutsAgree | apps/chiefd/crates/chiefd-daemon/build.rs:288-374 | where a path has one content, two checkouts of one tree at different roots, walked in any order, feed the hasher the same bytes |
| BuildSources.WrittenSourceShows | apps/chiefd/crates/chiefd-daemon/build.rs:276-374 | writing other bytes to any one Rust source or Cargo file below a starting point and outside `target` changes the bytes the digest is fed, however many starting points it lies under |
| BuildSensitivity.EditShows | apps/chiefd/crates/chiefd-daemon/build.rs:278-281 | editing one file changes the input |
| BuildSensitivity.AdditionShows | apps/chiefd/crates/chiefd-daemon/build.rs:278-281 | so does adding or removing one |
| BuildSensitivity.RenameShows | apps/chiefd/crates/chiefd-daemon/build.rs:278-281 | so does renaming one, its bytes changed or not, wherever the new name sorts |
| BuildSensitivity.TwoEditsCanHide | apps/chiefd/crates/chiefd-daemon/build.rs:371-373 | at any two neighbours of a list, two edits can leave the input as it was, if a file may hold a NUL |
| BuildSensitivity.TextEditsShow | apps/chiefd/crates/chiefd-daemon/build.rs:276-281 | any number of edits to text files shows, as long as no path changes |
| BuildSensitivity.ContentsToldApartIffOneFile | apps/chiefd/crates/chiefd-daemon/build.rs:366-374 | where any bytes may stand in a file, all contents at given paths are told apart if and only if there is at most one file |
| BuildSensitivity.MoveAndEditCanHide | apps/chiefd/crates/chiefd-daemon/build.rs:371-373 | the last character of a file can go over to the name of its neighbour's top directory unseen |
| BuildSensitivity.MovedListingsCollide | apps/chiefd/crates/chiefd-daemon/build.rs:278-281 | two different sorted listings of text files with the same input, one moved and one edited file apart |
| BuildSeparation.LineTreesShow | apps/chiefd/crates/chiefd-daemon/build.rs:276-281 | any two trees of text files that are empty or end in a newline, at paths without newlines, feed the same bytes if and only if they are the same tree: paths and contents both free |
| BuildSeparation.UnambiguousListsShow | apps/chiefd/crates/chiefd-daemon/build.rs:366-374 | text files whose bytes run into the next path in one way only are told apart, however many differ and whichever move |
| BuildSeparation.ListingsToldApartIff | apps/chiefd/crates/chiefd-daemon/build.rs:366-374 | for any kind of text content, all sorted listings are told apart if and only if no content goes on, in another, with text that can begin a path |
| BuildSeparation.BeginsPathIff | apps/chiefd/crates/chiefd-daemon/build.rs:371 | text can begin a path exactly when it holds no NUL, no slash in front and no two slashes together |
| ReactiveScan.SiteKeysAreInjective | scripts/reactive-scan.ts:347-351 | keys agree exactly when file, primitive and text all do |
| ReactiveScan.KeepSurplus | scripts/reactive-scan.ts:375-392 | either matching loop keeps, in order, the items beyond their key's budget |
| ReactiveScan.SurplusIsDifference | scripts/reactive-scan.ts:375-392 | as bags of keys, what is kept is the difference of the two sides |
| ReactiveScan.BudgetGoesToTheFirst | scripts/reactive-scan.ts:375-392 | for each key the first items, as many as its budget, are matched, and what is kept is the rest, in order |
| ReactiveScan.CompareSitesToAllowlist | scripts/reactive-scan.ts:359-395 | for every key the untriaged sites are the excess of sites over entries and the stale entries the excess of entries over sites |
| ReactiveScan.RegisterBalances | scripts/reactive-scan.ts:353-395 | both lists are empty exactly when the two bags are equal, and as many sites are matched as entries |
| ReactiveScan.ExtractCallArguments | scripts/reactive-scan.ts:188-200 | returns a balanced text between the opening paren and its closing one, or nothing exactly when there is none |
| ReactiveScan.ArgumentTextIsUnique | scripts/reactive-scan.ts:188-200 | there is at most one such text |
| ReactiveScan.LineStarts | scripts/reactive-scan.ts:254-255 | the table holds where each line begins, one entry per line |
| ReactiveScan.LineOf | scripts/reactive-scan.ts:256-264 | the binary search gives the number of newlines before the character |
| ReleaseInstall.StepKeepsSound | scripts/release-chiefd.ts:718-774 | every step keeps links repointed in order, other versions untouched and, from publishing on, the version's tree complete |
| ReleaseInstall.CrashesBreakNoLink | scripts/release-chiefd.ts:718-853 | however often releases crash and are run again, none of them of the version a link names when it begins, a link into a complete tree never leads anywhere else |
| ReleaseInstall.LinksNameOldOrNew | scripts/release-chiefd.ts:842-853 | at every point of a release each link names what it named before or the new version |
| ReleaseInstall.FinishedInstall | scripts/release-chiefd.ts:729-861 | a finished release leaves `chief`, `chiefd` and `beacond` on the new, complete version, no `chiefd-daemon`, every other entry of `bin/` as it was, and no staging directory, its own or a killed run's |
| ReleaseInstall.ReleaseIsSafeIffFresh | scripts/release-chiefd.ts:740-744 | a release can break a sound link exactly when it is of the version that link names |
| ReleaseRun.Installation.RemoveTree | scripts/release-chiefd.ts:730-743 | a recursive removal takes the tree away file by file, each removal a step a crash may follow |
| ReleaseRun.Installation.SweepStaging | scripts/release-chiefd.ts:729-734 | every staging directory goes and nothing else |
| ReleaseRun.Installation.AssembleVersionTree | scripts/release-chiefd.ts:736-738 | the payload is staged whole before anything is published |
| ReleaseRun.Installation.PublishVersion | scripts/release-chiefd.ts:718-751 | the version's tree becomes the payload, other versions stay, staging is gone |
| ReleaseRun.Installation.PointBinLink | scripts/release-chiefd.ts:763-774 | exactly one link is repointed, by a rename |
| ReleaseRun.Installation.ReleaseChiefd | scripts/release-chiefd.ts:840-863 | refused untouched exactly when the place of one of the three links is unsafe; otherwise the three links name the new, complete version, other versions and entries are as they were, and the disk got there only by steps of `ReleaseInstall` |

## Left out

- Rounding of IEEE doubles: colours, percentages, costs and the token sums are exact reals, so last-digit effects and the order-dependence of floating-point sums are not modelled.
- `localeCompare`: any total order on strings stands for it; strings it finds equal though they differ are not modelled.
- Colour strings that are not `#rrggbb`: every colour the code makes is well formed.
- The transcript read of `snapshotSession` is one atomic step that succeeds or fails; two overlapping reads finishing out of order are not modelled, since the code does not order them.
- `agent_start`, `before_agent_start`, `tool_call`, `tool_result`, `model_update` and `session_compact` hooks, beyond their effect on the idle flag: they only forward to extensions.
- Extension callbacks other than `onComplete` do not throw: an `onError` that throws escapes `runCompaction` and is not modelled.
- One driver is followed from its start to its shutdown; a replaced session gets a new driver of its own.
- What the harness does inside `compact`, `prompt`, `steer` and `followUp`, and `shouldCompact`'s arithmetic: they belong to a library that is not part of this model; the threshold is any function of tokens and window.
- That a pushed text is eventually taken: nothing is claimed about time, only about what has happened so far.
- The journal's bounds do not cover failed renames and lines longer than the cap, which the code lets through by design; `Journal.JournalIsRecentHistory` covers both.
- A journal append that itself fails, for want of space say: the call then throws and is not modelled.
- UTF-8 encoding of journal lines, paths and sources: a line is its byte count, a file's bytes are a string, and `to_string_lossy` is the identity.
- `setChannel`, `setState`, `setHost`, `noteReorg` and subscription in the person stream: plain field updates.
- Overlapping asynchronous footer reads: each read is one step.
- A server that reuses cursors has no freshness bound; `FooterStore.ReusedCursorPinsTheOldValue` shows why.
- `SendReplay.MailboxIsDistinctSends` assumes parseable stamps and a clock that never goes back; `SendReplay.ResolveSendReplay` covers unparseable stamps and an unusable clock for a single call. Broadcasts, whose lookup asks several mailboxes, are one mailbox here. The skip of occupied recipients is that of `organization-intercom.ts`.
- Running `cargo metadata`, symbolic links and permission errors in the source walk, and SHA-256 itself: the model ends at the bytes fed to it.
- Comment filtering, regular expressions and the rest of `reactive-scan.ts`.
- Manifest hashing, resource shims, cargo, toolchains and linkers in `release-chiefd.ts`; a version's payload is a set of files.
- The clean-up of `launcher-root` and the Founder skill copy after the links are placed.
- Two releases running at the same time: the code takes no lock.
- The Rust daemon, clients, route handlers, React providers, card and footer text: rendering and plumbing with only shallow claims, or source that is not part of this model.
