/** The footer's store cache (`team-ui.ts`): a read is skipped when the event that
    woke the footer named other stores, probed by sequence number on a blind
    resync, and always made once the entry is a minute old. */
module FooterStore {
  import opened Options
  import opened Separators

  /** One server aggregate: its value (`None` when absent) and its cursor. */
  datatype Doc = Doc(value: Option<string>, version: Option<nat>)

  datatype Cached = Cached(value: Option<string>, readAt: int, version: Option<nat>)

  const STALE_AFTER_MS := 60_000

  /** What woke the refresh, as far as one store can tell. */
  datatype Wake = Blind | NamedThis | NamedOthers

  datatype Served = Served(value: Option<string>, cached: Cached, didRead: bool)

  predicate IsFresh(cached: Option<Cached>, now: int) {
    cached.Some? && now - cached.value.readAt < STALE_AFTER_MS
  }

  /** The cursor sent as `ifSeqNot`: only a blind resync within the bound probes. */
  function Probe(cached: Option<Cached>, now: int, wake: Wake): Option<nat> {
    if wake == Blind && IsFresh(cached, now) then cached.value.version else None
  }

  /** The server answers "unchanged" exactly when its cursor is the one probed. */
  predicate Unchanged(server: Doc, probe: Option<nat>) {
    probe.Some? && server.version == probe
  }

  /** `readFooterStoreDocument`, the read taken as one step; `None` when it throws. */
  function Refresh(cached: Option<Cached>, now: int, wake: Wake, server: Doc, reachable: bool): Option<Served> {
    if wake == NamedOthers && IsFresh(cached, now) then
      Some(Served(cached.value.value, cached.value, false))
    else if !reachable then None
    else if Unchanged(server, Probe(cached, now, wake)) then
      Some(Served(cached.value.value, Cached(cached.value.value, now, server.version), true))
    else
      Some(Served(server.value, Cached(server.value, now, server.version), true))
  }

  function Key(companyKey: string, storeName: string): string { companyKey + "|" + storeName }

  class FooterCache {
    var documents: map<string, Cached>
    /** How often the server has been asked. */
    var asked: nat

    constructor ()
      ensures documents == map[] && asked == 0
    {
      documents, asked := map[], 0;
    }

    function Held(key: string): Option<Cached>
      reads this
    {
      if key in documents then Some(documents[key]) else None
    }

    static function WakeFor(changedStores: Option<set<string>>, storeName: string): Wake {
      if changedStores.None? then Blind else if storeName in changedStores.value then NamedThis else NamedOthers
    }

    /** `server` is what a read would find at the moment it is made. The server is asked
        unless the wake named stores, not this one, and the entry is under a minute old.
        What it holds is then returned and cached, except that a blind resync over such
        an entry, finding the cursor where it was, keeps the cached value and makes it
        newly read. */
    method ReadFooterStoreDocument(companyKey: string, storeName: string, changedStores: Option<set<string>>,
                                   now: int, server: Doc, reachable: bool)
      returns (result: Option<Option<string>>)
      modifies this
      ensures var served := Refresh(old(Held(Key(companyKey, storeName))), now, WakeFor(changedStores, storeName),
                                    server, reachable);
              && result == (if served.None? then None else Some(served.value.value))
              && documents == if served.None? then old(documents)
                              else old(documents)[Key(companyKey, storeName) := served.value.cached]
      ensures var key := Key(companyKey, storeName);
              var kept := key in old(documents) && now - old(documents)[key].readAt < 60_000;
              if changedStores.Some? && storeName !in changedStores.value && kept then
                && asked == old(asked)
                && result == Some(old(documents)[key].value) && documents == old(documents)
              else
                && asked == old(asked) + 1
                && (!reachable ==> result == None && documents == old(documents))
                && (reachable ==>
                      if changedStores.None? && kept && server.version.Some?
                         && server.version == old(documents)[key].version
                      then && result == Some(old(documents)[key].value)
                           && documents == old(documents)[key := Cached(old(documents)[key].value, now, server.version)]
                      else && result == Some(server.value)
                           && documents == old(documents)[key := Cached(server.value, now, server.version)])
    {
      var key := Key(companyKey, storeName);
      var cached := Held(key);
      var isFresh := cached.Some? && now - cached.value.readAt < STALE_AFTER_MS;
      if changedStores.Some? && storeName !in changedStores.value && isFresh {
        assert documents == documents[key := cached.value];
        return Some(cached.value.value);
      }
      var probe := if changedStores.None? && isFresh then cached.value.version else None;
      asked := asked + 1;
      if !reachable { return None; }
      if probe.Some? && server.version == probe {
        documents := documents[key := Cached(cached.value.value, now, server.version)];
        return Some(cached.value.value);
      }
      documents := documents[key := Cached(server.value, now, server.version)];
      result := Some(server.value);
    }
  }

  /** Stores of different companies never share an entry: company keys hold no bar. */
  lemma KeysAreDistinct(company: string, store: string, otherCompany: string, otherStore: string)
    requires '|' !in company && '|' !in otherCompany
    requires Key(company, store) == Key(otherCompany, otherStore)
    ensures company == otherCompany && store == otherStore
  {
    SplitAt(company, store, '|', otherCompany, otherStore);
  }

  // -------------------------------------------------------------------- runs

  /** What the server held at one time. */
  datatype Moment = Moment(at: int, doc: Doc)

  /** One store over time; the last moment of `past` is now. */
  datatype World = World(past: seq<Moment>, cached: Option<Cached>)

  datatype Event = Written(doc: Doc) | Elapsed(ms: nat) | Refreshed(wake: Wake, reachable: bool)

  function Now(w: World): Moment
    requires w.past != []
  {
    w.past[|w.past| - 1]
  }

  function Answer(w: World, wake: Wake, reachable: bool): Option<Served>
    requires w.past != []
  {
    Refresh(w.cached, Now(w).at, wake, Now(w).doc, reachable)
  }

  function Step(w: World, e: Event): (v: World)
    requires w.past != []
    ensures v.past != []
  {
    match e
    case Written(doc) => w.(past := w.past + [Moment(Now(w).at, doc)])
    case Elapsed(ms) => w.(past := w.past + [Moment(Now(w).at + ms, Now(w).doc)])
    case Refreshed(wake, reachable) =>
      var served := Answer(w, wake, reachable);
      if served.None? then w else w.(cached := Some(served.value.cached))
  }

  /** Where a run of events leads from `w`. */
  function RunFrom(w: World, run: seq<Event>): (v: World)
    requires w.past != []
    ensures v.past != []
  {
    if run == [] then w else Step(RunFrom(w, run[..|run| - 1]), run[|run| - 1])
  }

  function After(first: Moment, run: seq<Event>): World {
    RunFrom(World([first], None), run)
  }

  /** The server never reuses a cursor for another value. */
  ghost predicate CursorsAreHonest(past: seq<Moment>) {
    forall i, j :: 0 <= i < |past| && 0 <= j < |past| ==>
      past[i].doc.version.Some? && past[i].doc.version == past[j].doc.version ==>
        past[i].doc.value == past[j].doc.value
  }

  ghost predicate WasTrue(past: seq<Moment>, value: Option<string>, at: int) {
    exists m :: m in past && m.at == at && m.doc.value == value
  }

  ghost predicate CacheWasTrue(w: World) {
    w.cached.Some? ==> exists m :: m in w.past && m.at == w.cached.value.readAt
                                   && m.doc == Doc(w.cached.value.value, w.cached.value.version)
  }

  ghost predicate ClockRuns(w: World) {
    forall m :: m in w.past ==> m.at <= Now(w).at
  }

  /** An unchanged probe vouches for the value, when cursors are honest. */
  lemma UnchangedMeansCurrent(w: World)
    requires w.past != [] && CacheWasTrue(w) && CursorsAreHonest(w.past)
    requires w.cached.Some? && Unchanged(Now(w).doc, w.cached.value.version)
    ensures Now(w).doc == Doc(w.cached.value.value, w.cached.value.version)
  {
    var m :| m in w.past && m.at == w.cached.value.readAt && m.doc == Doc(w.cached.value.value, w.cached.value.version);
    var i :| 0 <= i < |w.past| && w.past[i] == m;
  }

  lemma StepKeepsTruth(w: World, e: Event)
    requires w.past != [] && CacheWasTrue(w) && ClockRuns(w) && CursorsAreHonest(Step(w, e).past)
    ensures CacheWasTrue(Step(w, e)) && ClockRuns(Step(w, e))
  {
    var v := Step(w, e);
    if e.Refreshed? {
      assert Now(w) in w.past;
      if w.cached.Some? && Unchanged(Now(w).doc, Probe(w.cached, Now(w).at, e.wake)) { UnchangedMeansCurrent(w); }
    } else {
      assert forall m :: m in w.past ==> m in v.past;
      assert forall m :: m in v.past ==> m in w.past || m == Now(v);
    }
  }

  lemma {:induction false} EarlierCursorsAreHonest(first: Moment, run: seq<Event>)
    requires run != [] && CursorsAreHonest(After(first, run).past)
    ensures CursorsAreHonest(After(first, run[..|run| - 1]).past)
  {
    var w := After(first, run[..|run| - 1]);
    assert forall i :: 0 <= i < |w.past| ==> After(first, run).past[i] == w.past[i];
  }

  /** In every run, the cached value was the server's at the time it was read. */
  lemma {:induction false} CachedValuesWereTrue(first: Moment, run: seq<Event>)
    requires CursorsAreHonest(After(first, run).past)
    ensures CacheWasTrue(After(first, run)) && ClockRuns(After(first, run))
  {
    if run != [] {
      EarlierCursorsAreHonest(first, run);
      CachedValuesWereTrue(first, run[..|run| - 1]);
      StepKeepsTruth(After(first, run[..|run| - 1]), run[|run| - 1]);
    }
  }

  /** And every value served was the server's less than a minute ago. It is the
      server's value now unless the wake named only other stores and the entry was
      fresh, which is exactly when no read is made. */
  lemma ServedValuesAreRecent(first: Moment, run: seq<Event>, wake: Wake, reachable: bool)
    requires CursorsAreHonest(After(first, run).past)
    requires Answer(After(first, run), wake, reachable).Some?
    ensures var w := After(first, run);
            var served := Answer(w, wake, reachable).value;
            && (served.didRead <==> !(wake == NamedOthers && IsFresh(w.cached, Now(w).at)))
            && (served.didRead ==> served.value == Now(w).doc.value)
            && exists at :: Now(w).at - STALE_AFTER_MS < at <= Now(w).at && WasTrue(w.past, served.value, at)
  {
    CachedValuesWereTrue(first, run);
    var w := After(first, run);
    var served := Answer(w, wake, reachable).value;
    if served.didRead {
      if w.cached.Some? && Unchanged(Now(w).doc, Probe(w.cached, Now(w).at, wake)) { UnchangedMeansCurrent(w); }
      assert Now(w) in w.past;
      assert WasTrue(w.past, served.value, Now(w).at);
    } else {
      assert WasTrue(w.past, served.value, w.cached.value.readAt);
    }
  }

  /** A wake that names the store, or finds the entry stale or absent, reads in full:
      its answer is current even when the server reuses cursors. */
  lemma NamedOrStaleIsCurrent(w: World, wake: Wake)
    requires w.past != [] && (wake == NamedThis || !IsFresh(w.cached, Now(w).at))
    ensures var m := Now(w);
            Answer(w, wake, true) == Some(Served(m.doc.value, Cached(m.doc.value, m.at, m.doc.version), true))
  {
  }

  // ------------------------------------------------- when an answer is current

  /** An answer is the server's present value exactly when the wake names the store,
      the entry is stale or absent, the cached value happens to be the present one,
      or a blind resync finds the cursor moved. */
  lemma AnswerIsCurrentIff(w: World, wake: Wake)
    requires w.past != []
    ensures var doc, served := Now(w).doc, Answer(w, wake, true);
            && served.Some?
            && (served.value.value == doc.value <==>
                  || wake == NamedThis
                  || !IsFresh(w.cached, Now(w).at)
                  || w.cached.value.value == doc.value
                  || (wake == Blind && !Unchanged(doc, w.cached.value.version)))
  {
  }

  /** The server's cursor is the cached one, and its value another. */
  predicate IsPinned(w: World)
    requires w.past != []
  {
    w.cached.Some? && Unchanged(Now(w).doc, w.cached.value.version) && w.cached.value.value != Now(w).doc.value
  }

  /** A refresh that goes through leaves a pinned entry pinned exactly when it comes
      within the minute and does not name the store; a blind one renews its age. */
  lemma RefreshKeepsPinnedIff(w: World, wake: Wake)
    requires w.past != [] && IsPinned(w)
    ensures var v := Step(w, Refreshed(wake, true));
            && (IsPinned(v) <==> wake != NamedThis && IsFresh(w.cached, Now(w).at))
            && (IsPinned(v) ==> v.cached.value.value == w.cached.value.value)
            && (IsPinned(v) && wake == Blind ==> v.cached.value.readAt == Now(v).at)
  {
  }

  /** From `w` on nothing is written, no wake names the store, and every refresh
      finds the entry less than a minute old. */
  ghost predicate OnlyFreshWakes(w: World, run: seq<Event>)
    requires w.past != []
  {
    forall i :: 0 <= i < |run| ==>
      match run[i]
      case Written(_) => false
      case Elapsed(_) => true
      case Refreshed(wake, _) =>
        wake != NamedThis && IsFresh(RunFrom(w, run[..i]).cached, Now(RunFrom(w, run[..i])).at)
  }

  /** However long such a run, it serves the old value to its end. */
  lemma {:induction false} PinnedStaysPinned(w: World, run: seq<Event>)
    requires w.past != [] && IsPinned(w) && OnlyFreshWakes(w, run)
    ensures var v := RunFrom(w, run);
            IsPinned(v) && Now(v).doc == Now(w).doc && v.cached.value.value == w.cached.value.value
  {
    if run != [] {
      var init, e := run[..|run| - 1], run[|run| - 1];
      assert forall i :: 0 <= i < |init| ==> init[..i] == run[..i] && init[i] == run[i];
      PinnedStaysPinned(w, init);
      var v := RunFrom(w, init);
      if e.Refreshed? && e.reachable { RefreshKeepsPinnedIff(v, e.wake); }
    }
  }

  /** Blind resyncs after these pauses. */
  function Resyncs(pauses: seq<nat>): seq<Event> {
    if pauses == [] then []
    else Resyncs(pauses[..|pauses| - 1]) + [Elapsed(pauses[|pauses| - 1]), Refreshed(Blind, true)]
  }

  function Sum(pauses: seq<nat>): nat {
    if pauses == [] then 0 else Sum(pauses[..|pauses| - 1]) + pauses[|pauses| - 1]
  }

  lemma RunTwoMore(w: World, run: seq<Event>, a: Event, b: Event)
    requires w.past != []
    ensures RunFrom(w, run + [a, b]) == Step(Step(RunFrom(w, run), a), b)
  {
    assert (run + [a, b])[..|run| + 1] == run + [a];
    assert (run + [a])[..|run|] == run;
  }

  /** A pinned entry read just now. */
  predicate IsPinnedNow(w: World)
    requires w.past != []
  {
    IsPinned(w) && w.cached.value.readAt == Now(w).at
  }

  lemma BlindResyncRenews(w: World, pause: nat)
    requires w.past != [] && IsPinnedNow(w) && pause < STALE_AFTER_MS
    ensures var v := Step(Step(w, Elapsed(pause)), Refreshed(Blind, true));
            && IsPinnedNow(v) && Now(v) == Moment(Now(w).at + pause, Now(w).doc)
            && v.cached.value.value == w.cached.value.value
  {
    RefreshKeepsPinnedIff(Step(w, Elapsed(pause)), Blind);
  }

  /** A cursor reused with another value just after it was cached: blind resyncs
      that each come within a minute serve the old value for ever, each making it
      look newly read. */
  lemma {:induction false} ReusedCursorPinsTheOldValue(w: World, pauses: seq<nat>)
    requires w.past != [] && IsPinnedNow(w)
    requires forall p :: p in pauses ==> p < STALE_AFTER_MS
    ensures var v := RunFrom(w, Resyncs(pauses));
            && Now(v) == Moment(Now(w).at + Sum(pauses), Now(w).doc)
            && IsPinnedNow(v) && v.cached.value.value == w.cached.value.value
            && Answer(v, Blind, true).value.value == w.cached.value.value != Now(v).doc.value
  {
    if pauses != [] {
      var init, pause := pauses[..|pauses| - 1], pauses[|pauses| - 1];
      assert pause in pauses && forall p :: p in init ==> p in pauses;
      ReusedCursorPinsTheOldValue(w, init);
      BlindResyncRenews(RunFrom(w, Resyncs(init)), pause);
      RunTwoMore(w, Resyncs(init), Elapsed(pause), Refreshed(Blind, true));
    }
  }
}
