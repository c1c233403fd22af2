/** The per-person event window (`UsePersonStream.ts`): bounded, sorted by the
    server's cursor, deduplicated by frame id. */
module PersonStream {
  import opened Options
  import opened Ordering

  datatype SessionEvent = SessionEvent(id: string, generation: nat, sequence: nat, body: string)

  const MAX_SESSION_EVENTS := 512

  /** `compareSessionEvents(left, right) <= 0`. */
  predicate NotAfter(left: SessionEvent, right: SessionEvent) {
    if left.generation != right.generation then left.generation <= right.generation
    else left.sequence <= right.sequence
  }

  predicate SameCursor(a: SessionEvent, b: SessionEvent) {
    a.generation == b.generation && a.sequence == b.sequence
  }

  /** Strictly earlier: of an earlier generation, or earlier in the same one. */
  predicate Before(a: SessionEvent, b: SessionEvent) {
    a.generation < b.generation || (a.generation == b.generation && a.sequence < b.sequence)
  }

  function LastOf(s: seq<SessionEvent>, n: nat): seq<SessionEvent> {
    if |s| > n then s[|s| - n..] else s
  }

  predicate Holds(events: seq<SessionEvent>, id: string) { exists e :: e in events && e.id == id }

  function Add(events: seq<SessionEvent>, event: SessionEvent): seq<SessionEvent> {
    if Holds(events, event.id) then events
    else LastOf(Sort(NotAfter, events + [event]), MAX_SESSION_EVENTS)
  }

  datatype Snapshot = Snapshot(channel: string, session: Option<string>, events: seq<SessionEvent>,
                               host: Option<string>, hostState: Option<string>, reorgCount: nat)

  class PersonStreamStore {
    var snapshot: Snapshot
    /** How often the listeners have been called. */
    var notified: nat

    constructor ()
      ensures snapshot == Snapshot("connecting", None, [], None, None, 0) && notified == 0
    {
      snapshot := Snapshot("connecting", None, [], None, None, 0);
      notified := 0;
    }

    method AddSession(event: SessionEvent)
      modifies this
      ensures snapshot == old(snapshot).(events := Add(old(snapshot).events, event))
      ensures notified == old(notified) + if Holds(old(snapshot).events, event.id) then 0 else 1
    {
      var i := 0;
      while i < |snapshot.events|
        invariant 0 <= i <= |snapshot.events|
        invariant forall k :: 0 <= k < i ==> snapshot.events[k].id != event.id
      {
        if snapshot.events[i].id == event.id {
          assert snapshot.events[i] in snapshot.events;
          return;
        }
        i := i + 1;
      }
      var sorted := Sort(NotAfter, snapshot.events + [event]);
      var events := if |sorted| > MAX_SESSION_EVENTS then sorted[|sorted| - MAX_SESSION_EVENTS..] else sorted;
      Publish(snapshot.(events := events));
    }

    method Publish(next: Snapshot)
      modifies this
      ensures snapshot == next && notified == old(notified) + 1
    {
      snapshot := next;
      notified := notified + 1;
    }
  }

  /** The window after a run of frames. */
  function After(run: seq<SessionEvent>): seq<SessionEvent> {
    if run == [] then [] else Add(After(run[..|run| - 1]), run[|run| - 1])
  }

  // ------------------------------------------------------------------ the set

  function Received(run: seq<SessionEvent>): set<SessionEvent> { set e | e in run }

  /** The server's promise: an id names one event, and no two events share a cursor. */
  ghost predicate Coherent(all: set<SessionEvent>) {
    forall a, b :: a in all && b in all ==> (a.id == b.id || SameCursor(a, b)) ==> a == b
  }

  /** `s` is the sorted top 512 of `all`: everything left out is older than everything kept. */
  ghost predicate IsWindow(s: seq<SessionEvent>, all: set<SessionEvent>) {
    && (forall i, j :: 0 <= i < j < |s| ==> Before(s[i], s[j]))
    && (forall e :: e in s ==> e in all)
    && |s| == (if |all| > 512 then 512 else |all|)
    && (forall e, x :: e in all && e !in s && x in s ==> Before(e, x))
  }

  lemma CursorOrder()
    ensures TotalPreorder(NotAfter)
  {
  }

  lemma {:induction false} DistinctCardinality(s: seq<SessionEvent>)
    requires forall i, j :: 0 <= i < j < |s| ==> s[i] != s[j]
    ensures |Received(s)| == |s|
  {
    if s != [] {
      var init := s[..|s| - 1];
      DistinctCardinality(init);
      assert Received(s) == Received(init) + {s[|s| - 1]};
      assert s[|s| - 1] !in Received(init);
    }
  }

  /** A window as large as the set holds all of it. */
  lemma FullWindow(s: seq<SessionEvent>, all: set<SessionEvent>)
    requires IsWindow(s, all) && |s| == |all|
    ensures Received(s) == all
  {
    DistinctCardinality(s);
    assert Received(s) <= all;
    if x :| x in all && x !in Received(s) {
      assert Received(s) <= all - {x};
      SubsetCardinality(Received(s), all - {x});
    }
  }

  lemma {:induction false} SubsetCardinality(a: set<SessionEvent>, b: set<SessionEvent>)
    requires a <= b
    ensures |a| <= |b|
  {
    if x :| x in a { SubsetCardinality(a - {x}, b - {x}); }
  }

  /** Sorting a window with one more event: strictly sorted, nothing else added. */
  lemma SortedWithOneMore(s: seq<SessionEvent>, all: set<SessionEvent>, e: SessionEvent)
    returns (t: seq<SessionEvent>)
    requires IsWindow(s, all) && Coherent(all + {e}) && e !in s
    ensures t == Sort(NotAfter, s + [e]) && |t| == |s| + 1
    ensures forall i, j :: 0 <= i < j < |t| ==> Before(t[i], t[j])
    ensures forall x :: x in t <==> x in s || x == e
  {
    CursorOrder();
    t := Sort(NotAfter, s + [e]);
    SortIsSorted(NotAfter, s + [e]);
    assert multiset(t) == multiset(s) + multiset{e};
    assert |multiset(t)| == |t|;
    forall x ensures x in t <==> x in s || x == e {
      assert x in t <==> x in multiset(t);
    }
    forall x ensures multiset(t)[x] <= 1 { OnceInWindow(s, x); }
    StrictlySorted(t, all + {e});
  }

  lemma StrictlySorted(t: seq<SessionEvent>, all: set<SessionEvent>)
    requires Sorted(NotAfter, t) && Coherent(all) && forall x :: x in t ==> x in all
    requires forall x :: multiset(t)[x] <= 1
    ensures forall i, j :: 0 <= i < j < |t| ==> Before(t[i], t[j])
  {
    forall i, j | 0 <= i < j < |t| ensures Before(t[i], t[j]) {
      assert NotAfter(t[i], t[j]) && t[i] in t && t[j] in t;
      if t[i] == t[j] { TwiceInSequence(t, i, j); }
    }
  }

  lemma TwiceInSequence(t: seq<SessionEvent>, i: nat, j: nat)
    requires i < j < |t| && t[i] == t[j]
    ensures multiset(t)[t[i]] >= 2
  {
    assert t == t[..j] + t[j..];
    assert t[i] in t[..j] && t[i] in t[j..] by { assert t[..j][i] == t[i] && t[j..][0] == t[j]; }
    assert multiset(t) == multiset(t[..j]) + multiset(t[j..]);
  }

  lemma {:induction false} OnceInWindow(s: seq<SessionEvent>, x: SessionEvent)
    requires forall i, j :: 0 <= i < j < |s| ==> Before(s[i], s[j])
    ensures multiset(s)[x] == if x in s then 1 else 0
  {
    if s != [] {
      assert s == s[..|s| - 1] + [s[|s| - 1]];
      OnceInWindow(s[..|s| - 1], x);
    }
  }

  /** A full window with one more event gives up the oldest of them. */
  lemma DropOldest(s: seq<SessionEvent>, all: set<SessionEvent>, e: SessionEvent, t: seq<SessionEvent>)
    requires IsWindow(s, all) && e !in s && |t| == |s| + 1 == MAX_SESSION_EVENTS + 1
    requires forall i, j :: 0 <= i < j < |t| ==> Before(t[i], t[j])
    requires forall x :: x in t <==> x in s || x == e
    ensures IsWindow(t[1..], all + {e})
  {
    SubsetCardinality(all, all + {e});
    var kept := t[1..];
    assert forall k :: 1 <= k < |t| ==> t[k] == kept[k - 1] && t[k] in kept;
    assert forall x :: x in kept ==> x in t;
    forall y, x | y in all + {e} && y !in kept && x in kept ensures Before(y, x) {
      var j :| 1 <= j < |t| && t[j] == x;
      assert Before(t[0], t[j]) && t[0] in t;
      if y != t[0] {
        assert y !in t;
        assert y in all && y !in s;
        if x == e {
          assert t[0] in s && Before(y, t[0]);
        } else {
          assert x in s;
        }
      }
    }
  }

  /** A window with room simply takes the event in. */
  lemma TakeIn(s: seq<SessionEvent>, all: set<SessionEvent>, e: SessionEvent, t: seq<SessionEvent>)
    requires IsWindow(s, all) && e !in s && |s| < MAX_SESSION_EVENTS && |t| == |s| + 1
    requires forall i, j :: 0 <= i < j < |t| ==> Before(t[i], t[j])
    requires forall x :: x in t <==> x in s || x == e
    ensures IsWindow(t, all + {e})
  {
    FullWindow(s, all);
    assert e !in Received(s);
    assert forall x :: x in all ==> x in s by {
      forall x | x in all ensures x in s { assert x in Received(s); }
    }
  }

  lemma AddKeepsWindow(s: seq<SessionEvent>, all: set<SessionEvent>, e: SessionEvent)
    requires IsWindow(s, all) && Coherent(all + {e})
    ensures IsWindow(Add(s, e), all + {e})
  {
    if Holds(s, e.id) {
      var x :| x in s && x.id == e.id;
      assert x == e && all + {e} == all;
    } else {
      assert e !in s;
      var t := SortedWithOneMore(s, all, e);
      if |s| < MAX_SESSION_EVENTS {
        TakeIn(s, all, e, t);
      } else {
        DropOldest(s, all, e, t);
      }
    }
  }

  /** After any run of frames, in any order and with any redelivery, evicted
      events included, the store holds exactly the sorted top 512 of what it
      was ever sent. */
  lemma {:induction false} StoreHoldsTheWindow(run: seq<SessionEvent>)
    requires Coherent(Received(run))
    ensures IsWindow(After(run), Received(run))
  {
    if run != [] {
      var before, e := run[..|run| - 1], run[|run| - 1];
      assert Received(run) == Received(before) + {e};
      StoreHoldsTheWindow(before);
      AddKeepsWindow(After(before), Received(before), e);
    }
  }

  /** Two windows of a set have one size, so neither can hold a stranger alone. */
  lemma Exchange(a: seq<SessionEvent>, b: seq<SessionEvent>, all: set<SessionEvent>, x: SessionEvent)
    requires IsWindow(a, all) && IsWindow(b, all) && x in a && x !in b
    ensures exists y :: y in b && y !in a
  {
    DistinctCardinality(a);
    DistinctCardinality(b);
    if Received(b) <= Received(a) {
      SubsetCardinality(Received(b), Received(a) - {x});
    }
    var y :| y in Received(b) && y !in Received(a);
    assert y in b && y !in a;
  }

  lemma WindowIsPart(a: seq<SessionEvent>, b: seq<SessionEvent>, all: set<SessionEvent>)
    requires IsWindow(a, all) && IsWindow(b, all)
    ensures forall x :: x in a ==> x in b
  {
    forall x | x in a ensures x in b {
      if x !in b {
        Exchange(a, b, all, x);
        var y :| y in b && y !in a;
      }
    }
  }

  lemma WindowIsUnique(a: seq<SessionEvent>, b: seq<SessionEvent>, all: set<SessionEvent>)
    requires Coherent(all) && IsWindow(a, all) && IsWindow(b, all)
    ensures a == b
  {
    WindowIsPart(a, b, all);
    WindowIsPart(b, a, all);
    forall x ensures multiset(a)[x] == multiset(b)[x] {
      OnceInWindow(a, x);
      OnceInWindow(b, x);
    }
    CursorOrder();
    SortedIsUnique(NotAfter, a, b);
  }

  /** So the window depends only on the set of events received. */
  lemma ArrivalOrderDoesNotMatter(run: seq<SessionEvent>, other: seq<SessionEvent>)
    requires Received(run) == Received(other) && Coherent(Received(run))
    ensures After(run) == After(other)
  {
    StoreHoldsTheWindow(run);
    StoreHoldsTheWindow(other);
    WindowIsUnique(After(run), After(other), Received(run));
  }
}
