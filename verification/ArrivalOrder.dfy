/** When the person's event window depends on the order its frames arrived in: the
    store of `PersonStream` on sets of events that keep no promise at all. */
module ArrivalOrder {
  import opened Ordering
  import opened PersonStream

  // ------------------------------------------------------- what every window is

  ghost predicate IdsAreDistinct(s: seq<SessionEvent>) {
    forall i, j :: 0 <= i < j < |s| ==> s[i].id != s[j].id
  }

  /** Sorted, one event to an id, nothing the store was not sent. */
  ghost predicate IsKept(s: seq<SessionEvent>, all: set<SessionEvent>) {
    Sorted(NotAfter, s) && IdsAreDistinct(s) && forall e :: e in s ==> e in all
  }

  lemma InsertIsKept(s: seq<SessionEvent>, all: set<SessionEvent>, e: SessionEvent)
    requires IsKept(s, all) && !Holds(s, e.id)
    ensures IsKept(Insert(NotAfter, s, e), all + {e}) && |Insert(NotAfter, s, e)| == |s| + 1
    ensures forall x :: x in Insert(NotAfter, s, e) <==> x in s || x == e
  {
    CursorOrder();
    InsertIsSorted(NotAfter, s, e);
    var t := Insert(NotAfter, s, e);
    assert |multiset(t)| == |t| && |multiset(s)| == |s|;
    forall x ensures x in t <==> x in s || x == e { assert x in t <==> x in multiset(t); }
    forall i, j | 0 <= i < j < |t| ensures t[i].id != t[j].id { OneToAnId(s, e, t, i, j); }
  }

  lemma OneToAnId(s: seq<SessionEvent>, e: SessionEvent, t: seq<SessionEvent>, i: nat, j: nat)
    requires IdsAreDistinct(s) && !Holds(s, e.id) && multiset(t) == multiset(s) + multiset{e}
    requires i < j < |t|
    ensures t[i].id != t[j].id
  {
    assert t[i] in multiset(t) && t[j] in multiset(t);
    if t[i] == t[j] {
      TwiceInSequence(t, i, j);
      OnceByIds(s, t[i]);
    }
  }

  lemma {:induction false} OnceByIds(s: seq<SessionEvent>, x: SessionEvent)
    requires IdsAreDistinct(s)
    ensures multiset(s)[x] == if x in s then 1 else 0
  {
    if s != [] {
      assert s == s[..|s| - 1] + [s[|s| - 1]];
      OnceByIds(s[..|s| - 1], x);
    }
  }

  /** `e` stands right before the events strictly after it. */
  ghost predicate IsLastOfItsCursor(s: seq<SessionEvent>, e: SessionEvent) {
    exists i :: 0 <= i < |s| && s[i] == e && forall j :: i < j < |s| ==> Before(e, s[j])
  }

  lemma {:induction false} InsertedIsLast(s: seq<SessionEvent>, e: SessionEvent)
    requires Sorted(NotAfter, s)
    ensures IsLastOfItsCursor(Insert(NotAfter, s, e), e)
  {
    var t := Insert(NotAfter, s, e);
    if s == [] || NotAfter(s[|s| - 1], e) {
      assert t[|s|] == e;
    } else {
      var init := s[..|s| - 1];
      InsertedIsLast(init, e);
      var u := Insert(NotAfter, init, e);
      var i :| 0 <= i < |u| && u[i] == e && forall j :: i < j < |u| ==> Before(e, u[j]);
      assert t == u + [s[|s| - 1]];
      assert t[i] == e;
    }
  }

  /** A frame of a new id is put in its place, last of its cursor, and the front of an
      overfull window dropped. */
  lemma Arrival(s: seq<SessionEvent>, all: set<SessionEvent>, e: SessionEvent) returns (t: seq<SessionEvent>)
    requires IsKept(s, all) && |s| <= MAX_SESSION_EVENTS && !Holds(s, e.id)
    ensures IsKept(t, all + {e}) && |t| == |s| + 1 && IsLastOfItsCursor(t, e)
    ensures forall x :: x in t <==> x in s || x == e
    ensures Add(s, e) == if |t| > MAX_SESSION_EVENTS then t[1..] else t
  {
    InsertIsKept(s, all, e);
    InsertedIsLast(s, e);
    SortOfOneMore(NotAfter, s, e);
    t := Insert(NotAfter, s, e);
    LastOfOneTooMany(t);
  }

  lemma LastOfOneTooMany(t: seq<SessionEvent>)
    requires |t| <= MAX_SESSION_EVENTS + 1
    ensures LastOf(t, MAX_SESSION_EVENTS) == if |t| > MAX_SESSION_EVENTS then t[1..] else t
  {
  }

  lemma TailIsKept(t: seq<SessionEvent>, all: set<SessionEvent>)
    requires IsKept(t, all) && t != []
    ensures IsKept(t[1..], all) && forall x :: x in t[1..] ==> x in t
  {
  }

  lemma AddIsKept(s: seq<SessionEvent>, all: set<SessionEvent>, e: SessionEvent)
    requires IsKept(s, all) && |s| <= MAX_SESSION_EVENTS
    ensures IsKept(Add(s, e), all + {e}) && |Add(s, e)| <= MAX_SESSION_EVENTS
    ensures forall x :: x in Add(s, e) ==> x in s || x == e
  {
    if !Holds(s, e.id) {
      var t := Arrival(s, all, e);
      TailIsKept(t, all + {e});
    }
  }

  lemma {:induction false} WindowIsKept(run: seq<SessionEvent>)
    ensures IsKept(After(run), Received(run)) && |After(run)| <= MAX_SESSION_EVENTS
  {
    if run != [] {
      var before, e := run[..|run| - 1], run[|run| - 1];
      WindowIsKept(before);
      AddIsKept(After(before), Received(before), e);
      assert Received(run) == Received(before) + {e};
    }
  }

  lemma AfterOneMore(run: seq<SessionEvent>, e: SessionEvent)
    ensures After(run + [e]) == Add(After(run), e) && Received(run + [e]) == Received(run) + {e}
  {
    assert (run + [e])[..|run|] == run;
  }

  // ---------------------------------------------------------- the newest events

  function Later(all: set<SessionEvent>, e: SessionEvent): set<SessionEvent> {
    set x | x in all && Before(e, x)
  }

  /** Fewer than 512 of the events come strictly after this one: a place in the
      window is its due. */
  predicate IsNewest(all: set<SessionEvent>, e: SessionEvent) {
    |Later(all, e)| < 512
  }

  predicate Collide(a: SessionEvent, b: SessionEvent) { a != b && (a.id == b.id || SameCursor(a, b)) }

  /** No event that is due a place shares its id or its cursor with another. */
  ghost predicate NewestAreClear(all: set<SessionEvent>) {
    forall a, b :: a in all && b in all && Collide(a, b) ==> !IsNewest(all, a)
  }

  lemma IdsMakeEventsDistinct(s: seq<SessionEvent>)
    requires IdsAreDistinct(s)
    ensures |Received(s)| == |s|
  {
    forall i, j | 0 <= i < j < |s| ensures s[i] != s[j] {}
    DistinctCardinality(s);
  }

  /** What is dropped from the front of an overfull window has 512 events after it,
      if none of them shares its cursor. */
  lemma FrontIsNotNewest(t: seq<SessionEvent>, all: set<SessionEvent>)
    requires IsKept(t, all) && |t| == MAX_SESSION_EVENTS + 1
    requires forall j :: 1 <= j < |t| ==> !SameCursor(t[0], t[j])
    ensures !IsNewest(all, t[0])
  {
    var rest := t[1..];
    IdsMakeEventsDistinct(rest);
    forall x | x in Received(rest) ensures x in Later(all, t[0]) {
      var j :| 0 <= j < |rest| && rest[j] == x;
      assert x == t[j + 1] && x in t && NotAfter(t[0], t[j + 1]);
    }
    SubsetCardinality(Received(rest), Later(all, t[0]));
  }

  lemma AddHoldsNewest(s: seq<SessionEvent>, all: set<SessionEvent>, x: SessionEvent, e: SessionEvent)
    requires IsKept(s, all) && |s| <= MAX_SESSION_EVENTS && x in all && NewestAreClear(all)
    requires e in all && IsNewest(all, e) && (e in s || e == x)
    ensures e in Add(s, x)
  {
    if Holds(s, x.id) {
      var y :| y in s && y.id == x.id;
      assert Collide(x, y) ==> !IsNewest(all, x);
    } else {
      var t := Arrival(s, all, x);
      assert all + {x} == all;
      if |t| > MAX_SESSION_EVENTS { FrontGoesFirst(all, t, e); }
    }
  }

  /** So what is dropped is not an event due a place. */
  lemma FrontIsNotDue(all: set<SessionEvent>, t: seq<SessionEvent>)
    requires IsKept(t, all) && |t| == MAX_SESSION_EVENTS + 1 && NewestAreClear(all)
    ensures !IsNewest(all, t[0])
  {
    if j :| 1 <= j < |t| && SameCursor(t[0], t[j]) {
      assert t[0] in t && t[j] in t && t[0].id != t[j].id;
      assert Collide(t[0], t[j]);
    } else {
      FrontIsNotNewest(t, all);
    }
  }

  lemma FrontGoesFirst(all: set<SessionEvent>, t: seq<SessionEvent>, e: SessionEvent)
    requires IsKept(t, all) && |t| == MAX_SESSION_EVENTS + 1 && NewestAreClear(all)
    requires e in t && IsNewest(all, e)
    ensures e in t[1..]
  {
    FrontIsNotDue(all, t);
    var k :| 0 <= k < |t| && t[k] == e;
    assert k > 0;
    assert t[1..][k - 1] == e;
  }

  lemma {:induction false} WindowHoldsNewest(run: seq<SessionEvent>, all: set<SessionEvent>)
    requires Received(run) <= all && NewestAreClear(all)
    ensures forall e :: e in run && IsNewest(all, e) ==> e in After(run)
  {
    if run != [] {
      var before, x := run[..|run| - 1], run[|run| - 1];
      assert forall e :: e in before ==> e in run;
      assert x in Received(run);
      assert forall e :: e in run ==> e in before || e == x;
      WindowHoldsNewest(before, all);
      WindowIsKept(before);
      forall e | e in run && IsNewest(all, e) ensures e in After(run) {
        assert e in Received(run);
        AddHoldsNewest(After(before), all, x, e);
      }
    }
  }

  // ------------------------------------------------ there are enough of the newest

  function NewestOf(all: set<SessionEvent>): set<SessionEvent> {
    set e | e in all && IsNewest(all, e)
  }

  lemma {:induction false} Oldest(all: set<SessionEvent>) returns (e: SessionEvent)
    requires all != {}
    ensures e in all && forall x :: x in all ==> NotAfter(e, x)
  {
    var first :| first in all;
    e := first;
    if all != {first} {
      var other := Oldest(all - {first});
      if !NotAfter(first, other) { e := other; }
      forall x | x in all ensures NotAfter(e, x) {
        assert x == first || x in all - {first};
      }
    }
  }

  /** As many events are due a place as the window has places, or all of them. */
  lemma {:induction false} EnoughAreNewest(all: set<SessionEvent>)
    ensures |all| <= MAX_SESSION_EVENTS ==> NewestOf(all) == all
    ensures |all| >= MAX_SESSION_EVENTS ==> |NewestOf(all)| >= MAX_SESSION_EVENTS
  {
    if |all| <= MAX_SESSION_EVENTS {
      forall e | e in all ensures IsNewest(all, e) { FewAreLater(all, e); }
      assert NewestOf(all) == all;
    } else {
      var e := Oldest(all);
      EnoughAreNewest(all - {e});
      WithoutOldest(all, e);
      assert |all - {e}| == |all| - 1;
    }
  }

  lemma FewAreLater(all: set<SessionEvent>, e: SessionEvent)
    requires e in all
    ensures |Later(all, e)| < |all|
  {
    SubsetCardinality(Later(all, e), all - {e});
    assert |all - {e}| == |all| - 1;
  }

  lemma WithoutOldest(all: set<SessionEvent>, e: SessionEvent)
    requires e in all && forall x :: x in all ==> NotAfter(e, x)
    ensures |NewestOf(all - {e})| <= |NewestOf(all)|
  {
    forall x | x in NewestOf(all - {e}) ensures x in NewestOf(all) {
      assert Later(all, x) == Later(all - {e}, x);
    }
    SubsetCardinality(NewestOf(all - {e}), NewestOf(all));
  }

  lemma SameSizeSuperset(part: set<SessionEvent>, whole: set<SessionEvent>)
    requires part <= whole && |whole| <= |part|
    ensures part == whole
  {
    if x :| x in whole && x !in part { SubsetCardinality(part, whole - {x}); }
  }

  /** So a store sent such a set holds exactly the newest of it. */
  lemma WindowIsNewest(run: seq<SessionEvent>)
    requires NewestAreClear(Received(run))
    ensures Received(After(run)) == NewestOf(Received(run))
  {
    var all, s := Received(run), After(run);
    WindowIsKept(run);
    WindowHoldsNewest(run, all);
    IdsMakeEventsDistinct(s);
    EnoughAreNewest(all);
    SubsetCardinality(Received(s), all);
    assert forall e :: e in NewestOf(all) ==> e in run && e in s;
    SameSizeSuperset(NewestOf(all), Received(s));
  }

  lemma ClearSetsEndAlike(run: seq<SessionEvent>, other: seq<SessionEvent>)
    requires Received(run) == Received(other) && NewestAreClear(Received(run))
    ensures After(run) == After(other)
  {
    var all, a, b := Received(run), After(run), After(other);
    WindowIsKept(run);
    WindowIsKept(other);
    WindowIsNewest(run);
    WindowIsNewest(other);
    forall x ensures multiset(a)[x] == multiset(b)[x] {
      OnceByIds(a, x);
      OnceByIds(b, x);
      assert x in a <==> x in Received(a);
      assert x in b <==> x in Received(b);
    }
    forall x, y | x in a && y in a && NotAfter(x, y) && NotAfter(y, x) ensures x == y {
      assert x in Received(a) && y in Received(a);
      assert Collide(x, y) ==> !IsNewest(all, x);
    }
    CursorOrder();
    SortedIsUnique(NotAfter, a, b);
  }

  // ---------------------------------------------------------- what order can change

  lemma {:induction false} SomeOrder(all: set<SessionEvent>) returns (run: seq<SessionEvent>)
    ensures Received(run) == all
  {
    run := [];
    if e :| e in all {
      var rest := SomeOrder(all - {e});
      run := rest + [e];
      assert Received(run) == Received(rest) + {e};
    }
  }

  lemma OnlyOneIsLast(s: seq<SessionEvent>, a: SessionEvent, b: SessionEvent)
    requires IsLastOfItsCursor(s, a) && IsLastOfItsCursor(s, b) && SameCursor(a, b)
    ensures a == b
  {
    var i :| 0 <= i < |s| && s[i] == a && forall j :: i < j < |s| ==> Before(a, s[j]);
    var k :| 0 <= k < |s| && s[k] == b && forall j :: k < j < |s| ==> Before(b, s[j]);
  }

  /** An event due a place, whose id is not held, has it when it arrives, last of
      its cursor. */
  lemma NewestArrives(s: seq<SessionEvent>, all: set<SessionEvent>, e: SessionEvent)
    requires IsKept(s, all) && |s| <= MAX_SESSION_EVENTS && e in all
    requires IsNewest(all, e) && !Holds(s, e.id)
    ensures e in Add(s, e) && IsLastOfItsCursor(Add(s, e), e)
  {
    var t := Arrival(s, all, e);
    assert all + {e} == all;
    var i :| 0 <= i < |t| && t[i] == e && forall j :: i < j < |t| ==> Before(e, t[j]);
    if |t| > MAX_SESSION_EVENTS {
      assert i > 0 by { if i == 0 { FrontIsNotNewest(t, all); } }
      DropFrontKeepsLast(t, e, i);
    }
  }

  lemma DropFrontKeepsLast(t: seq<SessionEvent>, e: SessionEvent, i: nat)
    requires 0 < i < |t| && t[i] == e && forall j :: i < j < |t| ==> Before(e, t[j])
    ensures e in t[1..] && IsLastOfItsCursor(t[1..], e)
  {
    assert t[1..][i - 1] == e;
    assert forall j :: i - 1 < j < |t[1..]| ==> t[1..][j] == t[j + 1];
  }

  /** Frames of an id that is held change nothing. */
  lemma {:induction false} HeldIdIsIgnored(run: seq<SessionEvent>, more: seq<SessionEvent>, id: string)
    requires Holds(After(run), id) && forall x :: x in more ==> x.id == id
    ensures After(run + more) == After(run)
  {
    if more == [] {
      assert run + more == run;
    } else {
      var init, x := more[..|more| - 1], more[|more| - 1];
      assert forall y :: y in init ==> y in more;
      HeldIdIsIgnored(run, init, id);
      assert x in more && run + more == (run + init) + [x];
      AfterOneMore(run + init, x);
    }
  }

  /** Frames of other ids bring no event of this one. */
  lemma {:induction false} OtherIdsBringNone(run: seq<SessionEvent>, more: seq<SessionEvent>, e: SessionEvent)
    requires e !in After(run) && forall x :: x in more ==> x.id != e.id
    ensures e !in After(run + more)
  {
    if more == [] {
      assert run + more == run;
    } else {
      var init, x := more[..|more| - 1], more[|more| - 1];
      assert forall y :: y in init ==> y in more;
      OtherIdsBringNone(run, init, e);
      assert x in more && run + more == (run + init) + [x];
      AfterOneMore(run + init, x);
      WindowIsKept(run + init);
      AddIsKept(After(run + init), Received(run + init), x);
    }
  }

  lemma ReceivedTogether(a: seq<SessionEvent>, b: seq<SessionEvent>)
    ensures Received(a + b) == Received(a) + Received(b)
  {
  }

  /** An event due a place, arriving first of its id, keeps it; arriving after
      another of its id, it never enters. */
  lemma SharedIdMatters(all: set<SessionEvent>, a: SessionEvent, b: SessionEvent)
    returns (run: seq<SessionEvent>, other: seq<SessionEvent>)
    requires a in all && b in all && a != b && a.id == b.id && IsNewest(all, a)
    ensures Received(run) == all && Received(other) == all && After(run) != After(other)
  {
    var same := set x | x in all && x.id == a.id;
    var ids := SomeOrder(same);
    var rest := SomeOrder(all - same);
    assert forall x :: x in ids ==> x in Received(ids);
    assert forall x :: x in rest ==> x in Received(rest);
    run, other := rest + [a] + ids, [b] + ids + rest;
    FirstOfItsIdStays(all, rest, ids, a);
    LaterOfItsIdStaysOut(rest, ids, a, b);
    ReceivedTogether(rest + [a], ids);
    ReceivedTogether(rest, [a]);
    ReceivedTogether([b] + ids, rest);
    ReceivedTogether([b], ids);
    assert Received([a]) == {a} && Received([b]) == {b};
  }

  lemma FirstOfItsIdStays(all: set<SessionEvent>, rest: seq<SessionEvent>, ids: seq<SessionEvent>, a: SessionEvent)
    requires a in all && IsNewest(all, a) && Received(rest) <= all
    requires (forall x :: x in rest ==> x.id != a.id) && forall x :: x in ids ==> x.id == a.id
    ensures a in After(rest + [a] + ids)
  {
    WindowIsKept(rest);
    var s := After(rest);
    assert forall x :: x in s ==> x in Received(rest);
    AfterOneMore(rest, a);
    NewestArrives(s, all, a);
    HeldIdIsIgnored(rest + [a], ids, a.id);
  }

  lemma LaterOfItsIdStaysOut(rest: seq<SessionEvent>, ids: seq<SessionEvent>, a: SessionEvent, b: SessionEvent)
    requires a != b && a.id == b.id
    requires (forall x :: x in rest ==> x.id != a.id) && forall x :: x in ids ==> x.id == a.id
    ensures a !in After([b] + ids + rest)
  {
    AfterOneMore([], b);
    assert [] + [b] == [b];
    var t := Arrival([], {}, b);
    assert b in After([b]);
    HeldIdIsIgnored([b], ids, b.id);
    WindowIsKept([b]);
    var k :| 0 <= k < |t| && t[k] == b;
    assert a !in t;
    OtherIdsBringNone([b] + ids, rest, a);
  }

  /** Of two due a place at one cursor, the last to arrive stands last. */
  lemma SharedCursorMatters(all: set<SessionEvent>, a: SessionEvent, b: SessionEvent)
    returns (run: seq<SessionEvent>, other: seq<SessionEvent>)
    requires a in all && b in all && a != b && SameCursor(a, b) && IsNewest(all, a)
    requires forall x :: x in all && x.id == a.id ==> x == a
    requires forall x :: x in all && x.id == b.id ==> x == b
    ensures Received(run) == all && Received(other) == all && After(run) != After(other)
  {
    var rest := SomeOrder(all - {a, b});
    run, other := (rest + [a]) + [b], (rest + [b]) + [a];
    TwoMoreReceived(rest, a, b);
    TwoMoreReceived(rest, b, a);
    assert all - {a, b} + {a} + {b} == all && all - {a, b} + {b} + {a} == all;
    assert Later(all, a) == Later(all, b);
    SecondStandsLast(all, rest, a, b);
    SecondStandsLast(all, rest, b, a);
    if After(run) == After(other) { OnlyOneIsLast(After(run), a, b); }
  }

  lemma SecondStandsLast(all: set<SessionEvent>, rest: seq<SessionEvent>, a: SessionEvent, b: SessionEvent)
    requires Received(rest) == all - {a, b} && a in all && b in all && a != b && IsNewest(all, b)
    requires forall x :: x in all && x.id == b.id ==> x == b
    ensures IsLastOfItsCursor(After((rest + [a]) + [b]), b)
  {
    AfterOneMore(rest, a);
    assert forall x :: x in rest ==> x in Received(rest);
    LastArrivalStandsLast(all, rest + [a], b);
  }

  lemma TwoMoreReceived(rest: seq<SessionEvent>, a: SessionEvent, b: SessionEvent)
    ensures Received((rest + [a]) + [b]) == Received(rest) + {a} + {b}
  {
    AfterOneMore(rest, a);
    AfterOneMore(rest + [a], b);
  }

  lemma LastArrivalStandsLast(all: set<SessionEvent>, run: seq<SessionEvent>, e: SessionEvent)
    requires Received(run) <= all && e in all && e !in run && IsNewest(all, e)
    requires forall x :: x in all && x.id == e.id ==> x == e
    ensures IsLastOfItsCursor(After(run + [e]), e)
  {
    WindowIsKept(run);
    AfterOneMore(run, e);
    assert forall x :: x in After(run) ==> x in Received(run) && x in run;
    NewestArrives(After(run), all, e);
  }

  /** Which of the two collisions there is. */
  lemma CollisionMatters(all: set<SessionEvent>, a: SessionEvent, b: SessionEvent)
    returns (run: seq<SessionEvent>, other: seq<SessionEvent>)
    requires a in all && b in all && Collide(a, b) && IsNewest(all, a)
    ensures Received(run) == all && Received(other) == all && After(run) != After(other)
  {
    if x :| x in all && x.id == a.id && x != a {
      run, other := SharedIdMatters(all, a, x);
    } else {
      assert Later(all, a) == Later(all, b);
      if x :| x in all && x.id == b.id && x != b {
        run, other := SharedIdMatters(all, b, x);
      } else {
        run, other := SharedCursorMatters(all, a, b);
      }
    }
  }

  ghost predicate OrderIsIrrelevant(all: set<SessionEvent>) {
    forall run, other :: Received(run) == all && Received(other) == all ==> After(run) == After(other)
  }

  /** A set of events, however large, ends in one window in whatever order and however
      often they arrive, exactly when no event due a place in it shares its id or its
      cursor with another. */
  lemma ArrivalOrderMattersIff(all: set<SessionEvent>)
    ensures OrderIsIrrelevant(all) <==> NewestAreClear(all)
  {
    if NewestAreClear(all) {
      forall run, other | Received(run) == all && Received(other) == all ensures After(run) == After(other) {
        ClearSetsEndAlike(run, other);
      }
    } else {
      var a, b :| a in all && b in all && Collide(a, b) && IsNewest(all, a);
      var run, other := CollisionMatters(all, a, b);
    }
  }
}
