/** The roster accent allocator and the identity order it is fed (`card-style.ts`). */
module Accents {
  import opened AccentColor
  import opened AccentLuminance
  import opened Options
  import opened Ordering

  // #e24033 #c75e00 #a27400 #2c8e46 #00899a #3c7adf #6977c5 #a74ef5 #d83d98 #c05e68
  const ACCENTS: seq<Rgb> := [
    Rgb(0xe2, 0x40, 0x33), Rgb(0xc7, 0x5e, 0x00), Rgb(0xa2, 0x74, 0x00), Rgb(0x2c, 0x8e, 0x46),
    Rgb(0x00, 0x89, 0x9a), Rgb(0x3c, 0x7a, 0xdf), Rgb(0x69, 0x77, 0xc5), Rgb(0xa7, 0x4e, 0xf5),
    Rgb(0xd8, 0x3d, 0x98), Rgb(0xc0, 0x5e, 0x68)]

  const HUE_STEP_DEGREES := 37
  const RAW_LUMINANCE := 0.202
  const MAX_ATTEMPTS := 360

  /** The base colours, and a base turned by whole degrees and brought back to
      the raw luminance. */
  datatype RawPalette = Palette(bases: seq<Rgb>, paint: (Rgb, int) -> Rgb)
  type Palette = p: RawPalette | p.bases != [] witness Palette([Rgb(0, 0, 0)], (c, d) => c)

  function Rotations(relight: Rgb -> Rgb): (Rgb, int) -> Rgb {
    (base: Rgb, degrees: int) => relight(RotateHue(base, degrees as real))
  }

  function AccentPalette(gamma: seq<real>): Palette
    requires |gamma| == 256
  {
    Palette(ACCENTS, Rotations((c: Rgb) => WithLuminance(gamma, c, RAW_LUMINANCE)))
  }

  // -------------------------------------------------------------- allocation

  function Base(p: Palette, index: nat): Rgb { p.bases[index % |p.bases|] }

  function Cycle(p: Palette, index: nat): nat { index / |p.bases| }

  /** The colour tried for a roster position at one attempt; attempt 0 is the first choice. */
  function Candidate(p: Palette, index: nat, attempt: nat): Rgb {
    if attempt == 0 && Cycle(p, index) == 0 then Base(p, index)
    else p.paint(Base(p, index), Cycle(p, index) * HUE_STEP_DEGREES + attempt)
  }

  /** The first candidate from `attempt` on that nobody holds. */
  function FirstFree(p: Palette, index: nat, taken: set<Rgb>, attempt: nat): Option<Rgb>
    requires attempt <= MAX_ATTEMPTS
    decreases MAX_ATTEMPTS - attempt
  {
    var candidate := Candidate(p, index, attempt);
    if candidate !in taken then Some(candidate)
    else if attempt == MAX_ATTEMPTS then None
    else FirstFree(p, index, taken, attempt + 1)
  }

  /** The thrown error names the roster position it gave up on. */
  datatype Allocation = Allocated(accents: seq<Rgb>) | Exhausted(position: nat)

  function Colors(accents: seq<Rgb>): set<Rgb> { set c | c in accents }

  function Allocate(p: Palette, people: nat): Allocation {
    if people == 0 then Allocated([])
    else match Allocate(p, people - 1)
      case Exhausted(position) => Exhausted(position)
      case Allocated(accents) =>
        match FirstFree(p, people - 1, Colors(accents), 0)
        case None => Exhausted(people - 1)
        case Some(c) => Allocated(accents + [c])
  }

  /** The probing of one position: its first choice, then a degree further at a time
      while the candidate is taken. */
  method Probe(p: Palette, index: nat, taken: set<Rgb>) returns (candidate: Rgb)
    ensures FirstFree(p, index, taken, 0) == if candidate in taken then None else Some(candidate)
  {
    var base, cycle := Base(p, index), Cycle(p, index);
    candidate := if cycle == 0 then base else p.paint(base, cycle * HUE_STEP_DEGREES);
    var attempt := 1;
    while candidate in taken && attempt <= MAX_ATTEMPTS
      invariant 1 <= attempt <= MAX_ATTEMPTS + 1
      invariant candidate == Candidate(p, index, attempt - 1)
      invariant FirstFree(p, index, taken, 0) == FirstFree(p, index, taken, attempt - 1)
      decreases MAX_ATTEMPTS + 1 - attempt
    {
      candidate := p.paint(base, cycle * HUE_STEP_DEGREES + attempt);
      attempt := attempt + 1;
    }
  }

  /** The loop of `organizationPersonAccents`: only the length of the order
      matters to the colours. */
  method AllocateInOrder(p: Palette, peopleOrder: seq<string>) returns (result: Allocation)
    ensures result == Allocate(p, |peopleOrder|)
  {
    var accents: seq<Rgb> := [];
    var taken: set<Rgb> := {};
    for index := 0 to |peopleOrder|
      invariant Allocate(p, index) == Allocated(accents) && taken == Colors(accents)
    {
      var candidate := Probe(p, index, taken);
      GivingUp(p, |peopleOrder|, index + 1);
      if candidate in taken {
        return Exhausted(index);
      }
      taken := taken + {candidate};
      assert Colors(accents + [candidate]) == taken;
      accents := accents + [candidate];
    }
    result := Allocated(accents);
  }

  method OrganizationPersonAccents(gamma: seq<real>, peopleOrder: seq<string>) returns (result: Allocation)
    requires |gamma| == 256
    ensures result == Allocate(AccentPalette(gamma), |peopleOrder|)
  {
    result := AllocateInOrder(AccentPalette(gamma), peopleOrder);
  }

  /** Once a position cannot be coloured, no longer roster can be. */
  lemma {:induction false} GivingUp(p: Palette, people: nat, fewer: nat)
    requires fewer <= people
    ensures Allocate(p, fewer).Exhausted? ==> Allocate(p, people) == Allocate(p, fewer)
    decreases people - fewer
  {
    if fewer < people { GivingUp(p, people, fewer + 1); }
  }

  lemma {:induction false} FirstFreeIsFirst(p: Palette, index: nat, taken: set<Rgb>, attempt: nat)
    requires attempt <= MAX_ATTEMPTS
    ensures match FirstFree(p, index, taken, attempt)
            case None => forall a :: attempt <= a <= MAX_ATTEMPTS ==> Candidate(p, index, a) in taken
            case Some(c) => c !in taken && exists a ::
              && attempt <= a <= MAX_ATTEMPTS && c == Candidate(p, index, a)
              && forall earlier :: attempt <= earlier < a ==> Candidate(p, index, earlier) in taken
    decreases MAX_ATTEMPTS - attempt
  {
    if Candidate(p, index, attempt) in taken && attempt < MAX_ATTEMPTS {
      FirstFreeIsFirst(p, index, taken, attempt + 1);
    }
  }

  /** Each person holds the first candidate of their position that everybody
      before them left free. */
  lemma {:induction false} AccentIsFirstFree(p: Palette, people: nat, i: nat)
    requires Allocate(p, people).Allocated? && i < people
    ensures var accents := Allocate(p, people).accents;
            && |accents| == people
            && FirstFree(p, i, Colors(accents[..i]), 0) == Some(accents[i])
  {
    var before, accents := Allocate(p, people - 1).accents, Allocate(p, people).accents;
    AllocationLength(p, people);
    AllocationLength(p, people - 1);
    if i < people - 1 {
      AccentIsFirstFree(p, people - 1, i);
      assert accents[..i] == before[..i];
    } else {
      assert accents[..i] == before;
    }
  }

  lemma {:induction false} AllocationLength(p: Palette, people: nat)
    requires Allocate(p, people).Allocated?
    ensures |Allocate(p, people).accents| == people
  {
    if people > 0 { AllocationLength(p, people - 1); }
  }

  /** What the person at this place of this lap tries after so many refusals: on the
      first lap their base colour, and otherwise that base turned by 37 degrees for
      each lap and one degree for each refusal. */
  function Tried(p: Palette, lap: nat, place: nat, refusals: nat): Rgb
    requires place < |p.bases|
  {
    if lap == 0 && refusals == 0 then p.bases[place] else p.paint(p.bases[place], 37 * lap + refusals)
  }

  lemma PlaceOnLap(size: nat, lap: nat, place: nat)
    requires place < size
    ensures (lap * size + place) / size == lap && (lap * size + place) % size == place
  {
    var i := lap * size + place;
    assert i == i / size * size + i % size;
    LapIsUnique(size, lap, place, i / size, i % size);
  }

  lemma LapIsUnique(size: nat, lap: int, place: nat, otherLap: int, otherPlace: nat)
    requires place < size && otherPlace < size && lap * size + place == otherLap * size + otherPlace
    ensures lap == otherLap && place == otherPlace
  {
    var more := lap - otherLap;
    assert more * size == lap * size - otherLap * size;
    WholeLaps(size, more, otherPlace - place);
  }

  lemma WholeLaps(size: nat, more: int, less: int)
    requires 0 < size + less && less < size && more * size == less
    ensures more == 0
  {
    if more >= 1 {
      OneLapAtLeast(size, more);
    } else if more <= -1 {
      OneLapAtLeast(size, -more);
    }
  }

  lemma OneLapAtLeast(size: nat, more: int)
    requires more >= 1
    ensures more * size >= size
  {
    assert more * size == (more - 1) * size + size;
  }

  /** Lap after lap, each person holds the first of the colours they try that nobody
      before them holds, within 360 refusals. */
  lemma PersonHoldsFirstFree(p: Palette, people: nat, lap: nat, place: nat) returns (refusals: nat)
    requires Allocate(p, people).Allocated? && place < |p.bases| && lap * |p.bases| + place < people
    ensures var i, accents := lap * |p.bases| + place, Allocate(p, people).accents;
            && |accents| == people && refusals <= 360
            && accents[i] == Tried(p, lap, place, refusals) && accents[i] !in accents[..i]
            && forall r :: 0 <= r < refusals ==> Tried(p, lap, place, r) in accents[..i]
  {
    var i, accents := lap * |p.bases| + place, Allocate(p, people).accents;
    AccentIsFirstFree(p, people, i);
    PlaceOnLap(|p.bases|, lap, place);
    assert forall r: nat :: Candidate(p, i, r) == Tried(p, lap, place, r);
    var held := Colors(accents[..i]);
    FirstFreeIsFirst(p, i, held, 0);
    refusals :| 0 <= refusals <= MAX_ATTEMPTS && accents[i] == Candidate(p, i, refusals)
      && forall earlier :: 0 <= earlier < refusals ==> Candidate(p, i, earlier) in held;
    forall r | 0 <= r < refusals ensures Tried(p, lap, place, r) in accents[..i] {
      assert Candidate(p, i, r) in held;
    }
  }

  /** A base of the published palette, turned, comes back to a luminance of 0.202: it is
      one of two neighbouring colours on either side of it. */
  lemma PaintIsNearRawLuminance(gamma: seq<real>, base: Rgb, degrees: int) returns (lower: Rgb, upper: Rgb)
    requires IsTransferCurve(gamma)
    ensures AccentPalette(gamma).paint(base, degrees) == WithLuminance(gamma, RotateHue(base, degrees as real), 0.202)
    ensures AccentPalette(gamma).paint(base, degrees) in {lower, upper} && AreNeighbours(lower, upper)
    ensures Luminance(gamma, lower) < 0.202 <= Luminance(gamma, upper)
  {
    lower, upper := WithLuminanceIsANeighbour(gamma, RotateHue(base, degrees as real), 0.202);
  }

  /** The palette as published. */
  lemma PublishedAccents()
    ensures |ACCENTS| == 10
    ensures Hex(ACCENTS[0]) == "#e24033" && Hex(ACCENTS[1]) == "#c75e00" && Hex(ACCENTS[2]) == "#a27400"
    ensures Hex(ACCENTS[3]) == "#2c8e46" && Hex(ACCENTS[4]) == "#00899a" && Hex(ACCENTS[5]) == "#3c7adf"
    ensures Hex(ACCENTS[6]) == "#6977c5" && Hex(ACCENTS[7]) == "#a74ef5" && Hex(ACCENTS[8]) == "#d83d98"
    ensures Hex(ACCENTS[9]) == "#c05e68"
  {
    FirstAccents();
    LastAccents();
  }

  lemma FirstAccents()
    ensures Hex(ACCENTS[0]) == "#e24033" && Hex(ACCENTS[1]) == "#c75e00" && Hex(ACCENTS[2]) == "#a27400"
    ensures Hex(ACCENTS[3]) == "#2c8e46" && Hex(ACCENTS[4]) == "#00899a"
  {
    HexIs(Rgb(0xe2, 0x40, 0x33), "#e24033");
    HexIs(Rgb(0xc7, 0x5e, 0x00), "#c75e00");
    HexIs(Rgb(0xa2, 0x74, 0x00), "#a27400");
    HexIs(Rgb(0x2c, 0x8e, 0x46), "#2c8e46");
    HexIs(Rgb(0x00, 0x89, 0x9a), "#00899a");
  }

  lemma LastAccents()
    ensures Hex(ACCENTS[5]) == "#3c7adf" && Hex(ACCENTS[6]) == "#6977c5" && Hex(ACCENTS[7]) == "#a74ef5"
    ensures Hex(ACCENTS[8]) == "#d83d98" && Hex(ACCENTS[9]) == "#c05e68"
  {
    HexIs(Rgb(0x3c, 0x7a, 0xdf), "#3c7adf");
    HexIs(Rgb(0x69, 0x77, 0xc5), "#6977c5");
    HexIs(Rgb(0xa7, 0x4e, 0xf5), "#a74ef5");
    HexIs(Rgb(0xd8, 0x3d, 0x98), "#d83d98");
    HexIs(Rgb(0xc0, 0x5e, 0x68), "#c05e68");
  }

  /** Nobody shares a colour. */
  lemma AccentsAreDistinct(p: Palette, people: nat)
    requires Allocate(p, people).Allocated?
    ensures |Allocate(p, people).accents| == people && NoDuplicates(Allocate(p, people).accents)
  {
    var accents := Allocate(p, people).accents;
    AllocationLength(p, people);
    forall i, j | 0 <= i < j < people ensures accents[i] != accents[j] {
      AccentIsFirstFree(p, people, j);
      FirstFreeIsFirst(p, j, Colors(accents[..j]), 0);
      assert accents[..j][i] in Colors(accents[..j]);
    }
  }

  /** A roster that grows at its end repaints nobody. */
  lemma {:induction false} AccentsArePrefixStable(p: Palette, people: nat, fewer: nat)
    requires fewer <= people && Allocate(p, people).Allocated?
    ensures Allocate(p, fewer).Allocated?
    ensures Allocate(p, fewer).accents <= Allocate(p, people).accents
    decreases people - fewer
  {
    if fewer < people {
      AccentsArePrefixStable(p, people, fewer + 1);
    }
  }

  // ---------------------------------------------------- when allocation fails

  ghost predicate Periodic(paint: (Rgb, int) -> Rgb) {
    forall base, degrees, turns {:trigger paint(base, degrees + 360 * turns)} ::
      paint(base, degrees + 360 * turns) == paint(base, degrees)
  }

  lemma WholeDegreesRepeat(base: Rgb, degrees: int, turns: int)
    ensures RotateHue(base, (degrees + 360 * turns) as real) == RotateHue(base, degrees as real)
  {
    RotationIsPeriodic(base, degrees as real, turns);
    assert (degrees + 360 * turns) as real == degrees as real + 360.0 * turns as real;
  }

  lemma RotationsArePeriodic(relight: Rgb -> Rgb)
    ensures Periodic(Rotations(relight))
  {
    var paint := Rotations(relight);
    forall base, degrees, turns {:trigger paint(base, degrees + 360 * turns)}
      ensures paint(base, degrees + 360 * turns) == paint(base, degrees)
    {
      WholeDegreesRepeat(base, degrees, turns);
    }
  }

  lemma AccentPaletteIsPeriodic(gamma: seq<real>)
    requires |gamma| == 256
    ensures Periodic(AccentPalette(gamma).paint)
  {
    RotationsArePeriodic((c: Rgb) => WithLuminance(gamma, c, RAW_LUMINANCE));
  }

  /** The probes of a position reach every whole degree of its base's wheel. */
  lemma EveryDegreeIsProbed(p: Palette, index: nat, d: int) returns (attempt: nat)
    requires Periodic(p.paint) && 0 <= d < 360
    ensures 1 <= attempt <= MAX_ATTEMPTS && Candidate(p, index, attempt) == p.paint(Base(p, index), d)
  {
    var offset := Cycle(p, index) * HUE_STEP_DEGREES;
    attempt := (d - offset - 1) % 360 + 1;
    var turns := (offset + attempt - d) / 360;
    assert offset + attempt == d + 360 * turns;
    assert p.paint(Base(p, index), d + 360 * turns) == p.paint(Base(p, index), d);
  }

  /** ... and reach nothing else, but for the untouched base on the first lap. */
  lemma EveryProbeIsADegree(p: Palette, index: nat, attempt: nat) returns (d: int)
    requires Periodic(p.paint) && (attempt > 0 || Cycle(p, index) > 0)
    ensures 0 <= d < 360 && Candidate(p, index, attempt) == p.paint(Base(p, index), d)
  {
    var degrees := Cycle(p, index) * HUE_STEP_DEGREES + attempt;
    d := degrees % 360;
    assert p.paint(Base(p, index), d + 360 * (degrees / 360)) == p.paint(Base(p, index), d);
  }

  /** All the position could ever try: every whole-degree rotation of its base, and the
      untouched base on the first lap. */
  ghost predicate HoldsEveryTry(p: Palette, position: nat, held: set<Rgb>) {
    && (forall d :: 0 <= d < 360 ==> p.paint(Base(p, position), d) in held)
    && (Cycle(p, position) == 0 ==> Base(p, position) in held)
  }

  /** Past the first lap of the palette the probes try every whole-degree rotation
      of the base, so giving up means all 360 of them are held; on the first lap
      the untouched base is held as well. */
  lemma ExhaustedMeansEveryHueTaken(p: Palette, index: nat, taken: set<Rgb>)
    requires Periodic(p.paint)
    ensures FirstFree(p, index, taken, 0).None? <==> HoldsEveryTry(p, index, taken)
  {
    FirstFreeIsFirst(p, index, taken, 0);
    if FirstFree(p, index, taken, 0).None? {
      assert Candidate(p, index, 0) in taken;
      forall d | 0 <= d < 360 ensures p.paint(Base(p, index), d) in taken {
        var attempt := EveryDegreeIsProbed(p, index, d);
      }
    } else {
      var a :| 0 <= a <= MAX_ATTEMPTS && Candidate(p, index, a) !in taken;
      if a > 0 || Cycle(p, index) > 0 {
        var d := EveryProbeIsADegree(p, index, a);
      }
    }
  }

  /** The allocator throws for a position exactly when everybody before it could be
      coloured and they hold every colour the position could ever try. */
  lemma {:induction false} ThrowsOnlyWhenExhausted(p: Palette, people: nat, position: nat)
    requires Periodic(p.paint)
    ensures Allocate(p, people) == Exhausted(position) <==>
              && position < people && Allocate(p, position).Allocated?
              && HoldsEveryTry(p, position, Colors(Allocate(p, position).accents))
  {
    if people > 0 {
      var before := Allocate(p, people - 1);
      if before.Allocated? {
        ExhaustedMeansEveryHueTaken(p, people - 1, Colors(before.accents));
        if position < people - 1 { ThrowsOnlyWhenExhausted(p, people - 1, position); }
      } else {
        ThrowsOnlyWhenExhausted(p, people - 1, position);
      }
    }
  }

  /** Steps of 37 degrees come back to a hue only after a whole 360 of them. */
  lemma HueStepsAreDistinct(i: nat, j: nat)
    requires i <= j && (i * HUE_STEP_DEGREES) % 360 == (j * HUE_STEP_DEGREES) % 360
    ensures (j - i) % 360 == 0
  {
    var d, k := j - i, (j * 37) / 360 - (i * 37) / 360;
    assert 37 * d == 360 * k;
    assert d == 360 * (253 * k - 26 * d);
  }

  /** The first lap of the palette hands out the palette itself, unrotated. */
  lemma {:induction false} FirstLapIsThePalette(p: Palette, people: nat)
    requires people <= |p.bases| && NoDuplicates(p.bases)
    ensures Allocate(p, people) == Allocated(p.bases[..people])
  {
    if people > 0 {
      FirstLapIsThePalette(p, people - 1);
      assert p.bases[..people] == p.bases[..people - 1] + [p.bases[people - 1]];
      SmallQuotient(people - 1, |p.bases|);
      assert Candidate(p, people - 1, 0) == p.bases[people - 1];
    }
  }

  lemma SmallQuotient(index: nat, size: nat)
    requires index < size
    ensures index / size == 0 && index % size == index
  {
  }

  lemma AccentsAreDistinctBases()
    ensures NoDuplicates(ACCENTS)
  {
  }

  /** Up to ten people receive the ten published accents, in order and unrotated. */
  lemma FirstTenAreThePalette(gamma: seq<real>, people: nat)
    requires |gamma| == 256 && people <= 10
    ensures Allocate(AccentPalette(gamma), people) == Allocated(ACCENTS[..people])
  {
    AccentsAreDistinctBases();
    FirstLapIsThePalette(AccentPalette(gamma), people);
  }

  // ---------------------------------------------------------- identity order

  function CreatedAt(people: map<string, string>, id: string): string {
    if id in people then people[id] else ""
  }

  /** The comparator `identityAccentOrder` sorts by; `collate` is `localeCompare`. */
  function IdentityOrder(collate: (string, string) -> bool, people: map<string, string>): (string, string) -> bool {
    (left, right) =>
      if CreatedAt(people, left) != CreatedAt(people, right)
      then collate(CreatedAt(people, left), CreatedAt(people, right))
      else collate(left, right)
  }

  /** `identityAccentOrder`, given the keys in the order the object holds them. */
  function IdentityAccentOrder(collate: (string, string) -> bool, people: map<string, string>, keys: seq<string>)
    : seq<string>
  {
    Sort(IdentityOrder(collate, people), keys)
  }

  ghost predicate Enumerates(keys: seq<string>, people: map<string, string>) {
    NoDuplicates(keys) && forall id :: id in keys <==> id in people
  }

  lemma IdentityOrderIsTotal(collate: (string, string) -> bool, people: map<string, string>)
    requires TotalOrder(collate)
    ensures TotalOrder(IdentityOrder(collate, people))
  {
    var leq := IdentityOrder(collate, people);
    forall x, y ensures leq(x, y) || leq(y, x) {
      assert collate(x, y) || collate(y, x);
      assert collate(CreatedAt(people, x), CreatedAt(people, y)) || collate(CreatedAt(people, y), CreatedAt(people, x));
    }
    forall x, y, z | leq(x, y) && leq(y, z) ensures leq(x, z) {
      var a, b, c := CreatedAt(people, x), CreatedAt(people, y), CreatedAt(people, z);
      assert a != b && b != c ==> collate(a, c);
    }
    forall x, y | leq(x, y) && leq(y, x) ensures x == y {
      assert CreatedAt(people, x) == CreatedAt(people, y);
    }
  }

  lemma OrderedPair(collate: (string, string) -> bool, people: map<string, string>, left: string, right: string)
    requires left in people && right in people && IdentityOrder(collate, people)(left, right)
    ensures if people[left] == people[right] then collate(left, right) else collate(people[left], people[right])
  {
    assert CreatedAt(people, left) == people[left] && CreatedAt(people, right) == people[right];
  }

  /** In the order the allocator is fed, nobody stands before a person with an earlier
      `createdAt`, nor, `createdAt` being equal, before one with an earlier id. */
  lemma OrderIsByCreation(collate: (string, string) -> bool, people: map<string, string>, keys: seq<string>)
    requires TotalOrder(collate) && Enumerates(keys, people)
    ensures var order := IdentityAccentOrder(collate, people, keys);
            && multiset(order) == multiset(keys) && (forall id :: id in order ==> id in people)
            && forall i, j :: 0 <= i < j < |order| ==>
                 if people[order[i]] == people[order[j]] then collate(order[i], order[j])
                 else collate(people[order[i]], people[order[j]])
  {
    IdentityOrderIsTotal(collate, people);
    SortIsSorted(IdentityOrder(collate, people), keys);
    var order := IdentityAccentOrder(collate, people, keys);
    forall id | id in order ensures id in people { assert id in multiset(order) && id in keys; }
    forall i, j | 0 <= i < j < |order|
      ensures if people[order[i]] == people[order[j]] then collate(order[i], order[j])
              else collate(people[order[i]], people[order[j]])
    {
      assert order[i] in order && order[j] in order;
      assert Sorted(IdentityOrder(collate, people), order);
      OrderedPair(collate, people, order[i], order[j]);
    }
  }

  lemma {:induction false} CountOfDistinct(a: seq<string>, x: string)
    requires NoDuplicates(a)
    ensures multiset(a)[x] == if x in a then 1 else 0
  {
    if a != [] {
      assert a == [a[0]] + a[1..];
      CountOfDistinct(a[1..], x);
    }
  }

  /** Everyone in `grown` and not in `people` has a `createdAt` after all of `people`. */
  ghost predicate GrownLater(collate: (string, string) -> bool,
                             people: map<string, string>, grown: map<string, string>) {
    && (forall id :: id in people ==> id in grown && grown[id] == people[id])
    && (forall p, q :: p in people && q in grown && q !in people ==>
          people[p] != grown[q] && collate(people[p], grown[q]))
  }

  function Newcomers(keys: seq<string>, people: map<string, string>): seq<string> {
    if keys == [] then []
    else if keys[0] in people then Newcomers(keys[1..], people)
    else [keys[0]] + Newcomers(keys[1..], people)
  }

  lemma {:induction false} CountNewcomers(keys: seq<string>, people: map<string, string>, x: string)
    ensures multiset(Newcomers(keys, people))[x] == if x in people then 0 else multiset(keys)[x]
  {
    if keys != [] {
      assert keys == [keys[0]] + keys[1..];
      CountNewcomers(keys[1..], people, x);
    }
  }

  /** The old order followed by the sorted newcomers is already sorted for the
      grown roster, because every newcomer ranks after everyone before. */
  lemma OldThenNewIsSorted(collate: (string, string) -> bool, people: map<string, string>, grown: map<string, string>,
                           order: seq<string>, hired: seq<string>)
    requires GrownLater(collate, people, grown)
    requires Sorted(IdentityOrder(collate, people), order) && Sorted(IdentityOrder(collate, grown), hired)
    requires forall x :: x in order ==> x in people
    requires forall x :: x in hired ==> x in grown && x !in people
    ensures Sorted(IdentityOrder(collate, grown), order + hired)
  {
    var leq, s := IdentityOrder(collate, grown), order + hired;
    forall i, j | 0 <= i < j < |s| ensures leq(s[i], s[j]) {
      if j < |order| {
        assert s[i] == order[i] && s[j] == order[j];
        assert order[i] in people && order[j] in people;
        assert IdentityOrder(collate, people)(order[i], order[j]);
        assert CreatedAt(grown, order[i]) == CreatedAt(people, order[i]);
        assert CreatedAt(grown, order[j]) == CreatedAt(people, order[j]);
      } else if |order| <= i {
        assert s[i] == hired[i - |order|] && s[j] == hired[j - |order|];
        assert leq(hired[i - |order|], hired[j - |order|]);
      } else {
        var x, y := order[i], hired[j - |order|];
        assert s[i] == x && s[j] == y && x in people && y in hired;
        assert people[x] != grown[y] && collate(people[x], grown[y]);
        assert CreatedAt(grown, x) == people[x] && CreatedAt(grown, y) == grown[y];
      }
    }
  }

  lemma OldThenNewIsEveryone(people: map<string, string>, grown: map<string, string>,
                             keys: seq<string>, grownKeys: seq<string>)
    requires Enumerates(keys, people) && Enumerates(grownKeys, grown) && people.Keys <= grown.Keys
    ensures multiset(keys) + multiset(Newcomers(grownKeys, people)) == multiset(grownKeys)
    ensures forall x :: x in Newcomers(grownKeys, people) ==> x in grown && x !in people
  {
    forall x ensures (multiset(keys) + multiset(Newcomers(grownKeys, people)))[x] == multiset(grownKeys)[x] {
      CountNewcomers(grownKeys, people, x);
      CountOfDistinct(keys, x);
      CountOfDistinct(grownKeys, x);
    }
    forall x | x in Newcomers(grownKeys, people) ensures x in grown && x !in people {
      assert x in multiset(Newcomers(grownKeys, people));
      CountNewcomers(grownKeys, people, x);
    }
  }

  /** People added with a later `createdAt` sort after everyone already there. */
  lemma GrowthAppends(collate: (string, string) -> bool, people: map<string, string>, grown: map<string, string>,
                      keys: seq<string>, grownKeys: seq<string>)
    requires TotalOrder(collate) && Enumerates(keys, people) && Enumerates(grownKeys, grown)
    requires GrownLater(collate, people, grown)
    ensures IdentityAccentOrder(collate, people, keys) <= IdentityAccentOrder(collate, grown, grownKeys)
  {
    var leq, before := IdentityOrder(collate, grown), IdentityOrder(collate, people);
    var newcomers := Newcomers(grownKeys, people);
    IdentityOrderIsTotal(collate, grown);
    IdentityOrderIsTotal(collate, people);
    SortIsSorted(before, keys);
    SortIsSorted(leq, newcomers);
    SortIsSorted(leq, grownKeys);
    var order, hired := Sort(before, keys), Sort(leq, newcomers);
    OldThenNewIsEveryone(people, grown, keys, grownKeys);
    forall x | x in order ensures x in people { assert x in multiset(order); }
    forall x | x in hired ensures x in newcomers { assert x in multiset(hired); }
    OldThenNewIsSorted(collate, people, grown, order, hired);
    SortedIsUnique(leq, order + hired, Sort(leq, grownKeys));
  }

  /** Hiring never repaints: whoever was on the roster keeps their colour when
      people with a later `createdAt` join, in whatever order the object lists them. */
  lemma GrowthKeepsColours(p: Palette, collate: (string, string) -> bool, people: map<string, string>,
                           grown: map<string, string>, keys: seq<string>, grownKeys: seq<string>)
    requires TotalOrder(collate) && Enumerates(keys, people) && Enumerates(grownKeys, grown)
    requires GrownLater(collate, people, grown)
    requires Allocate(p, |grownKeys|).Allocated?
    ensures var order := IdentityAccentOrder(collate, people, keys);
            var grownOrder := IdentityAccentOrder(collate, grown, grownKeys);
            && order <= grownOrder && |order| == |keys| && |grownOrder| == |grownKeys|
            && Allocate(p, |order|).Allocated?
            && |Allocate(p, |order|).accents| == |order|
            && |Allocate(p, |grownOrder|).accents| == |grownOrder|
            && forall i :: 0 <= i < |order| ==>
                 order[i] == grownOrder[i]
                 && Allocate(p, |order|).accents[i] == Allocate(p, |grownOrder|).accents[i]
  {
    GrowthAppends(collate, people, grown, keys, grownKeys);
    IdentityOrderIsTotal(collate, people);
    IdentityOrderIsTotal(collate, grown);
    SortIsSorted(IdentityOrder(collate, people), keys);
    SortIsSorted(IdentityOrder(collate, grown), grownKeys);
    var order, grownOrder := IdentityAccentOrder(collate, people, keys), IdentityAccentOrder(collate, grown, grownKeys);
    assert |multiset(order)| == |order| && |multiset(keys)| == |keys|;
    assert |multiset(grownOrder)| == |grownOrder| && |multiset(grownKeys)| == |grownKeys|;
    AccentsArePrefixStable(p, |grownOrder|, |order|);
    AllocationLength(p, |order|);
    AllocationLength(p, |grownOrder|);
  }
}
