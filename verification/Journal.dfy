/** The bounded rotating journal (`bus-events-bounded-append.ts`): each process
    remembers the size it believes the file has, and several processes append to
    one file without telling each other. */
module Journal {
  import opened Options

  /** A line on disk: which producer wrote it (`None` for what was there before)
      and its size in bytes, the newline included. */
  datatype Line = Line(owner: Option<nat>, bytes: nat)

  /** `path` and `path.1`. */
  datatype Files = Files(current: Option<seq<Line>>, rotated: Option<seq<Line>>)

  datatype Tracked = Tracked(bytes: nat, sinceStat: nat)

  const STAT_INTERVAL := 256

  function Lines(file: Option<seq<Line>>): seq<Line> {
    if file.None? then [] else file.value
  }

  function Size(lines: seq<Line>): nat {
    if lines == [] then 0 else Size(lines[..|lines| - 1]) + lines[|lines| - 1].bytes
  }

  /** The statistic the call decides on: remembered, or taken afresh. */
  function Consult(current: nat, tracked: Option<Tracked>, size: nat, maxBytes: nat): Tracked {
    if || tracked.None?
       || (2 * (tracked.value.bytes + size) > maxBytes && tracked.value.sinceStat >= STAT_INTERVAL)
       || tracked.value.bytes + size > maxBytes
    then Tracked(current, 0)
    else tracked.value
  }

  predicate WantsRotation(consulted: Tracked, size: nat, maxBytes: nat) {
    consulted.bytes > 0 && consulted.bytes + size > maxBytes
  }

  /** `appendBoundedJsonlLine`. Renaming a missing file fails whatever `renames` says. */
  function Append(f: Files, tracked: Option<Tracked>, line: Line, maxBytes: nat, renames: bool): (Files, Tracked) {
    var t := Consult(Size(Lines(f.current)), tracked, line.bytes, maxBytes);
    var (g, u) :=
      if !WantsRotation(t, line.bytes, maxBytes) then (f, t)
      else if renames && f.current.Some? then (Files(None, f.current), t.(bytes := 0))
      else (f, t.(sinceStat := STAT_INTERVAL));
    (g.(current := Some(Lines(g.current) + [line])), Tracked(u.bytes + line.bytes, u.sinceStat + 1))
  }

  // ------------------------------------------------------- the code in place

  class Disk {
    var files: map<string, seq<Line>>

    function At(path: string): Files
      reads this
    {
      Files(if path in files then Some(files[path]) else None,
            if path + ".1" in files then Some(files[path + ".1"]) else None)
    }
  }

  /** One process and its module-level `trackedSizes`. */
  class Producer {
    const owner: nat
    var trackedSizes: map<string, Tracked>

    constructor (owner: nat)
      ensures this.owner == owner && trackedSizes == map[]
    {
      this.owner := owner;
      trackedSizes := map[];
    }

    function TrackedAt(path: string): Option<Tracked>
      reads this
    {
      if path in trackedSizes then Some(trackedSizes[path]) else None
    }

    /** `size` is the payload's byte length, `renames` whether the file system
        lets the rotation be published. */
    method AppendBoundedJsonlLine(disk: Disk, path: string, size: nat, maxBytes: nat, renames: bool)
      modifies this, disk
      ensures trackedSizes.Keys == old(trackedSizes).Keys + {path}
      ensures (disk.At(path), trackedSizes[path])
           == Append(old(disk.At(path)), old(TrackedAt(path)), Line(Some(owner), size), maxBytes, renames)
      ensures forall p :: p != path && p in old(trackedSizes) ==> trackedSizes[p] == old(trackedSizes)[p]
      ensures forall p :: p != path && p != path + ".1" ==>
                (p in disk.files <==> p in old(disk.files))
                && (p in disk.files ==> disk.files[p] == old(disk.files)[p])
    {
      var tracked := TrackedAt(path);
      var nearCap := tracked.Some? && 2 * (tracked.value.bytes + size) > maxBytes;
      var t: Tracked;
      if || tracked.None? || (nearCap && tracked.value.sinceStat >= STAT_INTERVAL)
         || tracked.value.bytes + size > maxBytes {
        var onDisk := 0;
        if path in disk.files {
          onDisk := Size(disk.files[path]);
        }
        t := Tracked(onDisk, 0);
      } else {
        t := tracked.value;
      }
      assert |path + ".1"| != |path|;
      if t.bytes > 0 && t.bytes + size > maxBytes {
        if renames && path in disk.files {
          disk.files := (disk.files - {path})[path + ".1" := disk.files[path]];
          t := t.(bytes := 0);
        } else {
          t := t.(sinceStat := STAT_INTERVAL);
        }
      }
      var before := if path in disk.files then disk.files[path] else [];
      disk.files := disk.files[path := before + [Line(Some(owner), size)]];
      trackedSizes := trackedSizes[path := Tracked(t.bytes + size, t.sinceStat + 1)];
    }
  }

  // ---------------------------------------------------- many producers, one file

  datatype World = World(files: Files, trackers: seq<Option<Tracked>>)

  datatype Call = Call(producer: nat, bytes: nat, renames: bool)

  function Step(w: World, maxBytes: nat, c: Call): World
    requires c.producer < |w.trackers|
  {
    var line := Line(Some(c.producer), c.bytes);
    var (files, tracked) := Append(w.files, w.trackers[c.producer], line, maxBytes, c.renames);
    World(files, w.trackers[c.producer := Some(tracked)])
  }

  predicate ValidRun(producers: nat, run: seq<Call>) {
    forall c :: c in run ==> c.producer < producers
  }

  /** Atomic calls of `producers` processes in any order, on files they found there. */
  function After(found: Files, producers: nat, maxBytes: nat, run: seq<Call>): (w: World)
    requires ValidRun(producers, run)
    ensures |w.trackers| == producers
  {
    if run == [] then World(found, seq(producers, _ => None))
    else Step(After(found, producers, maxBytes, run[..|run| - 1]), maxBytes, run[|run| - 1])
  }

  // --------------------------------------------------- what a process remembers

  /** A call looks at the disk when its process remembers nothing, when the line would not
      fit what it remembers, and, once more than half the cap is full, when it has not
      looked for 256 calls. It then remembers the size the file really has and counts
      from there, or, where the file could not be moved aside, as if 256 calls had
      gone by. Any other call goes on from memory and rotates nothing. */
  lemma MemoryIsTrueOnceLooked(w: World, maxBytes: nat, c: Call)
    requires c.producer < |w.trackers|
    ensures var t, v := w.trackers[c.producer], Step(w, maxBytes, c);
            var u := v.trackers[c.producer].value;
            if || t.None?
               || t.value.bytes + c.bytes > maxBytes
               || (2 * (t.value.bytes + c.bytes) > maxBytes && t.value.sinceStat >= 256)
            then u.bytes == Size(Lines(v.files.current))
                 && u.sinceStat == if u.bytes <= maxBytes || u.bytes == c.bytes then 1 else 257
            else u == Tracked(t.value.bytes + c.bytes, t.value.sinceStat + 1) && v.files.rotated == w.files.rotated
  {
    var f, line := w.files, Line(Some(c.producer), c.bytes);
    SizeOfOneMore(Lines(f.current), line);
    SizeOfOneMore([], line);
    assert Size([]) == 0;
  }

  /** With renames succeeding, no process that remembers more than half a cap ever goes
      past 256 calls without looking. */
  lemma {:induction false} FullMemoryIsFresh(found: Files, producers: nat, maxBytes: nat, run: seq<Call>, p: nat)
    requires ValidRun(producers, run) && p < producers && forall c :: c in run ==> c.renames
    ensures var t := After(found, producers, maxBytes, run).trackers[p];
            t.Some? && t.value.sinceStat > 256 ==> 2 * t.value.bytes <= maxBytes
  {
    if run != [] {
      assert run[|run| - 1] in run;
      FullMemoryIsFresh(found, producers, maxBytes, run[..|run| - 1], p);
    }
  }

  // ----------------------------------------------------- nothing is lost early

  /** The journal, oldest line first. */
  function Kept(f: Files): seq<Line> { Lines(f.rotated) + Lines(f.current) }

  function Written(run: seq<Call>): seq<Line> {
    if run == [] then []
    else Written(run[..|run| - 1]) + [Line(Some(run[|run| - 1].producer), run[|run| - 1].bytes)]
  }

  ghost predicate IsSuffix(s: seq<Line>, whole: seq<Line>) {
    |s| <= |whole| && whole[|whole| - |s|..] == s
  }

  lemma SuffixOfMore(s: seq<Line>, whole: seq<Line>, x: Line)
    requires IsSuffix(s, whole)
    ensures IsSuffix(s + [x], whole + [x])
  {
    var cut := |whole| - |s|;
    assert (whole + [x])[cut..] == whole[cut..] + [x];
  }

  /** One call either extends the journal or, rotating, gives up only the
      generation that was already rotated. */
  lemma AppendExtends(f: Files, tracked: Option<Tracked>, line: Line, maxBytes: nat, renames: bool)
    ensures var g := Append(f, tracked, line, maxBytes, renames).0;
            && g.current.Some? && g.current.value != [] && g.current.value[|g.current.value| - 1] == line
            && (Kept(g) == Kept(f) + [line] || Kept(g) == Lines(f.current) + [line])
  {
    var g := Append(f, tracked, line, maxBytes, renames).0;
    var t := Consult(Size(Lines(f.current)), tracked, line.bytes, maxBytes);
    if WantsRotation(t, line.bytes, maxBytes) && renames && f.current.Some? {
      assert Kept(g) == Lines(f.current) + [line];
    } else {
      assert Kept(g) == Kept(f) + [line];
    }
  }

  lemma SuffixOfSuffix(f: Files, whole: seq<Line>)
    requires IsSuffix(Kept(f), whole)
    ensures IsSuffix(Lines(f.current), whole)
  {
    var n := |Lines(f.current)|;
    assert Kept(f)[|Kept(f)| - n..] == Lines(f.current);
    assert whole[|whole| - n..] == whole[|whole| - |Kept(f)|..][|Kept(f)| - n..];
  }

  lemma StepExtendsSuffix(w: World, maxBytes: nat, c: Call, whole: seq<Line>)
    requires c.producer < |w.trackers| && IsSuffix(Kept(w.files), whole)
    ensures var line, f := Line(Some(c.producer), c.bytes), Step(w, maxBytes, c).files;
            IsSuffix(Kept(f), whole + [line])
  {
    var line := Line(Some(c.producer), c.bytes);
    AppendExtends(w.files, w.trackers[c.producer], line, maxBytes, c.renames);
    SuffixOfSuffix(w.files, whole);
    SuffixOfMore(Kept(w.files), whole, line);
    SuffixOfMore(Lines(w.files.current), whole, line);
  }

  /** Whatever renames fail and however long the lines, the two files together
      are always the most recent lines ever written, in order. */
  lemma {:induction false} JournalIsRecentHistory(found: Files, producers: nat, maxBytes: nat, run: seq<Call>)
    requires ValidRun(producers, run)
    ensures IsSuffix(Kept(After(found, producers, maxBytes, run).files), Kept(found) + Written(run))
  {
    if run == [] {
      assert Kept(found) + Written(run) == Kept(found);
    } else {
      var before, c := run[..|run| - 1], run[|run| - 1];
      var line := Line(Some(c.producer), c.bytes);
      JournalIsRecentHistory(found, producers, maxBytes, before);
      StepExtendsSuffix(After(found, producers, maxBytes, before), maxBytes, c, Kept(found) + Written(before));
      AppendAssociates(Kept(found), Written(before), line);
    }
  }

  lemma AppendAssociates<T>(a: seq<T>, b: seq<T>, x: T)
    ensures a + b + [x] == a + (b + [x])
  {
  }

  /** A line is on disk, last, as soon as its call returns. */
  lemma LastLineIsOnDisk(found: Files, producers: nat, maxBytes: nat, run: seq<Call>)
    requires ValidRun(producers, run) && run != []
    ensures var current, last := After(found, producers, maxBytes, run).files.current, run[|run| - 1];
            && current.Some? && current.value != []
            && current.value[|current.value| - 1] == Line(Some(last.producer), last.bytes)
  {
    var c := run[|run| - 1];
    var w := After(found, producers, maxBytes, run[..|run| - 1]);
    AppendExtends(w.files, w.trackers[c.producer], Line(Some(c.producer), c.bytes), maxBytes, c.renames);
  }

  /** No rotation is early, whoever calls and whatever they remember: a call that
      moves the file aside found it, on disk, non-empty and too full for the line. */
  lemma RotationIsNeverEager(w: World, maxBytes: nat, c: Call)
    requires c.producer < |w.trackers|
    ensures var f, g := w.files, Step(w, maxBytes, c).files;
            g.rotated != f.rotated ==>
              0 < Size(Lines(f.current)) && Size(Lines(f.current)) + c.bytes > maxBytes && g.rotated == f.current
  {
  }

  // ------------------------------------------------------------- the size bound

  /** Bytes of `lines` written by one producer. */
  function OwnedBy(lines: seq<Line>, p: nat): nat {
    if lines == [] then 0
    else OwnedBy(lines[..|lines| - 1], p) + if lines[|lines| - 1].owner == Some(p) then lines[|lines| - 1].bytes else 0
  }

  function Unowned(lines: seq<Line>): nat {
    if lines == [] then 0
    else Unowned(lines[..|lines| - 1]) + if lines[|lines| - 1].owner == None then lines[|lines| - 1].bytes else 0
  }

  function SumOwned(lines: seq<Line>, producers: nat): nat {
    if producers == 0 then 0 else SumOwned(lines, producers - 1) + OwnedBy(lines, producers - 1)
  }

  lemma {:induction false} SumOwnedOfOneMore(lines: seq<Line>, x: Line, producers: nat)
    ensures SumOwned(lines + [x], producers)
         == SumOwned(lines, producers) + if x.owner.Some? && x.owner.value < producers then x.bytes else 0
  {
    assert (lines + [x])[..|lines|] == lines;
    if producers > 0 { SumOwnedOfOneMore(lines, x, producers - 1); }
  }

  lemma {:induction false} SumOwnedOfNone(producers: nat)
    ensures SumOwned([], producers) == 0
  {
    if producers > 0 { SumOwnedOfNone(producers - 1); }
  }

  lemma {:induction false} SizeByOwner(lines: seq<Line>, producers: nat)
    requires forall x :: x in lines ==> x.owner.Some? ==> x.owner.value < producers
    ensures Size(lines) == Unowned(lines) + SumOwned(lines, producers)
  {
    if lines == [] {
      SumOwnedOfNone(producers);
    } else {
      var init := lines[..|lines| - 1];
      assert lines == init + [lines[|lines| - 1]];
      SizeByOwner(init, producers);
      SumOwnedOfOneMore(init, lines[|lines| - 1], producers);
    }
  }

  lemma {:induction false} SumOwnedIsBounded(lines: seq<Line>, producers: nat, maxBytes: nat)
    requires forall p :: 0 <= p < producers ==> OwnedBy(lines, p) <= maxBytes
    ensures SumOwned(lines, producers) <= producers * maxBytes
  {
    if producers > 0 { SumOwnedIsBounded(lines, producers - 1, maxBytes); }
  }

  /** Whoever wants to rotate has just looked, and found something. */
  lemma RotationHasLooked(current: nat, tracked: Option<Tracked>, bytes: nat, maxBytes: nat)
    requires WantsRotation(Consult(current, tracked, bytes, maxBytes), bytes, maxBytes)
    ensures current > 0 && Consult(current, tracked, bytes, maxBytes) == Tracked(current, 0)
  {
  }

  function Bytes(tracked: Option<Tracked>): nat { if tracked.None? then 0 else tracked.value.bytes }

  /** Each producer has never forgotten more of the current file than it wrote:
      what it remembers covers its own lines and stays within the cap. */
  ghost predicate Remembered(w: World, maxBytes: nat) {
    && (forall p :: 0 <= p < |w.trackers| ==>
          OwnedBy(Lines(w.files.current), p) <= Bytes(w.trackers[p]) <= maxBytes)
    && (forall x :: x in Lines(w.files.current) ==> x.owner.Some? ==> x.owner.value < |w.trackers|)
    && (forall p :: 0 <= p < |w.trackers| && w.trackers[p].Some? ==> w.files.current.Some?)
  }

  lemma OwnedOfOneMore(lines: seq<Line>, x: Line, p: nat)
    ensures OwnedBy(lines + [x], p) == OwnedBy(lines, p) + if x.owner == Some(p) then x.bytes else 0
    ensures Unowned(lines + [x]) == Unowned(lines) + if x.owner == None then x.bytes else 0
  {
    assert (lines + [x])[..|lines|] == lines;
  }

  lemma {:induction false} OwnedIsPart(lines: seq<Line>, p: nat)
    ensures OwnedBy(lines, p) <= Size(lines)
  {
    if lines != [] { OwnedIsPart(lines[..|lines| - 1], p); }
  }

  /** One line more than the file had, or than an empty one. */
  lemma AppendIsOneMore(f: Files, tracked: Option<Tracked>, line: Line, maxBytes: nat)
    ensures var current := Append(f, tracked, line, maxBytes, true).0.current;
            current == Some(Lines(f.current) + [line]) || current == Some([] + [line])
  {
  }

  /** What a producer remembers goes on covering its own lines, within the cap. */
  lemma AppendRemembersOwn(f: Files, tracked: Option<Tracked>, line: Line, p: nat, maxBytes: nat)
    requires line.owner == Some(p) && line.bytes <= maxBytes
    requires OwnedBy(Lines(f.current), p) <= Bytes(tracked) <= maxBytes
    ensures var (g, u) := Append(f, tracked, line, maxBytes, true);
            OwnedBy(Lines(g.current), p) <= u.bytes <= maxBytes
  {
    OwnedIsPart(Lines(f.current), p);
    OwnedOfOneMore(Lines(f.current), line, p);
    OwnedOfOneMore([], line, p);
    var t := Consult(Size(Lines(f.current)), tracked, line.bytes, maxBytes);
    if WantsRotation(t, line.bytes, maxBytes) {
      RotationHasLooked(Size(Lines(f.current)), tracked, line.bytes, maxBytes);
      assert Size([]) == 0;
    }
  }

  /** Nobody else's share of the file grows. */
  lemma AppendKeepsOthers(f: Files, tracked: Option<Tracked>, line: Line, maxBytes: nat, q: nat)
    requires line.owner.Some?
    ensures var current := Lines(Append(f, tracked, line, maxBytes, true).0.current);
            && (line.owner != Some(q) ==> OwnedBy(current, q) <= OwnedBy(Lines(f.current), q))
            && Unowned(current) <= Unowned(Lines(f.current))
  {
    AppendIsOneMore(f, tracked, line, maxBytes);
    OwnedOfOneMore(Lines(f.current), line, q);
    OwnedOfOneMore([], line, q);
  }

  lemma StepKeepsRemembered(w: World, maxBytes: nat, c: Call)
    requires c.producer < |w.trackers| && c.bytes <= maxBytes && c.renames && Remembered(w, maxBytes)
    ensures Remembered(Step(w, maxBytes, c), maxBytes)
    ensures var f, g := w.files, Step(w, maxBytes, c).files;
            Unowned(Lines(g.current)) <= Unowned(Lines(f.current))
  {
    var v, line := Step(w, maxBytes, c), Line(Some(c.producer), c.bytes);
    var tracked := w.trackers[c.producer];
    AppendIsOneMore(w.files, tracked, line, maxBytes);
    AppendRemembersOwn(w.files, tracked, line, c.producer, maxBytes);
    forall p | 0 <= p < |w.trackers|
      ensures OwnedBy(Lines(v.files.current), p) <= Bytes(v.trackers[p]) <= maxBytes
    {
      AppendKeepsOthers(w.files, tracked, line, maxBytes, p);
    }
    AppendKeepsOthers(w.files, tracked, line, maxBytes, 0);
  }

  /** With lines within the cap and renames succeeding, however the calls
      interleave, the current file never exceeds the cap once per producer on top
      of what was there to begin with. */
  lemma {:induction false} CurrentFileIsBounded(found: Files, producers: nat, maxBytes: nat, run: seq<Call>)
    requires ValidRun(producers, run) && forall c :: c in run ==> c.bytes <= maxBytes && c.renames
    requires forall x :: x in Lines(found.current) ==> x.owner == None
    ensures var w := After(found, producers, maxBytes, run);
            && Remembered(w, maxBytes)
            && Size(Lines(w.files.current)) <= Size(Lines(found.current)) + producers * maxBytes
  {
    CurrentStaysRemembered(found, producers, maxBytes, run);
    var lines := Lines(After(found, producers, maxBytes, run).files.current);
    SizeByOwner(lines, producers);
    SumOwnedIsBounded(lines, producers, maxBytes);
    UnownedIsPart(Lines(found.current));
  }

  lemma {:induction false} UnownedIsPart(lines: seq<Line>)
    ensures Unowned(lines) <= Size(lines)
  {
    if lines != [] { UnownedIsPart(lines[..|lines| - 1]); }
  }

  lemma {:induction false} NobodysLines(lines: seq<Line>, p: nat)
    requires forall x :: x in lines ==> x.owner == None
    ensures OwnedBy(lines, p) == 0
  {
    if lines != [] { NobodysLines(lines[..|lines| - 1], p); }
  }

  lemma {:induction false} CurrentStaysRemembered(found: Files, producers: nat, maxBytes: nat, run: seq<Call>)
    requires ValidRun(producers, run) && forall c :: c in run ==> c.bytes <= maxBytes && c.renames
    requires forall x :: x in Lines(found.current) ==> x.owner == None
    ensures var w := After(found, producers, maxBytes, run);
            && Remembered(w, maxBytes)
            && Unowned(Lines(w.files.current)) <= Unowned(Lines(found.current))
  {
    if run == [] {
      forall p: nat ensures OwnedBy(Lines(found.current), p) == 0 { NobodysLines(Lines(found.current), p); }
    } else {
      var before := run[..|run| - 1];
      CurrentStaysRemembered(found, producers, maxBytes, before);
      StepKeepsRemembered(After(found, producers, maxBytes, before), maxBytes, run[|run| - 1]);
    }
  }

  /** The rotated file is a past current file or what was found there. */
  lemma {:induction false} RotatedFileIsBounded(found: Files, producers: nat, maxBytes: nat, run: seq<Call>)
    requires ValidRun(producers, run) && forall c :: c in run ==> c.bytes <= maxBytes && c.renames
    requires forall x :: x in Lines(found.current) ==> x.owner == None
    ensures var w := After(found, producers, maxBytes, run);
            w.files.rotated == found.rotated
            || Size(Lines(w.files.rotated)) <= Size(Lines(found.current)) + producers * maxBytes
  {
    if run != [] {
      var before := run[..|run| - 1];
      RotatedFileIsBounded(found, producers, maxBytes, before);
      CurrentFileIsBounded(found, producers, maxBytes, before);
    }
  }

  // ---------------------------------------------------------- sizes by themselves

  /** What a run does to the sizes alone, when every rename succeeds. */
  datatype Sizes = Sizes(current: nat, rotated: nat, trackers: seq<Option<Tracked>>)

  function SizesOf(w: World): Sizes {
    Sizes(Size(Lines(w.files.current)), Size(Lines(w.files.rotated)), w.trackers)
  }

  /** What an append does to the sizes of the two files and to the memory. */
  function SizedAppend(current: nat, rotated: nat, tracked: Option<Tracked>, bytes: nat, maxBytes: nat)
    : (nat, nat, Tracked)
  {
    var t := Consult(current, tracked, bytes, maxBytes);
    if WantsRotation(t, bytes, maxBytes) then (bytes, current, Tracked(bytes, t.sinceStat + 1))
    else (current + bytes, rotated, Tracked(t.bytes + bytes, t.sinceStat + 1))
  }

  function SizeStep(n: Sizes, maxBytes: nat, c: Call): Sizes
    requires c.producer < |n.trackers|
  {
    var (current, rotated, t) := SizedAppend(n.current, n.rotated, n.trackers[c.producer], c.bytes, maxBytes);
    Sizes(current, rotated, n.trackers[c.producer := Some(t)])
  }

  lemma SizeOfOneMore(lines: seq<Line>, x: Line)
    ensures Size(lines + [x]) == Size(lines) + x.bytes
  {
    assert (lines + [x])[..|lines|] == lines;
  }

  lemma AppendInSizes(f: Files, tracked: Option<Tracked>, line: Line, maxBytes: nat)
    ensures var (g, u) := Append(f, tracked, line, maxBytes, true);
            (Size(Lines(g.current)), Size(Lines(g.rotated)), u)
            == SizedAppend(Size(Lines(f.current)), Size(Lines(f.rotated)), tracked, line.bytes, maxBytes)
  {
    if WantsRotation(Consult(Size(Lines(f.current)), tracked, line.bytes, maxBytes), line.bytes, maxBytes) {
      RotationHasLooked(Size(Lines(f.current)), tracked, line.bytes, maxBytes);
      RotationInSizes(f, tracked, line, maxBytes);
    } else {
      SizeOfOneMore(Lines(f.current), line);
    }
  }

  lemma RotationInSizes(f: Files, tracked: Option<Tracked>, line: Line, maxBytes: nat)
    requires WantsRotation(Consult(Size(Lines(f.current)), tracked, line.bytes, maxBytes), line.bytes, maxBytes)
    ensures var (g, u) := Append(f, tracked, line, maxBytes, true);
            Size(Lines(g.current)) == line.bytes && g.rotated == f.current && u == Tracked(line.bytes, 1)
  {
    RotationHasLooked(Size(Lines(f.current)), tracked, line.bytes, maxBytes);
    SizeOfOneMore([], line);
    assert Size([]) == 0;
  }

  lemma SizesFollow(w: World, maxBytes: nat, c: Call)
    requires c.producer < |w.trackers| && c.renames
    ensures SizesOf(Step(w, maxBytes, c)) == SizeStep(SizesOf(w), maxBytes, c)
  {
    AppendInSizes(w.files, w.trackers[c.producer], Line(Some(c.producer), c.bytes), maxBytes);
  }

  /** What a lone producer keeps: its memory is the file's size, and both files
      stay within the cap. */
  predicate Exact(n: Sizes, maxBytes: nat) {
    && |n.trackers| == 1
    && (n.trackers[0].Some? ==> n.trackers[0].value.bytes == n.current)
    && n.current <= maxBytes && n.rotated <= maxBytes
  }

  /** So the two files of a lone producer never exceed twice the cap, when they
      started within it. */
  lemma {:induction false} LoneProducerIsExact(found: Files, maxBytes: nat, run: seq<Call>)
    requires ValidRun(1, run) && forall c :: c in run ==> c.bytes <= maxBytes && c.renames
    requires Size(Lines(found.current)) <= maxBytes && Size(Lines(found.rotated)) <= maxBytes
    ensures var n := SizesOf(After(found, 1, maxBytes, run));
            Exact(n, maxBytes) && n.current + n.rotated <= 2 * maxBytes
  {
    if run != [] {
      var before, c := run[..|run| - 1], run[|run| - 1];
      assert c in run;
      LoneProducerIsExact(found, maxBytes, before);
      SizesFollow(After(found, 1, maxBytes, before), maxBytes, c);
    }
  }

  lemma AfterOneMore(found: Files, producers: nat, maxBytes: nat, run: seq<Call>, c: Call)
    requires ValidRun(producers, run) && c.producer < producers && c.renames
    ensures ValidRun(producers, run + [c])
    ensures SizesOf(After(found, producers, maxBytes, run + [c]))
            == SizeStep(SizesOf(After(found, producers, maxBytes, run)), maxBytes, c)
  {
    assert (run + [c])[..|run|] == run;
    SizesFollow(After(found, producers, maxBytes, run), maxBytes, c);
  }

  // ------------------------------------------- when the documented bound holds

  predicate Remembers(n: Sizes, producer: nat, bytes: nat) {
    producer < |n.trackers| && n.trackers[producer].Some? && n.trackers[producer].value.bytes == bytes
    && n.trackers[producer].value.sinceStat < 2
  }

  /** Producer 0 remembers one byte and producer 1 both of the two there are. */
  predicate BothStarted(n: Sizes) { n.current == 2 && Remembers(n, 0, 1) && Remembers(n, 1, 2) }

  /** Neither has heard of the other's long line: each remembers a file just full. */
  predicate BothFull(n: Sizes, maxBytes: nat) {
    && n.current == 2 * maxBytes - 1
    && |n.trackers| > 1 && n.trackers[0].Some? && n.trackers[1].Some?
    && n.trackers[0].value.bytes == maxBytes && n.trackers[1].value.bytes == maxBytes
  }

  function TwoSteps(n: Sizes, maxBytes: nat, first: nat, second: nat): Sizes
    requires |n.trackers| > 1
  {
    SizeStep(SizeStep(n, maxBytes, Call(0, first, true)), maxBytes, Call(1, second, true))
  }

  lemma StartBoth(n: Sizes, maxBytes: nat)
    requires maxBytes >= 2 && |n.trackers| > 1
    requires n.current == 0 && n.trackers[0] == None && n.trackers[1] == None
    ensures var m := TwoSteps(n, maxBytes, 1, 1); BothStarted(m) && m.rotated == n.rotated
  {
  }

  /** The file fills almost twice before either looks at it again. */
  lemma FillTwice(n: Sizes, maxBytes: nat)
    requires maxBytes >= 2 && |n.trackers| > 1 && BothStarted(n)
    ensures var m := TwoSteps(n, maxBytes, maxBytes - 1, maxBytes - 2);
            BothFull(m, maxBytes) && m.rotated == n.rotated
  {
  }

  /** The one that writes next rotates, the other then finds the new file. */
  lemma RotateAndRejoin(n: Sizes, maxBytes: nat)
    requires maxBytes >= 2 && |n.trackers| > 1 && BothFull(n, maxBytes)
    ensures var m := TwoSteps(n, maxBytes, 1, 1); BothStarted(m) && m.rotated == 2 * maxBytes - 1
  {
  }

  /** Lines below the cap, each with at least its newline, and renames succeeding. */
  predicate Ordinary(run: seq<Call>, maxBytes: nat) {
    forall c :: c in run ==> 0 < c.bytes < maxBytes && c.renames
  }

  lemma OrdinaryOneMore(producers: nat, maxBytes: nat, run: seq<Call>, producer: nat, bytes: nat)
    returns (more: seq<Call>)
    requires producer < producers && 0 < bytes < maxBytes
    requires ValidRun(producers, run) && Ordinary(run, maxBytes)
    ensures ValidRun(producers, more) && Ordinary(more, maxBytes)
    ensures SizesOf(After(NOTHING, producers, maxBytes, more))
            == SizeStep(SizesOf(After(NOTHING, producers, maxBytes, run)), maxBytes, Call(producer, bytes, true))
  {
    more := run + [Call(producer, bytes, true)];
    AfterOneMore(NOTHING, producers, maxBytes, run, Call(producer, bytes, true));
  }

  lemma ExtendByTwo(producers: nat, maxBytes: nat, run: seq<Call>, first: nat, second: nat)
    returns (more: seq<Call>)
    requires producers > 1 && 0 < first < maxBytes && 0 < second < maxBytes
    requires ValidRun(producers, run) && Ordinary(run, maxBytes)
    ensures ValidRun(producers, more) && Ordinary(more, maxBytes)
    ensures SizesOf(After(NOTHING, producers, maxBytes, more))
            == TwoSteps(SizesOf(After(NOTHING, producers, maxBytes, run)), maxBytes, first, second)
  {
    var one := OrdinaryOneMore(producers, maxBytes, run, 0, first);
    more := OrdinaryOneMore(producers, maxBytes, one, 1, second);
  }

  const NOTHING := Files(None, None)

  /** Under a cap of two the second long line is empty, and not written. */
  lemma FillBoth(producers: nat, maxBytes: nat, run: seq<Call>) returns (more: seq<Call>)
    requires producers > 1 && maxBytes >= 2 && ValidRun(producers, run) && Ordinary(run, maxBytes)
    requires BothStarted(SizesOf(After(NOTHING, producers, maxBytes, run)))
    ensures ValidRun(producers, more) && Ordinary(more, maxBytes)
    ensures var n := SizesOf(After(NOTHING, producers, maxBytes, run));
            var m := SizesOf(After(NOTHING, producers, maxBytes, more));
            BothFull(m, maxBytes) && m.rotated == n.rotated
  {
    if maxBytes == 2 {
      more := OrdinaryOneMore(producers, maxBytes, run, 0, 1);
    } else {
      FillTwice(SizesOf(After(NOTHING, producers, maxBytes, run)), maxBytes);
      more := ExtendByTwo(producers, maxBytes, run, maxBytes - 1, maxBytes - 2);
    }
  }

  /** Under any cap that allows a line, two producers among any number take the
      files to two short of four times the cap: neither hears of the other's lines
      until its own memory runs out. */
  lemma TwoProducersOvershoot(producers: nat, maxBytes: nat) returns (run: seq<Call>)
    requires producers >= 2 && maxBytes >= 2
    ensures ValidRun(producers, run) && Ordinary(run, maxBytes)
    ensures var n := SizesOf(After(NOTHING, producers, maxBytes, run));
            n.current + n.rotated == 4 * maxBytes - 2
  {
    StartBoth(SizesOf(After(NOTHING, producers, maxBytes, [])), maxBytes);
    run := ExtendByTwo(producers, maxBytes, [], 1, 1);
    run := FillBoth(producers, maxBytes, run);
    RotateAndRejoin(SizesOf(After(NOTHING, producers, maxBytes, run)), maxBytes);
    run := ExtendByTwo(producers, maxBytes, run, 1, 1);
    run := FillBoth(producers, maxBytes, run);
  }

  /** Twice the cap plus one line, the longest an ordinary run can write. */
  predicate WithinDocumentedBound(n: Sizes, maxBytes: nat) {
    n.current + n.rotated <= 2 * maxBytes + if maxBytes > 0 then maxBytes - 1 else 0
  }

  /** The bound the documentation gives holds of every ordinary run on a new journal
      exactly when at most one process writes to it, or the cap allows no line. */
  lemma DocumentedBoundIffAlone(producers: nat, maxBytes: nat)
    ensures (forall run :: ValidRun(producers, run) && Ordinary(run, maxBytes) ==>
               WithinDocumentedBound(SizesOf(After(NOTHING, producers, maxBytes, run)), maxBytes))
            <==> producers <= 1 || maxBytes <= 1
  {
    if producers >= 2 && maxBytes >= 2 {
      var run := TwoProducersOvershoot(producers, maxBytes);
      assert !WithinDocumentedBound(SizesOf(After(NOTHING, producers, maxBytes, run)), maxBytes);
    } else {
      forall run | ValidRun(producers, run) && Ordinary(run, maxBytes)
        ensures WithinDocumentedBound(SizesOf(After(NOTHING, producers, maxBytes, run)), maxBytes)
      {
        FewProducersStayWithin(producers, maxBytes, run);
      }
    }
  }

  lemma SomebodyWrites(run: seq<Call>, maxBytes: nat)
    requires run != []
    ensures !ValidRun(0, run) && (Ordinary(run, maxBytes) ==> maxBytes > 1)
  {
    assert run[0] in run;
  }

  lemma FewProducersStayWithin(producers: nat, maxBytes: nat, run: seq<Call>)
    requires producers <= 1 || maxBytes <= 1
    requires ValidRun(producers, run) && Ordinary(run, maxBytes)
    ensures WithinDocumentedBound(SizesOf(After(NOTHING, producers, maxBytes, run)), maxBytes)
  {
    assert Size([]) == 0;
    if producers == 1 {
      LoneProducerIsExact(NOTHING, maxBytes, run);
    } else {
      assert run == [] by { if run != [] { SomebodyWrites(run, maxBytes); } }
    }
  }
}
