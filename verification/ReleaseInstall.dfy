/** Publishing one versioned install (`release-chiefd.ts`) as the file-system steps
    it takes, one at a time, with a crash possible after any of them and the
    whole release run again any number of times. */
module ReleaseInstall {

  /** A directory under `versions/`. */
  datatype DirName = Version(version: string) | Staging(version: string, pid: nat)

  /** The files present, out of those the tree is meant to hold. */
  datatype Tree = Tree(files: set<string>, payload: set<string>)

  /** An entry of `bin/`: a symlink into a version's `bin/`, a plain file, or
      something a release refuses to replace. */
  datatype Entry = Link(target: DirName) | PlainFile | Unsafe

  datatype Disk = Disk(versions: map<DirName, Tree>, bin: map<string, Entry>)

  const BINARIES: seq<string> := ["chief", "chiefd", "beacond"]
  const OBSOLETE := "chiefd-daemon"

  /** Where a release is. `Linking(n)`: n links are repointed; `LinkReady(n)`: the
      temporary symlink for link n stands beside it. */
  datatype Phase = Idle | Sweeping | Assembling | Removing | Linking(done: nat) | LinkReady(at: nat)

  /** `before` is the disk as the current release found it. */
  datatype Installer = Installer(disk: Disk, phase: Phase, version: string, pid: nat, payload: set<string>,
                                 before: Disk)

  datatype Event =
    | Begin(version: string, pid: nat, payload: set<string>)
    | Unlink(dir: DirName, file: string)      // one step of a recursive removal
    | RemoveDir(dir: DirName)                 // its last step
    | MakeStaging
    | AddFile(file: string)
    | Assembled
    | Publish                                 // rename(staging, versions/<version>)
    | MakeTemporary
    | PointLink                               // rename(temporary, link)
    | Finish
    | Crash

  function Own(s: Installer): DirName { Staging(s.version, s.pid) }

  /** What a recursive removal may touch: any staging directory while sweeping, the
      version's own tree just before publishing. */
  predicate MayRemove(s: Installer, dir: DirName) {
    dir in s.disk.versions
    && ((s.phase == Sweeping && dir.Staging?) || (s.phase == Removing && dir == Version(s.version)))
  }

  predicate Refuses(d: Disk) { exists n :: n in BINARIES && n in d.bin && d.bin[n] == Unsafe }

  lemma RefusesIffUnsafe(d: Disk)
    ensures Refuses(d)
            <==> exists name :: name in {"chief", "chiefd", "beacond"} && name in d.bin && d.bin[name] == Unsafe
  {
    assert forall n :: n in BINARIES <==> n in {"chief", "chiefd", "beacond"} by {
      assert BINARIES[0] == "chief" && BINARIES[1] == "chiefd" && BINARIES[2] == "beacond";
    }
  }

  predicate Enabled(s: Installer, e: Event) {
    match e
    case Begin(_, _, _) => s.phase == Idle && !Refuses(s.disk)
    case Unlink(dir, file) => MayRemove(s, dir) && file in s.disk.versions[dir].files
    case RemoveDir(dir) => MayRemove(s, dir) && s.disk.versions[dir].files == {}
    case MakeStaging => s.phase == Sweeping && forall d :: d in s.disk.versions ==> !d.Staging?
    case AddFile(file) => s.phase == Assembling && file in s.payload
    case Assembled => s.phase == Assembling && Own(s) in s.disk.versions && s.disk.versions[Own(s)].files == s.payload
    case Publish => s.phase == Removing && Version(s.version) !in s.disk.versions
    case MakeTemporary => s.phase.Linking? && s.phase.done < |BINARIES|
    case PointLink => s.phase.LinkReady?
    case Finish => s.phase == Linking(|BINARIES|)
    case Crash => true
  }

  function WithTree(s: Installer, dir: DirName, tree: Tree): Installer {
    s.(disk := s.disk.(versions := s.disk.versions[dir := tree]))
  }

  /** The installer holds its own staging directory in the phases that touch it. */
  predicate OwnsStaging(s: Installer) {
    s.phase in {Assembling, Removing} ==> Own(s) in s.disk.versions
  }

  function Happen(s: Installer, e: Event): Installer
    requires OwnsStaging(s) && Enabled(s, e)
    requires s.phase.LinkReady? ==> s.phase.at < |BINARIES|
  {
    var d := s.disk;
    match e
    case Begin(version, pid, payload) => Installer(d, Sweeping, version, pid, payload, d)
    case Unlink(dir, file) => WithTree(s, dir, d.versions[dir].(files := d.versions[dir].files - {file}))
    case RemoveDir(dir) => s.(disk := d.(versions := d.versions - {dir}))
    case MakeStaging => WithTree(s, Own(s), Tree({}, s.payload)).(phase := Assembling)
    case AddFile(file) => WithTree(s, Own(s), d.versions[Own(s)].(files := d.versions[Own(s)].files + {file}))
    case Assembled => s.(phase := Removing)
    case Publish =>
      s.(disk := d.(versions := (d.versions - {Own(s)})[Version(s.version) := d.versions[Own(s)]]), phase := Linking(0))
    case MakeTemporary => s.(phase := LinkReady(s.phase.done))
    case PointLink =>
      s.(disk := d.(bin := d.bin[BINARIES[s.phase.at] := Link(Version(s.version))]), phase := Linking(s.phase.at + 1))
    case Finish => s.(disk := d.(bin := d.bin - {OBSOLETE}), phase := Idle)
    case Crash => s.(phase := Idle)
  }

  // ---------------------------------------------------------------- invariant

  function Repointed(p: Phase): nat {
    if p.Linking? then p.done else if p.LinkReady? then p.at else 0
  }

  /** Links are repointed in order, one at a time; the others are as they were. */
  ghost predicate LinksAreOldOrNew(s: Installer) {
    && Repointed(s.phase) <= |BINARIES|
    && (forall i :: 0 <= i < Repointed(s.phase) ==>
          BINARIES[i] in s.disk.bin && s.disk.bin[BINARIES[i]] == Link(Version(s.version)))
    && (forall n :: n !in BINARIES[..Repointed(s.phase)] ==>
          (n in s.disk.bin <==> n in s.before.bin) && (n in s.disk.bin ==> s.disk.bin[n] == s.before.bin[n]))
  }

  /** No other version's tree is touched. */
  ghost predicate OthersAreKept(s: Installer) {
    forall v :: v != s.version ==>
      (Version(v) in s.disk.versions <==> Version(v) in s.before.versions)
      && (Version(v) in s.disk.versions ==> s.disk.versions[Version(v)] == s.before.versions[Version(v)])
  }

  ghost predicate OnlyStaging(s: Installer, allowed: set<DirName>) {
    forall d :: d in s.disk.versions && d.Staging? ==> d in allowed
  }

  ghost predicate PhaseIsSound(s: Installer) {
    match s.phase
    case Idle => true
    case Sweeping => true
    case Assembling =>
      && Own(s) in s.disk.versions && s.disk.versions[Own(s)].payload == s.payload && OnlyStaging(s, {Own(s)})
      && s.disk.versions[Own(s)].files <= s.payload
    case Removing =>
      && Own(s) in s.disk.versions && s.disk.versions[Own(s)] == Tree(s.payload, s.payload) && OnlyStaging(s, {Own(s)})
    case _ =>
      && Version(s.version) in s.disk.versions && s.disk.versions[Version(s.version)] == Tree(s.payload, s.payload)
      && OnlyStaging(s, {})
  }

  ghost predicate Sound(s: Installer) {
    && PhaseIsSound(s)
    && (s.phase.LinkReady? ==> s.phase.at < |BINARIES|)
    && (s.phase != Idle ==> LinksAreOldOrNew(s) && OthersAreKept(s))
  }

  /** An event that cannot happen now changes nothing. */
  ghost function Step(s: Installer, e: Event): Installer
    requires Sound(s)
  {
    if Enabled(s, e) then Happen(s, e) else s
  }

  lemma BinariesAreDistinct(i: nat, j: nat)
    requires i < |BINARIES| && j < |BINARIES| && BINARIES[i] == BINARIES[j]
    ensures i == j
  {
  }

  lemma StepKeepsSound(s: Installer, e: Event)
    requires Sound(s)
    ensures Sound(Step(s, e))
  {
    if Enabled(s, e) && e.PointLink? {
      var n := s.phase.at;
      assert BINARIES[..n + 1] == BINARIES[..n] + [BINARIES[n]];
      forall i | 0 <= i < n ensures BINARIES[i] != BINARIES[n] {
        if BINARIES[i] == BINARIES[n] { BinariesAreDistinct(i, n); }
      }
    }
  }

  ghost function After(s: Installer, run: seq<Event>): (t: Installer)
    requires Sound(s)
    ensures Sound(t)
  {
    if run == [] then s
    else
      var before := After(s, run[..|run| - 1]);
      StepKeepsSound(before, run[|run| - 1]);
      Step(before, run[|run| - 1])
  }

  // ------------------------------------------------------------- crash safety

  predicate IsComplete(d: Disk, dir: DirName) {
    dir in d.versions && d.versions[dir].files == d.versions[dir].payload
  }

  /** The link points into a complete published tree. */
  predicate IsHealthy(d: Disk, name: string) {
    name in d.bin && d.bin[name].Link? && d.bin[name].target.Version? && IsComplete(d, d.bin[name].target)
  }

  predicate Names(d: Disk, name: string, version: string) {
    name in d.bin && d.bin[name] == Link(Version(version))
  }

  /** Until it publishes, a release's version is not the one the link names. */
  predicate IsFresh(s: Installer, name: string) {
    s.phase in {Sweeping, Assembling, Removing} ==> !Names(s.disk, name, s.version)
  }

  lemma StepKeepsHealthy(s: Installer, e: Event, name: string)
    requires Sound(s) && IsFresh(s, name) && IsHealthy(s.disk, name) && name != OBSOLETE
    requires e.Begin? ==> !Names(s.disk, name, e.version)
    ensures IsHealthy(Step(s, e).disk, name) && IsFresh(Step(s, e), name)
  {
  }

  /** No release in the run begins on the version the link names at that moment. */
  ghost predicate BeginsFresh(s: Installer, run: seq<Event>, name: string)
    requires Sound(s)
  {
    forall i :: 0 <= i < |run| && run[i].Begin? ==> !Names(After(s, run[..i]).disk, name, run[i].version)
  }

  /** However often releases crash and are run again, as long as none of them is of
      the version a link names when it begins, a link that pointed into a complete
      tree never points anywhere else than into a complete tree. */
  lemma {:induction false} CrashesBreakNoLink(s: Installer, run: seq<Event>, name: string)
    requires Sound(s) && s.phase == Idle && BeginsFresh(s, run, name) && IsHealthy(s.disk, name) && name != OBSOLETE
    ensures IsHealthy(After(s, run).disk, name) && IsFresh(After(s, run), name)
  {
    if run != [] {
      var init, last := run[..|run| - 1], run[|run| - 1];
      forall i | 0 <= i < |init| && init[i].Begin? ensures !Names(After(s, init[..i]).disk, name, init[i].version) {
        assert init[..i] == run[..i] && init[i] == run[i];
      }
      CrashesBreakNoLink(s, init, name);
      StepKeepsHealthy(After(s, init), last, name);
    }
  }

  /** Within one release every link names what it named before or the new version,
      and no other version's tree changes. */
  lemma LinksNameOldOrNew(s: Installer, run: seq<Event>, name: string)
    requires Sound(s) && After(s, run).phase != Idle
    ensures var t := After(s, run);
            && (name in t.disk.bin ==>
                  t.disk.bin[name] == Link(Version(t.version))
                  || (name in t.before.bin && t.disk.bin[name] == t.before.bin[name]))
            && OthersAreKept(t)
  {
  }

  predicate SameEntries(d: Disk, e: Disk, but: set<string>) { d.bin - but == e.bin - but }

  /** A release that finishes leaves `chief`, `chiefd` and `beacond` on the new version, its
      tree complete, no `chiefd-daemon`, every other entry of `bin/` as it was, and no
      staging directory, its own or a killed run's. */
  lemma FinishedInstall(s: Installer, run: seq<Event>)
    requires Sound(s) && Enabled(After(s, run), Finish)
    ensures var was, t := After(s, run), Step(After(s, run), Finish);
            && (forall name :: name in {"chief", "chiefd", "beacond"} ==>
                  Names(t.disk, name, was.version) && IsHealthy(t.disk, name))
            && t.disk.versions[Version(was.version)] == Tree(was.payload, was.payload)
            && OnlyStaging(t, {}) && SameEntries(was.before, t.disk, {"chief", "chiefd", "beacond", "chiefd-daemon"})
            && "chiefd-daemon" !in t.disk.bin
  {
    assert BINARIES[0] == "chief" && BINARIES[1] == "chiefd" && BINARIES[2] == "beacond";
  }

  // --------------------------------------------------- when freshness is needed

  lemma AfterOneMore(s: Installer, run: seq<Event>, e: Event)
    requires Sound(s)
    ensures After(s, run + [e]) == Step(After(s, run), e)
  {
    assert (run + [e])[..|run|] == run;
  }

  /** What the rest of a release must not disturb while it sweeps. */
  ghost predicate SameButStaging(t: Installer, u: Installer) {
    && u.phase == t.phase && u.version == t.version && u.pid == t.pid && u.payload == t.payload
    && u.disk.bin == t.disk.bin
    && forall v :: (Version(v) in u.disk.versions <==> Version(v) in t.disk.versions)
                   && (Version(v) in u.disk.versions ==> u.disk.versions[Version(v)] == t.disk.versions[Version(v)])
  }

  ghost function FilesOf(d: Disk): set<(DirName, string)> {
    set dir, f | dir in d.versions && f in d.versions[dir].files :: (dir, f)
  }

  /** `longer` goes on with the release `run` is in. */
  ghost predicate Continues(run: seq<Event>, longer: seq<Event>) {
    run <= longer && forall i :: |run| <= i < |longer| ==> !longer[i].Begin?
  }

  lemma UnlinkOne(s: Installer, run: seq<Event>, dir: DirName, file: string)
    requires Sound(s) && Enabled(After(s, run), Unlink(dir, file)) && After(s, run).phase == Sweeping
    ensures var t, u := After(s, run), After(s, run + [Unlink(dir, file)]);
            && SameButStaging(t, u) && u.disk.versions.Keys == t.disk.versions.Keys
            && FilesOf(u.disk) < FilesOf(t.disk)
  {
    AfterOneMore(s, run, Unlink(dir, file));
    var t, u := After(s, run), After(s, run + [Unlink(dir, file)]);
    assert (dir, file) in FilesOf(t.disk) && (dir, file) !in FilesOf(u.disk);
  }

  lemma RemoveOne(s: Installer, run: seq<Event>, dir: DirName)
    requires Sound(s) && Enabled(After(s, run), RemoveDir(dir)) && After(s, run).phase == Sweeping
    ensures var t, u := After(s, run), After(s, run + [RemoveDir(dir)]);
            SameButStaging(t, u) && u.disk.versions.Keys < t.disk.versions.Keys
  {
    AfterOneMore(s, run, RemoveDir(dir));
    assert dir !in After(s, run + [RemoveDir(dir)]).disk.versions;
  }

  /** Any release can go on to sweep every staging directory away. */
  lemma {:induction false} SweepAll(s: Installer, run: seq<Event>) returns (longer: seq<Event>)
    requires Sound(s) && After(s, run).phase == Sweeping
    ensures SameButStaging(After(s, run), After(s, longer)) && OnlyStaging(After(s, longer), {})
    ensures Continues(run, longer)
    decreases After(s, run).disk.versions.Keys, FilesOf(After(s, run).disk)
  {
    var t := After(s, run);
    if dir :| dir in t.disk.versions && dir.Staging? {
      if file :| file in t.disk.versions[dir].files {
        UnlinkOne(s, run, dir, file);
        longer := SweepAll(s, run + [Unlink(dir, file)]);
      } else {
        RemoveOne(s, run, dir);
        longer := SweepAll(s, run + [RemoveDir(dir)]);
      }
    } else {
      longer := run;
    }
  }

  ghost function StillToCopy(t: Installer): set<string>
    requires Sound(t) && t.phase == Assembling
  {
    t.payload - t.disk.versions[Own(t)].files
  }

  lemma CopyOne(s: Installer, run: seq<Event>, file: string)
    requires Sound(s) && After(s, run).phase == Assembling && file in StillToCopy(After(s, run))
    ensures var t, u := After(s, run), After(s, run + [AddFile(file)]);
            && u.phase == Assembling && SameButStaging(t, u)
            && StillToCopy(u) == StillToCopy(t) - {file}
  {
    AfterOneMore(s, run, AddFile(file));
  }

  lemma NothingToCopy(t: Installer)
    requires Sound(t) && t.phase == Assembling && StillToCopy(t) == {}
    ensures Enabled(t, Assembled)
  {
    forall f | f in t.payload ensures f in t.disk.versions[Own(t)].files { assert f !in StillToCopy(t); }
  }

  /** ... and then to stage its whole payload. */
  lemma {:induction false} StageAll(s: Installer, run: seq<Event>) returns (longer: seq<Event>)
    requires Sound(s) && After(s, run).phase == Assembling
    ensures SameButStaging(After(s, run), After(s, longer)) && Enabled(After(s, longer), Assembled)
    ensures Continues(run, longer)
    decreases StillToCopy(After(s, run))
  {
    if file :| file in StillToCopy(After(s, run)) {
      CopyOne(s, run, file);
      longer := StageAll(s, run + [AddFile(file)]);
    } else {
      NothingToCopy(After(s, run));
      longer := run;
    }
  }

  lemma ContinuesOneMore(run: seq<Event>, longer: seq<Event>, e: Event)
    requires Continues(run, longer) && !e.Begin?
    ensures Continues(run, longer + [e])
  {
  }

  lemma SameIsTransitive(t: Installer, u: Installer, v: Installer, phase: Phase)
    requires SameButStaging(t.(phase := u.phase), u) && SameButStaging(u.(phase := phase), v)
    ensures SameButStaging(t.(phase := phase), v)
  {
  }

  lemma StartStaging(s: Installer, run: seq<Event>)
    requires Sound(s) && After(s, run).phase == Sweeping && OnlyStaging(After(s, run), {})
    ensures After(s, run + [MakeStaging]).phase == Assembling
    ensures SameButStaging(After(s, run).(phase := Assembling), After(s, run + [MakeStaging]))
  {
    AfterOneMore(s, run, MakeStaging);
  }

  lemma FinishStaging(s: Installer, run: seq<Event>)
    requires Sound(s) && Enabled(After(s, run), Assembled)
    ensures SameButStaging(After(s, run).(phase := Removing), After(s, run + [Assembled]))
  {
    AfterOneMore(s, run, Assembled);
  }

  /** ... and so to come to the step before publishing, links and versions untouched. */
  lemma ReachRemoving(s: Installer, begin: Event) returns (run: seq<Event>)
    requires Sound(s) && s.phase == Idle && begin.Begin? && Enabled(s, begin)
    ensures Continues([begin], run)
    ensures SameButStaging(Step(s, begin).(phase := Removing), After(s, run))
  {
    assert [begin][..0] == [] && After(s, [begin]) == Step(s, begin);
    var begun := After(s, [begin]);
    var swept := SweepAll(s, [begin]);
    StartStaging(s, swept);
    SameIsTransitive(begun, After(s, swept), After(s, swept + [MakeStaging]), Assembling);
    ContinuesOneMore([begin], swept, MakeStaging);
    var staged := StageAll(s, swept + [MakeStaging]);
    SameIsTransitive(begun, After(s, swept + [MakeStaging]), After(s, staged), Assembling);
    FinishStaging(s, staged);
    SameIsTransitive(begun, After(s, staged), After(s, staged + [Assembled]), Removing);
    run := staged + [Assembled];
    assert Continues([begin], staged);
    ContinuesOneMore([begin], staged, Assembled);
  }

  /** Releasing the version a link names: its tree is taken down before the new one
      is in place, and a crash there leaves the link broken. */
  lemma ReReleaseCanBreakTheLink(s: Installer, begin: Event, name: string) returns (run: seq<Event>)
    requires Sound(s) && s.phase == Idle && begin.Begin? && Enabled(s, begin)
    requires IsHealthy(s.disk, name) && Names(s.disk, name, begin.version)
    ensures Continues([begin], run) && !IsHealthy(After(s, run).disk, name)
  {
    run := ReachRemoving(s, begin);
    var t, dir := After(s, run), Version(begin.version);
    assert t.disk.versions[dir] == s.disk.versions[dir];
    var e := RemoveDir(dir);
    if file :| file in t.disk.versions[dir].files { e := Unlink(dir, file); }
    AfterOneMore(s, run, e);
    run := run + [e];
  }

  /** A release can break a sound link exactly when it is of the version that link names. */
  lemma ReleaseIsSafeIffFresh(s: Installer, version: string, pid: nat, payload: set<string>, name: string)
    requires Sound(s) && s.phase == Idle && !Refuses(s.disk) && IsHealthy(s.disk, name) && name != OBSOLETE
    ensures (forall run :: Continues([Begin(version, pid, payload)], run) ==> IsHealthy(After(s, run).disk, name))
            <==> !Names(s.disk, name, version)
  {
    if Names(s.disk, name, version) {
      var run := ReReleaseCanBreakTheLink(s, Begin(version, pid, payload), name);
    } else {
      forall run | Continues([Begin(version, pid, payload)], run) ensures IsHealthy(After(s, run).disk, name) {
        assert run[..0] == [] && run[0] == Begin(version, pid, payload);
        CrashesBreakNoLink(s, run, name);
      }
    }
  }
}
