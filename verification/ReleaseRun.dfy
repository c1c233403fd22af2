/** `releaseChiefd` from the swept staging area to the last link, as the ordered
    changes to the file system it makes. Each change is one step of
    `ReleaseInstall`, so whatever holds of every run of steps, crashed or not,
    holds of this code stopped at any point. */
module ReleaseRun {
  import opened ReleaseInstall

  class Installation {
    var disk: Disk
    /** Where the release began, and the steps taken since. */
    ghost var start: Installer
    ghost var run: seq<Event>

    ghost predicate Valid()
      reads this
    {
      Sound(start) && start.phase == Idle && After(start, run).disk == disk
    }

    ghost function State(): Installer
      reads this
      requires Valid()
    {
      After(start, run)
    }

    constructor (disk: Disk)
      ensures Valid() && this.disk == disk && run == []
    {
      this.disk := disk;
      start := Installer(disk, Idle, "", 0, {}, disk);
      run := [];
    }

    /** One change to the disk, recorded. */
    ghost method Record(e: Event)
      requires Sound(start) && start.phase == Idle
      requires Step(After(start, run), e).disk == disk
      modifies this`run
      ensures Valid() && run == old(run) + [e] && State() == Step(old(After(start, run)), e)
    {
      AfterOneMore(start, run, e);
      run := run + [e];
    }

    /** `rmSync` with `recursive`: a tree goes file by file, its directory last. */
    method RemoveTree(dir: DirName)
      requires Valid() && MayRemove(State(), dir)
      modifies this`disk, this`run
      ensures Valid() && Continues(old(run), run)
      ensures disk == old(disk).(versions := old(disk).versions - {dir})
      ensures State() == old(State()).(disk := disk)
    {
      ghost var was := State();
      var files := disk.versions[dir].files;
      while files != {}
        invariant Valid() && Continues(old(run), run) && dir in disk.versions
        invariant files == disk.versions[dir].files
        invariant disk.bin == old(disk).bin && disk.versions - {dir} == old(disk).versions - {dir}
        invariant State() == was.(disk := disk)
        decreases files
      {
        var file :| file in files;
        files := files - {file};
        disk := disk.(versions := disk.versions[dir := disk.versions[dir].(files := files)]);
        Record(Unlink(dir, file));
      }
      disk := disk.(versions := disk.versions - {dir});
      Record(RemoveDir(dir));
    }

    /** Any staging directory a killed run left behind. */
    method SweepStaging()
      requires Valid() && State().phase == Sweeping
      modifies this`disk, this`run
      ensures Valid() && Continues(old(run), run)
      ensures State() == old(State()).(disk := disk) && disk.bin == old(disk).bin
      ensures forall d :: d in disk.versions <==> d in old(disk).versions && !d.Staging?
      ensures forall d :: d in disk.versions ==> disk.versions[d] == old(disk).versions[d]
    {
      ghost var was := State();
      var left := set d | d in disk.versions && d.Staging?;
      while left != {}
        invariant Valid() && Continues(old(run), run) && State() == was.(disk := disk) && disk.bin == old(disk).bin
        invariant forall d :: d in left ==> d in disk.versions && d.Staging?
        invariant forall d :: d in disk.versions <==> d in old(disk).versions && (d.Staging? ==> d in left)
        invariant forall d :: d in disk.versions ==> disk.versions[d] == old(disk).versions[d]
        decreases left
      {
        var dir :| dir in left;
        RemoveTree(dir);
        left := left - {dir};
      }
    }

    method MakeOwnStaging(own: DirName, payload: set<string>)
      requires Valid() && State().phase == Sweeping && own == Own(State()) && payload == State().payload
      requires forall d :: d in disk.versions ==> !d.Staging?
      modifies this`disk, this`run
      ensures Valid() && Continues(old(run), run)
      ensures disk == old(disk).(versions := old(disk).versions[own := Tree({}, payload)])
      ensures State() == old(State()).(disk := disk, phase := Assembling)
    {
      disk := disk.(versions := disk.versions[own := Tree({}, payload)]);
      Record(MakeStaging);
    }

    method CopyFile(own: DirName, file: string)
      requires Valid() && State().phase == Assembling && own == Own(State()) && file in State().payload
      modifies this`disk, this`run
      ensures Valid() && Continues(old(run), run)
      ensures own in old(disk).versions
      ensures disk == old(disk).(versions := old(disk).versions[own :=
                        old(disk).versions[own].(files := old(disk).versions[own].files + {file})])
      ensures State() == old(State()).(disk := disk)
    {
      disk := disk.(versions := disk.versions[own := disk.versions[own].(files := disk.versions[own].files + {file})]);
      Record(AddFile(file));
    }

    /** `assembleVersionTree` into the release's own staging directory. */
    method AssembleVersionTree(version: string, pid: nat, payload: set<string>)
      requires Valid() && State().phase == Sweeping
      requires State().version == version && State().pid == pid && State().payload == payload
      requires forall d :: d in disk.versions ==> !d.Staging?
      modifies this`disk, this`run
      ensures Valid() && Continues(old(run), run)
      ensures State() == old(State()).(disk := disk, phase := Removing)
      ensures disk == old(disk).(versions := old(disk).versions[Staging(version, pid) := Tree(payload, payload)])
    {
      ghost var was := State();
      var own := Staging(version, pid);
      MakeOwnStaging(own, payload);
      var rest, copied := payload, {};
      while rest != {}
        invariant Valid() && Continues(old(run), run) && rest + copied == payload
        invariant disk == old(disk).(versions := old(disk).versions[own := Tree(copied, payload)])
        invariant State() == was.(disk := disk, phase := Assembling)
        decreases rest
      {
        var file :| file in rest;
        rest, copied := rest - {file}, copied + {file};
        CopyFile(own, file);
      }
      assert copied == payload;
      Record(Assembled);
    }

    /** `rename(staging, versions/<version>)`. */
    method RenameIntoPlace(version: string, own: DirName)
      requires Valid() && State().phase == Removing && State().version == version && own == Own(State())
      requires Version(version) !in disk.versions
      modifies this`disk, this`run
      ensures Valid() && Continues(old(run), run)
      ensures own in old(disk).versions
      ensures disk == old(disk).(versions :=
                        (old(disk).versions - {own})[Version(version) := old(disk).versions[own]])
      ensures State() == old(State()).(disk := disk, phase := Linking(0))
    {
      disk := disk.(versions := (disk.versions - {own})[Version(version) := disk.versions[own]]);
      Record(Publish);
    }

    /** `publishVersion`. */
    method PublishVersion(version: string, pid: nat, payload: set<string>)
      requires Valid() && State().phase == Sweeping
      requires State().version == version && State().pid == pid && State().payload == payload
      modifies this`disk, this`run
      ensures Valid() && Continues(old(run), run)
      ensures State() == old(State()).(disk := disk, phase := Linking(0)) && disk.bin == old(disk).bin
      ensures Version(version) in disk.versions && disk.versions[Version(version)] == Tree(payload, payload)
      ensures forall d :: d != Version(version) ==> (d in disk.versions <==> d in old(disk).versions && !d.Staging?)
      ensures forall d :: d != Version(version) && d in disk.versions ==> disk.versions[d] == old(disk).versions[d]
    {
      SweepStaging();
      AssembleVersionTree(version, pid, payload);
      if Version(version) in disk.versions {
        RemoveTree(Version(version));
      }
      RenameIntoPlace(version, Staging(version, pid));
    }

    /** The temporary symlink beside a link. */
    method MakeTemporaryLink(at: nat)
      requires Valid() && at < |BINARIES| && State().phase == Linking(at)
      modifies this`run
      ensures Valid() && Continues(old(run), run)
      ensures State() == old(State()).(phase := LinkReady(at))
    {
      Record(MakeTemporary);
    }

    /** The rename of that symlink over the link. */
    method RenameOverLink(version: string, at: nat)
      requires Valid() && at < |BINARIES| && State().phase == LinkReady(at) && State().version == version
      modifies this`disk, this`run
      ensures Valid() && Continues(old(run), run)
      ensures State() == old(State()).(disk := disk, phase := Linking(at + 1))
      ensures disk == old(disk).(bin := old(disk).bin[BINARIES[at] := Link(Version(version))])
    {
      disk := disk.(bin := disk.bin[BINARIES[at] := Link(Version(version))]);
      Record(PointLink);
    }

    /** `pointBinLink`: a temporary symlink renamed over the link. */
    method PointBinLink(version: string, at: nat)
      requires Valid() && at < |BINARIES| && State().phase == Linking(at) && State().version == version
      modifies this`disk, this`run
      ensures Valid() && Continues(old(run), run)
      ensures State() == old(State()).(disk := disk, phase := Linking(at + 1))
      ensures disk == old(disk).(bin := old(disk).bin[BINARIES[at] := Link(Version(version))])
    {
      MakeTemporaryLink(at);
      RenameOverLink(version, at);
    }

    /** The three links, one after the other. */
    method PointBinLinks(version: string)
      requires Valid() && State().phase == Linking(0) && State().version == version
      modifies this`disk, this`run
      ensures Valid() && Continues(old(run), run)
      ensures State() == old(State()).(disk := disk, phase := Linking(|BINARIES|))
      ensures disk.versions == old(disk).versions
    {
      ghost var was := State();
      for at := 0 to |BINARIES|
        invariant Valid() && Continues(old(run), run)
        invariant State() == was.(disk := disk, phase := Linking(at))
        invariant disk.versions == old(disk).versions
      {
        PointBinLink(version, at);
      }
    }

    /** `prepareUserChiefBin`'s look at what stands where the links go. */
    method RefusesEntries() returns (refused: bool)
      ensures refused == Refuses(disk)
    {
      for i := 0 to |BINARIES|
        invariant forall k :: 0 <= k < i ==> !(BINARIES[k] in disk.bin && disk.bin[BINARIES[k]] == Unsafe)
      {
        if BINARIES[i] in disk.bin && disk.bin[BINARIES[i]] == Unsafe {
          assert BINARIES[i] in BINARIES;
          return true;
        }
      }
      return false;
    }

    /** The removal of the obsolete binary, the release's last change. */
    method RemoveObsolete()
      requires Valid() && State().phase == Linking(|BINARIES|)
      modifies this`disk, this`run
      ensures Valid() && Continues(old(run), run)
      ensures State() == Step(old(State()), Finish) && State().phase == Idle
      ensures disk == old(disk).(bin := old(disk).bin - {OBSOLETE})
    {
      disk := disk.(bin := disk.bin - {OBSOLETE});
      Record(Finish);
    }

    /** `releaseChiefd`: refused before anything is touched when a `bin/` entry is
        neither a link nor a file; otherwise every link ends on the new, complete
        version, other versions are untouched and no staging directory is left. */
    method ReleaseChiefd(version: string, pid: nat, payload: set<string>) returns (released: bool)
      requires Valid() && State().phase == Idle
      modifies this`disk, this`run
      ensures Valid() && State().phase == Idle
      ensures released <==> forall name :: name in {"chief", "chiefd", "beacond"} && name in old(disk).bin ==>
                              old(disk).bin[name] != Unsafe
      ensures !released ==> disk == old(disk) && run == old(run)
      ensures released ==>
                && Continues(old(run) + [Begin(version, pid, payload)], run)
                && (forall name :: name in {"chief", "chiefd", "beacond"} ==>
                      Names(disk, name, version) && IsHealthy(disk, name))
                && Version(version) in disk.versions && disk.versions[Version(version)] == Tree(payload, payload)
                && (forall d :: d != Version(version) ==>
                      (d in disk.versions <==> d in old(disk).versions && !d.Staging?))
                && (forall d :: d != Version(version) && d in disk.versions ==>
                      disk.versions[d] == old(disk).versions[d])
                && SameEntries(old(disk), disk, {"chief", "chiefd", "beacond", "chiefd-daemon"})
                && "chiefd-daemon" !in disk.bin
    {
      RefusesIffUnsafe(disk);
      var refused := RefusesEntries();
      if refused { return false; }
      Record(Begin(version, pid, payload));
      PublishVersion(version, pid, payload);
      ghost var published := disk.versions;
      PointBinLinks(version);
      FinishedInstall(start, run);
      RemoveObsolete();
      assert disk.versions == published;
      return true;
    }
  }
}
