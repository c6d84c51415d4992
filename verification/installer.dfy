/** The backup-and-swap protocol of `stage_and_replace_binary`
    (src/codexu.py:293-318) and `make_executable` (src/codexu.py:321-326),
    run over an abstract file system: a map from path to file. Every file
    system call the protocol makes may fail; which ones do is an input. */
module Installer {
  import opened Wrappers

  /** Permission bits of `st_mode`: set-uid, set-gid, sticky, and the nine
      read/write/execute bits. */
  type Perm = bv12

  /** `0o111`: execute for owner, group and others. */
  const ExecBits: Perm := 0x49

  datatype FileRec = FileRec(bytes: seq<bv8>, perm: Perm)

  datatype Path = Path(dir: string, name: string)

  type FileSystem = map<Path, FileRec>

  /** `.<name>.new` beside the live binary. */
  function StagingPath(live: Path): (p: Path)
    ensures p.dir == live.dir && |p.name| == |live.name| + 5
  {
    Path(live.dir, "." + live.name + ".new")
  }

  /** `<name>.bak` beside the live binary. */
  function BackupPath(live: Path): (p: Path)
    ensures p.dir == live.dir && |p.name| == |live.name| + 4
  {
    Path(live.dir, live.name + ".bak")
  }

  /** The live, staging and backup paths are three different files. */
  lemma ThreePathsDistinct(live: Path)
    ensures live != StagingPath(live) && live != BackupPath(live) && StagingPath(live) != BackupPath(live)
  {
  }

  /** `make_executable`'s mode update: the execute bits are switched on and
      no other bit moves. */
  function AddExec(perm: Perm): (r: Perm)
    ensures r & ExecBits == ExecBits
    ensures r & !ExecBits == perm & !ExecBits
    ensures perm & ExecBits == ExecBits ==> r == perm
  {
    perm | ExecBits
  }

  /** The calls the protocol makes, named for the failures they raise. */
  datatype Step = StageCopy | StageChmod | BackupUnlink | BackupMove | FinalRename | RollbackRename

  /** Which calls fail on this run. */
  datatype Faults = Faults(copy: bool, chmod: bool, unlink: bool, moveToBackup: bool, place: bool, rollback: bool)

  const NoFaults := Faults(false, false, false, false, false, false)

  /** A raw `OSError` escaping from a step, or the `CodexUError` that wraps a
      failed final rename. */
  datatype InstallError = RawOsError(step: Step) | PlacementFailed

  datatype Outcome = Installed | Raised(error: InstallError)

  /** The file system after the call, and how the call ended. */
  datatype Run = Run(fs: FileSystem, outcome: Outcome)

  /** Every path other than `a`, `b` and `c` is as it was. */
  ghost predicate SameExcept(fs: FileSystem, fs': FileSystem, a: Path, b: Path, c: Path) {
    forall p :: p != a && p != b && p != c ==>
      (p in fs' <==> p in fs) && (p in fs ==> fs'[p] == fs[p])
  }

  /** `shutil.copy2`: contents and permission bits go to `dst`, replacing
      what was there. It fails when the source is missing, when source and
      destination are one file, or when the system refuses. */
  function CopyFile(fs: FileSystem, src: Path, dst: Path, fail: bool): (r: Option<FileSystem>)
    ensures r.Some? <==> !fail && src in fs && src != dst
    ensures r.Some? ==> dst in r.value && r.value[dst] == fs[src]
    ensures r.Some? ==> forall p :: p != dst ==> (p in r.value <==> p in fs) && (p in fs ==> r.value[p] == fs[p])
  {
    if fail || src !in fs || src == dst then None else Some(fs[dst := fs[src]])
  }

  /** `make_executable`: nothing on Windows (`os.name == "nt"`); elsewhere
      `chmod(mode | 0o111)`, which fails when the file is gone or the system
      refuses. */
  function MakeExecutable(fs: FileSystem, p: Path, posix: bool, fail: bool): (r: Option<FileSystem>)
    ensures r.Some? <==> !posix || (!fail && p in fs)
    ensures r.Some? && !posix ==> r.value == fs
    ensures r.Some? && posix ==>
              && p in r.value
              && r.value[p].bytes == fs[p].bytes
              && r.value[p].perm & ExecBits == ExecBits
              && r.value[p].perm & !ExecBits == fs[p].perm & !ExecBits
    ensures r.Some? ==> forall q :: q != p ==> (q in r.value <==> q in fs) && (q in fs ==> r.value[q] == fs[q])
  {
    if !posix then Some(fs)
    else if fail || p !in fs then None
    else Some(fs[p := FileRec(fs[p].bytes, AddExec(fs[p].perm))])
  }

  /** `Path.unlink`. */
  function Unlink(fs: FileSystem, p: Path, fail: bool): (r: Option<FileSystem>)
    ensures r.Some? <==> !fail && p in fs
    ensures r.Some? ==> r.value.Keys == fs.Keys - {p}
    ensures r.Some? ==> forall q :: q in r.value ==> r.value[q] == fs[q]
  {
    if fail || p !in fs then None else Some(fs - {p})
  }

  /** `Path.replace` (`os.replace`): `src` takes the place of `dst`. */
  function Rename(fs: FileSystem, src: Path, dst: Path, fail: bool): (r: Option<FileSystem>)
    requires src != dst
    ensures r.Some? <==> !fail && src in fs
    ensures r.Some? ==> src !in r.value && dst in r.value && r.value[dst] == fs[src]
    ensures r.Some? ==> forall q :: q != src && q != dst ==> (q in r.value <==> q in fs) && (q in fs ==> r.value[q] == fs[q])
  {
    if fail || src !in fs then None else Some((fs - {src})[dst := fs[src]])
  }

  /** The final rename failed. When the live file is gone and a backup is
      there, the backup is moved back; either way the caller is told. The
      move back is not guarded: its own failure escapes as a raw `OSError`. */
  function AfterFailedPlacement(fs: FileSystem, live: Path, f: Faults): (r: Run)
  {
    var bak := BackupPath(live);
    ThreePathsDistinct(live);
    if live !in fs && bak in fs then
      match Rename(fs, bak, live, f.rollback)
      case None => Run(fs, Raised(RawOsError(RollbackRename)))
      case Some(fs') => Run(fs', Raised(PlacementFailed))
    else Run(fs, Raised(PlacementFailed))
  }

  /** The swap, from the moment the staged file is ready: the old backup is
      deleted whether or not a live binary exists, the live binary (if any)
      becomes the backup, and the staged file becomes the live binary. */
  function Swap(fs: FileSystem, live: Path, f: Faults): (r: Run)
  {
    var stg := StagingPath(live);
    var bak := BackupPath(live);
    ThreePathsDistinct(live);
    var cleared := if bak in fs then Unlink(fs, bak, f.unlink) else Some(fs);
    match cleared
    case None => Run(fs, Raised(RawOsError(BackupUnlink)))
    case Some(fs1) =>
      var moved := if live in fs1 then Rename(fs1, live, bak, f.moveToBackup) else Some(fs1);
      match moved
      case None => Run(fs1, Raised(RawOsError(BackupMove)))
      case Some(fs2) =>
        match Rename(fs2, stg, live, f.place)
        case Some(fs3) => Run(fs3, Installed)
        case None => AfterFailedPlacement(fs2, live, f)
  }

  /** `stage_and_replace_binary(src, live)`, where `posix` says whether
      `os.name != "nt"`. */
  function StageAndReplace(fs: FileSystem, src: Path, live: Path, posix: bool, f: Faults): (r: Run)
  {
    var stg := StagingPath(live);
    match CopyFile(fs, src, stg, f.copy)
    case None => Run(fs, Raised(RawOsError(StageCopy)))
    case Some(fs1) =>
      match MakeExecutable(fs1, stg, posix, f.chmod)
      case None => Run(fs1, Raised(RawOsError(StageChmod)))
      case Some(fs2) => Swap(fs2, live, f)
  }

  /** What the staged, and then live, binary looks like: the source's bytes
      and permission bits, with the execute bits added off Windows. */
  function NewBinary(src: FileRec, posix: bool): FileRec {
    if posix then FileRec(src.bytes, AddExec(src.perm)) else src
  }

  /** Staging the source: the staged file is the new binary, nothing else
      moves, and it fails exactly on the copy and chmod failures. */
  lemma StageFacts(fs: FileSystem, src: Path, live: Path, posix: bool, f: Faults)
    ensures var stg := StagingPath(live);
            var c := CopyFile(fs, src, stg, f.copy);
            && (c.Some? ==> var m := MakeExecutable(c.value, stg, posix, f.chmod);
                  && (m.Some? <==> !(posix && f.chmod))
                  && (m.Some? ==> stg in m.value && m.value[stg] == NewBinary(fs[src], posix))
                  && (m.Some? ==> forall q :: q != stg ==> (q in m.value <==> q in fs) && (q in fs ==> m.value[q] == fs[q])))
  {
  }

  /** The swap touches nothing but the three paths. */
  lemma SwapFrame(fs: FileSystem, live: Path, f: Faults)
    ensures SameExcept(fs, Swap(fs, live, f).fs, live, StagingPath(live), BackupPath(live))
  {
    var stg := StagingPath(live);
    var bak := BackupPath(live);
    ThreePathsDistinct(live);
    var cleared := if bak in fs then Unlink(fs, bak, f.unlink) else Some(fs);
    if cleared.Some? {
      var fs1 := cleared.value;
      assert SameExcept(fs, fs1, live, stg, bak);
      var moved := if live in fs1 then Rename(fs1, live, bak, f.moveToBackup) else Some(fs1);
      if moved.Some? {
        var fs2 := moved.value;
        assert SameExcept(fs, fs2, live, stg, bak);
      }
    }
  }

  /** The swap reports success exactly when no call on its path failed. */
  lemma SwapSucceedsExactly(fs: FileSystem, live: Path, f: Faults)
    requires StagingPath(live) in fs
    ensures Swap(fs, live, f).outcome == Installed <==>
              !(BackupPath(live) in fs && f.unlink) && !(live in fs && f.moveToBackup) && !f.place
  {
    ThreePathsDistinct(live);
  }

  /** A successful swap: the staged file is live, the previous live file is
      the one backup, and the staging path is free. */
  lemma SwapSuccess(fs: FileSystem, live: Path, f: Faults)
    requires Swap(fs, live, f).outcome == Installed
    ensures var r := Swap(fs, live, f).fs;
            && StagingPath(live) in fs
            && live in r && r[live] == fs[StagingPath(live)]
            && StagingPath(live) !in r
            && (live in fs ==> BackupPath(live) in r && r[BackupPath(live)] == fs[live])
            && (live !in fs ==> BackupPath(live) !in r)
  {
    ThreePathsDistinct(live);
  }

  /** A failed final rename leaves the staged file in place, puts any
      previous live file back, and keeps no backup. */
  lemma SwapPlacementFailure(fs: FileSystem, live: Path, f: Faults)
    requires StagingPath(live) in fs
    requires Swap(fs, live, f).outcome == Raised(PlacementFailed)
    ensures var r := Swap(fs, live, f).fs;
            && f.place
            && StagingPath(live) in r && r[StagingPath(live)] == fs[StagingPath(live)]
            && (live in r <==> live in fs)
            && (live in fs ==> r[live] == fs[live])
            && BackupPath(live) !in r
  {
    ThreePathsDistinct(live);
  }

  /** The previous live binary always survives: at the live path or at the
      backup path. It is missing from the live path only when the swap
      succeeded or the move back itself failed. */
  lemma SwapKeepsOldBinary(fs: FileSystem, live: Path, f: Faults)
    requires live in fs
    ensures var r := Swap(fs, live, f);
            && ((live in r.fs && r.fs[live] == fs[live]) || (BackupPath(live) in r.fs && r.fs[BackupPath(live)] == fs[live]))
            && (live !in r.fs ==> r.outcome == Raised(RawOsError(RollbackRename)))
  {
    ThreePathsDistinct(live);
  }

  /** Which error the swap raises: the first of its calls that fails names
      it. Only a failed final rename is reported as `PlacementFailed`, and
      then only when the move back does not fail in turn; every other
      failure escapes as the raw error of its own call. */
  lemma SwapErrorIsFirstFailure(fs: FileSystem, live: Path, f: Faults)
    requires StagingPath(live) in fs
    ensures var o := Swap(fs, live, f).outcome;
            var unlinkFails := BackupPath(live) in fs && f.unlink;
            var moveFails := live in fs && f.moveToBackup;
            var reached := !unlinkFails && !moveFails;
            && (o == Raised(RawOsError(BackupUnlink)) <==> unlinkFails)
            && (o == Raised(RawOsError(BackupMove)) <==> !unlinkFails && moveFails)
            && (o == Raised(RawOsError(RollbackRename)) <==> reached && f.place && live in fs && f.rollback)
            && (o == Raised(PlacementFailed) <==> reached && f.place && !(live in fs && f.rollback))
            && o != Raised(RawOsError(StageCopy)) && o != Raised(RawOsError(StageChmod))
            && o != Raised(RawOsError(FinalRename))
  {
    ThreePathsDistinct(live);
  }

  /** `stage_and_replace_binary` reports success exactly when every call on
      its path succeeded: never when the final rename failed. */
  lemma InstallSucceedsExactly(fs: FileSystem, src: Path, live: Path, posix: bool, f: Faults)
    ensures StageAndReplace(fs, src, live, posix, f).outcome == Installed <==>
              && !f.copy && src in fs && src != StagingPath(live)
              && !(posix && f.chmod)
              && !(BackupPath(live) in fs && f.unlink)
              && !(live in fs && f.moveToBackup)
              && !f.place
  {
    ThreePathsDistinct(live);
    StageFacts(fs, src, live, posix, f);
    var c := CopyFile(fs, src, StagingPath(live), f.copy);
    if c.Some? {
      var m := MakeExecutable(c.value, StagingPath(live), posix, f.chmod);
      if m.Some? {
        SwapSucceedsExactly(m.value, live, f);
      }
    }
  }

  /** After a successful install the live path holds the new binary, the
      backup path holds the previous live binary (or nothing if there was
      none), and the staging path is free. */
  lemma SuccessfulInstall(fs: FileSystem, src: Path, live: Path, posix: bool, f: Faults)
    requires StageAndReplace(fs, src, live, posix, f).outcome == Installed
    ensures var r := StageAndReplace(fs, src, live, posix, f).fs;
            && src in fs
            && live in r && r[live] == NewBinary(fs[src], posix)
            && StagingPath(live) !in r
            && (live in fs ==> BackupPath(live) in r && r[BackupPath(live)] == fs[live])
            && (live !in fs ==> BackupPath(live) !in r)
  {
    ThreePathsDistinct(live);
    StageFacts(fs, src, live, posix, f);
    var c := CopyFile(fs, src, StagingPath(live), f.copy);
    var m := MakeExecutable(c.value, StagingPath(live), posix, f.chmod);
    SwapSuccess(m.value, live, f);
  }

  /** Whatever happens, no path other than the live, staging and backup
      paths changes. */
  lemma InstallFrame(fs: FileSystem, src: Path, live: Path, posix: bool, f: Faults)
    ensures SameExcept(fs, StageAndReplace(fs, src, live, posix, f).fs, live, StagingPath(live), BackupPath(live))
  {
    ThreePathsDistinct(live);
    StageFacts(fs, src, live, posix, f);
    var c := CopyFile(fs, src, StagingPath(live), f.copy);
    if c.Some? {
      var m := MakeExecutable(c.value, StagingPath(live), posix, f.chmod);
      if m.Some? {
        SwapFrame(m.value, live, f);
      }
    }
  }

  /** A failed final rename (the one failure reported as `CodexUError`):
      the staged new binary stays where it is, the previous live binary is
      back in place, and no backup is kept. */
  lemma FailedPlacement(fs: FileSystem, src: Path, live: Path, posix: bool, f: Faults)
    requires StageAndReplace(fs, src, live, posix, f).outcome == Raised(PlacementFailed)
    ensures var r := StageAndReplace(fs, src, live, posix, f).fs;
            && f.place && src in fs
            && StagingPath(live) in r && r[StagingPath(live)] == NewBinary(fs[src], posix)
            && (live in r <==> live in fs)
            && (live in fs ==> r[live] == fs[live])
            && BackupPath(live) !in r
  {
    ThreePathsDistinct(live);
    StageFacts(fs, src, live, posix, f);
    var c := CopyFile(fs, src, StagingPath(live), f.copy);
    var m := MakeExecutable(c.value, StagingPath(live), posix, f.chmod);
    SwapPlacementFailure(m.value, live, f);
  }

  /** The previous live binary is never lost: it is at the live path or at
      the backup path after every run, and it is off the live path only
      after a successful install or when moving the backup back failed. */
  lemma OldBinaryKept(fs: FileSystem, src: Path, live: Path, posix: bool, f: Faults)
    requires live in fs
    ensures var r := StageAndReplace(fs, src, live, posix, f);
            && ((live in r.fs && r.fs[live] == fs[live]) || (BackupPath(live) in r.fs && r.fs[BackupPath(live)] == fs[live]))
            && (live in r.fs || r.outcome == Raised(RawOsError(RollbackRename)))
  {
    ThreePathsDistinct(live);
    StageFacts(fs, src, live, posix, f);
    var c := CopyFile(fs, src, StagingPath(live), f.copy);
    if c.Some? {
      var m := MakeExecutable(c.value, StagingPath(live), posix, f.chmod);
      if m.Some? {
        SwapKeepsOldBinary(m.value, live, f);
      }
    }
  }

  /** Which error `stage_and_replace_binary` raises: the first call that
      fails names it. The copy, the chmod, the unlink, the move to backup and
      the move back raise their own `OSError`; only a failed final rename is
      wrapped as `CodexUError`, and no run raises the bare error of the final
      rename. */
  lemma InstallErrorIsFirstFailure(fs: FileSystem, src: Path, live: Path, posix: bool, f: Faults)
    ensures var o := StageAndReplace(fs, src, live, posix, f).outcome;
            var copyFails := f.copy || src !in fs || src == StagingPath(live);
            var chmodFails := !copyFails && posix && f.chmod;
            var staged := !copyFails && !chmodFails;
            var unlinkFails := staged && BackupPath(live) in fs && f.unlink;
            var moveFails := staged && !unlinkFails && live in fs && f.moveToBackup;
            var reached := staged && !unlinkFails && !moveFails;
            && (o == Raised(RawOsError(StageCopy)) <==> copyFails)
            && (o == Raised(RawOsError(StageChmod)) <==> chmodFails)
            && (o == Raised(RawOsError(BackupUnlink)) <==> unlinkFails)
            && (o == Raised(RawOsError(BackupMove)) <==> moveFails)
            && (o == Raised(RawOsError(RollbackRename)) <==> reached && f.place && live in fs && f.rollback)
            && (o == Raised(PlacementFailed) <==> reached && f.place && !(live in fs && f.rollback))
            && o != Raised(RawOsError(FinalRename))
  {
    ThreePathsDistinct(live);
    StageFacts(fs, src, live, posix, f);
    var c := CopyFile(fs, src, StagingPath(live), f.copy);
    if c.Some? {
      var m := MakeExecutable(c.value, StagingPath(live), posix, f.chmod);
      if m.Some? {
        SwapErrorIsFirstFailure(m.value, live, f);
      }
    }
  }

  /** A source binary outside the three install paths. */
  predicate IsOutsideSource(fs: FileSystem, src: Path, live: Path) {
    src in fs && src != live && src != StagingPath(live) && src != BackupPath(live)
  }

  /** The paths present after an install, from the frame and the three
      install paths. */
  lemma KeysAfterInstall(fs: FileSystem, r: FileSystem, live: Path, stg: Path, bak: Path)
    requires SameExcept(fs, r, live, stg, bak)
    requires live in r && stg !in r && (bak in r <==> live in fs)
    ensures r.Keys == fs.Keys - {stg, bak} + {live} + (if live in fs then {bak} else {})
  {
    var expected := fs.Keys - {stg, bak} + {live} + (if live in fs then {bak} else {});
    forall p | p in r.Keys
      ensures p in expected
    {
    }
  }

  /** One fault-free install from a source outside the install paths
      succeeds and leaves that source where it was. */
  lemma CleanInstall(fs: FileSystem, src: Path, other: Path, live: Path, posix: bool)
    requires IsOutsideSource(fs, src, live)
    requires IsOutsideSource(fs, other, live)
    ensures var r := StageAndReplace(fs, src, live, posix, NoFaults);
            && r.outcome == Installed
            && live in r.fs && r.fs[live] == NewBinary(fs[src], posix)
            && (live in fs ==> BackupPath(live) in r.fs && r.fs[BackupPath(live)] == fs[live])
            && IsOutsideSource(r.fs, other, live) && r.fs[other] == fs[other]
            && r.fs.Keys == fs.Keys - {StagingPath(live), BackupPath(live)} + {live}
                            + (if live in fs then {BackupPath(live)} else {})
  {
    var r := StageAndReplace(fs, src, live, posix, NoFaults);
    InstallSucceedsExactly(fs, src, live, posix, NoFaults);
    SuccessfulInstall(fs, src, live, posix, NoFaults);
    InstallFrame(fs, src, live, posix, NoFaults);
    KeysAfterInstall(fs, r.fs, live, StagingPath(live), BackupPath(live));
  }

  /** An install over an existing live binary keeps exactly one backup:
      the binary it replaced. */
  lemma InstallOverLive(fs: FileSystem, src: Path, other: Path, live: Path, posix: bool)
    requires IsOutsideSource(fs, src, live)
    requires IsOutsideSource(fs, other, live)
    requires live in fs
    ensures var r := StageAndReplace(fs, src, live, posix, NoFaults);
            && r.outcome == Installed
            && live in r.fs && r.fs[live] == NewBinary(fs[src], posix)
            && BackupPath(live) in r.fs && r.fs[BackupPath(live)] == fs[live]
            && IsOutsideSource(r.fs, other, live) && r.fs[other] == fs[other]
            && r.fs.Keys == fs.Keys - {StagingPath(live)} + {live, BackupPath(live)}
  {
    CleanInstall(fs, src, other, live, posix);
  }

  /** Fault-free installs of each of `sources` in turn, stopping at the
      first that does not succeed. */
  function InstallEach(fs: FileSystem, sources: seq<Path>, live: Path, posix: bool): (r: Run)
    decreases |sources|
  {
    if sources == [] then Run(fs, Installed)
    else
      var r := StageAndReplace(fs, sources[0], live, posix, NoFaults);
      if r.outcome != Installed then r else InstallEach(r.fs, sources[1..], live, posix)
  }

  /** The first of several fault-free installs succeeds, leaves the other
      sources alone, and puts a live binary in place. */
  lemma FirstOfSeveral(fs: FileSystem, sources: seq<Path>, live: Path, posix: bool) returns (fs1: FileSystem)
    requires |sources| >= 2
    requires forall i :: 0 <= i < |sources| ==> IsOutsideSource(fs, sources[i], live)
    ensures InstallEach(fs, sources, live, posix) == InstallEach(fs1, sources[1..], live, posix)
    ensures live in fs1 && sources[0] in fs && fs1[live] == NewBinary(fs[sources[0]], posix)
    ensures forall i :: 1 <= i < |sources| ==>
              IsOutsideSource(fs1, sources[i], live) && sources[i] in fs && fs1[sources[i]] == fs[sources[i]]
    ensures fs1.Keys - {StagingPath(live)} + {live, BackupPath(live)} == fs.Keys - {StagingPath(live)} + {live, BackupPath(live)}
  {
    var r1 := StageAndReplace(fs, sources[0], live, posix, NoFaults);
    fs1 := r1.fs;
    CleanInstall(fs, sources[0], sources[1], live, posix);
    forall i | 1 <= i < |sources|
      ensures IsOutsideSource(fs1, sources[i], live) && sources[i] in fs && fs1[sources[i]] == fs[sources[i]]
    {
      CleanInstall(fs, sources[0], sources[i], live, posix);
    }
  }

  /** The last of several installs is one install. */
  lemma LastOfSeveral(fs: FileSystem, src: Path, live: Path, posix: bool)
    ensures InstallEach(fs, [src], live, posix) == StageAndReplace(fs, src, live, posix, NoFaults)
  {
    var r := StageAndReplace(fs, src, live, posix, NoFaults);
    assert [src][1..] == [];
  }

  /** One backup generation: after two or more fault-free installs from
      sources outside the install paths, the last source is the live binary,
      the one before it is the backup, and the staging path is free. */
  lemma {:induction false} RepeatedInstallsKeepOneBackup(fs: FileSystem, sources: seq<Path>, live: Path, posix: bool)
    requires |sources| >= 2
    requires forall i :: 0 <= i < |sources| ==> IsOutsideSource(fs, sources[i], live)
    ensures var r := InstallEach(fs, sources, live, posix);
            && r.outcome == Installed
            && live in r.fs && sources[|sources| - 1] in fs
            && r.fs[live] == NewBinary(fs[sources[|sources| - 1]], posix)
            && BackupPath(live) in r.fs && sources[|sources| - 2] in fs
            && r.fs[BackupPath(live)] == NewBinary(fs[sources[|sources| - 2]], posix)
            && r.fs.Keys == fs.Keys - {StagingPath(live)} + {live, BackupPath(live)}
    decreases |sources|
  {
    var n := |sources|;
    var fs1 := FirstOfSeveral(fs, sources, live, posix);
    var tail := sources[1..];
    assert fs1[sources[n - 1]] == fs[sources[n - 1]];
    if |tail| == 1 {
      assert tail == [sources[1]];
      LastOfSeveral(fs1, sources[1], live, posix);
      InstallOverLive(fs1, sources[1], sources[1], live, posix);
    } else {
      assert fs1[sources[n - 2]] == fs[sources[n - 2]];
      assert tail[|tail| - 1] == sources[n - 1] && tail[|tail| - 2] == sources[n - 2];
      assert forall i :: 0 <= i < |tail| ==> tail[i] == sources[i + 1];
      RepeatedInstallsKeepOneBackup(fs1, tail, live, posix);
    }
  }
}
