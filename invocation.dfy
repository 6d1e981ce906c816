/**
  The argument lists handed to the container runtime (`docker`) by backup
  and restore. Each is a fixed run prefix, the mount of the host directory
  that holds the archive, one mount per volume in input order, the image and
  the archiver command.
*/
module Invocation {
  import opened Wrappers

  /** `--volume=<volume>:<root>/<volume>:<mode>`: mounts a volume under a directory of the same name. */
  function VolumeArg(volume: string, root: string, mode: string): (r: string)
    ensures |r| == 12 + 2 * |volume| + |root| + |mode|
    ensures r[..9] == "--volume=" && r[9..9 + |volume|] == volume
    ensures r[|r| - |volume| - |mode| - 1..|r| - |mode| - 1] == volume
    ensures r[|r| - |mode|..] == mode
  {
    "--volume=" + volume + ":" + root + "/" + volume + ":" + mode
  }

  /** One volume mount per volume, in the order given (the `map` over the volume names). */
  function VolumeArgs(volumes: seq<string>, root: string, mode: string): (args: seq<string>)
    ensures |args| == |volumes|
  {
    seq(|volumes|, i requires 0 <= i < |volumes| => VolumeArg(volumes[i], root, mode))
  }

  const BackupRoot := "/input"
  const BackupMode := "ro"
  const RestoreRoot := "/output"
  const RestoreMode := "rw"

  /**
    `run --rm --volume=<parent>:/output`, a read-only mount of each volume
    under `/input`, then `alpine tar -czf /output/<file> -C /input .`.
    The host directory is mounted before the volumes.
  */
  function BackupArgs(volumes: seq<string>, parentAbs: string, fileName: string): (args: seq<string>)
    ensures |args| == |volumes| + 10
    ensures args[..3] == ["run", "--rm", "--volume=" + parentAbs + ":/output"]
    ensures forall i :: 0 <= i < |volumes| ==> args[3 + i] == VolumeArg(volumes[i], BackupRoot, BackupMode)
    ensures args[3 + |volumes|..] == ["alpine", "tar", "-czf", "/output/" + fileName, "-C", "/input", "."]
  {
    ["run", "--rm", "--volume=" + parentAbs + ":/output"]
      + VolumeArgs(volumes, BackupRoot, BackupMode)
      + ["alpine", "tar", "-czf", "/output/" + fileName, "-C", "/input", "."]
  }

  /**
    `run --rm --volume=<parent>:/input`, a read-write mount of each volume
    under `/output`, then `alpine tar -xzf /input/<file> -C /output`.
    The host directory is mounted before the volumes.
  */
  function RestoreArgs(volumes: seq<string>, parentAbs: string, fileName: string): (args: seq<string>)
    ensures |args| == |volumes| + 9
    ensures args[..3] == ["run", "--rm", "--volume=" + parentAbs + ":/input"]
    ensures forall i :: 0 <= i < |volumes| ==> args[3 + i] == VolumeArg(volumes[i], RestoreRoot, RestoreMode)
    ensures args[3 + |volumes|..] == ["alpine", "tar", "-xzf", "/input/" + fileName, "-C", "/output"]
  {
    ["run", "--rm", "--volume=" + parentAbs + ":/input"]
      + VolumeArgs(volumes, RestoreRoot, RestoreMode)
      + ["alpine", "tar", "-xzf", "/input/" + fileName, "-C", "/output"]
  }

  /** The volume an argument mounts under `root` with `mode`, if it is such a volume mount. */
  function MountedVolume(arg: string, root: string, mode: string): (r: Option<string>)
    ensures r.Some? ==> arg == VolumeArg(r.value, root, mode)
  {
    var overhead := 12 + |root| + |mode|;
    if |arg| < overhead || (|arg| - overhead) % 2 != 0 then None
    else
      var volume := arg[9..9 + (|arg| - overhead) / 2];
      if arg == VolumeArg(volume, root, mode) then Some(volume) else None
  }

  /** The volumes an argument list mounts under `root` with `mode`, in argument order. */
  function MountedVolumes(args: seq<string>, root: string, mode: string): seq<string> {
    if args == [] then []
    else
      match MountedVolume(args[0], root, mode)
      case None => MountedVolumes(args[1..], root, mode)
      case Some(v) => [v] + MountedVolumes(args[1..], root, mode)
  }

  /** A volume mount argument can be read back: it names exactly one volume. */
  lemma MountedVolumeInverse(volume: string, root: string, mode: string)
    ensures MountedVolume(VolumeArg(volume, root, mode), root, mode) == Some(volume)
  {
    var arg := VolumeArg(volume, root, mode);
    assert |arg| == 2 * |volume| + 12 + |root| + |mode|;
    assert arg[9..9 + |volume|] == volume;
  }

  /** An argument whose first or last character differs from every mount argument's mounts nothing. */
  lemma NotAMount(arg: string, root: string, mode: string)
    requires |mode| > 0 && |arg| > 0
    requires arg[0] != '-' || arg[|arg| - 1] != mode[|mode| - 1]
    ensures MountedVolume(arg, root, mode) == None
  {
  }

  lemma {:induction false} NoMounts(args: seq<string>, root: string, mode: string)
    requires forall i :: 0 <= i < |args| ==> MountedVolume(args[i], root, mode) == None
    ensures MountedVolumes(args, root, mode) == []
    decreases |args|
  {
    if args != [] {
      NoMounts(args[1..], root, mode);
    }
  }

  lemma {:induction false} MountedVolumesAppend(a: seq<string>, b: seq<string>, root: string, mode: string)
    ensures MountedVolumes(a + b, root, mode) == MountedVolumes(a, root, mode) + MountedVolumes(b, root, mode)
    decreases |a|
  {
    if a == [] {
      assert a + b == b;
    } else {
      assert (a + b)[0] == a[0];
      assert (a + b)[1..] == a[1..] + b;
      MountedVolumesAppend(a[1..], b, root, mode);
    }
  }

  /** The volume mounts read back to the volumes they were made from, in the same order. */
  lemma {:induction false} VolumeArgsRoundTrip(volumes: seq<string>, root: string, mode: string)
    ensures MountedVolumes(VolumeArgs(volumes, root, mode), root, mode) == volumes
    decreases |volumes|
  {
    if volumes != [] {
      var args := VolumeArgs(volumes, root, mode);
      assert args[1..] == VolumeArgs(volumes[1..], root, mode);
      MountedVolumeInverse(volumes[0], root, mode);
      VolumeArgsRoundTrip(volumes[1..], root, mode);
    }
  }

  /**
    A backup invocation mounts under `/input` exactly the given volumes, in
    the given order, and nothing else: the host-directory mount, the image
    and the command are not volume mounts.
  */
  lemma BackupMountsExactlyVolumes(volumes: seq<string>, parentAbs: string, fileName: string)
    ensures MountedVolumes(BackupArgs(volumes, parentAbs, fileName), BackupRoot, BackupMode) == volumes
  {
    var prefix := ["run", "--rm", "--volume=" + parentAbs + ":/output"];
    var middle := VolumeArgs(volumes, BackupRoot, BackupMode);
    var suffix := ["alpine", "tar", "-czf", "/output/" + fileName, "-C", "/input", "."];
    MountedVolumesAppend(prefix + middle, suffix, BackupRoot, BackupMode);
    MountedVolumesAppend(prefix, middle, BackupRoot, BackupMode);
    VolumeArgsRoundTrip(volumes, BackupRoot, BackupMode);
    BackupFixedArgsMountNothing(parentAbs, fileName);
  }

  lemma BackupFixedArgsMountNothing(parentAbs: string, fileName: string)
    ensures MountedVolumes(["run", "--rm", "--volume=" + parentAbs + ":/output"], BackupRoot, BackupMode) == []
    ensures MountedVolumes(["alpine", "tar", "-czf", "/output/" + fileName, "-C", "/input", "."], BackupRoot, BackupMode) == []
  {
    NotAMount("--volume=" + parentAbs + ":/output", BackupRoot, BackupMode);
    NotAMount("/output/" + fileName, BackupRoot, BackupMode);
    NoMounts(["run", "--rm", "--volume=" + parentAbs + ":/output"], BackupRoot, BackupMode);
    NoMounts(["alpine", "tar", "-czf", "/output/" + fileName, "-C", "/input", "."], BackupRoot, BackupMode);
  }

  /** A restore invocation mounts under `/output` exactly the given volumes, in the given order, and nothing else. */
  lemma RestoreMountsExactlyVolumes(volumes: seq<string>, parentAbs: string, fileName: string)
    ensures MountedVolumes(RestoreArgs(volumes, parentAbs, fileName), RestoreRoot, RestoreMode) == volumes
  {
    var prefix := ["run", "--rm", "--volume=" + parentAbs + ":/input"];
    var middle := VolumeArgs(volumes, RestoreRoot, RestoreMode);
    var suffix := ["alpine", "tar", "-xzf", "/input/" + fileName, "-C", "/output"];
    MountedVolumesAppend(prefix + middle, suffix, RestoreRoot, RestoreMode);
    MountedVolumesAppend(prefix, middle, RestoreRoot, RestoreMode);
    VolumeArgsRoundTrip(volumes, RestoreRoot, RestoreMode);
    RestoreFixedArgsMountNothing(parentAbs, fileName);
  }

  lemma RestoreFixedArgsMountNothing(parentAbs: string, fileName: string)
    ensures MountedVolumes(["run", "--rm", "--volume=" + parentAbs + ":/input"], RestoreRoot, RestoreMode) == []
    ensures MountedVolumes(["alpine", "tar", "-xzf", "/input/" + fileName, "-C", "/output"], RestoreRoot, RestoreMode) == []
  {
    NotAMount("--volume=" + parentAbs + ":/input", RestoreRoot, RestoreMode);
    NotAMount("/input/" + fileName, RestoreRoot, RestoreMode);
    NoMounts(["run", "--rm", "--volume=" + parentAbs + ":/input"], RestoreRoot, RestoreMode);
    NoMounts(["alpine", "tar", "-xzf", "/input/" + fileName, "-C", "/output"], RestoreRoot, RestoreMode);
  }

  /** With volumes `a` then `b`, the output directory is mounted first, then `a`, then `b`. */
  lemma BackupMountOrderExample(parentAbs: string, fileName: string)
    ensures BackupArgs(["a", "b"], parentAbs, fileName)[2..5] ==
            ["--volume=" + parentAbs + ":/output", "--volume=a:/input/a:ro", "--volume=b:/input/b:ro"]
  {
    var args := BackupArgs(["a", "b"], parentAbs, fileName);
    assert args[2] == args[..3][2];
    assert VolumeArg("a", BackupRoot, BackupMode) == "--volume=a:/input/a:ro";
    assert VolumeArg("b", BackupRoot, BackupMode) == "--volume=b:/input/b:ro";
  }
}
