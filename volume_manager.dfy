/**
  The two commands: backup (resolve the target, then build the runtime's
  arguments) and restore (list the archive's volumes, resolve the source,
  then build the runtime's arguments). What the file system and the archive
  decoder return is given as input; `None` stands for their failure.
*/
module VolumeManager {
  import opened Wrappers
  import opened Paths
  import opened VecDedup
  import opened Archive
  import opened Resolve
  import opened Invocation

  datatype Error =
    | FileSystemError           // creating the placeholder or canonicalising the path failed
    | ArchiveReadError          // opening, decompressing or decoding the archive failed
    | PathError(reason: ResolveError)

  /**
    The `?` on canonicalisation followed by `resolve_path`: a missing path is a
    file-system error, a path that cannot be split is a path error carrying
    the reason, and otherwise the split is passed on unchanged.
  */
  function ResolveOrFail(canonical: Option<Path>): (r: Result<(string, string), Error>)
    ensures canonical.None? ==> r == Failure(FileSystemError)
    ensures r.Success? <==> canonical.Some? && canonical.value != [] && canonical.value[|canonical.value| - 1].Normal?
                            && ToStr(canonical.value).Some?
    ensures canonical.Some? && r.Failure? ==> r.error.PathError? && ResolvePath(canonical.value) == Failure(r.error.reason)
    ensures r.Success? ==> ResolvePath(canonical.value) == Success(r.value)
  {
    match canonical
    case None => Failure(FileSystemError)
    case Some(p) =>
      match ResolvePath(p)
      case Failure(e) => Failure(PathError(e))
      case Success(split) => Success(split)
  }

  /**
    The arguments a backup runs the runtime with. `canonicalTarget` is the
    target after the placeholder file was created and the path canonicalised.
    On success the runtime mounts exactly the given volumes, in order, and
    writes `/output/<file name>` into the target's directory.
  */
  function Backup(volumes: seq<string>, canonicalTarget: Option<Path>): (r: Result<seq<string>, Error>)
    ensures canonicalTarget.None? ==> r == Failure(FileSystemError)
    ensures canonicalTarget.Some? && ResolvePath(canonicalTarget.value).Failure? ==>
              r == Failure(PathError(ResolvePath(canonicalTarget.value).error))
    ensures r.Success? <==> canonicalTarget.Some? && ResolvePath(canonicalTarget.value).Success?
    ensures r.Success? ==>
              var (parent, fileName) := ResolvePath(canonicalTarget.value).value;
              && MountedVolumes(r.value, BackupRoot, BackupMode) == volumes
              && |r.value| == |volumes| + 10
              && r.value[2] == "--volume=" + parent + ":/output"
              && r.value[|volumes| + 6] == "/output/" + fileName
              && r.value == BackupArgs(volumes, parent, fileName)
  {
    match ResolveOrFail(canonicalTarget)
    case Failure(e) => Failure(e)
    case Success((parent, fileName)) =>
      var args := BackupArgs(volumes, parent, fileName);
      BackupMountsExactlyVolumes(volumes, parent, fileName);
      assert args[2] == args[..3][2];
      assert args[|volumes| + 6] == args[3 + |volumes|..][3];
      Success(args)
  }

  /**
    The arguments a restore runs the runtime with. The archive is read first
    (`tree` is its entry list), then the source path is resolved. On success
    the runtime mounts exactly the deduplicated volume names of the archive.
  */
  method Restore(tree: Option<seq<Path>>, canonicalSource: Option<Path>) returns (r: Result<seq<string>, Error>)
    ensures tree.None? ==> r == Failure(ArchiveReadError)
    ensures tree.Some? && canonicalSource.None? ==> r == Failure(FileSystemError)
    ensures tree.Some? && canonicalSource.Some? && ResolvePath(canonicalSource.value).Failure? ==>
              r == Failure(PathError(ResolvePath(canonicalSource.value).error))
    ensures r.Success? <==> tree.Some? && canonicalSource.Some? && ResolvePath(canonicalSource.value).Success?
    ensures r.Success? ==>
              var (parent, fileName) := ResolvePath(canonicalSource.value).value;
              r.value == RestoreArgs(Dedup(VolumeNames(tree.value)), parent, fileName)
    ensures r.Success? ==> MountedVolumes(r.value, RestoreRoot, RestoreMode) == Dedup(VolumeNames(tree.value))
  {
    if tree.None? {
      return Failure(ArchiveReadError);
    }
    var names := TopLevelList(tree.value);
    var resolved := ResolveOrFail(canonicalSource);
    if resolved.Failure? {
      return Failure(resolved.error);
    }
    var (parent, fileName) := resolved.value;
    RestoreMountsExactlyVolumes(names, parent, fileName);
    r := Success(RestoreArgs(names, parent, fileName));
  }

  /**
    Backup then restore: restoring an archive written by a backup mounts the
    volumes that were backed up, in the order the archive lists their
    directories (adjacent directories have different names).
  */
  lemma BackupThenRestore(volumes: seq<string>, files: seq<seq<Path>>, parent: string, fileName: string)
    requires |files| == |volumes|
    requires forall i, f :: 0 <= i < |files| && f in files[i] ==> InsideVolume(f)
    requires NoAdjacentDuplicates(volumes)
    ensures MountedVolumes(RestoreArgs(Dedup(VolumeNames(BackupArchive(volumes, files))), parent, fileName),
                           RestoreRoot, RestoreMode) == volumes
  {
    BackupArchiveNames(volumes, files);
    RestoreMountsExactlyVolumes(volumes, parent, fileName);
  }

  /** Backing up `vol1` and restoring the archive gives back exactly `vol1`. */
  lemma SingleVolumeRoundTrip(files: seq<Path>)
    requires forall f :: f in files ==> InsideVolume(f)
    ensures Dedup(VolumeNames(BackupArchive(["vol1"], [files]))) == ["vol1"]
  {
    BackupArchiveNames(["vol1"], [files]);
  }
}
