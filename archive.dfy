/**
  Volume names recovered from the entry paths of a backup archive
  (`get_tar_top_level_list`). Every entry is mapped to the name of its
  third ancestor counted from the root end (index -3 of the ancestor list);
  entries too shallow to have one, or whose name is not text, are dropped;
  adjacent repeats are then collapsed.
*/
module Archive {
  import opened Wrappers
  import opened Paths
  import opened NegativeIndex
  import opened VecDedup

  /**
    The name one entry contributes: the file name of ancestor -3, as text.
    An entry with fewer than three ancestors (such as `.` or `./`) contributes
    nothing. Otherwise the name is the second component of a relative path
    (the `v` of `./v/...`) and the third of an absolute one (the `v` of
    `/x/v/...`, since there the root is the last ancestor).
  */
  function EntryVolumeName(entry: Path): (r: Option<string>)
    ensures |Ancestors(entry)| < 3 ==> r == None
    ensures WellFormed(entry) ==>
              var depth := if IsAbsolute(entry) then 3 else 2;
              r == if |entry| < depth then None else ComponentName(entry[depth - 1])
  {
    AncestorsAreTruncations(entry);
    match NegIndex(Ancestors(entry), -3)
    case None => None
    case Some(ancestor) =>
      match FileName(ancestor)
      case None => None
      case Some(name) => NameToStr(name)
  }

  /** The text of a component when it is a normal, text-valued name. */
  function ComponentName(c: Component): Option<string> {
    if c.Normal? then NameToStr(c.name) else None
  }

  /** The names of all entries, in archive order, before deduplication (the `filter_map` and `collect`). */
  function VolumeNames(entries: seq<Path>): (names: seq<string>)
    ensures |names| <= |entries|
  {
    if entries == [] then []
    else
      match EntryVolumeName(entries[0])
      case None => VolumeNames(entries[1..])
      case Some(name) => [name] + VolumeNames(entries[1..])
  }

  /**
    Collects the entries' names into a buffer and deduplicates it in place,
    as the source does with `Vec::dedup`.
  */
  method TopLevelList(entries: seq<Path>) returns (names: seq<string>)
    ensures names == Dedup(VolumeNames(entries))
  {
    var collected := VolumeNames(entries);
    var buffer := new string[|collected|](i requires 0 <= i < |collected| => collected[i]);
    assert buffer[..] == collected;
    var len := DedupInPlace(buffer);
    names := buffer[..len];
  }

  /** An entry `./v/...` below a text-named directory `v` contributes `v`. */
  lemma DotSlashEntryName(v: string, rest: Path)
    requires WellFormed([CurDir, Normal(Text(v))] + rest)
    ensures EntryVolumeName([CurDir, Normal(Text(v))] + rest) == Some(v)
  {
  }

  lemma {:induction false} VolumeNamesAppend(a: seq<Path>, b: seq<Path>)
    ensures VolumeNames(a + b) == VolumeNames(a) + VolumeNames(b)
    decreases |a|
  {
    if a == [] {
      assert a + b == b;
    } else {
      assert (a + b)[0] == a[0];
      assert (a + b)[1..] == a[1..] + b;
      VolumeNamesAppend(a[1..], b);
      match EntryVolumeName(a[0])
      case None =>
      case Some(name) =>
        assert VolumeNames(a + b) == [name] + VolumeNames(a[1..] + b);
    }
  }

  /** The entry `./<volume>/<names...>`. */
  function DotSlashEntry(volume: string, names: seq<string>): Path {
    [CurDir, Normal(Text(volume))] + seq(|names|, i requires 0 <= i < |names| => Normal(Text(names[i])))
  }

  lemma DotSlashEntryNames(e1: Path, e2: Path, e3: Path, v1: string, v2: string, v3: string)
    requires EntryVolumeName(e1) == Some(v1)
    requires EntryVolumeName(e2) == Some(v2)
    requires EntryVolumeName(e3) == Some(v3)
    ensures VolumeNames([e1, e2, e3]) == [v1, v2, v3]
  {
    assert [e1, e2, e3][1..] == [e2, e3];
    assert [e2, e3][1..] == [e3];
    assert [e3][1..] == [];
    assert VolumeNames([e3]) == [v3];
    assert VolumeNames([e2, e3]) == [v2, v3];
  }

  lemma DotSlashEntryVolume(volume: string, names: seq<string>)
    ensures EntryVolumeName(DotSlashEntry(volume, names)) == Some(volume)
  {
    var rest := seq(|names|, i requires 0 <= i < |names| => Normal(Text(names[i])));
    assert WellFormed([CurDir, Normal(Text(volume))] + rest);
    DotSlashEntryName(volume, rest);
  }

  /** The archive `./vol-a/f1`, `./vol-a/sub/f2`, `./vol-b/f3` yields `vol-a` then `vol-b`. */
  lemma TwoVolumeExample()
    ensures Dedup(VolumeNames([
      DotSlashEntry("vol-a", ["f1"]),
      DotSlashEntry("vol-a", ["sub", "f2"]),
      DotSlashEntry("vol-b", ["f3"])])) == ["vol-a", "vol-b"]
  {
    DotSlashEntryVolume("vol-a", ["f1"]);
    DotSlashEntryVolume("vol-a", ["sub", "f2"]);
    DotSlashEntryVolume("vol-b", ["f3"]);
    DotSlashEntryNames(DotSlashEntry("vol-a", ["f1"]), DotSlashEntry("vol-a", ["sub", "f2"]),
      DotSlashEntry("vol-b", ["f3"]), "vol-a", "vol-a", "vol-b");
    var names := ["vol-a", "vol-a", "vol-b"];
    assert names[..2] == ["vol-a", "vol-a"];
    assert names[..2][..1] == ["vol-a"];
  }

  /** Entries of two volumes that interleave give a repeated name: only adjacent repeats collapse. */
  lemma InterleavedVolumesRepeat()
    ensures Dedup(VolumeNames([
      DotSlashEntry("a", ["f"]),
      DotSlashEntry("b", ["g"]),
      DotSlashEntry("a", ["h"])])) == ["a", "b", "a"]
  {
    DotSlashEntryVolume("a", ["f"]);
    DotSlashEntryVolume("b", ["g"]);
    DotSlashEntryVolume("a", ["h"]);
    DotSlashEntryNames(DotSlashEntry("a", ["f"]), DotSlashEntry("b", ["g"]),
      DotSlashEntry("a", ["h"]), "a", "b", "a");
    DedupOfDuplicateFree(["a", "b", "a"]);
  }

  /** A path made of names only, as the files below a volume directory are. */
  ghost predicate InsideVolume(f: Path) {
    forall j :: 0 <= j < |f| ==> f[j].Normal?
  }

  /** The entries `tar -C /input .` writes for one mounted volume `v`: `./v/`, then `./v/<f>` for each file. */
  function VolumeEntries(volume: string, files: seq<Path>): seq<Path> {
    [[CurDir, Normal(Text(volume))]]
      + seq(|files|, i requires 0 <= i < |files| => [CurDir, Normal(Text(volume))] + files[i])
  }

  /** The entries of a backup archive: `./`, then each volume's entries in turn, in directory order. */
  function BackupArchive(volumes: seq<string>, files: seq<seq<Path>>): seq<Path>
    requires |files| == |volumes|
  {
    [[CurDir]] + VolumesEntries(volumes, files)
  }

  function VolumesEntries(volumes: seq<string>, files: seq<seq<Path>>): seq<Path>
    requires |files| == |volumes|
  {
    if volumes == [] then []
    else VolumeEntries(volumes[0], files[0]) + VolumesEntries(volumes[1..], files[1..])
  }

  lemma {:induction false} VolumeEntriesNames(volume: string, files: seq<Path>)
    requires forall f :: f in files ==> InsideVolume(f)
    ensures VolumeNames(VolumeEntries(volume, files)) == seq(|files| + 1, _ => volume)
    decreases |files|
  {
    var dir := [CurDir, Normal(Text(volume))];
    DotSlashEntryName(volume, []);
    assert dir + [] == dir;
    if files == [] {
      assert VolumeEntries(volume, files) == [dir];
    } else {
      var last := files[|files| - 1];
      var init := files[..|files| - 1];
      assert InsideVolume(last);
      DotSlashEntryName(volume, last);
      VolumeEntriesNames(volume, init);
      assert VolumeEntries(volume, files) == VolumeEntries(volume, init) + [dir + last];
      VolumeNamesAppend(VolumeEntries(volume, init), [dir + last]);
      assert VolumeNames([dir + last]) == [volume];
    }
  }

  lemma {:induction false} VolumesEntriesNames(volumes: seq<string>, files: seq<seq<Path>>)
    requires |files| == |volumes|
    requires forall i, f :: 0 <= i < |files| && f in files[i] ==> InsideVolume(f)
    requires NoAdjacentDuplicates(volumes)
    ensures Dedup(VolumeNames(VolumesEntries(volumes, files))) == volumes
    ensures volumes != [] ==>
              VolumeNames(VolumesEntries(volumes, files)) != [] &&
              VolumeNames(VolumesEntries(volumes, files))[0] == volumes[0]
    decreases |volumes|
  {
    if volumes != [] {
      var head := VolumeEntries(volumes[0], files[0]);
      var tail := VolumesEntries(volumes[1..], files[1..]);
      assert VolumesEntries(volumes, files) == head + tail;
      VolumeNamesAppend(head, tail);
      var run := seq(|files[0]| + 1, _ => volumes[0]);
      HeadVolumeNames(volumes, files);
      assert VolumeNames(head) == run;
      assert NoAdjacentDuplicates(volumes[1..]);
      VolumesEntriesNames(volumes[1..], files[1..]);
      DedupOfRun(volumes[0], |files[0]| + 1);
      if |volumes| == 1 {
        assert VolumeNames(tail) == [];
        assert run + [] == run;
      } else {
        assert volumes[0] != volumes[1];
        DedupAppend(run, VolumeNames(tail));
        assert volumes == [volumes[0]] + volumes[1..];
      }
    }
  }

  lemma HeadVolumeNames(volumes: seq<string>, files: seq<seq<Path>>)
    requires |files| == |volumes| > 0
    requires forall i, f :: 0 <= i < |files| && f in files[i] ==> InsideVolume(f)
    ensures VolumeNames(VolumeEntries(volumes[0], files[0])) == seq(|files[0]| + 1, _ => volumes[0])
  {
    assert forall f :: f in files[0] ==> InsideVolume(f);
    VolumeEntriesNames(volumes[0], files[0]);
  }

  /**
    Reading back a backup archive gives the names of its volume directories
    in the order the archive lists them, provided no two neighbours share a
    name (they are distinct directories of one mount point).
  */
  lemma BackupArchiveNames(volumes: seq<string>, files: seq<seq<Path>>)
    requires |files| == |volumes|
    requires forall i, f :: 0 <= i < |files| && f in files[i] ==> InsideVolume(f)
    requires NoAdjacentDuplicates(volumes)
    ensures Dedup(VolumeNames(BackupArchive(volumes, files))) == volumes
  {
    VolumesEntriesNames(volumes, files);
    VolumeNamesAppend([[CurDir]], VolumesEntries(volumes, files));
    assert VolumeNames([[CurDir]]) == [];
  }
}
