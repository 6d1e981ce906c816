# docker-volume-manager, modelled in Dafny

`docker-volume-manager` backs up named container volumes into a single
gzip-compressed tar archive and restores them from it. Backup runs a
throw-away `alpine` container with every volume mounted read-only under
`/input/<volume>` and the target's directory under `/output`, and tars
`/input` into the target. Restore first reads the archive to recover the
volume names from its top-level directories, then runs a container that
mounts each of those volumes read-write under `/output/<volume>` and
extracts the archive there.

This project models the logic between the file system, the archive decoder
and the `docker` process (all in `src/main.rs`):

- `neg_index`, indexing a vector from the end with negative indices
  (`negative_index.dfy`, module `NegativeIndex`);
- the volume-name extraction of `get_tar_top_level_list`: the ancestors of
  each entry path, the name of ancestor `-3`, the `filter_map`, and
  `Vec::dedup` done in place on an array (`paths.dfy`, `dedup.dfy`,
  `archive.dfy`);
- the split of a canonical path into parent directory and file name in
  `resolve_path` (`resolve.dfy`);
- the argument lists given to `docker run` by backup and restore
  (`invocation.dfy`), and the two commands with their error propagation
  (`volume_manager.dfy`).

Paths are modelled as the component lists that Rust's `Path::components`
yields on Unix (`RootDir`, `CurDir`, `ParentDir`, `Normal(name)`), so
repeated and trailing separators and interior `.` are already normalised. A
name that is not valid UTF-8 is the abstract `NotText`. `Path::parent`,
`Path::file_name`, `Path::ancestors` and `Path::to_str` are modelled on these
lists with the standard library's rules: the parent is the path without its
last component, and there is none for the empty path or a root.

In both commands the host directory's mount comes before the per-volume
mounts (`src/main.rs:52-53`, `121-122`). The runtime's exit status is not
inspected: only errors in spawning the runtime or waiting for it propagate, so
a non-zero exit is not an error of the model. The host-directory mounts carry
no access mode, so the runtime's default applies.

## Model

| member | source | states |
|---|---|---|
| NegativeIndex.NegIndex | src/main.rs:79-92 | a result exists exactly for indices in `-len .. len-1`; a non-negative index reads element `index`, a negative `-k` reads element `len-k`; nothing out of bounds is read |
| NegativeIndex.NegIndexAgreesWithForward | src/main.rs:81-90 | index `i - len` and index `i` reach the same element `v[i]` |
| Paths.Parent | src/main.rs:27 | a parent exists exactly for a non-empty path not ending in the root, and it is the path without its last component |
| Paths.FileName | src/main.rs:32 | a file name exists exactly when the last component is a name, and it is that name |
| Paths.Ancestors | src/main.rs:97-98 | the ancestors start with the path itself, each next one is the parent of the one before, and the last has no parent |
| Paths.AncestorsAreTruncations | src/main.rs:97-99 | ancestor `i` of a path is the path without its last `i` components; a relative path has `n+1` ancestors (down to the empty path), an absolute one `n` (down to the root) |
| Paths.ToStr | src/main.rs:29-35 | a path converts to text exactly when none of its names is non-text |
| VecDedup.Dedup | src/main.rs:106 | deduplication never lengthens, and a non-empty vector keeps its last element |
| VecDedup.DedupInPlace | src/main.rs:106 | the in-place scan leaves the deduplicated vector in the array's first `len` cells |
| VecDedup.DedupHasNoAdjacentDuplicates | src/main.rs:106 | no two neighbours of the result are equal |
| VecDedup.DedupKeepsRunStarts | src/main.rs:106 | the result is the subsequence of `s` at the run starts (positions that differ from their left neighbour), all of them, in increasing order |
| VecDedup.DedupSameElements | src/main.rs:106 | an element occurs in the result iff it occurs in the input |
| VecDedup.DedupKeepsFirstAppearances | src/main.rs:106 | the distinct elements keep their order of first appearance |
| VecDedup.DedupFixedPoints | src/main.rs:106 | the input is unchanged iff it has no equal neighbours, so non-adjacent repeats survive |
| VecDedup.DedupOfDuplicateFree | src/main.rs:106 | a vector without equal neighbours is left as it is |
| VecDedup.DedupIdempotent | src/main.rs:106 | deduplicating twice gives the same as once |
| VecDedup.DedupAppend | src/main.rs:106 | two pieces whose meeting elements differ deduplicate independently |
| VecDedup.DedupOfRun | src/main.rs:106 | a run of one repeated name collapses to that name |
| Archive.VolumeNames | src/main.rs:96-104 | the `filter_map` yields at most one name per entry |
| Archive.TopLevelList | src/main.rs:94-108 | the listed names are the deduplicated names of the entries, in archive order |
| Archive.EntryVolumeName | src/main.rs:96-103 | an entry with fewer than three ancestors (such as `.` or `./`) gives no name and no error; otherwise its name is its second component if relative (`v` of `./v/...`), its third if absolute, and nothing when that is not a text name |
| Archive.DotSlashEntryName | src/main.rs:96-103 | a well-formed entry `./v/...` contributes `v` |
| Archive.DotSlashEntryVolume | src/main.rs:96-103 | every entry `./v/<names>` contributes `v`, including the directory entry `./v/` itself |
| Archive.VolumeNamesAppend | src/main.rs:96-104 | the names of two concatenated entry lists are the concatenated names |
| Archive.TwoVolumeExample | src/main.rs:94-107 | `./vol-a/f1`, `./vol-a/sub/f2`, `./vol-b/f3` give `["vol-a", "vol-b"]` |
| Archive.InterleavedVolumesRepeat | src/main.rs:106 | interleaved entries `./a/f`, `./b/g`, `./a/h` give `["a", "b", "a"]`: only adjacent repeats collapse |
| Archive.VolumeEntriesNames | src/main.rs:96-104 | the entries tar writes for one volume all name that volume |
| Archive.BackupArchiveNames | src/main.rs:59-60 | an archive laid out as `tar -C /input .` writes it (`./`, then each volume directory and its files) reads back to its volume directories, in archive order, when neighbouring directories differ |
| Resolve.ResolvePath | src/main.rs:27-38 | the split succeeds iff the path ends in a name and is all text; then the file name is the last name, the parent is the text of the rest, and joining them gives the path's text |
| Resolve.RootHasNoParent | src/main.rs:27-28 | the root (and the empty path) fails with "no parent" |
| Resolve.ResolveCanonical | src/main.rs:27-38 | on a canonical path the split fails with "no parent" iff it is the root, never for a missing file name, and succeeds iff it has a name and all names are text |
| Resolve.ResolveExamples | src/main.rs:27-38 | `/home/user/backup.tar.gz` splits into `/home/user` and `backup.tar.gz`, `/backup.tar.gz` into `/` and `backup.tar.gz` |
| Invocation.VolumeArg | src/main.rs:43 | a mount argument is `--volume=`, the volume, the root, the volume again and the mode, with length `12 + 2 * volume + root + mode` |
| Invocation.VolumeArgs | src/main.rs:43 | one mount argument per volume |
| Invocation.BackupArgs | src/main.rs:43-60 | `run --rm --volume=<parent>:/output`, then `--volume=<v>:/input/<v>:ro` per volume in order, then `alpine tar -czf /output/<file> -C /input .`; length `volumes + 10` |
| Invocation.RestoreArgs | src/main.rs:114-128 | `run --rm --volume=<parent>:/input`, then `--volume=<v>:/output/<v>:rw` per name in order, then `alpine tar -xzf /input/<file> -C /output`; length `names + 9` |
| Invocation.MountedVolume | src/main.rs:43 | a mount argument read back names a volume whose mount argument it is |
| Invocation.MountedVolumeInverse | src/main.rs:43 | reading back a volume's mount argument gives that volume |
| Invocation.VolumeArgsRoundTrip | src/main.rs:43 | the mount arguments read back to the volume list, in order |
| Invocation.BackupMountsExactlyVolumes | src/main.rs:43-60 | a backup invocation mounts under `/input` exactly the given volumes, in order; no other argument is such a mount |
| Invocation.RestoreMountsExactlyVolumes | src/main.rs:114-128 | a restore invocation mounts under `/output` exactly the given names, in order; no other argument is such a mount |
| Invocation.BackupMountOrderExample | src/main.rs:49-53 | with volumes `a`, `b` the output directory is mounted first, then `a`, then `b` |
| VolumeManager.ResolveOrFail | src/main.rs:23-38 | a missing canonical path is a file-system error; a path that cannot be split is a path error with the reason `resolve_path` gives; success exactly for a path ending in a name and all text, passing the split on |
| VolumeManager.Backup | src/main.rs:41-64 | a missing path is a file-system error and a path-resolution failure is returned as is; on success the result is exactly the backup argument list for the resolved parent and file name, so the runtime mounts exactly the given volumes and writes `/output/<file name>` into the target's directory |
| VolumeManager.Restore | src/main.rs:111-132 | an archive read failure comes first, then path-resolution failures; on success the arguments mount exactly the deduplicated entry names |
| VolumeManager.BackupThenRestore | src/main.rs:41-132 | restoring an archive written by backup mounts the archive's volume directories, in archive order |
| VolumeManager.SingleVolumeRoundTrip | src/main.rs:94-108 | backing up `vol1` and reading the archive back gives `["vol1"]` |

## Left out

- Creating the placeholder target file and canonicalising the path (`src/main.rs:19-25`): file-system effects. The canonical path is an input, and `None` stands for a failure of either step.
- Opening, decompressing and decoding the archive (`get_tar_directory_tree`, `src/main.rs:66-73`): a foreign library. Its entry list is an input. `None` stands for a failure. The panic of the `unwrap` at line 71 is not told apart from a decoding error.
- Spawning `docker` and waiting for it (`src/main.rs:49-62`, `118-130`): an external process. The model returns the argument list it would be given. Its exit status is not inspected by the code, so it is not modelled.
- `os_str_to_str` and the texts of the error messages (`src/main.rs:10-15`, `24`, `28-35`): errors are modelled by their kind only.
- Command-line parsing and `main` (`src/main.rs:134-158`).
- Path strings are modelled by their component lists, so the exact bytes of a path written with redundant separators or interior `.` are not.
- VecDedup.DedupInPlace: the vector's truncation is modelled by the new length the method returns; the cells beyond it keep stale values.
- Archive.BackupArchiveNames: the order in which tar lists the volume directories is the directory order of `/input`, which the runtime decides; the lemma takes that order as given rather than tying it to the order of the backup's volume arguments.
- NegativeIndex.NegIndex: the index arithmetic is exact on `int`; for vectors of zero-sized elements, whose length can exceed `isize::MAX`, the source's `len() as isize` could wrap, which is not modelled (the source applies it only to a vector of paths).
