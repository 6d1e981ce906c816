/**
  The split of a canonical path into its parent directory and file name
  (`resolve_path`). Creating the placeholder file and canonicalising the path
  happen before and are not part of this module: the canonical path is its input.
*/
module Resolve {
  import opened Wrappers
  import opened Paths

  /** The four ways the split fails, checked in this order. */
  datatype ResolveError = NoParent | ParentNotText | NoFileName | FileNameNotText

  /**
    The split succeeds exactly when the path ends in a name and all of it is
    text; then the file name is that last name, the parent is the text of the
    path without it, and joining the two gives back the path's own text.
  */
  function ResolvePath(canonical: Path): (r: Result<(string, string), ResolveError>)
    ensures r.Success? <==> canonical != [] && canonical[|canonical| - 1].Normal? && ToStr(canonical).Some?
    ensures r.Success? ==>
              var (parent, fileName) := r.value;
              && canonical[|canonical| - 1] == Normal(Text(fileName))
              && ToStr(canonical[..|canonical| - 1]) == Some(parent)
              && ToStr(canonical) == Some(Join(parent, fileName))
  {
    match Parent(canonical)
    case None => Failure(NoParent)
    case Some(parent) =>
      match ToStr(parent)
      case None => Failure(ParentNotText)
      case Some(parentText) =>
        match FileName(canonical)
        case None => Failure(NoFileName)
        case Some(name) =>
          match NameToStr(name)
          case None => Failure(FileNameNotText)
          case Some(fileName) => Success((parentText, fileName))
  }

  /** A canonical path as canonicalisation returns it on Unix: the root followed by names. */
  ghost predicate Canonical(p: Path) {
    |p| > 0 && p[0] == RootDir && forall i :: 0 < i < |p| ==> p[i].Normal?
  }

  /** The root of the file system has no parent, and neither has the empty path. */
  lemma RootHasNoParent()
    ensures ResolvePath([RootDir]) == Failure(NoParent)
    ensures ResolvePath([]) == Failure(NoParent)
  {
  }

  /**
    On a canonical path the only failures are the root, which has no parent,
    and names that are not text; it never lacks a file name.
  */
  lemma ResolveCanonical(p: Path)
    requires Canonical(p)
    ensures ResolvePath(p) == Failure(NoParent) <==> p == [RootDir]
    ensures ResolvePath(p) != Failure(NoFileName)
    ensures ResolvePath(p).Success? <==> |p| > 1 && forall i :: 0 < i < |p| ==> p[i].name.Text?
  {
    if |p| > 1 {
      assert p[..|p| - 1][0] == RootDir;
    }
  }

  /** `/home/user/backup.tar.gz` splits into `/home/user` and `backup.tar.gz`; `/backup.tar.gz` into `/` and `backup.tar.gz`. */
  lemma ResolveExamples()
    ensures ResolvePath([RootDir, Normal(Text("home")), Normal(Text("user")), Normal(Text("backup.tar.gz"))])
            == Success(("/home/user", "backup.tar.gz"))
    ensures ResolvePath([RootDir, Normal(Text("backup.tar.gz"))]) == Success(("/", "backup.tar.gz"))
  {
    var p := [RootDir, Normal(Text("home")), Normal(Text("user")), Normal(Text("backup.tar.gz"))];
    assert p[..3] == [RootDir, Normal(Text("home")), Normal(Text("user"))];
    assert p[..3][..2] == [RootDir, Normal(Text("home"))];
    assert p[..3][..2][..1] == [RootDir];
    assert [RootDir][..0] == [];
    assert Join("", "/") == "/";
    assert ToStr([RootDir]) == Some("/");
    assert Join("/", "home") == "/home";
    assert ToStr([RootDir, Normal(Text("home"))]) == Some("/home");
    assert Join("/home", "user") == "/home/user";
    var q := [RootDir, Normal(Text("backup.tar.gz"))];
    assert q[..1] == [RootDir];
  }
}
