/**
  Paths as the Rust standard library sees them on Unix: the list of
  components that `Path::components` yields (repeated separators, interior
  `.` and trailing separators are already normalised away). Path strings are
  rendered from the components by joining them, as `PathBuf::push` does.
*/
module Paths {
  import opened Wrappers

  /** A component name as the OS holds it; `NotText` stands for one that is not valid UTF-8. */
  datatype OsName = Text(text: string) | NotText

  datatype Component = RootDir | CurDir | ParentDir | Normal(name: OsName)

  type Path = seq<Component>

  /** What `components` can yield: the root and `.` may only come first. */
  predicate WellFormed(p: Path) {
    forall i :: 0 < i < |p| ==> p[i].Normal? || p[i].ParentDir?
  }

  predicate IsAbsolute(p: Path) {
    |p| > 0 && p[0].RootDir?
  }

  /** `Path::parent`: the path without its last component; none for the empty path or a root. */
  function Parent(p: Path): (r: Option<Path>)
    ensures r.Some? <==> p != [] && !p[|p| - 1].RootDir?
    ensures r.Some? ==> r.value + [p[|p| - 1]] == p
  {
    if p == [] || p[|p| - 1].RootDir? then None else Some(p[..|p| - 1])
  }

  /** `Path::file_name`: the last component when it is a normal name. */
  function FileName(p: Path): (r: Option<OsName>)
    ensures r.Some? <==> p != [] && p[|p| - 1].Normal?
    ensures r.Some? ==> p[|p| - 1] == Normal(r.value)
  {
    if p != [] && p[|p| - 1].Normal? then Some(p[|p| - 1].name) else None
  }

  /** `OsStr::to_str`. */
  function NameToStr(n: OsName): Option<string> {
    match n
    case Text(s) => Some(s)
    case NotText => None
  }

  function ComponentToStr(c: Component): Option<string> {
    match c
    case RootDir => Some("/")
    case CurDir => Some(".")
    case ParentDir => Some("..")
    case Normal(n) => NameToStr(n)
  }

  /** Appends a component's text to a path string, with a separator unless the string is empty or ends in one. */
  function Join(base: string, name: string): string {
    if base == [] || base[|base| - 1] == '/' then base + name else base + "/" + name
  }

  /** `Path::to_str`: the path's text, or none when one of its names is not text. */
  function ToStr(p: Path): (r: Option<string>)
    ensures r.Some? <==> forall i :: 0 <= i < |p| ==> p[i] != Normal(NotText)
    decreases |p|
  {
    if p == [] then Some("")
    else
      match (ToStr(p[..|p| - 1]), ComponentToStr(p[|p| - 1]))
      case (Some(prefix), Some(last)) => Some(Join(prefix, last))
      case _ => None
  }

  /** `Path::ancestors`: the path itself, then its parent, its parent's parent, and so on while one exists. */
  function Ancestors(p: Path): (r: seq<Path>)
    ensures r != [] && r[0] == p
    ensures forall i, j :: 0 <= i && j == i + 1 && j < |r| ==> Parent(r[i]) == Some(r[j])
    ensures Parent(r[|r| - 1]) == None
    decreases |p|
  {
    match Parent(p)
    case None => [p]
    case Some(q) => [p] + Ancestors(q)
  }

  /**
    The ancestors of a path are its truncations, leaf first: ancestor `i` is
    the path without its last `i` components. A relative path ends with the
    empty path, an absolute one with the root.
  */
  lemma {:induction false} AncestorsAreTruncations(p: Path)
    ensures WellFormed(p) ==> |Ancestors(p)| == if IsAbsolute(p) then |p| else |p| + 1
    ensures WellFormed(p) ==> forall i :: 0 <= i < |Ancestors(p)| ==> Ancestors(p)[i] == p[..|p| - i]
  {
    if !WellFormed(p) {
      return;
    }
    match Parent(p)
    case None =>
      assert p == [] || p == [RootDir];
    case Some(q) =>
      assert q == p[..|p| - 1];
      assert WellFormed(q);
      AncestorsAreTruncations(q);
      assert |q| > 0 ==> IsAbsolute(q) == IsAbsolute(p);
      forall i | 1 <= i < |Ancestors(p)|
        ensures Ancestors(p)[i] == p[..|p| - i]
      {
        assert Ancestors(p)[i] == Ancestors(q)[i - 1];
      }
  }
}
