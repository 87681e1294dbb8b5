/** Vocabulary shared by every part of the model: optional values, the
    crate-wide `Result` and error type (src/error.rs), and file-system paths
    seen as sequences of components (std::path::Path). */
module Base {
  import opened Text

  datatype Option<+T> = None | Some(value: T)
  {
    function UnwrapOr(default: T): T
    {
      if Some? then value else default
    }
  }

  /** crate::error::Result: a fallible operation yields a value or a SizelintError. */
  datatype Result<+T> = Ok(value: T) | Err(error: SizelintError)

  /** The error categories the modelled code can raise (src/error.rs and the
      git error type it wraps). */
  datatype SizelintError =
    | RepoNotFound(path: Path)
    | GitCommandFailed(command: string, code: int, stderr: string)
    | FileSystem(operation: string, path: Path)
    | InvalidSizeFormat(input: string, reason: string)

  /** A path is the sequence of its components; an absolute path starts with
      the root component "/". */
  type Path = seq<string>

  const RootComponent: string := "/"

  /** The components of a relative path text: the pieces between '/'
      separators, with the empty pieces of doubled or trailing separators
      dropped, as `Path::components` does; `.` pieces are kept. */
  function SplitPath(s: string): (p: Path)
    ensures forall i | 0 <= i < |p| :: p[i] != [] && '/' !in p[i]
  {
    NonEmpty(SplitOn(s, '/'))
  }

  function NonEmpty(pieces: seq<string>): (r: seq<string>)
    requires forall i | 0 <= i < |pieces| :: '/' !in pieces[i]
    ensures forall i | 0 <= i < |r| :: r[i] != [] && '/' !in r[i]
    ensures forall x :: x in r <==> x in pieces && x != []
  {
    if pieces == [] then []
    else if pieces[0] == [] then NonEmpty(pieces[1..])
    else [pieces[0]] + NonEmpty(pieces[1..])
  }

  /** `root.join(rel)` for a relative `rel`. */
  function Join(root: Path, rel: string): (p: Path)
    ensures |root| <= |p| && p[..|root|] == root
  {
    root + SplitPath(rel)
  }

  /** `Path::display`: components separated by '/', the root printed once. */
  function Display(p: Path): string
  {
    if |p| > 0 && p[0] == RootComponent then RootComponent + JoinWith(p[1..], "/")
    else JoinWith(p, "/")
  }

  /** `Path::strip_prefix`: defined only when `base` is a leading run of
      whole components of `p`. */
  function StripPrefix(p: Path, base: Path): (r: Option<Path>)
    ensures r.Some? <==> |base| <= |p| && p[..|base|] == base
    ensures r.Some? ==> base + r.value == p
  {
    if |base| <= |p| && p[..|base|] == base then Some(p[|base|..]) else None
  }

  /** `PathBuf::pop`: drops the last component; fails on an empty path and
      on the bare root. */
  function Pop(p: Path): (r: Option<Path>)
    ensures r.None? <==> p == [] || p == [RootComponent]
    ensures r.Some? ==> r.value == p[..|p| - 1]
  {
    if p == [] || p == [RootComponent] then None else Some(p[..|p| - 1])
  }

  predicate HasComponent(p: Path, name: string)
  {
    name in p
  }
}
