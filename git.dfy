/** Reading git's answers (src/git.rs). Spawning git is outside the model:
    each query receives the captured exit status, standard output and
    standard error of the command it would have run. */
module Git {
  import opened Text
  import opened Base

  /** What a finished git process left behind. `code` is None when the
      process was ended by a signal. */
  datatype CommandOutput = CommandOutput(success: bool, code: Option<int>, stdout: string, stderr: string)

  /** One file version met while walking history: its path and size. */
  datatype HistoryBlob = HistoryBlob(path: Path, size: nat)

  const StagedCommand: string := "git diff --staged --name-only --diff-filter=ACMRT"
  const WorkingTreeCommand: string := "git diff --name-only --diff-filter=ACMRT"
  const StatusCommand: string := "git status --porcelain=v1 --untracked-files=no"

  /** The error reported for a git command that exited unsuccessfully: the
      command text, its exit code (-1 without one) and its standard error. */
  function CommandFailed(command: string, output: CommandOutput): (e: SizelintError)
    ensures e.GitCommandFailed? && e.command == command && e.stderr == output.stderr
    ensures e.code == (if output.code.Some? then output.code.value else -1)
  {
    GitCommandFailed(command, output.code.UnwrapOr(-1), output.stderr)
  }

  /** `root.join(line)` for every non-empty line, in order. */
  function JoinNonEmpty(root: Path, lines: seq<string>): (r: seq<Path>)
    ensures |r| <= |lines|
    ensures forall i | 0 <= i < |r| :: |root| <= |r[i]| && r[i][..|root|] == root
  {
    if lines == [] then []
    else (if lines[0] == [] then [] else [Join(root, lines[0])]) + JoinNonEmpty(root, lines[1..])
  }

  /** Joining the lines of a list without empty entries keeps every entry. */
  lemma {:induction false} JoinNonEmptyAll(root: Path, names: seq<string>)
    requires forall i | 0 <= i < |names| :: names[i] != []
    ensures |JoinNonEmpty(root, names)| == |names|
    ensures forall i | 0 <= i < |names| :: JoinNonEmpty(root, names)[i] == Join(root, names[i])
  {
    if names != [] {
      JoinNonEmptyAll(root, names[1..]);
    }
  }

  /** Empty lines contribute nothing. */
  lemma {:induction false} JoinNonEmptySkipsEmpty(root: Path, a: seq<string>, b: seq<string>)
    ensures JoinNonEmpty(root, a + [[]] + b) == JoinNonEmpty(root, a + b)
    decreases |a|
  {
    if a == [] {
      assert a + [[]] + b == [[]] + b && a + b == b;
      assert ([[]] + b)[1..] == b;
    } else {
      assert (a + [[]] + b)[1..] == a[1..] + [[]] + b;
      assert (a + b)[1..] == a[1..] + b;
      JoinNonEmptySkipsEmpty(root, a[1..], b);
    }
  }

  /** The file list a `--name-only` listing describes. */
  function NameOnlyFiles(root: Path, stdout: string): seq<Path>
  {
    JoinNonEmpty(root, Lines(stdout))
  }

  /** `GitRepo::get_staged_files`. */
  function GetStagedFiles(root: Path, output: CommandOutput): (r: Result<seq<Path>>)
    ensures r.Err? <==> !output.success
    ensures r.Err? ==> r.error == CommandFailed(StagedCommand, output)
    ensures r.Ok? ==> r.value == NameOnlyFiles(root, output.stdout)
  {
    if !output.success then Err(CommandFailed(StagedCommand, output))
    else Ok(NameOnlyFiles(root, output.stdout))
  }

  /** `GitRepo::get_working_tree_files`. */
  function GetWorkingTreeFiles(root: Path, output: CommandOutput): (r: Result<seq<Path>>)
    ensures r.Err? <==> !output.success
    ensures r.Err? ==> r.error == CommandFailed(WorkingTreeCommand, output)
    ensures r.Ok? ==> r.value == NameOnlyFiles(root, output.stdout)
  {
    if !output.success then Err(CommandFailed(WorkingTreeCommand, output))
    else Ok(NameOnlyFiles(root, output.stdout))
  }

  /** When git prints one name per line, the listing reads back as exactly
      those names, in order, each joined to the repository root. */
  lemma NameOnlyRoundTrip(root: Path, names: seq<string>)
    requires forall i | 0 <= i < |names| :: PlainLine(names[i]) && names[i] != []
    ensures |NameOnlyFiles(root, JoinLines(names))| == |names|
    ensures forall i | 0 <= i < |names| :: NameOnlyFiles(root, JoinLines(names))[i] == Join(root, names[i])
  {
    LinesOfJoinLines(names);
    JoinNonEmptyAll(root, names);
  }

  /** A porcelain v1 status line long enough to carry an entry: two status
      characters, a separator, then the path. */
  predicate IsEntry(line: string)
  {
    |line| >= 3
  }

  /** The first status column is the index (staged) state. */
  predicate IsStaged(line: string)
    requires IsEntry(line)
  {
    line[0] != ' '
  }

  /** The second status column is the working-tree state. */
  predicate IsModifiedInWorkingTree(line: string)
    requires IsEntry(line)
  {
    line[1] != ' '
  }

  /** The paths of the staged entries among `lines`, in order. */
  function StagedOf(root: Path, lines: seq<string>): (r: seq<Path>)
    ensures |r| <= |lines|
    ensures forall i | 0 <= i < |r| :: |root| <= |r[i]| && r[i][..|root|] == root
  {
    if lines == [] then []
    else
      var line := lines[|lines| - 1];
      StagedOf(root, lines[..|lines| - 1])
        + (if IsEntry(line) && IsStaged(line) then [Join(root, line[3..])] else [])
  }

  /** The paths of the working-tree entries among `lines`, in order. */
  function WorkingTreeOf(root: Path, lines: seq<string>): (r: seq<Path>)
    ensures |r| <= |lines|
    ensures forall i | 0 <= i < |r| :: |root| <= |r[i]| && r[i][..|root|] == root
  {
    if lines == [] then []
    else
      var line := lines[|lines| - 1];
      WorkingTreeOf(root, lines[..|lines| - 1])
        + (if IsEntry(line) && IsModifiedInWorkingTree(line) then [Join(root, line[3..])] else [])
  }

  /** `GitRepo::get_all_files`: one pass over `git status --porcelain`,
      sorting every entry into the staged list, the working-tree list, or
      both. */
  method GetAllFiles(root: Path, output: CommandOutput) returns (r: Result<(seq<Path>, seq<Path>)>)
    ensures r.Err? <==> !output.success
    ensures r.Err? ==> r.error == CommandFailed(StatusCommand, output)
    ensures r.Ok? ==> r.value == (StagedOf(root, Lines(output.stdout)),
                                  WorkingTreeOf(root, Lines(output.stdout)))
  {
    if !output.success {
      return Err(CommandFailed(StatusCommand, output));
    }
    var staged: seq<Path> := [];
    var workingTree: seq<Path> := [];
    var lines := Lines(output.stdout);
    var i := 0;
    while i < |lines|
      invariant 0 <= i <= |lines|
      invariant staged == StagedOf(root, lines[..i])
      invariant workingTree == WorkingTreeOf(root, lines[..i])
    {
      var line := lines[i];
      assert lines[..i + 1][..i] == lines[..i];
      if |line| >= 3 {
        var path := Join(root, line[3..]);
        var status := line[..2];
        if status[0] != ' ' {
          staged := staged + [path];
        }
        if status[1] != ' ' {
          workingTree := workingTree + [path];
        }
      }
      i := i + 1;
    }
    assert lines[..i] == lines;
    return Ok((staged, workingTree));
  }

  /** A line too short to be an entry is ignored by both lists. */
  lemma ShortLineIgnored(root: Path, lines: seq<string>, line: string)
    requires |line| < 3
    ensures StagedOf(root, lines + [line]) == StagedOf(root, lines)
    ensures WorkingTreeOf(root, lines + [line]) == WorkingTreeOf(root, lines)
  {
    assert (lines + [line])[..|lines|] == lines;
  }

  /** An entry `XY path` adds `root/path` to the staged list exactly when X
      is not a space, and to the working-tree list exactly when Y is not a
      space; one entry may land in both. */
  lemma EntryClassified(root: Path, lines: seq<string>, x: char, y: char, name: string)
    ensures var line := [x, y, ' '] + name;
      StagedOf(root, lines + [line])
        == StagedOf(root, lines) + (if x != ' ' then [Join(root, name)] else []) &&
      WorkingTreeOf(root, lines + [line])
        == WorkingTreeOf(root, lines) + (if y != ' ' then [Join(root, name)] else [])
  {
    var line := [x, y, ' '] + name;
    assert (lines + [line])[..|lines|] == lines;
    assert line[3..] == name;
  }

  /** `GitRepo::is_file_tracked`: false for a path outside the repository;
      otherwise whether `git ls-files --error-unmatch` ran and succeeded
      (None when it could not be started). */
  function IsFileTracked(root: Path, path: Path, lsFiles: Option<CommandOutput>): (r: bool)
    ensures r <==> StripPrefix(path, root).Some? && lsFiles.Some? && lsFiles.value.success
  {
    match StripPrefix(path, root)
    case None => false
    case Some(_) => lsFiles.Some? && lsFiles.value.success
  }

  const LfsMarker: string := "filter: lfs"

  /** `GitRepo::is_file_lfs`: false for a path outside the repository;
      otherwise whether `git check-attr filter` ran, succeeded and reported
      the lfs filter. */
  function IsFileLfs(root: Path, path: Path, checkAttr: Option<CommandOutput>): (r: bool)
    ensures r <==> StripPrefix(path, root).Some? && checkAttr.Some? && checkAttr.value.success
                   && Contains(checkAttr.value.stdout, LfsMarker)
  {
    match StripPrefix(path, root)
    case None => false
    case Some(_) =>
      if checkAttr.Some? && checkAttr.value.success then Contains(checkAttr.value.stdout, LfsMarker)
      else false
  }

  /** Only paths under the repository root can be tracked or stored in LFS,
      whatever git answers. */
  lemma OutsideRootNeverTracked(root: Path, path: Path, answer: Option<CommandOutput>)
    requires !(|root| <= |path| && path[..|root|] == root)
    ensures !IsFileTracked(root, path, answer) && !IsFileLfs(root, path, answer)
  {
  }
}
