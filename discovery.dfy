/** Finding the files to check (src/discovery.rs). The directory walker, the
    gitignore rules it honours and the exclude glob set are outside the
    model: a walk is given as the sequence of entries the walker yields, and
    the exclude patterns as a predicate on paths. */
module Discovery {
  import opened Base
  import opened Git

  /** One entry yielded by the directory walker. */
  datatype WalkEntry =
    | FileEntry(path: Path)
    | OtherEntry(path: Path)   // a directory, a link or anything else that is not a regular file
    | WalkFailure              // an error reported by the walker

  /** `FileDiscovery`: the root it was created for, the root of the git
      repository found there (None outside a repository) and the exclude
      patterns. */
  datatype FileDiscovery = FileDiscovery(root: Path, gitRepo: Option<Path>, excluded: Path -> bool)

  const GitDirName: string := ".git"

  /** Whether a walked file is reported: it is not inside a `.git`
      directory and not excluded. */
  predicate Reported(p: Path, excluded: Path -> bool)
  {
    !HasComponent(p, GitDirName) && !excluded(p)
  }

  /** The files a walk reports, in the walker's order; a walker error ends
      the walk. */
  function Walked(entries: seq<WalkEntry>, excluded: Path -> bool): (r: seq<Path>)
    ensures |r| <= |entries|
    ensures forall i | 0 <= i < |r| :: Reported(r[i], excluded)
  {
    if entries == [] then []
    else
      match entries[0]
      case WalkFailure => []
      case OtherEntry(_) => Walked(entries[1..], excluded)
      case FileEntry(p) => (if Reported(p, excluded) then [p] else []) + Walked(entries[1..], excluded)
  }

  /** Whether the walk yields `p` as a regular file before any error. */
  predicate FileBeforeFailure(entries: seq<WalkEntry>, p: Path)
  {
    exists k | 0 <= k < |entries| :: entries[k] == FileEntry(p) && forall j | 0 <= j < k :: entries[j] != WalkFailure
  }

  /** A walk reports only regular files it met, never one inside a `.git`
      directory and never an excluded one; it reports every such file met
      before the first walker error. */
  lemma {:induction false} WalkedExactly(entries: seq<WalkEntry>, excluded: Path -> bool, p: Path)
    ensures p in Walked(entries, excluded) <==> FileBeforeFailure(entries, p) && Reported(p, excluded)
  {
    if entries != [] {
      var rest := entries[1..];
      WalkedExactly(rest, excluded, p);
      if entries[0] != WalkFailure && entries[0] != FileEntry(p) {
        if FileBeforeFailure(rest, p) {
          var k :| 0 <= k < |rest| && rest[k] == FileEntry(p) && forall j | 0 <= j < k :: rest[j] != WalkFailure;
          assert entries[k + 1] == FileEntry(p);
        }
        if FileBeforeFailure(entries, p) {
          var k :| 0 <= k < |entries| && entries[k] == FileEntry(p) && forall j | 0 <= j < k :: entries[j] != WalkFailure;
          assert rest[k - 1] == FileEntry(p);
        }
      }
    }
  }

  /** Nothing inside a `.git` directory is ever reported. */
  lemma GitDirectoryNeverReported(entries: seq<WalkEntry>, excluded: Path -> bool, p: Path)
    requires HasComponent(p, GitDirName)
    ensures p !in Walked(entries, excluded)
  {
    WalkedExactly(entries, excluded, p);
  }

  /** `walk_parallel`, one entry at a time. */
  method WalkParallel(entries: seq<WalkEntry>, excluded: Path -> bool) returns (files: seq<Path>)
    ensures files == Walked(entries, excluded)
  {
    files := [];
    var i := 0;
    while i < |entries|
      invariant 0 <= i <= |entries|
      invariant files + Walked(entries[i..], excluded) == Walked(entries, excluded)
    {
      assert entries[i..][1..] == entries[i + 1..];
      match entries[i] {
        case WalkFailure =>
          assert files == Walked(entries, excluded);
          return;
        case OtherEntry(_) =>
        case FileEntry(p) =>
          if !HasComponent(p, GitDirName) {
            if !excluded(p) {
              files := files + [p];
            }
          }
      }
      i := i + 1;
    }
  }

  /** `filter_files`: the paths that are not excluded, in order. */
  function FilterFiles(d: FileDiscovery, files: seq<Path>): (r: seq<Path>)
    ensures |r| <= |files|
    ensures forall i | 0 <= i < |r| :: !d.excluded(r[i])
  {
    if files == [] then []
    else (if d.excluded(files[0]) then [] else [files[0]]) + FilterFiles(d, files[1..])
  }

  /** The filter keeps exactly the paths that are not excluded. */
  lemma {:induction false} FilterFilesMembers(d: FileDiscovery, files: seq<Path>, p: Path)
    ensures p in FilterFiles(d, files) <==> p in files && !d.excluded(p)
  {
    if files != [] {
      FilterFilesMembers(d, files[1..], p);
      assert files == [files[0]] + files[1..];
    }
  }

  /** Filtering keeps order: the filter of two lists joined is the two
      filters joined. */
  lemma {:induction false} FilterFilesAppend(d: FileDiscovery, a: seq<Path>, b: seq<Path>)
    ensures FilterFiles(d, a + b) == FilterFiles(d, a) + FilterFiles(d, b)
  {
    if a == [] {
      assert a + b == b;
    } else {
      assert (a + b)[1..] == a[1..] + b;
      FilterFilesAppend(d, a[1..], b);
    }
  }

  /** Without a matching exclude pattern every file is kept, in order. */
  lemma {:induction false} FilterFilesKeepsAll(d: FileDiscovery, files: seq<Path>)
    requires forall i | 0 <= i < |files| :: !d.excluded(files[i])
    ensures FilterFiles(d, files) == files
  {
    if files != [] {
      FilterFilesKeepsAll(d, files[1..]);
    }
  }

  /** The error for a query that needs a repository where there is none. */
  function NoRepo(d: FileDiscovery): (e: SizelintError)
    ensures e.RepoNotFound? && e.path == d.root
  {
    RepoNotFound(d.root)
  }

  /** `discover_staged_files`. */
  function DiscoverStagedFiles(d: FileDiscovery, output: CommandOutput): (r: Result<seq<Path>>)
    ensures d.gitRepo.None? ==> r == Err(NoRepo(d))
    ensures d.gitRepo.Some? && !output.success ==> r == Err(CommandFailed(StagedCommand, output))
    ensures d.gitRepo.Some? && output.success ==>
              r == Ok(FilterFiles(d, NameOnlyFiles(d.gitRepo.value, output.stdout)))
  {
    match d.gitRepo
    case None => Err(NoRepo(d))
    case Some(repo) =>
      match GetStagedFiles(repo, output)
      case Err(e) => Err(e)
      case Ok(files) => Ok(FilterFiles(d, files))
  }

  /** `discover_working_tree_files`. */
  function DiscoverWorkingTreeFiles(d: FileDiscovery, output: CommandOutput): (r: Result<seq<Path>>)
    ensures d.gitRepo.None? ==> r == Err(NoRepo(d))
    ensures d.gitRepo.Some? && !output.success ==> r == Err(CommandFailed(WorkingTreeCommand, output))
    ensures d.gitRepo.Some? && output.success ==>
              r == Ok(FilterFiles(d, NameOnlyFiles(d.gitRepo.value, output.stdout)))
  {
    match d.gitRepo
    case None => Err(NoRepo(d))
    case Some(repo) =>
      match GetWorkingTreeFiles(repo, output)
      case Err(e) => Err(e)
      case Ok(files) => Ok(FilterFiles(d, files))
  }

  /** `discover_git_diff_files`; the repository's list of changed files
      (`get_diff_files`) is given. */
  function DiscoverGitDiffFiles(d: FileDiscovery, diffFiles: Result<seq<Path>>): (r: Result<seq<Path>>)
    ensures d.gitRepo.None? ==> r == Err(NoRepo(d))
    ensures d.gitRepo.Some? && diffFiles.Err? ==> r == diffFiles
    ensures d.gitRepo.Some? && diffFiles.Ok? ==> r == Ok(FilterFiles(d, diffFiles.value))
  {
    match d.gitRepo
    case None => Err(NoRepo(d))
    case Some(_) =>
      match diffFiles
      case Err(e) => Err(e)
      case Ok(files) => Ok(FilterFiles(d, files))
  }

  /** The history blobs whose path is not excluded, in order. */
  function FilterBlobs(d: FileDiscovery, blobs: seq<HistoryBlob>): (r: seq<HistoryBlob>)
    ensures |r| <= |blobs|
    ensures forall i | 0 <= i < |r| :: !d.excluded(r[i].path)
  {
    if blobs == [] then []
    else (if d.excluded(blobs[0].path) then [] else [blobs[0]]) + FilterBlobs(d, blobs[1..])
  }

  /** The blob filter keeps exactly the blobs whose path is not excluded. */
  lemma {:induction false} FilterBlobsMembers(d: FileDiscovery, blobs: seq<HistoryBlob>, b: HistoryBlob)
    ensures b in FilterBlobs(d, blobs) <==> b in blobs && !d.excluded(b.path)
  {
    if blobs != [] {
      FilterBlobsMembers(d, blobs[1..], b);
      assert blobs == [blobs[0]] + blobs[1..];
    }
  }

  /** Dropping the excluded blobs keeps order. */
  lemma {:induction false} FilterBlobsAppend(d: FileDiscovery, a: seq<HistoryBlob>, b: seq<HistoryBlob>)
    ensures FilterBlobs(d, a + b) == FilterBlobs(d, a) + FilterBlobs(d, b)
  {
    if a == [] {
      assert a + b == b;
    } else {
      assert (a + b)[1..] == a[1..] + b;
      FilterBlobsAppend(d, a[1..], b);
    }
  }

  /** `discover_history_blobs`; the blobs the history walk finds
      (`walk_history_blobs`) are given. */
  function DiscoverHistoryBlobs(d: FileDiscovery, walked: Result<seq<HistoryBlob>>): (r: Result<seq<HistoryBlob>>)
    ensures d.gitRepo.None? ==> r == Err(NoRepo(d))
    ensures d.gitRepo.Some? && walked.Err? ==> r == Err(walked.error)
    ensures d.gitRepo.Some? && walked.Ok? ==> r == Ok(FilterBlobs(d, walked.value))
  {
    match d.gitRepo
    case None => Err(NoRepo(d))
    case Some(_) =>
      match walked
      case Err(e) => Err(e)
      case Ok(blobs) => Ok(FilterBlobs(d, blobs))
  }

  /** `is_in_git_repo`. */
  predicate IsInGitRepo(d: FileDiscovery)
  {
    d.gitRepo.Some?
  }

  /** The git-backed queries fail with RepoNotFound exactly when the
      discovery is not in a repository. */
  lemma RepoNotFoundExactlyOutsideRepo(d: FileDiscovery, output: CommandOutput, diffFiles: Result<seq<Path>>, walked: Result<seq<HistoryBlob>>)
    requires diffFiles.Err? ==> !diffFiles.error.RepoNotFound?
    requires walked.Err? ==> !walked.error.RepoNotFound?
    ensures DiscoverStagedFiles(d, output) == Err(NoRepo(d)) <==> !IsInGitRepo(d)
    ensures DiscoverWorkingTreeFiles(d, output) == Err(NoRepo(d)) <==> !IsInGitRepo(d)
    ensures DiscoverGitDiffFiles(d, diffFiles) == Err(NoRepo(d)) <==> !IsInGitRepo(d)
    ensures DiscoverHistoryBlobs(d, walked) == Err(NoRepo(d)) <==> !IsInGitRepo(d)
  {
  }

  /** The files one given path contributes: itself if it is a file and
      not excluded, the walk of it if it is a directory, and nothing
      otherwise. */
  function PathFiles(d: FileDiscovery, p: Path, isFile: Path -> bool, isDir: Path -> bool,
                     dirWalk: Path -> seq<WalkEntry>): seq<Path>
  {
    if isFile(p) then (if d.excluded(p) then [] else [p])
    else if isDir(p) then Walked(dirWalk(p), d.excluded)
    else []
  }

  /** What `discover_specific_paths` returns: the files of each given path,
      in the order given. */
  function SpecificFiles(d: FileDiscovery, paths: seq<Path>, isFile: Path -> bool, isDir: Path -> bool,
                         dirWalk: Path -> seq<WalkEntry>): seq<Path>
  {
    if paths == [] then []
    else
      SpecificFiles(d, paths[..|paths| - 1], isFile, isDir, dirWalk)
        + PathFiles(d, paths[|paths| - 1], isFile, isDir, dirWalk)
  }

  /** `discover_specific_paths`. */
  method DiscoverSpecificPaths(d: FileDiscovery, paths: seq<Path>, isFile: Path -> bool, isDir: Path -> bool,
                               dirWalk: Path -> seq<WalkEntry>) returns (r: Result<seq<Path>>)
    ensures r == Ok(SpecificFiles(d, paths, isFile, isDir, dirWalk))
  {
    var files: seq<Path> := [];
    var i := 0;
    while i < |paths|
      invariant 0 <= i <= |paths|
      invariant files == SpecificFiles(d, paths[..i], isFile, isDir, dirWalk)
    {
      var path := paths[i];
      assert paths[..i + 1][..i] == paths[..i];
      if isFile(path) {
        if !d.excluded(path) {
          files := files + [path];
        }
      } else if isDir(path) {
        var dirFiles := WalkParallel(dirWalk(path), d.excluded);
        files := files + dirFiles;
      }
      i := i + 1;
    }
    assert paths[..i] == paths;
    return Ok(files);
  }

  /** The files of a specific-path discovery are the files of its paths,
      each taken alone. */
  lemma {:induction false} SpecificFilesMembers(d: FileDiscovery, paths: seq<Path>, isFile: Path -> bool, isDir: Path -> bool,
                                                dirWalk: Path -> seq<WalkEntry>, f: Path)
    ensures f in SpecificFiles(d, paths, isFile, isDir, dirWalk) <==>
            exists j | 0 <= j < |paths| :: f in PathFiles(d, paths[j], isFile, isDir, dirWalk)
  {
    if paths != [] {
      var n := |paths| - 1;
      var init := paths[..n];
      SpecificFilesMembers(d, init, isFile, isDir, dirWalk, f);
      if f in SpecificFiles(d, init, isFile, isDir, dirWalk) {
        var j :| 0 <= j < |init| && f in PathFiles(d, init[j], isFile, isDir, dirWalk);
        assert init[j] == paths[j];
      }
      if exists j | 0 <= j < |paths| :: f in PathFiles(d, paths[j], isFile, isDir, dirWalk) {
        var j :| 0 <= j < |paths| && f in PathFiles(d, paths[j], isFile, isDir, dirWalk);
        if j < n {
          assert init[j] == paths[j];
        }
      }
    }
  }

  /** A file named explicitly is checked unless an exclude pattern matches
      it; whether git ignores it plays no part. */
  lemma NamedFileKept(d: FileDiscovery, paths: seq<Path>, k: nat, isFile: Path -> bool, isDir: Path -> bool,
                      dirWalk: Path -> seq<WalkEntry>)
    requires k < |paths| && isFile(paths[k]) && !d.excluded(paths[k])
    ensures paths[k] in SpecificFiles(d, paths, isFile, isDir, dirWalk)
  {
    SpecificFilesMembers(d, paths, isFile, isDir, dirWalk, paths[k]);
  }

  /** A path that is neither a file nor a directory contributes nothing. */
  lemma MissingPathDropped(d: FileDiscovery, paths: seq<Path>, p: Path, isFile: Path -> bool, isDir: Path -> bool,
                           dirWalk: Path -> seq<WalkEntry>)
    requires !isFile(p) && !isDir(p)
    ensures SpecificFiles(d, paths + [p], isFile, isDir, dirWalk) == SpecificFiles(d, paths, isFile, isDir, dirWalk)
  {
    assert (paths + [p])[..|paths|] == paths;
  }
}
