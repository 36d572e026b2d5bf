/** The self-excluding search for an executable (`findExecutable` and `LookPath`). The file
    system is a map from path to the file's mode as `os.Stat` reports it, the search path is
    given already split into its directory entries, and `filepath.Join` is a parameter. */
module Lookup {
  import opened Wrappers

  /** Go's `os.FileMode`: permission bits in the low bits, file-type bits at the top. */
  type FileMode = bv32

  /** `os.ModeDir`, the top bit of the mode. */
  const ModeDir: FileMode := 0x8000_0000

  /** The execute bits for owner, group and others: octal 0111. */
  const ExecBits: FileMode := 0x49

  /** What `os.Stat` finds: the mode of every path that exists (links already followed). */
  type FileSystem = map<string, FileMode>

  /** Why a path was rejected: the `err` inside Go's `exec.Error{Name, Err}`. */
  datatype Cause = StatFailed | PermissionDenied | NotFoundInPath

  /** `*exec.Error`: the name that was looked up and the cause. */
  datatype LookupError = ExecError(name: string, cause: Cause)

  predicate IsDir(mode: FileMode)
  {
    mode & ModeDir != 0
  }

  /** `findExecutable(file)`: `None` is the nil error. */
  function FindExecutable(fs: FileSystem, file: string): (r: Option<Cause>)
    ensures r.None? <==> file in fs && !IsDir(fs[file]) && fs[file] & ExecBits != 0
    ensures r == Some(StatFailed) <==> file !in fs
    ensures r.Some? ==> r.value != NotFoundInPath
  {
    if file !in fs then Some(StatFailed)
    else if !IsDir(fs[file]) && fs[file] & ExecBits != 0 then None
    else Some(PermissionDenied)
  }

  /** The mask test is the same as "the owner, the group or the others may execute it". */
  lemma ExecutableIffSomeExecuteBit(fs: FileSystem, file: string)
    ensures FindExecutable(fs, file).None? <==>
      file in fs && !IsDir(fs[file])
      && (fs[file] & 0x40 != 0 || fs[file] & 0x08 != 0 || fs[file] & 0x01 != 0)
  {
  }

  /** A directory is never executable, whatever its permission bits; an existing file with no
      execute bit is rejected with a permission error, not as missing. */
  lemma ExistingButNotRunnable(fs: FileSystem, file: string)
    requires file in fs && (IsDir(fs[file]) || fs[file] & ExecBits == 0)
    ensures FindExecutable(fs, file) == Some(PermissionDenied)
  {
  }

  /** The candidate path for one search-path entry: an empty entry means the current directory. */
  function Candidate(dir: string, file: string, join: (string, string) -> string): (c: string)
    ensures dir == [] ==> c == join(".", file)
    ensures dir != [] ==> c == join(dir, file)
  {
    join(if dir == [] then "." else dir, file)
  }

  /** A candidate the search may return: executable and not the path to ignore. */
  predicate Acceptable(fs: FileSystem, ignore: string, path: string)
  {
    FindExecutable(fs, path).None? && path != ignore
  }

  /** `LookPath(file, ignore)` with `PATH` given as its list of entries. A name with a `/` is
      checked on its own; a bare name yields the first candidate in search-path order that is
      executable and is not `ignore`. */
  method LookPath(file: string, ignore: string, pathList: seq<string>, fs: FileSystem,
                  join: (string, string) -> string) returns (r: Result<string, LookupError>)
    ensures '/' in file ==> r == match FindExecutable(fs, file)
                                 case None => Success(file)
                                 case Some(cause) => Failure(ExecError(file, cause))
    ensures '/' !in file ==> (r.Success? <==> exists k :: 0 <= k < |pathList| &&
                                                Acceptable(fs, ignore, Candidate(pathList[k], file, join)))
    ensures '/' !in file && r.Success? ==>
      exists k :: 0 <= k < |pathList| && r.value == Candidate(pathList[k], file, join)
                  && forall j :: 0 <= j < k ==> !Acceptable(fs, ignore, Candidate(pathList[j], file, join))
    ensures '/' !in file && r.Success? ==> Acceptable(fs, ignore, r.value) && r.value != ignore
    ensures '/' !in file && r.Failure? ==> r.error == ExecError(file, NotFoundInPath)
  {
    if '/' in file {
      var err := FindExecutable(fs, file);
      if err.None? {
        return Success(file);
      }
      return Failure(ExecError(file, err.value));
    }
    for k := 0 to |pathList|
      invariant forall j :: 0 <= j < k ==> !Acceptable(fs, ignore, Candidate(pathList[j], file, join))
    {
      var dir := pathList[k];
      if dir == [] {
        dir := ".";
      }
      var path := join(dir, file);
      if FindExecutable(fs, path).None? {
        if path != ignore {
          assert path == Candidate(pathList[k], file, join);
          return Success(path);
        }
      }
    }
    return Failure(ExecError(file, NotFoundInPath));
  }
}
