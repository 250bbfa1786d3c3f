/** The working directory's file system as an abstract map from component paths to
    nodes, and the operations src/main.rs performs on it, with the errors POSIX reports
    for them. The working directory itself is the empty path and always a directory. */
module FileSystem {
  import opened Wrappers
  import opened Paths

  type Path = seq<string>

  datatype Node = DirNode | FileNode(data: string)

  type Fs = map<Path, Node>

  /** The `std::io::ErrorKind`s the build can meet. */
  datatype ErrorKind = NotFound | AlreadyExists | IsADirectory | NotADirectory | PermissionDenied | Other

  datatype FsResult = Done(fs: Fs) | Fail(kind: ErrorKind)

  predicate IsDirIn(fs: Fs, p: Path)
  {
    p == [] || (p in fs && fs[p] == DirNode)
  }

  /** The error raised when the parent of `p` cannot hold a new entry, if any. */
  function ParentError(fs: Fs, p: Path): Option<ErrorKind>
    requires p != []
  {
    var q := p[..|p| - 1];
    if q == [] || (q in fs && fs[q] == DirNode) then None
    else if q in fs then Some(NotADirectory)
    else Some(NotFound)
  }

  /** `std::fs::create_dir`: a new, empty directory. */
  function CreateDir(fs: Fs, p: Path): (r: FsResult)
    ensures r.Done? <==> p != [] && p !in fs && IsDirIn(fs, p[..|p| - 1])
    ensures r.Done? ==> r.fs == fs[p := DirNode]
    ensures (p == [] || p in fs) ==> r == Fail(AlreadyExists)
  {
    if p == [] || p in fs then Fail(AlreadyExists)
    else match ParentError(fs, p)
      case Some(k) => Fail(k)
      case None => Done(fs[p := DirNode])
  }

  /** `File::create` followed by `write_all`: the file at `p` is created or truncated and
      then holds `data`. A directory cannot be opened for writing. */
  function WriteFile(fs: Fs, p: Path, data: string): (r: FsResult)
    ensures r.Done? <==> p != [] && !IsDirIn(fs, p) && IsDirIn(fs, p[..|p| - 1])
    ensures r.Done? ==> r.fs == fs[p := FileNode(data)]
    ensures IsDirIn(fs, p) ==> r == Fail(IsADirectory)
  {
    if IsDirIn(fs, p) then Fail(IsADirectory)
    else match ParentError(fs, p)
      case Some(k) => Fail(k)
      case None => Done(fs[p := FileNode(data)])
  }

  /** `std::fs::remove_file`. */
  function RemoveFile(fs: Fs, p: Path): (r: FsResult)
    ensures r.Done? <==> p in fs && fs[p].FileNode?
    ensures r.Done? ==> r.fs == fs - {p}
  {
    if p !in fs then Fail(NotFound)
    else if fs[p] == DirNode then Fail(IsADirectory)
    else Done(fs - {p})
  }

  /** The path lies in the build directory (or is the build directory). */
  predicate UnderBuild(p: Path)
  {
    |p| > 0 && p[0] == BuildDir
  }

  /** The file system after a successful `remove_dir_all("build")`: everything in the
      build directory is gone and nothing else changed. */
  function WithoutBuild(fs: Fs): (r: Fs)
    ensures forall p :: p in r <==> p in fs && !UnderBuild(p)
    ensures forall p :: p in r ==> r[p] == fs[p]
  {
    map p | p in fs && !UnderBuild(p) :: fs[p]
  }

  /** Changing a path inside the build directory is invisible outside it. */
  lemma UpdateUnderBuild(fs: Fs, p: Path, n: Node)
    requires UnderBuild(p)
    ensures WithoutBuild(fs[p := n]) == WithoutBuild(fs)
  {
  }

  lemma RemoveUnderBuild(fs: Fs, p: Path)
    requires UnderBuild(p)
    ensures WithoutBuild(fs - {p}) == WithoutBuild(fs)
  {
  }

  /** Removing the build directory a second time removes nothing more. */
  lemma WithoutBuildIdempotent(fs: Fs)
    ensures WithoutBuild(WithoutBuild(fs)) == WithoutBuild(fs)
  {
  }
}
