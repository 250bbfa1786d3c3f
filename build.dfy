/** The behaviour of `generate_html` (src/main.rs:11-104) and of its last step
    `generate_index_html` (src/main.rs:148-167) as functions: one step per walk entry,
    the fold of the steps over the walk, and the index pages written at the end. */
module Build {
  import opened Wrappers
  import opened Text
  import opened Paths
  import opened SourceTree
  import opened FileSystem
  import opened Outline

  /** What one run of the external renderer (`run_asciidoctor`, src/main.rs:169-182)
      yields: its standard output as text, output that is not UTF-8, or a process that
      could not be started (the `expect` there panics). The exit status is not looked at. */
  datatype Rendered = Html(text: string) | NotUtf8 | LaunchFailed

  /** The collaborators the build calls but that are not part of it: the renderer, given
      the path it is invoked on and the content of that file, and the title extractor
      (`extract_html_title_from_file`, src/main.rs:106-123). */
  datatype Env = Env(render: (string, string) -> Rendered, title: string -> Option<string>)

  datatype BuildError =
    | SourceNotFound
    | CleanupFailed(kind: ErrorKind)
    | FsFailed(kind: ErrorKind)
    | RendererOutputNotUtf8
    | NoTitle

  /** How the build ends: `Ok(())`, an `Err` returned to `main`, or a panic. */
  datatype Outcome = Success | Failed(error: BuildError) | Panicked

  /** The loop's mutable state: the file system, `index_adoc` and `html_list`. */
  datatype Acc = Acc(fs: Fs, index: seq<string>, htmlList: seq<string>)

  datatype Progress = Going(acc: Acc) | Halted(outcome: Outcome, fs: Fs)

  datatype BuildResult = BuildResult(outcome: Outcome, fs: Fs)

  const IndexAdocName: string := "build/index.adoc"
  const IndexAdoc: Path := [BuildDir, "index.adoc"]
  const IndexHtml: Path := [BuildDir, "index.html"]

  /** `relative_path.is_dir()`: a directory of the tree, except that the empty relative
      path (the root when the source name trims to nothing) names nothing. */
  predicate IsDirEntry(e: Entry)
  {
    e.kind == DirKind && e.rel != []
  }

  /** A file whose own root-relative path has extension "adoc" (src/main.rs:76). */
  predicate IsDocument(e: Entry)
  {
    !IsDirEntry(e) && Extension(Components(e.rel)) == Some("adoc")
  }

  /** `relative_path.components().count() - 1` on `usize`: None where it underflows. */
  function Level(rel: string): Option<nat>
  {
    var n := |Components(rel)|;
    if n == 0 then None else Some(n - 1)
  }

  /** `relative_path.strip_prefix(source_dir_name).unwrap().display()`: None where the
      unwrap panics. */
  function DirCaption(src: string, rel: string): Option<string>
  {
    match StripPrefix(Components(rel), Components(src))
    case None => None
    case Some(rest) => Some(Join(rest, "/"))
  }

  /** `target_path.strip_prefix("build").unwrap()`: None where the unwrap panics. */
  function Xref(target: Path): Option<string>
  {
    match StripPrefix(target, [BuildDir])
    case None => None
    case Some(rest) => Some(Join(rest, "/"))
  }

  /** One iteration of the walk loop (src/main.rs:43-95) on entry `e`. */
  function Step(src: string, env: Env, acc: Acc, e: Entry): Progress
  {
    var target := MapTarget(src, e.rel);
    if Extension(Mapped(src, e.rel)) == Some("adoc") then
      match Xref(target)
      case None => Halted(Panicked, acc.fs)
      case Some(x) => Visit(src, env, acc.(htmlList := acc.htmlList + [x]), e, target)
    else
      Visit(src, env, acc, e, target)
  }

  /** The three branches of src/main.rs:63-95 for an entry whose build path is `target`. */
  function Visit(src: string, env: Env, acc: Acc, e: Entry, target: Path): Progress
  {
    if IsDirEntry(e) then
      match Level(e.rel)
      case None => Halted(Panicked, acc.fs)
      case Some(n) =>
        match DirCaption(src, e.rel)
        case None => Halted(Panicked, acc.fs)
        case Some(c) =>
          match CreateDir(acc.fs, target)
          case Fail(k) => Halted(Failed(FsFailed(k)), acc.fs)
          case Done(fs') => Going(acc.(fs := fs', index := acc.index + [DirLine(n, c)]))
    else if Extension(Components(e.rel)) == Some("adoc") then
      match env.render(e.rel, e.data)
      case LaunchFailed => Halted(Panicked, acc.fs)
      case NotUtf8 => Halted(Failed(RendererOutputNotUtf8), acc.fs)
      case Html(h) =>
        match WriteFile(acc.fs, target, h)
        case Fail(k) => Halted(Failed(FsFailed(k)), acc.fs)
        case Done(fs') =>
          match env.title(h)
          case None => Halted(Failed(NoTitle), fs')
          case Some(t) =>
            match Level(e.rel)
            case None => Halted(Panicked, fs')
            case Some(n) =>
              match Xref(target)
              case None => Halted(Panicked, fs')
              case Some(x) => Going(acc.(fs := fs', index := acc.index + [DocLine(n, x, t)]))
    else if e.kind == DirKind then
      // copying from the empty relative path: there is no such file
      Halted(Failed(FsFailed(NotFound)), acc.fs)
    else
      match WriteFile(acc.fs, target, e.data)
      case Fail(k) => Halted(Failed(FsFailed(k)), acc.fs)
      case Done(fs') => Going(acc.(fs := fs'))
  }

  /** The walk loop from `acc` over the remaining entries `es`. */
  function Run(src: string, env: Env, acc: Acc, es: seq<Entry>): Progress
    decreases |es|
  {
    if es == [] then Going(acc)
    else
      match Step(src, env, acc, es[0])
      case Halted(o, fs) => Halted(o, fs)
      case Going(next) => Run(src, env, next, es[1..])
  }

  /** `generate_index_html` (src/main.rs:148-167) once index.adoc holds `text`: render
      it, write index.html, remove index.adoc. */
  function IndexPage(env: Env, fs: Fs, text: string): BuildResult
  {
    match env.render(IndexAdocName, text)
    case LaunchFailed => BuildResult(Panicked, fs)
    case NotUtf8 => BuildResult(Failed(RendererOutputNotUtf8), fs)
    case Html(h) =>
      match WriteFile(fs, IndexHtml, h)
      case Fail(k) => BuildResult(Failed(FsFailed(k)), fs)
      case Done(fs2) =>
        match RemoveFile(fs2, IndexAdoc)
        case Fail(k) => BuildResult(Failed(FsFailed(k)), fs2)
        case Done(fs3) => BuildResult(Success, fs3)
  }

  /** The end of the build (src/main.rs:97-103): write the outline to index.adoc, then
      `generate_index_html`. */
  function Finish(env: Env, acc: Acc): BuildResult
  {
    var text := IndexText(acc.index);
    match WriteFile(acc.fs, IndexAdoc, text)
    case Fail(k) => BuildResult(Failed(FsFailed(k)), acc.fs)
    case Done(fs1) => IndexPage(env, fs1, text)
  }

  /** The cleaned file system after `remove_dir_all("build")` reported `removal`
      (None: removed), or None where the build stops. */
  function Cleaned(fs0: Fs, removal: Option<ErrorKind>): Option<Fs>
  {
    match removal
    case None => Some(WithoutBuild(fs0))
    case Some(k) => if k == NotFound then Some(fs0) else None
  }

  /** The whole of `generate_html(arg)`: `source` is the tree at the source path, if
      there is one, `fs0` the working directory before the build, and `removal` what
      `remove_dir_all("build")` reports. */
  function Generation(arg: string, source: Option<Tree>, fs0: Fs, removal: Option<ErrorKind>, env: Env): BuildResult
  {
    var src := TrimTrailingSlashes(arg);
    if source.None? then BuildResult(Failed(SourceNotFound), fs0)
    else
      match Cleaned(fs0, removal)
      case None => BuildResult(Failed(CleanupFailed(removal.value)), fs0)
      case Some(fs1) =>
        match Run(src, env, Acc(fs1, Header, []), Walk(source.value, src))
        case Halted(o, fs) => BuildResult(o, fs)
        case Going(acc) => Finish(env, acc)
  }
}
