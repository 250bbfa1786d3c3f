# AdocSimSiG build pipeline in Dafny

AdocSimSiG is a small static-site generator. It takes a source directory of AsciiDoc
documents and mirrors it into `build/`:

- every directory is recreated;
- every `.adoc` document is rendered to HTML by the external `asciidoctor` process;
- every other file is copied.

While it walks, it collects an outline document `build/index.adoc` with one bullet per
directory and per document. The bullets are nested by path depth, and each document's
bullet is labelled with the `<title>` of its rendered page. At the end it renders the
outline into `build/index.html` and deletes `build/index.adoc`.

This project models `generate_html` (src/main.rs:11-104) and its last step
`generate_index_html` (src/main.rs:148-167). It proves what the build does to the
working directory and what outline it produces.

Layout, one module per file:

- `wrappers.dfy`: `Option`.
- `text.dfy`: the string operations the build uses:
  - `trim_end_matches('/')`;
  - `str::replace`, leftmost and non-overlapping, as a recursive function;
  - `join`.
- `paths.dfy`: paths as lists of components, with Rust's `Path` operations used by the build:
  - `components`, `extension`, `file_stem`, `set_extension`, `strip_prefix`;
  - the target-path block of src/main.rs:43-61 (`MapTarget`);
  - `AnchoredMapped`, an independent component-wise definition of the mapping, to compare with `MapTarget`.
- `source_tree.dfy`: the source directory as a tree whose children come in listing order, and the pre-order walk over it (WalkDir's order).
- `file_system.dfy`: the working directory as a map from component paths to directories and files. It holds `create_dir`, `File::create` + `write_all` (and `copy`, which writes the same way), `remove_file` and a successful `remove_dir_all("build")`. Each reports the error kind the build can meet. For a missing parent, only the immediate parent is examined.
- `outline.dfy`: the outline lines and the text of `index.adoc`.
- `build.dfy`: the build as functions:
  - `Step` and `Visit`: one loop iteration;
  - `Run`: the fold over the walk;
  - `Finish` / `IndexPage`: the index pages;
  - `Generation`: the whole of `generate_html`.
- `build_properties.dfy`: lemmas about those functions. They cover:
  - one outline line per directory and document, in walk order, at their depth;
  - every entry mirrored;
  - nothing outside `build/` touched by the build's own writes;
  - rebuilding gives the same result;
  - what success and a missing title leave behind.
- `generator.dfy`: `generate_html` as the program runs it. A loop over the walk updates the file system, `index_adoc` and `html_list`, and each method is proved equal to the corresponding function of `build.dfy`.

The collaborators are parameters (`Build.Env`):

- `run_asciidoctor` (src/main.rs:169-182) is a total function from the document path and content to rendered text, output that is not UTF-8, or a process that could not be launched. The `expect` there makes a launch failure a panic.
- `extract_html_title_from_file` (src/main.rs:106-123) is a function from the rendered text to an optional title.
- The presence of the source directory (src/main.rs:19) is an `Option<Tree>`.
- The outcome of `remove_dir_all` (src/main.rs:27) is an `Option<ErrorKind>`.

A panic (an `unwrap` on `None`, a `usize` subtraction below zero, the `expect`) is the outcome `Panicked`. An `Err` returned by `generate_html` is `Failed(e)`.

Where the code behaves in ways a reader might not expect, the model follows the code:

- **Whole-string replace.** The source name is replaced by `build` with a whole-string
  `replace` (src/main.rs:44-48), not only as the leading component.
  - `Paths.InnerDocsExample` shows that `docs/docs/intro.adoc` under source `docs` maps to `build/build/intro.html`. The component-wise mapping `AnchoredMapped` gives `build/docs/intro.adoc`, before the extension rewrite.
  - `Paths.MappedLeadingOnly` proves that both agree when the name occurs only at the front.
  - An inner occurrence need not be a whole component: a path `docs/my-docs.adoc` is rewritten to `build/my-build.html`.
- **Directories are renamed too.** The `adoc`→`html` rewrite is decided on the mapped path before the directory test (src/main.rs:50, 63), so a directory named `x.adoc` is mirrored as a directory `x.html`.
- **The root line.** The walk visits the source root itself, which adds an outline line for it (src/main.rs:64-73). For a one-component source name this is the line `" "` at level 0. A source name such as `site/docs` has two components, so its root line is `"* "` at level 1.
- **Directories are not created idempotently.** `create_dir` (src/main.rs:75) fails with `AlreadyExists` when the directory is already there.
- **A document named `index.adoc` at the top.** Its page goes to `build/index.html` and is overwritten by the index page at the end (src/main.rs:160-162).
- **The renderer's exit status is not looked at.** A failing `asciidoctor` that prints valid UTF-8 counts as a rendered page.

## Model

| member | source | states |
|---|---|---|
| Text.TrimTrailingSlashes | src/main.rs:13 | the trimmed name is a prefix of the argument, does not end in '/', and only '/' characters were removed |
| Text.TrimIdempotent | src/main.rs:13 | trimming a trimmed name changes nothing |
| Text.TrimCharacterised | src/main.rs:13 | any prefix that does not end in '/' and drops only '/' characters is the trimmed name |
| Text.ReplaceAbsent | src/main.rs:44-48 | a string in which the source name does not occur is left unchanged by the replace |
| Text.ReplaceLeadingOnly | src/main.rs:44-48 | a string that starts with the pattern, and has no other occurrence of it, gets the replacement in front and keeps the rest |
| Text.ReplaceAll | src/main.rs:44-48 | definition of `str::replace`: leftmost, non-overlapping, an empty pattern matching at every character boundary; see `Text.ReplaceAbsent`, `Text.ReplaceLeadingOnly` |
| Text.Join | src/main.rs:101 | definition of `join`; see `Outline.IndexTextShape` |
| Paths.Components | src/main.rs:64 | every component is a non-empty name without '/' |
| Paths.ComponentsConcat | src/main.rs:64 | the components of `a/b` are those of `a` followed by those of `b` |
| Paths.ComponentsOfJoin | src/main.rs:64 | joining components with '/' and splitting again gives the components back |
| Paths.StripPrefix | src/main.rs:52-57 | succeeds exactly when the base is a component-wise prefix, and the base followed by the result is the path |
| Paths.LastDot | src/main.rs:50 | the index found holds the last '.' of the name, and there is none exactly when the name has no '.' |
| Paths.SetHtmlExtension | src/main.rs:50-51 | `set_extension("html")` on a path with extension `adoc` keeps every other component and the stem, and yields extension `html` |
| Paths.MapTargetExtension | src/main.rs:43-61 | a mapped path with extension `adoc` gets extension `html`, anything else is kept, and no build path has extension `adoc`, whatever the entry's kind |
| Paths.MappedLeadingOnly | src/main.rs:44-48 | when the source name occurs only at the front, the build path is `build` followed by the remaining components, and it equals the component-wise mapping |
| Paths.MappedUnderBuild | src/main.rs:44-61 | every path at or below the source name maps into `build` |
| Paths.InnerSourceNameRewritten | src/main.rs:44-48 | an inner component equal to the source name is rewritten to `build` as well |
| Paths.InnerDocsExample | src/main.rs:44-51 | `docs/docs/intro.adoc` under `docs` becomes `build/build/intro.html`, while the component-wise mapping gives `build/docs/intro.adoc` |
| Paths.FileName | src/main.rs:50 | definition of `Path::file_name`: the last component, none for an empty path or ".."; see `Paths.SetHtmlExtension` |
| Paths.Extension | src/main.rs:50 | definition of `Path::extension`: after the last '.', none without a '.' or when the only '.' leads the name; see `Paths.MapTargetExtension` |
| Paths.FileStem | src/main.rs:51 | definition of `Path::file_stem`; see `Paths.SetHtmlExtension` |
| Paths.SetExtension | src/main.rs:51 | definition of `PathBuf::set_extension`; see `Paths.SetHtmlExtension` |
| Paths.Mapped | src/main.rs:44-48 | definition: the components of the whole-string replace of the source name by `build`; see `Paths.MappedLeadingOnly`, `Paths.InnerDocsExample` |
| Paths.MapTarget | src/main.rs:43-61 | definition of the target-path block; see `Paths.MapTargetExtension`, `Paths.MappedUnderBuild` |
| SourceTree.Walk | src/main.rs:37-41 | definition: the pre-order walk, the node before its children in listing order; see `SourceTree.WalkBelow` |
| SourceTree.WalkChildren | src/main.rs:37-41 | definition: the walks of the children, in listing order; see `SourceTree.WalkBelow` |
| SourceTree.WalkBelow | src/main.rs:37-41 | the walk starts with the root and visits only paths at or below it |
| SourceTree.ChildPath | src/main.rs:37-42 | definition: the path of a child entry, the parent's path, `/` and the child's name; see `SourceTree.ChildComponents`, `SourceTree.WalkBelow` |
| SourceTree.ChildComponents | src/main.rs:64 | a child's path has one component more than its parent's |
| SourceTree.BelowComponents | src/main.rs:68-71 | a path below the source has the source's components as a prefix |
| FileSystem.CreateDir | src/main.rs:75 | succeeds exactly for a new path whose parent is a directory, adding a directory there; an existing path fails with AlreadyExists |
| FileSystem.WriteFile | src/main.rs:78-79 | succeeds exactly when the path is not a directory and its parent is one, leaving the content there; a directory fails with IsADirectory |
| FileSystem.RemoveFile | src/main.rs:166 | succeeds exactly on a file, which it removes |
| FileSystem.WithoutBuild | src/main.rs:27 | exactly the paths outside `build` remain, with their content |
| Outline.Stars | src/main.rs:65 | `n` characters, all '*' |
| Outline.LineDepth | src/main.rs:64-73 | directory and document lines have as many leading '*' as their level |
| Outline.IndexTextShape | src/main.rs:99-101 | the index text is "= Index", a blank line, the entry lines joined by newlines, and a final newline |
| Outline.Header | src/main.rs:35 | definition: the start value of `index_adoc`, the heading `= Index` and an empty line; see `Outline.IndexTextShape`, `Outline.IndexTextEmpty` |
| Outline.IndexTextEmpty | src/main.rs:35 | with no entry, the index text is the heading and one blank line |
| Outline.DirLine | src/main.rs:66-73 | definition of the directory line `"{stars} {caption}"`; see `Outline.LineDepth` |
| Outline.DocLine | src/main.rs:84-92 | definition of the document line `"{stars} xref:{target}[{title}]"`; see `Outline.LineDepth` |
| Outline.IndexText | src/main.rs:101 | definition of the text `writeln!` writes; see `Outline.IndexTextShape` |
| Build.IsDirEntry | src/main.rs:63 | definition: `relative_path.is_dir()`, a directory of the tree with a non-empty relative path (the empty path names nothing); see `BuildProperties.StepMirrorsDirectory`, `BuildProperties.RunPlaces` |
| Build.IsDocument | src/main.rs:76 | definition: a non-directory whose relative path has extension `adoc`; see `BuildProperties.VisitContent`, `BuildProperties.StepUntitledHalts` |
| Build.Level | src/main.rs:64 | definition: component count less one, none where the `usize` subtraction underflows; see `BuildProperties.EntryLineDepth`, `BuildProperties.WalkLevelsDefined` |
| Build.DirCaption | src/main.rs:68-71 | definition: the path below the source name, none where the unwrap panics; see `BuildProperties.WalkLevelsDefined` |
| Build.Xref | src/main.rs:52-57 | definition: the build path below `build`, none where the unwrap panics; see `BuildProperties.EntryLineDepth` |
| Build.Step | src/main.rs:43-95 | definition of one loop iteration; see `BuildProperties.StepLines`, `BuildProperties.StepPlaces`, `Generator.StepEntry` |
| Build.Visit | src/main.rs:63-95 | definition of the three branches; see `BuildProperties.VisitContent`, `Generator.VisitEntry` |
| Build.Run | src/main.rs:37-96 | definition of the loop as a fold over the walk; see `BuildProperties.RunLines`, `BuildProperties.RunMirrors`, `Generator.WalkLoop` |
| Build.IndexPage | src/main.rs:148-167 | definition of `generate_index_html`; see `BuildProperties.FinishSuccess`, `Generator.GenerateIndexHtml` |
| Build.Finish | src/main.rs:97-103 | definition of writing index.adoc then `generate_index_html`; see `BuildProperties.FinishSuccess`, `BuildProperties.FinishFrame` |
| Build.Cleaned | src/main.rs:27-32 | definition of the cleanup: removed, tolerated NotFound, or stop; see `Generator.GenerateHtml`, `BuildProperties.PreviousBuildIrrelevant` |
| Build.Generation | src/main.rs:11-104 | definition of the whole build; see `BuildProperties.SuccessfulBuild`, `BuildProperties.Idempotent`, `BuildProperties.MissingTitleStopsBuild`, `Generator.GenerateHtml` |
| BuildProperties.EntryLineDepth | src/main.rs:82-92 | a directory or document adds one line whose depth is its component count less one |
| BuildProperties.LinesCount | src/main.rs:63-95 | the walk yields exactly one outline line per directory and document |
| BuildProperties.StepLines | src/main.rs:63-95 | an iteration that goes on appends exactly its entry's own lines to `index_adoc` |
| BuildProperties.RunLines | src/main.rs:37-96 | a completed walk has appended the lines of all its entries in walk order, and nothing else |
| BuildProperties.RootLineDepth | src/main.rs:64-73 | the first outline line is the root's: as many '*' as the source name's components less one, then a space and an empty caption |
| BuildProperties.RootLine | src/main.rs:64-73 | for a one-component source name the first outline line is `" "` |
| BuildProperties.ChildLevel | src/main.rs:64 | the children of a directory are one level deeper than it |
| BuildProperties.WalkLevelsDefined | src/main.rs:64-71 | when the source name has a component, no entry's level underflows and no caption unwrap fails |
| BuildProperties.Mirror | src/main.rs:75-94 | definition: what an entry puts at its build path (a directory, the rendered page, or the file's own content); see `BuildProperties.RunMirrors` |
| BuildProperties.VisitContent | src/main.rs:63-95 | a branch that goes on leaves exactly the entry's `Mirror` at its build path: the directory, the rendered page (78-79) or the copied content (94) |
| BuildProperties.StepPlaces | src/main.rs:63-95 | an iteration that goes on creates its build path, as a directory exactly for a directory and holding the rendered page or the copied content otherwise, and keeps every path that was there |
| BuildProperties.StepTouchesOnly | src/main.rs:43-95 | an iteration leaves every path other than its build path as it was |
| BuildProperties.RunTouchesOnly | src/main.rs:37-96 | a walk leaves every path that is no entry's build path as it was |
| BuildProperties.RunMirrors | src/main.rs:37-96 | a completed walk leaves at each entry's build path the directory, rendered page or copied content of that entry, unless a later entry has the same build path |
| BuildProperties.RunPlaces | src/main.rs:37-96 | a completed walk has mirrored every entry: directories as directories, documents and other files as files (contents: `BuildProperties.RunMirrors`) |
| BuildProperties.StepMirrorsDirectory | src/main.rs:63-75 | a visited directory exists as a directory at its build path |
| BuildProperties.RunHaltedFails | src/main.rs:37-96 | a walk that stops never reports success |
| BuildProperties.StepFrame | src/main.rs:43-95 | an iteration changes nothing outside `build` when its build path lies in `build` |
| BuildProperties.RunFrame | src/main.rs:37-96 | a walk whose build paths lie in `build` changes nothing outside it |
| BuildProperties.FinishFrame | src/main.rs:97-103 | writing the index pages changes nothing outside `build` |
| BuildProperties.WalkUnderBuild | src/main.rs:37-61 | for a relative, non-empty source name, every entry maps into `build` |
| BuildProperties.GenerationFrame | src/main.rs:11-104 | for a non-empty source name not starting with '/', the whole build, whatever the cleanup reports, leaves every path outside `build` as it was |
| BuildProperties.Idempotent | src/main.rs:11-104 | running the build again on what it left gives the same outcome and the same working directory |
| BuildProperties.PreviousBuildIrrelevant | src/main.rs:27-32 | the contents of a previous `build` have no influence on the result |
| BuildProperties.StepAvoidsIndexAdoc | src/main.rs:43-95 | no iteration creates `build/index.adoc` |
| BuildProperties.FinishSuccess | src/main.rs:97-103 | successful index pages leave the rendered outline in `build/index.html`, remove `build/index.adoc` and keep every other path with its content |
| BuildProperties.SuccessfulBuild | src/main.rs:11-104 | a successful build had a source and a tolerated cleanup, rendered the outline of the whole walk into `build/index.html`, left no `build/index.adoc`, mirrored every entry, and rendered every document of the walk with a title; every entry that is the last to write its build path, other than `build/index.html`, has its rendered page or copied content there |
| BuildProperties.CompletedBuild | src/main.rs:37-103 | a completed walk from the cleaned working directory followed by successful index pages leaves the rendered outline in `build/index.html`, no `build/index.adoc`, every entry placed, the last writers' contents, and every document rendered with a title |
| BuildProperties.FinishNeverNoTitle | src/main.rs:148-167 | the index pages never fail for a missing title |
| BuildProperties.StepNoTitle | src/main.rs:76-80 | an iteration failing for a missing title has written that document's page |
| BuildProperties.RunNoTitle | src/main.rs:37-96 | a walk stopped by a missing title stopped at a document whose page it wrote, and it has not created `build/index.adoc` |
| BuildProperties.MissingTitleStopsBuild | src/main.rs:78-102 | a build failing for a missing title, after a cleanup that removed `build` or found none, had a source, its walk stopped at a document whose title-less page it wrote, and it created no `build/index.adoc` |
| BuildProperties.FirstBuildNoTitle | src/main.rs:27-32 | the first build ever (no `build` to remove) failing for a missing title leaves no `build/index.adoc` |
| BuildProperties.VisitUntitledHalts | src/main.rs:76-80 | the document branch stops at a document that cannot be rendered or has no title |
| BuildProperties.StepUntitledHalts | src/main.rs:43-95 | an iteration on such a document stops the loop |
| BuildProperties.RunUntitledHalts | src/main.rs:37-96 | a walk with such a document anywhere in it stops |
| BuildProperties.RunTitled | src/main.rs:37-96 | a walk that completes rendered every one of its documents with a title |
| BuildProperties.UntitledNoSuccess | src/main.rs:78-103 | a build whose walk holds such a document never succeeds, whatever the cleanup reported, and its walk stops before the index pages |
| BuildProperties.AdocDirectoryTarget | src/main.rs:50-51 | a directory `src/x.adoc` has build path `build/x.html` |
| BuildProperties.AdocDirectoryBecomesHtml | src/main.rs:50-75 | such a directory is created as a directory named `x.html` |
| Generator.VisitEntry | src/main.rs:63-95 | the directory, document and copy branches compute exactly `Visit` |
| Generator.StepEntry | src/main.rs:43-95 | one loop iteration, including the `html_list` push and its unwrap, computes exactly `Step` |
| Generator.WalkLoop | src/main.rs:37-96 | the loop over the walk computes exactly the fold `Run` from the cleaned file system |
| Generator.GenerateIndexHtml | src/main.rs:148-167 | render, write `build/index.html` and remove `build/index.adoc`, exactly as `IndexPage` |
| Generator.GenerateHtml | src/main.rs:11-104 | the whole build computes `Generation`; a missing source fails with SourceNotFound and a cleanup error other than NotFound fails with that error, in both cases with the working directory unchanged |

## Left out

- `run_asciidoctor` (src/main.rs:169-182): the subprocess, its flags and the UTF-8 decoding are the parameter `Env.render`. It receives the path and the file's content. The program reads the file from disk, but that content is exactly what the build passes. The renderer is loaded with `-r asciidoctor-diagram` (src/main.rs:174), which can write diagram images to disk by itself; `Env.render` has no effect on the file system, so the frame lemmas and "nothing outside `build/` touched" cover only the build's own writes.
- `extract_html_title_from_file` (src/main.rs:106-123): the HTML parsing of the `scraper` crate is the parameter `Env.title`.
- `extract_html_title` (src/main.rs:125-146): never called.
- `html_list` is built and its `unwrap` modelled (src/main.rs:52-57). `generate_index_html` ignores its `html_list` argument, so the model does not pass it.
- WalkDir internals: symbolic links, entries dropped by `filter_map(|e| e.ok())`, and the listing order. The tree and its children's order are an input.
- The walk sees the source tree only. A source directory at or inside `build` (the argument `build` itself, say), or a walk that meets files the build itself writes, is not modelled. With the argument `build`, `remove_dir_all` (src/main.rs:27) deletes the source before the walk, which then yields nothing, and `File::create` at src/main.rs:100 fails with NotFound; the model instead walks its snapshot of the tree, so for that argument `BuildProperties.Idempotent` and `BuildProperties.SuccessfulBuild` describe builds the program cannot perform.
- `env::current_dir()` and the absolute `source_dir` (src/main.rs:15, 42):
  - the working directory is fixed and cannot fail;
  - `strip_prefix` of it always succeeds;
  - an absolute source name (one starting with '/') is treated like a relative one.
- Path normalisation: `.` and `..` components, and `to_string_lossy` on names that are not UTF-8. Paths are `/`-separated strings of characters.
- File contents are strings, not bytes. `copy` is a write of the same content; permissions and metadata are not modelled.
- A partial `remove_dir_all`, and a `File::create` that succeeds followed by a `write_all` that fails. Each file-system call either succeeds completely or fails without effect.
- FileSystem.ParentError: only the immediate parent of a new path is examined. A missing parent below an ancestor that is a file gives NotFound where POSIX reports NotADirectory. The walk visits a directory before its children, so the build meets this case only where the build paths of a directory's entries do not nest.
- The `println!` of a cleanup error (src/main.rs:29). It is console output.
- `main` (src/main.rs:184-191): the argument count check and the final `unwrap`, which turns an `Err` into a panic.
- BuildProperties.Idempotent: stated only for a source name that is non-empty and does not start with '/'. Absolute names are not modelled, and for the empty name the model does not show that every build path lies in `build`.
- BuildProperties.PreviousBuildIrrelevant: stated only for a present source directory and a cleanup that succeeded.
