/** What the build promises, proved about the functions of module Build: the outline
    has one line per directory and document in walk order, every entry is mirrored in
    the build directory, nothing outside it changes, a rebuild gives the same result,
    and a document without title stops the build before the index is written. */
module BuildProperties {
  import opened Wrappers
  import opened Text
  import opened Paths
  import opened SourceTree
  import opened FileSystem
  import opened Outline
  import opened Build

  /** The title the extractor finds in the page rendered for `e` ("" where there is none). */
  function TitleOf(env: Env, e: Entry): string
  {
    match env.render(e.rel, e.data)
    case Html(h) => env.title(h).GetOr([])
    case _ => []
  }

  /** The outline lines entry `e` contributes, independently of any file system: one
      line for a directory, one for a document, none for any other file. */
  function EntryLines(src: string, env: Env, e: Entry): seq<string>
  {
    EntryLinesAt(src, env, e, MapTarget(src, e.rel))
  }

  /** The lines of `e` when its build path is `target`. */
  function EntryLinesAt(src: string, env: Env, e: Entry, target: Path): seq<string>
  {
    if IsDirEntry(e) then
      [DirLine(Level(e.rel).GetOr(0), DirCaption(src, e.rel).GetOr([]))]
    else if IsDocument(e) then
      [DocLine(Level(e.rel).GetOr(0), Xref(target).GetOr([]), TitleOf(env, e))]
    else []
  }

  /** A directory or a document contributes one line whose depth is its number of
      path components less one. */
  lemma EntryLineDepth(src: string, env: Env, e: Entry)
    requires IsDirEntry(e) || IsDocument(e)
    requires Components(e.rel) != []
    ensures |EntryLines(src, env, e)| == 1
    ensures LeadingStars(EntryLines(src, env, e)[0]) == |Components(e.rel)| - 1
  {
    var n := |Components(e.rel)| - 1;
    LineDepth(n, DirCaption(src, e.rel).GetOr([]), Xref(MapTarget(src, e.rel)).GetOr([]), TitleOf(env, e));
  }

  /** The children of a directory at `rel` are one level deeper than `rel`, whatever
      their names, since each name is a single component. */
  lemma ChildLevel(t: Tree, rel: string, j: int)
    requires t.Dir? && WellFormed(t) && rel != [] && 0 <= j < |t.children|
    ensures Level(ChildPath(rel, t.children[j].name)) == Some(|Components(rel)|)
  {
    ChildComponents(rel, t.children[j].name);
  }

  /** When the source name has a component, the level and caption of every entry of
      the walk exist: the subtraction and the unwrap of src/main.rs:64-73 and 82 never
      fail. */
  lemma WalkLevelsDefined(t: Tree, src: string)
    requires Components(src) != []
    ensures forall i :: 0 <= i < |Walk(t, src)| ==>
      Level(Walk(t, src)[i].rel).Some? && DirCaption(src, Walk(t, src)[i].rel).Some?
  {
    var w := Walk(t, src);
    WalkBelow(t, src);
    forall i | 0 <= i < |w| ensures Level(w[i].rel).Some? && DirCaption(src, w[i].rel).Some? {
      BelowComponents(src, w[i].rel);
    }
  }

  /** The outline lines of a sequence of entries, in their order. */
  function Lines(src: string, env: Env, es: seq<Entry>): seq<string>
    decreases |es|
  {
    if es == [] then [] else EntryLines(src, env, es[0]) + Lines(src, env, es[1..])
  }

  /** The number of directories and documents among the entries. */
  function CountListed(es: seq<Entry>): nat
    decreases |es|
  {
    if es == [] then 0
    else (if IsDirEntry(es[0]) || IsDocument(es[0]) then 1 else 0) + CountListed(es[1..])
  }

  /** Exactly one line per directory and document. */
  lemma {:induction false} LinesCount(src: string, env: Env, es: seq<Entry>)
    ensures |Lines(src, env, es)| == CountListed(es)
    decreases |es|
  {
    if es != [] {
      LinesCount(src, env, es[1..]);
    }
  }

  /** The accumulator the branches of a step start from: `html_list` has grown by the
      page's path when the build path has extension "adoc". */
  function Pushed(src: string, acc: Acc, e: Entry): Acc
  {
    if Extension(Mapped(src, e.rel)) == Some("adoc") then
      acc.(htmlList := acc.htmlList + [Xref(MapTarget(src, e.rel)).GetOr([])])
    else acc
  }

  /** A step is its branch on the pushed accumulator, unless the `html_list` unwrap
      panicked. */
  lemma StepCases(src: string, env: Env, acc: Acc, e: Entry)
    ensures Step(src, env, acc, e) == Visit(src, env, Pushed(src, acc, e), e, MapTarget(src, e.rel))
      || Step(src, env, acc, e) == Halted(Panicked, acc.fs)
  {
  }

  lemma VisitLines(src: string, env: Env, acc: Acc, e: Entry, target: Path)
    requires Visit(src, env, acc, e, target).Going?
    ensures Visit(src, env, acc, e, target).acc.index == acc.index + EntryLinesAt(src, env, e, target)
  {
  }

  /** A walk that stops has not succeeded. */
  lemma {:induction false} RunHaltedFails(src: string, env: Env, acc: Acc, es: seq<Entry>)
    requires Run(src, env, acc, es).Halted?
    ensures Run(src, env, acc, es).outcome != Success
    decreases |es|
  {
    StepCases(src, env, acc, es[0]);
    VisitHaltedFails(src, env, Pushed(src, acc, es[0]), es[0], MapTarget(src, es[0].rel));
    var p := Step(src, env, acc, es[0]);
    if p.Going? {
      RunHaltedFails(src, env, p.acc, es[1..]);
    }
  }

  lemma VisitHaltedFails(src: string, env: Env, acc: Acc, e: Entry, target: Path)
    ensures Visit(src, env, acc, e, target).Halted? ==> Visit(src, env, acc, e, target).outcome != Success
  {
  }

  /** A step that goes on appends exactly the entry's own lines to the outline. */
  lemma StepLines(src: string, env: Env, acc: Acc, e: Entry)
    requires Step(src, env, acc, e).Going?
    ensures Step(src, env, acc, e).acc.index == acc.index + EntryLines(src, env, e)
  {
    StepCases(src, env, acc, e);
    VisitLines(src, env, Pushed(src, acc, e), e, MapTarget(src, e.rel));
  }

  /** A walk that completes has appended the lines of its entries, in walk order, and
      nothing else. */
  lemma {:induction false} RunLines(src: string, env: Env, acc: Acc, es: seq<Entry>)
    requires Run(src, env, acc, es).Going?
    ensures Run(src, env, acc, es).acc.index == acc.index + Lines(src, env, es)
    decreases |es|
  {
    if es != [] {
      var next := Step(src, env, acc, es[0]).acc;
      StepLines(src, env, acc, es[0]);
      RunLines(src, env, next, es[1..]);
    }
  }

  /** The root's line: a directory line with no caption, at the level of the source
      name's own component count. */
  lemma RootLineDepth(src: string, env: Env, t: Tree)
    requires Components(src) != [] && t.Dir?
    ensures Lines(src, env, Walk(t, src)) != []
    ensures Lines(src, env, Walk(t, src))[0] == Stars(|Components(src)| - 1) + " "
  {
    var w := Walk(t, src);
    WalkBelow(t, src);
    assert w[0] == Entry(src, DirKind, []);
    assert DirCaption(src, src) == Some([]);
    assert Lines(src, env, w) == EntryLines(src, env, w[0]) + Lines(src, env, w[1..]);
  }

  /** The root of a single-component source name is at level 0 and its line is " ". */
  lemma RootLine(src: string, env: Env, t: Tree)
    requires IsSegment(src) && t.Dir?
    ensures Lines(src, env, Walk(t, src)) != []
    ensures Lines(src, env, Walk(t, src))[0] == " "
  {
    var w := Walk(t, src);
    WalkBelow(t, src);
    ComponentsOfSegment(src);
    assert w[0] == Entry(src, DirKind, []);
    assert Level(src) == Some(0);
    assert DirCaption(src, src) == Some([]);
    assert DirLine(0, []) == " ";
    assert Lines(src, env, w) == EntryLines(src, env, w[0]) + Lines(src, env, w[1..]);
  }

  /** Entries already in `fs` stay, and stay directories or files. */
  ghost predicate Keeps(fs: Fs, fs': Fs)
  {
    forall p :: p in fs ==> p in fs' && (fs'[p] == DirNode <==> fs[p] == DirNode)
  }

  /** The entry's build path exists, as a directory exactly when the entry is one. */
  predicate Placed(fs: Fs, src: string, e: Entry)
  {
    var t := MapTarget(src, e.rel);
    t in fs && (fs[t] == DirNode <==> IsDirEntry(e))
  }

  lemma VisitPlaces(src: string, env: Env, acc: Acc, e: Entry, target: Path)
    requires Visit(src, env, acc, e, target).Going?
    ensures Keeps(acc.fs, Visit(src, env, acc, e, target).acc.fs)
    ensures target in Visit(src, env, acc, e, target).acc.fs
    ensures Visit(src, env, acc, e, target).acc.fs[target] == DirNode <==> IsDirEntry(e)
  {
    var fs' := Visit(src, env, acc, e, target).acc.fs;
    if IsDirEntry(e) {
      assert fs' == acc.fs[target := DirNode];
    } else {
      var d :| fs' == acc.fs[target := FileNode(d)];
      assert !IsDirIn(acc.fs, target);
    }
  }

  /** What the build puts at an entry's build path: a directory for a directory, the
      rendered page for a document (src/main.rs:78-79), the file's own content for any
      other file (the copy, src/main.rs:94). */
  function Mirror(env: Env, e: Entry): Node
  {
    if IsDirEntry(e) then DirNode
    else if IsDocument(e) then
      match env.render(e.rel, e.data)
      case Html(h) => FileNode(h)
      case _ => FileNode([])
    else FileNode(e.data)
  }

  /** The entry's build path holds what the build puts there. */
  predicate Holds(fs: Fs, src: string, env: Env, e: Entry)
  {
    var t := MapTarget(src, e.rel);
    t in fs && fs[t] == Mirror(env, e)
  }

  lemma VisitContent(src: string, env: Env, acc: Acc, e: Entry, target: Path)
    requires Visit(src, env, acc, e, target).Going?
    ensures target in Visit(src, env, acc, e, target).acc.fs
    ensures Visit(src, env, acc, e, target).acc.fs[target] == Mirror(env, e)
  {
  }

  /** A step that goes on mirrors its entry, with the right content, and keeps what
      was there. */
  lemma StepPlaces(src: string, env: Env, acc: Acc, e: Entry)
    requires Step(src, env, acc, e).Going?
    ensures Keeps(acc.fs, Step(src, env, acc, e).acc.fs)
    ensures Placed(Step(src, env, acc, e).acc.fs, src, e)
    ensures Holds(Step(src, env, acc, e).acc.fs, src, env, e)
  {
    StepCases(src, env, acc, e);
    VisitPlaces(src, env, Pushed(src, acc, e), e, MapTarget(src, e.rel));
    VisitContent(src, env, Pushed(src, acc, e), e, MapTarget(src, e.rel));
  }

  /** A step leaves every path other than its build path as it was. */
  lemma StepTouchesOnly(src: string, env: Env, acc: Acc, e: Entry, p: Path)
    requires p != MapTarget(src, e.rel)
    ensures var fs' := FsOf(Step(src, env, acc, e));
      (p in fs' <==> p in acc.fs) && (p in fs' ==> fs'[p] == acc.fs[p])
  {
    StepCases(src, env, acc, e);
    VisitTouchesOnly(src, env, Pushed(src, acc, e), e, MapTarget(src, e.rel));
  }

  /** A walk leaves every path that is no entry's build path as it was. */
  lemma {:induction false} RunTouchesOnly(src: string, env: Env, acc: Acc, es: seq<Entry>, p: Path)
    requires forall j :: 0 <= j < |es| ==> MapTarget(src, es[j].rel) != p
    ensures var fs' := FsOf(Run(src, env, acc, es));
      (p in fs' <==> p in acc.fs) && (p in fs' ==> fs'[p] == acc.fs[p])
    decreases |es|
  {
    if es != [] {
      StepTouchesOnly(src, env, acc, es[0], p);
      var q := Step(src, env, acc, es[0]);
      if q.Going? {
        forall j | 0 <= j < |es[1..]| ensures MapTarget(src, es[1..][j].rel) != p {
          assert es[1..][j] == es[j + 1];
        }
        RunTouchesOnly(src, env, q.acc, es[1..], p);
      }
    }
  }

  /** No entry after the `i`-th has the same build path: the `i`-th is the last to
      write there. Distinct paths can share a build path, since the replace is not
      anchored (`docs/build.txt` and `docs/docs.txt` both go to `build/build.txt`). */
  predicate LastAt(src: string, es: seq<Entry>, i: int)
  {
    0 <= i < |es| && forall j :: i < j < |es| ==> MapTarget(src, es[j].rel) != MapTarget(src, es[i].rel)
  }

  /** A walk that completes leaves at each entry's build path what that entry puts
      there, unless a later entry writes the same path. */
  lemma {:induction false} RunMirrors(src: string, env: Env, acc: Acc, es: seq<Entry>)
    requires Run(src, env, acc, es).Going?
    ensures forall i :: LastAt(src, es, i) ==> Holds(Run(src, env, acc, es).acc.fs, src, env, es[i])
    decreases |es|
  {
    if es != [] {
      var next := Step(src, env, acc, es[0]).acc;
      StepPlaces(src, env, acc, es[0]);
      RunMirrors(src, env, next, es[1..]);
      var last := Run(src, env, acc, es).acc.fs;
      forall i | LastAt(src, es, i) ensures Holds(last, src, env, es[i]) {
        if i == 0 {
          var t := MapTarget(src, es[0].rel);
          forall j | 0 <= j < |es[1..]| ensures MapTarget(src, es[1..][j].rel) != t {
            assert es[1..][j] == es[j + 1];
          }
          RunTouchesOnly(src, env, next, es[1..], t);
        } else {
          assert es[i] == es[1..][i - 1];
          forall j | i - 1 < j < |es[1..]|
            ensures MapTarget(src, es[1..][j].rel) != MapTarget(src, es[1..][i - 1].rel)
          {
            assert es[1..][j] == es[j + 1];
          }
          assert LastAt(src, es[1..], i - 1);
        }
      }
    }
  }

  /** A directory that a step visits is created at its build path. */
  lemma StepMirrorsDirectory(src: string, env: Env, acc: Acc, e: Entry)
    requires IsDirEntry(e)
    ensures Step(src, env, acc, e).Going? ==>
      MapTarget(src, e.rel) in Step(src, env, acc, e).acc.fs
      && Step(src, env, acc, e).acc.fs[MapTarget(src, e.rel)] == DirNode
  {
    if Step(src, env, acc, e).Going? {
      StepPlaces(src, env, acc, e);
    }
  }

  /** A walk that completes has mirrored every entry: each directory as a directory,
      each other entry as a file. */
  lemma {:induction false} RunPlaces(src: string, env: Env, acc: Acc, es: seq<Entry>)
    requires Run(src, env, acc, es).Going?
    ensures Keeps(acc.fs, Run(src, env, acc, es).acc.fs)
    ensures forall i :: 0 <= i < |es| ==> Placed(Run(src, env, acc, es).acc.fs, src, es[i])
    decreases |es|
  {
    if es != [] {
      var next := Step(src, env, acc, es[0]).acc;
      StepPlaces(src, env, acc, es[0]);
      RunPlaces(src, env, next, es[1..]);
      var last := Run(src, env, acc, es).acc.fs;
      forall i | 0 <= i < |es| ensures Placed(last, src, es[i]) {
        if i > 0 {
          assert es[i] == es[1..][i - 1];
        }
      }
    }
  }

  /** The file system a step or a walk leaves. */
  function FsOf(p: Progress): Fs
  {
    match p
    case Going(acc) => acc.fs
    case Halted(_, fs) => fs
  }

  /** Every entry's build path lies in the build directory. */
  predicate AllUnderBuild(src: string, es: seq<Entry>)
  {
    forall i :: 0 <= i < |es| ==> UnderBuild(MapTarget(src, es[i].rel))
  }

  /** A branch changes the file system at its build path and nowhere else. */
  lemma VisitTouchesOnly(src: string, env: Env, acc: Acc, e: Entry, target: Path)
    ensures var fs' := FsOf(Visit(src, env, acc, e, target));
      forall p :: p != target ==> (p in fs' <==> p in acc.fs) && (p in fs' ==> fs'[p] == acc.fs[p])
  {
  }

  lemma VisitFrame(src: string, env: Env, acc: Acc, e: Entry, target: Path)
    requires UnderBuild(target)
    ensures WithoutBuild(FsOf(Visit(src, env, acc, e, target))) == WithoutBuild(acc.fs)
  {
    VisitTouchesOnly(src, env, acc, e, target);
  }

  /** A step changes the file system only at its entry's build path. */
  lemma StepFrame(src: string, env: Env, acc: Acc, e: Entry)
    requires UnderBuild(MapTarget(src, e.rel))
    ensures WithoutBuild(FsOf(Step(src, env, acc, e))) == WithoutBuild(acc.fs)
  {
    VisitFrame(src, env, Pushed(src, acc, e), e, MapTarget(src, e.rel));
    StepCases(src, env, acc, e);
  }

  /** A walk whose build paths all lie in the build directory changes nothing else. */
  lemma {:induction false} RunFrame(src: string, env: Env, acc: Acc, es: seq<Entry>)
    requires AllUnderBuild(src, es)
    ensures WithoutBuild(FsOf(Run(src, env, acc, es))) == WithoutBuild(acc.fs)
    decreases |es|
  {
    if es != [] {
      StepFrame(src, env, acc, es[0]);
      var p := Step(src, env, acc, es[0]);
      if p.Going? {
        assert AllUnderBuild(src, es[1..]) by {
          forall i | 0 <= i < |es| - 1 ensures UnderBuild(MapTarget(src, es[1..][i].rel)) {
            assert es[1..][i] == es[i + 1];
          }
        }
        RunFrame(src, env, p.acc, es[1..]);
      }
    }
  }

  /** Writing the index pages changes only the build directory. */
  lemma FinishFrame(env: Env, acc: Acc)
    ensures WithoutBuild(Finish(env, acc).fs) == WithoutBuild(acc.fs)
  {
    var text := IndexText(acc.index);
    var r1 := WriteFile(acc.fs, IndexAdoc, text);
    if r1.Done? {
      UpdateUnderBuild(acc.fs, IndexAdoc, FileNode(text));
      match env.render(IndexAdocName, text)
      case Html(h) =>
        var r2 := WriteFile(r1.fs, IndexHtml, h);
        if r2.Done? {
          UpdateUnderBuild(r1.fs, IndexHtml, FileNode(h));
          RemoveUnderBuild(r2.fs, IndexAdoc);
        }
      case _ =>
    }
  }

  /** For a source name that is not empty and does not start with '/', every entry of
      the walk maps into the build directory. */
  lemma WalkUnderBuild(t: Tree, src: string)
    requires src != [] && src[0] != '/'
    ensures AllUnderBuild(src, Walk(t, src))
  {
    var w := Walk(t, src);
    WalkBelow(t, src);
    forall i | 0 <= i < |w| ensures UnderBuild(MapTarget(src, w[i].rel)) {
      var x := w[i].rel;
      assert x == src + x[|src|..];
      MappedUnderBuild(src, x[|src|..]);
    }
  }

  /** The whole build, whatever the cleanup reported, changes nothing outside the build
      directory, for a source name that is not empty and does not start with '/'. */
  lemma GenerationFrame(arg: string, source: Option<Tree>, fs0: Fs, removal: Option<ErrorKind>, env: Env)
    requires TrimTrailingSlashes(arg) != [] && TrimTrailingSlashes(arg)[0] != '/'
    ensures WithoutBuild(Generation(arg, source, fs0, removal, env).fs) == WithoutBuild(fs0)
  {
    var src := TrimTrailingSlashes(arg);
    if source.Some? && Cleaned(fs0, removal).Some? {
      var fs1 := Cleaned(fs0, removal).value;
      WithoutBuildIdempotent(fs0);
      WalkUnderBuild(source.value, src);
      var p := Run(src, env, Acc(fs1, Header, []), Walk(source.value, src));
      RunFrame(src, env, Acc(fs1, Header, []), Walk(source.value, src));
      if p.Going? {
        FinishFrame(env, p.acc);
      }
    }
  }

  /** Running the build again on what it left gives the same result: the second run
      removes the first run's build directory and, having nothing else to go on,
      does exactly what the first did. */
  lemma Idempotent(arg: string, source: Option<Tree>, fs0: Fs, env: Env)
    requires TrimTrailingSlashes(arg) != [] && TrimTrailingSlashes(arg)[0] != '/'
    ensures var first := Generation(arg, source, fs0, None, env);
      Generation(arg, source, first.fs, None, env) == first
  {
    var first := Generation(arg, source, fs0, None, env);
    if source.Some? {
      WithoutBuildIdempotent(fs0);
      GenerationFrame(arg, source, fs0, None, env);
    }
  }

  /** Whatever a previous build left in the build directory has no influence on the
      next one: only the rest of the working directory matters. */
  lemma PreviousBuildIrrelevant(arg: string, source: Option<Tree>, fs0: Fs, fs0': Fs, env: Env)
    requires source.Some?
    requires WithoutBuild(fs0) == WithoutBuild(fs0')
    ensures Generation(arg, source, fs0, None, env) == Generation(arg, source, fs0', None, env)
  {
  }

  /** The outline text of a completed walk over `t`. */
  function OutlineText(src: string, env: Env, t: Tree): string
  {
    IndexText(Header + Lines(src, env, Walk(t, src)))
  }

  lemma IndexAdocIsAdoc()
    ensures Extension(IndexAdoc) == Some("adoc")
  {
    LastDotIs("index.adoc", 5);
    assert "index.adoc"[6..] == "adoc";
  }

  /** No step creates index.adoc: a build path never has extension "adoc". */
  lemma StepAvoidsIndexAdoc(src: string, env: Env, acc: Acc, e: Entry)
    requires IndexAdoc !in acc.fs
    ensures IndexAdoc !in FsOf(Step(src, env, acc, e))
  {
    MapTargetExtension(src, e.rel);
    IndexAdocIsAdoc();
    VisitAvoids(src, env, Pushed(src, acc, e), e, MapTarget(src, e.rel), IndexAdoc);
    StepCases(src, env, acc, e);
  }

  lemma VisitAvoids(src: string, env: Env, acc: Acc, e: Entry, target: Path, p: Path)
    requires p != target && p !in acc.fs
    ensures p !in FsOf(Visit(src, env, acc, e, target))
  {
  }

  /** Writing the index pages, when it succeeds, leaves index.html holding the
      rendered outline, removes index.adoc and keeps every other path as it was. */
  lemma FinishSuccess(env: Env, acc: Acc)
    requires Finish(env, acc).outcome == Success
    ensures var fs := Finish(env, acc).fs;
      var page := env.render(IndexAdocName, IndexText(acc.index));
      && page.Html?
      && IndexHtml in fs && fs[IndexHtml] == FileNode(page.text)
      && IndexAdoc !in fs
      && (forall p :: p in acc.fs && p != IndexAdoc ==> p in fs && (fs[p] == DirNode <==> acc.fs[p] == DirNode))
      && forall p :: p in acc.fs && p != IndexAdoc && p != IndexHtml ==> fs[p] == acc.fs[p]
  {
    var text := IndexText(acc.index);
    var fs1 := WriteFile(acc.fs, IndexAdoc, text).fs;
    var h := env.render(IndexAdocName, text).text;
    var fs2 := WriteFile(fs1, IndexHtml, h).fs;
    assert fs2 == fs1[IndexHtml := FileNode(h)];
    assert !IsDirIn(acc.fs, IndexHtml) by {
      assert !IsDirIn(fs1, IndexHtml);
    }
    assert Finish(env, acc).fs == fs2 - {IndexAdoc};
  }

  /** A successful build has rendered the outline of the whole walk into index.html,
      has removed index.adoc, has mirrored every entry of the walk, and every document
      of the walk was rendered with a title. */
  lemma SuccessfulBuild(arg: string, source: Option<Tree>, fs0: Fs, removal: Option<ErrorKind>, env: Env)
    requires Generation(arg, source, fs0, removal, env).outcome == Success
    ensures source.Some? && (removal == None || removal == Some(NotFound))
    ensures var src := TrimTrailingSlashes(arg);
      var fs := Generation(arg, source, fs0, removal, env).fs;
      var page := env.render(IndexAdocName, OutlineText(src, env, source.value));
      && page.Html?
      && IndexHtml in fs && fs[IndexHtml] == FileNode(page.text)
      && IndexAdoc !in fs
      && (forall i :: 0 <= i < |Walk(source.value, src)| ==> Placed(fs, src, Walk(source.value, src)[i]))
      && (forall i :: LastAt(src, Walk(source.value, src), i) && MapTarget(src, Walk(source.value, src)[i].rel) != IndexHtml
           ==> Holds(fs, src, env, Walk(source.value, src)[i]))
      && forall i :: 0 <= i < |Walk(source.value, src)| && IsDocument(Walk(source.value, src)[i]) ==>
           !Untitled(env, Walk(source.value, src)[i])
  {
    var src := TrimTrailingSlashes(arg);
    var w := Walk(source.value, src);
    var fs1 := Cleaned(fs0, removal).value;
    var p := Run(src, env, Acc(fs1, Header, []), w);
    if p.Halted? {
      RunHaltedFails(src, env, Acc(fs1, Header, []), w);
    }
    assert Generation(arg, source, fs0, removal, env) == Finish(env, p.acc);
    CompletedBuild(src, env, fs1, w);
  }

  /** The part of a successful build after the cleanup: a completed walk from `fs1`
      followed by successful index pages. */
  lemma CompletedBuild(src: string, env: Env, fs1: Fs, w: seq<Entry>)
    requires Run(src, env, Acc(fs1, Header, []), w).Going?
    requires Finish(env, Run(src, env, Acc(fs1, Header, []), w).acc).outcome == Success
    ensures var fs := Finish(env, Run(src, env, Acc(fs1, Header, []), w).acc).fs;
      var page := env.render(IndexAdocName, IndexText(Header + Lines(src, env, w)));
      && page.Html?
      && IndexHtml in fs && fs[IndexHtml] == FileNode(page.text)
      && IndexAdoc !in fs
      && (forall i :: 0 <= i < |w| ==> Placed(fs, src, w[i]))
      && (forall i :: LastAt(src, w, i) && MapTarget(src, w[i].rel) != IndexHtml ==> Holds(fs, src, env, w[i]))
      && forall i :: 0 <= i < |w| && IsDocument(w[i]) ==> !Untitled(env, w[i])
  {
    var init := Acc(fs1, Header, []);
    var p := Run(src, env, init, w);
    RunLines(src, env, init, w);
    RunPlaces(src, env, init, w);
    FinishSuccess(env, p.acc);
    IndexAdocIsAdoc();
    RunMirrors(src, env, init, w);
    forall i | 0 <= i < |w| ensures MapTarget(src, w[i].rel) != IndexAdoc {
      MapTargetExtension(src, w[i].rel);
    }
    RunTitled(src, env, init, w);
  }

  /** The page of a document whose rendered text has no title is at `target` in `fs`. */
  predicate TitlelessPage(env: Env, e: Entry, target: Path, fs: Fs)
  {
    && IsDocument(e)
    && env.render(e.rel, e.data).Html?
    && env.title(env.render(e.rel, e.data).text).None?
    && target in fs
    && fs[target] == FileNode(env.render(e.rel, e.data).text)
  }

  lemma VisitNoTitle(src: string, env: Env, acc: Acc, e: Entry, target: Path)
    requires Visit(src, env, acc, e, target).Halted?
    requires Visit(src, env, acc, e, target).outcome == Failed(NoTitle)
    ensures TitlelessPage(env, e, target, Visit(src, env, acc, e, target).fs)
  {
  }

  /** A step that fails for a missing title has written the title-less page. */
  lemma StepNoTitle(src: string, env: Env, acc: Acc, e: Entry)
    requires Step(src, env, acc, e).Halted?
    requires Step(src, env, acc, e).outcome == Failed(NoTitle)
    ensures TitlelessPage(env, e, MapTarget(src, e.rel), Step(src, env, acc, e).fs)
  {
    StepCases(src, env, acc, e);
    VisitNoTitle(src, env, Pushed(src, acc, e), e, MapTarget(src, e.rel));
  }

  /** A walk that stops for a missing title stopped at a document whose page it had
      just written, and it has not written index.adoc. */
  lemma {:induction false} RunNoTitle(src: string, env: Env, acc: Acc, es: seq<Entry>)
    requires Run(src, env, acc, es).Halted?
    requires Run(src, env, acc, es).outcome == Failed(NoTitle)
    ensures IndexAdoc !in acc.fs ==> IndexAdoc !in Run(src, env, acc, es).fs
    ensures exists i :: 0 <= i < |es| && TitlelessPage(env, es[i], MapTarget(src, es[i].rel), Run(src, env, acc, es).fs)
    decreases |es|
  {
    var p := Step(src, env, acc, es[0]);
    if IndexAdoc !in acc.fs {
      StepAvoidsIndexAdoc(src, env, acc, es[0]);
    }
    if p.Going? {
      assert Run(src, env, acc, es) == Run(src, env, p.acc, es[1..]);
      RunNoTitle(src, env, p.acc, es[1..]);
      var fs := Run(src, env, acc, es).fs;
      var i :| 0 <= i < |es[1..]| && TitlelessPage(env, es[1..][i], MapTarget(src, es[1..][i].rel), fs);
      assert es[1..][i] == es[i + 1];
    } else {
      assert Run(src, env, acc, es) == p;
      StepNoTitle(src, env, acc, es[0]);
    }
  }

  /** A build that fails for a missing title had a source and a tolerated cleanup; its
      walk stopped at a document whose title-less page it had just written, and it never
      wrote index.adoc over a working directory that did not already hold one, so no
      index is produced. */
  lemma MissingTitleStopsBuild(arg: string, source: Option<Tree>, fs0: Fs, removal: Option<ErrorKind>, env: Env)
    requires Generation(arg, source, fs0, removal, env).outcome == Failed(NoTitle)
    ensures source.Some? && Cleaned(fs0, removal).Some?
    ensures removal == None || removal == Some(NotFound)
    ensures var src := TrimTrailingSlashes(arg); var w := Walk(source.value, src);
      var fs := Generation(arg, source, fs0, removal, env).fs;
      && Run(src, env, Acc(Cleaned(fs0, removal).value, Header, []), w).Halted?
      && (IndexAdoc !in Cleaned(fs0, removal).value ==> IndexAdoc !in fs)
      && exists i :: 0 <= i < |w| && TitlelessPage(env, w[i], MapTarget(src, w[i].rel), fs)
  {
    var src := TrimTrailingSlashes(arg);
    var w := Walk(source.value, src);
    var init := Acc(Cleaned(fs0, removal).value, Header, []);
    FinishNeverNoTitle(env);
    RunNoTitle(src, env, init, w);
  }

  /** The first build ever, where `remove_dir_all` finds no build directory: a missing
      title leaves no index.adoc. */
  lemma FirstBuildNoTitle(arg: string, source: Option<Tree>, fs0: Fs, env: Env)
    requires Generation(arg, source, fs0, Some(NotFound), env).outcome == Failed(NoTitle)
    requires IndexAdoc !in fs0
    ensures IndexAdoc !in Generation(arg, source, fs0, Some(NotFound), env).fs
  {
    MissingTitleStopsBuild(arg, source, fs0, Some(NotFound), env);
  }

  /** A document whose page cannot be rendered or has no title. */
  predicate Untitled(env: Env, e: Entry)
  {
    && IsDocument(e)
    && !(env.render(e.rel, e.data).Html? && env.title(env.render(e.rel, e.data).text).Some?)
  }

  lemma VisitUntitledHalts(src: string, env: Env, acc: Acc, e: Entry, target: Path)
    requires Untitled(env, e)
    ensures Visit(src, env, acc, e, target).Halted?
  {
  }

  /** The loop never goes past a document that cannot be rendered or has no title
      (src/main.rs:78-80). */
  lemma StepUntitledHalts(src: string, env: Env, acc: Acc, e: Entry)
    requires Untitled(env, e)
    ensures Step(src, env, acc, e).Halted?
  {
    StepCases(src, env, acc, e);
    VisitUntitledHalts(src, env, Pushed(src, acc, e), e, MapTarget(src, e.rel));
  }

  /** A walk with such a document anywhere in it stops. */
  lemma {:induction false} RunUntitledHalts(src: string, env: Env, acc: Acc, es: seq<Entry>, i: int)
    requires 0 <= i < |es| && Untitled(env, es[i])
    ensures Run(src, env, acc, es).Halted?
    decreases |es|
  {
    var p := Step(src, env, acc, es[0]);
    if i == 0 {
      StepUntitledHalts(src, env, acc, es[0]);
    } else if p.Going? {
      assert es[1..][i - 1] == es[i];
      RunUntitledHalts(src, env, p.acc, es[1..], i - 1);
    }
  }

  /** A walk that completes rendered every one of its documents with a title. */
  lemma RunTitled(src: string, env: Env, acc: Acc, es: seq<Entry>)
    requires Run(src, env, acc, es).Going?
    ensures forall i :: 0 <= i < |es| && IsDocument(es[i]) ==> !Untitled(env, es[i])
  {
    forall i | 0 <= i < |es| && IsDocument(es[i]) ensures !Untitled(env, es[i]) {
      if Untitled(env, es[i]) {
        RunUntitledHalts(src, env, acc, es, i);
      }
    }
  }

  /** A build whose walk holds a document that cannot be rendered or has no title never
      succeeds, whatever the cleanup reported: its walk stops, so the index pages are
      never written. */
  lemma UntitledNoSuccess(arg: string, source: Option<Tree>, fs0: Fs, removal: Option<ErrorKind>, env: Env, i: int)
    requires source.Some?
    requires 0 <= i < |Walk(source.value, TrimTrailingSlashes(arg))|
    requires Untitled(env, Walk(source.value, TrimTrailingSlashes(arg))[i])
    ensures Generation(arg, source, fs0, removal, env).outcome != Success
    ensures Cleaned(fs0, removal).Some? ==>
      Run(TrimTrailingSlashes(arg), env, Acc(Cleaned(fs0, removal).value, Header, []),
          Walk(source.value, TrimTrailingSlashes(arg))).Halted?
  {
    var src := TrimTrailingSlashes(arg);
    var w := Walk(source.value, src);
    if Cleaned(fs0, removal).Some? {
      var init := Acc(Cleaned(fs0, removal).value, Header, []);
      RunUntitledHalts(src, env, init, w, i);
      RunHaltedFails(src, env, init, w);
    }
  }

  /** The index pages never fail for a missing title. */
  lemma FinishNeverNoTitle(env: Env)
    ensures forall acc :: Finish(env, acc).outcome != Failed(NoTitle)
  {
  }

  /** The build path of a directory `src/name` whose name has extension "adoc". */
  lemma AdocDirectoryTarget(src: string, name: string)
    requires IsSegment(src) && IsSegment(name) && Extension([name]) == Some("adoc")
    requires forall k :: !Occurs("/" + name, src, k)
    ensures MapTarget(src, src + "/" + name) == [BuildDir, FileStem(name) + ".html"]
  {
    MappedLeadingOnly(src, "/" + name);
    assert src + "/" + name == src + ("/" + name);
    assert Components("/" + name) == Components(name);
    ComponentsOfSegment(name);
    var m := [BuildDir, name];
    assert Mapped(src, src + "/" + name) == m;
    assert Extension(m) == Extension([name]);
    SetHtmlExtension(m);
  }

  /** A directory whose name has extension "adoc" is mirrored as a directory with
      extension "html", exactly as a document would be renamed. */
  lemma AdocDirectoryBecomesHtml(src: string, name: string, env: Env, acc: Acc, e: Entry)
    requires IsSegment(src) && IsSegment(name) && Extension([name]) == Some("adoc")
    requires forall k :: !Occurs("/" + name, src, k)
    requires e.rel == src + "/" + name && e.kind == DirKind
    ensures var t := [BuildDir, FileStem(name) + ".html"];
      Step(src, env, acc, e).Going? ==>
        t in Step(src, env, acc, e).acc.fs && Step(src, env, acc, e).acc.fs[t] == DirNode
  {
    AdocDirectoryTarget(src, name);
    StepMirrorsDirectory(src, env, acc, e);
  }
}
