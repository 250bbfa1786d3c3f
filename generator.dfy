/** `generate_html` (src/main.rs:11-104) as the program runs it: a loop over the walk
    that updates the file system, `index_adoc` and `html_list` entry by entry, proved
    to compute exactly what the functions of module Build describe. */
module Generator {
  import opened Wrappers
  import opened Text
  import opened Paths
  import opened SourceTree
  import opened FileSystem
  import opened Outline
  import opened Build

  /** The entry's directory branch, document branch or copy (src/main.rs:63-95).
      `stop` is how the build ends when it ends here. */
  method VisitEntry(src: string, env: Env, fs: Fs, index: seq<string>, htmlList: seq<string>, e: Entry, target: Path)
    returns (stop: Option<Outcome>, fs': Fs, index': seq<string>)
    ensures var v := Visit(src, env, Acc(fs, index, htmlList), e, target);
      if stop.None? then v == Going(Acc(fs', index', htmlList)) else v == Halted(stop.value, fs')
  {
    stop, fs', index' := None, fs, index;
    if IsDirEntry(e) {
      var level := Level(e.rel);
      var caption := DirCaption(src, e.rel);
      if level.None? || caption.None? {
        stop := Some(Panicked);
        return;
      }
      var r := CreateDir(fs, target);
      if r.Fail? {
        stop := Some(Failed(FsFailed(r.kind)));
        return;
      }
      index' := index + [DirLine(level.value, caption.value)];
      fs' := r.fs;
    } else if Extension(Components(e.rel)) == Some("adoc") {
      var rendered := env.render(e.rel, e.data);
      if rendered.LaunchFailed? {
        stop := Some(Panicked);
        return;
      } else if rendered.NotUtf8? {
        stop := Some(Failed(RendererOutputNotUtf8));
        return;
      }
      var r := WriteFile(fs, target, rendered.text);
      if r.Fail? {
        stop := Some(Failed(FsFailed(r.kind)));
        return;
      }
      fs' := r.fs;
      var title := env.title(rendered.text);
      if title.None? {
        stop := Some(Failed(NoTitle));
        return;
      }
      var level := Level(e.rel);
      var x := Xref(target);
      if level.None? || x.None? {
        stop := Some(Panicked);
        return;
      }
      index' := index + [DocLine(level.value, x.value, title.value)];
    } else if e.kind == DirKind {
      stop := Some(Failed(FsFailed(NotFound)));
    } else {
      var r := WriteFile(fs, target, e.data);
      if r.Fail? {
        stop := Some(Failed(FsFailed(r.kind)));
        return;
      }
      fs' := r.fs;
    }
  }

  /** One iteration of the walk loop (src/main.rs:43-95): compute the build path, record
      a page in `html_list`, then the entry's branch. */
  method StepEntry(src: string, env: Env, fs: Fs, index: seq<string>, htmlList: seq<string>, e: Entry)
    returns (stop: Option<Outcome>, fs': Fs, index': seq<string>, htmlList': seq<string>)
    ensures var p := Step(src, env, Acc(fs, index, htmlList), e);
      if stop.None? then p == Going(Acc(fs', index', htmlList')) else p == Halted(stop.value, fs')
  {
    var target := MapTarget(src, e.rel);
    htmlList' := htmlList;
    if Extension(Mapped(src, e.rel)) == Some("adoc") {
      var x := Xref(target);
      if x.None? {
        stop, fs', index' := Some(Panicked), fs, index;
        return;
      }
      htmlList' := htmlList + [x.value];
    }
    stop, fs', index' := VisitEntry(src, env, fs, index, htmlList', e, target);
  }

  /** `generate_index_html` (src/main.rs:148-167) once index.adoc holds `text`. */
  method GenerateIndexHtml(env: Env, fs: Fs, text: string) returns (outcome: Outcome, fs': Fs)
    ensures BuildResult(outcome, fs') == IndexPage(env, fs, text)
  {
    fs' := fs;
    var rendered := env.render(IndexAdocName, text);
    if rendered.LaunchFailed? {
      return Panicked, fs';
    } else if rendered.NotUtf8? {
      return Failed(RendererOutputNotUtf8), fs';
    }
    var r := WriteFile(fs', IndexHtml, rendered.text);
    if r.Fail? {
      return Failed(FsFailed(r.kind)), fs';
    }
    fs' := r.fs;
    r := RemoveFile(fs', IndexAdoc);
    if r.Fail? {
      return Failed(FsFailed(r.kind)), fs';
    }
    return Success, r.fs;
  }

  /** The walk loop (src/main.rs:37-96) from the cleaned file system `fs0`, with
      `index_adoc` starting as the heading and `html_list` empty. */
  method WalkLoop(src: string, env: Env, fs0: Fs, walk: seq<Entry>)
    returns (stop: Option<Outcome>, fs: Fs, index: seq<string>, htmlList: seq<string>)
    ensures var p := Run(src, env, Acc(fs0, Header, []), walk);
      if stop.None? then p == Going(Acc(fs, index, htmlList)) else p == Halted(stop.value, fs)
  {
    fs, index, htmlList := fs0, Header, [];
    var i := 0;
    while i < |walk|
      invariant 0 <= i <= |walk|
      invariant Run(src, env, Acc(fs, index, htmlList), walk[i..]) == Run(src, env, Acc(fs0, Header, []), walk)
      decreases |walk| - i
    {
      assert walk[i..][1..] == walk[i + 1..];
      stop, fs, index, htmlList := StepEntry(src, env, fs, index, htmlList, walk[i]);
      if stop.Some? {
        return;
      }
      i := i + 1;
    }
    stop := None;
  }

  /** `generate_html(arg)`: `source` is the tree at the source path if there is one,
      `fs0` the working directory before the build and `removal` what
      `remove_dir_all("build")` reports. */
  method GenerateHtml(arg: string, source: Option<Tree>, fs0: Fs, removal: Option<ErrorKind>, env: Env)
    returns (outcome: Outcome, fs: Fs)
    ensures BuildResult(outcome, fs) == Generation(arg, source, fs0, removal, env)
    ensures source.None? ==> outcome == Failed(SourceNotFound) && fs == fs0
    ensures source.Some? && removal.Some? && removal.value != NotFound ==>
      outcome == Failed(CleanupFailed(removal.value)) && fs == fs0
  {
    var src := TrimTrailingSlashes(arg);
    if source.None? {
      return Failed(SourceNotFound), fs0;
    }
    fs := fs0;
    if removal.None? {
      fs := WithoutBuild(fs0);
    } else if removal.value != NotFound {
      return Failed(CleanupFailed(removal.value)), fs0;
    }
    var stop, index, htmlList;
    stop, fs, index, htmlList := WalkLoop(src, env, fs, Walk(source.value, src));
    if stop.Some? {
      return stop.value, fs;
    }
    var text := IndexText(index);
    var r := WriteFile(fs, IndexAdoc, text);
    if r.Fail? {
      return Failed(FsFailed(r.kind)), fs;
    }
    outcome, fs := GenerateIndexHtml(env, r.fs, text);
  }
}
