/** Paths as the build sees them: a path string is read as its list of components (the
    way Rust's `Path::components` reads it), file names carry an extension, and a source
    path is mapped to its build path by the rewrite of src/main.rs. */
module Paths {
  import opened Wrappers
  import opened Text

  /** The fixed name of the build directory in the working directory. */
  const BuildDir: string := "build"

  /** A path component: a non-empty name without separator. */
  predicate IsSegment(c: string)
  {
    c != [] && '/' !in c
  }

  /** Index of the first '/' in `s`, or |s| if there is none. */
  function FirstSlash(s: string): (k: nat)
    ensures k <= |s|
    ensures forall i :: 0 <= i < k ==> s[i] != '/'
    ensures k < |s| ==> s[k] == '/'
    decreases |s|
  {
    if s == [] || s[0] == '/' then 0 else 1 + FirstSlash(s[1..])
  }

  /** The components of a path string: the pieces between separators, with the empty
      pieces that repeated, leading or trailing separators make left out. */
  function Components(s: string): (cs: seq<string>)
    ensures forall i :: 0 <= i < |cs| ==> IsSegment(cs[i])
    decreases |s|
  {
    if s == [] then []
    else if s[0] == '/' then Components(s[1..])
    else
      var k := FirstSlash(s);
      [s[..k]] + Components(s[k..])
  }

  /** The first-slash index is the only index with its two properties. */
  lemma FirstSlashIs(s: string, k: nat)
    requires k <= |s|
    requires forall i :: 0 <= i < k ==> s[i] != '/'
    requires k < |s| ==> s[k] == '/'
    ensures FirstSlash(s) == k
  {
  }

  /** A single segment is one component. */
  lemma ComponentsOfSegment(c: string)
    requires IsSegment(c)
    ensures Components(c) == [c]
  {
    FirstSlashIs(c, |c|);
    assert c[..|c|] == c;
  }

  /** Components of `a/b` are the components of `a` followed by those of `b`. */
  lemma {:induction false} ComponentsConcat(a: string, b: string)
    ensures Components(a + "/" + b) == Components(a) + Components(b)
    decreases |a|
  {
    var s := a + "/" + b;
    if a == [] {
      assert s[1..] == b;
    } else if a[0] == '/' {
      assert s[1..] == a[1..] + "/" + b;
      ComponentsConcat(a[1..], b);
    } else {
      var k := FirstSlash(a);
      FirstSlashIs(s, k);
      assert s[..k] == a[..k];
      if k < |a| {
        assert s[k..] == a[k..] + "/" + b;
        ComponentsConcat(a[k..], b);
      } else {
        assert a[..k] == a;
        assert s[k..] == "/" + b;
        assert ("/" + b)[1..] == b;
      }
    }
  }

  /** Reading back the string of joined segments gives the segments: Join and
      Components are inverse on lists of segments. */
  lemma {:induction false} ComponentsOfJoin(cs: seq<string>)
    requires forall i :: 0 <= i < |cs| ==> IsSegment(cs[i])
    ensures Components(Join(cs, "/")) == cs
  {
    if |cs| == 1 {
      ComponentsOfSegment(cs[0]);
    } else if |cs| > 1 {
      ComponentsOfJoin(cs[1..]);
      ComponentsConcat(cs[0], Join(cs[1..], "/"));
      ComponentsOfSegment(cs[0]);
    }
  }

  /** Rust's `Path::strip_prefix`, component by component. */
  function StripPrefix(p: seq<string>, base: seq<string>): (r: Option<seq<string>>)
    ensures r.Some? <==> base <= p
    ensures r.Some? ==> base + r.value == p
  {
    if base <= p then Some(p[|base|..]) else None
  }

  /** Index of the last '.' in `name`, if any. */
  function LastDot(name: string): (r: Option<nat>)
    ensures r.Some? ==> r.value < |name| && name[r.value] == '.'
    ensures r.Some? ==> forall i :: r.value < i < |name| ==> name[i] != '.'
    ensures r.None? ==> forall i :: 0 <= i < |name| ==> name[i] != '.'
    decreases |name|
  {
    if name == [] then None
    else if name[|name| - 1] == '.' then Some(|name| - 1)
    else LastDot(name[..|name| - 1])
  }

  /** The last-dot index is the only index with its properties. */
  lemma {:induction false} LastDotIs(name: string, k: nat)
    requires k < |name| && name[k] == '.'
    requires forall i :: k < i < |name| ==> name[i] != '.'
    ensures LastDot(name) == Some(k)
    decreases |name|
  {
    if k < |name| - 1 {
      assert name[..|name| - 1][k] == '.';
      LastDotIs(name[..|name| - 1], k);
    }
  }

  /** Rust's `Path::file_name`: the last component, unless there is none or it is "..". */
  function FileName(p: seq<string>): Option<string>
  {
    if p == [] || p[|p| - 1] == ".." then None else Some(p[|p| - 1])
  }

  /** Rust's `Path::extension`: what follows the last '.' of the file name, where a name
      whose only '.' is its first character has none. */
  function Extension(p: seq<string>): Option<string>
  {
    match FileName(p)
    case None => None
    case Some(n) =>
      match LastDot(n)
      case None => None
      case Some(i) => if i == 0 then None else Some(n[i + 1..])
  }

  /** Rust's `file_stem` for a file name: the name without its extension. */
  function FileStem(n: string): string
  {
    match LastDot(n)
    case None => n
    case Some(i) => if i == 0 then n else n[..i]
  }

  /** Rust's `PathBuf::set_extension`: the file name's extension becomes `ext`; a path
      without file name is left unchanged. */
  function SetExtension(p: seq<string>, ext: string): seq<string>
  {
    match FileName(p)
    case None => p
    case Some(n) => p[..|p| - 1] + [FileStem(n) + (if ext == [] then [] else "." + ext)]
  }

  /** Setting extension "html" on a path with extension "adoc" keeps every component but
      the last, keeps the file stem, and leaves extension "html". */
  lemma SetHtmlExtension(p: seq<string>)
    requires Extension(p) == Some("adoc")
    ensures var q := SetExtension(p, "html");
      && |q| == |p| && q[..|p| - 1] == p[..|p| - 1]
      && q[|q| - 1] == FileStem(p[|p| - 1]) + ".html"
      && Extension(q) == Some("html")
  {
    var n := p[|p| - 1];
    var i := LastDot(n).value;
    var m := n[..i] + ".html";
    assert n[i + 1..] == "adoc";
    assert FileName(p) == Some(n);
    assert FileStem(n) == n[..i];
    LastDotIs(m, i);
    assert m[i + 1..] == "html";
    assert "." + "html" == ".html";
    assert FileStem(n) + (if "html" == [] then [] else "." + "html") == m;
    assert SetExtension(p, "html") == p[..|p| - 1] + [m];
  }

  /** The path string after the whole-string replace of src/main.rs:44-48: every
      occurrence of the source name becomes the build directory name. */
  function Mapped(src: string, rel: string): seq<string>
  {
    Components(ReplaceAll(rel, src, BuildDir))
  }

  /** The build path of an entry (src/main.rs:43-61): the mapped path, with an "adoc"
      extension rewritten to "html". */
  function MapTarget(src: string, rel: string): seq<string>
  {
    var m := Mapped(src, rel);
    if Extension(m) == Some("adoc") then SetExtension(m, "html") else m
  }

  /** The extension rewrite: a mapped path with extension "adoc" gets extension "html"
      with the stem and all other components kept; every other path is kept as it is.
      Nothing here looks at whether the entry is a file or a directory. */
  lemma MapTargetExtension(src: string, rel: string)
    ensures var m, t := Mapped(src, rel), MapTarget(src, rel);
      && (Extension(m) == Some("adoc") ==>
            |t| == |m| && t[..|m| - 1] == m[..|m| - 1]
            && t[|t| - 1] == FileStem(m[|m| - 1]) + ".html" && Extension(t) == Some("html"))
      && (Extension(m) != Some("adoc") ==> t == m)
      && Extension(t) != Some("adoc")
  {
    if Extension(Mapped(src, rel)) == Some("adoc") {
      SetHtmlExtension(Mapped(src, rel));
    }
  }

  /** The component-wise mapping: the leading components that spell the source name
      are replaced by the build directory, and nothing else. */
  function AnchoredMapped(src: string, rel: string): Option<seq<string>>
  {
    match StripPrefix(Components(rel), Components(src))
    case None => None
    case Some(rest) => Some([BuildDir] + rest)
  }

  /** `tail` continues a path after a full component: it is empty or starts with '/'. */
  predicate StartsComponent(tail: string)
  {
    tail == [] || tail[0] == '/'
  }

  /** Components of `a + tail` when `tail` starts a new component. */
  lemma ComponentsAppend(a: string, tail: string)
    requires StartsComponent(tail)
    ensures Components(a + tail) == Components(a) + Components(tail)
  {
    if tail == [] {
      assert a + tail == a;
    } else {
      assert a + tail == a + "/" + tail[1..];
      ComponentsConcat(a, tail[1..]);
      assert Components(tail) == Components(tail[1..]);
    }
  }

  /** When the source name occurs in a root-relative path only as its leading part,
      the whole-string replace agrees with the component-wise mapping: the
      result is "build" followed by the unchanged remaining components. */
  lemma MappedLeadingOnly(src: string, tail: string)
    requires src != []
    requires StartsComponent(tail)
    requires forall k :: !Occurs(tail, src, k)
    ensures Mapped(src, src + tail) == [BuildDir] + Components(tail)
    ensures AnchoredMapped(src, src + tail) == Some(Mapped(src, src + tail))
  {
    ReplaceLeadingOnly(tail, src, BuildDir);
    ComponentsAppend(BuildDir, tail);
    ComponentsOfSegment(BuildDir);
    ComponentsAppend(src, tail);
    assert Components(src + tail)[|Components(src)|..] == Components(tail);
  }

  /** Whatever follows the source name, the build path of a path below the source
      starts with the build directory, provided the name does not itself start with '/'. */
  lemma MappedUnderBuild(src: string, tail: string)
    requires src != [] && src[0] != '/'
    requires StartsComponent(tail)
    ensures var t := MapTarget(src, src + tail); |t| > 0 && t[0] == BuildDir
  {
    MappedStartsWithBuild(src, tail);
    FirstComponentKept(src, src + tail);
  }

  lemma MappedStartsWithBuild(src: string, tail: string)
    requires src != [] && src[0] != '/'
    requires StartsComponent(tail)
    ensures var m := Mapped(src, src + tail); |m| > 0 && m[0] == BuildDir
  {
    var s := src + tail;
    assert src <= s;
    assert s[|src|..] == tail;
    assert ReplaceAll(s, src, BuildDir) == BuildDir + ReplaceAll(tail, src, BuildDir);
    if tail == [] {
      ComponentsOfSegment(BuildDir);
      assert BuildDir + [] == BuildDir;
    } else {
      assert !(src <= tail);
      var rest := ReplaceAll(tail[1..], src, BuildDir);
      assert ReplaceAll(tail, src, BuildDir) == "/" + rest;
      assert BuildDir + ("/" + rest) == BuildDir + "/" + rest;
      ComponentsConcat(BuildDir, rest);
      ComponentsOfSegment(BuildDir);
    }
  }

  /** The extension rewrite never touches a leading "build" component. */
  lemma FirstComponentKept(src: string, rel: string)
    requires var m := Mapped(src, rel); |m| > 0 && m[0] == BuildDir
    ensures var t := MapTarget(src, rel); |t| > 0 && t[0] == BuildDir
  {
    var m := Mapped(src, rel);
    MapTargetExtension(src, rel);
    assert forall i :: 0 <= i < |BuildDir| ==> BuildDir[i] != '.';
    assert LastDot(BuildDir) == None;
    if |m| == 1 {
      assert Extension(m) == None;
    }
  }

  /** After a separator the scan starts afresh: a leading source name followed by '/' is
      replaced and the rest is scanned on. */
  lemma ReplaceAfterSeparator(src: string, x: string)
    requires src != [] && src[0] != '/'
    ensures ReplaceAll(src + "/" + x, src, BuildDir) == BuildDir + "/" + ReplaceAll(x, src, BuildDir)
  {
    ReplaceSkip('/', x, src, BuildDir);
    assert "/" + x == ['/'] + x;
    ReplaceMatch(src, "/" + x, BuildDir);
    assert src + "/" + x == src + ("/" + x);
  }

  /** Both the leading source name and an inner component spelling it are replaced. */
  lemma ReplaceInnerName(src: string, file: string)
    requires IsSegment(src) && IsSegment(file)
    requires forall k :: !Occurs(file, src, k)
    ensures ReplaceAll(src + "/" + (src + "/" + file), src, BuildDir) == BuildDir + "/" + (BuildDir + "/" + file)
  {
    ReplaceAbsent(file, src, BuildDir);
    ReplaceAfterSeparator(src, file);
    ReplaceAfterSeparator(src, src + "/" + file);
  }

  /** Components of `a/b/c` for segments a, b and c. */
  lemma ComponentsOfNested(a: string, b: string, c: string)
    requires IsSegment(a) && IsSegment(b) && IsSegment(c)
    ensures Components(a + "/" + (b + "/" + c)) == [a, b, c]
  {
    ComponentsOfThree(a, b, c);
    assert a + "/" + (b + "/" + c) == a + "/" + b + "/" + c;
  }

  /** The replace is not anchored: a directory directly below the source that has the
      source's own name is renamed to the build directory as well, where the
      component-wise mapping keeps it. */
  lemma InnerSourceNameRewritten(src: string, file: string)
    requires IsSegment(src) && IsSegment(file)
    requires forall k :: !Occurs(file, src, k)
    ensures Mapped(src, src + "/" + (src + "/" + file)) == [BuildDir, BuildDir, file]
    ensures AnchoredMapped(src, src + "/" + (src + "/" + file)) == Some([BuildDir, src, file])
  {
    ReplaceInnerName(src, file);
    ComponentsOfNested(BuildDir, BuildDir, file);
    ComponentsOfNested(src, src, file);
    ComponentsOfSegment(src);
    assert [src] <= [src, src, file];
    assert [src, src, file][1..] == [src, file];
    assert Components(src) == [src];
    assert StripPrefix([src, src, file], [src]) == Some([src, file]);
    assert [BuildDir] + [src, file] == [BuildDir, src, file];
  }

  /** Components of a three-segment path. */
  lemma ComponentsOfThree(a: string, b: string, c: string)
    requires IsSegment(a) && IsSegment(b) && IsSegment(c)
    ensures Components(a + "/" + b + "/" + c) == [a, b, c]
  {
    ComponentsConcat(a, b + "/" + c);
    ComponentsConcat(b, c);
    ComponentsOfSegment(a);
    ComponentsOfSegment(b);
    ComponentsOfSegment(c);
    assert a + "/" + b + "/" + c == a + "/" + (b + "/" + c);
  }

  /** "docs" does not occur in "intro.adoc". */
  lemma NoDocsInIntro()
    ensures forall k :: !Occurs("intro.adoc", "docs", k)
  {
    var f := "intro.adoc";
    assert forall i :: 0 <= i < 7 ==> f[i] != 'd';
    forall k ensures !Occurs(f, "docs", k) {
      if 0 <= k && k + 4 <= |f| {
        assert f[k..k + 4][0] == f[k];
      }
    }
  }

  /** Under source name "docs", the document
      "docs/docs/intro.adoc" goes to "build/build/intro.html", not to
      "build/docs/intro.html". */
  lemma InnerDocsExample()
    ensures MapTarget("docs", "docs" + "/" + ("docs" + "/" + "intro.adoc")) == [BuildDir, BuildDir, "intro.html"]
    ensures AnchoredMapped("docs", "docs" + "/" + ("docs" + "/" + "intro.adoc")) == Some([BuildDir, "docs", "intro.adoc"])
  {
    NoDocsInIntro();
    InnerSourceNameRewritten("docs", "intro.adoc");
    var m := [BuildDir, BuildDir, "intro.adoc"];
    LastDotIs("intro.adoc", 5);
    assert "intro.adoc"[6..] == "adoc";
    assert Extension(m) == Some("adoc");
    SetHtmlExtension(m);
    assert "intro.adoc"[..5] == "intro";
    assert FileStem("intro.adoc") == "intro";
    var q := SetExtension(m, "html");
    assert q[..2] == [BuildDir, BuildDir];
    assert q[2] == "intro.html";
    assert q == [BuildDir, BuildDir, "intro.html"];
  }
}
