/** The outline document `index.adoc` that the build accumulates: a heading, a blank
    line, and one AsciiDoc list item per directory and document, whose nesting is the
    number of leading '*'. */
module Outline {
  import opened Text

  /** The first two lines of `index_adoc` (src/main.rs:35). */
  const Header: seq<string> := ["= Index", ""]

  /** `"*".repeat(n)`. */
  function Stars(n: nat): (r: string)
    ensures |r| == n && forall i :: 0 <= i < n ==> r[i] == '*'
  {
    if n == 0 then [] else Stars(n - 1) + "*"
  }

  /** The line of a directory: `format!("{} {}", stars, caption)` (src/main.rs:66-73). */
  function DirLine(level: nat, caption: string): string
  {
    Stars(level) + " " + caption
  }

  /** The line of a document: `format!("{} xref:{}[{}]", stars, target, title)`
      (src/main.rs:84-92). */
  function DocLine(level: nat, target: string, title: string): string
  {
    Stars(level) + " xref:" + target + "[" + title + "]"
  }

  /** The nesting depth an outline reader sees: the number of leading '*'. */
  function LeadingStars(line: string): nat
  {
    if line != [] && line[0] == '*' then 1 + LeadingStars(line[1..]) else 0
  }

  /** A line of `n` stars followed by a space has depth `n`. */
  lemma {:induction false} LeadingStarsOf(n: nat, rest: string)
    requires rest != [] && rest[0] == ' '
    ensures LeadingStars(Stars(n) + rest) == n
  {
    if n > 0 {
      assert Stars(n) + rest == "*" + (Stars(n - 1) + rest) by {
        var a, b := Stars(n) + rest, "*" + (Stars(n - 1) + rest);
        assert |a| == |b|;
        forall i | 0 <= i < |a| ensures a[i] == b[i] {
          if i < n {
            assert a[i] == '*';
            if i > 0 { assert b[i] == Stars(n - 1)[i - 1]; }
          }
        }
      }
      assert ("*" + (Stars(n - 1) + rest))[1..] == Stars(n - 1) + rest;
      LeadingStarsOf(n - 1, rest);
    } else {
      assert Stars(0) + rest == rest;
    }
  }

  /** Directory and document lines have the depth they were built with. */
  lemma LineDepth(level: nat, caption: string, target: string, title: string)
    ensures LeadingStars(DirLine(level, caption)) == level
    ensures LeadingStars(DocLine(level, target, title)) == level
  {
    assert DirLine(level, caption) == Stars(level) + (" " + caption);
    LeadingStarsOf(level, " " + caption);
    assert DocLine(level, target, title) == Stars(level) + (" xref:" + target + "[" + title + "]");
    LeadingStarsOf(level, " xref:" + target + "[" + title + "]");
  }

  /** The text `writeln!` puts into index.adoc (src/main.rs:101): the lines joined by
      newlines, and a final newline. */
  function IndexText(lines: seq<string>): string
  {
    Join(lines, "\n") + "\n"
  }

  /** The index document is the heading, a blank line, the entry lines one per line,
      each ended by a newline. */
  lemma IndexTextShape(entries: seq<string>)
    requires entries != []
    ensures IndexText(Header + entries) == "= Index" + "\n\n" + Join(entries, "\n") + "\n"
  {
    HeaderJoin("= Index", entries);
  }

  /** With no entry lines the index document is the heading and one blank line. */
  lemma IndexTextEmpty()
    ensures IndexText(Header) == "= Index" + "\n\n"
  {
    assert Join(Header, "\n") == "= Index" + "\n" + "";
  }

  lemma HeaderJoin(h: string, entries: seq<string>)
    requires entries != []
    ensures Join([h, ""] + entries, "\n") == h + "\n\n" + Join(entries, "\n")
  {
    JoinCons("", entries, "\n");
    assert [h, ""] + entries == [h] + ([""] + entries);
    JoinCons(h, [""] + entries, "\n");
    assert h + "\n" + ("" + "\n" + Join(entries, "\n")) == h + "\n\n" + Join(entries, "\n");
  }
}
