/** The source directory as the walk sees it: a tree whose children come in the order
    the directory listing yields them, and the pre-order walk over it that produces one
    entry per node with its root-relative path. */
module SourceTree {
  import opened Paths

  /** A node of the source tree. The root's own name is not used: its path is the
      source name given on the command line. */
  datatype Tree = Dir(name: string, children: seq<Tree>) | File(name: string, data: string)

  datatype Kind = DirKind | FileKind

  /** One visited entry: its path relative to the working directory, its kind, and the
      content of a file (empty for a directory). */
  datatype Entry = Entry(rel: string, kind: Kind, data: string)

  /** Every name below the root is a single path component, as a directory listing
      guarantees. */
  predicate WellFormed(t: Tree)
  {
    match t
    case File(_, _) => true
    case Dir(_, cs) => forall i :: 0 <= i < |cs| ==> IsSegment(cs[i].name) && WellFormed(cs[i])
  }

  /** Rust's `Path::join` of one plain name onto a relative path. */
  function ChildPath(parent: string, name: string): string
  {
    if parent == [] then name else parent + "/" + name
  }

  function EntryOf(t: Tree, rel: string): Entry
  {
    match t
    case Dir(_, _) => Entry(rel, DirKind, [])
    case File(_, data) => Entry(rel, FileKind, data)
  }

  /** The depth-first pre-order walk (WalkDir's order): the node, then the walks of its
      children in listing order. */
  function Walk(t: Tree, rel: string): seq<Entry>
    decreases t, 1
  {
    [EntryOf(t, rel)] + (if t.Dir? then WalkChildren(t.children, rel) else [])
  }

  function WalkChildren(cs: seq<Tree>, parent: string): seq<Entry>
    decreases cs, 0
  {
    if cs == [] then [] else Walk(cs[0], ChildPath(parent, cs[0].name)) + WalkChildren(cs[1..], parent)
  }

  /** `x` is `rel` itself or a path below it. */
  predicate Below(rel: string, x: string)
  {
    rel <= x && StartsComponent(x[|rel|..])
  }

  lemma BelowTrans(a: string, b: string, c: string)
    requires Below(a, b) && Below(b, c)
    ensures Below(a, c)
  {
    assert c[|a|..] == b[|a|..] + c[|b|..];
    if b[|a|..] == [] {
      assert c[|a|..] == c[|b|..];
    }
  }

  /** Every entry of the walk from a non-empty path lies at or below that path, and the
      first entry is the node itself. */
  lemma {:induction false} WalkBelow(t: Tree, rel: string)
    requires rel != []
    ensures Walk(t, rel)[0] == EntryOf(t, rel)
    ensures forall i :: 0 <= i < |Walk(t, rel)| ==> Below(rel, Walk(t, rel)[i].rel)
    decreases t, 1
  {
    assert Below(rel, rel) by { assert rel[|rel|..] == []; }
    if t.Dir? {
      WalkChildrenBelow(t.children, rel);
    }
  }

  lemma {:induction false} WalkChildrenBelow(cs: seq<Tree>, parent: string)
    requires parent != []
    ensures forall i :: 0 <= i < |WalkChildren(cs, parent)| ==> Below(parent, WalkChildren(cs, parent)[i].rel)
    decreases cs, 0
  {
    if cs != [] {
      var c := ChildPath(parent, cs[0].name);
      assert Below(parent, c) by {
        assert c[|parent|..] == "/" + cs[0].name;
      }
      WalkBelow(cs[0], c);
      WalkChildrenBelow(cs[1..], parent);
      var w1: seq<Entry>, w2: seq<Entry> := Walk(cs[0], c), WalkChildren(cs[1..], parent);
      forall i | 0 <= i < |w1 + w2| ensures Below(parent, (w1 + w2)[i].rel) {
        if i < |w1| {
          BelowTrans(parent, c, w1[i].rel);
        } else {
          assert (w1 + w2)[i] == w2[i - |w1|];
        }
      }
    }
  }

  /** A child's path has exactly one more component than its parent's: the child's
      own name. */
  lemma ChildComponents(parent: string, name: string)
    requires parent != [] && IsSegment(name)
    ensures Components(ChildPath(parent, name)) == Components(parent) + [name]
  {
    ComponentsConcat(parent, name);
    ComponentsOfSegment(name);
  }

  /** The components of a path below `rel` start with the components of `rel`. */
  lemma BelowComponents(rel: string, x: string)
    requires Below(rel, x)
    ensures Components(rel) <= Components(x)
  {
    assert x == rel + x[|rel|..];
    ComponentsAppend(rel, x[|rel|..]);
  }
}
