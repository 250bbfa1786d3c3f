/** String operations the build applies to the source name and to root-relative paths:
    trimming trailing separators and the whole-string replace that maps source paths to
    build paths. */
module Text {

  /** Rust's `str::trim_end_matches('/')`: drop every trailing '/'. */
  function TrimTrailingSlashes(s: string): (r: string)
    ensures r <= s
    ensures r == [] || r[|r| - 1] != '/'
    ensures forall i :: |r| <= i < |s| ==> s[i] == '/'
    decreases |s|
  {
    if |s| > 0 && s[|s| - 1] == '/' then TrimTrailingSlashes(s[..|s| - 1]) else s
  }

  /** Trimming a trimmed name changes nothing. */
  lemma TrimIdempotent(s: string)
    ensures TrimTrailingSlashes(TrimTrailingSlashes(s)) == TrimTrailingSlashes(s)
  {
  }

  /** The three properties of TrimTrailingSlashes determine its result: any prefix of `s`
      that does not end in '/' and is followed only by '/' is the trimmed name. */
  lemma TrimCharacterised(s: string, r: string)
    requires r <= s
    requires r == [] || r[|r| - 1] != '/'
    requires forall i :: |r| <= i < |s| ==> s[i] == '/'
    ensures r == TrimTrailingSlashes(s)
  {
    var t := TrimTrailingSlashes(s);
    assert |r| > 0 ==> s[|r| - 1] == r[|r| - 1];
    assert |t| > 0 ==> s[|t| - 1] == t[|t| - 1];
    assert |r| == |t|;
  }

  /** `pat` occurs in `s` starting at index `k`. */
  predicate Occurs(s: string, pat: string, k: int)
  {
    0 <= k && k + |pat| <= |s| && s[k..k + |pat|] == pat
  }

  /** Rust's `str::replace(pat, rep)`: every non-overlapping occurrence of `pat`, found
      left to right, is replaced by `rep`. An empty pattern matches at every character
      boundary, both ends included. */
  function ReplaceAll(s: string, pat: string, rep: string): string
    decreases |s|
  {
    if pat == [] then
      if s == [] then rep else rep + [s[0]] + ReplaceAll(s[1..], pat, rep)
    else if s == [] then []
    else if pat <= s then rep + ReplaceAll(s[|pat|..], pat, rep)
    else [s[0]] + ReplaceAll(s[1..], pat, rep)
  }

  /** An occurrence in the tail of `s` is an occurrence in `s` one position later. */
  lemma OccursShift(s: string, pat: string, k: int)
    requires s != [] && 0 <= k
    ensures Occurs(s[1..], pat, k) <==> Occurs(s, pat, k + 1)
  {
    if 0 <= k && k + |pat| <= |s| - 1 {
      assert s[k + 1..k + 1 + |pat|] == s[1..][k..k + |pat|];
    }
  }

  /** A leading occurrence is replaced and the scan goes on after it. */
  lemma ReplaceMatch(pat: string, x: string, rep: string)
    requires pat != []
    ensures ReplaceAll(pat + x, pat, rep) == rep + ReplaceAll(x, pat, rep)
  {
    assert (pat + x)[|pat|..] == x;
  }

  /** A leading character that does not start an occurrence is kept. */
  lemma ReplaceSkip(c: char, x: string, pat: string, rep: string)
    requires pat != [] && pat[0] != c
    ensures ReplaceAll([c] + x, pat, rep) == [c] + ReplaceAll(x, pat, rep)
  {
    assert ([c] + x)[1..] == x;
  }

  /** A string in which the pattern does not occur is left as it is. */
  lemma {:induction false} ReplaceAbsent(s: string, pat: string, rep: string)
    requires pat != []
    requires forall k :: !Occurs(s, pat, k)
    ensures ReplaceAll(s, pat, rep) == s
    decreases |s|
  {
    if s != [] {
      assert !Occurs(s, pat, 0);
      assert |pat| <= |s| ==> (s[0..|pat|] == pat <==> pat <= s);
      forall k ensures !Occurs(s[1..], pat, k) {
        if 0 <= k { OccursShift(s, pat, k); }
      }
      ReplaceAbsent(s[1..], pat, rep);
    }
  }

  /** When the pattern occurs only at the very start, only that occurrence is replaced. */
  lemma ReplaceLeadingOnly(rest: string, pat: string, rep: string)
    requires pat != []
    requires forall k :: !Occurs(rest, pat, k)
    ensures ReplaceAll(pat + rest, pat, rep) == rep + rest
  {
    assert (pat + rest)[|pat|..] == rest;
    ReplaceAbsent(rest, pat, rep);
  }

  /** Rust's `[String]::join(sep)`: the parts with `sep` between neighbours. */
  function Join(parts: seq<string>, sep: string): string
  {
    if |parts| == 0 then [] else if |parts| == 1 then parts[0] else parts[0] + sep + Join(parts[1..], sep)
  }

  /** Joining a part in front of a non-empty list puts one separator between them. */
  lemma JoinCons(p: string, parts: seq<string>, sep: string)
    requires parts != []
    ensures Join([p] + parts, sep) == p + sep + Join(parts, sep)
  {
    assert ([p] + parts)[1..] == parts;
  }
}
