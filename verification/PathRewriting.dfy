/** Paths as strings: the rewriting steps that normalise them, and what these keep. */
module PathRewriting {

  predicate OccursAt(s: string, pat: string, i: nat) {
    i + |pat| <= |s| && s[i..i + |pat|] == pat
  }

  /** The first occurrence from a position on, or -1. */
  function FindSub(s: string, pat: string, from: nat): (i: int)
    ensures i >= 0 ==> from <= i && OccursAt(s, pat, i) && forall j :: from <= j < i ==> !OccursAt(s, pat, j)
    ensures i < 0 ==> i == -1 && forall j :: from <= j ==> !OccursAt(s, pat, j)
    decreases |s| - from
  {
    if from + |pat| > |s| then -1
    else if OccursAt(s, pat, from) then from
    else FindSub(s, pat, from + 1)
  }

  /** The last position of a character up to a position, or -1. */
  function FindLastOf(s: string, c: char, upto: int): (i: int)
    requires upto < |s|
    ensures -1 <= i && (i >= 0 ==> i <= upto && s[i] == c)
    ensures forall j :: 0 <= j <= upto && i < j ==> s[j] != c
    decreases upto + 1
  {
    if upto < 0 then -1 else if s[upto] == c then upto else FindLastOf(s, c, upto - 1)
  }

  function Cut(s: string, a: nat, b: nat): string
    requires a <= b <= |s|
  {
    s[..a] + s[b..]
  }

  /** Shortens every occurrence of a pattern by its first `drop` characters. */
  function Squeeze(s: string, pat: string, from: nat, drop: nat): (r: string)
    requires 0 < drop <= |pat|
    ensures |r| <= |s| && FindSub(r, pat, from) < 0
    decreases |s|
  {
    var i := FindSub(s, pat, from);
    if i < 0 then s else Squeeze(Cut(s, i, i + drop), pat, from, drop)
  }

  /** Takes away each component that is followed by "..", from the left; None if there is none left. */
  function Ascend(s: string, sep: char): (r: string)
    ensures |r| <= |s|
    ensures r != "" ==> FindSub(r, [sep, '.', '.', sep], 0) < 0
    decreases |s|
  {
    var i := FindSub(s, [sep, '.', '.', sep], 0);
    if i < 0 then s
    else if i == 0 then ""
    else
      var k := FindLastOf(s, sep, i - 1);
      if k < 0 then "" else Ascend(Cut(s, k, i + 3), sep)
  }

  predicate EndsWith(s: string, t: string) {
    |s| >= |t| && s[|s| - |t|..] == t
  }

  /** Resolves a dot or two at the end. */
  function Ending(s: string, sep: char): string {
    var t := if EndsWith(s, [sep, '.']) then s[..|s| - 2] else s;
    if EndsWith(t, [sep, '.', '.']) then
      var i := |t| - 3;
      if i == 0 then ""
      else
        var k := FindLastOf(t, sep, i - 1);
        if k < 0 then "" else t[..k]
    else t
  }

  function Slashed(path: string, sep: char): (r: string)
    ensures |r| == |path|
  {
    if path == "" then "" else [if path[0] == '\\' then sep else path[0]] + Slashed(path[1..], sep)
  }

  function Squeezed(s: string, sep: char): string {
    Squeeze(Squeeze(Squeeze(s, [sep, sep, sep], 0, 2), [sep, sep], 1, 1), [sep, '.', sep], 0, 2)
  }

  /** An absolute path without its dots; empty stands for the root. */
  function Resolved(s: string, sep: char): string {
    Ending(Ascend(Squeezed(s, sep), sep), sep)
  }

  function Normalize(path: string, sep: char): string {
    var s := Slashed(path, sep);
    if s == "" || s[0] != sep then
      var r := Resolved([sep] + s, sep);
      if r == "" then "" else r[1..]
    else
      var r := Resolved(s, sep);
      if r == "" then [sep] else r
  }

  // ------------------------------------------------------------------ occurrences

  /** A pattern that begins and ends with a separator and has none inside. */
  ghost predicate Framed(pat: string, sep: char) {
    |pat| >= 2 && pat[0] == sep == pat[|pat| - 1] && forall k :: 0 < k < |pat| - 1 ==> pat[k] != sep
  }

  ghost predicate Free(s: string, pat: string, from: nat) {
    forall j :: from <= j ==> !OccursAt(s, pat, j)
  }

  lemma OccursByChar(s: string, pat: string, i: nat)
    ensures OccursAt(s, pat, i) <==> i + |pat| <= |s| && forall k :: 0 <= k < |pat| ==> s[i + k] == pat[k]
  {
    if i + |pat| <= |s| {
      var window := s[i..i + |pat|];
      assert forall k :: 0 <= k < |pat| ==> window[k] == s[i + k];
    }
  }

  /** What occurs after gluing at a separator occurred before. */
  lemma OccurredBefore(s: string, a: nat, b: nat, pat: string, sep: char, j: nat)
    requires a < b < |s| && s[a] == sep == s[b] && Framed(pat, sep) && OccursAt(Cut(s, a, b), pat, j)
    ensures OccursAt(s, pat, j) || OccursAt(s, pat, j + (b - a))
  {
    var t := Cut(s, a, b);
    OccursByChar(t, pat, j);
    OccursByChar(s, pat, j);
    OccursByChar(s, pat, j + (b - a));
    assert forall k :: 0 <= k <= a ==> t[k] == s[k];
    assert forall k :: a <= k < |t| ==> t[k] == s[k + (b - a)];
    assert j < a < j + |pat| ==> t[j + (a - j)] == pat[a - j] == sep;
  }

  /** Gluing at a separator makes no new occurrence. */
  lemma CutKeepsFree(s: string, a: nat, b: nat, pat: string, sep: char, from: nat)
    requires a < b < |s| && s[a] == sep == s[b] && Framed(pat, sep) && Free(s, pat, from)
    ensures Free(Cut(s, a, b), pat, from)
  {
    forall j | from <= j ensures !OccursAt(Cut(s, a, b), pat, j) {
      if OccursAt(Cut(s, a, b), pat, j) {
        OccurredBefore(s, a, b, pat, sep, j);
      }
    }
  }

  lemma PrefixKeepsFree(s: string, n: nat, pat: string, from: nat)
    requires n <= |s| && Free(s, pat, from)
    ensures Free(s[..n], pat, from)
  {
    forall j | from <= j ensures !OccursAt(s[..n], pat, j) {
      OccursByChar(s[..n], pat, j);
      OccursByChar(s, pat, j);
    }
  }

  // ------------------------------------------------------------------ the shape

  function Dot(sep: char): string { [sep, '.', sep] }
  function DotDot(sep: char): string { [sep, '.', '.', sep] }

  lemma SqueezeOne(s: string, pat: string, drop: nat, i: nat, sep: char)
    requires OccursAt(s, pat, i) && 0 < drop < |pat| && pat[0] == sep == pat[drop]
    ensures s[i] == sep == s[i + drop] && i + drop < |s|
  {
    OccursByChar(s, pat, i);
    assert s[i + 0] == pat[0];
  }

  /** Squeezing one pattern brings back no other. */
  lemma {:induction false} SqueezeKeepsFree(s: string, pat: string, from: nat, drop: nat, sep: char, other: string, low: nat)
    requires 0 < drop < |pat| && pat[0] == sep == pat[drop] && Framed(other, sep) && Free(s, other, low)
    ensures Free(Squeeze(s, pat, from, drop), other, low)
    decreases |s|
  {
    var i := FindSub(s, pat, from);
    if i >= 0 {
      SqueezeOne(s, pat, drop, i, sep);
      CutKeepsFree(s, i, i + drop, other, sep, low);
      SqueezeKeepsFree(Cut(s, i, i + drop), pat, from, drop, sep, other, low);
    }
  }

  lemma {:induction false} SqueezeKeepsFirst(s: string, pat: string, from: nat, drop: nat, sep: char)
    requires s != "" && s[0] == sep && 0 < drop < |pat| && pat[0] == sep == pat[drop]
    ensures var r := Squeeze(s, pat, from, drop); r != "" && r[0] == sep
    decreases |s|
  {
    var i := FindSub(s, pat, from);
    if i >= 0 {
      SqueezeOne(s, pat, drop, i, sep);
      SqueezeKeepsFirst(Cut(s, i, i + drop), pat, from, drop, sep);
    }
  }

  /** Begins with a separator, has no empty component but perhaps the first, and no dot component
      before another. */
  ghost predicate Dotless(s: string, sep: char) {
    s != "" && s[0] == sep && Free(s, [sep, sep], 1) && Free(s, Dot(sep), 0)
  }

  lemma SqueezedIsDotless(s: string, sep: char)
    requires s != "" && s[0] == sep && sep != '.'
    ensures Dotless(Squeezed(s, sep), sep)
  {
    var s3 := Squeeze(s, [sep, sep, sep], 0, 2);
    SqueezeKeepsFirst(s, [sep, sep, sep], 0, 2, sep);
    var s4 := Squeeze(s3, [sep, sep], 1, 1);
    SqueezeKeepsFirst(s3, [sep, sep], 1, 1, sep);
    SqueezeKeepsFirst(s4, Dot(sep), 0, 2, sep);
    SqueezeKeepsFree(s4, Dot(sep), 0, 2, sep, [sep, sep], 1);
  }

  /** The place of the component before "..". */
  lemma Before(s: string, sep: char, i: nat)
    requires s != "" && s[0] == sep && 0 < i && OccursAt(s, DotDot(sep), i)
    ensures var k := FindLastOf(s, sep, i - 1); 0 <= k < i && s[k] == sep == s[i + 3] && i + 3 < |s|
  {
    OccursByChar(s, DotDot(sep), i);
    assert DotDot(sep)[3] == sep && s[i + 3] == DotDot(sep)[3];
  }

  lemma {:induction false} AscendKeepsDotless(s: string, sep: char)
    requires Dotless(s, sep) && sep != '.'
    ensures var r := Ascend(s, sep); r == "" || (Dotless(r, sep) && Free(r, DotDot(sep), 0))
    decreases |s|
  {
    var i := FindSub(s, DotDot(sep), 0);
    if i > 0 {
      Before(s, sep, i);
      var k := FindLastOf(s, sep, i - 1);
      CutKeepsFree(s, k, i + 3, [sep, sep], sep, 1);
      CutKeepsFree(s, k, i + 3, Dot(sep), sep, 0);
      AscendKeepsDotless(Cut(s, k, i + 3), sep);
    }
  }

  /** The shape of a normalised absolute path. */
  ghost predicate Clean(s: string, sep: char) {
    && Dotless(s, sep) && Free(s, DotDot(sep), 0)
    && !EndsWith(s, [sep, '.']) && !EndsWith(s, [sep, '.', '.'])
  }

  lemma EndingOccurs(s: string, t: string, n: nat, sep: char)
    requires n < |s| && s[n] == sep && EndsWith(s[..n], t)
    ensures OccursAt(s, t + [sep], n - |t|)
  {
    assert s[n - |t|..n] == s[..n][n - |t|..] == t;
    assert s[n - |t|..n + 1] == s[n - |t|..n] + [s[n]];
  }

  /** A part of a dotless path, cut before a separator, ends with no dots. */
  lemma PrefixIsClean(s: string, sep: char, n: nat)
    requires Dotless(s, sep) && Free(s, DotDot(sep), 0) && 0 < n < |s| && s[n] == sep
    ensures Clean(s[..n], sep)
  {
    PrefixKeepsFree(s, n, [sep, sep], 1);
    PrefixKeepsFree(s, n, Dot(sep), 0);
    PrefixKeepsFree(s, n, DotDot(sep), 0);
    assert [sep, '.'] + [sep] == Dot(sep) && [sep, '.', '.'] + [sep] == DotDot(sep);
    if EndsWith(s[..n], [sep, '.']) {
      EndingOccurs(s, [sep, '.'], n, sep);
    }
    if EndsWith(s[..n], [sep, '.', '.']) {
      EndingOccurs(s, [sep, '.', '.'], n, sep);
    }
  }

  lemma EndingIsClean(s: string, sep: char)
    requires Dotless(s, sep) && Free(s, DotDot(sep), 0) && sep != '.'
    ensures var r := Ending(s, sep); r == "" || Clean(r, sep)
  {
    var n := |s| - 2;
    var t := if EndsWith(s, [sep, '.']) then s[..n] else s;
    if EndsWith(s, [sep, '.']) {
      assert s[n..][0] == sep;
      if n > 0 {
        PrefixIsClean(s, sep, n);
      }
    }
    if t != "" && EndsWith(t, [sep, '.', '.']) && |t| > 3 {
      var k := FindLastOf(t, sep, |t| - 4);
      if k > 0 {
        PrefixIsClean(t, sep, k);
      }
    }
  }

  lemma ResolvedIsClean(s: string, sep: char)
    requires s != "" && s[0] == sep && sep != '.'
    ensures var r := Resolved(s, sep); r == "" || Clean(r, sep)
  {
    SqueezedIsDotless(s, sep);
    AscendKeepsDotless(Squeezed(s, sep), sep);
    if Ascend(Squeezed(s, sep), sep) != "" {
      EndingIsClean(Ascend(Squeezed(s, sep), sep), sep);
    }
  }

  // ------------------------------------------------------------------ clean paths stay as they are

  lemma CleanIsResolved(s: string, sep: char)
    requires Clean(s, sep)
    ensures Resolved(s, sep) == s
  {
    assert !OccursAt(s, [sep, sep], 1);
    forall j: nat ensures !OccursAt(s, [sep, sep, sep], j) {
      if OccursAt(s, [sep, sep, sep], j) {
        TripleHasDouble(s, sep, j);
      }
    }
  }

  lemma TripleHasDouble(s: string, sep: char, j: nat)
    requires OccursAt(s, [sep, sep, sep], j)
    ensures OccursAt(s, [sep, sep], j + 1)
  {
    assert s[j + 1..j + 3] == s[j..j + 3][1..];
  }
}
