/** What a path means: the stack of components that reading it from left to right leaves. */
module PathMeaning {
  import opened PathRewriting

  /** The components above, the one being read, and whether the path has climbed above the root. */
  datatype Walk = Walk(stack: seq<string>, current: string, climbed: bool)

  const START := Walk([], "", false)

  function Finish(w: Walk): Walk {
    if w.current == "" || w.current == "." then w.(current := "")
    else if w.current == ".." then
      if w.stack == [] then w.(current := "", climbed := true) else w.(stack := w.stack[..|w.stack| - 1], current := "")
    else w.(stack := w.stack + [w.current], current := "")
  }

  function Step(w: Walk, c: char, sep: char): Walk {
    if c == sep then Finish(w) else w.(current := w.current + [c])
  }

  function Run(w: Walk, s: string, sep: char): Walk
    decreases |s|
  {
    if s == "" then w else Run(Step(w, s[0], sep), s[1..], sep)
  }

  /** The components that a path names; a backslash separates like the separator. */
  function Meaning(path: string, sep: char): Walk {
    Finish(Run(START, Slashed(path, sep), sep))
  }

  // ------------------------------------------------------------------ reading is a fold

  lemma {:induction false} RunConcat(w: Walk, a: string, b: string, sep: char)
    ensures Run(w, a + b, sep) == Run(Run(w, a, sep), b, sep)
    decreases |a|
  {
    if a == "" {
      assert a + b == b;
    } else {
      assert (a + b)[1..] == a[1..] + b;
      RunConcat(Step(w, a[0], sep), a[1..], b, sep);
    }
  }

  lemma RunOne(w: Walk, c: char, sep: char)
    ensures Run(w, [c], sep) == Step(w, c, sep)
  {
    assert [c][1..] == "";
  }

  lemma RunFront(w: Walk, c: char, s: string, sep: char)
    ensures Run(w, [c] + s, sep) == Run(Step(w, c, sep), s, sep)
  {
    assert ([c] + s)[1..] == s;
  }

  /** Once above the root, a path stays so. */
  lemma {:induction false} ClimbedStays(w: Walk, s: string, sep: char)
    requires w.climbed
    ensures Run(w, s, sep).climbed
    decreases |s|
  {
    if s != "" {
      ClimbedStays(Step(w, s[0], sep), s[1..], sep);
    }
  }

  /** Plain text only adds to the current component. */
  lemma {:induction false} RunPlain(w: Walk, s: string, sep: char)
    requires sep !in s
    ensures Run(w, s, sep) == w.(current := w.current + s)
    decreases |s|
  {
    if s == "" {
      assert w.current + s == w.current;
    } else {
      RunPlain(Step(w, s[0], sep), s[1..], sep);
      assert w.current + [s[0]] + s[1..] == w.current + s;
    }
  }

  lemma FinishTwice(w: Walk)
    ensures Finish(Finish(w)) == Finish(w) && Finish(w).current == ""
  {
  }

  // ------------------------------------------------------------------ equal fragments

  /** Two fragments that do the same to every walk. */
  ghost predicate SameRun(a: string, b: string, sep: char) {
    forall w: Walk :: Run(w, a, sep) == Run(w, b, sep)
  }

  lemma Replace(from: Walk, s: string, a: nat, b: nat, c: nat, sep: char)
    requires a <= b <= c <= |s| && SameRun(s[a..c], s[b..c], sep)
    ensures Run(from, Cut(s, a, b), sep) == Run(from, s, sep)
  {
    assert s == s[..a] + (s[a..c] + s[c..]) && Cut(s, a, b) == s[..a] + (s[b..c] + s[c..]);
    RunConcat(from, s[..a], s[a..c] + s[c..], sep);
    RunConcat(from, s[..a], s[b..c] + s[c..], sep);
    var w := Run(from, s[..a], sep);
    RunConcat(w, s[a..c], s[c..], sep);
    RunConcat(w, s[b..c], s[c..], sep);
  }

  lemma SepRuns(w: Walk, sep: char)
    ensures Run(w, [sep], sep) == Finish(w)
    ensures Run(w, [sep, sep], sep) == Finish(w) && Run(w, [sep, sep, sep], sep) == Finish(w)
  {
    RunOne(w, sep, sep);
    FinishTwice(w);
    RunOne(Finish(w), sep, sep);
    assert [sep, sep] == [sep] + [sep] && [sep, sep, sep] == [sep] + [sep, sep];
    RunFront(w, sep, [sep], sep);
    RunFront(w, sep, [sep, sep], sep);
    RunFront(Finish(w), sep, [sep], sep);
  }

  lemma DotRuns(w: Walk, sep: char)
    requires sep != '.'
    ensures Run(w, [sep, '.'], sep) == Finish(w).(current := ".")
    ensures Run(w, Dot(sep), sep) == Finish(w)
  {
    assert [sep, '.'] == [sep] + ['.'] && Dot(sep) == [sep, '.'] + [sep];
    RunFront(w, sep, ['.'], sep);
    RunOne(Finish(w), '.', sep);
    assert "" + ['.'] == ".";
    RunConcat(w, [sep, '.'], [sep], sep);
    RunOne(Finish(w).(current := "."), sep, sep);
  }

  /** An ordinary component, and going up again, is as good as nothing. */
  ghost predicate Ordinary(comp: string, sep: char) {
    sep !in comp && comp != "" && comp != "." && comp != ".."
  }

  lemma UpRuns(w: Walk, comp: string, sep: char)
    requires sep != '.' && Ordinary(comp, sep)
    ensures Run(w, [sep] + comp + [sep, '.', '.'], sep) == Finish(w).(stack := Finish(w).stack + [comp], current := "..")
    ensures Run(w, [sep] + comp + DotDot(sep), sep) == Finish(w)
  {
    var f := Finish(w);
    var g := f.(stack := f.stack + [comp]);
    FinishTwice(w);
    RunConcat(w, [sep], comp, sep);
    RunOne(w, sep, sep);
    RunPlain(f, comp, sep);
    assert "" + comp == comp;
    RunConcat(w, [sep] + comp, [sep, '.', '.'], sep);
    assert [sep, '.', '.'] == [sep] + ['.', '.'];
    RunFront(f.(current := comp), sep, ['.', '.'], sep);
    RunPlain(g, ['.', '.'], sep);
    assert "" + ['.', '.'] == "..";
    assert [sep] + comp + DotDot(sep) == [sep] + comp + [sep, '.', '.'] + [sep];
    RunConcat(w, [sep] + comp + [sep, '.', '.'], [sep], sep);
    RunOne(g.(current := ".."), sep, sep);
    assert g.stack[..|g.stack| - 1] == f.stack;
  }

  // ------------------------------------------------------------------ squeezing

  lemma {:induction false} SqueezeKeepsRun(w: Walk, s: string, pat: string, from: nat, drop: nat, sep: char)
    requires 0 < drop <= |pat| && SameRun(pat, pat[drop..], sep)
    ensures Run(w, Squeeze(s, pat, from, drop), sep) == Run(w, s, sep)
    decreases |s|
  {
    hide Run, FindSub;
    var i := FindSub(s, pat, from);
    if i >= 0 {
      assert s[i + drop..i + |pat|] == s[i..i + |pat|][drop..];
      Replace(w, s, i, i + drop, i + |pat|, sep);
      SqueezeKeepsRun(w, Cut(s, i, i + drop), pat, from, drop, sep);
    }
  }

  lemma SqueezedKeepsRun(w: Walk, s: string, sep: char)
    requires sep != '.'
    ensures Run(w, Squeezed(s, sep), sep) == Run(w, s, sep)
  {
    var s3 := Squeeze(s, [sep, sep, sep], 0, 2);
    var s4 := Squeeze(s3, [sep, sep], 1, 1);
    assert [sep, sep, sep][2..] == [sep] && [sep, sep][1..] == [sep] && Dot(sep)[2..] == [sep];
    forall v ensures Run(v, [sep, sep, sep], sep) == Run(v, [sep], sep) == Run(v, [sep, sep], sep) == Run(v, Dot(sep), sep) {
      SepRuns(v, sep);
      DotRuns(v, sep);
    }
    hide Run, Squeeze;
    SqueezeKeepsRun(w, s, [sep, sep, sep], 0, 2, sep);
    SqueezeKeepsRun(w, s3, [sep, sep], 1, 1, sep);
    SqueezeKeepsRun(w, s4, Dot(sep), 0, 2, sep);
  }

  // ------------------------------------------------------------------ going up

  /** Where a walk may begin: between two components. */
  ghost predicate AtRest(w: Walk) {
    w.current == "" && !w.climbed
  }

  /** Two separators at the beginning stand for a level of their own, above everything else. */
  predicate Doubled(s: string, sep: char) {
    |s| > 1 && s[0] == sep == s[1]
  }

  const LEVEL := Walk([""], "", false)

  function Ground(s: string, sep: char): Walk {
    if Doubled(s, sep) then LEVEL else START
  }

  /** The component being read after `n` characters is what follows the last separator. */
  lemma {:induction false} CurrentIs(w: Walk, s: string, n: nat, sep: char)
    requires 0 < n <= |s| && s[0] == sep
    ensures var k := FindLastOf(s, sep, n - 1);
            0 <= k < n && Run(w, s[..n], sep).current == s[k + 1..n]
  {
    assert s[..n] == s[..n - 1] + [s[n - 1]];
    RunConcat(w, s[..n - 1], [s[n - 1]], sep);
    RunOne(Run(w, s[..n - 1], sep), s[n - 1], sep);
    if s[n - 1] == sep {
      FinishTwice(Run(w, s[..n - 1], sep));
    } else {
      CurrentIs(w, s, n - 1, sep);
    }
  }

  /** Without ".." before a separator a path does not climb, and no component is taken away. */
  lemma {:induction false} NoClimb(w: Walk, s: string, n: nat, sep: char)
    requires AtRest(w) && n <= |s| && s != "" && s[0] == sep && Free(s, DotDot(sep), 0)
    ensures var r := Run(w, s[..n], sep); !r.climbed && w.stack <= r.stack
    ensures n > 0 ==> Run(w, s[..n - 1], sep).stack <= Run(w, s[..n], sep).stack
  {
    hide FindLastOf, OccursAt;
    if n > 0 {
      NoClimb(w, s, n - 1, sep);
      assert s[..n] == s[..n - 1] + [s[n - 1]];
      RunConcat(w, s[..n - 1], [s[n - 1]], sep);
      RunOne(Run(w, s[..n - 1], sep), s[n - 1], sep);
      if s[n - 1] == sep && n > 1 {
        CurrentIs(w, s, n - 1, sep);
        var k := FindLastOf(s, sep, n - 2);
        if s[k + 1..n - 1] == ".." {
          FoundDotDot(s, k, n - 1, sep);
        }
      }
    }
  }

  lemma FoundDotDot(s: string, k: nat, n: nat, sep: char)
    requires k < n < |s| && s[k] == sep == s[n] && s[k + 1..n] == ".."
    ensures OccursAt(s, DotDot(sep), k)
  {
    assert s[k..n + 1] == [s[k]] + s[k + 1..n] + [s[n]];
  }

  lemma FoundDot(s: string, k: nat, n: nat, sep: char)
    requires k < n < |s| && s[k] == sep == s[n] && s[k + 1..n] == "."
    ensures OccursAt(s, Dot(sep), k)
  {
    assert s[k..n + 1] == [s[k]] + s[k + 1..n] + [s[n]];
  }

  lemma FoundDouble(s: string, k: nat, sep: char)
    requires k + 1 < |s| && s[k] == sep == s[k + 1]
    ensures OccursAt(s, [sep, sep], k)
  {
    assert s[k..k + 2] == [s[k], s[k + 1]];
  }

  /** The component before a separator is ordinary, unless it is the empty one at the beginning. */
  lemma OrdinaryBefore(s: string, sep: char, i: nat)
    requires Dotless(s, sep) && 0 < i < |s| && s[i] == sep && forall j :: 0 <= j < i ==> !OccursAt(s, DotDot(sep), j)
    requires i > 1 || !Doubled(s, sep)
    ensures var k := FindLastOf(s, sep, i - 1); 0 <= k < i && Ordinary(s[k + 1..i], sep)
    ensures Doubled(s, sep) ==> FindLastOf(s, sep, i - 1) >= 1
  {
    hide OccursAt, FindLastOf;
    var k := FindLastOf(s, sep, i - 1);
    var comp := s[k + 1..i];
    assert forall j :: 0 <= j < |comp| ==> comp[j] == s[k + 1 + j];
    assert sep !in comp;
    if comp == "." {
      FoundDot(s, k, i, sep);
    }
    if comp == ".." {
      FoundDotDot(s, k, i, sep);
    }
    if comp == "" {
      FoundDouble(s, k, sep);
    }
  }

  lemma DotDotClimbs(w: Walk, sep: char)
    requires sep != '.' && Finish(w).stack == []
    ensures Run(w, [sep, '.', '.'], sep) == Finish(w).(current := "..")
    ensures Run(w, DotDot(sep), sep).climbed
  {
    DotDotRuns(w, sep);
  }

  lemma DotDotRuns(w: Walk, sep: char)
    requires sep != '.'
    ensures Run(w, [sep, '.', '.'], sep) == Finish(w).(current := "..")
    ensures Run(w, DotDot(sep), sep) == Finish(Finish(w).(current := ".."))
  {
    FinishTwice(w);
    assert [sep, '.', '.'] == [sep] + ['.', '.'] && DotDot(sep) == [sep, '.', '.'] + [sep];
    RunFront(w, sep, ['.', '.'], sep);
    RunPlain(Finish(w), ['.', '.'], sep);
    assert "" + ['.', '.'] == "..";
    RunConcat(w, [sep, '.', '.'], [sep], sep);
    RunOne(Finish(w).(current := ".."), sep, sep);
  }

  /** Beginning with "..", a path climbs. */
  lemma ClimbsAtOnce(s: string, sep: char)
    requires sep != '.' && OccursAt(s, DotDot(sep), 0)
    ensures Run(START, s, sep).climbed
  {
    DotDotClimbs(START, sep);
    assert s == s[0..4] + s[4..];
    RunConcat(START, DotDot(sep), s[4..], sep);
    ClimbedStays(Run(START, DotDot(sep), sep), s[4..], sep);
  }

  /** Beginning with two separators and "..", a path uses up the level that they stand for. */
  lemma LevelIsUsedUp(s: string, sep: char)
    requires sep != '.' && s != "" && s[0] == sep && OccursAt(s, DotDot(sep), 1)
    ensures |s| >= 5 && Run(LEVEL, s, sep) == Run(START, Cut(s, 0, 4), sep)
  {
    var tail := s[5..];
    assert s == [sep] + (s[1..5] + tail) && Cut(s, 0, 4) == [s[4]] + tail;
    assert s[4] == s[1..5][3] == sep;
    RunFront(LEVEL, sep, DotDot(sep) + tail, sep);
    RunConcat(LEVEL, DotDot(sep), tail, sep);
    DotDotRuns(LEVEL, sep);
    RunFront(START, sep, tail, sep);
  }

  lemma UpKeepsRun(w: Walk, s: string, sep: char, k: nat, i: nat)
    requires sep != '.' && k < i && OccursAt(s, DotDot(sep), i) && s[k] == sep && Ordinary(s[k + 1..i], sep)
    ensures Run(w, Cut(s, k, i + 3), sep) == Run(w, s, sep)
  {
    hide Run, Finish, Ordinary;
    var comp, whole, left := s[k + 1..i], s[k..i + 4], s[i + 3..i + 4];
    assert whole == [s[k]] + comp + s[i..i + 4];
    assert left == s[i..i + 4][3..] == [sep];
    forall v ensures Run(v, whole, sep) == Run(v, left, sep) {
      UpRuns(v, comp, sep);
      SepRuns(v, sep);
    }
    Replace(w, s, k, i + 3, i + 4, sep);
  }

  lemma CutKeepsLead(s: string, sep: char, k: nat, i: nat)
    requires sep != '.' && Dotless(s, sep) && k < i && i + 3 < |s| && s[k] == sep == s[i + 3] && (Doubled(s, sep) ==> k >= 1)
    ensures Dotless(Cut(s, k, i + 3), sep) && Doubled(Cut(s, k, i + 3), sep) == Doubled(s, sep)
  {
    CutKeepsFree(s, k, i + 3, [sep, sep], sep, 1);
    CutKeepsFree(s, k, i + 3, Dot(sep), sep, 0);
    hide Free;
    if k == 0 && i + 4 < |s| {
      NextIsOther(s, sep, i + 3);
    }
  }

  lemma NextIsOther(s: string, sep: char, k: nat)
    requires 1 <= k && k + 1 < |s| && s[k] == sep && Free(s, [sep, sep], 1)
    ensures s[k + 1] != sep
  {
    assert s[k..k + 2] == [s[k], s[k + 1]];
    assert !OccursAt(s, [sep, sep], k);
  }

  /** Resolving ".." keeps what a path names, counted from the level that two separators at its
      beginning stand for; a path that climbs above that is the root. */
  lemma {:induction false} AscendMeans(s: string, sep: char)
    requires sep != '.' && Dotless(s, sep)
    ensures var w, r := Run(Ground(s, sep), s, sep), Ascend(s, sep);
            if w.climbed then r == "" else r != "" && Run(Ground(r, sep), r, sep) == w
    decreases |s|
  {
    hide FindSub, FindLastOf, Run, Ordinary, Finish;
    var i := FindSub(s, DotDot(sep), 0);
    if i < 0 {
      NoClimb(Ground(s, sep), s, |s|, sep);
      assert s[..|s|] == s;
    } else {
      assert s[i] == s[i..i + 4][0] == sep && s[i + 1] == s[i..i + 4][1] == '.' && s[i + 3] == s[i..i + 4][3] == sep;
      if i == 0 {
        ClimbsAtOnce(s, sep);
      } else if i == 1 && Doubled(s, sep) {
        LevelIsUsedUp(s, sep);
        assert FindLastOf(s, sep, 0) == 0;
        ShorterIsSingle(s, sep);
        AscendMeans(Cut(s, 0, 4), sep);
      } else {
        OrdinaryBefore(s, sep, i);
        var k := FindLastOf(s, sep, i - 1);
        UpKeepsRun(Ground(s, sep), s, sep, k, i);
        CutKeepsLead(s, sep, k, i);
        AscendMeans(Cut(s, k, i + 3), sep);
      }
    }
  }

  lemma ShorterIsSingle(s: string, sep: char)
    requires sep != '.' && Dotless(s, sep) && |s| > 4 && s[4] == sep
    ensures Dotless(Cut(s, 0, 4), sep) && !Doubled(Cut(s, 0, 4), sep)
  {
    CutKeepsFree(s, 0, 4, [sep, sep], sep, 1);
    CutKeepsFree(s, 0, 4, Dot(sep), sep, 0);
    hide Free;
    if |s| > 5 {
      NextIsOther(s, sep, 4);
    }
  }

  // ------------------------------------------------------------------ the end of a path

  lemma DotEnding(w: Walk, s: string, sep: char)
    requires sep != '.' && EndsWith(s, [sep, '.'])
    ensures Finish(Run(w, s[..|s| - 2], sep)) == Finish(Run(w, s, sep))
    ensures Run(w, s, sep).climbed == Finish(Run(w, s, sep)).climbed
  {
    var x := s[..|s| - 2];
    assert s == x + [sep, '.'];
    RunConcat(w, x, [sep, '.'], sep);
    DotRuns(Run(w, x, sep), sep);
    FinishTwice(Run(w, x, sep));
  }

  lemma UpEnding(w: Walk, s: string, sep: char, k: nat)
    requires sep != '.' && |s| > 3 && EndsWith(s, [sep, '.', '.']) && k < |s| - 3 && s[k] == sep
    requires Ordinary(s[k + 1..|s| - 3], sep)
    ensures Finish(Run(w, s[..k], sep)) == Finish(Run(w, s, sep))
  {
    var i := |s| - 3;
    var x, comp := s[..k], s[k + 1..i];
    assert s == x + ([sep] + comp + [sep, '.', '.']) by {
      assert s == s[..k] + [s[k]] + s[k + 1..i] + s[i..];
    }
    RunConcat(w, x, [sep] + comp + [sep, '.', '.'], sep);
    UpRuns(Run(w, x, sep), comp, sep);
    var f := Finish(Run(w, x, sep));
    assert (f.stack + [comp])[..|f.stack|] == f.stack;
    FinishTwice(Run(w, x, sep));
  }

  lemma PrefixNoClimb(w: Walk, s: string, sep: char, k: nat)
    requires AtRest(w) && s != "" && s[0] == sep && Free(s, DotDot(sep), 0) && k < |s| && s[k] == sep
    ensures !Finish(Run(w, s[..k], sep)).climbed
  {
    NoClimb(w, s, k + 1, sep);
    assert s[..k + 1] == s[..k] + [sep];
    RunConcat(w, s[..k], [sep], sep);
    RunOne(Run(w, s[..k], sep), sep, sep);
  }

  /** What is left when a path is cut off before a separator, or used up by a final "..". */
  ghost predicate Ended(r: string, m: Walk, sep: char) {
    || (r == "" && m.stack == [])
    || (r == [sep] && m.stack == [""])
    || (r != "" && Finish(Run(Ground(r, sep), r, sep)) == m)
  }

  lemma CutOff(s: string, sep: char, k: nat)
    requires s != "" && s[0] == sep && k < |s| && s[k] == sep && (Doubled(s, sep) ==> k >= 1)
    ensures Ended(s[..k], Finish(Run(Ground(s, sep), s[..k], sep)), sep)
  {
    SepRuns(LEVEL, sep);
    assert k == 1 ==> s[..k] == [sep];
    assert k >= 2 ==> Ground(s[..k], sep) == Ground(s, sep);
  }

  lemma EndingDotDotIs(s: string, sep: char)
    requires sep != '.' && EndsWith(s, [sep, '.', '.'])
    ensures |s| >= 3 && s[|s| - 3] == sep && s == s[..|s| - 3] + [sep, '.', '.']
    ensures Ending(s, sep) == if |s| == 3 || FindLastOf(s, sep, |s| - 4) < 0 then "" else s[..FindLastOf(s, sep, |s| - 4)]
  {
    hide FindLastOf;
    var i := |s| - 3;
    assert s[i] == s[i..][0] == sep && s[|s| - 2] == s[i..][1] == '.';
    assert s[|s| - 2..][0] == s[|s| - 2];
    assert s == s[..i] + s[i..];
  }

  lemma EndingDotDot(s: string, sep: char)
    requires sep != '.' && Dotless(s, sep) && Free(s, DotDot(sep), 0) && EndsWith(s, [sep, '.', '.'])
    ensures var m, r := Finish(Run(Ground(s, sep), s, sep)), Ending(s, sep);
            if m.climbed then r == "" else Ended(r, m, sep)
  {
    EndingDotDotIs(s, sep);
    var i := |s| - 3;
    hide Run, FindLastOf, Ordinary, Ending, EndsWith, OccursAt;
    if i == 0 {
      assert s == [sep, '.', '.'];
      DotDotClimbs(START, sep);
    } else if i == 1 && Doubled(s, sep) {
      assert s == [sep] + [sep, '.', '.'];
      LevelEnds(sep);
      assert FindLastOf(s, sep, 0) == 0 && s[..0] == "";
    } else {
      OrdinaryBefore(s, sep, i);
      var k := FindLastOf(s, sep, i - 1);
      UpEnding(Ground(s, sep), s, sep, k);
      PrefixNoClimb(Ground(s, sep), s, sep, k);
      CutOff(s, sep, k);
    }
  }

  lemma LevelEnds(sep: char)
    requires sep != '.'
    ensures Finish(Run(LEVEL, [sep] + [sep, '.', '.'], sep)) == START
  {
    RunFront(LEVEL, sep, [sep, '.', '.'], sep);
    DotDotRuns(LEVEL, sep);
  }

  lemma EndingDot(s: string, sep: char)
    requires sep != '.' && Dotless(s, sep) && Free(s, DotDot(sep), 0) && EndsWith(s, [sep, '.'])
    ensures Ended(Ending(s, sep), Finish(Run(Ground(s, sep), s, sep)), sep)
  {
    DotEnding(Ground(s, sep), s, sep);
    var n := |s| - 2;
    assert s[n] == s[n..][0] == sep;
    CutOff(s, sep, n);
    if n > 0 {
      PrefixIsClean(s, sep, n);
    }
    hide Run, Finish;
  }

  /** Resolving the ending keeps what a path names; a path that climbs there is the root. */
  lemma EndingMeans(s: string, sep: char)
    requires sep != '.' && Dotless(s, sep) && Free(s, DotDot(sep), 0)
    ensures var m, r := Finish(Run(Ground(s, sep), s, sep)), Ending(s, sep);
            if m.climbed then r == "" else Ended(r, m, sep)
  {
    hide Run, Finish;
    NoClimb(Ground(s, sep), s, |s|, sep);
    assert s[..|s|] == s;
    if EndsWith(s, [sep, '.']) {
      DotEnding(Ground(s, sep), s, sep);
      EndingDot(s, sep);
    } else if EndsWith(s, [sep, '.', '.']) {
      EndingDotDot(s, sep);
    } else {
      NoClimbAtEnd(Ground(s, sep), s, sep);
    }
  }

  lemma NoClimbAtEnd(w: Walk, s: string, sep: char)
    requires s != "" && s[0] == sep && !Run(w, s, sep).climbed && !EndsWith(s, [sep, '.', '.'])
    ensures !Finish(Run(w, s, sep)).climbed && Run(w, s, sep).stack <= Finish(Run(w, s, sep)).stack
  {
    hide Run, FindLastOf;
    CurrentIs(w, s, |s|, sep);
    assert s[..|s|] == s;
    var k := FindLastOf(s, sep, |s| - 1);
    assert s[k + 1..|s|] == s[k + 1..];
    assert s[k..] == [s[k]] + s[k + 1..];
  }

  // ------------------------------------------------------------------ with and without the level

  /** What a level above the root changes: it is there until it is used up. */
  ghost predicate Levelled(a: Walk, b: Walk) {
    && a.current == b.current
    && (if a.climbed then "" !in b.stack else !b.climbed && b.stack == [""] + a.stack)
  }

  lemma LevelledFinish(a: Walk, b: Walk)
    requires Levelled(a, b)
    ensures Levelled(Finish(a), Finish(b))
  {
    if !a.climbed && a.current == ".." {
      if a.stack != [] {
        assert ([""] + a.stack)[..|a.stack|] == [""] + a.stack[..|a.stack| - 1];
      }
    } else if !a.climbed && a.current != "" && a.current != "." {
      assert [""] + a.stack + [a.current] == [""] + (a.stack + [a.current]);
    }
  }

  lemma {:induction false} LevelledRun(a: Walk, b: Walk, s: string, sep: char)
    requires Levelled(a, b)
    ensures Levelled(Run(a, s, sep), Run(b, s, sep))
    decreases |s|
  {
    if s != "" {
      LevelledFinish(a, b);
      LevelledRun(Step(a, s[0], sep), Step(b, s[0], sep), s[1..], sep);
    }
  }

  /** A clean path with one separator at its beginning and something behind it names something. */
  lemma CleanNamesSomething(s: string, sep: char)
    requires sep != '.' && Clean(s, sep) && |s| > 1 && !Doubled(s, sep)
    ensures Finish(Run(START, s, sep)).stack != []
  {
    hide FindLastOf, OccursAt;
    assert s[..|s|] == s;
    NoClimb(START, s, |s|, sep);
    NoClimbAtEnd(START, s, sep);
    CurrentIs(START, s, |s|, sep);
    var k := FindLastOf(s, sep, |s| - 1);
    assert s[k + 1..|s|] == s[k + 1..] && s[k..] == [s[k]] + s[k + 1..];
    if k == 0 {
      assert s[1..] != "" && s[1..] != "." && s[1..] != "..";
    } else {
      OrdinaryFirst(s, sep, k);
    }
  }

  lemma OrdinaryFirst(s: string, sep: char, n: nat)
    requires sep != '.' && Clean(s, sep) && |s| > 1 && !Doubled(s, sep) && 0 < n < |s| && s[n] == sep
    ensures Run(START, s, sep).stack != []
  {
    hide FindLastOf, OccursAt;
    OrdinaryBefore(s, sep, n);
    var k := FindLastOf(s, sep, n - 1);
    CurrentIs(START, s, n, sep);
    assert s[..n + 1] == s[..n] + [s[n]];
    RunConcat(START, s[..n], [s[n]], sep);
    RunOne(Run(START, s[..n], sep), s[n], sep);
    assert Run(START, s[..n + 1], sep).stack != [];
    StackGrows(s, n + 1, |s|, sep);
    assert s[..|s|] == s;
  }

  lemma {:induction false} StackGrows(s: string, m: nat, n: nat, sep: char)
    requires m <= n <= |s| && s != "" && s[0] == sep && Free(s, DotDot(sep), 0)
    ensures Run(START, s[..m], sep).stack <= Run(START, s[..n], sep).stack
    decreases n
  {
    hide Run, Finish;
    if m < n {
      StackGrows(s, m, n - 1, sep);
      NoClimb(START, s, n, sep);
    }
  }
}
