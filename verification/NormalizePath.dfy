/** Path normalisation as the program does it, and what is promised of it. */
module PathNormalization {
  import opened PathRewriting
  import opened PathMeaning

  // ------------------------------------------------------------------ characters

  /** No backslash is left unless it is the separator. */
  ghost predicate NoBackslash(s: string, sep: char) {
    forall i :: 0 <= i < |s| ==> s[i] == '\\' ==> sep == '\\'
  }

  lemma {:induction false} SlashedHasNone(path: string, sep: char)
    ensures NoBackslash(Slashed(path, sep), sep)
  {
    if path != "" {
      SlashedHasNone(path[1..], sep);
    }
  }

  lemma {:induction false} SlashedStays(s: string, sep: char)
    requires NoBackslash(s, sep)
    ensures Slashed(s, sep) == s
  {
    if s != "" {
      SlashedStays(s[1..], sep);
      assert s == [s[0]] + s[1..];
    }
  }

  lemma {:induction false} SqueezeAddsNone(s: string, pat: string, from: nat, drop: nat, sep: char)
    requires 0 < drop <= |pat| && NoBackslash(s, sep)
    ensures NoBackslash(Squeeze(s, pat, from, drop), sep)
    decreases |s|
  {
    hide FindSub;
    var i := FindSub(s, pat, from);
    if i >= 0 {
      SqueezeAddsNone(Cut(s, i, i + drop), pat, from, drop, sep);
    }
  }

  lemma {:induction false} AscendAddsNone(s: string, sep: char)
    requires NoBackslash(s, sep)
    ensures NoBackslash(Ascend(s, sep), sep)
    decreases |s|
  {
    hide FindSub, FindLastOf;
    var i := FindSub(s, [sep, '.', '.', sep], 0);
    if i > 0 {
      var k := FindLastOf(s, sep, i - 1);
      if k >= 0 {
        AscendAddsNone(Cut(s, k, i + 3), sep);
      }
    }
  }

  lemma ResolvedAddsNone(s: string, sep: char)
    requires NoBackslash(s, sep)
    ensures NoBackslash(Resolved(s, sep), sep)
  {
    var s3 := Squeeze(s, [sep, sep, sep], 0, 2);
    var s4 := Squeeze(s3, [sep, sep], 1, 1);
    SqueezeAddsNone(s, [sep, sep, sep], 0, 2, sep);
    SqueezeAddsNone(s3, [sep, sep], 1, 1, sep);
    SqueezeAddsNone(s4, [sep, '.', sep], 0, 2, sep);
    AscendAddsNone(Squeezed(s, sep), sep);
  }

  // ------------------------------------------------------------------ leading separators

  /** How many separators a text begins with. */
  function Leads(s: string, sep: char): (n: nat)
    ensures n <= |s| && (n < |s| ==> s[n] != sep) && forall i :: 0 <= i < n ==> s[i] == sep
  {
    if s == "" || s[0] != sep then 0 else 1 + Leads(s[1..], sep)
  }

  lemma LeadsAre(s: string, sep: char, n: nat)
    requires n <= |s| && (n < |s| ==> s[n] != sep) && forall i :: 0 <= i < n ==> s[i] == sep
    ensures Leads(s, sep) == n
  {
  }

  lemma OnlySeparators(s: string, pat: string, i: nat, sep: char)
    requires OccursAt(s, pat, i) && forall k :: 0 <= k < |pat| ==> pat[k] == sep
    ensures forall j :: i <= j < i + |pat| ==> s[j] == sep
  {
    forall j | i <= j < i + |pat| ensures s[j] == sep {
      assert s[i..i + |pat|][j - i] == s[j];
    }
  }

  /** Shortening runs of separators behind the first one leaves the first one alone. */
  lemma {:induction false} SqueezeKeepsLeads(s: string, pat: string, from: nat, drop: nat, sep: char)
    requires 0 < drop < |pat| && (forall k :: 0 <= k < |pat| ==> pat[k] == sep) && Leads(s, sep) < from + |pat|
    ensures Leads(Squeeze(s, pat, from, drop), sep) == Leads(s, sep)
    decreases |s|
  {
    hide FindSub, Leads;
    var i := FindSub(s, pat, from);
    if i >= 0 {
      var n := Leads(s, sep);
      OnlySeparators(s, pat, i, sep);
      var t := Cut(s, i, i + drop);
      assert forall k :: 0 <= k < i ==> t[k] == s[k];
      LeadsAre(t, sep, n);
      SqueezeKeepsLeads(t, pat, from, drop, sep);
    }
  }

  /** Tripled separators go two at a time, so that one or two are left at the beginning. */
  lemma {:induction false} TripledLeads(s: string, sep: char)
    requires s != "" && s[0] == sep
    ensures var r := Squeeze(s, [sep, sep, sep], 0, 2);
            1 <= Leads(r, sep) <= 2 && Leads(r, sep) % 2 == Leads(s, sep) % 2
    decreases |s|
  {
    hide FindSub, Leads, Squeeze;
    if Leads(s, sep) <= 2 {
      assert Leads(s, sep) >= 1 by { SomeLead(s, sep); }
      SqueezeKeepsLeads(s, [sep, sep, sep], 0, 2, sep);
    } else {
      TripleAtFront(s, sep);
      SameParity(Leads(s, sep));
      TripledLeads(s[2..], sep);
    }
  }

  lemma SomeLead(s: string, sep: char)
    requires s != "" && s[0] == sep
    ensures Leads(s, sep) >= 1
  {
  }

  /** The first step of the loop takes two of three leading separators away. */
  lemma TripleAtFront(s: string, sep: char)
    requires Leads(s, sep) > 2
    ensures |s| > 2 && s[2] == sep && Leads(s[2..], sep) == Leads(s, sep) - 2
    ensures Squeeze(s, [sep, sep, sep], 0, 2) == Squeeze(s[2..], [sep, sep, sep], 0, 2)
  {
    hide Leads, Squeeze;
    var pat, n, t := [sep, sep, sep], Leads(s, sep), s[2..];
    assert forall k :: 0 <= k < |t| ==> t[k] == s[k + 2];
    LeadsAre(t, sep, n - 2);
    assert s[0..3] == pat;
    TakenAtFront(s, pat);
  }

  lemma TakenAtFront(s: string, pat: string)
    requires |pat| > 2 && OccursAt(s, pat, 0)
    ensures Squeeze(s, pat, 0, 2) == Squeeze(s[2..], pat, 0, 2)
  {
    assert FindSub(s, pat, 0) == 0;
    assert Cut(s, 0, 2) == s[2..];
  }

  lemma SameParity(n: nat)
    requires n >= 2
    ensures n % 2 == (n - 2) % 2
  {
  }

  lemma {:induction false} DotsKeepLead(s: string, sep: char)
    requires sep != '.' && s != "" && s[0] == sep && Free(s, [sep, sep], 1)
    ensures Doubled(Squeeze(s, Dot(sep), 0, 2), sep) == Doubled(s, sep)
    decreases |s|
  {
    hide FindSub;
    var i := FindSub(s, Dot(sep), 0);
    if i >= 0 {
      var window := s[i..i + 3];
      assert window[0] == s[i] == sep && window[1] == s[i + 1] == '.' && window[2] == s[i + 2] == sep;
      CutKeepsFree(s, i, i + 2, [sep, sep], sep, 1);
      if i == 0 && |s| > 3 {
        NextIsOther(s, sep, 2);
      }
      DotsKeepLead(Cut(s, i, i + 2), sep);
    }
  }

  /** An even number of separators at the beginning, and only that, is left as two. */
  lemma SqueezedLead(s: string, sep: char)
    requires sep != '.' && s != "" && s[0] == sep
    ensures Doubled(Squeezed(s, sep), sep) <==> Leads(s, sep) % 2 == 0
  {
    hide Squeeze, FindSub, OccursAt;
    var s3 := Squeeze(s, [sep, sep, sep], 0, 2);
    TripledLeads(s, sep);
    var s4 := Squeeze(s3, [sep, sep], 1, 1);
    SqueezeKeepsLeads(s3, [sep, sep], 1, 1, sep);
    var n := Leads(s4, sep);
    hide Leads;
    assert s4[0] == sep && (Doubled(s4, sep) <==> n == 2);
    DotsKeepLead(s4, sep);
  }

  // ------------------------------------------------------------------ meaning

  /** Where the reading of an absolute path begins. */
  function GroundOf(s: string, sep: char): Walk {
    if Leads(s, sep) % 2 == 0 then LEVEL else START
  }

  /** Resolving keeps what a path names, counted from the level that an even number of separators
      stands for; a path that climbs above that is the root. */
  lemma ResolvedMeans(s: string, sep: char)
    requires sep != '.' && s != "" && s[0] == sep
    ensures var m, r := Finish(Run(GroundOf(s, sep), s, sep)), Resolved(s, sep);
            if m.climbed then r == "" else Ended(r, m, sep)
  {
    var q := Squeezed(s, sep);
    SqueezedKeepsRun(GroundOf(s, sep), s, sep);
    SqueezedIsDotless(s, sep);
    SqueezedLead(s, sep);
    hide Squeezed, Run, Finish, Leads;
    FinishClimbs(Run(GroundOf(s, sep), s, sep));
    AscendMeans(q, sep);
    AscendKeepsDotless(q, sep);
    if Ascend(q, sep) != "" {
      EndingMeans(Ascend(q, sep), sep);
    }
  }

  lemma FinishClimbs(w: Walk)
    ensures w.climbed ==> Finish(w).climbed
  {
  }

  lemma LeadingIsNothing(t: string, sep: char)
    ensures Run(START, [sep] + t, sep) == Run(START, t, sep)
  {
    RunFront(START, sep, t, sep);
  }

  predicate Absolute(path: string, sep: char) {
    path != "" && (path[0] == sep || path[0] == '\\')
  }

  // ------------------------------------------------------------------ shape

  /** A relative path with a separator in front. */
  function Rooted(path: string, sep: char): string {
    if path != "" && path[0] == sep then path else [sep] + path
  }

  /** The shape of the result: no dot components, no empty components but perhaps the first. */
  lemma NormalizeShape(path: string, sep: char)
    requires sep != '.'
    ensures var r := Normalize(path, sep); Clean(Rooted(r, sep), sep) && NoBackslash(r, sep) && Slashed(r, sep) == r
    ensures Absolute(path, sep) <==> Normalize(path, sep) != "" && Normalize(path, sep)[0] == sep
  {
    var s := Slashed(path, sep);
    var full := if Absolute(path, sep) then s else [sep] + s;
    SlashedHasNone(path, sep);
    ResolvedAddsNone(full, sep);
    ResolvedIsClean(full, sep);
    var r := Resolved(full, sep);
    RootIsClean(sep);
    if !Absolute(path, sep) {
      LeadsAre(full, sep, 1);
      ResolvedKeepsLead(full, sep);
      assert r != "" ==> r == [sep] + r[1..];
    }
    SlashedStays(Normalize(path, sep), sep);
  }

  lemma RootIsClean(sep: char)
    requires sep != '.'
    ensures Clean([sep], sep)
  {
  }

  lemma ResolvedKeepsLead(s: string, sep: char)
    requires sep != '.' && s != "" && s[0] == sep && Leads(s, sep) % 2 == 1
    ensures !Doubled(Resolved(s, sep), sep)
  {
    SqueezedLead(s, sep);
    SqueezedIsDotless(s, sep);
    AscendKeepsSingle(Squeezed(s, sep), sep);
    var a := Ascend(Squeezed(s, sep), sep);
    hide Squeezed, Ascend, FindLastOf, Leads, Dotless;
    EndingIsPrefix(a, sep);
  }

  lemma EndingIsPrefix(s: string, sep: char)
    ensures Ending(s, sep) <= s
  {
    hide FindLastOf;
  }

  lemma {:induction false} AscendKeepsSingle(s: string, sep: char)
    requires sep != '.' && Dotless(s, sep) && !Doubled(s, sep)
    ensures !Doubled(Ascend(s, sep), sep)
    decreases |s|
  {
    hide FindSub, FindLastOf, Free;
    var i := FindSub(s, DotDot(sep), 0);
    if i > 0 {
      Before(s, sep, i);
      var k := FindLastOf(s, sep, i - 1);
      CutKeepsLead(s, sep, k, i);
      AscendKeepsSingle(Cut(s, k, i + 3), sep);
    }
  }

  /** Normalising once is enough. */
  lemma NormalizeIdempotent(path: string, sep: char)
    requires sep != '.'
    ensures Normalize(Normalize(path, sep), sep) == Normalize(path, sep)
  {
    var r := Normalize(path, sep);
    NormalizeShape(path, sep);
    CleanIsResolved(Rooted(r, sep), sep);
  }

  // ------------------------------------------------------------------ the meaning of the result

  /** The path that is resolved: slashed, and with a separator in front. */
  function Full(path: string, sep: char): (r: string)
    ensures r != "" && r[0] == sep
  {
    if Absolute(path, sep) then Slashed(path, sep) else [sep] + Slashed(path, sep)
  }

  lemma FullMeans(path: string, sep: char)
    ensures Finish(Run(START, Full(path, sep), sep)) == Meaning(path, sep)
    ensures Absolute(path, sep) ==> Finish(Run(LEVEL, Full(path, sep), sep)) == FromLevel(path, sep)
  {
    LeadingIsNothing(Slashed(path, sep), sep);
    hide Run;
  }

  lemma NormalizeStrips(path: string, sep: char)
    requires sep != '.'
    ensures Finish(Run(START, Normalize(path, sep), sep)) == Finish(Run(START, Resolved(Full(path, sep), sep), sep))
    ensures Resolved(Full(path, sep), sep) == "" ==> Normalize(path, sep) == if Absolute(path, sep) then [sep] else ""
  {
    var r := Resolved(Full(path, sep), sep);
    ResolvedIsClean(Full(path, sep), sep);
    assert r != "" ==> r[0] == sep;
    hide Resolved, Run, Clean;
    LeadingIsNothing("", sep);
    assert [sep] + "" == [sep];
    if r != "" {
      assert r == [sep] + r[1..];
      LeadingIsNothing(r[1..], sep);
    }
  }

  /** No walk names an empty component. */
  lemma {:induction false} NoEmptyNames(w: Walk, s: string, sep: char)
    requires "" !in w.stack
    ensures "" !in Finish(Run(w, s, sep)).stack
    decreases |s|
  {
    if s != "" {
      NoEmptyNames(Step(w, s[0], sep), s[1..], sep);
    }
  }

  /** What a path names when it is counted from a level above the root. */
  function FromLevel(path: string, sep: char): Walk {
    Finish(Run(LEVEL, Slashed(path, sep), sep))
  }

  /** The path begins with an even number of separators. */
  predicate EvenLead(path: string, sep: char) {
    Absolute(path, sep) && Leads(Slashed(path, sep), sep) % 2 == 0
  }

  lemma LeadOfFull(path: string, sep: char)
    ensures GroundOf(Full(path, sep), sep) == if EvenLead(path, sep) then LEVEL else START
  {
    if !Absolute(path, sep) {
      LeadsAre(Full(path, sep), sep, 1);
    }
  }

  lemma LevelReading(path: string, sep: char)
    ensures Levelled(Meaning(path, sep), FromLevel(path, sep))
  {
    LevelledRun(START, LEVEL, Slashed(path, sep), sep);
    LevelledFinish(Run(START, Slashed(path, sep), sep), Run(LEVEL, Slashed(path, sep), sep));
  }

  lemma CleanStaysBelow(r: string, sep: char)
    requires Clean(r, sep)
    ensures !Finish(Run(START, r, sep)).climbed
  {
    hide Run, Finish;
    NoClimb(START, r, |r|, sep);
    assert r[..|r|] == r;
    NoClimbAtEnd(START, r, sep);
  }

  /** What an ended path is read as from the ground: the level is not seen there. */
  lemma EndedFromGround(r: string, m: Walk, sep: char)
    requires (r == "" || Clean(r, sep)) && Ended(r, m, sep) && AtRest(m)
    ensures "" !in m.stack ==> Finish(Run(START, r, sep)) == m && !Doubled(r, sep)
    ensures forall names :: m.stack == [""] + names ==> Finish(Run(START, r, sep)) == m.(stack := names)
  {
    SepRuns(START, sep);
    NoEmptyNames(START, r, sep);
    if r != "" {
      CleanStaysBelow(r, sep);
    }
    LevelledRun(START, LEVEL, r, sep);
    LevelledFinish(Run(START, r, sep), Run(LEVEL, r, sep));
    FinishTwice(Run(START, r, sep));
    forall names | m.stack == [""] + names ensures Finish(Run(START, r, sep)) == m.(stack := names) {
      assert m.stack[0] == "" && m.stack[1..] == names;
    }
  }

  /** A normalised path names the same components as the path itself, unless that climbs above the
      root. One that climbs becomes the root, unless it begins with an even number of separators:
      these stand for one level more, and only a path that also climbs above that, or names nothing
      when it is counted from there, becomes the root. Otherwise what it names is counted from there. */
  lemma NormalizeMeaning(path: string, sep: char)
    requires sep != '.'
    ensures !Meaning(path, sep).climbed ==> Meaning(Normalize(path, sep), sep) == Meaning(path, sep)
    ensures Meaning(path, sep).climbed ==>
              var w := FromLevel(path, sep);
              && (Normalize(path, sep) == (if Absolute(path, sep) then [sep] else "") <==>
                  !EvenLead(path, sep) || w.climbed || w.stack == [])
              && (EvenLead(path, sep) && !w.climbed ==> Meaning(Normalize(path, sep), sep) == w)
  {
    var full := Full(path, sep);
    var r := Resolved(full, sep);
    FullMeans(path, sep);
    LeadOfFull(path, sep);
    NormalizeStrips(path, sep);
    NormalizeShape(path, sep);
    LevelReading(path, sep);
    ResolvedIsClean(full, sep);
    ResolvedMeans(full, sep);
    NoEmptyNames(START, full, sep);
    RestAfter(START, full, sep);
    RestAfter(LEVEL, full, sep);
    hide Resolved, Run, Finish, Clean, Full, Normalize, NoBackslash, Leads, Ended;
    var m := Finish(Run(GroundOf(full, sep), full, sep));
    if !m.climbed {
      EndedFromGround(r, m, sep);
      RootNamesNothing(path, sep);
    }
  }

  lemma RestAfter(w: Walk, s: string, sep: char)
    ensures Finish(Run(w, s, sep)).current == ""
  {
    FinishTwice(Run(w, s, sep));
  }

  /** What is left is the root exactly when it names nothing and does not begin with two separators. */
  lemma RootNamesNothing(path: string, sep: char)
    requires sep != '.'
    ensures var r := Resolved(Full(path, sep), sep);
            !Doubled(r, sep) ==>
              (Normalize(path, sep) == (if Absolute(path, sep) then [sep] else "") <==> Finish(Run(START, r, sep)).stack == [])
  {
    var r := Resolved(Full(path, sep), sep);
    ResolvedIsClean(Full(path, sep), sep);
    SepRuns(START, sep);
    if r != "" && |r| > 1 && !Doubled(r, sep) {
      CleanNamesSomething(r, sep);
    }
    hide Resolved;
    assert r == [sep] ==> r[1..] == "";
    assert |r| == 1 ==> r == [sep];
  }

  // ------------------------------------------------------------------ the loops

  /** Shortens every occurrence of a pattern. */
  method SqueezeAll(s: string, pat: string, from: nat, drop: nat) returns (r: string)
    requires 0 < drop <= |pat|
    ensures r == Squeeze(s, pat, from, drop)
  {
    hide FindSub;
    r := s;
    while true
      invariant Squeeze(r, pat, from, drop) == Squeeze(s, pat, from, drop)
      decreases |r|
    {
      var index := FindSub(r, pat, from);
      if index < 0 {
        break;
      }
      r := r[..index] + r[index + drop..];
    }
  }

  /** Resolves "..": false when the root is all that is left. */
  method ResolveParents(s: string, sep: char) returns (below: bool, r: string)
    ensures Ascend(s, sep) == if below then r else ""
  {
    r := s;
    while true
      invariant Ascend(r, sep) == Ascend(s, sep)
      decreases |r|
    {
      var index := FindSub(r, [sep, '.', '.', sep], 0);
      if index < 0 {
        return true, r;
      }
      if index == 0 {
        return false, r;
      }
      var index2 := FindLastOf(r, sep, index - 1);
      if index2 < 0 {
        return false, r;
      }
      r := r[..index2] + r[index + 3..];
    }
  }

  method NormalizePath(path: string, sep: char) returns (r: string)
    ensures r == Normalize(path, sep)
    ensures sep != '.' ==> Clean(Rooted(r, sep), sep) && Normalize(r, sep) == r
    ensures sep != '.' && !Meaning(path, sep).climbed ==> Meaning(r, sep) == Meaning(path, sep)
  {
    if sep != '.' {
      NormalizeShape(path, sep);
      NormalizeIdempotent(path, sep);
      NormalizeMeaning(path, sep);
    }
    hide Meaning, Clean, Ascend, Squeeze, Ending, Slashed, Rooted;
    var s := ReplaceBackslashes(path, sep);
    var slashAdded := s == "" || s[0] != sep;
    if slashAdded {
      s := [sep] + s;
    }
    s := SqueezeAll(s, [sep, sep, sep], 0, 2);
    s := SqueezeAll(s, [sep, sep], 1, 1);
    s := SqueezeAll(s, [sep, '.', sep], 0, 2);
    r := FinishPath(s, sep, slashAdded);
  }

  method ReplaceBackslashes(path: string, sep: char) returns (s: string)
    ensures s == Slashed(path, sep)
  {
    s := "";
    assert path[0..] == path;
    for i := 0 to |path|
      invariant s + Slashed(path[i..], sep) == Slashed(path, sep)
    {
      assert path[i..][0] == path[i] && path[i..][1..] == path[i + 1..];
      s := s + [if path[i] == '\\' then sep else path[i]];
    }
  }

  /** What follows the squeezing: parents, the ending, and the separator that was added. */
  method FinishPath(squeezed: string, sep: char, slashAdded: bool) returns (r: string)
    ensures var t := Ending(Ascend(squeezed, sep), sep);
            r == if slashAdded then (if t == "" then "" else t[1..]) else (if t == "" then [sep] else t)
  {
    var below, s := ResolveParents(squeezed, sep);
    var root := if slashAdded then "" else [sep];
    hide Ascend;
    if !below {
      return root;
    }
    if EndsWith(s, [sep, '.']) {
      s := s[..|s| - 2];
    }
    if EndsWith(s, [sep, '.', '.']) {
      var index := |s| - 3;
      if index == 0 {
        return root;
      }
      var index2 := FindLastOf(s, sep, index - 1);
      if index2 < 0 {
        return root;
      }
      s := s[..index2];
    }
    if !slashAdded && s == "" {
      s := [sep];
    }
    return if !slashAdded || s == "" then s else s[1..];
  }

  lemma NothingToSqueeze(p: string)
    requires p == ['/', '/', '.', '.', '/', 'x']
    ensures Slashed(p, '/') == p && Squeezed(p, '/') == p
  {
    forall j: nat ensures !OccursAt(p, Dot('/'), j) && !OccursAt(p, ['/', '/', '/'], j) && (j > 0 ==> !OccursAt(p, ['/', '/'], j)) {
      if j + 3 <= |p| {
        var window := p[j..j + 3];
        assert window[0] == p[j] && window[1] == p[j + 1] && window[2] == p[j + 2];
      }
      if j + 2 <= |p| {
        var window := p[j..j + 2];
        assert window[0] == p[j] && window[1] == p[j + 1];
      }
    }
    SlashedStays(p, '/');
  }

  lemma UpFromDoubleLead(p: string)
    requires p == ['/', '/', '.', '.', '/', 'x']
    ensures OccursAt(p, DotDot('/'), 1) && Ascend(p, '/') == ['/', 'x']
  {
    assert p[1..5] == DotDot('/') && p[0..4][1] == p[1] && DotDot('/')[1] == '.';
    assert FindSub(p, DotDot('/'), 0) == 1;
    assert FindLastOf(p, '/', 0) == 0;
    assert Cut(p, 0, 4) == ['/', 'x'];
    assert FindSub(['/', 'x'], DotDot('/'), 0) == -1;
  }

  lemma DoubleLeadClimbs(p: string)
    requires p == ['/', '/', '.', '.', '/', 'x']
    ensures Finish(Run(START, p, '/')).climbed
  {
    assert p == ['/'] + (DotDot('/') + ['x']);
    LeadingIsNothing(DotDot('/') + ['x'], '/');
    DotDotClimbs(START, '/');
    RunConcat(START, DotDot('/'), ['x'], '/');
    ClimbedStays(Run(START, DotDot('/'), '/'), ['x'], '/');
    FinishClimbs(Run(START, p, '/'));
  }

  /** Two leading separators count as a level: here a path climbs without becoming the root. */
  lemma DoubleLeadIsALevel()
    ensures Meaning("//../x", '/').climbed && Normalize("//../x", '/') == "/x"
  {
    hide Squeezed, Slashed, Run, Ascend, OccursAt, FindSub, Finish;
    var p: string := ['/', '/', '.', '.', '/', 'x'];
    NothingToSqueeze(p);
    UpFromDoubleLead(p);
    var r: string := ['/', 'x'];
    assert r[0..] == r && Ending(r, '/') == r;
    DoubleLeadClimbs(p);
  }
}
