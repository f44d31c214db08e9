/** Splitting a text at the separators that stand outside all brackets. */
module BracketSplit {

  import opened Collections

  /** The separator and the brackets. */
  datatype Marks = Marks(separator: char, open: char, close: char)

  function Turn(m: Marks, c: char): int {
    if c == m.open then 1 else if c == m.close then -1 else 0
  }

  predicate Cuts(m: Marks, c: char) {
    c != m.open && c != m.close && c == m.separator
  }

  /** Splits what is left of a text, given what the current piece has so far. */
  function SplitRest(m: Marks, s: string, piece: string, depth: nat): Option<seq<string>>
    decreases |s|
  {
    if s == "" then (if depth != 0 then None else Some(if piece == "" then [] else [piece]))
    else if depth + Turn(m, s[0]) < 0 then None
    else if depth == 0 && Cuts(m, s[0]) then
      var r := SplitRest(m, s[1..], "", 0);
      if r.None? then None else Some([piece] + r.value)
    else SplitRest(m, s[1..], piece + [s[0]], depth + Turn(m, s[0]))
  }

  function Split(m: Marks, s: string): Option<seq<string>> {
    SplitRest(m, s, "", 0)
  }

  // ------------------------------------------------------------------ balance

  /** No bracket closes that was not opened, and from this depth all are closed. */
  ghost predicate Balanced(m: Marks, s: string, depth: int) {
    depth >= 0 && if s == "" then depth == 0 else Balanced(m, s[1..], depth + Turn(m, s[0]))
  }

  /** A text can be split exactly when its brackets are balanced. */
  lemma {:induction false} SplitsIffBalanced(m: Marks, s: string, piece: string, depth: nat)
    ensures SplitRest(m, s, piece, depth).Some? <==> Balanced(m, s, depth)
    decreases |s|
  {
    if s != "" {
      if depth + Turn(m, s[0]) >= 0 {
        SplitsIffBalanced(m, s[1..], if depth == 0 && Cuts(m, s[0]) then "" else piece + [s[0]], depth + Turn(m, s[0]));
      }
    }
  }

  // ------------------------------------------------------------------ rejoining

  function Join(pieces: seq<string>, separator: char): string {
    if pieces == [] then "" else if |pieces| == 1 then pieces[0]
    else pieces[0] + [separator] + Join(pieces[1..], separator)
  }

  /** The separator that a text ends with is the only one that splitting loses. */
  ghost predicate Rejoins(m: Marks, whole: string, pieces: seq<string>) {
    || whole == Join(pieces, m.separator)
    || whole == Join(pieces, m.separator) + [m.separator]
  }

  lemma RejoinsFront(m: Marks, piece: string, tail: string, rest: seq<string>)
    requires Rejoins(m, tail, rest) && (rest == [] ==> tail == "")
    ensures Rejoins(m, piece + [m.separator] + tail, [piece] + rest)
  {
    assert ([piece] + rest)[1..] == rest;
  }

  lemma {:induction false} SplitRejoins(m: Marks, s: string, piece: string, depth: nat)
    requires SplitRest(m, s, piece, depth).Some?
    ensures Rejoins(m, piece + s, SplitRest(m, s, piece, depth).value)
    decreases |s|
  {
    if s == "" {
      assert piece + s == piece;
    } else if depth == 0 && Cuts(m, s[0]) {
      hide Rejoins;
      SplitRejoins(m, s[1..], "", 0);
      var rest := SplitRest(m, s[1..], "", 0).value;
      assert "" + s[1..] == s[1..];
      assert piece + s == piece + [m.separator] + s[1..];
      if rest == [] {
        EmptyJoin(m, s[1..], rest);
      }
      RejoinsFront(m, piece, s[1..], rest);
    } else {
      hide Rejoins;
      SplitRejoins(m, s[1..], piece + [s[0]], depth + Turn(m, s[0]));
      assert piece + [s[0]] + s[1..] == piece + s;
    }
  }

  lemma EmptyJoin(m: Marks, s: string, pieces: seq<string>)
    requires pieces == [] && Split(m, s) == Some(pieces)
    ensures s == ""
  {
    if s != "" {
      NonemptySplit(m, s, "", 0);
    }
  }

  lemma {:induction false} NonemptySplit(m: Marks, s: string, piece: string, depth: nat)
    requires (s != "" || piece != "") && SplitRest(m, s, piece, depth).Some?
    ensures SplitRest(m, s, piece, depth).value != []
    decreases |s|
  {
    if s != "" && !(depth == 0 && Cuts(m, s[0])) {
      NonemptySplit(m, s[1..], piece + [s[0]], depth + Turn(m, s[0]));
    }
  }

  // ------------------------------------------------------------------ joined pieces split again

  /** From depth `from` to depth `to` without a separator that is outside all brackets. */
  ghost predicate Uncut(m: Marks, s: string, from: int, to: int) {
    from >= 0 && if s == "" then from == to
                 else !(from == 0 && Cuts(m, s[0])) && Uncut(m, s[1..], from + Turn(m, s[0]), to)
  }

  /** A piece: balanced, and no separator of it is outside all brackets. */
  ghost predicate IsPiece(m: Marks, s: string) {
    Uncut(m, s, 0, 0)
  }

  lemma {:induction false} UncutAppend(m: Marks, s: string, from: int, to: int, t: string, end: int)
    requires Uncut(m, s, from, to) && Uncut(m, t, to, end)
    ensures Uncut(m, s + t, from, end)
    decreases |s|
  {
    if s == "" {
      assert s + t == t;
    } else {
      assert (s + t)[1..] == s[1..] + t;
      UncutAppend(m, s[1..], from + Turn(m, s[0]), to, t, end);
    }
  }

  /** Splitting cuts at all separators outside the brackets. */
  lemma {:induction false} SplitGivesPieces(m: Marks, s: string, piece: string, depth: nat, i: nat)
    requires Uncut(m, piece, 0, depth) && SplitRest(m, s, piece, depth).Some? && i < |SplitRest(m, s, piece, depth).value|
    ensures IsPiece(m, SplitRest(m, s, piece, depth).value[i])
    decreases |s|
  {
    if s != "" {
      if depth == 0 && Cuts(m, s[0]) {
        if i > 0 {
          SplitGivesPieces(m, s[1..], "", 0, i - 1);
        }
      } else {
        assert Uncut(m, [s[0]], depth, depth + Turn(m, s[0])) by {
          assert [s[0]][1..] == "";
        }
        UncutAppend(m, piece, 0, depth, [s[0]], depth + Turn(m, s[0]));
        SplitGivesPieces(m, s[1..], piece + [s[0]], depth + Turn(m, s[0]), i);
      }
    }
  }

  lemma {:induction false} PieceGoesOn(m: Marks, a: string, rest: string, piece: string, depth: nat)
    requires Uncut(m, a, depth, 0)
    ensures SplitRest(m, a + rest, piece, depth) == SplitRest(m, rest, piece + a, 0)
    decreases |a|
  {
    if a == "" {
      assert a + rest == rest && piece + a == piece;
    } else {
      assert (a + rest)[1..] == a[1..] + rest && (a + rest)[0] == a[0];
      PieceGoesOn(m, a[1..], rest, piece + [a[0]], depth + Turn(m, a[0]));
      assert piece + [a[0]] + a[1..] == piece + a;
    }
  }

  /** Splitting undoes joining. */
  lemma {:induction false} SplitJoined(m: Marks, pieces: seq<string>)
    requires m.separator != m.open && m.separator != m.close
    requires forall i :: 0 <= i < |pieces| ==> IsPiece(m, pieces[i]) && pieces[i] != ""
    ensures Split(m, Join(pieces, m.separator)) == Some(pieces)
  {
    if |pieces| == 1 {
      PieceGoesOn(m, pieces[0], "", "", 0);
      assert pieces[0] + "" == pieces[0] && "" + pieces[0] == pieces[0] && pieces == [pieces[0]];
    } else if |pieces| > 1 {
      var rest := Join(pieces[1..], m.separator);
      PieceGoesOn(m, pieces[0], [m.separator] + rest, "", 0);
      assert Join(pieces, m.separator) == pieces[0] + ([m.separator] + rest) && "" + pieces[0] == pieces[0];
      assert ([m.separator] + rest)[1..] == rest;
      SplitJoined(m, pieces[1..]);
      assert pieces == [pieces[0]] + pieces[1..];
    }
  }

  // ------------------------------------------------------------------ the loop

  /** What splitting will give when `output` is there, `b` begins the current piece and `p` is next. */
  function Outcome(m: Marks, s: string, output: seq<string>, b: nat, p: nat, depth: nat): Option<seq<string>>
    requires b <= p <= |s|
  {
    var r := SplitRest(m, s[p..], s[b..p], depth);
    if r.None? then None else Some(output + r.value)
  }

  lemma OutcomeStep(m: Marks, s: string, output: seq<string>, b: nat, p: nat, depth: nat)
    requires b <= p < |s|
    ensures var r := Outcome(m, s, output, b, p, depth);
            if depth + Turn(m, s[p]) < 0 then r == None
            else if depth == 0 && Cuts(m, s[p]) then r == Outcome(m, s, output + [s[b..p]], p + 1, p + 1, 0)
            else r == Outcome(m, s, output, b, p + 1, depth + Turn(m, s[p]))
  {
    assert s[p..][0] == s[p] && s[p..][1..] == s[p + 1..];
    assert s[b..p] + [s[p]] == s[b..p + 1] && s[p + 1..p + 1] == "";
    if depth == 0 && Cuts(m, s[p]) {
      var r := SplitRest(m, s[p + 1..], "", 0);
      assert r.Some? ==> output + ([s[b..p]] + r.value) == output + [s[b..p]] + r.value;
    }
  }

  lemma OutcomeEnds(m: Marks, s: string, output: seq<string>, b: nat, depth: nat)
    requires b <= |s|
    ensures Outcome(m, s, [], 0, 0, 0) == Split(m, s)
    ensures Outcome(m, s, output, b, |s|, depth) ==
            if depth != 0 then None else Some(output + if b == |s| then [] else [s[b..]])
  {
    assert s[0..] == s && s[0..0] == "" && s[|s|..] == "" && s[b..|s|] == s[b..];
    assert Split(m, s).Some? ==> [] + Split(m, s).value == Split(m, s).value;
  }

  method SplitBracketedString(s: string, m: Marks) returns (r: Option<seq<string>>)
    ensures r == Split(m, s)
    ensures r.Some? <==> Balanced(m, s, 0)
    ensures r.Some? ==> Rejoins(m, s, r.value) && forall i :: 0 <= i < |r.value| ==> IsPiece(m, r.value[i])
  {
    SplitMeans(m, s);
    hide Split, Outcome, Balanced, Rejoins, IsPiece;
    var b, p, depth := 0, 0, 0;
    var output: seq<string> := [];
    OutcomeEnds(m, s, output, b, depth);
    while p < |s|
      invariant 0 <= b <= p <= |s| && depth >= 0
      invariant Split(m, s) == Outcome(m, s, output, b, p, depth)
    {
      OutcomeStep(m, s, output, b, p, depth);
      if s[p] == m.open {
        depth := depth + 1;
      } else if s[p] == m.close {
        depth := depth - 1;
      } else if s[p] == m.separator && depth == 0 {
        output := output + [s[b..p]];
        b := p + 1;
      }
      p := p + 1;
      if depth < 0 {
        return None;
      }
    }
    OutcomeEnds(m, s, output, b, depth);
    assert output + [] == output;
    if depth == 0 && p > b {
      output := output + [s[b..]];
    }
    r := if depth == 0 then Some(output) else None;
  }

  /** Balanced texts, and no others, are split into all their pieces. */
  lemma SplitMeans(m: Marks, s: string)
    ensures Split(m, s).Some? <==> Balanced(m, s, 0)
    ensures Split(m, s).Some? ==> Rejoins(m, s, Split(m, s).value)
    ensures Split(m, s).Some? ==> forall i :: 0 <= i < |Split(m, s).value| ==> IsPiece(m, Split(m, s).value[i])
  {
    SplitsIffBalanced(m, s, "", 0);
    if Split(m, s).Some? {
      SplitRejoins(m, s, "", 0);
      assert "" + s == s;
      forall i | 0 <= i < |Split(m, s).value| ensures IsPiece(m, Split(m, s).value[i]) {
        SplitGivesPieces(m, s, "", 0, i);
      }
    }
  }
}
