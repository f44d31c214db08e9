/** Classifiers written as text: names with arguments in brackets. What the program aborts on is an
    error here. */
module IpClassifiers {
  import opened Collections
  import opened CString
  import opened BracketSplit

  datatype Classifier =
    | Nothing
    | And(members: seq<Classifier>)
    | Or(members: seq<Classifier>)
    | Not(member: Classifier)
    | Filter(spec: string)
    | FilterFile(path: string)

  datatype Error = MissingOpen | MissingClose | ClosedBeforeOpen | UnknownName(name: string) | Unbalanced(members: string)

  datatype Result<T> = Ok(value: T) | Err(error: Error)

  const COMMAS := Marks(',', '(', ')')

  // ------------------------------------------------------------------ trimming and searching

  /** The last position of a character, or -1. */
  function FindLast(s: string, c: char): (i: int)
    ensures -1 <= i < |s| && (i >= 0 ==> s[i] == c) && forall j :: i < j < |s| ==> s[j] != c
  {
    if s == "" then -1 else if s[|s| - 1] == c then |s| - 1 else FindLast(s[..|s| - 1], c)
  }

  function TrimEnd(s: string): (r: string)
    ensures |r| <= |s| && (r == "" || !IsSpace(r[|r| - 1]))
    ensures s == "" || !IsSpace(s[|s| - 1]) ==> r == s
  {
    if s != "" && IsSpace(s[|s| - 1]) then TrimEnd(s[..|s| - 1]) else s
  }

  function Trim(s: string): (r: string)
    ensures |r| <= |s|
  {
    TrimEnd(SkipSpaces(s))
  }

  predicate Trimmed(s: string) {
    s == "" || (!IsSpace(s[0]) && !IsSpace(s[|s| - 1]))
  }

  method SpacesBefore(s: string) returns (i: nat)
    ensures i <= |s| && s[i..] == SkipSpaces(s)
  {
    hide IsSpace;
    i := 0;
    assert s[0..] == s;
    while i < |s| && IsSpace(s[i])
      invariant i <= |s| && SkipSpaces(s[i..]) == SkipSpaces(s)
    {
      assert s[i..][1..] == s[i + 1..] && s[i..][0] == s[i];
      i := i + 1;
    }
    assert i < |s| ==> s[i..][0] == s[i];
  }

  method SpacesAfter(s: string) returns (j: nat)
    ensures j <= |s| && s[..j] == TrimEnd(s)
  {
    hide IsSpace;
    j := |s|;
    assert s[..j] == s;
    while j > 0 && IsSpace(s[j - 1])
      invariant j <= |s| && TrimEnd(s[..j]) == TrimEnd(s)
    {
      assert s[..j][..j - 1] == s[..j - 1] && s[..j][j - 1] == s[j - 1];
      j := j - 1;
    }
    assert j > 0 ==> s[..j][j - 1] == s[j - 1];
  }

  method StrTrim(s: string) returns (r: string)
    ensures r == Trim(s)
  {
    var i := SpacesBefore(s);
    var j := SpacesAfter(s[i..]);
    return s[i..][..j];
  }

  // ------------------------------------------------------------------ parsing

  /** The name and the argument of a specification. What follows the last bracket is ignored. */
  function Parts(spec: string): (r: Result<(string, string)>)
    ensures r.Ok? ==> |r.value.0| + |r.value.1| < |spec|
  {
    var open, close := Find(spec, '('), FindLast(spec, ')');
    if open == |spec| then Err(MissingOpen)
    else if close < 0 then Err(MissingClose)
    else if close <= open then Err(ClosedBeforeOpen)
    else Ok((Trim(spec[..open]), Trim(spec[open + 1..close])))
  }

  function Create(spec: string): Result<Classifier>
    decreases |spec|, 0
  {
    var parts := Parts(spec);
    if parts.Err? then Err(parts.error)
    else
      var (name, arg) := parts.value;
      if name == "NONE" then Ok(Nothing)
      else if name == "AND" then
        var members := CreateMembers(arg);
        if members.Err? then Err(members.error) else Ok(And(members.value))
      else if name == "OR" then
        var members := CreateMembers(arg);
        if members.Err? then Err(members.error) else Ok(Or(members.value))
      else if name == "NOT" then
        var member := Create(arg);
        if member.Err? then member else Ok(Not(member.value))
      else if name == "IPFILTER" then Ok(Filter(arg))
      else if name == "IPFILTERFILE" then Ok(FilterFile(arg))
      else Err(UnknownName(name))
  }

  function CreateMembers(arg: string): Result<seq<Classifier>>
    decreases |arg| + 1, 0
  {
    var pieces := Split(COMMAS, CStr(arg));
    if pieces.None? then Err(Unbalanced(arg))
    else
      SplitIsShorter(COMMAS, CStr(arg), "", 0);
      CreateEach(pieces.value, |arg| + 1)
  }

  /** Creates the members in order, up to the first that cannot be created. */
  function CreateEach(pieces: seq<string>, bound: nat): Result<seq<Classifier>>
    requires forall i :: 0 <= i < |pieces| ==> |pieces[i]| < bound
    decreases bound, 0, |pieces|
  {
    if pieces == [] then Ok([])
    else
      var first := Create(pieces[0]);
      if first.Err? then Err(first.error)
      else
        var rest := CreateEach(pieces[1..], bound);
        if rest.Err? then rest else Ok([first.value] + rest.value)
  }

  /** Pieces are no longer than what was split. */
  lemma {:induction false} SplitIsShorter(m: Marks, s: string, piece: string, depth: nat)
    ensures var r := SplitRest(m, s, piece, depth); r.Some? ==> forall i :: 0 <= i < |r.value| ==> |r.value[i]| <= |piece| + |s|
    decreases |s|
  {
    if s != "" && depth + Turn(m, s[0]) >= 0 {
      if depth == 0 && Cuts(m, s[0]) {
        SplitIsShorter(m, s[1..], "", 0);
        var rest := SplitRest(m, s[1..], "", 0);
        if rest.Some? {
          var all := [piece] + rest.value;
          forall i | 0 <= i < |all| ensures |all[i]| <= |piece| + |s| {
            assert all[i] == if i == 0 then piece else rest.value[i - 1];
          }
        }
      } else {
        SplitIsShorter(m, s[1..], piece + [s[0]], depth + Turn(m, s[0]));
      }
    }
  }

  method SplitSpec(spec: string) returns (r: Result<(string, string)>)
    ensures r == Parts(spec)
  {
    var open, close := Find(spec, '('), FindLast(spec, ')');
    if open == |spec| {
      return Err(MissingOpen);
    }
    if close < 0 {
      return Err(MissingClose);
    }
    if close <= open {
      return Err(ClosedBeforeOpen);
    }
    var name := StrTrim(spec[..open]);
    var arg := StrTrim(spec[open + 1..close]);
    return Ok((name, arg));
  }

  /** Parses a specification; an error is what the program aborts on. */
  method CreateClassifier(spec: string) returns (r: Result<Classifier>)
    ensures r == Create(spec)
    decreases |spec|, 0
  {
    hide Parts, CreateMembers;
    var parts := SplitSpec(spec);
    if parts.Err? {
      return Err(parts.error);
    }
    var (name, arg) := parts.value;
    if name == "NONE" {
      r := Ok(Nothing);
    } else if name == "AND" {
      var members := SplitClassifiers(arg);
      r := if members.Err? then Err(members.error) else Ok(And(members.value));
    } else if name == "OR" {
      var members := SplitClassifiers(arg);
      r := if members.Err? then Err(members.error) else Ok(Or(members.value));
    } else if name == "NOT" {
      var member := CreateClassifier(arg);
      r := if member.Err? then member else Ok(Not(member.value));
    } else if name == "IPFILTER" {
      r := Ok(Filter(arg));
    } else if name == "IPFILTERFILE" {
      r := Ok(FilterFile(arg));
    } else {
      r := Err(UnknownName(name));
    }
  }

  method SplitClassifiers(arg: string) returns (r: Result<seq<Classifier>>)
    ensures r == CreateMembers(arg)
    decreases |arg| + 1, 1
  {
    hide Split, IsPiece, Rejoins, Balanced, CreateEach, CStr;
    PiecesAreShort(arg);
    var components := SplitBracketedString(CStr(arg), COMMAS);
    if components.None? {
      return Err(Unbalanced(arg));
    }
    r := AddMembers(components.value, |arg| + 1);
  }

  lemma PiecesAreShort(arg: string)
    ensures var r := Split(COMMAS, CStr(arg)); r.Some? ==> forall i :: 0 <= i < |r.value| ==> |r.value[i]| < |arg| + 1
  {
    hide SplitRest;
    SplitIsShorter(COMMAS, CStr(arg), "", 0);
    assert |CStr(arg)| <= |arg|;
  }

  method AddMembers(pieces: seq<string>, ghost bound: nat) returns (r: Result<seq<Classifier>>)
    requires forall i :: 0 <= i < |pieces| ==> |pieces[i]| < bound
    ensures r == CreateEach(pieces, bound)
    decreases bound, 0
  {
    hide Create;
    var members: seq<Classifier> := [];
    assert pieces[0..] == pieces;
    ghost var all := CreateEach(pieces, bound);
    assert all.Ok? ==> [] + all.value == all.value;
    for i := 0 to |pieces|
      invariant CreateEach(pieces, bound) == Following(members, CreateEach(pieces[i..], bound))
    {
      assert pieces[i..][0] == pieces[i] && pieces[i..][1..] == pieces[i + 1..];
      var member := CreateClassifier(pieces[i]);
      if member.Err? {
        return Err(member.error);
      }
      FollowingOne(members, member.value, CreateEach(pieces[i + 1..], bound));
      members := members + [member.value];
    }
    assert members + [] == members;
    return Ok(members);
  }

  function Following(members: seq<Classifier>, rest: Result<seq<Classifier>>): Result<seq<Classifier>> {
    if rest.Err? then rest else Ok(members + rest.value)
  }

  lemma FollowingOne(members: seq<Classifier>, member: Classifier, rest: Result<seq<Classifier>>)
    ensures Following(members, if rest.Err? then rest else Ok([member] + rest.value)) == Following(members + [member], rest)
  {
    assert rest.Ok? ==> members + ([member] + rest.value) == members + [member] + rest.value;
  }

  // ------------------------------------------------------------------ printing

  function Print(c: Classifier): string {
    match c
    case Nothing => "NONE" + Bracketed("")
    case And(members) => "AND" + Bracketed(Join(PrintAll(members), ','))
    case Or(members) => "OR" + Bracketed(Join(PrintAll(members), ','))
    case Not(member) => "NOT" + Bracketed(Print(member))
    case Filter(spec) => "IPFILTER" + Bracketed(spec)
    case FilterFile(path) => "IPFILTERFILE" + Bracketed(path)
  }

  function Bracketed(arg: string): string {
    "(" + arg + ")"
  }

  function PrintAll(members: seq<Classifier>): seq<string> {
    if members == [] then [] else [Print(members[0])] + PrintAll(members[1..])
  }

  /** Texts that can stand in brackets and come back unchanged. */
  ghost predicate PlainArgument(s: string) {
    Trimmed(s) && forall i :: 0 <= i < |s| ==> s[i] != '(' && s[i] != ')' && s[i] != '\0'
  }

  ghost predicate Printable(c: Classifier) {
    match c
    case Nothing => true
    case And(members) => forall m :: m in members ==> Printable(m)
    case Or(members) => forall m :: m in members ==> Printable(m)
    case Not(member) => Printable(member)
    case Filter(spec) => PlainArgument(spec)
    case FilterFile(path) => PlainArgument(path)
  }

  /** What every printed classifier looks like from outside. */
  ghost predicate LooksPrinted(s: string) {
    && s != "" && !IsSpace(s[0]) && s[|s| - 1] == ')' && '\0' !in s && IsPiece(COMMAS, s)
  }

  /** A name in front of brackets. */
  ghost predicate IsName(name: string) {
    name != "" && Trimmed(name) && forall i :: 0 <= i < |name| ==> name[i] != '(' && name[i] != ')' && name[i] != ',' && name[i] != '\0'
  }

  lemma TrimOfTrimmed(s: string)
    requires Trimmed(s)
    ensures Trim(s) == s
  {
    hide IsSpace;
  }

  lemma PartsOf(name: string, arg: string)
    requires IsName(name) && Trimmed(arg)
    ensures Parts(name + Bracketed(arg)) == Ok((name, arg))
  {
    hide Trim, Trimmed;
    TrimOfTrimmed(name);
    TrimOfTrimmed(arg);
    var spec := name + Bracketed(arg);
    assert spec[|name|] == '(' && spec[|spec| - 1] == ')';
    assert Find(spec, '(') == |name| by {
      assert forall j :: 0 <= j < |name| ==> spec[j] == name[j];
    }
    assert FindLast(spec, ')') == |spec| - 1;
    assert spec[..|name|] == name && spec[|name| + 1..|spec| - 1] == arg;
  }

  /** Text without brackets and separators leaves the depth alone. */
  lemma {:induction false} PlainIsUncut(s: string, depth: nat)
    requires forall i :: 0 <= i < |s| ==> s[i] != '(' && s[i] != ')' && (depth > 0 || s[i] != ',')
    ensures Uncut(COMMAS, s, depth, depth)
  {
    if s != "" {
      PlainIsUncut(s[1..], depth);
    }
  }

  /** Inside brackets a piece is still uncut. */
  lemma {:induction false} DeeperIsUncut(s: string, from: int, to: int)
    requires Balanced(COMMAS, s, from) && to == 0
    ensures Uncut(COMMAS, s, from + 1, to + 1)
    decreases |s|
  {
    if s != "" {
      DeeperIsUncut(s[1..], from + Turn(COMMAS, s[0]), to);
    }
  }

  lemma LooksPrintedFrom(name: string, arg: string)
    requires IsName(name) && '\0' !in arg && Balanced(COMMAS, arg, 0)
    ensures LooksPrinted(name + Bracketed(arg))
  {
    var s := name + Bracketed(arg);
    PlainIsUncut(name, 0);
    assert Uncut(COMMAS, "(", 0, 1) && Uncut(COMMAS, ")", 1, 0) by {
      assert "("[1..] == "" && ")"[1..] == "";
    }
    DeeperIsUncut(arg, 0, 0);
    UncutAppend(COMMAS, name, 0, 0, "(", 1);
    UncutAppend(COMMAS, name + "(", 0, 1, arg, 1);
    UncutAppend(COMMAS, name + "(" + arg, 0, 1, ")", 0);
    assert s == name + "(" + arg + ")";
    assert s[0] == name[0];
  }

  lemma {:induction false} UncutIsBalanced(s: string, from: int)
    requires Uncut(COMMAS, s, from, 0)
    ensures Balanced(COMMAS, s, from)
    decreases |s|
  {
    if s != "" {
      UncutIsBalanced(s[1..], from + Turn(COMMAS, s[0]));
    }
  }

  lemma {:induction false} BalancedAppend(s: string, from: int, t: string)
    requires Balanced(COMMAS, s, from) && Balanced(COMMAS, t, 0)
    ensures Balanced(COMMAS, s + t, from)
    decreases |s|
  {
    if s == "" {
      assert s + t == t;
    } else {
      assert (s + t)[1..] == s[1..] + t;
      BalancedAppend(s[1..], from + Turn(COMMAS, s[0]), t);
    }
  }

  lemma {:induction false} JoinLooks(pieces: seq<string>)
    requires forall i :: 0 <= i < |pieces| ==> LooksPrinted(pieces[i])
    ensures var s := Join(pieces, ',');
            && '\0' !in s && Balanced(COMMAS, s, 0)
            && (pieces != [] ==> s != "" && !IsSpace(s[0]) && s[|s| - 1] == ')')
  {
    if pieces != [] {
      UncutIsBalanced(pieces[0], 0);
      if |pieces| > 1 {
        var rest := Join(pieces[1..], ',');
        JoinLooks(pieces[1..]);
        assert Balanced(COMMAS, [','] + rest, 0) by {
          assert ([','] + rest)[1..] == rest;
        }
        BalancedAppend(pieces[0], 0, [','] + rest);
        assert Join(pieces, ',') == pieces[0] + ([','] + rest);
      }
    }
  }

  lemma NamesAreNames()
    ensures IsName("NONE") && IsName("AND") && IsName("OR") && IsName("NOT") && IsName("IPFILTER") && IsName("IPFILTERFILE")
  {
  }

  lemma {:induction false} PrintLooks(c: Classifier)
    requires Printable(c)
    ensures LooksPrinted(Print(c))
    decreases c, 0
  {
    NamesAreNames();
    hide LooksPrinted, IsName;
    match c
    case Nothing => LooksPrintedFrom("NONE", "");
    case And(members) =>
      PrintAllLooks(members, c);
      JoinLooks(PrintAll(members));
      LooksPrintedFrom("AND", Join(PrintAll(members), ','));
    case Or(members) =>
      PrintAllLooks(members, c);
      JoinLooks(PrintAll(members));
      LooksPrintedFrom("OR", Join(PrintAll(members), ','));
    case Not(member) =>
      PrintLooks(member);
      PrintedArgument(Print(member));
      LooksPrintedFrom("NOT", Print(member));
    case Filter(spec) =>
      PlainIsBalanced(spec);
      LooksPrintedFrom("IPFILTER", spec);
    case FilterFile(path) =>
      PlainIsBalanced(path);
      LooksPrintedFrom("IPFILTERFILE", path);
  }

  lemma PrintedArgument(s: string)
    requires LooksPrinted(s)
    ensures '\0' !in s && Balanced(COMMAS, s, 0) && Trimmed(s)
  {
    UncutIsBalanced(s, 0);
  }

  lemma {:induction false} PlainIsBalanced(s: string)
    requires forall i :: 0 <= i < |s| ==> s[i] != '(' && s[i] != ')' && s[i] != '\0'
    ensures Balanced(COMMAS, s, 0) && '\0' !in s
  {
    if s != "" {
      PlainIsBalanced(s[1..]);
    }
  }

  lemma {:induction false} PrintAllLooks(members: seq<Classifier>, c: Classifier)
    requires forall m :: m in members ==> m < c && Printable(m)
    ensures forall i :: 0 <= i < |PrintAll(members)| ==> LooksPrinted(PrintAll(members)[i])
    decreases c, 0, |members|
  {
    hide LooksPrinted;
    if members != [] {
      assert members[0] in members && forall m :: m in members[1..] ==> m in members;
      PrintLooks(members[0]);
      PrintAllLooks(members[1..], c);
    }
  }

  // ------------------------------------------------------------------ parsing undoes printing

  /** Every classifier is created again from its canonical spelling. */
  lemma {:induction false} CreateOfPrint(c: Classifier)
    requires Printable(c)
    ensures Create(Print(c)) == Ok(c)
    decreases c, 1
  {
    NamesAreNames();
    hide IsName, Parts, LooksPrinted;
    match c
    case Nothing => PartsOf("NONE", "");
    case And(members) =>
      MembersOfPrint(members, c);
      PartsOf("AND", Join(PrintAll(members), ','));
    case Or(members) =>
      MembersOfPrint(members, c);
      PartsOf("OR", Join(PrintAll(members), ','));
    case Not(member) =>
      PrintLooks(member);
      PrintedArgument(Print(member));
      PartsOf("NOT", Print(member));
      CreateOfPrint(member);
    case Filter(spec) => PartsOf("IPFILTER", spec);
    case FilterFile(path) => PartsOf("IPFILTERFILE", path);
  }

  lemma MembersOfPrint(members: seq<Classifier>, c: Classifier)
    requires forall m :: m in members ==> m < c && Printable(m)
    ensures Trimmed(Join(PrintAll(members), ',')) && CreateMembers(Join(PrintAll(members), ',')) == Ok(members)
    decreases c, 0, |members| + 1
  {
    var pieces := PrintAll(members);
    var arg := Join(pieces, ',');
    PrintAllLooks(members, c);
    JoinLooks(pieces);
    assert forall i :: 0 <= i < |pieces| ==> LooksPrinted(pieces[i]) ==> IsPiece(COMMAS, pieces[i]) && pieces[i] != "";
    SplitJoined(COMMAS, pieces);
    assert CStr(arg) == arg;
    SplitIsShorter(COMMAS, arg, "", 0);
    assert Trimmed(arg);
    hide LooksPrinted, IsPiece, Trimmed, Create;
    EachOfPrint(members, c, |arg| + 1);
  }

  lemma {:induction false} EachOfPrint(members: seq<Classifier>, c: Classifier, bound: nat)
    requires forall m :: m in members ==> m < c && Printable(m)
    requires forall i :: 0 <= i < |PrintAll(members)| ==> |PrintAll(members)[i]| < bound
    ensures CreateEach(PrintAll(members), bound) == Ok(members)
    decreases c, 0, |members|
  {
    hide Create, Print;
    if members != [] {
      assert members[0] in members && forall m :: m in members[1..] ==> m in members;
      var all, rest := PrintAll(members), PrintAll(members[1..]);
      assert all[0] == Print(members[0]) && all[1..] == rest;
      assert forall i :: 0 <= i < |rest| ==> rest[i] == all[i + 1];
      CreateOfPrint(members[0]);
      EachOfPrint(members[1..], c, bound);
      assert members == [members[0]] + members[1..];
    }
  }

  // ------------------------------------------------------------------ any text

  lemma {:induction false} SpacesTrimmed(s: string, spaces: string)
    requires Spaces(spaces) && (s == "" || !IsSpace(s[|s| - 1]))
    ensures TrimEnd(s + spaces) == s
  {
    if spaces == "" {
      assert s + spaces == s;
    } else {
      assert (s + spaces)[..|s + spaces| - 1] == s + spaces[..|spaces| - 1];
      assert (s + spaces)[|s + spaces| - 1] == spaces[|spaces| - 1];
      SpacesTrimmed(s, spaces[..|spaces| - 1]);
    }
  }

  /** Trimming takes away all blanks at both ends, and nothing else. */
  lemma TrimMeans(before: string, s: string, after: string)
    requires Spaces(before) && Trimmed(s) && Spaces(after)
    ensures Trim(before + s + after) == s
  {
    if s == "" {
      assert before + s + after == before + after + "";
      assert forall i :: 0 <= i < |before + after| ==> IsSpace((before + after)[i]);
      SpacesSkipped(before + after, "");
    } else {
      assert before + s + after == before + (s + after);
      SpacesSkipped(before, s + after);
      SpacesTrimmed(s, after);
    }
  }

  /** Where a specification is cut: at its first opening bracket and its last closing one. Otherwise the
      error says which bracket is missing, or that they stand the wrong way round. */
  lemma PartsMeans(name: string, arg: string, rest: string)
    requires '(' !in name && ')' !in rest
    ensures Parts(name + "(" + arg + ")" + rest) == Ok((Trim(name), Trim(arg)))
    ensures Parts(name) == Err(MissingOpen)
    ensures ')' !in name + rest ==> Parts(name + "(" + rest) == Err(MissingClose)
    ensures ')' in name ==> Parts(name + "(" + rest) == Err(ClosedBeforeOpen)
  {
    hide Trim;
    var spec, bare := name + "(" + arg + ")" + rest, name + "(" + rest;
    assert spec[|name|] == '(' && bare[|name|] == '(';
    FirstIs(spec, '(', |name|);
    FirstIs(bare, '(', |name|);
    LastIs(spec, ')', |name| + 1 + |arg|);
    assert spec[..|name|] == name && spec[|name| + 1..|name| + 1 + |arg|] == arg;
    assert forall j :: |name| <= j < |bare| ==> bare[j] != ')';
    assert forall j :: 0 <= j < |name| ==> bare[j] == name[j];
  }

  lemma FirstIs(s: string, c: char, n: nat)
    requires n < |s| && s[n] == c && c !in s[..n]
    ensures Find(s, c) == n
  {
    assert forall i :: 0 <= i < n ==> s[..n][i] == s[i];
  }

  lemma LastIs(s: string, c: char, n: nat)
    requires n < |s| && s[n] == c && c !in s[n + 1..]
    ensures FindLast(s, c) == n
  {
    assert forall i :: n < i < |s| ==> s[n + 1..][i - n - 1] == s[i];
  }

  predicate IsKeyword(name: string) {
    name == "NONE" || name == "AND" || name == "OR" || name == "NOT" || name == "IPFILTER" || name == "IPFILTERFILE"
  }

  /** A specification with any other name is refused. */
  lemma UnknownIsRefused(name: string, arg: string, rest: string)
    requires '(' !in name && ')' !in rest && !IsKeyword(Trim(name))
    ensures Create(name + "(" + arg + ")" + rest) == Err(UnknownName(Trim(name)))
  {
    PartsMeans(name, arg, rest);
    hide Parts, Trim, CreateMembers;
  }

  /** So is a list of members that is not balanced. */
  lemma UnbalancedIsRefused(name: string, arg: string, rest: string)
    requires '(' !in name && ')' !in rest && (Trim(name) == "AND" || Trim(name) == "OR")
    requires Split(COMMAS, CStr(Trim(arg))).None?
    ensures Create(name + "(" + arg + ")" + rest) == Err(Unbalanced(Trim(arg)))
  {
    PartsMeans(name, arg, rest);
    NoMembers(Trim(arg));
    hide Parts, Trim, Split, CreateMembers;
  }

  lemma NoMembers(arg: string)
    requires Split(COMMAS, CStr(arg)).None?
    ensures CreateMembers(arg) == Err(Unbalanced(arg))
  {
  }

  /** Members in brackets are created in order. */
  lemma MembersMean(arg: string, pieces: seq<string>)
    requires Split(COMMAS, CStr(arg)) == Some(pieces) && forall i :: 0 <= i < |pieces| ==> Create(pieces[i]).Ok?
    ensures var r := CreateMembers(arg);
            r.Ok? && |r.value| == |pieces| && forall i :: 0 <= i < |pieces| ==> Create(pieces[i]) == Ok(r.value[i])
  {
    PiecesAreShort(arg);
    hide Create, Split;
    EachMeans(pieces, |arg| + 1);
  }

  lemma {:induction false} EachMeans(pieces: seq<string>, bound: nat)
    requires forall i :: 0 <= i < |pieces| ==> |pieces[i]| < bound
    requires forall i :: 0 <= i < |pieces| ==> Create(pieces[i]).Ok?
    ensures var r := CreateEach(pieces, bound);
            r.Ok? && |r.value| == |pieces| && forall i :: 0 <= i < |pieces| ==> Create(pieces[i]) == Ok(r.value[i])
  {
    hide Create;
    if pieces != [] {
      var rest := pieces[1..];
      assert forall i :: 0 <= i < |rest| ==> rest[i] == pieces[i + 1];
      EachMeans(rest, bound);
      var first, others := Create(pieces[0]).value, CreateEach(rest, bound).value;
      assert CreateEach(pieces, bound) == Ok([first] + others);
      forall i | 0 <= i < |pieces| ensures Create(pieces[i]) == Ok(([first] + others)[i]) {
        assert i > 0 ==> pieces[i] == rest[i - 1];
      }
    }
  }

  /** The first that cannot be created gives its error. */
  lemma FailedMemberMeans(arg: string, pieces: seq<string>, k: nat)
    requires Split(COMMAS, CStr(arg)) == Some(pieces) && k < |pieces| && Create(pieces[k]).Err?
    requires forall i :: 0 <= i < k ==> Create(pieces[i]).Ok?
    ensures CreateMembers(arg) == Err(Create(pieces[k]).error)
  {
    PiecesAreShort(arg);
    hide Create, Split;
    FirstFailure(pieces, |arg| + 1, k);
  }

  lemma {:induction false} FirstFailure(pieces: seq<string>, bound: nat, k: nat)
    requires forall i :: 0 <= i < |pieces| ==> |pieces[i]| < bound
    requires k < |pieces| && Create(pieces[k]).Err? && forall i :: 0 <= i < k ==> Create(pieces[i]).Ok?
    ensures CreateEach(pieces, bound) == Err(Create(pieces[k]).error)
    decreases k
  {
    hide Create;
    if k > 0 {
      var rest := pieces[1..];
      assert forall i :: 0 <= i < |rest| ==> rest[i] == pieces[i + 1];
      assert Create(pieces[0]).Ok?;
      FirstFailure(rest, bound, k - 1);
    }
  }

  /** What a specification creates, whatever stands around its name and argument; an error inside is the whole's. */
  lemma CreateMeans(name: string, arg: string, rest: string)
    requires '(' !in name && ')' !in rest
    ensures var r, inner, members := Create(name + "(" + arg + ")" + rest), Create(Trim(arg)), CreateMembers(Trim(arg));
            && (Trim(name) == "NONE" ==> r == Ok(Nothing))
            && (Trim(name) == "NOT" ==> r == if inner.Ok? then Ok(Not(inner.value)) else inner)
            && (Trim(name) == "AND" ==> r == if members.Ok? then Ok(And(members.value)) else Err(members.error))
            && (Trim(name) == "OR" ==> r == if members.Ok? then Ok(Or(members.value)) else Err(members.error))
            && (Trim(name) == "IPFILTER" ==> r == Ok(Filter(Trim(arg))))
            && (Trim(name) == "IPFILTERFILE" ==> r == Ok(FilterFile(Trim(arg))))
  {
    PartsMeans(name, arg, rest);
    hide Parts, Trim, CreateMembers;
  }
}
