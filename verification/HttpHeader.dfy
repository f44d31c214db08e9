/** Message headers: the first line, the field map, and the line-by-line resumable parser
    with its matching printer. `HeaderState` is the value a `Header` object holds. */
module HttpHeader {
  import opened Collections
  import opened ByteStream
  import opened CString
  import opened HttpConsts

  /** Parse errors, ordered by severity. */
  type ParseError = e: nat | e <= 9
  const READ_INIT: ParseError := 0
  const READ_OK: ParseError := 1
  const READ_NO_DATA: ParseError := 2
  const READ_BAD_FIELD_SPEC: ParseError := 3
  const READ_NO_FIELD: ParseError := 4
  const READ_NO_STATUS_REASON: ParseError := 5
  const READ_NO_REQUEST_VERSION: ParseError := 6
  const READ_INVALID_STATUS_CODE: ParseError := 7
  const READ_NO_STATUS_CODE: ParseError := 8
  const READ_NO_REQUEST_URI: ParseError := 9

  function Worst(a: ParseError, b: ParseError): ParseError { if a > b then a else b }

  datatype FirstLineType = UNKNOWN_LINE | REQUEST_LINE | STATUS_LINE | ERROR_LINE

  type FieldMap = map<string, string>

  /** What the first line says. */
  datatype StartLine = StartLine(version: Version, verb: Method, statusCode: int, uri: string, reason: string,
                                 kind: FirstLineType)

  /** The fields read so far, and the field whose lines are still being collected. */
  datatype Section = Section(strict: bool, crtName: string, crtContent: string, fields: FieldMap)

  datatype Errors = Errors(worst: ParseError, last: ParseError)

  datatype HeaderState = HeaderState(bytesParsed: nat, errors: Errors, start: StartLine, section: Section,
                                     verbatim: string)
  {
    function Fields(): FieldMap { section.fields }

    function Raise(e: ParseError): HeaderState { this.(errors := Raised(errors, [e])) }
  }

  const NO_START_LINE := StartLine(VERSION_UNKNOWN, METHOD_UNKNOWN, 0, "", "", UNKNOWN_LINE)

  function Cleared(strict: bool): HeaderState {
    HeaderState(0, Errors(READ_INIT, READ_INIT), NO_START_LINE, Section(strict, "", "", map[]), "")
  }

  /** `set_parse_error` on each of `raised` in turn. */
  function Raised(e: Errors, raised: seq<ParseError>): (r: Errors)
    ensures r.worst >= e.worst
    ensures raised == [] ==> r == e
    ensures raised != [] ==> r.last == raised[|raised| - 1]
    decreases |raised|
  {
    if raised == [] then e
    else Raised(Errors(Worst(raised[0], e.worst), raised[0]), raised[1..])
  }

  // ------------------------------------------------------------------ field names

  function TrimLwfBack(s: string): (r: string)
    ensures r <= s && (r == "" || !IsLwfChar(r[|r| - 1]))
  {
    if s != "" && IsLwfChar(s[|s| - 1]) then TrimLwfBack(s[..|s| - 1]) else s
  }

  function SkipLwf(s: string): (r: string)
    ensures |r| <= |s| && (r == "" || !IsLwfChar(r[0]))
    ensures s == "" || !IsLwfChar(s[0]) ==> r == s
  {
    if s != "" && IsLwfChar(s[0]) then SkipLwf(s[1..]) else s
  }

  lemma {:induction false} SkipLwfIsSuffix(s: string)
    ensures SkipLwf(s) == s[|s| - |SkipLwf(s)|..]
  {
    if s != "" && IsLwfChar(s[0]) {
      SkipLwfIsSuffix(s[1..]);
    }
  }

  /** Upcases the first letter of every word and turns blanks to dashes, up to a NUL. */
  function Capitalize(s: string, shouldUpcase: bool): (r: string)
    ensures |r| == |s|
  {
    if s == "" || s[0] == '\0' then s
    else if IsAlpha(s[0]) then
      [if shouldUpcase then ToUpper(s[0]) else ToLower(s[0])] + Capitalize(s[1..], false)
    else [if IsWhiteSpace(s[0]) then '-' else s[0]] + Capitalize(s[1..], true)
  }

  function NormalizeFieldName(s: string): string {
    Capitalize(SkipLwf(TrimLwfBack(s)), true)
  }

  predicate IsValidFieldName(s: string) {
    && s != ""
    && IsTokenChar(s[0])
    && forall i :: 0 <= i < |s| ==> IsTokenChar(s[i]) || IsWhiteSpace(s[i])
  }

  predicate IsValidFieldContent(s: string) {
    forall i :: 0 <= i < |s| ==> !IsCtlChar(s[i]) || IsLwfChar(s[i])
  }

  ghost predicate OnlyLwf(s: string) { forall i :: 0 <= i < |s| ==> IsLwfChar(s[i]) }

  lemma {:induction false} LwfSkipped(blanks: string, s: string)
    requires OnlyLwf(blanks) && (s == "" || !IsLwfChar(s[0]))
    ensures SkipLwf(blanks + s) == s
  {
    if blanks == "" {
      assert blanks + s == s;
    } else {
      assert (blanks + s)[1..] == blanks[1..] + s;
      LwfSkipped(blanks[1..], s);
    }
  }

  lemma {:induction false} LwfTrimmed(s: string, blanks: string)
    requires OnlyLwf(blanks) && (s == "" || !IsLwfChar(s[|s| - 1]))
    ensures TrimLwfBack(s + blanks) == s
  {
    if blanks == "" {
      assert s + blanks == s;
    } else {
      var n := |blanks| - 1;
      assert (s + blanks)[..|s| + n] == s + blanks[..n];
      LwfTrimmed(s, blanks[..n]);
    }
  }

  /** Of a name the blanks at both ends go, and nothing else. */
  lemma NormalizedMeans(before: string, name: string, after: string)
    requires OnlyLwf(before) && OnlyLwf(after) && name != "" && !IsLwfChar(name[0]) && !IsLwfChar(name[|name| - 1])
    ensures NormalizeFieldName(before + name + after) == Capitalize(name, true)
  {
    hide IsLwfChar, OnlyLwf, TrimLwfBack, SkipLwf, Capitalize;
    assert (before + name)[|before + name| - 1] == name[|name| - 1];
    LwfTrimmed(before + name, after);
    LwfSkipped(before, name);
  }

  /** Every letter in front of a NUL is a capital where a word starts and small elsewhere, blanks there are
      dashes, and everything else stays. */
  lemma {:induction false} CapitalizedAt(s: string, up: bool, i: nat)
    requires i < |s|
    ensures var r, starts := Capitalize(s, up), if i == 0 then up else !IsAlpha(s[i - 1]);
            r[i] == if '\0' in s[..i + 1] then s[i]
                    else if IsAlpha(s[i]) then (if starts then ToUpper(s[i]) else ToLower(s[i]))
                    else if IsWhiteSpace(s[i]) then '-' else s[i]
    decreases i
  {
    assert s[0] in s[..i + 1];
    if i > 0 && s[0] != '\0' {
      var t := s[1..];
      assert s[..i + 1] == [s[0]] + t[..i];
      CapitalizedAt(t, !IsAlpha(s[0]), i - 1);
    } else if i == 0 {
      assert s[..1] == [s[0]];
    }
  }

  /** Position `i` is no blank, and holds a capital exactly where a word starts. */
  predicate WordCaseAt(s: string, up: bool, i: nat)
    requires i < |s|
  {
    && s[i] != '\0' && !IsWhiteSpace(s[i])
    && (IsAlpha(s[i]) ==> (IsUpper(s[i]) <==> if i == 0 then up else !IsAlpha(s[i - 1])))
  }

  predicate WordCase(s: string, up: bool) {
    forall i :: 0 <= i < |s| ==> WordCaseAt(s, up, i)
  }

  lemma {:induction false} WordCaseIsFixed(s: string, up: bool)
    requires WordCase(s, up)
    ensures Capitalize(s, up) == s
  {
    if s != "" {
      assert WordCaseAt(s, up, 0);
      var t, up' := s[1..], !IsAlpha(s[0]);
      forall i | 0 <= i < |t| ensures WordCaseAt(t, up', i) {
        assert WordCaseAt(s, up, i + 1);
      }
      WordCaseIsFixed(t, up');
      assert s == [s[0]] + t;
    }
  }

  /** What is left alone has its words capitalised, up to a NUL. */
  lemma {:induction false} FixedIffWordCase(s: string, up: bool)
    ensures Capitalize(s, up) == s <==> WordCase(s[..Find(s, '\0')], up)
  {
    if s != "" && s[0] != '\0' {
      var t, up', n := s[1..], !IsAlpha(s[0]), Find(s, '\0');
      var head, rest := s[..n], t[..n - 1];
      assert rest == head[1..] && head == [s[0]] + rest;
      FixedIffWordCase(t, up');
      assert Capitalize(s, up)[1..] == Capitalize(t, up') && s == [s[0]] + t;
      assert Capitalize(s, up)[0] == s[0] <==> WordCaseAt(head, up, 0);
      WordCaseFront(head, up);
    }
  }

  lemma WordCaseFront(s: string, up: bool)
    requires s != ""
    ensures WordCase(s, up) <==> WordCaseAt(s, up, 0) && WordCase(s[1..], !IsAlpha(s[0]))
  {
    var t, up' := s[1..], !IsAlpha(s[0]);
    assert forall i :: 0 <= i < |t| ==> (WordCaseAt(t, up', i) <==> WordCaseAt(s, up, i + 1));
    if WordCaseAt(s, up, 0) && WordCase(t, up') {
      forall i | 0 <= i < |s| ensures WordCaseAt(s, up, i) {
        assert i > 0 ==> WordCaseAt(t, up', i - 1);
      }
    }
    if WordCase(s, up) {
      forall i | 0 <= i < |t| ensures WordCaseAt(t, up', i) {
        assert WordCaseAt(s, up, i + 1);
      }
    }
  }

  /** A name without blanks at its ends and with its words capitalised. */
  predicate Normal(name: string) {
    && WordCase(name[..Find(name, '\0')], true)
    && (name != "" ==> !IsLwfChar(name[0]) && !IsLwfChar(name[|name| - 1]))
  }

  /** The key is the one that `as_is` asks for, the name itself if it is set and the normalised
      name if not, exactly when the name is normal already. */
  lemma KeyIsAsAskedIff(name: string, asIs: bool)
    ensures Key(name, asIs) == (if asIs then name else NormalizeFieldName(name)) <==> Normal(name)
  {
    var t := TrimLwfBack(name);
    if |NormalizeFieldName(name)| == |name| {
      assert t == name && SkipLwf(t) == name;
    }
    FixedIffWordCase(name, true);
  }

  lemma HostIsNotAsAsked()
    ensures Key("host", true) != "host" && Key("host", false) != NormalizeFieldName("host")
  {
    var host := "host";
    assert host[..Find(host, '\0')][0] == 'h';
    assert !WordCaseAt(host[..Find(host, '\0')], true, 0);
    KeyIsAsAskedIff(host, true);
    KeyIsAsAskedIff(host, false);
  }

  /** Normalisation is idempotent: names already in the field map are left alone. */
  lemma NormalizeIdempotent(s: string)
    ensures NormalizeFieldName(NormalizeFieldName(s)) == NormalizeFieldName(s)
  {
    var t := SkipLwf(TrimLwfBack(s));
    SkipLwfIsSuffix(TrimLwfBack(s));
    var r := Capitalize(t, true);
    CapitalizeTwice(t, true);
    CapitalizeKeepsLwf(t, true);
    if t != "" {
      assert !IsLwfChar(r[0]) && !IsLwfChar(r[|r| - 1]);
      assert TrimLwfBack(r) == r;
    }
  }

  lemma {:induction false} CapitalizeTwice(s: string, up: bool)
    ensures Capitalize(Capitalize(s, up), up) == Capitalize(s, up)
  {
    if s != "" && s[0] != '\0' {
      var r := Capitalize(s, up);
      assert r[1..] == Capitalize(s[1..], !IsAlpha(s[0]));
      CapitalizeTwice(s[1..], !IsAlpha(s[0]));
    }
  }

  lemma {:induction false} CapitalizeKeepsLwf(s: string, up: bool)
    ensures forall i :: 0 <= i < |s| && !IsLwfChar(s[i]) ==> !IsLwfChar(Capitalize(s, up)[i])
  {
    if s != "" && s[0] != '\0' {
      CapitalizeKeepsLwf(s[1..], !IsAlpha(s[0]));
    }
  }

  // ------------------------------------------------------------------ the field map

  predicate IsValidField(name: string, content: string) {
    IsValidFieldName(name) && IsValidFieldContent(content)
  }

  /** New content for a field that may already be there. */
  function Combined(fields: FieldMap, name: string, content: string): string {
    if name !in fields || fields[name] == "" then content else fields[name] + ", " + content
  }

  /** The key of a field: normalised when `as_is` is set, contrary to its name. */
  function Key(name: string, asIs: bool): string {
    if asIs then NormalizeFieldName(name) else name
  }

  /** `AddField` on the map alone; an invalid field is refused. */
  function WithField(fields: FieldMap, name: string, content: string, replace: bool, asIs: bool := false): FieldMap {
    if !IsValidField(name, content) then fields
    else fields[Key(name, asIs) := if replace then content else Combined(fields, Key(name, asIs), content)]
  }

  function WithoutField(fields: FieldMap, name: string): FieldMap {
    fields - {name}
  }

  predicate Taken(src: FieldMap, k: string) { k in src && IsValidField(k, src[k]) }

  /** `CopyHeaderFields`: fields are independent, so their order is immaterial. */
  function Merged(fields: FieldMap, src: FieldMap, replace: bool := false): (r: FieldMap)
    ensures src == map[] ==> r == fields
  {
    map k | k in fields.Keys + src.Keys && (k in fields || Taken(src, k)) ::
      if Taken(src, k) then (if replace then src[k] else Combined(fields, k, src[k])) else fields[k]
  }

  // ------------------------------------------------------------------ parsing

  /** What a first line of either type sets, and the errors it raises; `line` comes without
      its CRLF. */
  function FirstLine(s: StartLine, line: string, expected: FirstLineType): (StartLine, seq<ParseError>) {
    var first := Find(line, ' ');
    if first == |line| then
      var bad := s.(kind := ERROR_LINE);
      if expected == REQUEST_LINE then (bad.(verb := GetMethod(line)), [READ_NO_REQUEST_URI])
      else (bad.(version := GetVersion(line)), [READ_NO_STATUS_CODE])
    else
      AfterFirstToken(if expected == REQUEST_LINE then s.(verb := GetMethod(line[..first]))
                      else s.(version := GetVersion(line[..first])),
                      SkipBlanks(line[first..]), expected)
  }

  /** The same for what follows the first token and the blanks behind it. */
  function AfterFirstToken(s: StartLine, rest: string, expected: FirstLineType): (StartLine, seq<ParseError>) {
    var second := Find(rest, ' ');
    if expected == REQUEST_LINE then
      if second == |rest| then (s.(kind := ERROR_LINE, uri := rest), [READ_NO_REQUEST_VERSION])
      else (s.(uri := rest[..second], version := GetVersion(SkipBlanks(rest[second..])), kind := expected), [])
    else
      var (code, bad) := StatusCode(rest[..second]);
      if second < |rest| then (s.(statusCode := code, reason := SkipBlanks(rest[second..]), kind := expected), bad)
      else if s.version <= VERSION_1_0 then (s.(statusCode := code, kind := expected), bad)
      else (s.(statusCode := code, kind := ERROR_LINE), [READ_NO_STATUS_REASON] + bad)
  }

  lemma {:induction false} FindAfter(a: string, c: char, b: string)
    requires c !in a
    ensures Find(a + [c] + b, c) == |a|
  {
    if a == "" {
      assert a + [c] + b == [c] + b;
    } else {
      assert (a + [c] + b)[1..] == a[1..] + [c] + b;
      FindAfter(a[1..], c, b);
    }
  }

  function SkipBlanks(s: string): (r: string)
    ensures |r| <= |s| && (r == "" || r[0] != ' ')
    ensures s == "" || s[0] != ' ' ==> r == s
  {
    if s != "" && s[0] == ' ' then SkipBlanks(s[1..]) else s
  }

  /** `ParseStatusCode`: the `long` result is narrowed to a 32-bit `int`. */
  function StatusCode(text: string): (r: (int, seq<ParseError>))
    ensures -INT_MAX - 1 <= r.0 <= INT_MAX
  {
    var code := Strtol(text, 10);
    if code.overflow then (0, [READ_INVALID_STATUS_CODE])
    else
      var low := code.value % UINT_RANGE;
      (if low > INT_MAX then low - UINT_RANGE else low, [])
  }

  /** A printed status code is read back, for every 32-bit value. */
  lemma StatusCodeRoundTrip(n: int)
    requires -INT_MAX - 1 <= n <= INT_MAX
    ensures StatusCode(SignedText(n)) == (n, [])
  {
    hide Strtol, SignedText;
    SignedRoundTrip(n);
    assert n < 0 ==> (n + UINT_RANGE) % UINT_RANGE == n % UINT_RANGE == n + UINT_RANGE;
  }

  /** `AddCrtParsingData` and its result. */
  function Flushed(s: Section): (r: (Section, bool))
    ensures r.0.strict == s.strict && r.0.crtName == "" && r.0.crtContent == ""
  {
    if s.crtName == "" then (s.(crtContent := ""), true)
    else
      var ok := IsValidFieldName(s.crtName) && IsValidFieldContent(s.crtContent);
      var name := NormalizeFieldName(s.crtName);
      var content := if name in s.fields then s.fields[name] + ", " + s.crtContent else s.crtContent;
      (Section(s.strict, "", "", if s.strict && !ok then s.fields else s.fields[name := content]), ok)
  }

  function SpecErrors(ok: bool): seq<ParseError> { if ok then [] else [READ_BAD_FIELD_SPEC] }

  /** One line of the field section, without its CRLF: the new section, the errors raised,
      and whether the line ended the header. */
  function FieldLine(s: Section, line: string): (r: (Section, seq<ParseError>, bool))
    ensures r.2 == (line == "")
    ensures r.2 ==> r.1 != []
  {
    if line == "" then
      var (f, ok) := Flushed(s);
      (f, if ok then [READ_OK] else [READ_BAD_FIELD_SPEC], true)
    else if IsLwfChar(line[0]) then
      if s.crtName == "" then (s, [READ_NO_FIELD], false)
      else (s.(crtContent := s.crtContent + " " + SkipLwf(line)), [], false)
    else
      var (f, ok) := Flushed(s);
      var colon := Find(line, ':');
      if colon == |line| then (f, SpecErrors(ok) + [READ_NO_FIELD], false)
      else (f.(crtName := line[..colon], crtContent := SkipLwf(line[colon + 1..])), SpecErrors(ok), false)
  }

  /** One field line applied to a header, and whether it was the last one. */
  function AfterFieldLine(h: HeaderState, line: string): (r: (HeaderState, bool))
    ensures r.0.bytesParsed == h.bytesParsed + |line| + 2
  {
    var (section, raised, done) := FieldLine(h.section, line);
    (h.(bytesParsed := h.bytesParsed + |line| + 2, section := section, errors := Raised(h.errors, raised)), done)
  }

  /** One line of a header: the first one is special. */
  function HeaderLine(h: HeaderState, line: string, expected: FirstLineType): (r: (HeaderState, bool))
    ensures r.0.bytesParsed == h.bytesParsed + |line| + 2
  {
    if h.bytesParsed == 0 then
      var (start, raised) := FirstLine(h.start, line, expected);
      (h.(bytesParsed := |line| + 2, start := start, errors := Raised(h.errors, raised)), false)
    else AfterFieldLine(h, line)
  }

  datatype Parsed = Parsed(header: HeaderState, rest: string, done: bool)

  /** All complete lines of `s`, up to the empty line that ends the header. */
  function ParseLines(h: HeaderState, s: string, expected: FirstLineType): (r: Parsed)
    ensures |r.rest| <= |s|
    ensures r.header.bytesParsed + |r.rest| == h.bytesParsed + |s|
    ensures !r.done ==> LineEnd(r.rest) == 0
    decreases |s|
  {
    var n := LineEnd(s);
    if n == 0 then Parsed(h, s, false)
    else
      var (h1, done) := HeaderLine(h, s[..n - 2], expected);
      if done then Parsed(h1, s[n..], true) else ParseLines(h1, s[n..], expected)
  }

  /** What a call that runs out of complete lines leaves behind. */
  function Suspended(h: HeaderState): HeaderState {
    h.Raise(READ_NO_DATA)
  }

  /** One `ParseHeader` call. */
  function ParseCall(h: HeaderState, s: string, expected: FirstLineType): (r: Parsed)
    ensures !r.done ==> LineEnd(r.rest) == 0
  {
    var r := ParseLines(h, s, expected);
    if r.done then r else r.(header := Suspended(r.header))
  }

  /** What holds between calls while a header is being read; the source's CHECKs follow. */
  predicate Resumable(h: HeaderState) {
    && (h.bytesParsed == 0 ==> h.errors.worst == READ_INIT || h.errors.worst == READ_NO_DATA)
    && (h.bytesParsed != 0 ==> h.errors.worst != READ_INIT)
    && h.errors.last != READ_OK
  }

  // ------------------------------------------------------------------ resumability

  /** The errors up to what an interruption changes: it makes the last one READ_NO_DATA, and
      the worst one no better than that. */
  function ErasedErrors(e: Errors): Errors {
    Errors(Worst(READ_NO_DATA, e.worst), READ_NO_DATA)
  }

  /** Two headers with the same erasure differ at most in how an interruption raised the errors. */
  function Erased(h: HeaderState): HeaderState {
    h.(errors := ErasedErrors(h.errors))
  }

  lemma {:induction false} ErasedRaised(d: Errors, e: Errors, raised: seq<ParseError>)
    requires ErasedErrors(d) == ErasedErrors(e)
    ensures ErasedErrors(Raised(d, raised)) == ErasedErrors(Raised(e, raised))
    decreases |raised|
  {
    if raised != [] {
      ErasedRaised(Errors(Worst(raised[0], d.worst), raised[0]), Errors(Worst(raised[0], e.worst), raised[0]), raised[1..]);
    }
  }

  /** Errors that were no better stay no better. */
  lemma {:induction false} RaisedNoBetter(d: Errors, e: Errors, raised: seq<ParseError>)
    requires d.worst <= e.worst
    ensures Raised(d, raised).worst <= Raised(e, raised).worst
    decreases |raised|
  {
    if raised != [] {
      RaisedNoBetter(Errors(Worst(raised[0], d.worst), raised[0]), Errors(Worst(raised[0], e.worst), raised[0]), raised[1..]);
    }
  }

  lemma NoBetterLine(g: HeaderState, h: HeaderState, line: string, expected: FirstLineType)
    requires Erased(g) == Erased(h) && g.errors.worst <= h.errors.worst
    ensures AfterFieldLine(g, line).0.errors.worst <= AfterFieldLine(h, line).0.errors.worst
    ensures HeaderLine(g, line, expected).0.errors.worst <= HeaderLine(h, line, expected).0.errors.worst
  {
    hide FirstLine, FieldLine, Raised;
    assert g.section == h.section && g.start == h.start && g.bytesParsed == h.bytesParsed;
    RaisedNoBetter(g.errors, h.errors, FirstLine(h.start, line, expected).1);
    RaisedNoBetter(g.errors, h.errors, FieldLine(h.section, line).1);
  }

  lemma ErasedFieldLine(g: HeaderState, h: HeaderState, line: string)
    requires Erased(g) == Erased(h)
    ensures Erased(AfterFieldLine(g, line).0) == Erased(AfterFieldLine(h, line).0)
    ensures AfterFieldLine(g, line).1 == AfterFieldLine(h, line).1
    ensures AfterFieldLine(h, line).1 ==> AfterFieldLine(g, line).0.errors.last == AfterFieldLine(h, line).0.errors.last
  {
    var (section, raised, done) := FieldLine(h.section, line);
    ErasedRaised(g.errors, h.errors, raised);
  }

  lemma ErasedLine(g: HeaderState, h: HeaderState, line: string, expected: FirstLineType)
    requires Erased(g) == Erased(h)
    ensures Erased(HeaderLine(g, line, expected).0) == Erased(HeaderLine(h, line, expected).0)
    ensures HeaderLine(g, line, expected).1 == HeaderLine(h, line, expected).1
    ensures HeaderLine(h, line, expected).1 ==>
              HeaderLine(g, line, expected).0.errors.last == HeaderLine(h, line, expected).0.errors.last
  {
    if g.bytesParsed == 0 {
      var (start, raised) := FirstLine(h.start, line, expected);
      ErasedRaised(g.errors, h.errors, raised);
    } else {
      ErasedFieldLine(g, h, line);
    }
  }

  lemma {:induction false} ErasedLines(g: HeaderState, h: HeaderState, s: string, expected: FirstLineType)
    requires Erased(g) == Erased(h)
    ensures var a, b := ParseLines(g, s, expected), ParseLines(h, s, expected);
            && Erased(a.header) == Erased(b.header)
            && a.rest == b.rest
            && a.done == b.done
            && (a.done ==> a.header.errors.last == b.header.errors.last)
    decreases |s|
  {
    var n := LineEnd(s);
    if n != 0 {
      var line := s[..n - 2];
      ErasedLine(g, h, line, expected);
      var (g1, done) := HeaderLine(g, line, expected);
      if !done {
        ErasedLines(g1, HeaderLine(h, line, expected).0, s[n..], expected);
      }
    }
  }

  lemma {:induction false} ParseLinesSplit(h: HeaderState, s: string, t: string, expected: FirstLineType)
    ensures var a := ParseLines(h, s, expected);
            ParseLines(h, s + t, expected) ==
            if a.done then a.(rest := a.rest + t) else ParseLines(a.header, a.rest + t, expected)
    decreases |s|
  {
    hide HeaderLine;
    var n := LineEnd(s);
    if n != 0 {
      LineEndAppend(s, t);
      assert (s + t)[..n - 2] == s[..n - 2];
      assert (s + t)[n..] == s[n..] + t;
      var (h1, done) := HeaderLine(h, s[..n - 2], expected);
      if !done {
        ParseLinesSplit(h1, s[n..], t, expected);
      }
    }
  }

  function Concat(pieces: seq<string>): string {
    if pieces == [] then "" else pieces[0] + Concat(pieces[1..])
  }

  /** Successive calls: each piece arrives behind what the previous call left unread. Once
      the header is complete, later pieces stay unread. */
  function ParseCalls(h: HeaderState, left: string, pieces: seq<string>, expected: FirstLineType): Parsed
    requires pieces != []
    decreases |pieces|
  {
    var r := ParseCall(h, left + pieces[0], expected);
    if r.done then r.(rest := r.rest + Concat(pieces[1..]))
    else if |pieces| == 1 then r
    else ParseCalls(r.header, r.rest, pieces[1..], expected)
  }

  /** Resumable parsing: however the input is cut, the calls end with the same fields, first
      line, unread bytes and completion as a single call, and the worst error differs at most
      by being raised to READ_NO_DATA. */
  lemma {:induction false} HeaderCutIndependence(h: HeaderState, left: string, pieces: seq<string>, expected: FirstLineType)
    requires pieces != []
    ensures var cut := ParseCalls(h, left, pieces, expected);
            var whole := ParseCall(h, left + Concat(pieces), expected);
            && cut.done == whole.done
            && cut.rest == whole.rest
            && Erased(cut.header) == Erased(whole.header)
            && cut.header.errors.last == whole.header.errors.last
    decreases |pieces|
  {
    var first := left + pieces[0];
    var more := Concat(pieces[1..]);
    assert left + Concat(pieces) == first + more;
    ParseLinesSplit(h, first, more, expected);
    var a := ParseLines(h, first, expected);
    if !a.done {
      if |pieces| == 1 {
        assert a.rest + more == a.rest;
      } else {
        HeaderCutIndependence(Suspended(a.header), a.rest, pieces[1..], expected);
        ErasedLines(Suspended(a.header), a.header, a.rest + more, expected);
      }
    }
  }

  /** The conditions that the source CHECKs on entry hold before the first call and after
      every call that asks for more data. */
  lemma {:induction false} StaysResumable(h: HeaderState, s: string, expected: FirstLineType)
    requires Resumable(h)
    ensures var r := ParseCall(h, s, expected); !r.done ==> Resumable(r.header)
  {
  }

  lemma ClearedIsResumable(strict: bool)
    ensures Resumable(Cleared(strict))
  {
  }
}
