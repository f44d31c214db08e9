/** The `Header` object: the header state kept in fields that its methods update. */
module HttpHeaderObject {
  import opened Collections
  import opened ByteStream
  import opened CString
  import opened HttpConsts
  import opened HttpHeader
  import opened HttpWriter

  // ------------------------------------------------------------------ the order of the field map

  /** Lexicographic order on bytes, as `std::map` keeps its keys. */
  predicate Less(a: string, b: string) {
    b != "" && (a == "" || a[0] < b[0] || (a[0] == b[0] && Less(a[1..], b[1..])))
  }

  lemma {:induction false} LessIsTotal(a: string, b: string)
    ensures a == b || Less(a, b) || Less(b, a)
    ensures !(Less(a, b) && Less(b, a))
    ensures a == b ==> !Less(a, b)
  {
    if a != "" && b != "" {
      LessIsTotal(a[1..], b[1..]);
      assert a[0] == b[0] && a[1..] == b[1..] ==> a == [a[0]] + a[1..] == b;
    }
  }

  lemma {:induction false} LessIsTransitive(a: string, b: string, c: string)
    requires Less(a, b) && Less(b, c)
    ensures Less(a, c)
  {
    if a != "" && a[0] == b[0] == c[0] {
      LessIsTransitive(a[1..], b[1..], c[1..]);
    }
  }

  predicate Sorted(order: seq<string>) {
    forall i, j :: 0 <= i < j < |order| ==> Less(order[i], order[j])
  }

  /** Puts a new key in its place. */
  method Insert(order: seq<string>, key: string) returns (r: seq<string>)
    requires Sorted(order) && key !in order
    ensures Sorted(r)
    ensures forall k :: k in r <==> k == key || k in order
  {
    var i := 0;
    while i < |order| && Less(order[i], key)
      invariant 0 <= i <= |order|
      invariant forall j :: 0 <= j < i ==> Less(order[j], key)
    {
      i := i + 1;
    }
    forall j | i <= j < |order| ensures Less(key, order[j]) {
      LessIsTotal(order[i], key);
      if i < j {
        LessIsTransitive(key, order[i], order[j]);
      }
    }
    r := order[..i] + [key] + order[i..];
    assert forall k :: k in order <==> k in order[..i] || k in order[i..];
  }

  /** The keys in the order in which the map is iterated. */
  method SortedKeys(fields: FieldMap) returns (order: seq<string>)
    ensures Lists(order, fields) && Sorted(order)
  {
    order := [];
    var left := fields.Keys;
    while left != {}
      invariant left <= fields.Keys && Sorted(order)
      invariant forall k :: k in order <==> k in fields && k !in left
    {
      var key :| key in left;
      order := Insert(order, key);
      left := left - {key};
    }
    forall i, j | 0 <= i < j < |order| ensures order[i] != order[j] {
      LessIsTotal(order[i], order[j]);
    }
  }

  // ------------------------------------------------------------------ field names

  /** Rewrites a buffer in place: the loop of `NormalizeFieldName`. */
  method CapitalizeInPlace(p: array<char>)
    modifies p
    ensures p[..] == Capitalize(old(p[..]), true)
  {
    var shouldUpcase := true;
    var i := 0;
    ghost var orig := p[..];
    ghost var whole := Capitalize(orig, true);
    assert orig[0..] == orig && whole[0..] == whole;
    while i < p.Length && p[i] != '\0'
      invariant 0 <= i <= p.Length
      invariant forall j :: i <= j < p.Length ==> p[j] == orig[j]
      invariant forall j :: 0 <= j < i ==> p[j] == whole[j]
      invariant Capitalize(orig[i..], shouldUpcase) == whole[i..]
    {
      CapitalizeStep(orig[i..], shouldUpcase);
      assert orig[i..][1..] == orig[i + 1..] && whole[i..][1..] == whole[i + 1..];
      var c := p[i];
      if IsAlpha(c) {
        p[i] := if shouldUpcase then ToUpper(c) else ToLower(c);
        shouldUpcase := false;
      } else {
        shouldUpcase := true;
        if IsWhiteSpace(c) {
          p[i] := '-';
        }
      }
      assert p[i] == whole[i..][0];
      i := i + 1;
    }
    assert whole[i..] == orig[i..];
    assert forall j :: i <= j < p.Length ==> whole[j] == whole[i..][j - i];
  }

  lemma CapitalizeStep(s: string, up: bool)
    requires s != "" && s[0] != '\0'
    ensures var r := Capitalize(s, up);
            && r[0] == (if !IsAlpha(s[0]) then (if IsWhiteSpace(s[0]) then '-' else s[0])
                        else if up then ToUpper(s[0]) else ToLower(s[0]))
            && r[1..] == Capitalize(s[1..], !IsAlpha(s[0]))
  {
  }

  method NormalizedName(name: string) returns (s: string)
    requires name == "" || exists i :: 0 <= i < |name| && !IsLwfChar(name[i])
    ensures s == NormalizeFieldName(name)
  {
    if name == "" {
      return "";
    }
    var from, to := TrimmedBounds(name);
    hide TrimLwfBack, SkipLwf, Capitalize;
    var buffer := new char[to - from](i requires 0 <= i < to - from && 0 <= from <= to <= |name| => name[from + i]);
    assert buffer[..] == name[from..to];
    CapitalizeInPlace(buffer);
    s := buffer[..];
  }

  /** Where a name begins and ends without the blanks around it. */
  method TrimmedBounds(name: string) returns (from: nat, to: nat)
    ensures from <= to <= |name| && name[from..to] == SkipLwf(TrimLwfBack(name))
  {
    hide IsLwfChar;
    from, to := 0, |name|;
    assert name[..to] == name;
    while to > 0 && IsLwfChar(name[to - 1])
      invariant 0 <= to <= |name|
      invariant TrimLwfBack(name[..to]) == TrimLwfBack(name)
    {
      assert name[..to][..to - 1] == name[..to - 1];
      to := to - 1;
    }
    assert TrimLwfBack(name) == name[..to];
    hide TrimLwfBack;
    while from < to && IsLwfChar(name[from])
      invariant 0 <= from <= to
      invariant SkipLwf(name[from..to]) == SkipLwf(name[..to])
    {
      assert name[from..to][1..] == name[from + 1..to];
      from := from + 1;
    }
  }

  // ------------------------------------------------------------------ the object

  class Header {
    const strict: bool
    var bytesParsed: nat
    var parseError: ParseError
    var lastParseError: ParseError
    var crtName: string
    var crtContent: string
    var version: Version
    var verb: Method
    var statusCode: int
    var uri: string
    var reason: string
    var firstLineType: FirstLineType
    var fields: FieldMap
    var verbatim: string

    function State(): HeaderState
      reads this
    {
      HeaderState(bytesParsed, Errors(parseError, lastParseError),
                  StartLine(version, verb, statusCode, uri, reason, firstLineType),
                  Section(strict, crtName, crtContent, fields), verbatim)
    }

    constructor (isStrict: bool)
      ensures strict == isStrict && State() == Cleared(isStrict)
    {
      strict := isStrict;
      bytesParsed, parseError, lastParseError := 0, READ_INIT, READ_INIT;
      crtName, crtContent, version, verb, statusCode := "", "", VERSION_UNKNOWN, METHOD_UNKNOWN, 0;
      uri, reason, firstLineType, fields, verbatim := "", "", UNKNOWN_LINE, map[], "";
    }

    method Clear()
      modifies this
      ensures State() == Cleared(strict)
    {
      bytesParsed, parseError, lastParseError := 0, READ_INIT, READ_INIT;
      crtName, crtContent, fields, verbatim := "", "", map[], "";
      ClearFirstLine();
    }

    method ClearFirstLine()
      modifies this
      ensures State() == old(State()).(start := NO_START_LINE)
    {
      version, verb, statusCode := VERSION_UNKNOWN, METHOD_UNKNOWN, 0;
      uri, reason, firstLineType := "", "", UNKNOWN_LINE;
    }

    method SetParseError(e: ParseError)
      modifies this
      ensures State() == old(State()).Raise(e)
    {
      lastParseError := e;
      parseError := Worst(e, parseError);
    }

    method AddField(name: string, content: string, replace: bool, asIs: bool := false) returns (added: bool)
      modifies this
      ensures added == (IsValidFieldName(name) && IsValidFieldContent(content))
      ensures State() == old(State()).(section := old(State()).section.(fields := WithField(old(fields), name, content, replace, asIs)))
    {
      if !IsValidFieldName(name) || !IsValidFieldContent(content) {
        return false;
      }
      var key := name;
      if asIs {
        assert IsTokenChar(name[0]) && !IsLwfChar(name[0]);
        key := NormalizedName(name);
      }
      hide NormalizeFieldName;
      if key !in fields {
        fields := fields[key := content];
      } else if replace || fields[key] == "" {
        fields := fields[key := content];
      } else {
        fields := fields[key := fields[key] + ", " + content];
      }
      return true;
    }

    method ClearField(name: string, asIs: bool := false) returns (removed: bool)
      requires asIs ==> name == "" || exists i :: 0 <= i < |name| && !IsLwfChar(name[i])
      modifies this
      ensures State() == old(State()).(section := old(State()).section.(fields := WithoutField(old(fields), Key(name, asIs))))
      ensures removed == (Key(name, asIs) in old(fields))
    {
      var key := name;
      if asIs {
        key := NormalizedName(name);
      }
      removed := key in fields;
      fields := fields - {key};
    }

    /** Copies the fields of another header; returns how many were valid. */
    method CopyHeaderFields(src: Header, replace: bool := false) returns (num: nat)
      requires src != this
      modifies this
      ensures State() == old(State()).(section := old(State()).section.(fields := Merged(old(fields), src.fields, replace)))
      ensures num == |ValidKeys(src.fields)|
    {
      hide Merged, WithField, Taken, Part, ValidKeys, IsValidFieldName, IsValidFieldContent;
      var order := SortedKeys(src.fields);
      var i := 0;
      num := 0;
      ghost var before := State();
      NothingMerged(fields, src.fields, order, replace);
      while i < |order|
        invariant 0 <= i <= |order|
        invariant State() == before.(section := before.section.(fields := fields))
        invariant fields == Merged(before.Fields(), Part(src.fields, order[..i]), replace)
        invariant src.fields == old(src.fields)
        invariant num == |ValidKeys(Part(src.fields, order[..i]))|
      {
        MergeOne(before.Fields(), src.fields, order, i, replace);
        var added := AddField(order[i], src.fields[order[i]], replace);
        if added {
          num := num + 1;
        }
        i := i + 1;
      }
      AllMerged(src.fields, order);
    }

    /** `AddCrtParsingData`. */
    method AddCrtParsingData() returns (ret: bool)
      requires crtName == "" || !IsLwfChar(crtName[0])
      modifies this
      ensures var (section, ok) := Flushed(old(State()).section);
              ret == ok && State() == old(State()).(section := section, errors := Raised(old(State()).errors, SpecErrors(ok)))
    {
      ret := true;
      ghost var before := State();
      if crtName != "" {
        if !IsValidFieldName(crtName) || !IsValidFieldContent(crtContent) {
          SetParseError(READ_BAD_FIELD_SPEC);
          ret := false;
        }
        if !strict || ret {
          var name := NormalizedName(crtName);
          if name !in fields {
            fields := fields[name := crtContent];
          } else {
            fields := fields[name := fields[name] + ", " + crtContent];
          }
        }
      }
      crtName, crtContent := "", "";
    }

    /** Reads the first line, if it has arrived. */
    method ReadFirstLine(io: MemoryStream, expected: FirstLineType) returns (read: bool)
      requires bytesParsed == 0
      modifies this, io
      ensures read == (LineEnd(old(io.data)) != 0)
      ensures read ==> io.data == old(io.data)[LineEnd(old(io.data))..] &&
                       State() == HeaderLine(old(State()), old(io.data)[..LineEnd(old(io.data)) - 2], expected).0
      ensures !read ==> io.data == old(io.data) && State() == Suspended(old(State()))
      ensures crtName == old(crtName)
    {
      hide FirstLine;
      var found, raw := io.ReadCRLFLine();
      if !found {
        SetParseError(READ_NO_DATA);
        return false;
      }
      bytesParsed := bytesParsed + |raw|;
      var line := raw[..|raw| - 2];
      assert line == old(io.data)[..LineEnd(old(io.data)) - 2];
      ParseFirstLine(line, expected);
      return true;
    }

    /** The three tokens of a first line. */
    method ParseFirstLine(line: string, expected: FirstLineType)
      modifies this
      ensures var (start, raised) := FirstLine(old(State()).start, line, expected);
              State() == old(State()).(start := start, errors := Raised(old(State()).errors, raised))
    {
      hide GetMethod, GetVersion, SkipBlanks, Find, AfterFirstToken;
      var first := Find(line, ' ');
      if first == |line| {
        firstLineType := ERROR_LINE;
        if expected == REQUEST_LINE {
          SetParseError(READ_NO_REQUEST_URI);
          verb := GetMethod(line);
        } else {
          SetParseError(READ_NO_STATUS_CODE);
          version := GetVersion(line);
        }
        return;
      }
      if expected == REQUEST_LINE {
        verb := GetMethod(line[..first]);
      } else {
        version := GetVersion(line[..first]);
      }
      ParseAfterFirstToken(SkipBlanks(line[first..]), expected);
    }

    method ParseAfterFirstToken(rest: string, expected: FirstLineType)
      modifies this
      ensures var (start, raised) := AfterFirstToken(old(State()).start, rest, expected);
              State() == old(State()).(start := start, errors := Raised(old(State()).errors, raised))
    {
      hide GetVersion, SkipBlanks, Find, StatusCode, SignedText;
      ghost var before := State();
      var second := Find(rest, ' ');
      if second == |rest| {
        firstLineType := ERROR_LINE;
        assert rest[..second] == rest;
        if expected == REQUEST_LINE {
          SetParseError(READ_NO_REQUEST_VERSION);
          uri := rest;
        } else {
          RaisedTwice(before.errors, READ_NO_STATUS_REASON, StatusCode(rest).1);
          if version <= VERSION_1_0 {
            firstLineType := expected;
          } else {
            SetParseError(READ_NO_STATUS_REASON);
          }
          ParseStatusCode(rest);
        }
        return;
      }
      if expected == REQUEST_LINE {
        uri := rest[..second];
        version := GetVersion(SkipBlanks(rest[second..]));
      } else {
        ParseStatusCode(rest[..second]);
        reason := SkipBlanks(rest[second..]);
      }
      firstLineType := expected;
    }

    method ParseStatusCode(text: string)
      modifies this
      ensures State() == old(State()).(start := old(State()).start.(statusCode := StatusCode(text).0),
                                       errors := Raised(old(State()).errors, StatusCode(text).1))
      ensures -INT_MAX - 1 <= statusCode <= INT_MAX
      ensures forall n :: -INT_MAX - 1 <= n <= INT_MAX && text == SignedText(n) ==> statusCode == n && parseError == old(parseError)
    {
      hide SignedText;
      forall n | -INT_MAX - 1 <= n <= INT_MAX && text == SignedText(n) ensures StatusCode(text) == (n, []) {
        StatusCodeRoundTrip(n);
      }
      var code := Strtol(text, 10);
      if code.overflow {
        SetParseError(READ_INVALID_STATUS_CODE);
        statusCode := 0;
      } else {
        var low := code.value % UINT_RANGE;
        statusCode := if low > INT_MAX then low - UINT_RANGE else low;
      }
    }

    /** Reads field lines as long as complete ones are there. */
    method ReadHeaderFields(io: MemoryStream) returns (done: bool)
      requires crtName == "" || !IsLwfChar(crtName[0])
      modifies this, io
      ensures var r := ParseFieldLines(old(State()), old(io.data));
              done == r.done && io.data == r.rest && State() == if r.done then r.header else Suspended(r.header)
      ensures crtName == "" || !IsLwfChar(crtName[0])
    {
      hide AfterFieldLine;
      ghost var target := ParseFieldLines(State(), io.data);
      TakeRawLine(State(), io.data);
      var found, raw := io.ReadCRLFLine();
      while found
        invariant crtName == "" || !IsLwfChar(crtName[0])
        invariant found ==> |raw| >= 2 && target == AfterRawLine(State(), raw, io.data)
        invariant !found ==> target == Parsed(State(), io.data, false)
        decreases |io.data| + if found then 1 else 0
      {
        done := ProcessFieldLine(raw[..|raw| - 2]);
        if done {
          return;
        }
        TakeRawLine(State(), io.data);
        found, raw := io.ReadCRLFLine();
      }
      SetParseError(READ_NO_DATA);
      done := false;
    }

    /** What one field line does, and whether it is the empty one that ends the header. */
    method ProcessFieldLine(line: string) returns (done: bool)
      requires crtName == "" || !IsLwfChar(crtName[0])
      modifies this
      ensures (State(), done) == AfterFieldLine(old(State()), line)
      ensures crtName == "" || !IsLwfChar(crtName[0])
    {
      hide Flushed, Find, SkipLwf;
      ghost var before := State();
      bytesParsed := bytesParsed + |line| + 2;
      if line == "" {
        var ok := AddCrtParsingData();
        if ok {
          SetParseError(READ_OK);
        }
        return true;
      }
      if IsLwfChar(line[0]) {
        if crtName == "" {
          SetParseError(READ_NO_FIELD);
        } else {
          crtContent := crtContent + " ";
          crtContent := crtContent + SkipLwf(line);
        }
      } else {
        var ok := AddCrtParsingData();
        var colon := Find(line, ':');
        if colon == |line| {
          RaisedAgain(before.errors, SpecErrors(ok), READ_NO_FIELD);
          SetParseError(READ_NO_FIELD);
        } else {
          crtName := line[..colon];
          crtContent := SkipLwf(line[colon + 1..]);
        }
      }
      return false;
    }

    /** One call of the resumable parser: until it returns true, it is called again whenever
        more input has arrived. */
    method ParseHeader(io: MemoryStream, expected: FirstLineType) returns (done: bool)
      requires Resumable(State()) && (crtName == "" || !IsLwfChar(crtName[0]))
      modifies this, io
      ensures var r := ParseCall(old(State()), old(io.data), expected);
              done == r.done && io.data == r.rest && State() == r.header
      ensures !done ==> Resumable(State()) && (crtName == "" || !IsLwfChar(crtName[0]))
    {
      ghost var before, input := State(), io.data;
      StaysResumable(before, input, expected);
      assert lastParseError != READ_OK;
      if bytesParsed == 0 {
        assert parseError == READ_INIT || parseError == READ_NO_DATA;
        var read := ReadFirstLine(io, expected);
        if !read {
          return false;
        }
      } else {
        assert parseError != READ_INIT;
      }
      ParseLinesAreFieldLines(State(), io.data, expected);
      done := ReadHeaderFields(io);
    }

    /** Prints the header: the first line, the fields in key order, and an empty line. */
    method AppendToStream(io: MemoryStream) returns (ghost order: seq<string>)
      modifies io
      ensures Lists(order, fields) && Sorted(order)
      ensures io.data == old(io.data) + HeaderText(State(), order)
    {
      hide StartText, FieldsText;
      io.Write(StartText(State().start));
      var names := SortedKeys(fields);
      order := names;
      WriteFields(io, names, fields);
      if verbatim != "" {
        io.Write(verbatim);
      }
      io.Write(CRLF);
    }
  }

  method WriteFields(io: MemoryStream, names: seq<string>, fields: FieldMap)
    requires forall k :: k in names ==> k in fields
    modifies io
    ensures io.data == old(io.data) + FieldsText(names, fields)
  {
    hide FieldText;
    var i := 0;
    ghost var written := "";
    assert names[0..] == names && io.data + "" == io.data;
    while i < |names|
      invariant 0 <= i <= |names|
      invariant io.data == old(io.data) + written
      invariant written + FieldsText(names[i..], fields) == FieldsText(names, fields)
    {
      var text := FieldText(names[i], fields[names[i]]);
      assert names[i..][0] == names[i] && names[i..][1..] == names[i + 1..];
      assert written + FieldsText(names[i..], fields) == written + text + FieldsText(names[i + 1..], fields);
      WriteField(io, names[i], fields[names[i]]);
      assert io.data == old(io.data) + (written + text);
      written := written + text;
      i := i + 1;
    }
    assert names[i..] == [];
  }

  method WriteField(io: MemoryStream, name: string, content: string)
    modifies io
    ensures io.data == old(io.data) + FieldText(name, content)
  {
    io.Write(name);
    io.Write(": ");
    io.Write(content);
    io.Write(CRLF);
  }

  // ------------------------------------------------------------------ facts about the loops

  /** Field lines only, as in a trailer. */
  function ParseFieldLines(h: HeaderState, s: string): (r: Parsed)
    decreases |s|
  {
    var n := LineEnd(s);
    if n == 0 then Parsed(h, s, false)
    else
      var (h1, done) := AfterFieldLine(h, s[..n - 2]);
      if done then Parsed(h1, s[n..], true) else ParseFieldLines(h1, s[n..])
  }

  /** The same, with the first line already taken off the input. */
  function AfterRawLine(h: HeaderState, raw: string, rest: string): Parsed
    requires |raw| >= 2
  {
    var (h1, done) := AfterFieldLine(h, raw[..|raw| - 2]);
    if done then Parsed(h1, rest, true) else ParseFieldLines(h1, rest)
  }

  lemma TakeRawLine(h: HeaderState, s: string)
    ensures var n := LineEnd(s);
            ParseFieldLines(h, s) == if n == 0 then Parsed(h, s, false) else AfterRawLine(h, s[..n], s[n..])
  {
    hide AfterFieldLine;
    var n := LineEnd(s);
    if n != 0 {
      assert s[..n][..n - 2] == s[..n - 2];
    }
  }

  lemma {:induction false} ParseLinesAreFieldLines(h: HeaderState, s: string, expected: FirstLineType)
    requires h.bytesParsed > 0
    ensures ParseLines(h, s, expected) == ParseFieldLines(h, s)
    decreases |s|
  {
    hide AfterFieldLine;
    var n := LineEnd(s);
    if n != 0 {
      ParseLinesAreFieldLines(AfterFieldLine(h, s[..n - 2]).0, s[n..], expected);
    }
  }

  function Part(src: FieldMap, names: seq<string>): FieldMap
    requires forall k :: k in names ==> k in src
  {
    map k | k in names :: src[k]
  }

  ghost function ValidKeys(src: FieldMap): set<string> {
    set k | k in src && Taken(src, k)
  }

  lemma MergeOne(fields: FieldMap, src: FieldMap, order: seq<string>, i: nat, replace: bool)
    requires i < |order| && Lists(order, src)
    ensures WithField(Merged(fields, Part(src, order[..i]), replace), order[i], src[order[i]], replace)
            == Merged(fields, Part(src, order[..i + 1]), replace)
    ensures |ValidKeys(Part(src, order[..i + 1]))| ==
            |ValidKeys(Part(src, order[..i]))| + if IsValidField(order[i], src[order[i]]) then 1 else 0
  {
    hide IsValidField;
    var part, next, k := Part(src, order[..i]), Part(src, order[..i + 1]), order[i];
    assert k !in part && next == part[k := src[k]];
    MergedWith(fields, part, k, src[k], replace);
    OneMoreKey(part, k, src[k]);
  }

  lemma OneMoreKey(part: FieldMap, k: string, content: string)
    requires k !in part
    ensures |ValidKeys(part[k := content])| == |ValidKeys(part)| + if IsValidField(k, content) then 1 else 0
  {
    hide IsValidField;
    var more := part[k := content];
    var added := if IsValidField(k, content) then {k} else {};
    forall j ensures j in ValidKeys(more) <==> j in ValidKeys(part) + added {
      assert j != k ==> Taken(more, j) == Taken(part, j);
    }
    assert ValidKeys(more) == ValidKeys(part) + added;
  }

  lemma MergedWith(fields: FieldMap, part: FieldMap, k: string, content: string, replace: bool)
    requires k !in part
    ensures WithField(Merged(fields, part, replace), k, content, replace) == Merged(fields, part[k := content], replace)
  {
    hide IsValidField;
    var more := part[k := content];
    var a, b := Merged(fields, part, replace), Merged(fields, more, replace);
    assert k in a <==> k in fields;
    forall j | j != k ensures (j in a <==> j in b) && (j in a ==> a[j] == b[j]) {
      assert Taken(part, j) == Taken(more, j);
    }
    assert WithField(a, k, content, replace).Keys == b.Keys;
  }

  lemma NothingMerged(fields: FieldMap, src: FieldMap, order: seq<string>, replace: bool)
    requires Lists(order, src)
    ensures Merged(fields, Part(src, order[..0]), replace) == fields
    ensures ValidKeys(Part(src, order[..0])) == {}
  {
    assert Part(src, order[..0]) == map[];
  }

  lemma AllMerged(src: FieldMap, order: seq<string>)
    requires Lists(order, src)
    ensures Part(src, order[..|order|]) == src
  {
    assert order[..|order|] == order;
  }

  lemma RaisedTwice(e: Errors, first: ParseError, more: seq<ParseError>)
    ensures Raised(Raised(e, [first]), more) == Raised(e, [first] + more)
  {
    assert ([first] + more)[1..] == more;
    assert Raised(e, [first]) == Raised(Errors(Worst(first, e.worst), first), []);
  }

  lemma RaisedAgain(e: Errors, some: seq<ParseError>, last: ParseError)
    requires |some| <= 1
    ensures Raised(Raised(e, some), [last]) == Raised(e, some + [last])
  {
    if some == [] {
      assert some + [last] == [last];
    } else {
      assert some == [some[0]];
      RaisedTwice(e, some[0], [last]);
    }
  }
}
