/** What the parser makes of every request there can be: its first line, its header, its body. */
module HttpRequests {
  import opened Collections
  import opened ByteStream
  import opened CString
  import opened HttpConsts
  import opened HttpHeader
  import opened HttpFields
  import opened HttpMachine
  import opened HttpWriter
  import opened HttpRoundTrip
  import opened HttpParser

  // ------------------------------------------------------------------ methods and versions

  predicate KnownMethod(s: string) { exists m :: m != METHOD_UNKNOWN && EqualsNoCase(s, MethodName(m)) }

  predicate KnownVersion(s: string) { exists v: Version :: v != VERSION_UNKNOWN && EqualsNoCase(s, VersionName(v)) }

  /** A method is recognised exactly by its name, in whatever case. */
  lemma MethodMeans(s: string)
    ensures GetMethod(s) != METHOD_UNKNOWN <==> KnownMethod(s)
    ensures forall m :: m != METHOD_UNKNOWN ==> (GetMethod(s) == m <==> EqualsNoCase(s, MethodName(m)))
  {
    NameOfMethod(s);
    hide GetMethod, EqualsNoCase, MethodName;
    forall m | m != METHOD_UNKNOWN && EqualsNoCase(s, MethodName(m)) ensures GetMethod(s) == m {
      SameMethod(s, m);
    }
  }

  lemma NameOfMethod(s: string)
    ensures GetMethod(s) != METHOD_UNKNOWN ==> EqualsNoCase(s, MethodName(GetMethod(s)))
  {
    hide EqualsNoCase;
  }

  lemma SameMethod(s: string, m: Method)
    requires EqualsNoCase(s, MethodName(m))
    ensures GetMethod(s) == GetMethod(MethodName(m)) == m
  {
    MethodRoundTrip(m);
    NoNul(MethodName(m));
    SameLetters(s, MethodName(m));
  }

  /** Only the letters matter, whatever their case. */
  lemma SameLetters(s: string, t: string)
    requires LowerCase(CStr(s)) == LowerCase(CStr(t))
    ensures GetMethod(s) == GetMethod(t) && GetVersion(s) == GetVersion(t)
  {
    hide LowerCase, CStr;
  }

  lemma NoNul(s: string)
    requires '\0' !in s
    ensures CStr(s) == s
  {
  }

  /** So is a version. */
  lemma VersionMeans(s: string)
    ensures GetVersion(s) != VERSION_UNKNOWN <==> KnownVersion(s)
    ensures forall v: Version :: v != VERSION_UNKNOWN ==> (GetVersion(s) == v <==> EqualsNoCase(s, VersionName(v)))
  {
    NameOfVersion(s);
    hide GetVersion, EqualsNoCase, VersionName;
    forall v: Version | v != VERSION_UNKNOWN && EqualsNoCase(s, VersionName(v)) ensures GetVersion(s) == v {
      SameVersion(s, v);
    }
  }

  lemma NameOfVersion(s: string)
    ensures GetVersion(s) != VERSION_UNKNOWN ==> EqualsNoCase(s, VersionName(GetVersion(s)))
  {
    hide EqualsNoCase;
  }

  lemma SameVersion(s: string, v: Version)
    requires EqualsNoCase(s, VersionName(v))
    ensures GetVersion(s) == GetVersion(VersionName(v)) == v
  {
    VersionRoundTrip(v);
    NoNul(VersionName(v));
    SameLetters(s, VersionName(v));
  }

  // ------------------------------------------------------------------ the first line

  predicate Blanks(s: string) { s != "" && forall i :: 0 <= i < |s| ==> s[i] == ' ' }

  predicate NoBlank(s: string) { ' ' !in s }

  /** Every line is a method, or a method and a URI, or a method, a URI and what is taken for the version,
      each behind blanks. */
  datatype RequestLine = RequestLine(verb: string, gap: string, uri: string, gap': string, version: string)

  predicate Wellformed(q: RequestLine) {
    && NoBlank(q.verb) && (q.gap == "" || Blanks(q.gap)) && NoBlank(q.uri) && (q.gap' == "" || Blanks(q.gap'))
    && (q.gap == "" ==> q.uri == "" && q.gap' == "") && (q.gap' == "" ==> q.version == "")
    && (q.uri == "" ==> q.gap' == "") && (q.version == "" || q.version[0] != ' ')
  }

  function LineOf(q: RequestLine): string { q.verb + q.gap + q.uri + q.gap' + q.version }

  lemma {:induction false} BlanksSkipped(blanks: string, s: string)
    requires (blanks == "" || Blanks(blanks)) && (s == "" || s[0] != ' ')
    ensures SkipBlanks(blanks + s) == s
  {
    if blanks == "" {
      assert blanks + s == s;
    } else {
      assert (blanks + s)[1..] == blanks[1..] + s;
      BlanksSkipped(blanks[1..], s);
    }
  }

  lemma FirstBlank(a: string, blanks: string, s: string)
    requires NoBlank(a) && Blanks(blanks)
    ensures Find(a + blanks + s, ' ') == |a| < |a + blanks + s|
    ensures (a + blanks + s)[..|a|] == a && (a + blanks + s)[|a|..] == blanks + s
  {
    var more := blanks[1..] + s;
    assert a + blanks + s == a + [' '] + more;
    FindAfter(a, ' ', more);
  }

  /** What a request line sets: nothing is wrong with it exactly when it has all three parts. */
  lemma RequestLineMeans(s: StartLine, q: RequestLine)
    requires Wellformed(q)
    ensures var (t, raised) := FirstLine(s, LineOf(q), REQUEST_LINE);
            && t.verb == GetMethod(q.verb) && t.statusCode == s.statusCode && t.reason == s.reason
            && raised == (if q.gap == "" then [READ_NO_REQUEST_URI] else if q.gap' == "" then [READ_NO_REQUEST_VERSION] else [])
            && t.kind == (if raised == [] then REQUEST_LINE else ERROR_LINE)
            && t.uri == (if q.gap == "" then s.uri else q.uri)
            && t.version == (if q.gap' == "" then s.version else GetVersion(q.version))
  {
    hide GetMethod, GetVersion, SkipBlanks;
    var line := LineOf(q);
    if q.gap == "" {
      assert line == q.verb;
      assert Find(q.verb, ' ') == |q.verb|;
    } else {
      var rest := q.uri + q.gap' + q.version;
      assert line == q.verb + q.gap + rest;
      FirstBlank(q.verb, q.gap, rest);
      assert rest == "" || rest[0] != ' ' by {
        if q.uri != "" {
          assert rest[0] == q.uri[0] && q.uri[0] in q.uri;
        }
      }
      BlanksSkipped(q.gap, rest);
      if q.gap' == "" {
        assert rest == q.uri;
        assert Find(rest, ' ') == |rest|;
      } else {
        FirstBlank(q.uri, q.gap', q.version);
        BlanksSkipped(q.gap', q.version);
      }
    }
  }

  /** Every line can be read in this way. */
  lemma SomeRequestLine(line: string) returns (q: RequestLine)
    ensures Wellformed(q) && LineOf(q) == line
  {
    var verb, gap, more := SplitToken(line);
    var uri, gap', version := SplitToken(more);
    q := RequestLine(verb, gap, uri, gap', version);
    assert verb + gap + (uri + gap' + version) == LineOf(q);
  }

  /** A token, the blanks behind it and the rest. */
  lemma SplitToken(s: string) returns (token: string, gap: string, rest: string)
    ensures token + gap + rest == s && NoBlank(token) && (gap == "" || Blanks(gap))
    ensures (gap == "" ==> rest == "") && (rest == "" || rest[0] != ' ') && (token == "" ==> gap == "" || s[0] == ' ')
  {
    hide Find, LeadingBlanks;
    var n := Find(s, ' ');
    var m := LeadingBlanks(s[n..]);
    token, gap, rest := s[..n], s[n..][..m], s[n..][m..];
    assert s[n..] == gap + rest && s == token + s[n..];
  }

  function LeadingBlanks(s: string): (n: nat)
    ensures n <= |s| && (forall i :: 0 <= i < n ==> s[i] == ' ') && (n < |s| ==> s[n] != ' ')
  {
    if s == "" || s[0] != ' ' then 0 else 1 + LeadingBlanks(s[1..])
  }

  // ------------------------------------------------------------------ the header

  /** The bytes of a request header: a first line, other lines and the empty line. */
  function HeaderBytes(first: string, lines: seq<string>): string {
    first + CRLF + (LinesText(lines) + CRLF)
  }

  /** The worst thing that is wrong with a header. */
  function WorstIn(raised: seq<ParseError>, lines: seq<string>): ParseError
    requires |raised| <= 1
  {
    Worst(if raised == [] then READ_INIT else raised[0], WorstOf(HasStray(lines, false), AllGood(EntriesOf(lines))))
  }

  /** Reading lines is a run of the machine, up to what the last one leads to. */
  lemma {:induction false} HeaderRun(c: Conf, L: Limits)
    requires c.state == STATE_HEADER_READING
    ensures var r := ParseLines(c.header, c.inp, REQUEST_LINE);
            r.done ==> Run(c, L) == Run(c.(header := r.header, inp := r.rest, state := HeaderVerdict(r.header, L)), L)
    decreases |c.inp|
  {
    hide HeaderLine, HeaderVerdict;
    var n := LineEnd(c.inp);
    if n != 0 {
      LineRun(c, L);
      var (h, done) := HeaderLine(c.header, c.inp[..n - 2], REQUEST_LINE);
      if !done {
        HeaderRun(c.(header := h, inp := c.inp[n..]), L);
      }
    }
  }

  /** The header of a fresh parser once all lines have been read. */
  lemma HeaderIsRead(strict: bool, first: string, lines: seq<string>, tail: string)
    requires IsLine(first) && forall line :: line in lines ==> IsLine(line)
    ensures var (start, raised) := FirstLine(NO_START_LINE, first, REQUEST_LINE);
            var r := ParseLines(Cleared(strict), HeaderBytes(first, lines) + tail, REQUEST_LINE);
            && |raised| <= 1 && r.done && r.rest == tail && r.header.start == start
            && r.header.section == Section(strict, "", "", r.header.Fields())
            && Collects(map[], EntriesOf(lines), strict, r.header.Fields())
            && r.header.errors.worst == WorstIn(raised, lines)
            && r.header.bytesParsed == |HeaderBytes(first, lines)|
  {
    hide Collects, EntriesOf, HasStray, AllGood, FirstLine, IsLine, LineEnd, LinesText;
    var (start, raised) := FirstLine(NO_START_LINE, first, REQUEST_LINE);
    OneError(NO_START_LINE, first);
    var more := LinesText(lines) + CRLF + tail;
    assert HeaderBytes(first, lines) + tail == first + CRLF + more;
    FirstLineIs(first, more);
    var h := HeaderLine(Cleared(strict), first, REQUEST_LINE).0;
    AnyLines(h, lines, tail, REQUEST_LINE);
    RaisedOnce(raised);
  }

  lemma OneError(s: StartLine, line: string)
    ensures |FirstLine(s, line, REQUEST_LINE).1| <= 1
  {
  }

  lemma RaisedOnce(raised: seq<ParseError>)
    requires |raised| <= 1
    ensures Raised(Errors(READ_INIT, READ_INIT), raised).worst == if raised == [] then READ_INIT else raised[0]
  {
    if raised != [] {
      assert raised == [raised[0]];
    }
  }

  /** What the header of such a request holds. */
  ghost predicate IsHeaderOf(h: HeaderState, strict: bool, first: string, lines: seq<string>) {
    && h.start == FirstLine(NO_START_LINE, first, REQUEST_LINE).0
    && h.section == Section(strict, "", "", h.Fields()) && Collects(map[], EntriesOf(lines), strict, h.Fields())
  }

  /** What a complete header leads to. */
  function Judged(d: Conf, size: nat, worst: ParseError, L: Limits): Conf {
    var start := d.header.start;
    if size > L.maxHeader then d.(state := ERROR_HEADER_TOO_LONG)
    else if start.verb == METHOD_UNKNOWN && !L.acceptWrongMethod then d.(state := ERROR_HEADER_LINE)
    else if start.version == VERSION_UNKNOWN && !L.acceptWrongVersion then d.(state := ERROR_HEADER_LINE)
    else if worst > L.worstAccepted then d.(state := ERROR_HEADER_BAD)
    else Drive(d.(state := STATE_END_OF_HEADER), L)
  }

  /** Any request header at all, up to its empty line: one that is too long, names an unknown method or
      version, or has something wrong with it that is worse than what is tolerated, ends the request with
      the error that says so. With any other the parser goes on to the payload. */
  lemma RequestHeaderMeans(strict: bool, first: string, lines: seq<string>, tail: string, L: Limits) returns (h: HeaderState)
    requires IsLine(first) && forall line :: line in lines ==> IsLine(line)
    ensures IsHeaderOf(h, strict, first, lines)
    ensures |FirstLine(NO_START_LINE, first, REQUEST_LINE).1| <= 1
    ensures var c, size := Fresh(strict, HeaderBytes(first, lines) + tail), |HeaderBytes(first, lines)|;
            var worst := WorstIn(FirstLine(NO_START_LINE, first, REQUEST_LINE).1, lines);
            Drive(c, L) == Judged(c.(header := h, inp := tail), size, worst, L)
  {
    HeaderIsRead(strict, first, lines, tail);
    hide Collects, EntriesOf, FirstLine, IsLine, LinesText, ParseLines, HeaderBytes, WorstIn, Judged, Drive;
    var c := Fresh(strict, HeaderBytes(first, lines) + tail);
    h := ParseLines(Cleared(strict), c.inp, REQUEST_LINE).header;
    FreshRun(strict, c.inp, L);
    JudgedIs(c.(header := h, inp := tail), L);
  }

  lemma JudgedIs(d: Conf, L: Limits)
    ensures Drive(d.(state := HeaderVerdict(d.header, L)), L) == Judged(d, d.header.bytesParsed, d.header.errors.worst, L)
  {
    hide Run, Settle;
    FinalRun(d.(state := HeaderVerdict(d.header, L)), L);
  }

  lemma FreshRun(strict: bool, input: string, L: Limits)
    ensures var r := ParseLines(Cleared(strict), input, REQUEST_LINE);
            r.done ==> Drive(Fresh(strict, input), L) ==
                       Drive(Fresh(strict, input).(header := r.header, inp := r.rest, state := HeaderVerdict(r.header, L)), L)
  {
    hide ParseLines, HeaderVerdict, OnLine, BeginPayload;
    var c := Fresh(strict, input);
    assert Step(c, L) == Some(BeginMessage(c));
    hide Step;
    HeaderRun(BeginMessage(c), L);
  }

  // ------------------------------------------------------------------ the body

  predicate Given(fields: FieldMap, name: string) { name in fields && !TrimmedIsEmpty(fields[name]) }

  predicate Says(fields: FieldMap, name: string, prefix: string) { name in fields && TrimmedHasPrefix(fields[name], prefix) }

  /** What becomes of a body of `n` bytes: it is refused if that is too much, else as much as has arrived
      is copied, and it ends once all is there. */
  function BodyOf(c: Conf, n: nat, L: Limits): Conf {
    if L.maxBody >= 0 && n > L.maxBody then c.(state := ERROR_CONTENT_TOO_LONG, bodyLeft := n)
    else if |c.inp| >= n then c.(state := STATE_BODY_END, bodyLeft := 0, out := c.out + c.inp[..n], inp := c.inp[n..])
    else c.(state := STATE_BODY_READING, bodyLeft := n - |c.inp|, out := c.out + c.inp, inp := "")
  }

  lemma BodyOfMeans(c: Conf, n: nat, L: Limits)
    requires c.state == STATE_BODY_READING && c.bodyLeft == n
    ensures Drive(c, L) == BodyOf(c, n, L)
  {
    hide Drive;
    var over := L.maxBody >= 0 && n > L.maxBody;
    BodyRun(c, if over then 0 else Min(n, |c.inp|), L);
    assert c.inp[..|c.inp|] == c.inp && c.inp[|c.inp|..] == "";
  }

  /** The payload behind any header: encodings that are not known are refused; a chunked one is read in
      chunks, whatever length is given; a length must be a number that is not negative; without one there is
      no body, except behind PUT and POST, where it is a refusal or all that may be read. */
  lemma PayloadMeans(c: Conf, L: Limits)
    requires c.state == STATE_END_OF_HEADER && c.header.start.kind != STATUS_LINE
    ensures var fields, verb := c.header.Fields(), c.header.start.verb;
            var gzipped := Says(fields, HEADER_CONTENT_ENCODING, "gzip") || Says(fields, HEADER_CONTENT_ENCODING, "deflate");
            var chunked := Says(fields, HEADER_TRANSFER_ENCODING, "chunked");
            Drive(c, L) ==
            if Given(fields, HEADER_CONTENT_ENCODING) && !gzipped && !Says(fields, HEADER_CONTENT_ENCODING, "identity")
            then c.(state := ERROR_CONTENT_ENCODING_UNKNOWN)
            else if Given(fields, HEADER_TRANSFER_ENCODING) && !chunked && !Says(fields, HEADER_TRANSFER_ENCODING, "identity")
            then c.(state := ERROR_TRANSFER_ENCODING_UNKNOWN)
            else if gzipped then c.(state := COMPRESSED_BODY)
            else if chunked then Drive(c.(state := STATE_CHUNK_HEAD_READING), L)
            else if HEADER_CONTENT_LENGTH in fields then
              var length := Strtol(fields[HEADER_CONTENT_LENGTH], 10);
              if length.overflow || length.value < 0 then c.(state := ERROR_HEADER_BAD_CONTENT_LEN)
              else BodyOf(c, length.value, L)
            else if c.header.start.kind != REQUEST_LINE || (verb != METHOD_PUT && verb != METHOD_POST) then BodyOf(c, 0, L)
            else if !L.acceptNoContentLength then c.(state := STATE_END_OF_HEADER_FINAL, bodyLeft := LONG_MAX)
            else BodyOf(c, if 0 <= L.maxBody < LONG_MAX then L.maxBody else LONG_MAX, L)
  {
    hide TrimmedHasPrefix, TrimmedIsEmpty, Strtol, Drive, BodyOf;
    PayloadDrive(c, L);
    var d := BeginPayload(c, L);
    if d.state == STATE_BODY_READING {
      BodyOfMeans(d, d.bodyLeft, L);
      SameBody(c, d, d.bodyLeft, L);
    }
  }

  lemma PayloadDrive(c: Conf, L: Limits)
    requires c.state == STATE_END_OF_HEADER
    ensures var d := BeginPayload(c, L); Drive(c, L) == Drive(d, L) && (d.Final() ==> Drive(d, L) == d)
  {
    hide BeginPayload, OnLine, BodyStep, ChunkStep;
    var d := BeginPayload(c, L);
    assert Step(c, L) == Some(d);
    FinalRun(d, L);
  }

  lemma SameBody(c: Conf, d: Conf, n: nat, L: Limits)
    requires d == c.(state := d.state, bodyLeft := d.bodyLeft)
    ensures BodyOf(d, n, L) == BodyOf(c, n, L)
  {
  }

  // ------------------------------------------------------------------ chunks and waiting

  /** What a size leads to: a number that is not one or negative, one that is too large and one chunk too
      many are errors; 0 ends the chunks; any other announces that many bytes. */
  function Sized(d: Conf, length: Long, L: Limits): Conf {
    if length.overflow || length.value < 0 then d.(state := ERROR_CHUNK_BAD_CHUNK_LENGTH)
    else if length.value == 0 then Drive(d.(state := STATE_LAST_CHUNK_READ), L)
    else if length.value > L.maxChunk then d.(state := ERROR_CHUNK_TOO_LONG)
    else if 0 <= L.maxNumChunks <= d.numChunks then d.(state := ERROR_CHUNK_TOO_MANY, numChunks := d.numChunks + 1)
    else Drive(d.(state := STATE_CHUNK_READING, chunkLeft := length.value, numChunks := d.numChunks + 1), L)
  }

  /** The line in front of a chunk says its size. */
  lemma ChunkSizeMeans(c: Conf, line: string, rest: string, L: Limits)
    requires c.state == STATE_CHUNK_HEAD_READING && c.inp == line + CRLF + rest && (line == "" || IsLine(line))
    ensures Drive(c, L) == Sized(c.(inp := rest), Strtol(line, 16), L)
  {
    hide Drive, AfterChunkHead, Sized, Strtol, IsLine;
    ChunkHeadDrive(c, line, rest, L);
    SizeJudged(c.(inp := rest), line, L);
  }

  lemma ChunkHeadDrive(c: Conf, line: string, rest: string, L: Limits)
    requires c.state == STATE_CHUNK_HEAD_READING && c.inp == line + CRLF + rest && (line == "" || IsLine(line))
    ensures Drive(c, L) == Drive(AfterChunkHead(c.(inp := rest), line, L), L)
  {
    FirstLineIs(line, rest);
    hide LineEnd, Run, Settle, AfterChunkHead, IsLine;
    LineRun(c, L);
  }

  lemma SizeJudged(d: Conf, line: string, L: Limits)
    ensures Drive(AfterChunkHead(d, line, L), L) == Sized(d, Strtol(line, 16), L)
  {
    hide Run, Settle, Strtol;
    FinalRun(AfterChunkHead(d, line, L), L);
  }

  /** Behind a chunk there is a CRLF, and anything in front of it is too much. */
  lemma ChunkEndMeans(c: Conf, line: string, rest: string, L: Limits)
    requires c.state == STATE_END_OF_CHUNK && c.inp == line + CRLF + rest && (line == "" || IsLine(line))
    ensures Drive(c, L) == if line == "" then Drive(c.(inp := rest, state := STATE_CHUNK_HEAD_READING), L)
                           else c.(inp := rest, state := ERROR_CHUNK_BIGGER_THEN_DECLARED)
  {
    FirstLineIs(line, rest);
    hide LineEnd, IsLine, Run, Settle;
    LineRun(c, L);
    FinalRun(AfterChunkEnd(c.(inp := rest), line), L);
  }

  /** A parser that has no complete line waits, and gives up when more than its limit is waiting: with what
      was read before for a header or a trailer, and more than a CRLF behind a chunk. */
  lemma WaitingMeans(c: Conf, L: Limits)
    requires ReadsLines(c.state) && LineEnd(c.inp) == 0
    ensures var r := Drive(c, L);
            && r.inp == c.inp && r.out == c.out
            && (c.state == STATE_HEADER_READING ==>
                  r.state == if c.header.bytesParsed + |c.inp| > L.maxHeader then ERROR_HEADER_TOO_LONG else c.state)
            && (c.state == STATE_CHUNK_HEAD_READING ==>
                  r.state == if |c.inp| > L.maxHeader then ERROR_CHUNK_HEADER_TOO_LONG else c.state)
            && (c.state == STATE_END_OF_CHUNK ==>
                  r.state == if |c.inp| > 2 then ERROR_CHUNK_BAD_CHUNK_TERMINATION else c.state)
            && (c.state == STATE_LAST_CHUNK_READ ==>
                  r.state == if c.trail.bytesParsed + |c.inp| > L.maxHeader then ERROR_CHUNK_TRAILER_TOO_LONG else c.state)
  {
    hide LineEnd;
    LineRun(c, L);
  }

  /** What a status line sets: the reason may be missing up to version 1.0. */
  lemma StatusLineMeans(s: StartLine, q: RequestLine)
    requires Wellformed(q)
    ensures var (t, raised) := FirstLine(s, LineOf(q), STATUS_LINE);
            var (code, bad) := StatusCode(q.uri);
            && t.version == GetVersion(q.verb) && t.verb == s.verb && t.uri == s.uri
            && t.statusCode == (if q.gap == "" then s.statusCode else code)
            && t.reason == (if q.gap' == "" then s.reason else q.version)
            && raised == (if q.gap == "" then [READ_NO_STATUS_CODE]
                          else if q.gap' == "" && t.version > VERSION_1_0 then [READ_NO_STATUS_REASON] + bad else bad)
            && t.kind == (if q.gap == "" || (q.gap' == "" && t.version > VERSION_1_0) then ERROR_LINE else STATUS_LINE)
  {
    hide GetMethod, GetVersion, SkipBlanks, StatusCode;
    var line := LineOf(q);
    if q.gap == "" {
      assert line == q.verb;
      assert Find(q.verb, ' ') == |q.verb|;
    } else {
      var rest := q.uri + q.gap' + q.version;
      assert line == q.verb + q.gap + rest;
      FirstBlank(q.verb, q.gap, rest);
      assert rest == "" || rest[0] != ' ' by {
        if q.uri != "" {
          assert rest[0] == q.uri[0] && q.uri[0] in q.uri;
        }
      }
      BlanksSkipped(q.gap, rest);
      if q.gap' == "" {
        assert rest == q.uri && rest[..|rest|] == rest;
        assert Find(rest, ' ') == |rest|;
      } else {
        FirstBlank(q.uri, q.gap', q.version);
        BlanksSkipped(q.gap', q.version);
      }
    }
  }
}
