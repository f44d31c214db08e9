/** Whole requests: a request that is written out and parsed again. */
module HttpMessages {
  import opened Collections
  import opened ByteStream
  import opened CString
  import opened HttpConsts
  import opened HttpHeader
  import opened HttpMachine
  import opened HttpWriter
  import opened HttpCuts
  import opened HttpRoundTrip

  /** A field that survives the wire: a valid name in normal form, and contents that neither
      break the line nor start with a blank. */
  predicate CleanField(name: string, content: string) {
    && IsValidFieldName(name) && NormalizeFieldName(name) == name
    && IsValidFieldContent(content) && '\n' !in content
    && (content == "" || !IsLwfChar(content[0]))
  }

  ghost predicate CleanFields(fields: FieldMap) {
    forall k :: k in fields ==> CleanField(k, fields[k])
  }

  predicate CleanStart(s: StartLine) {
    && s.kind == REQUEST_LINE && s.verb != METHOD_UNKNOWN && s.version != VERSION_UNKNOWN
    && s.uri != "" && ' ' !in s.uri && '\n' !in s.uri
  }

  // ------------------------------------------------------------------ the first line

  lemma TokenSplit(a: string, rest: string)
    requires ' ' !in a && rest != "" && rest[0] != ' '
    ensures var s := a + " " + rest;
            Find(s, ' ') == |a| && s[..|a|] == a && SkipBlanks(s[|a|..]) == rest
  {
    var s := a + " " + rest;
    FindAfter(a, ' ', rest);
    assert s[|a|..] == " " + rest;
    assert (" " + rest)[1..] == rest;
  }

  /** The start line as a fresh header reads it. */
  function ReadBack(s: StartLine): StartLine {
    NO_START_LINE.(verb := s.verb, uri := s.uri, version := s.version, kind := REQUEST_LINE)
  }

  lemma FirstLineRoundTrip(s: StartLine)
    requires CleanStart(s)
    ensures var line := MethodName(s.verb) + " " + s.uri + " " + VersionName(s.version);
            FirstLine(NO_START_LINE, line, REQUEST_LINE) == (ReadBack(s), []) && '\n' !in line
  {
    hide GetMethod, GetVersion, MethodName, VersionName, SkipBlanks, Find;
    var m, v := MethodName(s.verb), VersionName(s.version);
    var line := m + " " + s.uri + " " + v;
    var rest := s.uri + " " + v;
    assert line == m + " " + rest;
    assert rest[0] == s.uri[0] && s.uri[0] in s.uri;
    TokenSplit(m, rest);
    assert v[0] in v;
    TokenSplit(s.uri, v);
    MethodRoundTrip(s.verb);
    VersionRoundTrip(s.version);
  }

  // ------------------------------------------------------------------ the status line

  /** A status line that survives the wire. */
  predicate CleanStatus(s: StartLine) {
    && s.kind == STATUS_LINE && s.version != VERSION_UNKNOWN && -INT_MAX - 1 <= s.statusCode <= INT_MAX
    && '\n' !in s.reason && (s.reason == "" || s.reason[0] != ' ')
  }

  lemma NoBlankInDigits(n: nat)
    ensures ' ' !in Spell(n, 10) && '\n' !in Spell(n, 10)
  {
    assert PlainDigits(Spell(n, 10));
  }

  /** A composed status line parses back to its version, code and reason. */
  lemma StatusLineRoundTrip(s: StartLine)
    requires CleanStatus(s)
    ensures StartText(s) == VersionName(s.version) + " " + SignedText(s.statusCode) + " " + s.reason + CRLF
    ensures var line := VersionName(s.version) + " " + SignedText(s.statusCode) + " " + s.reason;
            && '\n' !in line
            && FirstLine(NO_START_LINE, line, STATUS_LINE) ==
               (NO_START_LINE.(version := s.version, statusCode := s.statusCode, reason := s.reason, kind := STATUS_LINE), [])
  {
    StatusCodeText(s.statusCode);
    StatusCodeRoundTrip(s.statusCode);
    VersionRoundTrip(s.version);
    hide GetVersion, VersionName, SignedText, StatusCode, FirstLine;
    StatusTokens(VersionName(s.version), SignedText(s.statusCode), s.reason);
  }

  lemma StatusCodeText(n: int)
    ensures var code := SignedText(n); ' ' !in code && '\n' !in code && code != ""
  {
    hide Spell;
    NoBlankInDigits(if n < 0 then -n else n);
  }

  lemma StatusTokens(v: string, code: string, reason: string)
    requires ' ' !in v && ' ' !in code && code != "" && (reason == "" || reason[0] != ' ')
    ensures FirstLine(NO_START_LINE, v + " " + code + " " + reason, STATUS_LINE) ==
            (NO_START_LINE.(version := GetVersion(v), statusCode := StatusCode(code).0, reason := reason, kind := STATUS_LINE),
             StatusCode(code).1)
  {
    hide GetVersion, SkipBlanks, Find, StatusCode;
    var rest := code + " " + reason;
    assert v + " " + code + " " + reason == v + " " + rest && rest[0] == code[0] && code[0] in code;
    TokenSplit(v, rest);
    FindAfter(code, ' ', reason);
    assert rest[..|code|] == code && rest[|code|..] == " " + reason;
    BlankBefore(reason);
  }

  lemma BlankBefore(t: string)
    requires t == "" || t[0] != ' '
    ensures SkipBlanks(" " + t) == t
  {
    assert (" " + t)[1..] == t;
  }

  // ------------------------------------------------------------------ the fields

  lemma ValidNameChars(name: string)
    requires IsValidFieldName(name)
    ensures ':' !in name && '\n' !in name && !IsLwfChar(name[0])
  {
  }

  lemma CleanFieldLine(name: string, content: string)
    requires CleanField(name, content)
    ensures var line := name + ": " + content;
            && '\n' !in line && line != "" && !IsLwfChar(line[0])
            && Find(line, ':') == |name|
            && line[..|name|] == name
            && SkipLwf(line[|name| + 1..]) == content
  {
    ValidNameChars(name);
    hide IsValidFieldName, NormalizeFieldName, IsValidFieldContent, Find, SkipLwf;
    ColonSplit(name, content);
  }

  lemma ColonSplit(name: string, content: string)
    requires ':' !in name && (content == "" || !IsLwfChar(content[0]))
    ensures var line := name + ": " + content;
            Find(line, ':') == |name| && line[..|name|] == name && SkipLwf(line[|name| + 1..]) == content
  {
    var line := name + ": " + content;
    assert line == name + [':'] + (" " + content);
    FindAfter(name, ':', " " + content);
    assert line[|name| + 1..] == " " + content;
    assert (" " + content)[1..] == content;
    assert SkipLwf(" " + content) == SkipLwf(content);
  }

  /** The fields once the pending one has been added. */
  function Pending(s: Section): FieldMap {
    if s.crtName == "" then s.fields else s.fields[s.crtName := s.crtContent]
  }

  predicate CleanPending(s: Section) {
    s.crtName != "" ==> CleanField(s.crtName, s.crtContent) && s.crtName !in s.fields
  }

  lemma FlushClean(s: Section)
    requires CleanPending(s)
    ensures Flushed(s) == (Section(s.strict, "", "", Pending(s)), true)
  {
  }

  function AfterField(c: Conf, name: string, content: string, rest: string): Conf {
    var s := c.header.section;
    c.(inp := rest, header := c.header.(bytesParsed := c.header.bytesParsed + |FieldText(name, content)|,
                                        section := Section(s.strict, name, content, Pending(s))))
  }

  /** One field line after another: nothing goes wrong, and each field waits for the next line. */
  lemma FieldLineLeads(c: Conf, name: string, content: string, tail: string, L: Limits)
    requires c.state == STATE_HEADER_READING && c.header.bytesParsed > 0 && CleanPending(c.header.section)
    requires CleanField(name, content) && c.inp == FieldText(name, content) + tail
    requires c.header.bytesParsed + |FieldText(name, content)| <= L.maxHeader + 1
    ensures Leads(c, AfterField(c, name, content, tail), L)
  {
    hide Leads, LineEnd, CleanField, OnLine;
    var line := name + ": " + content;
    assert c.inp == line + CRLF + tail;
    CleanFieldLine(name, content);
    LineLeads(c, line, tail, L);
    OnFieldLine(c, name, content, tail, L);
  }

  lemma OnFieldLine(c: Conf, name: string, content: string, tail: string, L: Limits)
    requires c.state == STATE_HEADER_READING && c.header.bytesParsed > 0 && CleanPending(c.header.section)
    requires CleanField(name, content)
    ensures OnLine(c.(inp := tail), name + ": " + content, L) == AfterField(c, name, content, tail)
  {
    hide CleanField, Flushed, Find, SkipLwf, HeaderVerdict, AfterChunkHead, AfterTrailer;
    CleanFieldLine(name, content);
    FlushClean(c.header.section);
  }

  /** The header after its last line. */
  function Ended(h: HeaderState, fields: FieldMap, size: nat): HeaderState {
    h.(bytesParsed := h.bytesParsed + size, section := Section(h.section.strict, "", "", fields),
       errors := Raised(h.errors, [READ_OK]))
  }

  lemma EmptyLineLeads(c: Conf, tail: string, L: Limits)
    requires c.state == STATE_HEADER_READING && c.header.bytesParsed > 0 && CleanPending(c.header.section)
    requires c.inp == CRLF + tail && c.header.bytesParsed + 2 <= L.maxHeader + 1
    ensures var h := Ended(c.header, Pending(c.header.section), 2);
            Leads(c, c.(inp := tail, header := h, state := HeaderVerdict(h, L)), L)
  {
    hide Leads, LineEnd, HeaderVerdict, IsValidFieldName, NormalizeFieldName, IsValidFieldContent;
    assert c.inp == "" + CRLF + tail;
    FlushClean(c.header.section);
    LineLeads(c, "", tail, L);
  }

  function Listed(order: seq<string>, fields: FieldMap): FieldMap
    requires forall k :: k in order ==> k in fields
  {
    map k | k in order :: fields[k]
  }

  /** The configuration after the listed fields and the empty line. */
  function AfterFields(c: Conf, order: seq<string>, fields: FieldMap, tail: string, L: Limits): Conf
    requires forall k :: k in order ==> k in fields
  {
    var all := Pending(c.header.section) + Listed(order, fields);
    var h := Ended(c.header, all, |FieldsText(order, fields)| + 2);
    c.(inp := tail, header := h, state := HeaderVerdict(h, L))
  }

  lemma {:induction false} FieldsLead(c: Conf, order: seq<string>, fields: FieldMap, tail: string, L: Limits)
    requires c.state == STATE_HEADER_READING && c.header.bytesParsed > 0 && CleanPending(c.header.section)
    requires forall k :: k in order ==> k in fields && CleanField(k, fields[k]) && k !in Pending(c.header.section)
    requires forall i, j :: 0 <= i < j < |order| ==> order[i] != order[j]
    requires c.inp == FieldsText(order, fields) + CRLF + tail
    requires c.header.bytesParsed + |FieldsText(order, fields)| + 2 <= L.maxHeader + 1
    ensures Leads(c, AfterFields(c, order, fields, tail, L), L)
    decreases |order|
  {
    hide Leads, AfterFields, CleanField, FieldText;
    if order == [] {
      assert c.inp == CRLF + tail;
      EmptyLineLeads(c, tail, L);
      AfterNoFields(c, fields, tail, L);
    } else {
      var name, content, rest := order[0], fields[order[0]], FieldsText(order[1..], fields) + CRLF + tail;
      assert c.inp == FieldText(name, content) + rest;
      assert name in order && name !in order[1..] && forall k :: k in order[1..] ==> k in order;
      CleanNameNotEmpty(name, content);
      FieldLineLeads(c, name, content, rest, L);
      var d := AfterField(c, name, content, rest);
      FieldsLead(d, order[1..], fields, tail, L);
      AfterOneField(c, order, fields, rest, tail, L);
      LeadsOn(c, d, AfterFields(c, order, fields, tail, L), L);
    }
  }

  lemma AfterNoFields(c: Conf, fields: FieldMap, tail: string, L: Limits)
    ensures var h := Ended(c.header, Pending(c.header.section), 2);
            AfterFields(c, [], fields, tail, L) == c.(inp := tail, header := h, state := HeaderVerdict(h, L))
  {
    hide HeaderVerdict;
    assert Pending(c.header.section) + Listed([], fields) == Pending(c.header.section);
  }

  lemma AfterOneField(c: Conf, order: seq<string>, fields: FieldMap, rest: string, tail: string, L: Limits)
    requires order != [] && forall k :: k in order ==> k in fields
    requires NotEmpty(order[0]) && order[0] !in order[1..]
    ensures AfterFields(AfterField(c, order[0], fields[order[0]], rest), order[1..], fields, tail, L)
            == AfterFields(c, order, fields, tail, L)
  {
    hide FieldText, HeaderVerdict;
    var s := c.header.section;
    assert Pending(s)[order[0] := fields[order[0]]] + Listed(order[1..], fields) == Pending(s) + Listed(order, fields);
  }

  predicate NotEmpty(s: string) { s != "" }

  lemma CleanNameNotEmpty(name: string, content: string)
    requires CleanField(name, content)
    ensures NotEmpty(name)
  {
  }

  // ------------------------------------------------------------------ the whole header

  /** The header that a parser reads back from the text of `h`. */
  function ReadHeader(h: HeaderState, strict: bool, size: nat): HeaderState {
    HeaderState(size, Errors(READ_OK, READ_OK), ReadBack(h.start), Section(strict, "", "", h.Fields()), "")
  }

  /** The configuration once the first line has been read. */
  function AfterStart(c: Conf, s: StartLine, rest: string): Conf {
    c.(inp := rest, out := "", state := STATE_HEADER_READING,
       header := HeaderState(|StartText(s)|, Errors(READ_INIT, READ_INIT), ReadBack(s),
                             Section(c.header.section.strict, "", "", map[]), ""))
  }

  lemma StartLeads(c: Conf, s: StartLine, rest: string, L: Limits)
    requires c.state == STATE_INITIALIZED && CleanStart(s) && c.inp == StartText(s) + rest
    requires |StartText(s)| <= L.maxHeader
    ensures Leads(c, AfterStart(c, s, rest), L)
  {
    hide Leads, LineEnd, OnLine, BeginPayload, MethodName, VersionName;
    StepLeads(c, L);
    var d := BeginMessage(c);
    var line := MethodName(s.verb) + " " + s.uri + " " + VersionName(s.version);
    assert d.inp == line + CRLF + rest;
    FirstLineRoundTrip(s);
    LineLeads(d, line, rest, L);
    OnStartLine(c, s, rest, L);
    LeadsOn(c, d, AfterStart(c, s, rest), L);
  }

  lemma OnStartLine(c: Conf, s: StartLine, rest: string, L: Limits)
    requires CleanStart(s)
    ensures var line := MethodName(s.verb) + " " + s.uri + " " + VersionName(s.version);
            OnLine(BeginMessage(c).(inp := rest), line, L) == AfterStart(c, s, rest)
  {
    hide FirstLine, MethodName, VersionName, AfterChunkHead, AfterTrailer;
    FirstLineRoundTrip(s);
  }

  /** A request header comes back with its first line and its fields, whatever the order in
      which the fields were written. */
  lemma HeaderRoundTrip(c: Conf, h: HeaderState, order: seq<string>, tail: string, L: Limits)
    requires CleanStart(h.start) && CleanFields(h.Fields()) && h.verbatim == "" && Lists(order, h.Fields())
    requires c.state == STATE_INITIALIZED && c.inp == HeaderText(h, order) + tail
    requires |HeaderText(h, order)| <= L.maxHeader && L.worstAccepted >= READ_OK
    ensures var r := ReadHeader(h, c.header.section.strict, |HeaderText(h, order)|);
            Leads(c, c.(inp := tail, out := "", header := r, state := STATE_END_OF_HEADER), L)
  {
    hide Leads, CleanField, StartText, AfterFields, HeaderVerdict;
    var fields := h.Fields();
    var rest := FieldsText(order, fields) + CRLF + tail;
    assert c.inp == StartText(h.start) + rest;
    StartLeads(c, h.start, rest, L);
    StartNotEmpty(h.start);
    var d := AfterStart(c, h.start, rest);
    FieldsLead(d, order, fields, tail, L);
    AllFieldsRead(c, h, order, rest, tail, L);
    LeadsOn(c, d, AfterFields(d, order, fields, tail, L), L);
  }

  lemma AllFieldsRead(c: Conf, h: HeaderState, order: seq<string>, rest: string, tail: string, L: Limits)
    requires CleanStart(h.start) && h.verbatim == "" && Lists(order, h.Fields())
    requires |HeaderText(h, order)| <= L.maxHeader && L.worstAccepted >= READ_OK
    ensures var r := ReadHeader(h, c.header.section.strict, |HeaderText(h, order)|);
            AfterFields(AfterStart(c, h.start, rest), order, h.Fields(), tail, L)
            == c.(inp := tail, out := "", header := r, state := STATE_END_OF_HEADER)
  {
    hide StartText, FieldsText;
    assert map[] + Listed(order, h.Fields()) == h.Fields();
  }

  lemma StartNotEmpty(s: StartLine)
    ensures StartText(s) != ""
  {
  }

  // ------------------------------------------------------------------ whole requests

  /** The bytes of a request with an uncompressed, unchunked body. */
  function MessageText(h: HeaderState, body: string, useGzip: bool, order: seq<string>): string
    requires Lists(order, SentFields(h.Fields(), h.start.verb, body, useGzip))
  {
    HeaderText(Sent(h, body, useGzip), order) + body
  }

  /** The length that the receiver will see is that of the body. It may not be: without a body
      and without POST or PUT, a Content-Length that is already among the fields is sent as it is. */
  predicate LengthAgrees(h: HeaderState, body: string) {
    || SetsLength(h.start.verb, body)
    || HEADER_CONTENT_LENGTH !in h.Fields()
    || Strtol(h.Fields()[HEADER_CONTENT_LENGTH], 10) == Long(0, false)
  }

  /** A request that may be written, and whose parts fit the receiver's limits. */
  ghost predicate Sendable(h: HeaderState, body: string, useGzip: bool, order: seq<string>, L: Limits) {
    && CleanStart(h.start) && CleanFields(h.Fields()) && h.verbatim == ""
    && Lists(order, SentFields(h.Fields(), h.start.verb, body, useGzip))
    && |HeaderText(Sent(h, body, useGzip), order)| <= L.maxHeader
    && |body| <= LONG_MAX && (L.maxBody >= 0 ==> |body| <= L.maxBody)
    && L.worstAccepted >= READ_OK
  }

  predicate Delivered(r: Conf, h: HeaderState, body: string, useGzip: bool, tail: string) {
    && r.state == STATE_BODY_END
    && r.header.start == ReadBack(h.start)
    && r.header.Fields() == SentFields(h.Fields(), h.start.verb, body, useGzip)
    && r.out == body
    && r.inp == tail
  }

  /** Letters and dashes are token characters. */
  lemma NameChars(s: string)
    requires s != "" && forall i :: 0 <= i < |s| ==> IsAlpha(s[i]) || s[i] == '-'
    ensures IsValidFieldName(s) && TrimLwfBack(s) == s && SkipLwf(s) == s
  {
  }

  lemma ContentLengthIsNormal()
    ensures Capitalize(HEADER_CONTENT_LENGTH, true) == HEADER_CONTENT_LENGTH
  {
    hide Capitalize;
    var s := HEADER_CONTENT_LENGTH;
    assert s[0] == 'C' && s[7] == '-' && s[8] == 'L';
    assert forall i :: 1 <= i < 7 || 9 <= i < 14 ==> IsLower(s[i]);
    WordCaseIsFixed(s, true);
  }

  lemma AcceptEncodingIsNormal()
    ensures Capitalize(HEADER_ACCEPT_ENCODING, true) == HEADER_ACCEPT_ENCODING
  {
    hide Capitalize;
    var s := HEADER_ACCEPT_ENCODING;
    assert s[0] == 'A' && s[6] == '-' && s[7] == 'E';
    assert forall i :: 1 <= i < 6 || 8 <= i < 15 ==> IsLower(s[i]);
    WordCaseIsFixed(s, true);
  }

  lemma OwnFieldsAreClean(size: nat)
    ensures CleanField(HEADER_ACCEPT_ENCODING, "gzip, deflate")
    ensures CleanField(HEADER_CONTENT_LENGTH, Spell(size, 10))
  {
    hide Spell, IsValidFieldName, TrimLwfBack, SkipLwf, Capitalize;
    NameChars(HEADER_CONTENT_LENGTH);
    NameChars(HEADER_ACCEPT_ENCODING);
    ContentLengthIsNormal();
    AcceptEncodingIsNormal();
  }

  lemma SentFieldsAreClean(fields: FieldMap, verb: Method, body: string, useGzip: bool)
    requires CleanFields(fields)
    ensures CleanFields(SentFields(fields, verb, body, useGzip))
  {
    OwnFieldsAreClean(|body|);
    hide CleanField, Spell;
  }

  /** What a request that is not compressed says about codings: none of its own, and which ones are
      accepted. Its other fields go out as they are. */
  lemma EncodingFieldsMean(fields: FieldMap, useGzip: bool, name: string)
    ensures var sent := EncodingFields(fields, useGzip);
            if name == HEADER_CONTENT_ENCODING then name !in sent
            else if name == HEADER_ACCEPT_ENCODING then
              (name in sent <==> useGzip) && (useGzip ==> sent[name] == "gzip, deflate")
            else (name in sent <==> name in fields) && (name in fields ==> sent[name] == fields[name])
  {
    HeaderNamesDiffer();
    OwnFieldsAreClean(0);
    hide CleanField, Spell, WithField;
    Replaced(WithoutField(fields, HEADER_CONTENT_ENCODING), HEADER_ACCEPT_ENCODING, "gzip, deflate");
    OneGoneOneSet(fields, HEADER_CONTENT_ENCODING, HEADER_ACCEPT_ENCODING, "gzip, deflate", useGzip, name);
  }

  /** A clean field takes the place of what was there. */
  lemma Replaced(fields: FieldMap, name: string, content: string)
    requires CleanField(name, content)
    ensures WithField(fields, name, content, true) == fields[name := content]
  {
    hide NormalizeFieldName, IsValidFieldName, IsValidFieldContent;
  }

  /** What goes out with a body that is not chunked: no transfer coding, and the length of the body if there
      is one or the method is POST or PUT. */
  lemma SentFieldsMean(fields: FieldMap, verb: Method, body: string, useGzip: bool, name: string)
    ensures var sent, before := SentFields(fields, verb, body, useGzip), EncodingFields(fields, useGzip);
            if name == HEADER_TRANSFER_ENCODING then name !in sent
            else if name == HEADER_CONTENT_LENGTH && (body != "" || verb == METHOD_POST || verb == METHOD_PUT) then
              name in sent && sent[name] == Spell(|body|, 10)
            else (name in sent <==> name in before) && (name in before ==> sent[name] == before[name])
  {
    hide EncodingFields, LengthFields;
    LengthFieldsMean(EncodingFields(fields, useGzip), verb, body, name);
  }

  lemma LengthFieldsMean(before: FieldMap, verb: Method, body: string, name: string)
    ensures var sent := LengthFields(before, verb, body);
            if name == HEADER_TRANSFER_ENCODING then name !in sent
            else if name == HEADER_CONTENT_LENGTH && SetsLength(verb, body) then
              name in sent && sent[name] == Spell(|body|, 10)
            else (name in sent <==> name in before) && (name in before ==> sent[name] == before[name])
  {
    HeaderNamesDiffer();
    OwnFieldsAreClean(|body|);
    hide CleanField, Spell, WithField, SetsLength;
    var content := Spell(|body|, 10);
    Replaced(WithoutField(before, HEADER_TRANSFER_ENCODING), HEADER_CONTENT_LENGTH, content);
    OneGoneOneSet(before, HEADER_TRANSFER_ENCODING, HEADER_CONTENT_LENGTH, content, SetsLength(verb, body), name);
  }

  lemma OneGoneOneSet(before: FieldMap, gone: string, given: string, content: string, due: bool, name: string)
    requires gone != given
    ensures var less := before - {gone};
            var sent := if due then less[given := content] else less;
            if name == gone then name !in sent
            else if name == given && due then name in sent && sent[name] == content
            else (name in sent <==> name in before) && (name in before ==> sent[name] == before[name])
  {
  }

  lemma HeaderNamesDiffer()
    ensures HEADER_CONTENT_ENCODING != HEADER_TRANSFER_ENCODING && HEADER_CONTENT_ENCODING != HEADER_ACCEPT_ENCODING
    ensures HEADER_CONTENT_ENCODING != HEADER_CONTENT_LENGTH && HEADER_TRANSFER_ENCODING != HEADER_ACCEPT_ENCODING
    ensures HEADER_TRANSFER_ENCODING != HEADER_CONTENT_LENGTH && HEADER_ACCEPT_ENCODING != HEADER_CONTENT_LENGTH
  {
    assert HEADER_CONTENT_ENCODING[0] == 'C' && HEADER_CONTENT_LENGTH[0] == 'C';
    assert |HEADER_CONTENT_ENCODING| != |HEADER_CONTENT_LENGTH|;
  }
}
