/** The request parser as a machine that takes one line or one body byte at a time. A parser
    call runs the machine until it needs more input; the limits on unread input are checked
    only then. `HttpParser.RequestParser` is the parser itself, proved to follow this. */
module HttpMachine {
  import opened Collections
  import opened ByteStream
  import opened CString
  import opened HttpConsts
  import opened HttpHeader

  datatype ParseState =
    | STATE_INITIALIZED | STATE_HEADER_READING | STATE_END_OF_HEADER | STATE_END_OF_HEADER_FINAL
    | STATE_BODY_READING | STATE_BODY_END
    | STATE_CHUNK_HEAD_READING | STATE_CHUNK_READING | STATE_END_OF_CHUNK | STATE_LAST_CHUNK_READ
    | STATE_END_OF_TRAIL_HEADER
    | ERROR_HEADER_BAD | ERROR_HEADER_BAD_CONTENT_LEN | ERROR_HEADER_TOO_LONG | ERROR_HEADER_LINE
    | ERROR_CONTENT_TOO_LONG | ERROR_TRANSFER_ENCODING_UNKNOWN | ERROR_CONTENT_ENCODING_UNKNOWN
    | ERROR_CHUNK_HEADER_TOO_LONG | ERROR_CHUNK_TOO_LONG | ERROR_CHUNK_TOO_MANY | ERROR_CHUNK_TRAIL_HEADER
    | ERROR_CHUNK_BAD_CHUNK_LENGTH | ERROR_CHUNK_BAD_CHUNK_TERMINATION | ERROR_CHUNK_BIGGER_THEN_DECLARED
    | ERROR_CHUNK_TRAILER_TOO_LONG
    | COMPRESSED_BODY  // stands for every gzip or deflate payload, which this model does not follow

  const FIRST_FINAL_STATE := 100
  const FIRST_ERROR_STATE := 200

  /** The numeric values of the states; their ranges decide what is final and what is an error. */
  function Code(s: ParseState): nat {
    match s
    case STATE_INITIALIZED => 0
    case STATE_HEADER_READING => 1
    case STATE_END_OF_HEADER => 2
    case STATE_END_OF_HEADER_FINAL => 100
    case STATE_BODY_READING => 10
    case STATE_BODY_END => 110
    case STATE_CHUNK_HEAD_READING => 21
    case STATE_CHUNK_READING => 22
    case STATE_END_OF_CHUNK => 23
    case STATE_LAST_CHUNK_READ => 24
    case STATE_END_OF_TRAIL_HEADER => 120
    case ERROR_HEADER_BAD => 200
    case ERROR_HEADER_BAD_CONTENT_LEN => 201
    case ERROR_HEADER_TOO_LONG => 202
    case ERROR_HEADER_LINE => 203
    case ERROR_CONTENT_TOO_LONG => 210
    case ERROR_TRANSFER_ENCODING_UNKNOWN => 211
    case ERROR_CONTENT_ENCODING_UNKNOWN => 212
    case ERROR_CHUNK_HEADER_TOO_LONG => 220
    case ERROR_CHUNK_TOO_LONG => 221
    case ERROR_CHUNK_TOO_MANY => 222
    case ERROR_CHUNK_TRAIL_HEADER => 223
    case ERROR_CHUNK_BAD_CHUNK_LENGTH => 224
    case ERROR_CHUNK_BAD_CHUNK_TERMINATION => 225
    case ERROR_CHUNK_BIGGER_THEN_DECLARED => 226
    case ERROR_CHUNK_TRAILER_TOO_LONG => 231
    case COMPRESSED_BODY => 199
  }

  predicate InFinalState(s: ParseState) { Code(s) >= FIRST_FINAL_STATE }

  predicate InErrorState(s: ParseState) { Code(s) >= FIRST_ERROR_STATE }

  datatype Limits = Limits(
    maxHeader: nat, maxBody: int, maxChunk: int, maxNumChunks: int,
    acceptWrongMethod: bool, acceptWrongVersion: bool, acceptNoContentLength: bool, worstAccepted: ParseError)

  /** The parser, the request it fills (`header`, `out`) and the unread input. */
  datatype Conf = Conf(
    state: ParseState, bodyLeft: int, chunkLeft: int, numChunks: int, trail: HeaderState,
    header: HeaderState, out: string, inp: string)
  {
    predicate Final() { InFinalState(state) }

    /** The same configuration after `more` has arrived. */
    function Plus(more: string): Conf { this.(inp := inp + more) }
  }

  /** A parser after `Clear`, about to read `input` into a request whose header has the given
      strictness. */
  function Fresh(strict: bool, input: string): Conf {
    Conf(STATE_INITIALIZED, 0, 0, 0, Cleared(true), Cleared(strict), "", input)
  }

  // ------------------------------------------------------------------ decisions of one step

  /** Where a completed request header leads. */
  function HeaderVerdict(h: HeaderState, L: Limits): ParseState {
    if h.bytesParsed > L.maxHeader then ERROR_HEADER_TOO_LONG
    else if (h.start.version == VERSION_UNKNOWN && !L.acceptWrongVersion) ||
            (h.start.verb == METHOD_UNKNOWN && !L.acceptWrongMethod) then ERROR_HEADER_LINE
    else if h.errors.worst > L.worstAccepted then ERROR_HEADER_BAD
    else STATE_END_OF_HEADER
  }

  predicate Field?(fields: FieldMap, name: string, prefix: string) {
    name in fields && TrimmedHasPrefix(fields[name], prefix)
  }

  predicate IsChunkedTransfer(fields: FieldMap) { Field?(fields, HEADER_TRANSFER_ENCODING, "chunked") }

  predicate IsCompressed(fields: FieldMap) {
    Field?(fields, HEADER_CONTENT_ENCODING, "gzip") || Field?(fields, HEADER_CONTENT_ENCODING, "deflate")
  }

  predicate IsKnownContentEncoding(fields: FieldMap) {
    || HEADER_CONTENT_ENCODING !in fields
    || TrimmedIsEmpty(fields[HEADER_CONTENT_ENCODING])
    || IsCompressed(fields)
    || Field?(fields, HEADER_CONTENT_ENCODING, "identity")
  }

  predicate IsKnownTransferEncoding(fields: FieldMap) {
    || HEADER_TRANSFER_ENCODING !in fields
    || TrimmedIsEmpty(fields[HEADER_TRANSFER_ENCODING])
    || IsChunkedTransfer(fields)
    || Field?(fields, HEADER_TRANSFER_ENCODING, "identity")
  }

  function DefaultBodyLen(s: StartLine): int {
    if s.kind == STATUS_LINE || (s.kind == REQUEST_LINE && (s.verb == METHOD_PUT || s.verb == METHOD_POST))
    then LONG_MAX else 0
  }

  /** How the payload is transmitted: the next state, and the body size when it is known. */
  function PayloadVerdict(h: HeaderState, L: Limits): (ParseState, int) {
    var fields := h.Fields();
    if !IsKnownContentEncoding(fields) then (ERROR_CONTENT_ENCODING_UNKNOWN, 0)
    else if !IsKnownTransferEncoding(fields) then (ERROR_TRANSFER_ENCODING_UNKNOWN, 0)
    else if IsCompressed(fields) then (COMPRESSED_BODY, 0)
    else if IsChunkedTransfer(fields) then (STATE_CHUNK_HEAD_READING, 0)
    else if HEADER_CONTENT_LENGTH in fields then
      var length := Strtol(fields[HEADER_CONTENT_LENGTH], 10);
      if length.overflow || length.value < 0 then (ERROR_HEADER_BAD_CONTENT_LEN, 0)
      else (STATE_BODY_READING, length.value)
    else
      var size := DefaultBodyLen(h.start);
      if !L.acceptNoContentLength && size > 0 then (STATE_END_OF_HEADER_FINAL, size)
      else (STATE_BODY_READING, if L.maxBody >= 0 && size > L.maxBody then L.maxBody else size)
  }

  /** What a chunk-size line (without its CRLF) leads to, and the size it announces. Chunk
      extensions are ignored. */
  function ChunkVerdict(line: string, numChunks: int, L: Limits): (ParseState, int) {
    var length := Strtol(line, 16);
    if length.overflow || length.value < 0 then (ERROR_CHUNK_BAD_CHUNK_LENGTH, 0)
    else if length.value == 0 then (STATE_LAST_CHUNK_READ, 0)
    else if length.value > L.maxChunk then (ERROR_CHUNK_TOO_LONG, 0)
    else if L.maxNumChunks >= 0 && numChunks + 1 > L.maxNumChunks then (ERROR_CHUNK_TOO_MANY, 0)
    else (STATE_CHUNK_READING, length.value)
  }

  function AfterHeaderLine(c: Conf, line: string, L: Limits): (r: Conf)
    requires c.state == STATE_HEADER_READING
    ensures r == c.(header := r.header, state := r.state) && r.state != STATE_INITIALIZED
  {
    hide HeaderLine;
    var (h, done) := HeaderLine(c.header, line, REQUEST_LINE);
    c.(header := h, state := if done then HeaderVerdict(h, L) else c.state)
  }

  function AfterChunkHead(c: Conf, line: string, L: Limits): (r: Conf)
    ensures r == c.(chunkLeft := r.chunkLeft, numChunks := r.numChunks, state := r.state)
    ensures r.state != STATE_INITIALIZED
  {
    var (state, size) := ChunkVerdict(line, c.numChunks, L);
    match state
    case STATE_CHUNK_READING => c.(state := state, chunkLeft := size, numChunks := c.numChunks + 1)
    case ERROR_CHUNK_TOO_MANY => c.(state := state, numChunks := c.numChunks + 1)
    case _ => c.(state := state)
  }

  function AfterChunkEnd(c: Conf, line: string): Conf {
    c.(state := if line == "" then STATE_CHUNK_HEAD_READING else ERROR_CHUNK_BIGGER_THEN_DECLARED)
  }

  /** What the end of the trailer does. */
  function AfterTrailer(c: Conf, L: Limits): (r: Conf)
    ensures r == c.(header := r.header, state := r.state) && r.Final()
  {
    if c.trail.errors.worst > L.worstAccepted then c.(state := ERROR_CHUNK_TRAIL_HEADER)
    else
      var fields := Merged(c.header.Fields(), c.trail.Fields());
      c.(state := STATE_END_OF_TRAIL_HEADER, header := c.header.(section := c.header.section.(fields := fields)))
  }

  function AfterTrailerLine(c: Conf, line: string, L: Limits): (r: Conf)
    requires c.state == STATE_LAST_CHUNK_READ
    ensures r == c.(header := r.header, trail := r.trail, state := r.state) && r.state != STATE_INITIALIZED
  {
    var (t, done) := AfterFieldLine(c.trail, line);
    if done then AfterTrailer(c.(trail := t), L) else c.(trail := t)
  }

  // ------------------------------------------------------------------ the machine

  predicate ReadsLines(s: ParseState) {
    s == STATE_HEADER_READING || s == STATE_CHUNK_HEAD_READING || s == STATE_END_OF_CHUNK || s == STATE_LAST_CHUNK_READ
  }

  /** What the line-reading states do with the next line, which has already left the input. */
  function OnLine(c: Conf, line: string, L: Limits): (r: Conf)
    requires ReadsLines(c.state)
    ensures r.inp == c.inp && r.out == c.out
    ensures r.state != STATE_INITIALIZED
  {
    match c.state
    case STATE_HEADER_READING => AfterHeaderLine(c, line, L)
    case STATE_CHUNK_HEAD_READING => AfterChunkHead(c, line, L)
    case STATE_END_OF_CHUNK => AfterChunkEnd(c, line)
    case STATE_LAST_CHUNK_READ => AfterTrailerLine(c, line, L)
  }

  function BeginMessage(c: Conf): Conf {
    c.(state := STATE_HEADER_READING, out := "", header := Cleared(c.header.section.strict))
  }

  function BeginPayload(c: Conf, L: Limits): (r: Conf)
    ensures r == c.(state := r.state, bodyLeft := r.bodyLeft)
    ensures r.state != STATE_INITIALIZED && r.state != STATE_END_OF_HEADER
  {
    var (state, size) := PayloadVerdict(c.header, L);
    c.(state := state, bodyLeft := if HasBodySize(state) then size else c.bodyLeft)
  }

  function BodyStep(c: Conf, L: Limits): (r: Option<Conf>)
    ensures r.Some? ==> |r.value.inp| < |c.inp| || (r.value.inp == c.inp && Rank(r.value.state) == 0)
  {
    if L.maxBody >= 0 && c.bodyLeft > L.maxBody then Some(c.(state := ERROR_CONTENT_TOO_LONG))
    else if c.bodyLeft == 0 then Some(c.(state := STATE_BODY_END))
    else if c.inp == "" then None
    else Some(c.(out := c.out + [c.inp[0]], inp := c.inp[1..], bodyLeft := c.bodyLeft - 1))
  }

  function ChunkStep(c: Conf): (r: Option<Conf>)
    ensures r.Some? ==> |r.value.inp| < |c.inp|
  {
    if c.inp == "" then None
    else Some(c.(out := c.out + [c.inp[0]], inp := c.inp[1..], chunkLeft := c.chunkLeft - 1,
                 state := if c.chunkLeft == 1 then STATE_END_OF_CHUNK else c.state))
  }

  /** The next step, or None when more input is needed or the message is over. */
  function Step(c: Conf, L: Limits): (r: Option<Conf>)
    ensures r.Some? ==> |r.value.inp| < |c.inp| || (r.value.inp == c.inp && Rank(r.value.state) < Rank(c.state))
  {
    if ReadsLines(c.state) then
      var n := LineEnd(c.inp);
      if n == 0 then None else Some(OnLine(c.(inp := c.inp[n..]), c.inp[..n - 2], L))
    else match c.state
      case STATE_INITIALIZED => Some(BeginMessage(c))
      case STATE_END_OF_HEADER => Some(BeginPayload(c, L))
      case STATE_BODY_READING => BodyStep(c, L)
      case STATE_CHUNK_READING => ChunkStep(c)
      case _ => None
  }

  predicate HasBodySize(s: ParseState) {
    s == STATE_BODY_READING || s == STATE_END_OF_HEADER_FINAL
  }

  /** Steps that read nothing only move forward. */
  function Rank(s: ParseState): nat {
    match s
    case STATE_INITIALIZED => 3
    case STATE_END_OF_HEADER => 2
    case STATE_BODY_READING => 1
    case _ => 0
  }

  lemma FinalIsStuck(c: Conf, L: Limits)
    requires c.Final()
    ensures Step(c, L).None? && Run(c, L) == c && Drive(c, L) == c && LinesFit(c, L)
  {
  }

  /** Runs until the machine is blocked or final. */
  function Run(c: Conf, L: Limits): (r: Conf)
    ensures Step(r, L).None?
    ensures |r.inp| <= |c.inp|
    decreases |c.inp|, Rank(c.state)
  {
    match Step(c, L)
    case None => c
    case Some(d) => Run(d, L)
  }

  /** The part of a run that one call makes of the header: it stops once the header is complete. */
  function HeaderPhase(c: Conf, L: Limits): (r: Conf)
    decreases |c.inp|, Rank(c.state)
  {
    if c.state != STATE_INITIALIZED && c.state != STATE_HEADER_READING then c
    else match Step(c, L)
      case None => c
      case Some(d) => HeaderPhase(d, L)
  }

  /** Stopping after the header and calling again makes no difference. */
  lemma {:induction false} HeaderPhaseThenRest(c: Conf, L: Limits)
    ensures Run(HeaderPhase(c, L), L) == Run(c, L)
    decreases |c.inp|, Rank(c.state)
  {
    hide Step;
    if c.state == STATE_INITIALIZED || c.state == STATE_HEADER_READING {
      if Step(c, L).Some? {
        HeaderPhaseThenRest(Step(c, L).value, L);
      }
    }
  }

  /** The end of a call: a header or trailer left unfinished is marked as such, and a parser
      that waits for a line gives up once too much input is waiting. */
  function Settle(c: Conf, L: Limits): (r: Conf)
    ensures r.inp == c.inp && r.out == c.out && r.numChunks == c.numChunks
    ensures c.Final() ==> r == c
  {
    match c.state
    case STATE_HEADER_READING =>
      c.(header := Suspended(c.header),
         state := if |c.inp| + c.header.bytesParsed > L.maxHeader then ERROR_HEADER_TOO_LONG else c.state)
    case STATE_CHUNK_HEAD_READING =>
      c.(state := if |c.inp| > L.maxHeader then ERROR_CHUNK_HEADER_TOO_LONG else c.state)
    case STATE_END_OF_CHUNK =>
      c.(state := if |c.inp| > |CRLF| then ERROR_CHUNK_BAD_CHUNK_TERMINATION else c.state)
    case STATE_LAST_CHUNK_READ =>
      c.(trail := Suspended(c.trail),
         state := if c.trail.bytesParsed + |c.inp| > L.maxHeader then ERROR_CHUNK_TRAILER_TOO_LONG else c.state)
    case _ => c
  }

  /** Calls to the parser until it wants more input or is done with the message. */
  function Drive(c: Conf, L: Limits): Conf { Settle(Run(c, L), L) }

  /** A piece of input arrives. A finished parser leaves it unread. */
  function Feed(c: Conf, piece: string, L: Limits): Conf {
    if c.Final() then c.Plus(piece) else Drive(c.Plus(piece), L)
  }

  function FeedAll(c: Conf, pieces: seq<string>, L: Limits): Conf
    decreases |pieces|
  {
    if pieces == [] then c else FeedAll(Feed(c, pieces[0], L), pieces[1..], L)
  }

  /** The unread input alone limits a line that this step reads: its length with the CRLF. */
  predicate StepFits(c: Conf, L: Limits) {
    var n := LineEnd(c.inp);
    match c.state
    case STATE_HEADER_READING => c.header.bytesParsed + n <= L.maxHeader + 1
    case STATE_CHUNK_HEAD_READING => n <= L.maxHeader + 1
    case STATE_END_OF_CHUNK => n <= |CRLF| + 1
    case STATE_LAST_CHUNK_READ => c.trail.bytesParsed + n <= L.maxHeader + 1
    case _ => true
  }

  /** Every line that one uninterrupted call reads fits the limit for a waiting line. */
  predicate LinesFit(c: Conf, L: Limits)
    decreases |c.inp|, Rank(c.state)
  {
    match Step(c, L)
    case None => true
    case Some(d) => StepFits(c, L) && LinesFit(d, L)
  }

  /** A complete header or trailer is found good enough. */
  predicate Accepts(from: ParseState, to: ParseState) {
    || (from == STATE_HEADER_READING && to == STATE_END_OF_HEADER)
    || (from == STATE_LAST_CHUNK_READ && to == STATE_END_OF_TRAIL_HEADER)
  }

  /** One uninterrupted call accepts no header and no trailer. */
  predicate NeverAccepts(c: Conf, L: Limits)
    decreases |c.inp|, Rank(c.state)
  {
    match Step(c, L)
    case None => true
    case Some(d) => !Accepts(c.state, d.state) && NeverAccepts(d, L)
  }

  /** Being interrupted makes no difference to what is accepted: READ_NO_DATA is good enough, or
      nothing is accepted anyway. */
  predicate Calm(c: Conf, L: Limits) {
    L.worstAccepted >= READ_NO_DATA || NeverAccepts(c, L)
  }

  /** Equal up to the worst and last error of the two headers, where an interruption shows. */
  predicate Same(c: Conf, d: Conf) {
    c.(header := Erased(c.header), trail := Erased(c.trail)) == d.(header := Erased(d.header), trail := Erased(d.trail))
  }
}
