/** Whole requests with a chunked body: header and chunks together. */
module HttpChunkedMessage {
  import opened ByteStream
  import opened HttpConsts
  import opened HttpHeader
  import opened HttpFields
  import opened HttpMachine
  import opened HttpCuts
  import opened HttpWriter
  import opened HttpRoundTrip
  import opened HttpTrailer
  import opened HttpMessages
  import opened HttpParser

  /** The header that goes out in front of a chunked body. */
  function ChunkedHeader(h: HeaderState, useGzip: bool): HeaderState {
    WithFields(h, EncodingFields(h.Fields(), useGzip))
  }

  /** What `AppendClientRequest`, the later flushes and the empty one write. */
  function ChunkedMessage(h: HeaderState, useGzip: bool, order: seq<string>, flushes: seq<string>, maxChunkSize: int): string
    requires Lists(order, EncodingFields(h.Fields(), useGzip))
  {
    HeaderText(ChunkedHeader(h, useGzip), order) + FlushesText(flushes + [""], maxChunkSize)
  }

  ghost predicate ChunkedHeaderFits(h: HeaderState, useGzip: bool, order: seq<string>, L: Limits) {
    && CleanStart(h.start) && CleanFields(h.Fields()) && h.verbatim == "" && IsChunkedTransfer(h.Fields())
    && Lists(order, EncodingFields(h.Fields(), useGzip))
    && |HeaderText(ChunkedHeader(h, useGzip), order)| <= L.maxHeader && L.worstAccepted >= READ_OK
  }

  /** A request with a chunked body that may be written, and whose parts fit the receiver's limits. */
  ghost predicate ChunkedSendable(
    h: HeaderState, useGzip: bool, order: seq<string>, flushes: seq<string>, maxChunkSize: int, L: Limits)
  {
    && ChunkedHeaderFits(h, useGzip, order, L)
    && (forall f :: f in flushes ==> f != "" && FitsWord(f, EffectiveLimit(maxChunkSize)))
    && Admits(L, Fresh(true, ""), EffectiveLimit(maxChunkSize), TotalChunks(flushes, maxChunkSize))
  }

  predicate ChunkedDelivered(r: Conf, h: HeaderState, useGzip: bool, flushes: seq<string>, maxChunkSize: int, tail: string) {
    && r.state == STATE_END_OF_TRAIL_HEADER
    && r.header.start == ReadBack(h.start)
    && r.header.Fields() == EncodingFields(h.Fields(), useGzip)
    && r.out == Concat(flushes)
    && r.numChunks == TotalChunks(flushes, maxChunkSize)
    && r.inp == tail
  }

  lemma EncodingFieldsAreClean(fields: FieldMap, useGzip: bool)
    requires CleanFields(fields)
    ensures CleanFields(EncodingFields(fields, useGzip)) && HEADER_CONTENT_ENCODING !in EncodingFields(fields, useGzip)
  {
    OwnFieldsAreClean(0);
    hide CleanField;
  }

  /** A chunked body begins behind such a header. */
  lemma ChunksBegin(c: Conf, fields: FieldMap, L: Limits)
    requires c.state == STATE_END_OF_HEADER && c.header.Fields() == fields
    requires IsChunkedTransfer(fields) && HEADER_CONTENT_ENCODING !in fields
    ensures Leads(c, c.(state := STATE_CHUNK_HEAD_READING), L)
  {
    hide TrimmedHasPrefix, TrimmedIsEmpty;
    assert BeginPayload(c, L) == c.(state := STATE_CHUNK_HEAD_READING);
    StepLeads(c, L);
  }

  /** A chunked request is delivered with its first line, its fields and the concatenated flushes,
      and everything after it stays unread. */
  lemma ChunkedMessageRoundTrip(
    strict: bool, h: HeaderState, useGzip: bool, order: seq<string>, flushes: seq<string>, maxChunkSize: int, tail: string,
    L: Limits)
    requires ChunkedSendable(h, useGzip, order, flushes, maxChunkSize, L)
    ensures var c := Fresh(strict, ChunkedMessage(h, useGzip, order, flushes, maxChunkSize) + tail);
            ChunkedDelivered(Drive(c, L), h, useGzip, flushes, maxChunkSize, tail) && LinesFit(c, L)
  {
    hide HeaderText, FlushesText, Drive, LinesFit, ChunkedDelivered, AtFirstChunk, Fresh, Lists, TotalChunks, Concat;
    var text, chunks := HeaderText(ChunkedHeader(h, useGzip), order), FlushesText(flushes + [""], maxChunkSize) + tail;
    assert ChunkedMessage(h, useGzip, order, flushes, maxChunkSize) + tail == text + chunks;
    var e := AtFirstChunk(Fresh(strict, text + chunks), h, useGzip, text, chunks);
    HeaderOfChunked(strict, h, useGzip, order, chunks, L);
    AtFirstChunkIs(strict, h, useGzip, text, chunks);
    hide ChunkedHeaderFits;
    FromFirstChunk(e, h, useGzip, flushes, maxChunkSize, tail, L);
  }

  /** The parser waits for the first chunk, behind the header of this message. */
  predicate WaitsForChunks(e: Conf, h: HeaderState, useGzip: bool, chunks: string) {
    && e.state == STATE_CHUNK_HEAD_READING && e.chunkLeft == 0 && e.numChunks == 0 && e.trail == Cleared(true)
    && e.inp == chunks && e.out == "" && e.header.start == ReadBack(h.start)
    && e.header.Fields() == EncodingFields(h.Fields(), useGzip)
  }

  lemma FromFirstChunk(
    e: Conf, h: HeaderState, useGzip: bool, flushes: seq<string>, maxChunkSize: int, tail: string, L: Limits)
    requires WaitsForChunks(e, h, useGzip, FlushesText(flushes + [""], maxChunkSize) + tail)
    requires forall f :: f in flushes ==> f != "" && FitsWord(f, EffectiveLimit(maxChunkSize))
    requires Admits(L, Fresh(true, ""), EffectiveLimit(maxChunkSize), TotalChunks(flushes, maxChunkSize)) && L.worstAccepted >= READ_OK
    ensures ChunkedDelivered(Drive(e, L), h, useGzip, flushes, maxChunkSize, tail) && LinesFit(e, L)
  {
    hide FlushesText, EncodingFields, Drive, LinesFit, Concat, TotalChunks, FitsWord;
    ChunkedRoundTrip(e, flushes, maxChunkSize, tail, L);
    assert "" + Concat(flushes) == Concat(flushes);
  }

  lemma AtFirstChunkIs(strict: bool, h: HeaderState, useGzip: bool, text: string, chunks: string)
    ensures WaitsForChunks(AtFirstChunk(Fresh(strict, text + chunks), h, useGzip, text, chunks), h, useGzip, chunks)
  {
    hide EncodingFields;
  }

  /** The parser has read the header of a chunked message and waits for the first chunk. */
  function AtFirstChunk(c: Conf, h: HeaderState, useGzip: bool, text: string, chunks: string): Conf {
    c.(inp := chunks, out := "", header := ReadHeader(ChunkedHeader(h, useGzip), c.header.section.strict, |text|),
       state := STATE_CHUNK_HEAD_READING)
  }

  lemma HeaderOfChunked(strict: bool, h: HeaderState, useGzip: bool, order: seq<string>, chunks: string, L: Limits)
    requires ChunkedHeaderFits(h, useGzip, order, L)
    ensures var text := HeaderText(ChunkedHeader(h, useGzip), order);
            var c := Fresh(strict, text + chunks);
            var e := AtFirstChunk(c, h, useGzip, text, chunks);
            Drive(c, L) == Drive(e, L) && (LinesFit(e, L) ==> LinesFit(c, L))
  {
    hide HeaderText, EncodingFields, Leads, CleanField, IsChunkedTransfer, Drive, LinesFit;
    var fields, sent := EncodingFields(h.Fields(), useGzip), ChunkedHeader(h, useGzip);
    EncodingFieldsAreClean(h.Fields(), useGzip);
    TransferEncodingIsKept(h.Fields(), useGzip);
    var text := HeaderText(sent, order);
    var c := Fresh(strict, text + chunks);
    HeaderRoundTrip(c, sent, order, chunks, L);
    var d := c.(inp := chunks, out := "", header := ReadHeader(sent, strict, |text|), state := STATE_END_OF_HEADER);
    ChunksBegin(d, fields, L);
    var e := d.(state := STATE_CHUNK_HEAD_READING);
    LeadsOn(c, d, e, L);
    LeadsTo(c, e, L);
  }

  lemma LeadsTo(c: Conf, d: Conf, L: Limits)
    requires Leads(c, d, L)
    ensures Drive(c, L) == Drive(d, L) && (LinesFit(d, L) ==> LinesFit(c, L))
  {
  }

  /** The same however the bytes on the wire are cut. */
  lemma ChunkedMessageAnyCut(
    strict: bool, h: HeaderState, useGzip: bool, order: seq<string>, flushes: seq<string>, maxChunkSize: int, tail: string,
    pieces: seq<string>, L: Limits)
    requires ChunkedSendable(h, useGzip, order, flushes, maxChunkSize, L) && L.worstAccepted >= READ_NO_DATA
    requires pieces != [] && Concat(pieces) == ChunkedMessage(h, useGzip, order, flushes, maxChunkSize) + tail
    ensures ChunkedDelivered(FeedAll(Fresh(strict, ""), pieces, L), h, useGzip, flushes, maxChunkSize, tail)
  {
    hide LinesFit, Drive, FeedAll, ChunkedMessage, EncodingFields, ChunkedSendable, TotalChunks;
    var c := Fresh(strict, "");
    assert c.Plus(Concat(pieces)) == Fresh(strict, Concat(pieces));
    ChunkedMessageRoundTrip(strict, h, useGzip, order, flushes, maxChunkSize, tail, L);
    FittingInputIsCutIndependent(c, pieces, L);
    assert Feed(c, Concat(pieces), L) == Drive(Fresh(strict, Concat(pieces)), L);
  }

  // ------------------------------------------------------------------ with a trailer

  /** The same request with a trailer behind its chunks. */
  function TrailedMessage(
    h: HeaderState, useGzip: bool, order: seq<string>, flushes: seq<string>, maxChunkSize: int, lines: seq<string>): string
    requires Lists(order, EncodingFields(h.Fields(), useGzip))
  {
    HeaderText(ChunkedHeader(h, useGzip), order) + (FlushesText(flushes, maxChunkSize) + TrailerText(lines))
  }

  ghost predicate TrailerFits(lines: seq<string>, L: Limits) {
    (forall line :: line in lines ==> IsLine(line)) && |LinesText(lines)| + 2 <= L.maxHeader + 1
  }

  /** The first line, the body and the chunk count are there, and so is every field of the header and
      of the trailer, if the parser tolerates the trailer. */
  ghost predicate TrailedDelivered(
    r: Conf, h: HeaderState, useGzip: bool, flushes: seq<string>, maxChunkSize: int, lines: seq<string>, tail: string, L: Limits)
  {
    && r.state == (if TrailerAccepted(lines, L) then STATE_END_OF_TRAIL_HEADER else ERROR_CHUNK_TRAIL_HEADER)
    && r.header.start == ReadBack(h.start)
    && (TrailerAccepted(lines, L) ==> Extended(EncodingFields(h.Fields(), useGzip), EntriesOf(lines), r.header.Fields()))
    && r.out == Concat(flushes)
    && r.numChunks == TotalChunks(flushes, maxChunkSize)
    && r.inp == tail
  }

  lemma TrailedMessageRoundTrip(
    strict: bool, h: HeaderState, useGzip: bool, order: seq<string>, flushes: seq<string>, maxChunkSize: int,
    lines: seq<string>, tail: string, L: Limits)
    requires ChunkedSendable(h, useGzip, order, flushes, maxChunkSize, L) && TrailerFits(lines, L)
    ensures var c := Fresh(strict, TrailedMessage(h, useGzip, order, flushes, maxChunkSize, lines) + tail);
            TrailedDelivered(Drive(c, L), h, useGzip, flushes, maxChunkSize, lines, tail, L) && LinesFit(c, L)
  {
    hide HeaderText, FlushesText, TrailerText, Drive, LinesFit, TrailedDelivered, AtFirstChunk, Fresh, Lists,
         TotalChunks, Concat, IsLine, LinesText;
    var text, chunks := HeaderText(ChunkedHeader(h, useGzip), order), FlushesText(flushes, maxChunkSize) + TrailerText(lines) + tail;
    assert TrailedMessage(h, useGzip, order, flushes, maxChunkSize, lines) + tail == text + chunks;
    var e := AtFirstChunk(Fresh(strict, text + chunks), h, useGzip, text, chunks);
    HeaderOfChunked(strict, h, useGzip, order, chunks, L);
    AtFirstChunkIs(strict, h, useGzip, text, chunks);
    hide ChunkedHeaderFits;
    FromFirstTrailed(e, h, useGzip, flushes, maxChunkSize, lines, tail, L);
  }

  lemma FromFirstTrailed(
    e: Conf, h: HeaderState, useGzip: bool, flushes: seq<string>, maxChunkSize: int, lines: seq<string>, tail: string, L: Limits)
    requires WaitsForChunks(e, h, useGzip, FlushesText(flushes, maxChunkSize) + TrailerText(lines) + tail) && TrailerFits(lines, L)
    requires forall f :: f in flushes ==> f != "" && FitsWord(f, EffectiveLimit(maxChunkSize))
    requires Admits(L, Fresh(true, ""), EffectiveLimit(maxChunkSize), TotalChunks(flushes, maxChunkSize))
    ensures TrailedDelivered(Drive(e, L), h, useGzip, flushes, maxChunkSize, lines, tail, L) && LinesFit(e, L)
  {
    hide FlushesText, TrailerText, EncodingFields, Drive, LinesFit, Concat, TotalChunks, FitsWord, Extended, TrailerAccepted,
         EntriesOf, IsLine, LinesText;
    TrailedRoundTrip(e, flushes, maxChunkSize, lines, tail, L);
    assert "" + Concat(flushes) == Concat(flushes);
  }

  /** The same however the bytes on the wire are cut. */
  lemma TrailedMessageAnyCut(
    strict: bool, h: HeaderState, useGzip: bool, order: seq<string>, flushes: seq<string>, maxChunkSize: int,
    lines: seq<string>, tail: string, pieces: seq<string>, L: Limits)
    requires ChunkedSendable(h, useGzip, order, flushes, maxChunkSize, L) && TrailerFits(lines, L)
    requires L.worstAccepted >= READ_NO_DATA
    requires pieces != [] && Concat(pieces) == TrailedMessage(h, useGzip, order, flushes, maxChunkSize, lines) + tail
    ensures TrailedDelivered(FeedAll(Fresh(strict, ""), pieces, L), h, useGzip, flushes, maxChunkSize, lines, tail, L)
  {
    hide LinesFit, Drive, FeedAll, TrailedMessage, EncodingFields, ChunkedSendable, TotalChunks, Extended, TrailerAccepted,
         TrailerFits, EntriesOf;
    var c := Fresh(strict, "");
    assert c.Plus(Concat(pieces)) == Fresh(strict, Concat(pieces));
    TrailedMessageRoundTrip(strict, h, useGzip, order, flushes, maxChunkSize, lines, tail, L);
    FittingInputIsCutIndependent(c, pieces, L);
    assert Feed(c, Concat(pieces), L) == Drive(Fresh(strict, Concat(pieces)), L);
  }

  /** A trailer of clean fields is always tolerated. */
  lemma CleanTrailerIsAccepted(fields: seq<Spelled>, L: Limits)
    requires (forall f :: f in fields ==> CleanSpelled(f)) && L.worstAccepted >= READ_OK
    ensures TrailerAccepted(LinesOf(fields), L) && EntriesOf(LinesOf(fields)) == Entries(fields)
    ensures forall line :: line in LinesOf(fields) ==> IsLine(line)
  {
    hide CleanSpelled, IsLine, HasStray, AllGood;
    WrittenFields(fields, false);
    EntriesAreGood(fields);
  }
}
