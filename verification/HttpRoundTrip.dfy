/** What the writer writes, the parser reads back. */
module HttpRoundTrip {
  import opened ByteStream
  import opened CString
  import opened HttpConsts
  import opened HttpHeader
  import opened HttpMachine
  import opened HttpWriter
  import opened HttpCuts

  /** The machine gets from `c` to `d`, and reads only lines that fit on the way. */
  predicate Leads(c: Conf, d: Conf, L: Limits) {
    Run(c, L) == Run(d, L) && (LinesFit(d, L) ==> LinesFit(c, L))
  }

  lemma LeadsOn(c: Conf, d: Conf, e: Conf, L: Limits)
    requires Leads(c, d, L) && Leads(d, e, L)
    ensures Leads(c, e, L)
  {
  }

  lemma StepLeads(c: Conf, L: Limits)
    requires Step(c, L).Some? && StepFits(c, L)
    ensures Leads(c, Step(c, L).value, L)
  {
    hide Step, StepFits;
  }

  /** Reading one line off the front of the input. */
  lemma LineLeads(c: Conf, line: string, tail: string, L: Limits)
    requires ReadsLines(c.state) && '\n' !in line && c.inp == line + CRLF + tail
    requires LineEnd(c.inp) == |line| + 2 ==> StepFits(c, L)
    ensures Leads(c, OnLine(c.(inp := tail), line, L), L)
  {
    hide OnLine, StepFits, LineEnd;
    LineEndOfLine(line, tail);
    StepLeads(c, L);
  }

  // ------------------------------------------------------------------ runs of body bytes

  /** `m` bytes of chunk data taken at once. */
  function TakeChunk(c: Conf, m: nat): Conf
    requires m <= |c.inp|
  {
    c.(out := c.out + c.inp[..m], inp := c.inp[m..], chunkLeft := c.chunkLeft - m,
       state := if c.chunkLeft == m then STATE_END_OF_CHUNK else c.state)
  }

  /** A byte, and then the rest of a run. */
  lemma RunOfBytes(s: string, out: string, m: nat)
    requires 0 < m <= |s|
    ensures out + [s[0]] + s[1..][..m - 1] == out + s[..m]
    ensures s[1..][m - 1..] == s[m..]
  {
    assert s[..m] == [s[0]] + s[1..][..m - 1];
  }

  /** Copying a run of chunk data at once is copying it byte by byte. */
  lemma {:induction false} BulkChunk(c: Conf, m: nat, L: Limits)
    requires c.state == STATE_CHUNK_READING && 0 < m <= c.chunkLeft && m <= |c.inp|
    ensures Leads(c, TakeChunk(c, m), L)
    decreases m
  {
    hide Run, LinesFit, OnLine, BeginPayload, BodyStep;
    StepLeads(c, L);
    RunOfBytes(c.inp, c.out, m);
    assert Step(c, L) == ChunkStep(c);
    hide Step;
    var d := ChunkStep(c).value;
    if m == 1 {
      assert d == TakeChunk(c, 1) by { assert c.inp[..1] == [c.inp[0]]; }
    } else {
      BulkChunk(d, m - 1, L);
      assert TakeChunk(d, m - 1) == TakeChunk(c, m);
    }
  }

  function TakeBody(c: Conf, m: nat): Conf
    requires m <= |c.inp|
  {
    c.(out := c.out + c.inp[..m], inp := c.inp[m..], bodyLeft := c.bodyLeft - m)
  }

  lemma {:induction false} BulkBody(c: Conf, m: nat, L: Limits)
    requires c.state == STATE_BODY_READING && m <= c.bodyLeft && m <= |c.inp|
    requires L.maxBody >= 0 ==> c.bodyLeft <= L.maxBody
    ensures Leads(c, TakeBody(c, m), L)
    decreases m
  {
    hide Run, LinesFit, OnLine, BeginPayload, ChunkStep;
    if m == 0 {
      assert TakeBody(c, 0) == c;
    } else {
      StepLeads(c, L);
      RunOfBytes(c.inp, c.out, m);
      var d := BodyStep(c, L).value;
      BulkBody(d, m - 1, L);
      assert TakeBody(d, m - 1) == TakeBody(c, m);
    }
  }

  // ------------------------------------------------------------------ chunked bodies

  /** The chunk limits admit `n` more chunks of at most `size` bytes, and size lines fit. */
  predicate Admits(L: Limits, c: Conf, size: int, n: nat) {
    && size <= L.maxChunk
    && (L.maxNumChunks >= 0 ==> c.numChunks + n <= L.maxNumChunks)
    && L.maxHeader >= 10
  }

  /** No chunk of this data is larger than the 32 bits that a size line keeps. */
  predicate FitsWord(data: string, limit: nat) {
    limit < UINT_RANGE || |data| < UINT_RANGE
  }

  /** The configuration after `n` more chunks with the given data. */
  function AfterChunks(c: Conf, data: string, n: nat, tail: string): Conf {
    c.(out := c.out + data, inp := tail, numChunks := c.numChunks + n, chunkLeft := 0)
  }

  lemma HexSizeIsShort(size: nat)
    ensures |HexSize(size)| <= 9
  {
    SpellIsShort(size % UINT_RANGE, 8);
  }

  lemma {:induction false} SpellIsShort(n: nat, k: nat)
    requires k >= 1 && n < Pow16(k)
    ensures |Spell(n, 16)| <= k
    decreases k
  {
    if n >= 16 {
      assert k > 1;
      SpellIsShort(n / 16, k - 1);
    }
  }

  function Pow16(k: nat): nat {
    if k == 0 then 1 else 16 * Pow16(k - 1)
  }

  lemma ChunkHeadLeads(c: Conf, size: nat, rest: string, L: Limits)
    requires c.state == STATE_CHUNK_HEAD_READING && c.inp == HexSize(size) + CRLF + rest
    requires 0 < size < UINT_RANGE && Admits(L, c, size, 1)
    ensures Leads(c, c.(inp := rest, state := STATE_CHUNK_READING, chunkLeft := size, numChunks := c.numChunks + 1), L)
  {
    hide Run, LinesFit, HexSize, LineEnd, OnLine;
    HexSizeIsShort(size);
    LineLeads(c, HexSize(size), rest, L);
    SizeLine(c.(inp := rest), size, L);
  }

  lemma SizeLine(c: Conf, size: nat, L: Limits)
    requires c.state == STATE_CHUNK_HEAD_READING && 0 < size < UINT_RANGE && Admits(L, c, size, 1)
    ensures OnLine(c, HexSize(size), L) ==
            c.(state := STATE_CHUNK_READING, chunkLeft := size, numChunks := c.numChunks + 1)
  {
    hide HexSize, Strtol;
    HexSizeValue(size);
  }

  lemma OneChunk(c: Conf, data: string, tail: string, L: Limits)
    requires c.state == STATE_CHUNK_HEAD_READING && c.inp == ChunkText(data) + tail
    requires 0 < |data| < UINT_RANGE && Admits(L, c, |data|, 1)
    ensures Leads(c, AfterChunks(c, data, 1, tail), L)
  {
    hide Run, LinesFit, HexSize, LineEnd, StepFits;
    var rest := data + CRLF + tail;
    assert c.inp == HexSize(|data|) + CRLF + rest;
    ChunkHeadLeads(c, |data|, rest, L);
    var d := c.(inp := rest, state := STATE_CHUNK_READING, chunkLeft := |data|, numChunks := c.numChunks + 1);
    BulkChunk(d, |data|, L);
    assert rest[..|data|] == data && rest[|data|..] == CRLF + tail;
    ChunkEndLeads(TakeChunk(d, |data|), tail, L);
  }

  lemma ChunkEndLeads(c: Conf, tail: string, L: Limits)
    requires c.state == STATE_END_OF_CHUNK && c.inp == CRLF + tail
    ensures Leads(c, c.(inp := tail, state := STATE_CHUNK_HEAD_READING), L)
  {
    hide Run, LinesFit, LineEnd;
    assert c.inp == "" + CRLF + tail;
    LineLeads(c, "", tail, L);
  }

  lemma {:induction false} ChunksLead(c: Conf, data: string, limit: nat, tail: string, L: Limits)
    requires c.state == STATE_CHUNK_HEAD_READING && c.chunkLeft == 0 && 0 < limit && FitsWord(data, limit)
    requires c.inp == ChunksText(data, limit) + tail && Admits(L, c, limit, ChunkCount(|data|, limit))
    ensures Leads(c, AfterChunks(c, data, ChunkCount(|data|, limit), tail), L)
    decreases |data|
  {
    hide Leads, ChunkText;
    if data == "" {
      NoChunks(c, tail, L);
    } else {
      var m := Min(limit, |data|);
      var rest := ChunksText(data[m..], limit) + tail;
      assert c.inp == ChunkText(data[..m]) + rest;
      OneChunk(c, data[..m], rest, L);
      var d := AfterChunks(c, data[..m], 1, rest);
      var n := ChunkCount(|data| - m, limit);
      ChunksLead(d, data[m..], limit, tail, L);
      MoreChunks(c, data, m, 1, n, rest, tail);
      LeadsOn(c, d, AfterChunks(c, data, 1 + n, tail), L);
    }
  }

  lemma NoChunks(c: Conf, tail: string, L: Limits)
    requires c.chunkLeft == 0 && c.inp == "" + tail
    ensures Leads(c, AfterChunks(c, "", 0, tail), L)
  {
    assert AfterChunks(c, "", 0, tail) == c;
  }

  lemma MoreChunks(c: Conf, data: string, m: nat, n: nat, n': nat, rest: string, tail: string)
    requires m <= |data|
    ensures AfterChunks(AfterChunks(c, data[..m], n, rest), data[m..], n', tail) == AfterChunks(c, data, n + n', tail)
  {
    assert data[..m] + data[m..] == data;
    assert c.out + data[..m] + data[m..] == c.out + data;
  }

  lemma {:induction false} FlushesLead(c: Conf, flushes: seq<string>, maxChunkSize: int, tail: string, L: Limits)
    requires c.state == STATE_CHUNK_HEAD_READING && c.chunkLeft == 0
    requires forall f :: f in flushes ==> f != "" && FitsWord(f, EffectiveLimit(maxChunkSize))
    requires c.inp == FlushesText(flushes, maxChunkSize) + tail
    requires Admits(L, c, EffectiveLimit(maxChunkSize), TotalChunks(flushes, maxChunkSize))
    ensures Leads(c, AfterChunks(c, Concat(flushes), TotalChunks(flushes, maxChunkSize), tail), L)
    decreases |flushes|
  {
    hide Leads, ChunksText;
    if flushes == [] {
      NoChunks(c, tail, L);
    } else {
      var data, limit := flushes[0], EffectiveLimit(maxChunkSize);
      assert data in flushes && forall f :: f in flushes[1..] ==> f in flushes;
      var rest := FlushesText(flushes[1..], maxChunkSize) + tail;
      assert c.inp == ChunksText(data, limit) + rest;
      ChunksLead(c, data, limit, rest, L);
      var n, n' := ChunkCount(|data|, limit), TotalChunks(flushes[1..], maxChunkSize);
      var d := AfterChunks(c, data, n, rest);
      FlushesLead(d, flushes[1..], maxChunkSize, tail, L);
      var all := Concat(flushes);
      assert all[..|data|] == data && all[|data|..] == Concat(flushes[1..]);
      MoreChunks(c, all, |data|, n, n', rest, tail);
      LeadsOn(c, d, AfterChunks(c, all, n + n', tail), L);
    }
  }

  /** The configuration at the end of a chunked body with an empty trailer. */
  function AfterLastChunk(c: Conf): Conf {
    c.(state := STATE_END_OF_TRAIL_HEADER, trail := AfterFieldLine(c.trail, "").0)
  }

  lemma LastChunkLeads(c: Conf, tail: string, L: Limits)
    requires c.state == STATE_CHUNK_HEAD_READING && c.inp == LAST_CHUNK + tail && L.maxHeader >= 10
    requires c.trail == Cleared(true) && L.worstAccepted >= READ_OK
    ensures Leads(c, AfterLastChunk(c).(inp := tail), L)
  {
    hide Run, LinesFit, LineEnd, OnLine;
    assert c.inp == "0" + CRLF + (CRLF + tail);
    LineLeads(c, "0", CRLF + tail, L);
    var d := c.(inp := CRLF + tail, state := STATE_LAST_CHUNK_READ);
    LastSizeLine(c.(inp := CRLF + tail), L);
    assert d.inp == "" + CRLF + tail;
    LineLeads(d, "", tail, L);
    EmptyTrailerLine(d.(inp := tail), L);
  }

  lemma LastSizeLine(c: Conf, L: Limits)
    requires c.state == STATE_CHUNK_HEAD_READING
    ensures OnLine(c, "0", L) == c.(state := STATE_LAST_CHUNK_READ)
  {
    hide Strtol;
    LastChunkSize();
  }

  lemma EmptyTrailerLine(c: Conf, L: Limits)
    requires c.state == STATE_LAST_CHUNK_READ && c.trail == Cleared(true) && L.worstAccepted >= READ_OK
    ensures OnLine(c, "", L) == AfterLastChunk(c)
  {
  }

  lemma LastChunkSize()
    ensures Strtol("0", 16) == Long(0, false)
  {
    StrtolDigits("0", 16);
    assert "0"[..0] == "";
  }

  /** Writer and parser undo each other: non-empty flushes followed by an empty one parse back
      to the concatenated data, with one chunk per started `limit` bytes of each flush, and what
      follows stays unread. The writer's limit may not exceed the parser's, and no chunk the 32
      bits that a size line keeps. */
  lemma ChunkedRoundTrip(c: Conf, flushes: seq<string>, maxChunkSize: int, tail: string, L: Limits)
    requires c.state == STATE_CHUNK_HEAD_READING && c.chunkLeft == 0 && c.trail == Cleared(true)
    requires forall f :: f in flushes ==> f != "" && FitsWord(f, EffectiveLimit(maxChunkSize))
    requires Admits(L, c, EffectiveLimit(maxChunkSize), TotalChunks(flushes, maxChunkSize))
    requires L.worstAccepted >= READ_OK
    requires c.inp == FlushesText(flushes + [""], maxChunkSize) + tail
    ensures var r := Drive(c, L);
            && r.state == STATE_END_OF_TRAIL_HEADER
            && r.out == c.out + Concat(flushes)
            && r.numChunks == c.numChunks + TotalChunks(flushes, maxChunkSize)
            && r.inp == tail
            && r.header == c.header
    ensures LinesFit(c, L)
  {
    hide Run, LinesFit, ChunksText, AfterFieldLine;
    FlushesAppend(flushes, maxChunkSize);
    var rest := LAST_CHUNK + tail;
    assert c.inp == FlushesText(flushes, maxChunkSize) + rest;
    FlushesLead(c, flushes, maxChunkSize, rest, L);
    var d := AfterChunks(c, Concat(flushes), TotalChunks(flushes, maxChunkSize), rest);
    LastChunkLeads(d, tail, L);
    FinalIsStuck(AfterLastChunk(d).(inp := tail), L);
  }

  lemma {:induction false} FlushesAppend(flushes: seq<string>, maxChunkSize: int)
    ensures FlushesText(flushes + [""], maxChunkSize) == FlushesText(flushes, maxChunkSize) + LAST_CHUNK
    decreases |flushes|
  {
    hide FlushText;
    if flushes == [] {
      assert FlushText("", maxChunkSize) == LAST_CHUNK by { EmptyFlush(maxChunkSize); }
      assert flushes + [""] == [""];
      assert FlushesText([""], maxChunkSize) == LAST_CHUNK + "";
    } else {
      assert (flushes + [""])[1..] == flushes[1..] + [""];
      FlushesAppend(flushes[1..], maxChunkSize);
    }
  }

  lemma EmptyFlush(maxChunkSize: int)
    ensures FlushText("", maxChunkSize) == LAST_CHUNK
  {
  }

  /** The same however the bytes on the wire are cut. */
  lemma ChunkedRoundTripAnyCut(
    c: Conf, flushes: seq<string>, maxChunkSize: int, tail: string, pieces: seq<string>, L: Limits)
    requires c.state == STATE_CHUNK_HEAD_READING && c.chunkLeft == 0 && c.trail == Cleared(true) && c.inp == ""
    requires forall f :: f in flushes ==> f != "" && FitsWord(f, EffectiveLimit(maxChunkSize))
    requires Admits(L, c, EffectiveLimit(maxChunkSize), TotalChunks(flushes, maxChunkSize))
    requires L.worstAccepted >= READ_NO_DATA
    requires pieces != [] && Concat(pieces) == FlushesText(flushes + [""], maxChunkSize) + tail
    ensures var r := FeedAll(c, pieces, L);
            && r.state == STATE_END_OF_TRAIL_HEADER
            && r.out == c.out + Concat(flushes)
            && r.numChunks == c.numChunks + TotalChunks(flushes, maxChunkSize)
            && r.inp == tail
            && Erased(r.header) == Erased(c.header)
  {
    hide LinesFit, FlushesText, Drive, FeedAll;
    var d := c.Plus(Concat(pieces));
    assert d.inp == Concat(pieces);
    ChunkedRoundTrip(d, flushes, maxChunkSize, tail, L);
    FittingInputIsCutIndependent(c, pieces, L);
    assert Feed(c, Concat(pieces), L) == Drive(d, L);
  }
}
