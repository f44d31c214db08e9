/** What every run of the parser keeps: sizes that add up, and output that stays in bounds. */
module HttpBounds {
  import opened ByteStream
  import opened CString
  import opened HttpHeader
  import opened HttpMachine

  /** The body size that a completed header settles on. */
  function Declared(c: Conf, L: Limits): int { PayloadVerdict(c.header, L).1 }

  /** At most this many bytes can have come out of the chunks read so far. */
  function ChunkRoom(n: int, L: Limits): int { n * L.maxChunk }

  predicate BodyBounded(c: Conf, L: Limits) { L.maxBody >= 0 ==> |c.out| <= L.maxBody }

  predicate ChunksBounded(c: Conf, n: int, L: Limits) {
    n >= 0 && (L.maxNumChunks >= 0 ==> n <= L.maxNumChunks) && |c.out| <= ChunkRoom(n, L)
  }

  /** The invariant. In the body states, what has been delivered and what remains add up to the
      declared size; in the chunk states, the output fits in the chunks that were announced. */
  predicate Consistent(c: Conf, L: Limits) {
    match c.state
    case STATE_INITIALIZED => c.numChunks == 0 && c.out == ""
    case STATE_HEADER_READING => c.numChunks == 0 && c.out == ""
    case STATE_END_OF_HEADER => c.numChunks == 0 && c.out == ""
    case STATE_BODY_READING =>
      && c.numChunks == 0 && c.bodyLeft >= 0 && |c.out| + c.bodyLeft == Declared(c, L)
      && (c.out == "" || (L.maxBody >= 0 ==> |c.out| + c.bodyLeft <= L.maxBody))
    case STATE_BODY_END => c.numChunks == 0 && c.bodyLeft == 0 && |c.out| == Declared(c, L) && BodyBounded(c, L)
    case STATE_CHUNK_HEAD_READING => ChunksBounded(c, c.numChunks, L)
    case STATE_CHUNK_READING =>
      && ChunksBounded(c, c.numChunks, L)
      && 0 < c.chunkLeft && |c.out| + c.chunkLeft <= ChunkRoom(c.numChunks, L)
    case STATE_END_OF_CHUNK => ChunksBounded(c, c.numChunks, L)
    case STATE_LAST_CHUNK_READ => ChunksBounded(c, c.numChunks, L)
    case ERROR_CHUNK_TOO_MANY => c.numChunks >= 1 && ChunksBounded(c, c.numChunks - 1, L)
    case _ => if c.numChunks == 0 then BodyBounded(c, L) && (c.out == "" || c.bodyLeft >= 0)
              else ChunksBounded(c, c.numChunks, L)
  }

  lemma ChunkHeadKeeps(c: Conf, line: string, L: Limits)
    requires c.state == STATE_CHUNK_HEAD_READING && Consistent(c, L)
    ensures Consistent(AfterChunkHead(c, line, L), L)
  {
    hide Strtol;
    assert ChunkRoom(c.numChunks + 1, L) == ChunkRoom(c.numChunks, L) + L.maxChunk;
    assert c.numChunks == 0 ==> ChunkRoom(0, L) == 0;
  }

  lemma OnLineKeeps(c: Conf, line: string, L: Limits)
    requires ReadsLines(c.state) && Consistent(c, L)
    ensures Consistent(OnLine(c, line, L), L)
  {
    hide AfterChunkHead, HeaderLine, AfterFieldLine, Declared, Merged;
    if c.state == STATE_CHUNK_HEAD_READING {
      ChunkHeadKeeps(c, line, L);
    }
    assert ChunkRoom(0, L) == 0;
  }

  lemma StepKeeps(c: Conf, L: Limits)
    requires Consistent(c, L) && Step(c, L).Some?
    ensures Consistent(Step(c, L).value, L)
  {
    hide OnLine, PayloadVerdict;
    if ReadsLines(c.state) {
      var n := LineEnd(c.inp);
      OnLineKeeps(c.(inp := c.inp[n..]), c.inp[..n - 2], L);
    } else if c.state == STATE_END_OF_HEADER {
      BeginPayloadKeeps(c, L);
    }
  }

  lemma BeginPayloadKeeps(c: Conf, L: Limits)
    requires c.state == STATE_END_OF_HEADER && Consistent(c, L)
    ensures Consistent(BeginPayload(c, L), L)
  {
    hide Strtol, IsKnownContentEncoding, IsKnownTransferEncoding, IsCompressed, IsChunkedTransfer;
    assert ChunkRoom(0, L) == 0;
  }

  lemma {:induction false} RunKeeps(c: Conf, L: Limits)
    requires Consistent(c, L)
    ensures Consistent(Run(c, L), L)
    decreases |c.inp|, Rank(c.state)
  {
    hide Step, Consistent;
    if Step(c, L).Some? {
      StepKeeps(c, L);
      RunKeeps(Step(c, L).value, L);
    }
  }

  lemma SettleKeeps(c: Conf, L: Limits)
    requires Consistent(c, L)
    ensures Consistent(Settle(c, L), L)
  {
    hide Declared;
    assert ChunkRoom(0, L) == 0;
  }

  lemma PlusKeeps(c: Conf, piece: string, L: Limits)
    requires Consistent(c, L)
    ensures Consistent(c.Plus(piece), L)
  {
    hide PayloadVerdict;
  }

  /** Every run keeps the invariant, whatever the input and however it arrives. */
  lemma {:induction false} FeedAllKeeps(c: Conf, pieces: seq<string>, L: Limits)
    requires Consistent(c, L)
    ensures Consistent(FeedAll(c, pieces, L), L)
    decreases |pieces|
  {
    hide Consistent, Run, Settle;
    if pieces != [] {
      PlusKeeps(c, pieces[0], L);
      if !c.Final() {
        RunKeeps(c.Plus(pieces[0]), L);
        SettleKeeps(Run(c.Plus(pieces[0]), L), L);
      }
      FeedAllKeeps(Feed(c, pieces[0], L), pieces[1..], L);
    }
  }

  /** Bounds over whole runs: an unchunked body never exceeds its limit, and a chunked one never
      exceeds the number of chunks times their size. */
  lemma OutputBounds(strict: bool, pieces: seq<string>, L: Limits)
    ensures var r := FeedAll(Fresh(strict, ""), pieces, L);
            && (r.numChunks == 0 && L.maxBody >= 0 ==> |r.out| <= L.maxBody)
            && (r.numChunks > 0 && L.maxNumChunks >= 0 && L.maxChunk >= 0 ==> |r.out| <= L.maxNumChunks * L.maxChunk)
            && (r.state == STATE_BODY_READING || r.state == STATE_BODY_END ==> |r.out| + r.bodyLeft == Declared(r, L))
            && (r.state == STATE_CHUNK_READING ==> r.chunkLeft > 0)
  {
    FeedAllKeeps(Fresh(strict, ""), pieces, L);
    ConsistentBounds(FeedAll(Fresh(strict, ""), pieces, L), L);
  }

  lemma ConsistentBounds(r: Conf, L: Limits)
    requires Consistent(r, L)
    ensures r.numChunks == 0 && L.maxBody >= 0 ==> |r.out| <= L.maxBody
    ensures r.numChunks > 0 && L.maxNumChunks >= 0 && L.maxChunk >= 0 ==> |r.out| <= L.maxNumChunks * L.maxChunk
  {
    hide Declared;
    assert ChunkRoom(0, L) == 0;
    if r.numChunks > 0 && L.maxNumChunks >= 0 && L.maxChunk >= 0 {
      var n := if r.state == ERROR_CHUNK_TOO_MANY then r.numChunks - 1 else r.numChunks;
      RoomIsMonotone(n, L.maxNumChunks, L);
    }
  }

  lemma RoomIsMonotone(a: int, b: int, L: Limits)
    requires a <= b && L.maxChunk >= 0
    ensures ChunkRoom(a, L) <= ChunkRoom(b, L)
  {
    assert ChunkRoom(b, L) - ChunkRoom(a, L) == (b - a) * L.maxChunk;
  }
}
