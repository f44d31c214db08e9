/** The `Request` writer and the `RequestParser`, as objects that move bytes between streams. */
module HttpParser {
  import opened ByteStream
  import opened CString
  import opened HttpConsts
  import opened HttpHeader
  import opened HttpHeaderObject
  import opened HttpMachine
  import opened HttpWriter
  import opened HttpRoundTrip

  // ------------------------------------------------------------------ the writer

  /** Moves at most `maxSize` bytes from one stream to the other, as a chunk if asked to. */
  method BufferAppendChunk(src: MemoryStream, out: MemoryStream, addDecorations: bool, maxSize: nat)
    requires src != out
    modifies src, out
    ensures var m := Min(maxSize, |old(src.data)|);
            && src.data == old(src.data)[m..]
            && out.data == old(out.data) +
                           if addDecorations then ChunkText(old(src.data)[..m]) else old(src.data)[..m]
  {
    hide HexSize;
    var size := Min(maxSize, |src.data|);
    ghost var start, piece := out.data, src.data[..size];
    assert |piece| == size;
    if addDecorations {
      var line := HexSize(size) + CRLF;
      out.Write(line);
      out.AppendStream(src, size);
      out.Write(CRLF);
      Appended(start, line, piece);
      Appended(start, line + piece, CRLF);
    } else {
      out.AppendStream(src, size);
    }
  }

  class Request {
    const clientHeader: Header
    const clientData: MemoryStream
    var inChunkEncoding: bool
    var serverUseGzipEncoding: bool

    constructor (strictHeaders: bool)
      ensures fresh(clientHeader) && fresh(clientData)
      ensures clientHeader.State() == Cleared(strictHeaders) && clientData.data == ""
      ensures !inChunkEncoding && serverUseGzipEncoding
    {
      clientHeader := new Header(strictHeaders);
      clientData := new MemoryStream("");
      inChunkEncoding, serverUseGzipEncoding := false, true;
    }

    /** Flushes the data in hand, uncompressed: a sequence of chunks, or the end of the body when
        there is none. Returns whether that was the end. */
    method AppendChunkHelper(src: MemoryStream, out: MemoryStream, addDecorations: bool, maxChunkSize: int)
      returns (last: bool)
      requires src != out
      modifies this, src, out
      ensures last == (old(src.data) == "")
      ensures inChunkEncoding == (if last then false else old(inChunkEncoding))
      ensures src.data == ""
      ensures out.data == old(out.data) +
                          if addDecorations then FlushText(old(src.data), maxChunkSize) else old(src.data)
      ensures serverUseGzipEncoding == old(serverUseGzipEncoding)
    {
      if src.data == "" {
        inChunkEncoding := false;
        if addDecorations {
          out.Write(LAST_CHUNK);
        }
        return true;
      }
      hide ChunkText;
      var limit := EffectiveLimit(maxChunkSize);
      ghost var start, data, written := out.data, src.data, "";
      while src.data != ""
        invariant out.data == start + written
        invariant addDecorations ==> written + ChunksText(src.data, limit) == ChunksText(data, limit)
        invariant !addDecorations ==> written + src.data == data
        invariant inChunkEncoding == old(inChunkEncoding) && serverUseGzipEncoding == old(serverUseGzipEncoding)
        decreases |src.data|
      {
        ghost var before, m := src.data, Min(limit, |src.data|);
        BufferAppendChunk(src, out, addDecorations, limit);
        ghost var text := if addDecorations then ChunkText(before[..m]) else before[..m];
        Appended(start, written, text);
        if addDecorations {
          assert ChunksText(before, limit) == text + ChunksText(before[m..], limit);
          Appended(written, text, ChunksText(before[m..], limit));
        } else {
          assert before == text + before[m..];
          Appended(written, text, before[m..]);
        }
        written := written + text;
      }
      return false;
    }

    /** Sets the content-coding fields of an uncompressed request. */
    method PrepareEncodings()
      modifies clientHeader
      ensures clientHeader.State() == WithFields(old(clientHeader.State()),
                                                 EncodingFields(old(clientHeader.fields), serverUseGzipEncoding))
    {
      hide WithField;
      var removed := clientHeader.ClearField(HEADER_CONTENT_ENCODING);
      if serverUseGzipEncoding {
        var added := clientHeader.AddField(HEADER_ACCEPT_ENCODING, "gzip, deflate", true);
      } else {
        var removedAccept := clientHeader.ClearField(HEADER_ACCEPT_ENCODING);
      }
    }

    /** Writes out a request with an uncompressed body. An unchunked body goes out whole, behind
        its length; a chunked one is flushed once and left open. */
    method AppendClientRequest(out: MemoryStream, maxChunkSize: int) returns (ghost order: seq<string>)
      requires out != clientData && clientHeader.firstLineType == REQUEST_LINE && !inChunkEncoding
      requires !WillCompress(clientHeader.fields)
      requires IsChunkedTransfer(clientHeader.fields) ==> clientHeader.version >= VERSION_1_1
      requires |clientData.data| <= LONG_MAX
      modifies this, clientHeader, clientData, out
      ensures clientData.data == ""
      ensures inChunkEncoding == IsChunkedTransfer(old(clientHeader.fields))
      ensures var h, body, useGzip := old(clientHeader.State()), old(clientData.data), old(serverUseGzipEncoding);
              var sent := if inChunkEncoding then WithFields(h, EncodingFields(h.Fields(), useGzip)) else Sent(h, body, useGzip);
              && clientHeader.State() == sent
              && Lists(order, sent.Fields())
              && out.data == old(out.data) + HeaderText(sent, order) +
                             if inChunkEncoding && body != "" then FlushText(body, maxChunkSize) else body
    {
      hide HeaderText, FlushText, EncodingFields, WillCompress, IsChunkedTransfer;
      PrepareEncodings();
      TransferEncodingIsKept(old(clientHeader.fields), serverUseGzipEncoding);
      if IsChunkedTransfer(clientHeader.fields) {
        inChunkEncoding := true;
        order := clientHeader.AppendToStream(out);
        AppendChunks(out, maxChunkSize);
      } else {
        order := AppendWhole(out);
      }
    }

    method AppendChunks(out: MemoryStream, maxChunkSize: int)
      requires out != clientData && clientHeader.version >= VERSION_1_1
      modifies this, clientData, out
      ensures clientData.data == "" && inChunkEncoding == old(inChunkEncoding)
      ensures out.data == old(out.data) + if old(clientData.data) == "" then "" else FlushText(old(clientData.data), maxChunkSize)
    {
      hide FlushText;
      while clientData.data != ""
        invariant inChunkEncoding == old(inChunkEncoding)
        invariant (clientData.data == old(clientData.data) && out.data == old(out.data)) ||
                  (clientData.data == "" && out.data == old(out.data) + FlushText(old(clientData.data), maxChunkSize) &&
                   old(clientData.data) != "")
        decreases |clientData.data|
      {
        var last := AppendChunkHelper(clientData, out, clientHeader.version >= VERSION_1_1, maxChunkSize);
      }
    }

    method AppendWhole(out: MemoryStream) returns (ghost order: seq<string>)
      requires out != clientData && |clientData.data| <= LONG_MAX
      modifies clientHeader, clientData, out
      ensures clientData.data == ""
      ensures var h, body := old(clientHeader.State()), old(clientData.data);
              var sent := WithFields(h, LengthFields(h.Fields(), h.start.verb, body));
              && clientHeader.State() == sent
              && Lists(order, sent.Fields())
              && out.data == old(out.data) + HeaderText(sent, order) + body
    {
      hide HeaderText, WithField, Spell;
      var removed := clientHeader.ClearField(HEADER_TRANSFER_ENCODING);
      if clientData.data != "" || clientHeader.verb == METHOD_POST || clientHeader.verb == METHOD_PUT {
        var length := IntToString(|clientData.data|);
        var added := clientHeader.AddField(HEADER_CONTENT_LENGTH, length, true);
      }
      order := clientHeader.AppendToStream(out);
      assert clientData.data[..|clientData.data|] == clientData.data;
      out.AppendStream(clientData, |clientData.data|);
    }
  }

  predicate IsZippableContentType(fields: FieldMap) {
    && HEADER_CONTENT_TYPE in fields
    && (HasPrefix(fields[HEADER_CONTENT_TYPE], "text/") || HasPrefix(fields[HEADER_CONTENT_TYPE], "application/"))
  }

  /** The writer compresses the body, which this model does not follow. */
  predicate WillCompress(fields: FieldMap) {
    IsZippableContentType(fields) && IsCompressed(fields)
  }

  lemma Appended(a: string, b: string, c: string)
    ensures a + b + c == a + (b + c)
  {
  }

  /** Announcing content codings does not touch the transfer coding. */
  lemma TransferEncodingIsKept(fields: FieldMap, useGzip: bool)
    ensures IsChunkedTransfer(EncodingFields(fields, useGzip)) == IsChunkedTransfer(fields)
  {
    hide TrimmedHasPrefix;
    var f := EncodingFields(fields, useGzip);
    assert HEADER_TRANSFER_ENCODING != HEADER_CONTENT_ENCODING && HEADER_TRANSFER_ENCODING != HEADER_ACCEPT_ENCODING;
  }

  // ------------------------------------------------------------------ what a call reports

  datatype ReadFlag = HEADER_READ | BODY_READING | CHUNKED_BODY_READING | CHUNKED_TRAILER_READING
                    | BODY_FINISHED | CHUNKS_FINISHED | REQUEST_FINISHED | CONTINUE

  /** The flags that a call returns in each state that it can end in. */
  function Flags(s: ParseState): set<ReadFlag> {
    match s
    case STATE_INITIALIZED => {}
    case STATE_HEADER_READING => {}
    case ERROR_HEADER_TOO_LONG => {REQUEST_FINISHED}
    case STATE_END_OF_HEADER => {HEADER_READ, CONTINUE}
    case STATE_BODY_READING => {HEADER_READ, BODY_READING}
    case STATE_BODY_END => {HEADER_READ, BODY_FINISHED, REQUEST_FINISHED}
    case STATE_CHUNK_HEAD_READING => {HEADER_READ, CHUNKED_BODY_READING}
    case STATE_CHUNK_READING => {HEADER_READ, CHUNKED_BODY_READING}
    case STATE_END_OF_CHUNK => {HEADER_READ, CHUNKED_BODY_READING}
    case STATE_LAST_CHUNK_READ => {HEADER_READ, CHUNKED_TRAILER_READING}
    case STATE_END_OF_TRAIL_HEADER => {HEADER_READ, CHUNKS_FINISHED, REQUEST_FINISHED}
    case ERROR_CHUNK_TRAILER_TOO_LONG => {HEADER_READ, CHUNKED_TRAILER_READING, REQUEST_FINISHED}
    case ERROR_CHUNK_TRAIL_HEADER => {HEADER_READ, CHUNKED_TRAILER_READING, REQUEST_FINISHED}
    case ERROR_CHUNK_HEADER_TOO_LONG => {HEADER_READ, CHUNKED_BODY_READING, REQUEST_FINISHED}
    case ERROR_CHUNK_TOO_LONG => {HEADER_READ, CHUNKED_BODY_READING, REQUEST_FINISHED}
    case ERROR_CHUNK_TOO_MANY => {HEADER_READ, CHUNKED_BODY_READING, REQUEST_FINISHED}
    case ERROR_CHUNK_BAD_CHUNK_LENGTH => {HEADER_READ, CHUNKED_BODY_READING, REQUEST_FINISHED}
    case ERROR_CHUNK_BAD_CHUNK_TERMINATION => {HEADER_READ, CHUNKED_BODY_READING, REQUEST_FINISHED}
    case ERROR_CHUNK_BIGGER_THEN_DECLARED => {HEADER_READ, CHUNKED_BODY_READING, REQUEST_FINISHED}
    case _ => {HEADER_READ, REQUEST_FINISHED}
  }

  /** A call says that the request is finished exactly when the parser is in a final state. */
  lemma FinishedIffFinal(s: ParseState)
    ensures REQUEST_FINISHED in Flags(s) <==> InFinalState(s)
  {
  }

  // ------------------------------------------------------------------ the parser

  class RequestParser {
    const limits: Limits
    var parseState: ParseState
    var bodySizeToRead: int
    var chunkSizeToRead: int
    var numChunksRead: int
    const partialData: MemoryStream
    const trailHeader: Header

    constructor (limits: Limits)
      ensures this.limits == limits && fresh(partialData) && fresh(trailHeader)
      ensures parseState == STATE_INITIALIZED && bodySizeToRead == 0 && chunkSizeToRead == 0 && numChunksRead == 0
      ensures partialData.data == "" && trailHeader.State() == Cleared(true)
    {
      this.limits := limits;
      parseState, bodySizeToRead, chunkSizeToRead, numChunksRead := STATE_INITIALIZED, 0, 0, 0;
      partialData := new MemoryStream("");
      trailHeader := new Header(true);
    }

    /** The parser with the streams it works on, as a machine configuration. */
    function Now(input: MemoryStream, header: Header, out: MemoryStream): Conf
      reads this, trailHeader, input, header, out
    {
      Conf(parseState, bodySizeToRead, chunkSizeToRead, numChunksRead, trailHeader.State(), header.State(), out.data,
           input.data)
    }

    /** The streams and headers are different objects, and nothing is held back between calls. */
    ghost predicate Wired(input: MemoryStream, header: Header, out: MemoryStream)
      reads this, partialData
    {
      input != out && partialData != input && partialData != out && header != trailHeader && partialData.data == ""
    }

    method Clear()
      modifies this, partialData, trailHeader
      ensures parseState == STATE_INITIALIZED && bodySizeToRead == 0 && chunkSizeToRead == 0 && numChunksRead == 0
      ensures partialData.data == "" && trailHeader.State() == Cleared(trailHeader.strict)
    {
      parseState, bodySizeToRead, chunkSizeToRead, numChunksRead := STATE_INITIALIZED, 0, 0, 0;
      partialData.Clear();
      trailHeader.Clear();
    }

    method ParseTrailHeader(input: MemoryStream, header: Header, out: MemoryStream) returns (flags: set<ReadFlag>)
      requires parseState == STATE_LAST_CHUNK_READ && Wired(input, header, out) && Whole(trailHeader.crtName)
      modifies this, trailHeader, input, header
      ensures Now(input, header, out) == Drive(old(Now(input, header, out)), limits)
      ensures flags == Flags(parseState) && Whole(trailHeader.crtName)
    {
      hide Merged, Drive, ParseFieldLines, Flags;
      TrailerFlags();
      TrailerDrive(Now(input, header, out), limits);
      var done := trailHeader.ReadHeaderFields(input);
      if !done {
        if trailHeader.bytesParsed + |input.data| > limits.maxHeader {
          parseState := ERROR_CHUNK_TRAILER_TOO_LONG;
          return {HEADER_READ, CHUNKED_TRAILER_READING, REQUEST_FINISHED};
        }
        return {HEADER_READ, CHUNKED_TRAILER_READING};
      }
      if trailHeader.parseError > limits.worstAccepted {
        parseState := ERROR_CHUNK_TRAIL_HEADER;
        return {HEADER_READ, CHUNKED_TRAILER_READING, REQUEST_FINISHED};
      }
      var copied := header.CopyHeaderFields(trailHeader);
      parseState := STATE_END_OF_TRAIL_HEADER;
      return {HEADER_READ, CHUNKS_FINISHED, REQUEST_FINISHED};
    }

    /** Reads a chunk-size line. Stops when it has not arrived, or is not acceptable. */
    method ReadChunkHead(input: MemoryStream, header: Header, out: MemoryStream) returns (stop: bool, flags: set<ReadFlag>)
      requires parseState == STATE_CHUNK_HEAD_READING && Wired(input, header, out)
      modifies this, input
      ensures Wired(input, header, out)
      ensures stop ==> Now(input, header, out) == Drive(old(Now(input, header, out)), limits) && flags == Flags(parseState)
      ensures !stop ==> Goes(old(Now(input, header, out)), Now(input, header, out), limits)
      ensures !stop ==> parseState == STATE_LAST_CHUNK_READ || (parseState == STATE_CHUNK_READING && chunkSizeToRead > 0)
    {
      hide Header.State, ChunkVerdict, Drive, Run, LineEnd, Flags;
      ChunkBodyFlags();
      ghost var c := Now(input, header, out);
      ChunkHeadRun(c, limits);
      var found, raw := input.ReadCRLFLine();
      if !found {
        if |input.data| > limits.maxHeader {
          parseState := ERROR_CHUNK_HEADER_TOO_LONG;
          return true, {HEADER_READ, CHUNKED_BODY_READING, REQUEST_FINISHED};
        }
        return true, {HEADER_READ, CHUNKED_BODY_READING};
      }
      var line := raw[..|raw| - 2];
      assert line == c.inp[..LineEnd(c.inp) - 2];
      ChunkVerdicts(line, numChunksRead, limits);
      stop, flags := TakeChunkSize(line);
      assert Now(input, header, out) == AfterChunkHead(c.(inp := c.inp[LineEnd(c.inp)..]), line, limits);
    }

    /** What a chunk-size line does to the parser. */
    method TakeChunkSize(line: string) returns (stop: bool, flags: set<ReadFlag>)
      requires parseState == STATE_CHUNK_HEAD_READING
      modifies this
      ensures var (state, size) := ChunkVerdict(line, old(numChunksRead), limits);
              && parseState == state
              && chunkSizeToRead == (if state == STATE_CHUNK_READING then size else old(chunkSizeToRead))
              && numChunksRead == old(numChunksRead) +
                                  (if state == STATE_CHUNK_READING || state == ERROR_CHUNK_TOO_MANY then 1 else 0)
      ensures bodySizeToRead == old(bodySizeToRead) && stop == InFinalState(parseState)
      ensures stop ==> flags == Flags(parseState)
    {
      hide Strtol, Flags;
      ChunkBodyFlags();
      var length := Strtol(line, 16);
      if length.overflow || length.value < 0 {
        parseState := ERROR_CHUNK_BAD_CHUNK_LENGTH;
        return true, {HEADER_READ, CHUNKED_BODY_READING, REQUEST_FINISHED};
      }
      if length.value == 0 {
        parseState := STATE_LAST_CHUNK_READ;
        return false, {};
      }
      if length.value > limits.maxChunk {
        parseState := ERROR_CHUNK_TOO_LONG;
        return true, {HEADER_READ, CHUNKED_BODY_READING, REQUEST_FINISHED};
      }
      numChunksRead := numChunksRead + 1;
      if limits.maxNumChunks >= 0 && numChunksRead > limits.maxNumChunks {
        parseState := ERROR_CHUNK_TOO_MANY;
        return true, {HEADER_READ, CHUNKED_BODY_READING, REQUEST_FINISHED};
      }
      chunkSizeToRead := length.value;
      parseState := STATE_CHUNK_READING;
      return false, {};
    }

    /** Reads the CRLF behind the data of a chunk. */
    method ReadChunkEnd(input: MemoryStream, header: Header, out: MemoryStream) returns (stop: bool, flags: set<ReadFlag>)
      requires parseState == STATE_END_OF_CHUNK && Wired(input, header, out)
      modifies this, input
      ensures Wired(input, header, out)
      ensures stop ==> Now(input, header, out) == Drive(old(Now(input, header, out)), limits) && flags == Flags(parseState)
      ensures !stop ==> Goes(old(Now(input, header, out)), Now(input, header, out), limits)
      ensures !stop ==> parseState == STATE_CHUNK_HEAD_READING
    {
      hide Header.State, Drive, Run, Flags, LineEnd;
      ghost var c := Now(input, header, out);
      ChunkEndRun(c, limits);
      ChunkBodyFlags();
      var found, raw := input.ReadCRLFLine();
      if !found {
        if |input.data| > |CRLF| {
          parseState := ERROR_CHUNK_BAD_CHUNK_TERMINATION;
          return true, {HEADER_READ, CHUNKED_BODY_READING, REQUEST_FINISHED};
        }
        return true, {HEADER_READ, CHUNKED_BODY_READING};
      }
      var line := raw[..|raw| - 2];
      if line != "" {
        parseState := ERROR_CHUNK_BIGGER_THEN_DECLARED;
        return true, {HEADER_READ, CHUNKED_BODY_READING, REQUEST_FINISHED};
      }
      parseState := STATE_CHUNK_HEAD_READING;
      return false, {};
    }

    /** Takes data that is not compressed through the buffer for partial data. */
    method PassOn(input: MemoryStream, out: MemoryStream, n: nat)
      requires input != out && partialData != input && partialData != out && partialData.data == "" && n <= |input.data|
      modifies input, out, partialData
      ensures partialData.data == "" && input.data == old(input.data)[n..]
      ensures out.data == old(out.data) + old(input.data)[..n]
    {
      partialData.AppendStream(input, n);
      assert partialData.data == old(input.data)[..n] && partialData.data[..n] == partialData.data;
      out.AppendStream(partialData, |partialData.data|);
    }

    /** Copies as much of the current chunk as has arrived. */
    method ReadChunkData(input: MemoryStream, header: Header, out: MemoryStream) returns (stop: bool, flags: set<ReadFlag>)
      requires parseState == STATE_CHUNK_READING && chunkSizeToRead > 0 && Wired(input, header, out)
      modifies this, input, out, partialData
      ensures Wired(input, header, out)
      ensures stop ==> Now(input, header, out) == Drive(old(Now(input, header, out)), limits) && flags == Flags(parseState)
      ensures !stop ==> Goes(old(Now(input, header, out)), Now(input, header, out), limits)
      ensures !stop ==> parseState == STATE_END_OF_CHUNK || (parseState == STATE_CHUNK_READING && chunkSizeToRead > 0)
    {
      hide Header.State, Run, Drive, Flags;
      ChunkBodyFlags();
      ghost var c := Now(input, header, out);
      if input.data == "" {
        NothingToCopy(c, limits);
        return true, {HEADER_READ, CHUNKED_BODY_READING};
      }
      var toRead := Min(chunkSizeToRead, |input.data|);
      PassOn(input, out, toRead);
      chunkSizeToRead := chunkSizeToRead - toRead;
      if chunkSizeToRead == 0 {
        parseState := STATE_END_OF_CHUNK;
      }
      BulkChunk(c, toRead, limits);
      assert Now(input, header, out) == TakeChunk(c, toRead);
      return false, {};
    }

    /** Reads a part of a chunk: its head, its data or its end. No other state can occur here. */
    method ReadChunkPart(input: MemoryStream, header: Header, out: MemoryStream) returns (stop: bool, flags: set<ReadFlag>)
      requires Wired(input, header, out) && ChunkStates(parseState, chunkSizeToRead) && parseState != STATE_LAST_CHUNK_READ
      modifies this, input, out, partialData
      ensures Wired(input, header, out)
      ensures stop ==> Now(input, header, out) == Drive(old(Now(input, header, out)), limits) && flags == Flags(parseState)
      ensures !stop ==> Goes(old(Now(input, header, out)), Now(input, header, out), limits)
      ensures !stop ==> ChunkStates(parseState, chunkSizeToRead)
    {
      hide Drive, Goes;
      if parseState == STATE_CHUNK_HEAD_READING {
        stop, flags := ReadChunkHead(input, header, out);
      } else if parseState == STATE_END_OF_CHUNK {
        stop, flags := ReadChunkEnd(input, header, out);
      } else if parseState == STATE_CHUNK_READING {
        stop, flags := ReadChunkData(input, header, out);
      } else {
        assert false;
      }
    }

    /** Parses a chunked body as far as the input goes. */
    method ParseChunksInternal(input: MemoryStream, header: Header, out: MemoryStream) returns (flags: set<ReadFlag>)
      requires Wired(input, header, out) && Whole(trailHeader.crtName) && ChunkStates(parseState, chunkSizeToRead)
      modifies this, trailHeader, input, header, out, partialData
      ensures Now(input, header, out) == Drive(old(Now(input, header, out)), limits)
      ensures flags == Flags(parseState) && Wired(input, header, out) && Whole(trailHeader.crtName)
    {
      hide Header.State, Drive, Run, Settle, Flags;
      ghost var c := Now(input, header, out);
      while true
        invariant Wired(input, header, out) && Whole(trailHeader.crtName) && ChunkStates(parseState, chunkSizeToRead)
        invariant header.State() == c.header
        invariant Now(input, header, out) == c || Drive(Now(input, header, out), limits) == Drive(c, limits)
        decreases |input.data|, parseState != STATE_LAST_CHUNK_READ
      {
        ghost var before := Now(input, header, out);
        if parseState == STATE_LAST_CHUNK_READ {
          flags := ParseTrailHeader(input, header, out);
          return;
        }
        var stop;
        stop, flags := ReadChunkPart(input, header, out);
        if stop {
          return;
        }
        GoesDrive(before, Now(input, header, out), limits);
      }
    }

    /** Parses an unchunked body as far as the input goes. */
    method ParseBodyInternal(input: MemoryStream, header: Header, out: MemoryStream) returns (flags: set<ReadFlag>)
      requires parseState == STATE_BODY_READING && bodySizeToRead >= 0 && Wired(input, header, out)
      modifies this, input, out, partialData
      ensures Now(input, header, out) == Drive(old(Now(input, header, out)), limits)
      ensures flags == Flags(parseState) && Wired(input, header, out)
    {
      hide Header.State, Run, Drive;
      ghost var c := Now(input, header, out);
      if limits.maxBody >= 0 {
        if bodySizeToRead > limits.maxBody {
          BodyRun(c, 0, limits);
          parseState := ERROR_CONTENT_TOO_LONG;
          return {HEADER_READ, REQUEST_FINISHED};
        }
      }
      var toRead := Min(bodySizeToRead, |input.data|);
      BodyRun(c, toRead, limits);
      PassOn(input, out, toRead);
      bodySizeToRead := bodySizeToRead - toRead;
      assert Now(input, header, out) == TakeBody(c, toRead);
      if bodySizeToRead == 0 {
        parseState := STATE_BODY_END;
        return {HEADER_READ, BODY_FINISHED, REQUEST_FINISHED};
      }
      return {HEADER_READ, BODY_READING};
    }

    /** Finds out how the payload is transmitted. */
    method BeginPayloadInternal(header: Header)
      requires parseState == STATE_END_OF_HEADER
      modifies this
      ensures var (state, size) := PayloadVerdict(header.State(), limits);
              parseState == state && bodySizeToRead == if HasBodySize(state) then size else old(bodySizeToRead)
      ensures chunkSizeToRead == old(chunkSizeToRead) && numChunksRead == old(numChunksRead)
    {
      hide Strtol, IsKnownContentEncoding, IsKnownTransferEncoding, IsCompressed, IsChunkedTransfer;
      if !IsKnownContentEncoding(header.fields) {
        parseState := ERROR_CONTENT_ENCODING_UNKNOWN;
      } else if !IsKnownTransferEncoding(header.fields) {
        parseState := ERROR_TRANSFER_ENCODING_UNKNOWN;
      } else if IsCompressed(header.fields) {
        parseState := COMPRESSED_BODY;
      } else if !IsChunkedTransfer(header.fields) {
        if HEADER_CONTENT_LENGTH !in header.fields {
          bodySizeToRead := DefaultBodyLen(header.State().start);
          if !limits.acceptNoContentLength && bodySizeToRead > 0 {
            parseState := STATE_END_OF_HEADER_FINAL;
            return;
          }
          if limits.maxBody >= 0 {
            if bodySizeToRead > limits.maxBody {
              bodySizeToRead := limits.maxBody;
            }
          }
          parseState := STATE_BODY_READING;
        } else {
          var length := Strtol(header.fields[HEADER_CONTENT_LENGTH], 10);
          if length.overflow || length.value < 0 {
            parseState := ERROR_HEADER_BAD_CONTENT_LEN;
            return;
          }
          bodySizeToRead := length.value;
          parseState := STATE_BODY_READING;
        }
      } else {
        parseState := STATE_CHUNK_HEAD_READING;
      }
    }

    /** Parses the payload as far as the input goes. */
    method ParsePayloadInternal(input: MemoryStream, header: Header, out: MemoryStream) returns (flags: set<ReadFlag>)
      requires Wired(input, header, out) && Whole(trailHeader.crtName)
      requires PayloadStates(parseState, bodySizeToRead, chunkSizeToRead)
      modifies this, trailHeader, input, header, out, partialData
      ensures Now(input, header, out) == Drive(old(Now(input, header, out)), limits)
      ensures flags == Flags(parseState) && Wired(input, header, out) && Whole(trailHeader.crtName)
    {
      hide Drive, Flags;
      ghost var c := Now(input, header, out);
      if parseState == STATE_END_OF_HEADER {
        PayloadRun(c, limits);
        BeginPayloadInternal(header);
        assert Now(input, header, out) == BeginPayload(c, limits);
        PayloadVerdicts(c, limits);
        if InFinalState(parseState) {
          return {HEADER_READ, REQUEST_FINISHED};
        }
      }
      if parseState == STATE_BODY_READING {
        flags := ParseBodyInternal(input, header, out);
        return;
      }
      flags := ParseChunksInternal(input, header, out);
    }

    /** What the end of the header means for the rest. */
    method JudgeHeader(header: Header) returns (flags: set<ReadFlag>)
      requires parseState == STATE_HEADER_READING
      modifies this
      ensures parseState == HeaderVerdict(header.State(), limits) && flags == Flags(parseState)
      ensures bodySizeToRead == old(bodySizeToRead) && chunkSizeToRead == old(chunkSizeToRead)
      ensures numChunksRead == old(numChunksRead)
      ensures parseState == STATE_END_OF_HEADER || InFinalState(parseState)
    {
      if header.bytesParsed > limits.maxHeader {
        parseState := ERROR_HEADER_TOO_LONG;
        return {REQUEST_FINISHED};
      }
      if (header.version == VERSION_UNKNOWN && !limits.acceptWrongVersion) ||
         (header.verb == METHOD_UNKNOWN && !limits.acceptWrongMethod) {
        parseState := ERROR_HEADER_LINE;
        return {HEADER_READ, REQUEST_FINISHED};
      }
      if header.parseError > limits.worstAccepted {
        parseState := ERROR_HEADER_BAD;
        return {HEADER_READ, REQUEST_FINISHED};
      }
      parseState := STATE_END_OF_HEADER;
      return {HEADER_READ, CONTINUE};
    }

    /** Parses the header as far as the input goes. */
    method ParseHeaderInternal(input: MemoryStream, header: Header, out: MemoryStream) returns (flags: set<ReadFlag>)
      requires parseState == STATE_HEADER_READING && Wired(input, header, out)
      requires Resumable(header.State()) && Whole(header.crtName)
      modifies this, input, header
      ensures Now(input, header, out) == Settle(HeaderPhase(old(Now(input, header, out)), limits), limits)
      ensures flags == Flags(parseState)
      ensures InFinalState(parseState) || parseState == STATE_END_OF_HEADER ||
              (parseState == STATE_HEADER_READING && Resumable(header.State()) && Whole(header.crtName))
    {
      hide HeaderPhase, HeaderVerdict, Settle, ParseCall;
      HeaderPhaseIsParse(Now(input, header, out), limits);
      var done := header.ParseHeader(input, REQUEST_LINE);
      if !done {
        if |input.data| + header.bytesParsed > limits.maxHeader {
          parseState := ERROR_HEADER_TOO_LONG;
          return {REQUEST_FINISHED};
        }
        return {};
      }
      flags := JudgeHeader(header);
    }

    method BeginRequest(input: MemoryStream, req: Request)
      requires parseState == STATE_INITIALIZED && Ready(input, req)
      modifies `parseState, req.clientHeader, req.clientData
      ensures Now(input, req.clientHeader, req.clientData) == BeginMessage(old(Now(input, req.clientHeader, req.clientData)))
      ensures parseState == STATE_HEADER_READING && Ready(input, req)
    {
      hide Resumable;
      req.clientData.Clear();
      req.clientHeader.Clear();
      parseState := STATE_HEADER_READING;
      ClearedIsResumable(req.clientHeader.strict);
    }

    /** One call: the header as far as it goes or, once the header has been reported, the payload. */
    method ParseClientRequest(input: MemoryStream, req: Request) returns (flags: set<ReadFlag>)
      requires !InFinalState(parseState) && Ready(input, req)
      modifies this, trailHeader, partialData, input, req.clientHeader, req.clientData
      ensures var was := old(Now(input, req.clientHeader, req.clientData));
              Now(input, req.clientHeader, req.clientData) ==
              if was.state == STATE_INITIALIZED || was.state == STATE_HEADER_READING
              then Settle(HeaderPhase(was, limits), limits) else Drive(was, limits)
      ensures flags == Flags(parseState)
      ensures REQUEST_FINISHED in flags <==> InFinalState(parseState)
      ensures !InFinalState(parseState) ==> Ready(input, req)
    {
      hide Drive, Flags, Settle, HeaderPhase, InFinalState, Resumable, BeginMessage;
      ghost var c := Now(input, req.clientHeader, req.clientData);
      FlagsAgree();
      if parseState == STATE_INITIALIZED {
        BeginPhase(c, limits);
        BeginRequest(input, req);
      }
      if parseState == STATE_HEADER_READING {
        flags := ParseHeaderInternal(input, req.clientHeader, req.clientData);
      } else {
        NextCall(c, limits);
        flags := ParsePayloadInternal(input, req.clientHeader, req.clientData);
      }
    }

    /** What holds before every call: the objects are apart, and the state is one that the next
        call can go on from. */
    ghost predicate Ready(input: MemoryStream, req: Request)
      reads this, trailHeader, partialData, input, req, req.clientHeader, req.clientData
    {
      && Wired(input, req.clientHeader, req.clientData)
      && Whole(trailHeader.crtName)
      && match parseState
         case STATE_INITIALIZED => true
         case STATE_HEADER_READING => Resumable(req.clientHeader.State()) && Whole(req.clientHeader.crtName)
         case _ => PayloadStates(parseState, bodySizeToRead, chunkSizeToRead)
    }
  }

  predicate ChunkStates(s: ParseState, chunkLeft: int) {
    || s == STATE_CHUNK_HEAD_READING || s == STATE_END_OF_CHUNK || s == STATE_LAST_CHUNK_READ
    || (s == STATE_CHUNK_READING && chunkLeft > 0)
  }

  predicate PayloadStates(s: ParseState, bodyLeft: int, chunkLeft: int) {
    s == STATE_END_OF_HEADER || (s == STATE_BODY_READING && bodyLeft >= 0) || ChunkStates(s, chunkLeft)
  }

  /** The machine gets from `c` to `d`, having read something or gone on to the trailer. */
  predicate Goes(c: Conf, d: Conf, L: Limits) {
    Run(c, L) == Run(d, L) && d.header == c.header && d.trail == c.trail && |d.inp| < |c.inp|
  }

  lemma GoesDrive(c: Conf, d: Conf, L: Limits)
    requires Goes(c, d, L)
    ensures Drive(c, L) == Drive(d, L) && |d.inp| < |c.inp|
  {
  }

  lemma FinalRun(c: Conf, L: Limits)
    ensures c.Final() ==> Run(c, L) == c && Settle(c, L) == c
  {
    if c.Final() {
      FinalIsStuck(c, L);
    }
  }

  lemma FlagsAgree()
    ensures forall s :: REQUEST_FINISHED in Flags(s) <==> InFinalState(s)
  {
    forall s ensures REQUEST_FINISHED in Flags(s) <==> InFinalState(s) {
      FinishedIffFinal(s);
    }
  }

  lemma BeginPhase(c: Conf, L: Limits)
    ensures c.state == STATE_INITIALIZED ==> HeaderPhase(c, L) == HeaderPhase(BeginMessage(c), L)
  {
    hide OnLine, BeginPayload;
  }

  /** What a call makes of the header is what the header parser makes of it. */
  lemma HeaderPhaseIsParse(c: Conf, L: Limits)
    requires c.state == STATE_HEADER_READING
    ensures var r := ParseCall(c.header, c.inp, REQUEST_LINE);
            Settle(HeaderPhase(c, L), L) ==
            c.(header := r.header, inp := r.rest,
               state := if r.done then HeaderVerdict(r.header, L)
                        else if |r.rest| + r.header.bytesParsed > L.maxHeader then ERROR_HEADER_TOO_LONG
                        else c.state)
  {
    hide HeaderPhase, ParseLines;
    HeaderLinesRun(c, L);
  }

  lemma {:induction false} HeaderLinesRun(c: Conf, L: Limits)
    requires c.state == STATE_HEADER_READING
    ensures var r := ParseLines(c.header, c.inp, REQUEST_LINE);
            HeaderPhase(c, L) == c.(header := r.header, inp := r.rest,
                                    state := if r.done then HeaderVerdict(r.header, L) else c.state)
    decreases |c.inp|
  {
    hide HeaderLine, HeaderVerdict;
    var n := LineEnd(c.inp);
    if n != 0 {
      var (h, done) := HeaderLine(c.header, c.inp[..n - 2], REQUEST_LINE);
      var d := c.(inp := c.inp[n..], header := h);
      if done {
        VerdictEnds(h, L);
      } else {
        HeaderLinesRun(d, L);
      }
    }
  }

  lemma VerdictEnds(h: HeaderState, L: Limits)
    ensures HeaderVerdict(h, L) != STATE_INITIALIZED && HeaderVerdict(h, L) != STATE_HEADER_READING
  {
  }

  /** Where an unfinished payload leaves the parser, it can be called again. */
  lemma NextCall(c: Conf, L: Limits)
    requires PayloadStates(c.state, c.bodyLeft, c.chunkLeft)
    ensures var r := Drive(c, L); r.Final() || PayloadStates(r.state, r.bodyLeft, r.chunkLeft)
  {
    hide Run;
    RunStaysInPayload(c, L);
  }

  lemma {:induction false} RunStaysInPayload(c: Conf, L: Limits)
    requires PayloadStates(c.state, c.bodyLeft, c.chunkLeft)
    ensures var r := Run(c, L); r.Final() || PayloadStates(r.state, r.bodyLeft, r.chunkLeft)
    decreases |c.inp|, Rank(c.state)
  {
    hide Step;
    if Step(c, L).Some? {
      var d := Step(c, L).value;
      StepStaysInPayload(c, L);
      if d.Final() {
        FinalIsStuck(d, L);
      } else {
        RunStaysInPayload(d, L);
      }
    }
  }

  lemma StepStaysInPayload(c: Conf, L: Limits)
    requires PayloadStates(c.state, c.bodyLeft, c.chunkLeft) && Step(c, L).Some?
    ensures var r := Step(c, L).value; r.Final() || PayloadStates(r.state, r.bodyLeft, r.chunkLeft)
  {
    hide OnLine, LineEnd, PayloadVerdict;
    if ReadsLines(c.state) {
      var n := LineEnd(c.inp);
      LineStaysInPayload(c.(inp := c.inp[n..]), c.inp[..n - 2], L);
    } else {
      PayloadVerdicts(c, L);
    }
  }

  lemma LineStaysInPayload(c: Conf, line: string, L: Limits)
    requires PayloadStates(c.state, c.bodyLeft, c.chunkLeft) && ReadsLines(c.state)
    ensures var r := OnLine(c, line, L); r.Final() || PayloadStates(r.state, r.bodyLeft, r.chunkLeft)
  {
    hide ChunkVerdict, AfterFieldLine, Merged;
    ChunkVerdicts(line, c.numChunks, L);
  }

  /** A state that reads lines runs on from the next line, or waits for it. */
  lemma LineRun(c: Conf, L: Limits)
    requires ReadsLines(c.state)
    ensures var n := LineEnd(c.inp);
            Run(c, L) == if n == 0 then c else Run(OnLine(c.(inp := c.inp[n..]), c.inp[..n - 2], L), L)
  {
    hide OnLine;
  }

  /** What a call makes of the size line of a chunk. */
  lemma ChunkHeadRun(c: Conf, L: Limits)
    requires c.state == STATE_CHUNK_HEAD_READING
    ensures var n := LineEnd(c.inp);
            if n == 0 then
              Drive(c, L) == if |c.inp| > L.maxHeader then c.(state := ERROR_CHUNK_HEADER_TOO_LONG) else c
            else
              var d := AfterChunkHead(c.(inp := c.inp[n..]), c.inp[..n - 2], L);
              if d.Final() then Drive(c, L) == d else Goes(c, d, L)
  {
    hide Run, LineEnd, ChunkVerdict;
    LineRun(c, L);
    var n := LineEnd(c.inp);
    if n != 0 {
      FinalRun(AfterChunkHead(c.(inp := c.inp[n..]), c.inp[..n - 2], L), L);
    }
  }

  /** What a call makes of the line behind a chunk. */
  lemma ChunkEndRun(c: Conf, L: Limits)
    requires c.state == STATE_END_OF_CHUNK
    ensures var n := LineEnd(c.inp);
            if n == 0 then
              Drive(c, L) == if |c.inp| > |CRLF| then c.(state := ERROR_CHUNK_BAD_CHUNK_TERMINATION) else c
            else if n != 2 then Drive(c, L) == c.(inp := c.inp[n..], state := ERROR_CHUNK_BIGGER_THEN_DECLARED)
            else Goes(c, c.(inp := c.inp[n..], state := STATE_CHUNK_HEAD_READING), L)
  {
    hide Run, LineEnd;
    LineRun(c, L);
    var n := LineEnd(c.inp);
    if n != 0 {
      FinalRun(AfterChunkEnd(c.(inp := c.inp[n..]), c.inp[..n - 2]), L);
    }
  }

  /** The flags of a call that stops among the chunks. */
  lemma ChunkBodyFlags()
    ensures Flags(STATE_CHUNK_HEAD_READING) == Flags(STATE_CHUNK_READING) == Flags(STATE_END_OF_CHUNK)
            == {HEADER_READ, CHUNKED_BODY_READING}
    ensures Flags(ERROR_CHUNK_HEADER_TOO_LONG) == Flags(ERROR_CHUNK_TOO_LONG) == Flags(ERROR_CHUNK_TOO_MANY)
            == Flags(ERROR_CHUNK_BAD_CHUNK_LENGTH) == Flags(ERROR_CHUNK_BAD_CHUNK_TERMINATION)
            == Flags(ERROR_CHUNK_BIGGER_THEN_DECLARED) == {HEADER_READ, CHUNKED_BODY_READING, REQUEST_FINISHED}
  {
  }

  /** The flags of a call that stops in or after the trailer. */
  lemma TrailerFlags()
    ensures Flags(STATE_LAST_CHUNK_READ) == {HEADER_READ, CHUNKED_TRAILER_READING}
    ensures Flags(ERROR_CHUNK_TRAILER_TOO_LONG) == Flags(ERROR_CHUNK_TRAIL_HEADER)
            == {HEADER_READ, CHUNKED_TRAILER_READING, REQUEST_FINISHED}
    ensures Flags(STATE_END_OF_TRAIL_HEADER) == {HEADER_READ, CHUNKS_FINISHED, REQUEST_FINISHED}
  {
  }

  lemma NothingToCopy(c: Conf, L: Limits)
    requires c.state == STATE_CHUNK_READING && c.inp == ""
    ensures Drive(c, L) == c
  {
    hide OnLine, BeginPayload, BodyStep;
    assert Step(c, L).None?;
  }

  /** What a call makes of an unchunked body. */
  lemma BodyRun(c: Conf, m: nat, L: Limits)
    requires c.state == STATE_BODY_READING && c.bodyLeft >= 0
    requires var over := L.maxBody >= 0 && c.bodyLeft > L.maxBody; m == if over then 0 else Min(c.bodyLeft, |c.inp|)
    ensures var d := TakeBody(c, m);
            Drive(c, L) == if L.maxBody >= 0 && c.bodyLeft > L.maxBody then c.(state := ERROR_CONTENT_TOO_LONG)
                           else if c.bodyLeft == m then d.(state := STATE_BODY_END) else d
  {
    hide OnLine, BeginPayload, ChunkStep;
    var over := L.maxBody >= 0 && c.bodyLeft > L.maxBody;
    if over {
      FinalRun(c.(state := ERROR_CONTENT_TOO_LONG), L);
    } else {
      BulkBody(c, m, L);
      var d := TakeBody(c, m);
      if c.bodyLeft == m {
        FinalRun(d.(state := STATE_BODY_END), L);
      } else {
        assert d.inp == "";
      }
    }
  }

  lemma PayloadRun(c: Conf, L: Limits)
    requires c.state == STATE_END_OF_HEADER
    ensures Drive(c, L) == Drive(BeginPayload(c, L), L)
    ensures BeginPayload(c, L).Final() ==> Drive(c, L) == BeginPayload(c, L)
  {
    hide OnLine, BeginPayload;
    FinalRun(BeginPayload(c, L), L);
  }

  lemma ChunkVerdicts(line: string, numChunks: int, L: Limits)
    ensures var (state, size) := ChunkVerdict(line, numChunks, L);
            InFinalState(state) || state == STATE_LAST_CHUNK_READ || (state == STATE_CHUNK_READING && size > 0)
  {
    hide Strtol;
  }

  lemma PayloadVerdicts(c: Conf, L: Limits)
    ensures var (state, size) := PayloadVerdict(c.header, L);
            && (InFinalState(state) ==> Flags(state) == {HEADER_READ, REQUEST_FINISHED})
            && (state == STATE_BODY_READING ==> size >= 0)
            && (InFinalState(state) || state == STATE_BODY_READING || state == STATE_CHUNK_HEAD_READING)
  {
    hide Strtol, IsKnownContentEncoding, IsKnownTransferEncoding, IsCompressed, IsChunkedTransfer;
  }

  /** A field name under construction never starts with a blank. */
  predicate Whole(name: string) { name == "" || !IsLwfChar(name[0]) }

  /** What a call makes of the trailer. */
  lemma TrailerDrive(c: Conf, L: Limits)
    requires c.state == STATE_LAST_CHUNK_READ
    ensures var r := ParseFieldLines(c.trail, c.inp);
            Drive(c, L) == if r.done then AfterTrailer(c.(trail := r.header, inp := r.rest), L)
                           else c.(trail := Suspended(r.header), inp := r.rest,
                                   state := if r.header.bytesParsed + |r.rest| > L.maxHeader
                                            then ERROR_CHUNK_TRAILER_TOO_LONG else c.state)
  {
    hide Run, ParseFieldLines, Merged;
    TrailerRun(c, L);
  }

  /** The trailer states of a run follow its field lines. */
  lemma {:induction false} TrailerRun(c: Conf, L: Limits)
    requires c.state == STATE_LAST_CHUNK_READ
    ensures var r := ParseFieldLines(c.trail, c.inp);
            Run(c, L) == if r.done then AfterTrailer(c.(trail := r.header, inp := r.rest), L)
                         else c.(trail := r.header, inp := r.rest)
    decreases |c.inp|
  {
    hide AfterFieldLine, Merged;
    var n := LineEnd(c.inp);
    if n != 0 {
      var (t, done) := AfterFieldLine(c.trail, c.inp[..n - 2]);
      var d := c.(inp := c.inp[n..], trail := t);
      if done {
        FinalIsStuck(AfterTrailer(d, L), L);
      } else {
        TrailerRun(d, L);
      }
    }
  }

  /** What the flags of a call say about where the parser is. */
  lemma FlagsMean(s: ParseState)
    ensures HEADER_READ in Flags(s) <==> Code(s) != 0 && Code(s) != 1 && s != ERROR_HEADER_TOO_LONG
    ensures CONTINUE in Flags(s) <==> s == STATE_END_OF_HEADER
    ensures BODY_READING in Flags(s) <==> s == STATE_BODY_READING
    ensures BODY_FINISHED in Flags(s) <==> s == STATE_BODY_END
    ensures CHUNKS_FINISHED in Flags(s) <==> s == STATE_END_OF_TRAIL_HEADER
    ensures CHUNKED_TRAILER_READING in Flags(s) <==>
            s == STATE_LAST_CHUNK_READ || s == ERROR_CHUNK_TRAILER_TOO_LONG || s == ERROR_CHUNK_TRAIL_HEADER
    ensures CHUNKED_BODY_READING in Flags(s) <==>
            (21 <= Code(s) <= 23 || 220 <= Code(s) <= 230) && s != ERROR_CHUNK_TRAIL_HEADER
    ensures REQUEST_FINISHED in Flags(s) <==> InFinalState(s)
  {
  }
}
