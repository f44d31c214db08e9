# Verified model of whisperlib's protocol, cache and text code

This project models the parts of whisperlib that are hardest to get right and proves what they
promise, for all inputs and all runs:

- **HTTP messages.** A resumable parser that is fed arbitrary fragments of a byte stream, and the
  writer that belongs to it. Sections 3.6.1, 4.2 and 4.4 of RFC 2616, identity coding.
- **Request life cycle.** `ClientProtocol`, which queues requests on one connection, and
  `FailSafeClient`, which retries them over several. Events come in any order.
- **`LruCache`** over reference-counted values, with other threads' locked regions between the two
  halves of a missed `Get`.
- **`Cache`**, with three indexes over the same items, eviction and expiry.
- **UTF-8** in the form of up to six bytes (section 2 of RFC 2279), and **path normalisation**.
- **Classifier texts** and the bracket-aware splitter they rest on.

Each component has a specification on values (functions and lemmas) and, where the program updates
objects or runs loops, classes and methods that are proved to compute that specification. Runs are
sequences of states linked by enabled events; the theorems speak about every state of every run.

`dafny verify dfyconfig.toml` checks everything.

| files | component |
|---|---|
| `Collections` | options, searching, sequences without repetition |
| `ByteStream`, `CString`, `HttpConsts` | streams as byte sequences, C string conversions, tables |
| `HttpHeader`, `HttpHeaderObject`, `HttpFields` | header parsing and printing: specification and class, and what any field lines mean |
| `HttpMachine`, `HttpParser`, `HttpRequests` | the parser as a byte-at-a-time machine, the classes that refine it, and what any input leads to |
| `HttpCuts`, `HttpBounds`, `HttpWriter`, `HttpRoundTrip`, `HttpTrailer`, `HttpMessages`, `HttpChunkedMessage`, `HttpPipeline`, `HttpWitness` | theorems about cuts, bounds and round trips, and failing inputs |
| `ClientModel`, `ClientReading`, `ClientProtocol`, `ClientWitness` | requests on one connection |
| `FailSafeModel`, `FailSafeSafety`, `FailSafeRuns`, `FailSafeMeaning`, `FailSafeClient` | requests over several connections |
| `FailSafeJoint`, `FailSafeWitness` | the fail-safe client and its connections, run together |
| `LruModel`, `LruRecency`, `LruTrim`, `LruCache` | the LRU cache |
| `CacheModel`, `CacheRuns`, `CacheObject` | the expiring cache |
| `Utf8`, `Utf8Text` | UTF-8 |
| `PathRewriting`, `PathMeaning`, `NormalizePath` | paths |
| `BracketSplit`, `IpClassifier` | classifier texts |

## Findings

Some promises do not hold of the code as it stands. The code is modelled as it is. Where the
failure depends on the input or the run, the exact condition is proved, and one that fails is given.

- A written request is not always read back. Without a body, and with a method other than POST and
  PUT, a `Content-Length` that is already among the fields goes out as it is
  (whisperlib/http/http_request.cc:143-150). `MessageRoundTrip` holds if and only if that length is
  right; `StaleLengthIsNotDelivered` is one that is not.
- A chunk size is printed through a cast to a 32-bit integer (whisperlib/http/http_request.cc:264-266),
  so it survives if and only if it is below 2^32 (`HexRoundTrip`).
- The effect of parsing does not depend on the cuts if and only if every line fits its limit while it
  waits and, for a parser to which READ_NO_DATA is not good enough, one call accepts no header and no
  trailer (`CutIndependence`; `LongLineDoesNotFit`, `EmptyTrailerIsAccepted`). Such a parser refuses
  every header and trailer it had to wait for.
- In `ClientProtocol`, a request that is sent again while its old reply is being read, which a timeout
  makes possible, is left in the queue without its callback if it cannot be written at once
  (`SentKeepsIff`, `SentAgainIsLost`, `LostRequestIsReached`). `FailSafeClient` never does that
  (`SendsWhatMayBeSent`).
- `Cache` expiry misses an expired item exactly when one that is still good stands before it
  (`ExpiresExactly`, `ExpiredItemIsMissed`).
- `NormalizePath` counts an even number of leading separators as one more level, since tripled ones go
  two at a time. A climbing path becomes the root if and only if that number is odd or zero or the
  climb uses the extra level up (`NormalizeMeaning`, `DoubleLeadIsALevel`).
- Destroying the fail-safe client leaves a request unsettled if and only if its callback is already
  due or on its way, as after a connection has rejected it (`DestructionOverClients`,
  `RejectedIsNotSettled`).
- The `as_is` flag of `AddField` and `ClearField` is inverted: normalisation happens when it is set
  (whisperlib/http/http_header.cc:145-147). What is stored is what it asks for if and only if the name
  is normal already (`KeyIsAsAskedIff`, `HostIsNotAsAsked`).
- The character table takes '|' for a separator and '}' for none, and agrees with section 2.2 of
  RFC 2616 on every other character (`SeparatorsAgreeIff`).

## Model

| member | source | states |
|---|---|---|
| `ByteStream.MemoryStream.ReadCRLFLine` | whisperlib/io/buffer/memory_stream.h:181-193 | reads exactly the bytes up to and including the first CRLF, and leaves the stream untouched when there is none |
| `CString.DecimalRoundTrip` | whisperlib/base/strutil_format.cc:138-171 | reading back a printed number gives it back, for every value that fits a long |
| `CString.SignedRoundTrip` | whisperlib/base/strutil_format.cc:138-171 | the same with a sign, for every 64-bit value |
| `CString.StrtolMeans` | whisperlib/http/http_request.cc:880-889 | what any text is read as: blanks, a sign and the longest run of digits, and whether it overflows |
| `CString.IntToString` | whisperlib/base/strutil_format.cc:138-171 | the digit loop and the sign give the decimal spelling of the number, which reads back as the value if that fits a long |
| `CString.FillDigits` | whisperlib/base/strutil_format.cc:138-171 | the back-to-front digit loop spells the value at the end of its buffer, leaving room for a sign |
| `CString.HexRoundTrip` | whisperlib/http/http_request.cc:263-267 | a chunk size printed through the 32-bit cast reads back as itself if and only if it is below 2^32 |
| `HttpConsts.MethodRoundTrip` | whisperlib/http/http_consts.cc:154-200 | every known method is recognised by its own name |
| `HttpConsts.VersionRoundTrip` | whisperlib/http/http_consts.cc:137-152 | every known version is recognised by its own name |
| `HttpConsts.SeparatorsAgreeIff` | whisperlib/http/http_consts.cc:198-314 | the character table agrees with the separators of section 2.2 of RFC 2616 on a character if and only if it is neither '|' nor '}' |
| `HttpHeader.HeaderCutIndependence` | whisperlib/http/http_header.cc:262-276 | for every input and every cut of it, repeated header parsing ends with the fields, first line, unread bytes, completion and last error of one call; the worst error differs at most by being raised to READ_NO_DATA |
| `HttpHeader.StaysResumable` | whisperlib/http/http_header.cc:262-276 | the conditions that parsing CHECKs on entry hold after every call that asks for more data |
| `HttpHeader.ClearedIsResumable` | whisperlib/http/http_header.cc:50-66 | the conditions that parsing CHECKs on entry hold for a cleared header |
| `HttpHeader.ParseLinesSplit` | whisperlib/http/http_header.cc:424-471 | parsing the lines of a concatenation is parsing the first part and going on with what it left |
| `HttpHeader.NormalizeIdempotent` | whisperlib/http/http_header.cc:85-118 | normalising a field name a second time changes nothing |
| `HttpHeader.WordCaseIsFixed` | whisperlib/http/http_header.cc:97-118 | a name whose words are capitalised already is left alone |
| `HttpHeader.FixedIffWordCase` | whisperlib/http/http_header.cc:97-118 | capitalising leaves a name alone if and only if its words are capitalised, up to a NUL |
| `HttpHeader.NormalizedMeans` | whisperlib/http/http_header.cc:85-96 | of a name the blanks at both ends go, and nothing else |
| `HttpHeader.CapitalizedAt` | whisperlib/http/http_header.cc:97-118 | in front of a NUL each letter is a capital where a word starts and small elsewhere, blanks are dashes, and everything else stays |
| `HttpHeader.KeyIsAsAskedIff` | whisperlib/http/http_header.cc:145-147 | a field is stored under the name that `as_is` asks for if and only if that name is normal already |
| `HttpHeader.HostIsNotAsAsked` | whisperlib/http/http_header.cc:145-147 | a name that is stored under another than `as_is` asks for, whether it is set or not |
| `HttpHeaderObject.CapitalizeInPlace` | whisperlib/http/http_header.cc:97-118 | the in-place loop over the name buffer computes the capitalised name, up to the first NUL |
| `HttpHeaderObject.NormalizedName` | whisperlib/http/http_header.cc:85-118 | the whole of name normalisation: blanks trimmed at both ends, then capitalised in place |
| `HttpHeaderObject.SortedKeys` | whisperlib/http/http_header.h:81 | the order in which the field map is iterated: every key once, ascending |
| `HttpHeaderObject.Header.AddField` | whisperlib/http/http_header.cc:138-158 | adds, replaces or appends to a field exactly when name and content are valid, under the name as given or normalised, and changes nothing else |
| `HttpHeaderObject.Header.ClearField` | whisperlib/http/http_header.cc:161-166 | removes the field of that name, as given or normalised, tells whether there was one, and changes nothing else |
| `HttpHeaderObject.Header.CopyHeaderFields` | whisperlib/http/http_header.cc:194-203 | merges the valid fields of another header, replacing or appending, whatever the iteration order, and returns how many there were |
| `HttpHeaderObject.Header.AddCrtParsingData` | whisperlib/http/http_header.cc:398-422 | stores the field that is complete, behind what the name has and a comma, unless it is invalid and the header strict, and raises the error; AnyLines says what that comes to |
| `HttpHeaderObject.Header.ReadFirstLine` | whisperlib/http/http_header.cc:282-297 | consumes one line when it has arrived, or suspends the header with READ_NO_DATA |
| `HttpHeaderObject.Header.ParseFirstLine` | whisperlib/http/http_header.cc:299-384 | the three tokens of a request or status line, with the source's error for each missing one |
| `HttpRequests.RequestLineMeans` | whisperlib/http/http_header.cc:299-384 | the method, URI and version that any request line sets, and the errors it raises: none exactly when it has all three parts |
| `HttpRequests.StatusLineMeans` | whisperlib/http/http_header.cc:299-384 | the version, code and reason that any status line sets, and its errors; the reason may be missing up to version 1.0 |
| `HttpRequests.MethodMeans` | whisperlib/http/http_consts.cc:154-200 | a method is recognised exactly by its name, in whatever case |
| `HttpRequests.VersionMeans` | whisperlib/http/http_consts.cc:137-152 | a version is recognised exactly by its name, in whatever case |
| `HttpHeaderObject.Header.ParseStatusCode` | whisperlib/http/http_header.cc:387-396 | the number at the front of the text cut to 32 bits, or UNKNOWN with READ_INVALID_STATUS_CODE where it overflows a long; always a 32-bit integer, and the printed form of any of these is read back without error |
| `HttpHeader.StatusCodeRoundTrip` | whisperlib/http/http_header.cc:387-396 | a printed 32-bit status code reads back as itself, without error |
| `HttpHeaderObject.Header.ReadHeaderFields` | whisperlib/http/http_header.cc:424-471 | reads field lines while complete ones are there; ends at the empty line |
| `HttpHeaderObject.Header.ProcessFieldLine` | whisperlib/http/http_header.cc:431-467 | what one field line does: end, continuation or new field |
| `HttpHeaderObject.Header.ParseHeader` | whisperlib/http/http_header.cc:262-276 | one resumable call: the CHECKs hold, and it computes the line-by-line specification that HeaderCutIndependence is about |
| `HttpHeaderObject.Header.AppendToStream` | whisperlib/http/http_header.cc:227-260 | prints the first line, every field once in key order, and the empty line |
| `HttpMessages.FirstLineRoundTrip` | whisperlib/http/http_header.cc:248-253 | a composed request line parses back to its method, URI and version without error |
| `HttpMessages.StatusLineRoundTrip` | whisperlib/http/http_header.cc:248-253 | a composed status line parses back to its version, code and reason without error |
| `HttpMessages.HeaderRoundTrip` | whisperlib/http/http_header.cc:227-260 | a printed header is read back with its first line and fields, whatever their order, and what follows stays unread |
| `HttpFields.AnyLines` | whisperlib/http/http_header.cc:398-471 | any field lines at all and the empty line: under each name there are the contents that were stored for it, in order, joined with commas, a content being the parts of its lines joined with blanks; a bad field is stored only by a header that is not strict; the worst error tells whether a line belonged to no field or a field was bad; what follows stays unread |
| `HttpFields.RepeatedFieldsAreJoined` | whisperlib/http/http_header.cc:398-471 | clean fields, in which names may repeat and contents go on over several lines, leave under each name the contents in order, joined with commas, without error (section 4.2 of RFC 2616) |
| `HttpFields.WrittenFields` | whisperlib/http/http_header.cc:431-467 | written fields are what their lines spell, each content joined from its first part and its continuation lines |
| `HttpFields.AddedInTurn` | whisperlib/http/http_header.cc:138-158 | contents that are added one after the other are joined with commas behind what is there, or the last one replaces all, and no other key is touched |
| `HttpFields.ReplacedByCopy` | whisperlib/http/http_header.cc:194-203 | copying with replacement leaves the copied content where it is valid, and what was there elsewhere |
| `HttpMessages.EncodingFieldsMean` | whisperlib/http/http_request.cc:79-110 | which content codings an uncompressed request announces; every other field is as before |
| `HttpMessages.SentFieldsMean` | whisperlib/http/http_request.cc:79-164 | which length an uncompressed and unchunked request announces, and that it announces no transfer coding |
| `HttpMachine.FinalIsStuck` | whisperlib/http/http_request.cc:490-500 | a parser in a final state does nothing more |
| `HttpMachine.HeaderPhaseThenRest` | whisperlib/http/http_request.cc:490-552 | stopping after the header and calling again has the effect of going on |
| `HttpParser.FinishedIffFinal` | whisperlib/http/http_request.cc:622-829 | REQUEST_FINISHED is among the flags of a state if and only if it is final; each branch of the parser is proved to return the flags of its state |
| `HttpParser.FlagsMean` | whisperlib/http/http_request.cc:622-829 | which parts of the request the flags of a state say have been read |
| `HttpParser.BufferAppendChunk` | whisperlib/http/http_request.cc:259-274 | moves at most the limit from one stream to the other, framed as one chunk if asked to |
| `HttpParser.Request.AppendChunkHelper` | whisperlib/http/http_request.cc:293-367 | a flush drains its source into chunks, or writes the end of the body when there is nothing to flush |
| `HttpParser.Request.PrepareEncodings` | whisperlib/http/http_request.cc:79-110 | sets the content-coding fields of an uncompressed request |
| `HttpParser.Request.AppendClientRequest` | whisperlib/http/http_request.cc:79-164 | writes header and body: whole behind its length, or as one flush of a body left open |
| `HttpParser.RequestParser.Clear` | whisperlib/http/http_request.cc:471-484 | the parser is ready for the next message: initial state, nothing held back, an empty trailer |
| `HttpParser.RequestParser.ParseClientRequest` | whisperlib/http/http_request.cc:490-552 | one call computes the header phase, or the payload phase, of the byte-at-a-time machine; it is never entered in a state it cannot handle, and says REQUEST_FINISHED exactly in final states |
| `HttpParser.RequestParser.ParseHeaderInternal` | whisperlib/http/http_request.cc:503-549 | the header part of a call refines the machine, with its size limit, and leaves the header resumable |
| `HttpParser.RequestParser.JudgeHeader` | whisperlib/http/http_request.cc:518-548 | what a complete header leads to: payload, an error, or the end |
| `HttpRequests.RequestHeaderMeans` | whisperlib/http/http_request.cc:503-548 | any request header, up to its empty line: one that is too long, names an unknown method or version, or has an error that is not accepted ends in the state that says so; with any other the parser goes on to the payload |
| `HttpParser.RequestParser.ParsePayloadInternal` | whisperlib/http/http_request.cc:622-695 | the payload part of a call refines the machine |
| `HttpParser.RequestParser.BeginPayloadInternal` | whisperlib/http/http_request.cc:629-681 | how the body is transmitted and how long it is, with the source's error for each way in which a header can be unacceptable |
| `HttpRequests.PayloadMeans` | whisperlib/http/http_request.cc:629-681 | the payload behind any header: unknown codings are refused, a chunked one is read in chunks, a length is kept to, a bad one refused; without a length there is no body, except behind PUT and POST, where it is a refusal or all that may be read |
| `HttpParser.RequestParser.ParseBodyInternal` | whisperlib/http/http_request.cc:701-829 | copying an unchunked body in bulk is copying it byte by byte |
| `HttpParser.RequestParser.ParseChunksInternal` | whisperlib/http/http_request.cc:855-1095 | the chunk loop refines the machine and terminates, since each pass before the last chunk consumes input |
| `HttpParser.RequestParser.ReadChunkPart` | whisperlib/http/http_request.cc:858-1092 | no state other than the chunk states reaches the loop, and a chunk being read has bytes left to read |
| `HttpParser.RequestParser.ReadChunkHead` | whisperlib/http/http_request.cc:863-930 | a size line takes the machine's step and consumes input, or the call stops as the machine does, with the flags of the state it stops in |
| `HttpParser.RequestParser.TakeChunkSize` | whisperlib/http/http_request.cc:880-930 | the verdict on a size: bad, last, too long, one too many, or a chunk of that size |
| `HttpRequests.ChunkSizeMeans` | whisperlib/http/http_request.cc:863-930 | what any line in front of a chunk leads to, by the size it spells, the limits and the number of chunks before |
| `HttpParser.RequestParser.ReadChunkData` | whisperlib/http/http_request.cc:961-1082 | copying what is there of a chunk in one piece is the machine's byte-by-byte copying, and consumes input |
| `HttpParser.RequestParser.ReadChunkEnd` | whisperlib/http/http_request.cc:931-960 | the CRLF behind a chunk takes the machine's step and consumes input, or the call stops as the machine does, with the flags of the state it stops in |
| `HttpRequests.ChunkEndMeans` | whisperlib/http/http_request.cc:931-960 | anything between a chunk and its CRLF is too much |
| `HttpParser.RequestParser.ParseTrailHeader` | whisperlib/http/http_request.cc:1102-1136 | the trailer is read resumably and merged into the header, as TrailerRoundTrip says |
| `HttpRequests.WaitingMeans` | whisperlib/http/http_request.cc:865-875 | a parser without a complete line waits, and gives up exactly when more than its limit is waiting |
| `HttpTrailer.TrailerRoundTrip` | whisperlib/http/http_request.cc:1102-1133 | the last chunk with any trailer lines: unless an error in them is not accepted, the parser ends in STATE_END_OF_TRAIL_HEADER and the header holds, under every name, its own content and those of the trailer, in order, joined with commas; what follows stays unread |
| `HttpTrailer.TrailedRoundTrip` | whisperlib/http/http_request.cc:855-1133 | non-empty flushes and a last chunk with a trailer parse back to the concatenated data, the chunk count and the extended header |
| `HttpTrailer.TrailedAnyCut` | whisperlib/http/http_request.cc:490-552 | the same for every cut of the bytes into fragments |
| `HttpCuts.CutIndependence` | whisperlib/http/http_request.cc:855-1132 | for every parser and every input: every way of cutting it has the effect of one call on the whole if and only if every line that the one call reads fits the limit for a waiting line and, where READ_NO_DATA is not good enough, the one call accepts no header and no trailer |
| `HttpCuts.FittingInputIsCutIndependent` | whisperlib/http/http_request.cc:490-552 | the same from any state in the middle of a message, with input already waiting |
| `HttpCuts.TwoPieces` | whisperlib/http/http_request.cc:490-552 | two calls on two pieces have the effect of one call on both |
| `HttpCuts.UnfitLine` | whisperlib/http/http_request.cc:865-875 | where a line does not fit, input cut just short of its end makes the parser give up with more left unread |
| `HttpCuts.InterruptedHeaderIsRefused` | whisperlib/http/http_request.cc:538-544 | a parser that accepts less than READ_NO_DATA refuses every request whose header it has had to wait for |
| `HttpCuts.InterruptedTrailerIsRefused` | whisperlib/http/http_request.cc:1118-1124 | and every request whose trailer it has had to wait for |
| `HttpCuts.InterruptAt` | whisperlib/http/http_request.cc:538-544 | where one call of such a parser accepts a header or a trailer, some cut ends in another state |
| `HttpWitness.LongLineDoesNotFit` | whisperlib/http/http_request.cc:503-513 | an input with a line that does not fit |
| `HttpWitness.EmptyTrailerIsAccepted` | whisperlib/http/http_request.cc:1118-1124 | an empty trailer that one call of a parser which demands READ_OK accepts, so that a cut makes a difference |
| `HttpWriter.ChunkCountIsCeiling` | whisperlib/http/http_request.cc:345-359 | a flush of n bytes becomes n divided by the limit, rounded up, chunks |
| `HttpWriter.UnlimitedFlush` | whisperlib/http/http_request.cc:330-359 | without a limit a flush is one chunk |
| `HttpRoundTrip.BulkChunk` | whisperlib/http/http_request.cc:966-990 | taking chunk data in bulk is a run of single steps |
| `HttpRoundTrip.BulkBody` | whisperlib/http/http_request.cc:814-828 | taking body data in bulk is a run of single steps |
| `HttpRoundTrip.ChunkedRoundTrip` | whisperlib/http/http_request.cc:259-274 | non-empty flushes and an empty one parse back to the concatenated data, with the chunk count of the writer, in STATE_END_OF_TRAIL_HEADER, and what follows stays unread |
| `HttpRoundTrip.ChunkedRoundTripAnyCut` | whisperlib/http/http_request.cc:863-1082 | ChunkedRoundTrip for every cut of the bytes into fragments |
| `HttpChunkedMessage.ChunkedMessageRoundTrip` | whisperlib/http/http_request.cc:79-164 | a whole chunked request, with later flushes and the empty one, is delivered from the initial state with its first line, fields, body and chunk count, and what follows stays unread |
| `HttpChunkedMessage.ChunkedMessageAnyCut` | whisperlib/http/http_request.cc:490-552 | the same for every cut of the bytes into fragments |
| `HttpChunkedMessage.TrailedMessageRoundTrip` | whisperlib/http/http_request.cc:1102-1133 | a whole chunked request with a trailer, from the initial state: first line, fields extended by those of the trailer, body and chunk count |
| `HttpChunkedMessage.TrailedMessageAnyCut` | whisperlib/http/http_request.cc:490-552 | the same for every cut of the bytes into fragments |
| `HttpChunkedMessage.CleanTrailerIsAccepted` | whisperlib/http/http_request.cc:1118-1124 | a trailer of clean fields, whose names may repeat, is accepted by every parser that accepts READ_OK |
| `HttpPipeline.MessageRoundTrip` | whisperlib/http/http_request.cc:79-164 | a written request is delivered with its first line, fields and body, and the rest unread, if and only if the Content-Length that goes out is the length of its body |
| `HttpWitness.StaleLengthIsNotDelivered` | whisperlib/http/http_request.cc:143-150 | a GET without a body whose old length goes out is not delivered |
| `HttpPipeline.PipelineRoundTrip` | whisperlib/http/http_request.cc:490-552 | requests written one after another arrive in order, each exactly once, however the bytes are cut, with Clear between them |
| `HttpBounds.FeedAllKeeps` | whisperlib/http/http_request.cc:647-679 | in every run, delivered and remaining bytes add up to the declared length, and chunk output fits the announced chunks |
| `HttpBounds.OutputBounds` | whisperlib/http/http_request.cc:888-930 | total output never exceeds the body limit, or the chunk limit times the number of chunks; a chunk being read always has bytes left |
| `ClientModel.EveryRunKeepsPlaces` | whisperlib/http/http_client_protocol.cc:655-921 | in every run: the callback map is the disjoint union of active and waiting requests, ids are unique and below the next one, active and waiting stay within their limits, and submitted callbacks are outstanding, due or run |
| `ClientModel.EveryCallbackRunsOnce` | whisperlib/http/http_client_protocol.cc:655-921 | no callback runs more often than its request was sent, and exactly as often once the connection is gone and the due ones have run |
| `ClientModel.ApplyKeeps` | whisperlib/http/http_client_protocol.cc:655-921 | each event keeps that invariant |
| `ClientModel.SentKeepsIff` | whisperlib/http/http_client_protocol.cc:655-686 | sending a request, with all that follows, keeps the invariant if and only if the client is gone, or is full without that request being active, or the request is not outstanding and, if its old reply is being read, can be written at once; for a connection that is refused, if and only if it is not outstanding with another callback |
| `ClientModel.SentKeeps` | whisperlib/http/http_client_protocol.cc:655-686 | one half of that, for every kind of connection |
| `ClientModel.SentAgainIsLost` | whisperlib/http/http_client_protocol.cc:752-771 | a request that is sent again while its old reply is read and no place is free: the reply resolves the new sending, which is left waiting without a callback |
| `ClientModel.ReplacedIsLost` | whisperlib/http/http_client_protocol.cc:672-675 | the callback of an outstanding request is replaced and lost when the request is sent again, unless it is the same one and the connection is refused |
| `ClientModel.RefusedResolves` | whisperlib/http/http_client_protocol.cc:676-686 | a connection that is refused runs what the client holds and the callback that has just come |
| `ClientWitness.LostRequestIsReached` | whisperlib/http/http_client_protocol.cc:655-810 | a run from a new client that reaches the lost request |
| `ClientModel.ReadAfterTimeout` | whisperlib/http/http_client_protocol.cc:794-810 | a timeout while a reply is arriving leads into that state |
| `ClientModel.WriteAllInOrder` | whisperlib/http/http_client_protocol.cc:893-921 | requests leave the queue in order until it is empty or the active ones are as many as allowed |
| `ClientModel.ReadKeeps` | whisperlib/http/http_client_protocol.cc:714-787 | a whole read keeps the invariant: match, completion, orphan, broken reply |
| `ClientModel.ReadManyKeeps` | whisperlib/http/http_client_protocol.cc:699-713 | so do all the rounds of one read event, up to the first that breaks the connection |
| `ClientModel.ResolveAllKeeps` | whisperlib/http/http_client_protocol.cc:862-891 | resolving everything loses and repeats no callback |
| `ClientProtocolObject.GatherActive` | whisperlib/http/http_client_protocol.cc:870-879 | the callbacks of the active requests, each once, in any order of the map |
| `ClientProtocolObject.GatherWaiting` | whisperlib/http/http_client_protocol.cc:880-884 | the callbacks of the waiting requests, each once |
| `ClientProtocolObject.ClientProtocol.SendRequest` | whisperlib/http/http_client_protocol.cc:655-686 | the callback is run at once, scheduled, or kept in the map with the request queued or written, or run because the connection is refused: never lost |
| `ClientProtocolObject.ClientProtocol.Enqueue` | whisperlib/http/http_client_protocol.cc:663-676 | a new unique id, and a place in the queue exactly when there is room |
| `ClientProtocolObject.ClientProtocol.NotifyConnected` | whisperlib/http/http_client_protocol.cc:690-697 | what waits is written in order, up to the limit |
| `ClientProtocolObject.ClientProtocol.WriteRequestsToServer` | whisperlib/http/http_client_protocol.cc:893-921 | the loop computes the writing that WriteAllInOrder describes; its CHECK on a new id cannot fail |
| `ClientProtocolObject.ClientProtocol.BeginReading` | whisperlib/http/http_client_protocol.cc:715-728 | picks the only active request, or a placeholder; both CHECKs hold |
| `ClientProtocolObject.ClientProtocol.ParseReply` | whisperlib/http/http_client_protocol.cc:730-739 | whatever the parser reports, at most one match is made, by the first complete header |
| `ClientProtocolObject.ClientProtocol.IdentifyReadingRequest` | whisperlib/http/http_client_protocol.cc:814-860 | the reply goes to the active request with its id, or is an orphan, as FirstHeaderDecides says; it is never left unmatched |
| `ClientReading.FirstHeaderDecides` | whisperlib/http/http_client_protocol.cc:730-738 | the first outcome with a header decides: the reply is for the active request with the id that it names, or for nobody |
| `ClientReading.ReadMeans` | whisperlib/http/http_client_protocol.cc:714-787 | a complete reply runs the callback of the request that it is for, if it is still outstanding, and no other; a broken one ends the connection with all the others due |
| `ClientReading.StrayReadMeans` | whisperlib/http/http_client_protocol.cc:763-770 | a complete reply that is for nobody ends the connection, and every callback is due |
| `ClientReading.UnfinishedReadMeans` | whisperlib/http/http_client_protocol.cc:739-742 | until a reply is complete no callback runs, and what is being read is the request that the reply is for |
| `ClientReading.ReadWasFound` | whisperlib/http/http_client_protocol.cc:714-860 | in every run, what is being read was found by an earlier read to be the reply to that request: it named its id, or it was the only active one with one at a time |
| `ClientReading.CallbackWasFound` | whisperlib/http/http_client_protocol.cc:714-860 | in every run, a read runs the callback of a request only if that read, or one before, found the reply to be for it |
| `ClientReading.ReadInTurn` | whisperlib/http/http_client_protocol.cc:699-713 | replies that arrive together are read like replies that arrive one after the other, up to the first that is incomplete or ends the connection |
| `ClientReading.IdMeans` | whisperlib/http/http_client_protocol.cc:663-676 | a request with an id from ahead keeps it and any other gets the next one; later ids are greater |
| `ClientReading.TimedOutMeans` | whisperlib/http/http_client_protocol.cc:794-810 | a timeout resolves the active request with that id, if there is one, and nobody else |
| `ClientProtocolObject.ClientProtocol.CompleteRequest` | whisperlib/http/http_client_protocol.cc:752-772 | the request leaves the active ones and its callback, if it is still outstanding, runs once |
| `ClientProtocolObject.ClientProtocol.ProcessMoreData` | whisperlib/http/http_client_protocol.cc:714-787 | one round of reading refines the model, and tells when the connection must be closed |
| `ClientProtocolObject.ClientProtocol.ConnectionReadHandler` | whisperlib/http/http_client_protocol.cc:227-232 | a broken reply or an orphan in any round ends the connection and runs all callbacks; any other read keeps everything in place |
| `ClientProtocolObject.ClientProtocol.NotifyConnectionRead` | whisperlib/http/http_client_protocol.cc:699-713 | the loop over the rounds computes ReadMany, and tells when the connection must be closed |
| `ClientProtocolObject.ClientProtocol.ResolveAllRequestsWithError` | whisperlib/http/http_client_protocol.cc:862-891 | every outstanding callback is run once and all maps are empty |
| `ClientProtocolObject.ClientProtocol.RunJobs` | whisperlib/http/http_client_protocol.cc:888-890 | the callbacks run one after the other, each leaving the due ones for those that have run |
| `ClientProtocolObject.ClientProtocol.NotifyConnectionDeletion` | whisperlib/http/http_client_protocol.cc:789-792 | the connection is gone, nothing is outstanding, and every callback has run |
| `ClientProtocolObject.ClientProtocol.HandleTimeout` | whisperlib/http/http_client_protocol.cc:794-810 | only the request whose timer fired is resolved; its CHECK holds |
| `ClientProtocolObject.ClientProtocol.HandleTimeoutEvent` | whisperlib/http/http_client_protocol.cc:401-408 | a request timer resolves one request, the other timers end the connection with all callbacks run |
| `FailSafeRuns.EveryRequestInOnePlace` | whisperlib/http/failsafe_http_client.cc:123-353 | in every run each started request is in exactly one of: the queue and the pending map, one connection, completed with its closure scheduled once, canceled; with a retry limit it was sent at most that often |
| `FailSafeRuns.EveryRunKeepsInv` | whisperlib/http/failsafe_http_client.cc:123-353 | the invariant behind it, for all events |
| `FailSafeRuns.StepKeeps` | whisperlib/http/failsafe_http_client.cc:123-353 | each event keeps it |
| `FailSafeRuns.DestructionSettles` | whisperlib/http/failsafe_http_client.cc:86-121 | after destruction a request is completed or canceled, exactly once, if and only if it was not in flight or its connection resolved it |
| `FailSafeRuns.DestructionSettlesAll` | whisperlib/http/failsafe_http_client.cc:86-121 | with every flight resolved, every request ever started is completed or canceled, exactly once |
| `FailSafeJoint.EveryJointRunKeeps` | whisperlib/http/failsafe_http_client.cc:123-353 | in every run of the fail-safe client together with its connections both keep their invariants, and the connections carry exactly the callbacks of the requests in flight |
| `FailSafeJoint.StepKeeps` | whisperlib/http/failsafe_http_client.cc:123-353 | each event of the two keeps that |
| `FailSafeJoint.SendsWhatMayBeSent` | whisperlib/http/failsafe_http_client.cc:274-307 | whatever is sent, first or again, satisfies the condition of SentKeepsIff: the lost request is never reached from here |
| `FailSafeJoint.NoFlightIsLost` | whisperlib/http/failsafe_http_client.cc:301-353 | in every such run each request in flight has exactly one callback with its connection: outstanding, due, or run and about to be seen |
| `FailSafeJoint.OutstandingIsCalledBack` | whisperlib/http/http_client_protocol.cc:862-891 | a connection that resolves everything calls back exactly for what is outstanding on it |
| `FailSafeJoint.DestructionOverClients` | whisperlib/http/failsafe_http_client.cc:86-121 | destroying the client in any state of such a run settles a request, exactly once, if and only if its callback was not already due or on its way |
| `FailSafeWitness.RejectedIsNotSettled` | whisperlib/http/http_client_protocol.cc:667-671 | a run after which destruction leaves a rejected request neither completed nor canceled |
| `FailSafeRuns.CancelOnlyQueued` | whisperlib/http/failsafe_http_client.cc:136-148 | a request on a connection cannot be canceled, so a callback never meets a canceled one |
| `FailSafeRuns.ClosingResolves` | whisperlib/http/failsafe_http_client.cc:109-121 | while closing nothing is sent again |
| `FailSafeRuns.ClosedMeans` | whisperlib/http/failsafe_http_client.cc:109-121 | once all connections are closed there are none, and only what they did not resolve is still in flight; the client goes on as it was |
| `FailSafeRuns.ChoosesLeastLoaded` | whisperlib/http/failsafe_http_client.cc:230-271 | the chosen connection is open and the reported load is its own, no live connection is less loaded, one is chosen if any is alive or a server is unused, and there are never more connections than servers |
| `FailSafeMeaning.ChooseMeans` | whisperlib/http/failsafe_http_client.cc:230-271 | choosing drops dead connections, reopens those that are due, and opens one more exactly while a server is left and no idle connection was found |
| `FailSafeMeaning.LaunchMeans` | whisperlib/http/failsafe_http_client.cc:217-309 | a request that is taken up is completed when the client is closing, or it is out of time or tries; otherwise it is sent to the chosen connection with one try less if that has room, and waits if not, an urgent one in front |
| `FailSafeMeaning.RequeueMeans` | whisperlib/http/failsafe_http_client.cc:157-201 | working on the queue: entries are taken up in order until one has to wait or the client closes; of the others the late ones are completed, and the rest keeps its order behind the one that waits |
| `FailSafeMeaning.StartMeans` | whisperlib/http/failsafe_http_client.cc:123-134 | a new request has all its tries and a serial number of its own; the queue is worked on if it did not have to wait |
| `FailSafeMeaning.ResolveMeans` | whisperlib/http/failsafe_http_client.cc:311-353 | a request that was answered well, or is resolved while the client is closing, is completed once and is nowhere else; any other is sent or queued again, unless it is out of time or tries |
| `FailSafeMeaning.CompletedExactly` | whisperlib/http/failsafe_http_client.cc:123-353 | in every run a request has been completed, once, if and only if some event ended it: it was resolved well or while closing, or was taken up or kept in the queue when out of time or tries |
| `FailSafeMeaning.GivenUpMeans` | whisperlib/http/failsafe_http_client.cc:323-328 | a connection without keep-alive is given up after a good answer |
| `FailSafeSafety.EmptyQueueNothingPending` | whisperlib/http/failsafe_http_client.cc:157-161 | the CHECK on entry to requeueing cannot fail |
| `FailSafeSafety.DroppedKeeps` | whisperlib/http/failsafe_http_client.cc:165-180 | entries not found in the pending map are exactly the canceled ones, and dropping them loses nothing |
| `FailSafeSafety.LaunchKeeps` | whisperlib/http/failsafe_http_client.cc:217-309 | starting a request puts it in one place: completed, queued or sent |
| `FailSafeSafety.RequeueKeeps` | whisperlib/http/failsafe_http_client.cc:157-201 | requeueing keeps every request in one place, also while another is being completed |
| `FailSafeSafety.CancelKeeps` | whisperlib/http/failsafe_http_client.cc:136-148 | canceling moves one queued request to the canceled ones |
| `FailSafeSafety.ResolveKeeps` | whisperlib/http/failsafe_http_client.cc:311-353 | completion or retry of a resolved request keeps the invariant |
| `FailSafeClientObject.FailSafeClient.ChooseClient` | whisperlib/http/failsafe_http_client.cc:230-271 | the scan over the connections computes the choice that ChoosesLeastLoaded is about |
| `FailSafeClientObject.FailSafeClient.InternalStartRequest` | whisperlib/http/failsafe_http_client.cc:217-309 | computes the start that LaunchKeeps is about |
| `FailSafeClientObject.FailSafeClient.CompleteWithError` | whisperlib/http/failsafe_http_client.cc:203-214 | the closure of one request is scheduled, and nothing else changes |
| `FailSafeClientObject.FailSafeClient.RequeuePending` | whisperlib/http/failsafe_http_client.cc:157-201 | the two queue loops terminate and compute the requeueing of RequeueKeeps; the CHECK on entry holds |
| `FailSafeClientObject.FailSafeClient.RequeuePendingAlarm` | whisperlib/http/failsafe_http_client.cc:152-155 | the alarm requeues what waits, and every request is still in one place |
| `FailSafeClientObject.FailSafeClient.StartRequestWithUrgency` | whisperlib/http/failsafe_http_client.cc:123-134 | a request that is not being worked on gets a place of its own, and the queue is tried if it did not have to wait |
| `FailSafeClientObject.FailSafeClient.CancelRequest` | whisperlib/http/failsafe_http_client.cc:136-148 | true exactly for a queued request |
| `FailSafeClientObject.FailSafeClient.CompletionCallback` | whisperlib/http/failsafe_http_client.cc:311-353 | a resolved request is completed with its closure, or started again, as ResolveMeans says; it is never a canceled one |
| `FailSafeClientObject.FailSafeClient.ForceCloseAll` | whisperlib/http/failsafe_http_client.cc:109-121 | nothing is left on any connection |
| `FailSafeClientObject.FailSafeClient.ResetConnections` | whisperlib/http/failsafe_http_client.cc:445-466 | connections are dropped, and each of their requests keeps a place of its own |
| `FailSafeClientObject.FailSafeClient.Destroy` | whisperlib/http/failsafe_http_client.cc:86-107 | every request is settled exactly once |
| `LruModel.EveryRunKeepsCount` | whisperlib/base/lru_cache.h:248-426 | over every interleaving of locked regions: each count is one for the map plus one per handle, values are destroyed once and never while anything refers to them |
| `LruModel.ApplyKeeps` | whisperlib/base/lru_cache.h:248-426 | each locked region keeps that |
| `LruRecency.EveryRunKeepsOrder` | whisperlib/base/lru_cache.h:248-426 | in every run of locked regions, for any two entries, the key of the later one was last got, finished or put before that of the earlier one |
| `LruRecency.EvictsOldest` | whisperlib/base/lru_cache.h:551-562 | what is evicted is the entry that was used the longest ago |
| `LruRecency.HoldsExactly` | whisperlib/base/lru_cache.h:248-426 | in every run the cache holds a value for a key if and only if that was the last one stored for it, and it has been neither removed nor evicted since |
| `LruModel.FateOfCreated` | whisperlib/base/lru_cache.h:270-308 | a created value becomes the newest entry, or is destroyed because a conflicting insert won; either way the caller holds the entry |
| `LruModel.NoDanglingReference` | whisperlib/base/ref_counted.h:62-75 | what is in the map or handed out has not been destroyed |
| `LruTrim.TrimKeepsLongestFit` | whisperlib/base/lru_cache.h:536-564 | trimming terminates and leaves exactly the longest most-recent prefix that fits |
| `LruTrim.LongestFitIsUnique` | whisperlib/base/lru_cache.h:536-564 | there is only one such prefix |
| `LruTrim.GetStaysBounded` | whisperlib/base/lru_cache.h:248-308 | after a whole Get the size is within the limit, or the limit plus one entry in overshoot mode |
| `LruTrim.PutStaysBounded` | whisperlib/base/lru_cache.h:332-382 | after a whole Put the size is within the limit, or the limit plus one entry in overshoot mode |
| `LruTrim.GetMeans` | whisperlib/base/lru_cache.h:248-308 | what a whole Get leaves: on a hit the entry in front of the others; on a miss the created value in front, trimmed before it comes where overshooting is allowed, and with it otherwise |
| `LruTrim.PutMeans` | whisperlib/base/lru_cache.h:332-382 | what a whole Put leaves: the new entry in front of those of the other keys, trimmed before or with it |
| `LruTrim.RemoveStaysBounded` | whisperlib/base/lru_cache.h:404-426 | removing keeps the size within its bound |
| `LruTrim.CalledKeeps` | whisperlib/base/lru_cache.h:248-426 | each whole call keeps counts and size bound |
| `LruTrim.EverySequentialRunIsBounded` | whisperlib/base/lru_cache.h:248-426 | in every run of whole calls the size is within the limit, or the limit plus one entry in overshoot mode |
| `LruCacheObject.RefCounted.DecRef` | whisperlib/base/ref_counted.h:66-75 | the last reference deletes the object |
| `LruCacheObject.RefCounted.IncRef` | whisperlib/base/ref_counted.h:62-64 | one more reference to a live object |
| `LruCacheObject.SlotPosition` | whisperlib/base/lru_cache.h:249-258 | the iterator in a map slot points at the node of its key, and the map has the keys of the list |
| `LruCacheObject.LruCache.HasKey` | whisperlib/base/lru_cache.h:249-250 | a key is in the map exactly when it is in the recency sequence |
| `LruCacheObject.LruCache.GetFirstHalf` | whisperlib/base/lru_cache.h:248-263 | a hit moves its entry to the front, leaves the others in the order of EveryRunKeepsOrder, and hands out a live reference; a miss changes nothing |
| `LruCacheObject.LruCache.GetSecondHalf` | whisperlib/base/lru_cache.h:280-302 | the second half of a miss, in whatever state the cache is then |
| `LruCacheObject.LruCache.PutValue` | whisperlib/base/lru_cache.h:342-375 | a replaced entry's reference goes to the caller, the new entry is the newest |
| `LruCacheObject.LruCache.RemoveKey` | whisperlib/base/lru_cache.h:404-426 | the entry's reference goes to the caller |
| `LruCacheObject.LruCache.Release` | whisperlib/base/ref_counted.h:66-75 | a handle given back; the value goes with the last one |
| `LruCacheObject.LruCache.EvictOne` | whisperlib/base/lru_cache.h:551-562 | one eviction from the back of the list; its CHECK holds |
| `LruCacheObject.LruCache.TrimToSize` | whisperlib/base/lru_cache.h:536-564 | the loop computes the trimming of TrimKeepsLongestFit; its CHECK holds |
| `LruCacheObject.LruCache.EvictAll` | whisperlib/base/lru_cache.h:431-433 | nothing is left, not even entries of size 0 |
| `LruCacheObject.LruCache.Get` | whisperlib/base/lru_cache.h:248-308 | a whole Get: list, map, size and counts agree with the recency sequence, and what is returned is alive |
| `LruCacheObject.LruCache.Put` | whisperlib/base/lru_cache.h:332-382 | a whole Put: list, map, size and counts agree with the recency sequence |
| `CacheRuns.EveryRunAgrees` | whisperlib/base/cache.h:167-212 | in every run the key map, the use map and the expiry list hold the same items, stamps are unique and below the next one, and the size limit holds |
| `CacheRuns.HoldsLastAdded` | whisperlib/base/cache.h:199-212 | what is cached for a key is the last value added for it |
| `CacheRuns.CachedExactly` | whisperlib/base/cache.h:167-212 | in every run a key is cached, with the value that was added, if and only if it was added and since then it was not added again, deleted, evicted from a full cache, or out of date with everything added before it when expiry ran |
| `CacheRuns.VictimByLastTouch` | whisperlib/base/cache.h:311-328 | the LRU (MRU) victim is the item that was added or fetched the longest ago (the latest) |
| `CacheRuns.AddedMeans` | whisperlib/base/cache.h:167-193 | adding: the new value is there, unless the capacity is 0, and only the victim of a full cache is gone |
| `CacheRuns.ExpiresExactly` | whisperlib/base/cache.h:329-345 | what is removed has expired; everything that has expired is removed if and only if no good item stands before an expired one |
| `CacheRuns.ExpiredItemIsMissed` | whisperlib/base/cache.h:329-345 | a run after which expiry leaves an expired item behind a good one |
| `CacheRuns.SteadyRunExpiresExactly` | whisperlib/base/cache.h:329-345 | with a monotone clock and the default expiration, expiry removes exactly the items whose time has come |
| `CacheRuns.ClearedAgrees` | whisperlib/base/cache.h:168-174 | expiry and removal of the old item leave agreeing indexes, without that key, and change no other item |
| `CacheObject.ExpiringCache.Add` | whisperlib/base/cache.h:167-193 | computes the addition of AddedMeans and tells whether the value was kept; all three indexes still agree |
| `CacheObject.ExpiringCache.Get` | whisperlib/base/cache.h:199-212 | the value of a key, or the null value; no value changes |
| `CacheObject.ExpiringCache.Del` | whisperlib/base/cache.h:246-253 | a key is in none of the three indexes afterwards, and nothing else changes |
| `CacheObject.ExpiringCache.DelItemLocked` | whisperlib/base/cache.h:304-310 | removes an item that is there from all three indexes, which still agree |
| `CacheObject.ExpiringCache.DelByAlgorithmLocked` | whisperlib/base/cache.h:311-328 | removes the victim that VictimByLastTouch describes, if there is any, and the indexes still agree |
| `CacheObject.ExpiringCache.ExpireSomeCache` | whisperlib/base/cache.h:329-345 | the scan and the deletions compute the expiry of ExpiresExactly, and the indexes still agree |
| `Utf8.DecodeAt` | whisperlib/base/strutil.cc:1038-1061 | one step of decoding advances by at least one byte and never past the end |
| `Utf8.DecodeEncoded` | whisperlib/base/strutil.cc:1135-1182 | decoding undoes encoding for every code point up to 0x7FFFFFFF, whatever stands around it, and uses exactly its bytes |
| `Utf8.RoundTrip` | whisperlib/base/strutil.cc:1135-1182 | decoding the encoding of any NUL-free string of code points gives it back and uses up all bytes |
| `Utf8Text.ValidAt` | whisperlib/base/strutil.cc:985-1011 | a character is undecodable exactly when its first byte is invalid or a continuation byte is missing |
| `Utf8Text.DecodesExactly` | whisperlib/base/strutil.cc:985-1061 | exactly the byte strings that can be decoded: a first byte in one of six ranges and as many bytes from 0x80 to 0xBF as it announces |
| `Utf8Text.TruncatedIsSkipped` | whisperlib/base/strutil.cc:1038-1061 | a character that is cut short costs only itself: decoding goes on at the byte that stands in place of the missing one |
| `Utf8Text.StrayByteIsSkipped` | whisperlib/base/strutil.cc:1038-1061 | a byte with which no character begins costs only itself |
| `Utf8Text.Utf8ToCodePoint` | whisperlib/base/strutil.cc:1038-1061 | the decoding loop computes DecodeAt, reading no byte past the end |
| `Utf8Text.Utf8ToWcharWithLen` | whisperlib/base/strutil.cc:1184-1202 | the decodable characters of any byte string, in order |
| `Utf8Text.TruncatedIsLeftOut` | whisperlib/base/strutil.cc:1184-1202 | of a text with a character that is cut short exactly what stands around it comes back |
| `Utf8Text.StrayByteIsLeftOut` | whisperlib/base/strutil.cc:1184-1202 | of a text with a stray byte exactly what stands around it comes back |
| `Utf8Text.WcharToUtf8StringSetWithLen` | whisperlib/base/strutil.h:1051-1062 | encodes up to a NUL or the given length |
| `Utf8Text.EncodesUpToNul` | whisperlib/base/strutil.h:1051-1062 | a code point that is out of range is left out of an encoding, and a NUL ends it |
| `Utf8Text.EncodeThenDecode` | whisperlib/base/strutil.h:1051-1062 | the two together give back every encodable string |
| `Utf8Text.Utf8Strlen` | whisperlib/base/strutil.cc:1013-1036 | the number of characters, or 0 if one of them is undecodable, on any bytes up to the first NUL |
| `Utf8Text.EncodedLength` | whisperlib/base/strutil.cc:1013-1036 | the length of an encoded string is that of what it encodes |
| `Utf8Text.CountedUpToNul` | whisperlib/base/strutil.cc:1013-1036 | what is encoded in front of a NUL is counted whatever stands behind it |
| `Utf8Text.TruncatedCountsNothing` | whisperlib/base/strutil.cc:1013-1036 | a text with a character that is cut short counts nothing, wherever that is |
| `Utf8Text.Utf8StrPrefix` | whisperlib/base/strutil.cc:1259-1274 | cuts by first bytes alone; nothing when a first byte is invalid or the last character is cut short |
| `Utf8Text.PrefixMeans` | whisperlib/base/strutil.cc:1259-1274 | in any text the first n characters end where the first bytes say; a text with fewer is taken whole, unless it goes on with a byte that begins no character |
| `Utf8Text.PrefixOfEncoded` | whisperlib/base/strutil.cc:1259-1274 | the prefix of an encoded string encodes a prefix |
| `Utf8Text.EncodedPrefix` | whisperlib/base/strutil.cc:1259-1274 | cutting the encoding of a string at n characters gives the encoding of its first n |
| `Utf8Text.Utf8Compare` | whisperlib/base/strutil.cc:1565-1575 | the lexicographic order of the code points, undecodable ones greatest |
| `Utf8Text.EncodingKeepsOrder` | whisperlib/base/strutil.cc:1135-1182 | byte order of encoded strings is code point order |
| `Utf8Text.CompareEncoded` | whisperlib/base/strutil.cc:1528-1575 | comparing two encoded strings gives the order of their code points, which is also that of their bytes |
| `PathNormalization.NormalizePath` | whisperlib/base/strutil.cc:261-333 | the loops terminate and compute the normal form: clean, idempotent, of the same meaning |
| `PathNormalization.NormalizeShape` | whisperlib/base/strutil.cc:261-333 | the result has no dot components and no empty component but perhaps the first, and is absolute exactly when the path is |
| `PathNormalization.NormalizeIdempotent` | whisperlib/base/strutil.cc:261-333 | normalising twice is normalising once |
| `PathNormalization.NormalizeMeaning` | whisperlib/base/strutil.cc:261-333 | a path that does not climb above the root keeps its component stack; one that does becomes the root if and only if the number of leading separators is odd or zero, or it climbs above one extra level, or nothing is left of that; otherwise the extra level absorbs the climb |
| `PathNormalization.DoubleLeadIsALevel` | whisperlib/base/strutil.cc:283-309 | a path with two leading separators that climbs and does not become the root |
| `PathNormalization.SqueezedLead` | whisperlib/base/strutil.cc:276-296 | shortening leaves two leading separators if and only if their number was even |
| `PathNormalization.ResolvedMeans` | whisperlib/base/strutil.cc:297-330 | a shortened path resolves to what its components lead to from its ground, or to nothing if they climb |
| `PathNormalization.SqueezeAll` | whisperlib/base/strutil.cc:276-296 | each of the three shortening loops terminates without the pattern left |
| `PathNormalization.ResolveParents` | whisperlib/base/strutil.cc:297-309 | the loop over ".." terminates with none left, or at the root |
| `PathNormalization.ReplaceBackslashes` | whisperlib/base/strutil.cc:264-269 | every backslash, and nothing else, becomes a separator |
| `PathNormalization.FinishPath` | whisperlib/base/strutil.cc:297-332 | what follows the squeezing computes the resolved path, with or without the separator that was added |
| `PathMeaning.AscendMeans` | whisperlib/base/strutil.cc:297-309 | taking a component and ".." away keeps the meaning, counted from the ground of the path; nothing is left exactly by climbing |
| `PathMeaning.SqueezedKeepsRun` | whisperlib/base/strutil.cc:276-296 | shortening separators and dots keeps the meaning |
| `PathMeaning.EndingMeans` | whisperlib/base/strutil.cc:310-330 | resolving a final "." or ".." keeps the meaning, counted from the ground of the path, and leaves nothing exactly if that climbs |
| `PathRewriting.ResolvedIsClean` | whisperlib/base/strutil.cc:276-330 | no rewriting step brings back what an earlier one removed |
| `BracketSplit.SplitBracketedString` | whisperlib/base/strutil.cc:484-509 | succeeds if and only if the brackets are balanced; the pieces rejoin to the input up to one trailing separator, and none has a separator outside its brackets |
| `BracketSplit.SplitMeans` | whisperlib/base/strutil.cc:484-509 | splitting succeeds exactly on balanced texts, rejoins up to one trailing separator, and cuts at every separator outside brackets |
| `BracketSplit.SplitJoined` | whisperlib/base/strutil.cc:484-509 | splitting undoes joining |
| `IpClassifiers.CreateOfPrint` | whisperlib/net/ipclassifier.cc:59-92 | every tree with plain leaf arguments is created again from its canonical spelling |
| `IpClassifiers.CreateClassifier` | whisperlib/net/ipclassifier.cc:59-92 | the recursive parse, terminating on shrinking text; each abort is an error value |
| `IpClassifiers.SplitSpec` | whisperlib/net/ipclassifier.cc:60-71 | name and argument, or what is wrong with the brackets |
| `IpClassifiers.PartsMeans` | whisperlib/net/ipclassifier.cc:60-71 | a specification is cut at its first opening bracket and its last closing one; otherwise the error says which is missing, or that they stand the wrong way round |
| `IpClassifiers.CreateMeans` | whisperlib/net/ipclassifier.cc:59-92 | what each name creates, whatever stands around it and its argument; an error inside is the whole's |
| `IpClassifiers.UnknownIsRefused` | whisperlib/net/ipclassifier.cc:90-92 | any other name is refused |
| `IpClassifiers.SplitClassifiers` | whisperlib/net/ipclassifier.cc:46-54 | the members in order, or the error of the first that cannot be created; unbalanced members are an error |
| `IpClassifiers.MembersMean` | whisperlib/net/ipclassifier.cc:46-54 | members in brackets are created in order |
| `IpClassifiers.FailedMemberMeans` | whisperlib/net/ipclassifier.cc:46-54 | the first member that cannot be created gives its error |
| `IpClassifiers.UnbalancedIsRefused` | whisperlib/net/ipclassifier.cc:46-54 | members that are not balanced are refused |
| `IpClassifiers.StrTrim` | whisperlib/base/strutil.cc:157-173 | the two loops take away exactly the blanks at both ends |
| `IpClassifiers.TrimMeans` | whisperlib/base/strutil.cc:157-173 | trimming takes away all blanks at both ends and nothing else |

## Left out

- Gzip and deflate in the request writer and parser; a compressed body ends the modelled run in a state of its own.
- `ParseServerReply` and `AppendServerReply`, authorization and date fields, `GetHeaderAcceptance`, statistics and logging.
- `MemoryStream` internals: a stream is its bytes. Bytes are characters; `strtol` and `strcasecmp` stop at NUL as in C.
- Sockets, selector, timers and alarms: events, clock readings, the parser's reports and whether a connection lives are inputs.
- Error codes that reach callbacks; the life-cycle results are about placement and counting.
- Resolutions that happen inside `SendRequest`, when connecting fails at once, are later events of `FailSafeClient`; its connections' loads come from the environment, except in `FailSafeJoint`, and a request is started again only after it was settled.
- `ServerProtocol`, `Server`, `IpV4Filter`, `DnsResolver`, `Date`, `RE`, `FreeList`, `JsonStrUnescape`: plumbing, foreign calls, or claims that the code does not settle.
- `Cache::Clear` and `Cache::Pop`, and `AdjustSize` of `LruCache`.
- The unlock gap between the test and the eviction in `TrimToSize`: each eviction is one step.
- Umlaut expansion in `Utf8Compare`, case and alphanumeric tables.
- The IP filters at the leaves of classifiers keep their text only.
- CString.IntToString: excludes the least 64-bit value, whose negation overflows in the program.
- HttpHeaderObject.NormalizedName: excludes names of blanks only, on which the program runs past the end of its text.
- HttpHeaderObject.Header.ClearField: excludes the same names when they are to be normalised.
- HttpParser.Request.AppendChunkHelper: flushes are not compressed.
- HttpParser.Request.PrepareEncodings: covers uncompressed bodies.
- HttpParser.Request.AppendClientRequest: covers uncompressed bodies, and chunked ones from version 1.1 on, which the program demands with a CHECK.
- HttpParser.RequestParser.BeginPayloadInternal: a compressed payload ends in a state of its own.
- HttpParser.RequestParser.ParseBodyInternal: bodies are not compressed.
- HttpParser.RequestParser.ReadChunkData: chunks are not compressed.
- HttpPipeline.MessageRoundTrip: for fields whose names are valid and normalised, and whose contents have no line breaks and no leading blanks.
- PathNormalization.NormalizeMeaning: the separator is not '.', and not NUL, which would end the program's patterns.
- ClientModel.EveryRunKeepsPlaces: a request is sent only under the condition of SentKeepsIff, without which the invariant is lost.
- ClientProtocolObject.ClientProtocol.SendRequest: the same condition.
- FailSafeRuns.DestructionSettlesAll: takes the order in which closing resolves the flights; DestructionOverClients says which of them it covers.
- FailSafeJoint.EveryJointRunKeeps: which connection a request goes to is open but for its load; a callback may be seen later than it runs; closing and reopening all connections are split into their steps.
- FailSafeClientObject.FailSafeClient.ForceCloseAll: takes the order of resolution in the same way.
- FailSafeClientObject.FailSafeClient.Destroy: takes the order of resolution in the same way.
- FailSafeClientObject.FailSafeClient.ChooseClient: what dropping a dead connection resolves is a later event.
- FailSafeClientObject.FailSafeClient.InternalStartRequest: what `SendRequest` resolves at once is a later event.
- FailSafeClientObject.FailSafeClient.StartRequestWithUrgency: for a request that is not being worked on; the program tests that only in debug builds, and only among the queued ones.
- Utf8Text.Utf8Compare: without umlaut expansion.
