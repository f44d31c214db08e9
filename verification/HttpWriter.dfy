/** The bytes that the request writer puts on the wire. */
module HttpWriter {
  import opened Collections
  import opened ByteStream
  import opened CString
  import opened HttpConsts
  import opened HttpHeader
  import opened HttpMachine

  // ------------------------------------------------------------------ chunks

  /** One chunk: its size line, its data, and the closing CRLF. */
  function ChunkText(data: string): string {
    HexSize(|data|) + CRLF + data + CRLF
  }

  function Min(a: nat, b: nat): nat { if a < b then a else b }

  /** Data cut into chunks of at most `limit` bytes. */
  function ChunksText(data: string, limit: nat): string
    requires limit > 0
    decreases |data|
  {
    if data == "" then ""
    else
      var m := Min(limit, |data|);
      ChunkText(data[..m]) + ChunksText(data[m..], limit)
  }

  function EffectiveLimit(maxChunkSize: int): (limit: nat)
    ensures limit > 0
  {
    if maxChunkSize <= 0 then INT_MAX else maxChunkSize
  }

  const LAST_CHUNK := "0\r\n\r\n"

  /** What flushing `data` writes: chunks, or the end of the body when there is nothing to flush. */
  function FlushText(data: string, maxChunkSize: int): string {
    if data == "" then LAST_CHUNK else ChunksText(data, EffectiveLimit(maxChunkSize))
  }

  function FlushesText(flushes: seq<string>, maxChunkSize: int): string {
    if flushes == [] then "" else FlushText(flushes[0], maxChunkSize) + FlushesText(flushes[1..], maxChunkSize)
  }

  function ChunkCount(n: nat, limit: nat): nat
    requires limit > 0
  {
    if n == 0 then 0 else 1 + ChunkCount(n - Min(limit, n), limit)
  }

  /** The number of chunks is the size divided by the limit, rounded up. */
  lemma {:induction false} ChunkCountIsCeiling(n: nat, limit: nat)
    requires limit > 0
    ensures ChunkCount(n, limit) == (n + limit - 1) / limit
    decreases n
  {
    if n == 0 {
      Quotient(limit - 1, limit, 0, limit - 1);
    } else if n <= limit {
      assert ChunkCount(n, limit) == 1 + ChunkCount(0, limit);
      Quotient(n + limit - 1, limit, 1, n - 1);
    } else {
      ChunkCountIsCeiling(n - limit, limit);
      var q := (n - 1) / limit;
      assert n + limit - 1 == (q + 1) * limit + (n - 1) % limit;
      Quotient(n + limit - 1, limit, q + 1, (n - 1) % limit);
    }
  }

  lemma Quotient(a: nat, b: nat, q: nat, r: nat)
    requires r < b && a == q * b + r
    ensures a / b == q
  {
    var p, t := a / b, a % b;
    assert a == p * b + t;
    MulBound(p - q, b);
    assert (p - q) * b == p * b - q * b;
  }

  lemma MulBound(k: int, b: nat)
    ensures k >= 1 ==> k * b >= b
    ensures k <= -1 ==> k * b + b <= 0
  {
    assert k * b == (k - 1) * b + b == (k + 1) * b - b;
    assert k >= 1 ==> (k - 1) * b >= 0;
    assert k <= -1 ==> (k + 1) * b <= 0;
  }

  /** Without a limit a flush is one chunk. */
  lemma UnlimitedFlush(data: string, maxChunkSize: int)
    requires data != "" && maxChunkSize <= 0 && |data| <= INT_MAX
    ensures FlushText(data, maxChunkSize) == ChunkText(data)
  {
    hide ChunkText;
    assert data[..|data|] == data && data[|data|..] == "";
    assert ChunksText("", INT_MAX) == "";
  }

  function TotalChunks(flushes: seq<string>, maxChunkSize: int): nat {
    if flushes == [] then 0
    else ChunkCount(|flushes[0]|, EffectiveLimit(maxChunkSize)) + TotalChunks(flushes[1..], maxChunkSize)
  }

  // ------------------------------------------------------------------ headers

  function LineTypeNumber(k: FirstLineType): nat {
    match k case UNKNOWN_LINE => 0 case REQUEST_LINE => 1 case STATUS_LINE => 2 case ERROR_LINE => 3
  }

  /** `ComposeFirstLine`. */
  function StartText(s: StartLine): string {
    match s.kind
    case REQUEST_LINE => MethodName(s.verb) + " " + s.uri + " " + VersionName(s.version) + CRLF
    case STATUS_LINE => VersionName(s.version) + " " + SignedText(s.statusCode) + " " + s.reason + CRLF
    case _ => "--- " + SignedText(LineTypeNumber(s.kind)) + " UNKNOWN" + CRLF
  }

  function FieldText(name: string, content: string): string {
    name + ": " + content + CRLF
  }

  /** The fields named in `order`, one line each. */
  function FieldsText(order: seq<string>, fields: FieldMap): string
    requires forall k :: k in order ==> k in fields
  {
    if order == [] then "" else FieldText(order[0], fields[order[0]]) + FieldsText(order[1..], fields)
  }

  /** A listing of all field names, each once. */
  ghost predicate Lists(order: seq<string>, fields: FieldMap) {
    Distinct(order) && forall k :: k in order <==> k in fields
  }

  /** What `AppendToStream` writes when it goes through the fields in the given order. */
  function HeaderText(h: HeaderState, order: seq<string>): string
    requires Lists(order, h.Fields())
  {
    StartText(h.start) + FieldsText(order, h.Fields()) + h.verbatim + CRLF
  }

  // ------------------------------------------------------------------ requests

  predicate SetsLength(verb: Method, body: string) {
    body != "" || verb == METHOD_POST || verb == METHOD_PUT
  }

  /** The content codings that `AppendClientRequest` announces with an uncompressed body. */
  function EncodingFields(fields: FieldMap, useGzip: bool): FieldMap {
    var f := WithoutField(fields, HEADER_CONTENT_ENCODING);
    if useGzip then WithField(f, HEADER_ACCEPT_ENCODING, "gzip, deflate", true)
    else WithoutField(f, HEADER_ACCEPT_ENCODING)
  }

  /** The length that it announces with an unchunked body. */
  function LengthFields(fields: FieldMap, verb: Method, body: string): FieldMap {
    var f := WithoutField(fields, HEADER_TRANSFER_ENCODING);
    if SetsLength(verb, body) then WithField(f, HEADER_CONTENT_LENGTH, Spell(|body|, 10), true) else f
  }

  function SentFields(fields: FieldMap, verb: Method, body: string, useGzip: bool): FieldMap {
    LengthFields(EncodingFields(fields, useGzip), verb, body)
  }

  function WithFields(h: HeaderState, fields: FieldMap): HeaderState {
    h.(section := h.section.(fields := fields))
  }

  /** The header that goes out with an uncompressed, unchunked body. */
  function Sent(h: HeaderState, body: string, useGzip: bool): HeaderState {
    WithFields(h, SentFields(h.Fields(), h.start.verb, body, useGzip))
  }
}
