/** Requests on one connection: each is delivered as it was sent, in order, however the bytes
    of the stream are cut. */
module HttpPipeline {
  import opened Collections
  import opened ByteStream
  import opened CString
  import opened HttpConsts
  import opened HttpHeader
  import opened HttpMachine
  import opened HttpWriter
  import opened HttpCuts
  import opened HttpRoundTrip
  import opened HttpMessages

  // ------------------------------------------------------------------ one request

  /** A receiver that has just read the header of a sent request. */
  predicate HeaderRead(c: Conf, h: HeaderState, body: string, useGzip: bool) {
    && c.state == STATE_END_OF_HEADER
    && c.out == ""
    && c.header.start == ReadBack(h.start)
    && c.header.Fields() == SentFields(h.Fields(), h.start.verb, body, useGzip)
  }

  /** The length that the receiver finds: the announced one, or 0 without an announcement. */
  function SeenLength(h: HeaderState, body: string): Long {
    if SetsLength(h.start.verb, body) then Long(|body|, false)
    else if HEADER_CONTENT_LENGTH in h.Fields() then Strtol(h.Fields()[HEADER_CONTENT_LENGTH], 10)
    else Long(0, false)
  }

  lemma SeenPayload(c: Conf, h: HeaderState, body: string, useGzip: bool, L: Limits)
    requires HeaderRead(c, h, body, useGzip) && |body| <= LONG_MAX
    requires L.maxBody >= 0 ==> |body| <= L.maxBody
    ensures var seen := SeenLength(h, body);
            PayloadVerdict(c.header, L) ==
            if seen.overflow || seen.value < 0 then (ERROR_HEADER_BAD_CONTENT_LEN, 0)
            else (STATE_BODY_READING, seen.value)
  {
    hide Spell, Strtol;
    var fields := c.header.Fields();
    assert HEADER_CONTENT_ENCODING !in fields && HEADER_TRANSFER_ENCODING !in fields;
    if SetsLength(h.start.verb, body) {
      OwnFieldsAreClean(|body|);
      assert fields[HEADER_CONTENT_LENGTH] == Spell(|body|, 10);
      DecimalRoundTrip(|body|);
    } else {
      assert HEADER_CONTENT_LENGTH in fields <==> HEADER_CONTENT_LENGTH in h.Fields();
    }
  }

  /** A body of the announced size is read, and no more. */
  lemma BodyLeads(c: Conf, size: nat, L: Limits)
    requires c.state == STATE_BODY_READING && c.bodyLeft == size <= |c.inp|
    requires L.maxBody >= 0 ==> size <= L.maxBody
    ensures Leads(c, TakeBody(c, size).(state := STATE_BODY_END), L)
  {
    hide Leads, OnLine, BeginPayload;
    BulkBody(c, size, L);
    var d := TakeBody(c, size);
    StepLeads(d, L);
    LeadsOn(c, d, d.(state := STATE_BODY_END), L);
  }

  /** A body that is announced longer than what follows is waited for, or refused. */
  lemma BodyWaits(c: Conf, L: Limits)
    requires c.state == STATE_BODY_READING && c.bodyLeft > |c.inp|
    ensures Run(c, L).state != STATE_BODY_END
  {
    hide OnLine, BeginPayload;
    if L.maxBody >= 0 && c.bodyLeft > L.maxBody {
      var d := c.(state := ERROR_CONTENT_TOO_LONG);
      FinalIsStuck(d, L);
      assert Step(c, L) == Some(d);
    } else {
      BulkBody(c, |c.inp|, L);
      assert Step(TakeBody(c, |c.inp|), L).None?;
    }
  }

  lemma PayloadOutcome(c: Conf, h: HeaderState, body: string, useGzip: bool, tail: string, L: Limits)
    requires HeaderRead(c, h, body, useGzip) && |body| <= LONG_MAX && c.inp == body + tail
    requires L.maxBody >= 0 ==> |body| <= L.maxBody
    ensures Delivered(Run(c, L), h, body, useGzip, tail) <==> LengthAgrees(h, body)
    ensures LengthAgrees(h, body) ==> LinesFit(c, L)
  {
    hide Leads, Strtol, SentFields, PayloadVerdict, LinesFit, Run, Step, LengthAgrees;
    var seen := SeenLength(h, body);
    SeenPayload(c, h, body, useGzip, L);
    PayloadLeads(c, L);
    var d := BeginPayload(c, L);
    SameEnd(c, d, L);
    if seen.overflow || seen.value < 0 {
      FinalIsStuck(d, L);
      NoLength(h, body);
    } else {
      SeenBody(d, h, body, useGzip, tail, L);
    }
  }

  lemma PayloadLeads(c: Conf, L: Limits)
    requires c.state == STATE_END_OF_HEADER
    ensures Leads(c, BeginPayload(c, L), L)
  {
    hide Leads, OnLine, BeginPayload, BodyStep, ChunkStep;
    StepLeads(c, L);
  }

  lemma NoLength(h: HeaderState, body: string)
    requires var seen := SeenLength(h, body); seen.overflow || seen.value < 0
    ensures !LengthAgrees(h, body)
  {
    hide Strtol;
  }

  lemma SameEnd(c: Conf, d: Conf, L: Limits)
    requires Leads(c, d, L)
    ensures Run(c, L) == Run(d, L) && (LinesFit(d, L) ==> LinesFit(c, L))
  {
  }

  lemma SeenBody(d: Conf, h: HeaderState, body: string, useGzip: bool, tail: string, L: Limits)
    requires HeaderRead(d.(state := STATE_END_OF_HEADER), h, body, useGzip) && d.inp == body + tail
    requires var seen := SeenLength(h, body); !seen.overflow && d.bodyLeft == seen.value >= 0
    requires d.state == STATE_BODY_READING && (L.maxBody >= 0 ==> |body| <= L.maxBody)
    ensures Delivered(Run(d, L), h, body, useGzip, tail) <==> LengthAgrees(h, body)
    ensures LengthAgrees(h, body) ==> LinesFit(d, L)
  {
    hide Leads, Strtol, SentFields, LinesFit, Run, Step;
    var n := d.bodyLeft;
    if LengthAgrees(h, body) {
      assert n == |body|;
      assert d.inp[..n] == body && d.inp[n..] == tail;
      BodyLeads(d, n, L);
      var e := TakeBody(d, n).(state := STATE_BODY_END);
      SameEnd(d, e, L);
      FinalIsStuck(e, L);
    } else if n > |tail| {
      assert d.inp == tail;
      BodyWaits(d, L);
    } else if L.maxBody >= 0 && n > L.maxBody {
      BodyRefused(d, L);
    } else {
      BodyLeads(d, n, L);
      var e := TakeBody(d, n).(state := STATE_BODY_END);
      SameEnd(d, e, L);
      FinalIsStuck(e, L);
      assert |e.out| == n > 0;
    }
  }

  lemma BodyRefused(c: Conf, L: Limits)
    requires c.state == STATE_BODY_READING && 0 <= L.maxBody < c.bodyLeft
    ensures Run(c, L).state == ERROR_CONTENT_TOO_LONG
  {
    hide OnLine, BeginPayload;
    var d := c.(state := ERROR_CONTENT_TOO_LONG);
    FinalIsStuck(d, L);
    assert Step(c, L) == Some(d);
  }

  /** A request is delivered as sent, with everything after it left unread, exactly when the
      length that goes out with it is that of its body. */
  lemma MessageRoundTrip(
    c: Conf, h: HeaderState, body: string, useGzip: bool, order: seq<string>, tail: string, L: Limits)
    requires Sendable(h, body, useGzip, order, L)
    requires c.state == STATE_INITIALIZED && c.inp == MessageText(h, body, useGzip, order) + tail
    ensures Delivered(Drive(c, L), h, body, useGzip, tail) <==> LengthAgrees(h, body)
    ensures LengthAgrees(h, body) ==> LinesFit(c, L)
  {
    hide Leads, SentFields, CleanField, HeaderText, LinesFit, Run, Step, LengthAgrees;
    var sent := Sent(h, body, useGzip);
    SentFieldsAreClean(h.Fields(), h.start.verb, body, useGzip);
    assert c.inp == HeaderText(sent, order) + (body + tail);
    HeaderRoundTrip(c, sent, order, body + tail, L);
    var r := ReadHeader(sent, c.header.section.strict, |HeaderText(sent, order)|);
    var d := c.(inp := body + tail, out := "", header := r, state := STATE_END_OF_HEADER);
    SameEnd(c, d, L);
    PayloadOutcome(d, h, body, useGzip, tail, L);
    SettleEnd(Run(c, L), L);
  }

  lemma SettleEnd(c: Conf, L: Limits)
    ensures Settle(c, L).state == STATE_BODY_END <==> c.state == STATE_BODY_END
    ensures c.state == STATE_BODY_END ==> Settle(c, L) == c
  {
  }

  // ------------------------------------------------------------------ a connection

  datatype Outgoing = Outgoing(header: HeaderState, body: string, useGzip: bool, order: seq<string>)

  datatype Received = Received(start: StartLine, fields: FieldMap, body: string)

  datatype Connection = Connection(parser: Conf, got: seq<Received>)

  /** A parser that no byte has reached yet. */
  function Idle(strict: bool): Conf { Fresh(strict, "") }

  predicate Complete(c: Conf) { c.Final() && !InErrorState(c.state) }

  /** No message is complete before its first line has been read. */
  lemma CompleteConsumes(strict: bool, input: string, L: Limits)
    ensures Complete(Drive(Fresh(strict, input), L)) ==> |Drive(Fresh(strict, input), L).inp| < |input|
  {
    hide OnLine, BeginPayload, InErrorState;
    var c := Fresh(strict, input);
    var d := BeginMessage(c);
    assert Step(c, L) == Some(d);
    if LineEnd(input) == 0 {
      assert Run(c, L) == Run(d, L) == d;
      WaitingIsNotComplete(d, L);
    } else {
      assert Run(c, L) == Run(d, L) == Run(Step(d, L).value, L);
    }
  }

  lemma WaitingIsNotComplete(c: Conf, L: Limits)
    requires c.state == STATE_HEADER_READING
    ensures !Complete(Settle(c, L))
  {
  }

  /** Takes every complete message, and starts on the next one whenever bytes are left. */
  function Drain(c: Conf, got: seq<Received>, strict: bool, L: Limits): Connection
    decreases |c.inp|
  {
    if !Complete(c) then Connection(c, got)
    else
      var more := got + [Received(c.header.start, c.header.Fields(), c.out)];
      if c.inp == "" then Connection(Idle(strict), more)
      else
        var d := Drive(Fresh(strict, c.inp), L);
        CompleteConsumes(strict, c.inp, L);
        if Complete(d) then Drain(d, more, strict, L) else Connection(d, more)
  }

  function Receive(k: Connection, piece: string, strict: bool, L: Limits): Connection {
    Drain(Feed(k.parser, piece, L), k.got, strict, L)
  }

  function ReceiveAll(k: Connection, pieces: seq<string>, strict: bool, L: Limits): Connection
    decreases |pieces|
  {
    if pieces == [] then k else ReceiveAll(Receive(k, pieces[0], strict, L), pieces[1..], strict, L)
  }

  ghost predicate Good(m: Outgoing, L: Limits) {
    Sendable(m.header, m.body, m.useGzip, m.order, L) && LengthAgrees(m.header, m.body)
  }

  ghost function Text(m: Outgoing, L: Limits): string
    requires Good(m, L)
  {
    MessageText(m.header, m.body, m.useGzip, m.order)
  }

  ghost function StreamText(ms: seq<Outgoing>, L: Limits): string
    requires forall m :: m in ms ==> Good(m, L)
  {
    if ms == [] then "" else Text(ms[0], L) + StreamText(ms[1..], L)
  }

  function Arrived(m: Outgoing): Received {
    Received(ReadBack(m.header.start), SentFields(m.header.Fields(), m.header.start.verb, m.body, m.useGzip), m.body)
  }

  function AllArrived(ms: seq<Outgoing>): seq<Received> {
    if ms == [] then [] else [Arrived(ms[0])] + AllArrived(ms[1..])
  }

  /** The parser has seen exactly the bytes `seen` of the current message. */
  predicate Midway(c: Conf, seen: string, strict: bool, L: Limits) {
    !c.Final() && ((c == Idle(strict) && seen == "") || Same(c, Feed(Idle(strict), seen, L)))
  }

  lemma MidwayFeed(c: Conf, seen: string, piece: string, strict: bool, L: Limits)
    requires Midway(c, seen, strict, L) && L.worstAccepted >= READ_NO_DATA
    requires LinesFit(Idle(strict).Plus(seen + piece), L)
    ensures Same(Feed(c, piece, L), Feed(Idle(strict), seen + piece, L))
  {
    hide LinesFit, Drive;
    if c == Idle(strict) && seen == "" {
      assert seen + piece == piece;
    } else {
      TwoPieces(Idle(strict), seen, piece, L);
      var d := Feed(Idle(strict), seen, L);
      SameDrive(c.Plus(piece), d.Plus(piece), L);
    }
  }

  /** What a parser makes of a whole message and the bytes behind it. */
  lemma WholeMessage(m: Outgoing, tail: string, strict: bool, L: Limits)
    requires Good(m, L)
    ensures var c := Idle(strict).Plus(Text(m, L) + tail);
            LinesFit(c, L) && Delivered(Drive(c, L), m.header, m.body, m.useGzip, tail)
  {
    hide LinesFit, Drive, Delivered, Sendable, LengthAgrees;
    var c := Idle(strict).Plus(Text(m, L) + tail);
    assert c.inp == Text(m, L) + tail;
    MessageRoundTrip(c, m.header, m.body, m.useGzip, m.order, tail, L);
  }

  /** Part of a message does not complete it. */
  lemma PartialMessage(m: Outgoing, part: string, rest: string, strict: bool, L: Limits)
    requires Good(m, L) && Text(m, L) == part + rest && rest != "" && L.worstAccepted >= READ_NO_DATA
    ensures LinesFit(Idle(strict).Plus(part), L)
    ensures !Feed(Idle(strict), part, L).Final()
  {
    hide LinesFit, Drive, Text;
    var idle := Idle(strict);
    WholeMessage(m, "", strict, L);
    assert Text(m, L) + "" == part + rest;
    assert idle.Plus(part).Plus(rest) == idle.Plus(part + rest) by { assert "" + part + rest == "" + (part + rest); }
    RunPlus(idle.Plus(part), rest, L);
    TwoPieces(idle, part, rest, L);
    assert Feed(idle, part + rest, L).inp == "";
  }

  /** After draining: `n` messages of the stream have arrived, and `left` of the next is seen. */
  ghost predicate Progress(
    k: Connection, got: seq<Received>, left: string, rest: string, ms: seq<Outgoing>, n: nat, strict: bool, L: Limits)
    requires forall m :: m in ms ==> Good(m, L)
  {
    && n <= |ms| && left + rest == StreamText(ms[n..], L)
    && (n < |ms| ==> |left| < |Text(ms[n], L)|)
    && k.got == got + AllArrived(ms[..n])
    && Midway(k.parser, left, strict, L)
  }

  lemma DrainIncomplete(c: Conf, got: seq<Received>, seen: string, strict: bool, L: Limits)
    requires Same(c, Feed(Idle(strict), seen, L)) && !Feed(Idle(strict), seen, L).Final()
    ensures Drain(c, got, strict, L) == Connection(c, got) && Midway(c, seen, strict, L)
  {
    hide Drive;
  }

  lemma DrainComplete(c: Conf, got: seq<Received>, m: Outgoing, tail: string, strict: bool, L: Limits)
    requires Good(m, L) && Same(c, Feed(Idle(strict), Text(m, L) + tail, L))
    ensures Drain(c, got, strict, L) ==
            if tail == "" then Connection(Idle(strict), got + [Arrived(m)])
            else Drain(Drive(Fresh(strict, tail), L), got + [Arrived(m)], strict, L)
  {
    hide Drive, Text, SentFields, LinesFit;
    WholeMessage(m, tail, strict, L);
    assert Complete(c) && c.inp == tail && Received(c.header.start, c.header.Fields(), c.out) == Arrived(m);
  }

  lemma ProgressOn(
    k: Connection, got: seq<Received>, left: string, rest: string, ms: seq<Outgoing>, n: nat, strict: bool, L: Limits)
    requires ms != [] && forall m :: m in ms ==> Good(m, L)
    requires forall m :: m in ms[1..] ==> Good(m, L)
    requires Progress(k, got + [Arrived(ms[0])], left, rest, ms[1..], n, strict, L)
    ensures Progress(k, got, left, rest, ms, n + 1, strict, L)
  {
    hide Text, Midway, Arrived;
    assert ms[1..][n..] == ms[n + 1..] && ms[..n + 1][1..] == ms[1..][..n];
    assert got + [Arrived(ms[0])] + AllArrived(ms[1..][..n]) == got + AllArrived(ms[..n + 1]);
  }

  /** What the connection does with bytes that reach into, or past, the current message. */
  lemma {:induction false} DrainStream(
    c: Conf, got: seq<Received>, seen: string, rest: string, ms: seq<Outgoing>, strict: bool, L: Limits)
    returns (n: nat, left: string)
    requires L.worstAccepted >= READ_NO_DATA && forall m :: m in ms ==> Good(m, L)
    requires Same(c, Feed(Idle(strict), seen, L)) && seen + rest == StreamText(ms, L)
    ensures Progress(Drain(c, got, strict, L), got, left, rest, ms, n, strict, L)
    decreases |ms|
  {
    hide LinesFit, Text, Feed, Same, Progress, Arrived, Drain, Good, AllArrived, Drive, Fresh;
    if ms == [] || |seen| < |Text(ms[0], L)| {
      n, left := 0, seen;
      DrainPartial(c, got, seen, rest, ms, strict, L);
    } else {
      var m, next := ms[0], ms[1..];
      assert m in ms && forall k :: k in next ==> k in ms;
      StreamSuffix(seen, rest, Text(m, L), StreamText(next, L));
      var tail := seen[|Text(m, L)|..];
      DrainComplete(c, got, m, tail, strict, L);
      var more := got + [Arrived(m)];
      if tail == "" {
        AtBoundary(more, rest, next, strict, L);
        ProgressOn(Connection(Idle(strict), more), got, "", rest, ms, 0, strict, L);
        n, left := 1, "";
      } else {
        FeedIdle(strict, tail, L);
        var d := Drive(Fresh(strict, tail), L);
        SameIsReflexive(d);
        var n', left' := DrainStream(d, more, tail, rest, next, strict, L);
        n, left := n' + 1, left';
        ProgressOn(Drain(d, more, strict, L), got, left, rest, ms, n', strict, L);
      }
    }
  }

  lemma DrainPartial(
    c: Conf, got: seq<Received>, seen: string, rest: string, ms: seq<Outgoing>, strict: bool, L: Limits)
    requires L.worstAccepted >= READ_NO_DATA && forall m :: m in ms ==> Good(m, L)
    requires Same(c, Feed(Idle(strict), seen, L)) && seen + rest == StreamText(ms, L)
    requires ms == [] || |seen| < |Text(ms[0], L)|
    ensures Progress(Drain(c, got, strict, L), got, seen, rest, ms, 0, strict, L)
  {
    hide LinesFit, Text, Feed, Same, Midway, Arrived, Complete, Good;
    if ms == [] {
      assert seen == "";
      NothingSeen(strict, L);
    } else {
      assert ms[0] in ms;
      StreamPrefix(seen, rest, Text(ms[0], L), StreamText(ms[1..], L));
      PartialMessage(ms[0], seen, Text(ms[0], L)[|seen|..], strict, L);
    }
    DrainIncomplete(c, got, seen, strict, L);
    assert ms[0..] == ms && got + AllArrived(ms[..0]) == got;
  }

  lemma SameIsReflexive(c: Conf)
    ensures Same(c, c)
  {
  }

  lemma AtBoundary(got: seq<Received>, rest: string, ms: seq<Outgoing>, strict: bool, L: Limits)
    requires (forall m :: m in ms ==> Good(m, L)) && "" + rest == StreamText(ms, L)
    ensures Progress(Connection(Idle(strict), got), got, "", rest, ms, 0, strict, L)
  {
    hide Text;
    assert ms[0..] == ms && got + AllArrived(ms[..0]) == got;
    if ms != [] {
      assert ms[0] in ms;
      TextNotEmpty(ms[0], L);
    }
  }

  lemma NothingSeen(strict: bool, L: Limits)
    ensures !Feed(Idle(strict), "", L).Final()
  {
    var c := Idle(strict).Plus("");
    var d := BeginMessage(c);
    assert Step(c, L) == Some(d) && Step(d, L).None?;
    assert Run(c, L) == Run(d, L) == d;
  }

  lemma FeedIdle(strict: bool, input: string, L: Limits)
    ensures Feed(Idle(strict), input, L) == Drive(Fresh(strict, input), L) == Drive(Idle(strict).Plus(input), L)
  {
    assert "" + input == input;
  }

  lemma StreamPrefix(seen: string, rest: string, text: string, next: string)
    requires seen + rest == text + next && |seen| < |text|
    ensures text == seen + text[|seen|..] && text[|seen|..] != ""
  {
    assert seen == (seen + rest)[..|seen|] == text[..|seen|];
  }

  lemma StreamSuffix(seen: string, rest: string, text: string, next: string)
    requires seen + rest == text + next && |text| <= |seen|
    ensures seen == text + seen[|text|..] && seen[|text|..] + rest == next
  {
    assert (seen + rest)[..|text|] == text && (seen + rest)[|text|..] == next;
  }

  lemma TextNotEmpty(m: Outgoing, L: Limits)
    requires Good(m, L)
    ensures Text(m, L) != ""
  {
    StartNotEmpty(m.header.start);
  }

  lemma {:induction false} PipelineFrom(
    k: Connection, seen: string, ms: seq<Outgoing>, pieces: seq<string>, strict: bool, L: Limits)
    requires L.worstAccepted >= READ_NO_DATA && forall m :: m in ms ==> Good(m, L)
    requires Midway(k.parser, seen, strict, L) && seen + Concat(pieces) == StreamText(ms, L)
    requires ms == [] || |seen| < |Text(ms[0], L)|
    ensures var r := ReceiveAll(k, pieces, strict, L);
            r.got == k.got + AllArrived(ms) && Midway(r.parser, "", strict, L)
    decreases |pieces|
  {
    hide LinesFit, Text, Feed, Drain, Midway, Arrived, Good, Same;
    if pieces == [] {
      assert ms == [] && seen == "" && k.got + AllArrived(ms) == k.got;
    } else {
      var piece, rest := pieces[0], Concat(pieces[1..]);
      assert seen + piece + rest == StreamText(ms, L);
      StreamFits(seen + piece, rest, ms, strict, L);
      MidwayFeed(k.parser, seen, piece, strict, L);
      var n, left := DrainStream(Feed(k.parser, piece, L), k.got, seen + piece, rest, ms, strict, L);
      assert forall m :: m in ms[n..] ==> m in ms;
      PipelineFrom(Receive(k, piece, strict, L), left, ms[n..], pieces[1..], strict, L);
      ArrivedSplit(ms, n);
      assert k.got + AllArrived(ms[..n]) + AllArrived(ms[n..]) == k.got + AllArrived(ms);
    }
  }

  lemma StreamFits(seen: string, rest: string, ms: seq<Outgoing>, strict: bool, L: Limits)
    requires L.worstAccepted >= READ_NO_DATA && forall m :: m in ms ==> Good(m, L)
    requires seen + rest == StreamText(ms, L)
    ensures LinesFit(Idle(strict).Plus(seen), L)
  {
    hide Text;
    if ms == [] {
      assert seen == "";
      var c := Idle(strict).Plus("");
      assert Step(c, L) == Some(BeginMessage(c));
    } else {
      hide LinesFit;
      var m := ms[0];
      assert m in ms;
      if |seen| < |Text(m, L)| {
        StreamPrefix(seen, rest, Text(m, L), StreamText(ms[1..], L));
        PartialMessage(m, seen, Text(m, L)[|seen|..], strict, L);
      } else {
        StreamSuffix(seen, rest, Text(m, L), StreamText(ms[1..], L));
        WholeMessage(m, seen[|Text(m, L)|..], strict, L);
      }
    }
  }

  lemma {:induction false} ArrivedSplit(ms: seq<Outgoing>, n: nat)
    requires n <= |ms|
    ensures AllArrived(ms) == AllArrived(ms[..n]) + AllArrived(ms[n..])
    decreases n
  {
    hide Arrived;
    if n == 0 {
      assert ms[0..] == ms;
    } else {
      var head, tail := ms[..n], ms[1..];
      ArrivedSplit(tail, n - 1);
      assert head[0] == ms[0] && head[1..] == tail[..n - 1] && tail[n - 1..] == ms[n..];
      assert AllArrived(head) == [Arrived(ms[0])] + AllArrived(tail[..n - 1]);
    }
  }

  /** Pipelining: requests written one after another arrive one after another, each exactly
      once with its first line, fields and body, however the stream of bytes is cut. */
  lemma PipelineRoundTrip(ms: seq<Outgoing>, pieces: seq<string>, strict: bool, L: Limits)
    requires L.worstAccepted >= READ_NO_DATA && forall m :: m in ms ==> Good(m, L)
    requires Concat(pieces) == StreamText(ms, L)
    ensures var r := ReceiveAll(Connection(Idle(strict), []), pieces, strict, L);
            r.got == AllArrived(ms) && Midway(r.parser, "", strict, L)
  {
    hide Text;
    if ms != [] {
      assert ms[0] in ms;
      TextNotEmpty(ms[0], L);
    }
    PipelineFrom(Connection(Idle(strict), []), "", ms, pieces, strict, L);
  }
}
