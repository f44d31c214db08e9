/** Independence of the way the input is cut into pieces. */
module HttpCuts {
  import opened Collections
  import opened ByteStream
  import opened CString
  import opened HttpHeader
  import opened HttpMachine

  // ------------------------------------------------------------------ input that arrives later

  /** A step that can be taken does not depend on input that arrives later. */
  lemma StepPlus(c: Conf, more: string, L: Limits)
    ensures Step(c, L).Some? ==> Step(c.Plus(more), L) == Some(Step(c, L).value.Plus(more))
    ensures Step(c, L).Some? ==> (StepFits(c.Plus(more), L) <==> StepFits(c, L))
  {
    hide OnLine, BeginPayload, BodyStep, ChunkStep, LineEnd;
    LineEndAppend(c.inp, more);
    var n := LineEnd(c.inp);
    if ReadsLines(c.state) {
      if n != 0 {
        assert (c.inp + more)[..n - 2] == c.inp[..n - 2];
        assert (c.inp + more)[n..] == c.inp[n..] + more;
        OnLinePlus(c.(inp := c.inp[n..]), c.inp[..n - 2], more, L);
      }
    } else {
      BeginPayloadPlus(c, more, L);
      DataStepPlus(c, more, L);
    }
  }

  lemma BeginPayloadPlus(c: Conf, more: string, L: Limits)
    ensures BeginPayload(c.Plus(more), L) == BeginPayload(c, L).Plus(more)
  {
    hide PayloadVerdict;
  }

  lemma DataStepPlus(c: Conf, more: string, L: Limits)
    ensures BodyStep(c, L).Some? ==> BodyStep(c.Plus(more), L) == Some(BodyStep(c, L).value.Plus(more))
    ensures ChunkStep(c).Some? ==> ChunkStep(c.Plus(more)) == Some(ChunkStep(c).value.Plus(more))
  {
    if c.inp != "" {
      assert (c.inp + more)[0] == c.inp[0] && (c.inp + more)[1..] == c.inp[1..] + more;
    }
  }

  lemma OnLinePlus(c: Conf, line: string, more: string, L: Limits)
    requires ReadsLines(c.state)
    ensures OnLine(c.Plus(more), line, L) == OnLine(c, line, L).Plus(more)
  {
    hide AfterHeaderLine, AfterChunkHead, AfterTrailerLine;
    match c.state
    case STATE_HEADER_READING => AfterHeaderLinePlus(c, line, more, L);
    case STATE_CHUNK_HEAD_READING => AfterChunkHeadPlus(c, line, more, L);
    case STATE_LAST_CHUNK_READ => AfterTrailerLinePlus(c, line, more, L);
    case STATE_END_OF_CHUNK =>
  }

  lemma AfterHeaderLinePlus(c: Conf, line: string, more: string, L: Limits)
    requires c.state == STATE_HEADER_READING
    ensures AfterHeaderLine(c.Plus(more), line, L) == AfterHeaderLine(c, line, L).Plus(more)
  {
    hide HeaderLine, HeaderVerdict;
  }

  lemma AfterChunkHeadPlus(c: Conf, line: string, more: string, L: Limits)
    ensures AfterChunkHead(c.Plus(more), line, L) == AfterChunkHead(c, line, L).Plus(more)
  {
    hide ChunkVerdict;
  }

  lemma AfterTrailerLinePlus(c: Conf, line: string, more: string, L: Limits)
    requires c.state == STATE_LAST_CHUNK_READ
    ensures AfterTrailerLine(c.Plus(more), line, L) == AfterTrailerLine(c, line, L).Plus(more)
  {
    hide AfterFieldLine, Merged;
  }

  /** Running on everything at once is running on the first part and going on from there. */
  lemma {:induction false} RunPlus(c: Conf, more: string, L: Limits)
    ensures Run(c.Plus(more), L) == Run(Run(c, L).Plus(more), L)
    ensures LinesFit(c.Plus(more), L) ==> LinesFit(Run(c, L).Plus(more), L) && LinesFit(c, L)
    ensures NeverAccepts(c.Plus(more), L) ==> NeverAccepts(Run(c, L).Plus(more), L)
    decreases |c.inp|, Rank(c.state)
  {
    hide Step, StepFits;
    StepPlus(c, more, L);
    if Step(c, L).Some? {
      RunPlus(Step(c, L).value, more, L);
    }
  }

  // ------------------------------------------------------------------ interruptions

  /** The second is what an interruption makes of the first: its errors are no better, which only
      matters to a parser that accepts less than READ_NO_DATA. */
  predicate Alike(c: Conf, d: Conf, L: Limits) {
    && Same(c, d)
    && (|| L.worstAccepted >= READ_NO_DATA
        || (c.header.errors.worst <= d.header.errors.worst && c.trail.errors.worst <= d.trail.errors.worst))
  }

  lemma SameOnLine(c: Conf, d: Conf, line: string, L: Limits)
    requires Alike(c, d, L) && ReadsLines(c.state)
    requires L.worstAccepted >= READ_NO_DATA || !Accepts(c.state, OnLine(c, line, L).state)
    ensures Alike(OnLine(c, line, L), OnLine(d, line, L), L)
  {
    hide AfterHeaderLine, AfterTrailerLine, ChunkVerdict;
    match c.state
    case STATE_HEADER_READING => SameHeaderLine(c, d, line, L);
    case STATE_LAST_CHUNK_READ => SameTrailerLine(c, d, line, L);
    case STATE_CHUNK_HEAD_READING =>
    case STATE_END_OF_CHUNK =>
  }

  lemma SameHeaderLine(c: Conf, d: Conf, line: string, L: Limits)
    requires Alike(c, d, L) && c.state == d.state == STATE_HEADER_READING
    requires L.worstAccepted >= READ_NO_DATA || AfterHeaderLine(c, line, L).state != STATE_END_OF_HEADER
    ensures Alike(AfterHeaderLine(c, line, L), AfterHeaderLine(d, line, L), L)
  {
    hide HeaderLine;
    ErasedLine(c.header, d.header, line, REQUEST_LINE);
    if L.worstAccepted < READ_NO_DATA {
      NoBetterLine(c.header, d.header, line, REQUEST_LINE);
    }
  }

  lemma SameTrailerLine(c: Conf, d: Conf, line: string, L: Limits)
    requires Alike(c, d, L) && c.state == d.state == STATE_LAST_CHUNK_READ
    requires L.worstAccepted >= READ_NO_DATA || AfterTrailerLine(c, line, L).state != STATE_END_OF_TRAIL_HEADER
    ensures Alike(AfterTrailerLine(c, line, L), AfterTrailerLine(d, line, L), L)
  {
    hide AfterFieldLine, Merged;
    ErasedFieldLine(c.trail, d.trail, line);
    if L.worstAccepted < READ_NO_DATA {
      NoBetterLine(c.trail, d.trail, line, REQUEST_LINE);
    }
  }

  lemma SameStep(c: Conf, d: Conf, L: Limits)
    requires Alike(c, d, L) && Calm(c, L)
    ensures Step(c, L).Some? <==> Step(d, L).Some?
    ensures Step(c, L).Some? ==>
              var x, y := Step(c, L).value, Step(d, L).value;
              Alike(x, y, L) && Calm(x, L) && (StepFits(c, L) <==> StepFits(d, L))
  {
    hide Step, StepFits, Alike, Calm, Accepts;
    CalmStep(c, L);
    SameParts(c, d, L);
    if ReadsLines(c.state) {
      SameLineStep(c, d, L);
    } else {
      SameOtherStep(c, d, L);
    }
  }

  lemma SameOtherStep(c: Conf, d: Conf, L: Limits)
    requires Alike(c, d, L) && !ReadsLines(c.state) && c.state == d.state
    ensures Step(c, L).Some? <==> Step(d, L).Some?
    ensures Step(c, L).Some? ==> Alike(Step(c, L).value, Step(d, L).value, L)
  {
    hide BeginMessage, BeginPayload, BodyStep, ChunkStep, Alike;
    SameBeginning(c, d, L);
    SameDataStep(c, d, L);
  }

  lemma SameLineStep(c: Conf, d: Conf, L: Limits)
    requires Alike(c, d, L) && ReadsLines(c.state) && c.state == d.state && c.inp == d.inp
    requires Step(c, L).Some? ==> L.worstAccepted >= READ_NO_DATA || !Accepts(c.state, Step(c, L).value.state)
    ensures Step(c, L).Some? <==> Step(d, L).Some?
    ensures Step(c, L).Some? ==> Alike(Step(c, L).value, Step(d, L).value, L)
  {
    hide OnLine, LineEnd, Alike, Accepts;
    var n := LineEnd(c.inp);
    if n != 0 {
      SameTail(c, d, n, L);
      SameOnLine(c.(inp := c.inp[n..]), d.(inp := d.inp[n..]), c.inp[..n - 2], L);
    }
  }

  lemma CalmStep(c: Conf, L: Limits)
    requires Calm(c, L)
    ensures Step(c, L).Some? ==>
              var x := Step(c, L).value;
              Calm(x, L) && (L.worstAccepted >= READ_NO_DATA || !Accepts(c.state, x.state))
  {
    hide Step;
  }

  lemma SameParts(c: Conf, d: Conf, L: Limits)
    requires Alike(c, d, L)
    ensures c.state == d.state && c.inp == d.inp
    ensures StepFits(c, L) <==> StepFits(d, L)
  {
    hide LineEnd;
  }

  lemma SameTail(c: Conf, d: Conf, n: nat, L: Limits)
    requires Alike(c, d, L) && n <= |c.inp|
    ensures c.inp == d.inp && Alike(c.(inp := c.inp[n..]), d.(inp := d.inp[n..]), L)
  {
  }

  lemma SameBeginning(c: Conf, d: Conf, L: Limits)
    requires Alike(c, d, L)
    ensures Alike(BeginMessage(c), BeginMessage(d), L) && Alike(BeginPayload(c, L), BeginPayload(d, L), L)
  {
    hide PayloadVerdict;
    SamePayloadVerdict(c.header, d.header, L);
  }

  lemma SameDataStep(c: Conf, d: Conf, L: Limits)
    requires Alike(c, d, L)
    ensures BodyStep(c, L).Some? <==> BodyStep(d, L).Some?
    ensures BodyStep(c, L).Some? ==> Alike(BodyStep(c, L).value, BodyStep(d, L).value, L)
    ensures ChunkStep(c).Some? <==> ChunkStep(d).Some?
    ensures ChunkStep(c).Some? ==> Alike(ChunkStep(c).value, ChunkStep(d).value, L)
  {
  }

  lemma SamePayloadVerdict(g: HeaderState, h: HeaderState, L: Limits)
    requires Erased(g) == Erased(h)
    ensures PayloadVerdict(g, L) == PayloadVerdict(h, L)
  {
    assert g.section == h.section && g.start == h.start;
  }

  lemma {:induction false} SameRun(c: Conf, d: Conf, L: Limits)
    requires Alike(c, d, L) && Calm(c, L)
    ensures Same(Run(c, L), Run(d, L)) && Calm(d, L)
    ensures LinesFit(c, L) <==> LinesFit(d, L)
    decreases |c.inp|, Rank(c.state)
  {
    hide Step, StepFits;
    SameStep(c, d, L);
    if Step(c, L).Some? {
      SameRun(Step(c, L).value, Step(d, L).value, L);
    }
  }

  lemma SameDrive(c: Conf, d: Conf, L: Limits)
    requires Alike(c, d, L) && Calm(c, L)
    ensures Same(Drive(c, L), Drive(d, L))
  {
    hide Run, Calm;
    SameRun(c, d, L);
  }

  /** A call that did not give up leaves the machine where its steps had led it. */
  lemma SettleIsSame(c: Conf, L: Limits)
    requires Settle(c, L).state == c.state
    ensures Alike(c, Settle(c, L), L)
  {
  }

  /** A parser that is blocked, however long it has waited, is not blocked by a line that fits. */
  lemma BlockedLineFits(c: Conf, more: string, L: Limits)
    requires Step(c, L).None? && LinesFit(c.Plus(more), L) && Settle(c, L).state != c.state
    ensures Step(c.Plus(more), L).None?
  {
    LineEndAppend(c.inp, more);
  }

  /** Giving up is for ever: more of an unfinished line changes only what is left unread. */
  lemma GivingUpPlus(c: Conf, more: string, L: Limits)
    requires Settle(c, L).state != c.state
    ensures Same(Settle(c.Plus(more), L), Settle(c, L).Plus(more))
    ensures Settle(c, L).Final()
  {
  }

  /** Two pieces have the effect of one. */
  lemma TwoPieces(c: Conf, a: string, b: string, L: Limits)
    requires Calm(c.Plus(a + b), L) && LinesFit(c.Plus(a + b), L)
    ensures Same(Feed(Feed(c, a, L), b, L), Feed(c, a + b, L))
    ensures !Feed(c, a, L).Final() ==> LinesFit(Feed(c, a, L).Plus(b), L) && Calm(Feed(c, a, L).Plus(b), L)
  {
    hide Step, LinesFit, Settle, NeverAccepts;
    assert c.Plus(a).Plus(b) == c.Plus(a + b) by { assert c.inp + a + b == c.inp + (a + b); }
    if !c.Final() {
      var r := Run(c.Plus(a), L);
      RunPlus(c.Plus(a), b, L);
      assert Drive(c.Plus(a + b), L) == Drive(r.Plus(b), L);
      var s := Settle(r, L);
      if s.state == r.state {
        SettleIsSame(r, L);
        if r.Final() {
          FinalIsStuck(r, L);
          FinalIsStuck(r.Plus(b), L);
        } else {
          SameDrive(r.Plus(b), s.Plus(b), L);
          SameRun(r.Plus(b), s.Plus(b), L);
        }
      } else {
        BlockedLineFits(r, b, L);
        GivingUpPlus(r, b, L);
      }
    }
  }

  /** Every cut of an input whose lines fit has the effect of one call on the whole. */
  lemma {:induction false} FittingInputIsCutIndependent(c: Conf, pieces: seq<string>, L: Limits)
    requires pieces != [] && !c.Final()
    requires LinesFit(c.Plus(Concat(pieces)), L) && Calm(c.Plus(Concat(pieces)), L)
    ensures Same(FeedAll(c, pieces, L), Feed(c, Concat(pieces), L))
    decreases |pieces|
  {
    hide LinesFit, Feed, Calm;
    var more := Concat(pieces[1..]);
    TwoPieces(c, pieces[0], more, L);
    var d := Feed(c, pieces[0], L);
    if |pieces| == 1 {
      assert pieces[0] + more == pieces[0];
      assert FeedAll(d, [], L) == d;
    } else if d.Final() {
      FinalFeedAll(d, pieces[1..], L);
    } else {
      FittingInputIsCutIndependent(d, pieces[1..], L);
    }
  }

  lemma {:induction false} FinalFeedAll(c: Conf, pieces: seq<string>, L: Limits)
    requires c.Final()
    ensures FeedAll(c, pieces, L) == c.Plus(Concat(pieces)) == Feed(c, Concat(pieces), L)
    decreases |pieces|
  {
    if pieces == [] {
      assert c.inp + "" == c.inp;
    } else {
      FinalFeedAll(c.Plus(pieces[0]), pieces[1..], L);
      assert c.inp + pieces[0] + Concat(pieces[1..]) == c.inp + Concat(pieces);
    }
  }

  // ------------------------------------------------------------------ lines that do not fit

  /** A step needs no more input than it takes. */
  lemma StepTake(c: Conf, k: nat, L: Limits)
    requires k <= |c.inp| && Step(c, L).Some? && |c.inp| - |Step(c, L).value.inp| <= k
    ensures var d := Step(c, L).value;
            Step(c.(inp := c.inp[..k]), L) == Some(d.(inp := d.inp[..k - (|c.inp| - |d.inp|)]))
  {
    hide OnLine, BeginPayload, StepFits;
    var short := c.(inp := c.inp[..k]);
    assert c.inp == short.inp + c.inp[k..];
    LineEndTake(c.inp, k);
    StepPlus(short, c.inp[k..], L);
    assert Step(short, L).Some?;
    var d, e := Step(c, L).value, Step(short, L).value;
    assert d == e.Plus(c.inp[k..]);
    assert e.inp == d.inp[..|e.inp|];
  }

  /** Where a line does not fit, input that stops just short of the end of that line makes the
      parser give up, with more left unread than one call on the whole input leaves. */
  lemma {:induction false} UnfitLine(c: Conf, L: Limits) returns (k: nat)
    requires !LinesFit(c, L)
    ensures k <= |c.inp|
    ensures var r := Run(c.(inp := c.inp[..k]), L);
            Settle(r, L).state != r.state && |r.inp| + |c.inp| - k > |Run(c, L).inp|
    decreases |c.inp|, Rank(c.state)
  {
    hide OnLine, PayloadVerdict;
    var d := Step(c, L).value;
    if StepFits(c, L) {
      var j := UnfitLine(d, L);
      k := j + |c.inp| - |d.inp|;
      StepTake(c, k, L);
    } else {
      var n := LineEnd(c.inp);
      k := n - 1;
      LineEndTake(c.inp, k);
      assert Run(c.(inp := c.inp[..k]), L) == c.(inp := c.inp[..k]);
    }
  }

  /** From a parser with nothing unread, every way of cutting an input has the effect of one
      call on the whole exactly when every line that the one call reads fits its limit and, for a
      parser to which READ_NO_DATA is not good enough, the one call accepts no header and no trailer. */
  lemma CutIndependence(c: Conf, input: string, L: Limits)
    requires c.inp == "" && !c.Final()
    ensures LinesFit(c.Plus(input), L) && Calm(c.Plus(input), L) <==>
            forall pieces :: pieces != [] && Concat(pieces) == input ==>
              Same(FeedAll(c, pieces, L), Feed(c, input, L))
  {
    hide LinesFit, Feed, NeverAccepts;
    if LinesFit(c.Plus(input), L) && Calm(c.Plus(input), L) {
      forall pieces | pieces != [] && Concat(pieces) == input
        ensures Same(FeedAll(c, pieces, L), Feed(c, input, L))
      {
        FittingInputIsCutIndependent(c, pieces, L);
      }
    } else if !LinesFit(c.Plus(input), L) {
      var pieces := UnfitCut(c, input, L);
      assert !Same(FeedAll(c, pieces, L), Feed(c, input, L));
    } else {
      var pieces := InterruptingCut(c, input, L);
      assert !Same(FeedAll(c, pieces, L), Feed(c, input, L));
    }
  }

  lemma UnfitCut(c: Conf, input: string, L: Limits) returns (pieces: seq<string>)
    requires c.inp == "" && !c.Final() && !LinesFit(c.Plus(input), L)
    ensures pieces != [] && Concat(pieces) == input
    ensures !Same(FeedAll(c, pieces, L), Feed(c, input, L))
  {
    hide LinesFit, Run, Settle, Feed, FeedAll, Concat, Same;
    var a, b := UnfitPieces(c, input, L);
    TwoPiecesDiffer(c, a, b, L);
    pieces := [a, b];
    PairOfPieces(c, a, b, L);
  }

  lemma UnfitPieces(c: Conf, input: string, L: Limits) returns (a: string, b: string)
    requires c.inp == "" && !LinesFit(c.Plus(input), L)
    ensures a + b == input
    ensures var r := Run(c.Plus(a), L); Settle(r, L).state != r.state && |r.inp| + |b| > |Run(c.Plus(input), L).inp|
  {
    hide LinesFit, Run, Settle;
    var k := UnfitLine(c.Plus(input), L);
    a, b := input[..k], input[k..];
    PrefixPlus(c, input, k);
  }

  lemma PrefixPlus(c: Conf, input: string, k: nat)
    requires c.inp == "" && k <= |input|
    ensures var d := c.Plus(input);
            d.inp == input && d.(inp := input[..k]) == c.Plus(input[..k]) && input[..k] + input[k..] == input
  {
    assert "" + input == input && "" + input[..k] == input[..k];
  }

  lemma PairOfPieces(c: Conf, a: string, b: string, L: Limits)
    ensures Concat([a, b]) == a + b
    ensures FeedAll(c, [a, b], L) == Feed(Feed(c, a, L), b, L)
  {
    hide Feed;
    assert [a, b][1..] == [b] && [b][1..] == [];
    assert Concat([b]) == b + "" == b;
    var d := Feed(c, a, L);
    assert FeedAll(d, [b], L) == FeedAll(Feed(d, b, L), [], L);
  }

  lemma TwoPiecesDiffer(c: Conf, a: string, b: string, L: Limits)
    requires c.inp == "" && !c.Final()
    requires var r := Run(c.Plus(a), L); Settle(r, L).state != r.state && |r.inp| + |b| > |Run(c.Plus(a + b), L).inp|
    ensures !Same(Feed(Feed(c, a, L), b, L), Feed(c, a + b, L))
  {
    hide Run;
    GivingUpPlus(Run(c.Plus(a), L), b, L);
  }

  // ------------------------------------------------------------------ interruptions that matter

  predicate InHeader(s: ParseState) {
    s == STATE_HEADER_READING || s == ERROR_HEADER_TOO_LONG || s == ERROR_HEADER_LINE || s == ERROR_HEADER_BAD
  }

  predicate InTrailer(s: ParseState) {
    s == STATE_LAST_CHUNK_READ || s == ERROR_CHUNK_TRAILER_TOO_LONG || s == ERROR_CHUNK_TRAIL_HEADER
  }

  /** A parser that tolerates less than READ_NO_DATA refuses every request whose header it has
      had to wait for. */
  lemma {:induction false} InterruptedHeaderIsRefused(c: Conf, L: Limits)
    requires c.state == STATE_HEADER_READING && L.worstAccepted < READ_NO_DATA
    requires c.header.errors.worst >= READ_NO_DATA
    ensures InHeader(Run(c, L).state) && InHeader(Drive(c, L).state)
    decreases |c.inp|
  {
    hide FirstLine, FieldLine;
    if Step(c, L).Some? {
      var d := Step(c, L).value;
      if d.state == STATE_HEADER_READING {
        InterruptedHeaderIsRefused(d, L);
      } else {
        FinalIsStuck(d, L);
      }
    }
  }

  /** The same for a trailer. */
  lemma {:induction false} InterruptedTrailerIsRefused(c: Conf, L: Limits)
    requires c.state == STATE_LAST_CHUNK_READ && L.worstAccepted < READ_NO_DATA
    requires c.trail.errors.worst >= READ_NO_DATA
    ensures InTrailer(Run(c, L).state) && InTrailer(Drive(c, L).state)
    decreases |c.inp|
  {
    hide FieldLine;
    if Step(c, L).Some? {
      var d := Step(c, L).value;
      if d.state == STATE_LAST_CHUNK_READ {
        InterruptedTrailerIsRefused(d, L);
      } else {
        FinalIsStuck(d, L);
      }
    }
  }

  /** Past the header, a parser does not come back to it. */
  lemma {:induction false} PastHeader(c: Conf, L: Limits)
    requires !InHeader(c.state) && c.state != STATE_INITIALIZED
    ensures !InHeader(Run(c, L).state) && !InHeader(Drive(c, L).state)
    decreases |c.inp|, Rank(c.state)
  {
    hide ChunkVerdict, AfterFieldLine, PayloadVerdict, Merged;
    if Step(c, L).Some? {
      PastHeaderStep(c, L);
      PastHeader(Step(c, L).value, L);
    }
  }

  lemma PastHeaderStep(c: Conf, L: Limits)
    requires !InHeader(c.state) && c.state != STATE_INITIALIZED && Step(c, L).Some?
    ensures !InHeader(Step(c, L).value.state) && Step(c, L).value.state != STATE_INITIALIZED
  {
    hide AfterFieldLine, Merged, Strtol;
  }

  /** What a header that is accepted leads to. */
  lemma {:induction false} AcceptedHeader(c: Conf, L: Limits)
    requires c.state == STATE_HEADER_READING && !NeverAccepts(c, L)
    ensures !InHeader(Drive(c, L).state)
    decreases |c.inp|
  {
    hide HeaderLine;
    var d := Step(c, L).value;
    if d.state == STATE_HEADER_READING {
      AcceptedHeader(d, L);
    } else if d.state == STATE_END_OF_HEADER {
      PastHeader(d, L);
    } else {
      FinalIsStuck(d, L);
    }
  }

  lemma {:induction false} AcceptedTrailer(c: Conf, L: Limits)
    requires c.state == STATE_LAST_CHUNK_READ && !NeverAccepts(c, L)
    ensures !InTrailer(Drive(c, L).state)
    decreases |c.inp|
  {
    hide AfterFieldLine, Merged;
    var d := Step(c, L).value;
    if d.state == STATE_LAST_CHUNK_READ {
      AcceptedTrailer(d, L);
    } else {
      FinalIsStuck(d, L);
    }
  }

  /** After a part of the input, the parser is left waiting where the one call accepts. */
  ghost predicate Interrupts(c: Conf, k: nat, L: Limits)
    requires k <= |c.inp|
  {
    Feed(Drive(c.(inp := c.inp[..k]), L), c.inp[k..], L).state != Drive(c, L).state
  }

  /** A call without input raises READ_NO_DATA in the header, or trailer, it waits for. */
  lemma NothingToRead(c: Conf, L: Limits)
    requires c.inp == "" && (c.state == STATE_HEADER_READING || c.state == STATE_LAST_CHUNK_READ)
    ensures Run(c, L) == c
    ensures var s := Settle(c, L);
            if c.state == STATE_HEADER_READING
            then InHeader(s.state) && (s.Final() || s.state == c.state) && s.header.errors.worst >= READ_NO_DATA
            else InTrailer(s.state) && (s.Final() || s.state == c.state) && s.trail.errors.worst >= READ_NO_DATA
  {
    hide OnLine;
    assert Step(c, L).None?;
  }

  lemma HeaderIsInterrupted(c: Conf, L: Limits)
    requires c.state == STATE_HEADER_READING && !NeverAccepts(c, L) && L.worstAccepted < READ_NO_DATA
    ensures Interrupts(c, 0, L)
  {
    hide NeverAccepts, Run, Settle;
    AcceptedHeader(c, L);
    var short := c.(inp := c.inp[..0]);
    NothingToRead(short, L);
    var s := Settle(short, L);
    if !s.Final() {
      InterruptedHeaderIsRefused(s.Plus(c.inp[0..]), L);
    }
  }

  lemma TrailerIsInterrupted(c: Conf, L: Limits)
    requires c.state == STATE_LAST_CHUNK_READ && !NeverAccepts(c, L) && L.worstAccepted < READ_NO_DATA
    ensures Interrupts(c, 0, L)
  {
    hide NeverAccepts, Run, Settle;
    AcceptedTrailer(c, L);
    var short := c.(inp := c.inp[..0]);
    NothingToRead(short, L);
    var s := Settle(short, L);
    if !s.Final() {
      InterruptedTrailerIsRefused(s.Plus(c.inp[0..]), L);
    }
  }

  /** Where one call accepts a header or a trailer, some cut makes the parser refuse it. */
  lemma {:induction false} InterruptAt(c: Conf, L: Limits) returns (k: nat)
    requires !NeverAccepts(c, L) && L.worstAccepted < READ_NO_DATA
    ensures k <= |c.inp| && Interrupts(c, k, L)
    decreases |c.inp|, Rank(c.state)
  {
    hide Step, Settle, Interrupts;
    if c.state == STATE_HEADER_READING {
      HeaderIsInterrupted(c, L);
      k := 0;
    } else if c.state == STATE_LAST_CHUNK_READ {
      TrailerIsInterrupted(c, L);
      k := 0;
    } else {
      NoAcceptanceYet(c, L);
      var d := Step(c, L).value;
      var j := InterruptAt(d, L);
      k := j + |c.inp| - |d.inp|;
      InterruptsLater(c, k, j, L);
    }
  }

  lemma NoAcceptanceYet(c: Conf, L: Limits)
    requires !NeverAccepts(c, L) && c.state != STATE_HEADER_READING && c.state != STATE_LAST_CHUNK_READ
    ensures Step(c, L).Some? && !NeverAccepts(Step(c, L).value, L)
  {
    hide Step;
  }

  lemma InterruptsLater(c: Conf, k: nat, j: nat, L: Limits)
    requires Step(c, L).Some?
    requires var d := Step(c, L).value; j <= |d.inp| && k == j + |c.inp| - |d.inp| && Interrupts(d, j, L)
    ensures k <= |c.inp| && Interrupts(c, k, L)
  {
    hide Step, Settle;
    StepTake(c, k, L);
    StepSuffix(c, L);
    assert c.inp[k..] == Step(c, L).value.inp[j..];
  }

  /** A step takes input from the front. */
  lemma StepSuffix(c: Conf, L: Limits)
    requires Step(c, L).Some?
    ensures var d := Step(c, L).value; |d.inp| <= |c.inp| && d.inp == c.inp[|c.inp| - |d.inp|..]
  {
    hide OnLine, PayloadVerdict;
  }

  lemma InterruptingCut(c: Conf, input: string, L: Limits) returns (pieces: seq<string>)
    requires c.inp == "" && !c.Final() && !Calm(c.Plus(input), L)
    ensures pieces != [] && Concat(pieces) == input
    ensures !Same(FeedAll(c, pieces, L), Feed(c, input, L))
  {
    hide Run, Settle, NeverAccepts;
    PrefixPlus(c, input, 0);
    var k := InterruptAt(c.Plus(input), L);
    var a, b := input[..k], input[k..];
    PrefixPlus(c, input, k);
    hide Concat, FeedAll, Drive;
    pieces := [a, b];
    PairOfPieces(c, a, b, L);
  }
}
