/** Inputs on the failing side of the conditions that the other modules prove exact. */
module HttpWitness {
  import opened Collections
  import opened ByteStream
  import opened CString
  import opened HttpConsts
  import opened HttpHeader
  import opened HttpMachine
  import opened HttpCuts
  import opened HttpWriter
  import opened HttpMessages
  import opened HttpPipeline
  import opened HttpRoundTrip

  const ANY_SIZE := Limits(1000, -1, 1000, -1, false, false, true, READ_NO_DATA)

  /** A GET without a body that carries the length of some other message. */
  const STALE_LENGTH := Cleared(true).(start := StartLine(VERSION_1_1, METHOD_GET, 0, "/", "", REQUEST_LINE),
                                      section := Section(true, "", "", map[HEADER_CONTENT_LENGTH := "5"]))

  lemma FiveIsFive()
    ensures Spell(5, 10) == "5" && Strtol("5", 10) == Long(5, false)
  {
    DecimalRoundTrip(5);
    hide Strtol;
  }

  lemma StaleLengthGoesOut()
    ensures SentFields(STALE_LENGTH.Fields(), METHOD_GET, "", false) == map[HEADER_CONTENT_LENGTH := "5"]
  {
    assert |HEADER_CONTENT_LENGTH| == 14 && |HEADER_CONTENT_ENCODING| == 16;
    assert |HEADER_ACCEPT_ENCODING| == 15 && |HEADER_TRANSFER_ENCODING| == 17;
  }

  lemma StaleLengthIsClean()
    ensures CleanStart(STALE_LENGTH.start) && CleanFields(STALE_LENGTH.Fields())
  {
    hide CleanField, Spell, Strtol;
    FiveIsFive();
    OwnFieldsAreClean(5);
    assert forall k :: k in STALE_LENGTH.Fields() ==> k == HEADER_CONTENT_LENGTH && STALE_LENGTH.Fields()[k] == "5";
  }

  /** A request whose length does not agree with its body is not delivered as it was sent. */
  lemma StaleLengthIsNotDelivered()
    ensures exists order: seq<string>, L: Limits ::
              && Sendable(STALE_LENGTH, "", false, order, L)
              && var c := Fresh(true, MessageText(STALE_LENGTH, "", false, order));
                 !Delivered(Drive(c, L), STALE_LENGTH, "", false, "")
  {
    hide Strtol, HeaderText, CleanField, SentFields;
    FiveIsFive();
    StaleLengthGoesOut();
    StaleLengthIsClean();
    var order := [HEADER_CONTENT_LENGTH];
    assert Lists(order, map[HEADER_CONTENT_LENGTH := "5"]);
    var L := ANY_SIZE.(maxHeader := |HeaderText(Sent(STALE_LENGTH, "", false), order)|);
    assert Sendable(STALE_LENGTH, "", false, order, L);
    var text := MessageText(STALE_LENGTH, "", false, order);
    var c := Fresh(true, text);
    assert text + "" == text;
    assert !LengthAgrees(STALE_LENGTH, "");
    hide MessageText, Drive, Delivered, LinesFit, LengthAgrees;
    MessageRoundTrip(c, STALE_LENGTH, "", false, order, "", L);
  }

  /** A line that does not fit while it waits. */
  lemma LongLineDoesNotFit()
    ensures var L := ANY_SIZE.(maxHeader := 1); !LinesFit(Fresh(true, "").Plus("abc" + CRLF), L)
  {
    var L := ANY_SIZE.(maxHeader := 1);
    var c := Fresh(true, "").Plus("abc" + CRLF);
    assert c.inp == "abc" + CRLF + "";
    LineEndOfLine("abc", "");
    var d := BeginMessage(c);
    hide OnLine, LineEnd;
    assert Step(c, L) == Some(d) && Step(d, L).Some? && !StepFits(d, L);
  }

  /** A parser that accepts less than READ_NO_DATA accepts an empty trailer that arrives at once. */
  lemma EmptyTrailerIsAccepted()
    ensures var L := ANY_SIZE.(worstAccepted := READ_OK);
            !Calm(Fresh(true, "").(state := STATE_LAST_CHUNK_READ).Plus(CRLF), L)
  {
    var L := ANY_SIZE.(worstAccepted := READ_OK);
    var c := Fresh(true, "").(state := STATE_LAST_CHUNK_READ).Plus(CRLF);
    assert c.inp == "" + CRLF + "";
    LineEndOfLine("", "");
    hide LineEnd, OnLine;
    EmptyTrailerLine(c.(inp := ""), L);
    assert Step(c, L) == Some(AfterLastChunk(c.(inp := "")));
  }
}
