/** The trailer of a chunked body: what its lines add to the header. */
module HttpTrailer {
  import opened Collections
  import opened ByteStream
  import opened CString
  import opened HttpConsts
  import opened HttpHeader
  import opened HttpFields
  import opened HttpMachine
  import opened HttpWriter
  import opened HttpCuts
  import opened HttpRoundTrip

  /** The last chunk, the lines of the trailer and the empty line. */
  function TrailerText(lines: seq<string>): string {
    "0" + CRLF + LinesText(lines) + CRLF
  }

  /** A name keeps what the header held under it, unless that was empty, and gets what the trailer has
      for it: its contents joined with commas. */
  ghost predicate ExtendedUnder(own: FieldMap, entries: seq<Entry>, after: FieldMap, name: string) {
    var added := Under(entries, true, name);
    && (name in after <==> name in own || added != [])
    && (name in after ==>
          after[name] == if added == [] then own[name]
                         else if name in own && own[name] != "" then own[name] + ", " + Joined(added, ", ")
                         else Joined(added, ", "))
  }

  ghost predicate Extended(own: FieldMap, entries: seq<Entry>, after: FieldMap) {
    forall name: string :: ExtendedUnder(own, entries, after, name)
  }

  // ------------------------------------------------------------------ what is stored is valid

  lemma LettersAreTokens(c: char)
    ensures IsAlpha(c) ==> IsTokenChar(c) && IsTokenChar(ToUpper(c)) && IsTokenChar(ToLower(c))
    ensures IsTokenChar('-') && (IsTokenChar(c) ==> !IsLwfChar(c) && !IsWhiteSpace(c) && c != '\0')
  {
  }

  lemma {:induction false} CapitalizedIsToken(s: string, up: bool)
    requires forall i :: 0 <= i < |s| ==> IsTokenChar(s[i]) || IsWhiteSpace(s[i])
    ensures forall i :: 0 <= i < |s| ==> IsTokenChar(Capitalize(s, up)[i])
    decreases |s|
  {
    hide IsTokenChar;
    if s != "" && s[0] != '\0' {
      LettersAreTokens(s[0]);
      CapitalizedIsToken(s[1..], !IsAlpha(s[0]));
      var r, t := Capitalize(s, up), Capitalize(s[1..], !IsAlpha(s[0]));
      assert forall i :: 1 <= i < |s| ==> r[i] == t[i - 1];
    } else if s != "" {
      LettersAreTokens(s[0]);
    }
  }

  lemma NormalNameIsValid(name: string)
    requires IsValidFieldName(name)
    ensures IsValidFieldName(NormalizeFieldName(name))
  {
    hide IsTokenChar, Capitalize, SkipLwf;
    LettersAreTokens(name[0]);
    var t := TrimLwfBack(name);
    TrimmedKeepsFront(name);
    assert SkipLwf(t) == t;
    CapitalizedIsToken(t, true);
  }

  lemma {:induction false} TrimmedKeepsFront(s: string)
    requires s != "" && !IsLwfChar(s[0])
    ensures var t := TrimLwfBack(s); t != "" && t[0] == s[0]
    decreases |s|
  {
    if IsLwfChar(s[|s| - 1]) {
      TrimmedKeepsFront(s[..|s| - 1]);
    }
  }

  lemma {:induction false} StoredIsValid(entries: seq<Entry>, name: string)
    requires Under(entries, true, name) != []
    ensures IsValidFieldName(name) && IsValidFieldContent(Joined(Under(entries, true, name), ", "))
    decreases |entries|
  {
    hide IsValidFieldName, NormalizeFieldName;
    var e, rest := entries[0], Under(entries[1..], true, name);
    if NormalizeFieldName(e.name) == name && IsGood(e) {
      NormalNameIsValid(e.name);
      if rest != [] {
        StoredIsValid(entries[1..], name);
        assert ([e.content] + rest)[1..] == rest;
      } else {
        assert [e.content] + rest == [e.content];
      }
    } else {
      assert [] + rest == rest;
      StoredIsValid(entries[1..], name);
    }
  }

  /** Merging what the trailer holds extends the fields. */
  lemma MergedExtends(own: FieldMap, entries: seq<Entry>, trail: FieldMap)
    requires Collects(map[], entries, true, trail)
    ensures Extended(own, entries, Merged(own, trail))
  {
    hide IsValidFieldName, IsValidFieldContent, Under, Joined;
    forall name: string ensures ExtendedUnder(own, entries, Merged(own, trail), name) {
      assert CollectsUnder(map[], entries, true, trail, name);
      assert [] + Under(entries, true, name) == Under(entries, true, name);
      if Under(entries, true, name) != [] {
        StoredIsValid(entries, name);
      }
    }
  }

  // ------------------------------------------------------------------ reading the trailer

  /** The trailer once its lines and the empty line have been read. */
  function TrailAfter(t: HeaderState, lines: seq<string>): HeaderState {
    var (section, errors) := SectionAfter(t.section, t.errors, lines);
    t.(bytesParsed := t.bytesParsed + |LinesText(lines)| + 2, section := section, errors := errors)
  }

  lemma TrailerLineLeads(c: Conf, line: string, more: string, L: Limits)
    requires c.state == STATE_LAST_CHUNK_READ && (line == "" || IsLine(line)) && c.inp == line + CRLF + more
    requires c.trail.bytesParsed + |line| + 2 <= L.maxHeader + 1
    ensures Leads(c, AfterTrailerLine(c.(inp := more), line, L), L)
  {
    hide AfterTrailerLine, LineEnd, Run, LinesFit, IsLine;
    FirstLineIs(line, more);
    StepLeads(c, L);
  }

  lemma {:induction false} TrailerLeads(c: Conf, lines: seq<string>, tail: string, L: Limits)
    requires c.state == STATE_LAST_CHUNK_READ && c.inp == LinesText(lines) + CRLF + tail
    requires forall line :: line in lines ==> IsLine(line)
    requires c.trail.bytesParsed + |LinesText(lines)| + 2 <= L.maxHeader + 1
    ensures Leads(c, AfterTrailer(c.(trail := TrailAfter(c.trail, lines), inp := tail), L), L)
    decreases |lines|
  {
    hide Leads, IsLine, AfterTrailer, FieldLine, Raised;
    if lines == [] {
      assert c.inp == "" + CRLF + tail;
      TrailerLineLeads(c, "", tail, L);
    } else {
      var line, more := lines[0], LinesText(lines[1..]) + CRLF + tail;
      assert line in lines && forall l :: l in lines[1..] ==> l in lines;
      assert c.inp == line + CRLF + more;
      NotEmptyLine(line);
      TrailerLineLeads(c, line, more, L);
      var d := c.(inp := more, trail := AfterFieldLine(c.trail, line).0);
      TrailerLeads(d, lines[1..], tail, L);
      LeadsOn(c, d, AfterTrailer(d.(trail := TrailAfter(d.trail, lines[1..]), inp := tail), L), L);
    }
  }

  /** What the trailer raises is tolerated. */
  predicate TrailerAccepted(lines: seq<string>, L: Limits) {
    WorstOf(HasStray(lines, false), AllGood(EntriesOf(lines))) <= L.worstAccepted
  }

  /** Where the parser ends: the trailer has extended the fields, or is refused, and nothing else in the
      header has changed. */
  ghost predicate TrailerRead(before: HeaderState, lines: seq<string>, state: ParseState, after: HeaderState, L: Limits) {
    if TrailerAccepted(lines, L) then
      && state == STATE_END_OF_TRAIL_HEADER
      && after == before.(section := before.section.(fields := after.Fields()))
      && Extended(before.Fields(), EntriesOf(lines), after.Fields())
    else state == ERROR_CHUNK_TRAIL_HEADER && after == before
  }

  lemma TrailerEnds(c: Conf, lines: seq<string>, L: Limits)
    requires c.trail == Cleared(true) && forall line :: line in lines ==> line != ""
    ensures var d := AfterTrailer(c.(trail := TrailAfter(c.trail, lines)), L);
            && d == c.(trail := TrailAfter(c.trail, lines), header := d.header, state := d.state)
            && TrailerRead(c.header, lines, d.state, d.header, L)
  {
    hide Collects, EntriesOf, SectionAfter, HasStray, AllGood, Merged, Extended;
    var s := c.trail.section;
    SectionMeans(s, c.trail.errors, lines);
    ErrorsMean(s, c.trail.errors, lines);
    assert Waiting(s, lines) + EntriesOf(lines) == EntriesOf(lines);
    MergedExtends(c.header.Fields(), EntriesOf(lines), SectionAfter(s, c.trail.errors, lines).0.fields);
  }

  lemma SizeLineOfTrailer(c: Conf, lines: seq<string>, tail: string, L: Limits)
    requires c.state == STATE_CHUNK_HEAD_READING && c.inp == TrailerText(lines) + tail && L.maxHeader >= 10
    ensures Leads(c, c.(inp := LinesText(lines) + CRLF + tail, state := STATE_LAST_CHUNK_READ), L)
  {
    hide Leads, LineEnd, OnLine, LinesText;
    var more := LinesText(lines) + CRLF + tail;
    assert c.inp == "0" + CRLF + more;
    LineLeads(c, "0", more, L);
    LastSizeLine(c.(inp := more), L);
  }

  /** The last chunk with a trailer: the header holds its own fields and those of the trailer. */
  lemma TrailerRoundTrip(c: Conf, lines: seq<string>, tail: string, L: Limits)
    requires c.state == STATE_CHUNK_HEAD_READING && c.trail == Cleared(true) && c.inp == TrailerText(lines) + tail
    requires forall line :: line in lines ==> IsLine(line)
    requires L.maxHeader >= 10 && |LinesText(lines)| + 2 <= L.maxHeader + 1
    ensures var r := Drive(c, L);
            && TrailerRead(c.header, lines, r.state, r.header, L)
            && r.inp == tail && r.out == c.out && r.numChunks == c.numChunks
    ensures LinesFit(c, L)
  {
    assert forall line :: line in lines ==> line != "";
    hide Run, LinesFit, IsLine, LinesText, TrailerRead, SectionAfter, TrailerText, AfterTrailer;
    var d := c.(inp := LinesText(lines) + CRLF + tail, state := STATE_LAST_CHUNK_READ);
    SizeLineOfTrailer(c, lines, tail, L);
    TrailerLeads(d, lines, tail, L);
    TrailerEnds(d.(inp := tail), lines, L);
    FinalIsStuck(AfterTrailer(d.(trail := TrailAfter(d.trail, lines), inp := tail), L), L);
  }

  /** Flushes and a trailer, as a writer that has trailers would send them. */
  lemma TrailedRoundTrip(c: Conf, flushes: seq<string>, maxChunkSize: int, lines: seq<string>, tail: string, L: Limits)
    requires c.state == STATE_CHUNK_HEAD_READING && c.chunkLeft == 0 && c.trail == Cleared(true)
    requires forall f :: f in flushes ==> f != "" && FitsWord(f, EffectiveLimit(maxChunkSize))
    requires Admits(L, c, EffectiveLimit(maxChunkSize), TotalChunks(flushes, maxChunkSize))
    requires (forall line :: line in lines ==> IsLine(line)) && |LinesText(lines)| + 2 <= L.maxHeader + 1
    requires c.inp == FlushesText(flushes, maxChunkSize) + TrailerText(lines) + tail
    ensures var r := Drive(c, L);
            && TrailerRead(c.header, lines, r.state, r.header, L)
            && r.out == c.out + Concat(flushes)
            && r.numChunks == c.numChunks + TotalChunks(flushes, maxChunkSize)
            && r.inp == tail
    ensures LinesFit(c, L)
  {
    hide Run, LinesFit, FlushesText, TrailerText, LinesText, IsLine, TrailerRead, Settle;
    var rest := TrailerText(lines) + tail;
    assert c.inp == FlushesText(flushes, maxChunkSize) + rest;
    FlushesLead(c, flushes, maxChunkSize, rest, L);
    var d := AfterChunks(c, Concat(flushes), TotalChunks(flushes, maxChunkSize), rest);
    TrailerRoundTrip(d, lines, tail, L);
  }

  /** The same however the bytes on the wire are cut. */
  lemma TrailedAnyCut(
    c: Conf, flushes: seq<string>, maxChunkSize: int, lines: seq<string>, tail: string, pieces: seq<string>, L: Limits)
    requires c.state == STATE_CHUNK_HEAD_READING && c.chunkLeft == 0 && c.trail == Cleared(true) && c.inp == ""
    requires forall f :: f in flushes ==> f != "" && FitsWord(f, EffectiveLimit(maxChunkSize))
    requires Admits(L, c, EffectiveLimit(maxChunkSize), TotalChunks(flushes, maxChunkSize))
    requires (forall line :: line in lines ==> IsLine(line)) && |LinesText(lines)| + 2 <= L.maxHeader + 1
    requires L.worstAccepted >= READ_NO_DATA
    requires pieces != [] && Concat(pieces) == FlushesText(flushes, maxChunkSize) + TrailerText(lines) + tail
    ensures var r := FeedAll(c, pieces, L);
            && (r.state == STATE_END_OF_TRAIL_HEADER <==> TrailerAccepted(lines, L))
            && (TrailerAccepted(lines, L) ==> Extended(c.header.Fields(), EntriesOf(lines), r.header.Fields()))
            && r.out == c.out + Concat(flushes)
            && r.numChunks == c.numChunks + TotalChunks(flushes, maxChunkSize)
            && r.inp == tail
  {
    hide LinesFit, FlushesText, Drive, FeedAll, TrailerText, LinesText, IsLine, TrailerAccepted, Extended;
    var d := c.Plus(Concat(pieces));
    assert d.inp == Concat(pieces);
    TrailedRoundTrip(d, flushes, maxChunkSize, lines, tail, L);
    FittingInputIsCutIndependent(c, pieces, L);
    assert Feed(c, Concat(pieces), L) == Drive(d, L);
  }
}
