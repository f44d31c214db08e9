/** What the lines of a header mean, for every list of lines: which fields they spell, and what is
    stored when names repeat. */
module HttpFields {
  import opened Collections
  import opened ByteStream
  import opened HttpConsts
  import opened HttpHeader

  datatype Entry = Entry(name: string, content: string)

  /** A non-empty line, without its CRLF. */
  predicate IsLine(line: string) { line != "" && LineEnd(line + CRLF) == |line| + 2 }

  function LinesText(lines: seq<string>): string {
    if lines == [] then "" else lines[0] + CRLF + LinesText(lines[1..])
  }

  // ------------------------------------------------------------------ what lines spell

  /** A line that goes on with the field before it. */
  predicate Continues(line: string) { line != "" && IsLwfChar(line[0]) }

  /** A line that begins a field. */
  predicate Begins(line: string) { line != "" && !IsLwfChar(line[0]) && ':' in line && line[0] != ':' }

  /** What the lines that directly follow add to a field, each behind one blank. */
  function MoreContent(lines: seq<string>): string {
    if lines == [] || !Continues(lines[0]) then "" else " " + SkipLwf(lines[0]) + MoreContent(lines[1..])
  }

  function EntryOf(line: string, more: seq<string>): Entry {
    var colon := Find(line, ':');
    Entry(line[..colon], (if colon < |line| then SkipLwf(line[colon + 1..]) else "") + MoreContent(more))
  }

  /** The fields in the order in which they are spelled. */
  function EntriesOf(lines: seq<string>): seq<Entry> {
    if lines == [] then []
    else (if Begins(lines[0]) then [EntryOf(lines[0], lines[1..])] else []) + EntriesOf(lines[1..])
  }

  /** A line with no field to belong to; `open` says whether one has begun before. */
  predicate HasStray(lines: seq<string>, open: bool) {
    lines != [] &&
    if Continues(lines[0]) then !open || HasStray(lines[1..], open)
    else ':' !in lines[0] || HasStray(lines[1..], Begins(lines[0]))
  }

  predicate IsGood(e: Entry) { IsValidFieldName(e.name) && IsValidFieldContent(e.content) }

  predicate AllGood(entries: seq<Entry>) { forall e :: e in entries ==> IsGood(e) }

  /** The contents of the fields of that name, in order; a strict header drops the bad ones. */
  function Under(entries: seq<Entry>, strict: bool, name: string): seq<string> {
    if entries == [] then []
    else
      var e := entries[0];
      (if NormalizeFieldName(e.name) == name && (strict ==> IsGood(e)) then [e.content] else []) + Under(entries[1..], strict, name)
  }

  /** Under each name there are the contents that were there before and those of the entries, in
      order, separated by commas. */
  ghost predicate Collects(before: FieldMap, entries: seq<Entry>, strict: bool, after: FieldMap) {
    forall name: string :: CollectsUnder(before, entries, strict, after, name)
  }

  predicate CollectsUnder(before: FieldMap, entries: seq<Entry>, strict: bool, after: FieldMap, name: string) {
    var all := (if name in before then [before[name]] else []) + Under(entries, strict, name);
    && (name in after <==> all != [])
    && (name in after ==> after[name] == Joined(all, ", "))
  }

  // ------------------------------------------------------------------ collecting in turn

  lemma {:induction false} UnderConcat(a: seq<Entry>, b: seq<Entry>, strict: bool, name: string)
    ensures Under(a + b, strict, name) == Under(a, strict, name) + Under(b, strict, name)
  {
    hide IsGood, NormalizeFieldName;
    if a == [] {
      assert a + b == b;
    } else {
      assert (a + b)[0] == a[0] && (a + b)[1..] == a[1..] + b;
      UnderConcat(a[1..], b, strict, name);
      var first := if NormalizeFieldName(a[0].name) == name && (strict ==> IsGood(a[0])) then [a[0].content] else [];
      assert (first + Under(a[1..], strict, name)) + Under(b, strict, name) ==
             first + (Under(a[1..], strict, name) + Under(b, strict, name));
    }
  }

  lemma {:induction false} JoinedOnce(first: seq<string>, second: seq<string>, sep: string)
    requires first != []
    ensures Joined([Joined(first, sep)] + second, sep) == Joined(first + second, sep)
  {
    if |first| == 1 {
      assert first == [first[0]];
    } else if second == [] {
      assert first + second == first && [Joined(first, sep)] + second == [Joined(first, sep)];
    } else {
      assert (first + second)[1..] == first[1..] + second;
      assert ([Joined(first, sep)] + second)[1..] == second && ([Joined(first[1..], sep)] + second)[1..] == second;
      JoinedOnce(first[1..], second, sep);
    }
  }

  lemma CollectsOn(before: FieldMap, a: seq<Entry>, mid: FieldMap, b: seq<Entry>, after: FieldMap, strict: bool)
    requires Collects(before, a, strict, mid) && Collects(mid, b, strict, after)
    ensures Collects(before, a + b, strict, after)
  {
    hide Under, Joined;
    forall name: string ensures CollectsUnder(before, a + b, strict, after, name) {
      assert CollectsUnder(before, a, strict, mid, name) && CollectsUnder(mid, b, strict, after, name);
      UnderConcat(a, b, strict, name);
      var own := if name in before then [before[name]] else [];
      var first, second := own + Under(a, strict, name), Under(b, strict, name);
      assert own + (Under(a, strict, name) + second) == first + second;
      if first != [] {
        JoinedOnce(first, second, ", ");
      } else {
        assert first + second == second;
      }
    }
  }

  lemma JoinedTwo(a: string, b: string, sep: string)
    ensures Joined([a, b], sep) == a + sep + b
  {
    assert [a, b][1..] == [b];
  }

  /** What is waiting to be added, once the lines that follow have been read. */
  function Waiting(s: Section, lines: seq<string>): seq<Entry> {
    if s.crtName == "" then [] else [Entry(s.crtName, s.crtContent + MoreContent(lines))]
  }

  lemma FlushCollects(s: Section)
    ensures Collects(s.fields, Waiting(s, []), s.strict, Flushed(s).0.fields)
    ensures Flushed(s).1 == AllGood(Waiting(s, []))
  {
    hide NormalizeFieldName, IsValidFieldName, IsValidFieldContent;
    var entries, after := Waiting(s, []), Flushed(s).0.fields;
    if s.crtName != "" {
      var e := Entry(s.crtName, s.crtContent);
      assert s.crtContent + MoreContent([]) == s.crtContent;
      assert entries == [e] && e in entries && entries[1..] == [];
      forall name: string ensures CollectsUnder(s.fields, entries, s.strict, after, name) {
        assert Under([], s.strict, name) == [];
        assert Under(entries, s.strict, name) ==
               if NormalizeFieldName(e.name) == name && (s.strict ==> IsGood(e)) then [e.content] else [];
        if name in s.fields {
          assert [s.fields[name]] + [e.content] == [s.fields[name], e.content];
          JoinedTwo(s.fields[name], e.content, ", ");
        }
      }
    }
  }

  // ------------------------------------------------------------------ parsing the lines

  lemma WaitingOn(s: Section, line: string, rest: seq<string>)
    requires Continues(line) && s.crtName != ""
    ensures var t := s.(crtContent := s.crtContent + " " + SkipLwf(line)); Waiting(s, [line] + rest) == Waiting(t, rest)
    ensures EntriesOf([line] + rest) == EntriesOf(rest)
  {
    var lines := [line] + rest;
    assert lines[0] == line && lines[1..] == rest;
    assert s.crtContent + (" " + SkipLwf(line) + MoreContent(rest)) == s.crtContent + " " + SkipLwf(line) + MoreContent(rest);
  }

  /** A line that belongs to no field that is waiting. */
  lemma WaitingAnew(s: Section, line: string, rest: seq<string>)
    requires line != "" && (s.crtName == "" || !Continues(line))
    ensures Waiting(s, [line] + rest) == Waiting(s, [])
    ensures EntriesOf([line] + rest) == (if Begins(line) then [EntryOf(line, rest)] else []) + EntriesOf(rest)
  {
    var lines := [line] + rest;
    assert lines[0] == line && lines[1..] == rest;
    assert !Continues(line) ==> MoreContent(lines) == "";
    assert s.crtContent + MoreContent([]) == s.crtContent;
  }

  /** What a line that begins no continuation leaves waiting. */
  lemma LineWaits(s: Section, line: string, rest: seq<string>)
    requires line != "" && !Continues(line)
    ensures var t := FieldLine(s, line).0;
            && t.fields == Flushed(s).0.fields && t.strict == s.strict && (t.crtName != "" <==> Begins(line))
            && Waiting(t, rest) == if Begins(line) then [EntryOf(line, rest)] else []
    ensures FieldLine(s, line).1 == SpecErrors(Flushed(s).1) + (if ':' in line then [] else [READ_NO_FIELD])
  {
    hide Flushed, SkipLwf, MoreContent;
    var colon := Find(line, ':');
    assert ':' in line <==> colon < |line|;
    assert line[0] == ':' <==> colon == 0;
  }

  /** The worst of two errors that matter, or READ_OK. */
  function WorstOf(stray: bool, good: bool): ParseError {
    if stray then READ_NO_FIELD else if good then READ_OK else READ_BAD_FIELD_SPEC
  }

  /** Reading the lines, and then the empty line, in a section. */
  function SectionAfter(s: Section, e: Errors, lines: seq<string>): (Section, Errors)
    decreases |lines|
  {
    if lines == [] then
      var (t, raised, done) := FieldLine(s, "");
      (t, Raised(e, raised))
    else
      var (t, raised, done) := FieldLine(s, lines[0]);
      SectionAfter(t, Raised(e, raised), lines[1..])
  }

  lemma {:induction false} LinesAreRead(h: HeaderState, lines: seq<string>, tail: string, expected: FirstLineType)
    requires h.bytesParsed > 0 && forall line :: line in lines ==> IsLine(line)
    ensures var (section, errors) := SectionAfter(h.section, h.errors, lines);
            ParseLines(h, LinesText(lines) + CRLF + tail, expected) ==
            Parsed(h.(bytesParsed := h.bytesParsed + |LinesText(lines)| + 2, section := section, errors := errors), tail, true)
    decreases |lines|
  {
    hide FieldLine, LineEnd, Raised, IsLine;
    var line := if lines == [] then "" else lines[0];
    var more := if lines == [] then tail else LinesText(lines[1..]) + CRLF + tail;
    assert LinesText(lines) + CRLF + tail == line + CRLF + more;
    FirstLineIs(line, more);
    if lines != [] {
      assert line in lines && forall l :: l in lines[1..] ==> l in lines;
      NotEmptyLine(line);
      LinesAreRead(AfterFieldLine(h, line).0, lines[1..], tail, expected);
    }
  }

  lemma NotEmptyLine(line: string)
    requires IsLine(line)
    ensures line != ""
  {
  }

  lemma FirstLineIs(line: string, more: string)
    requires line == "" || IsLine(line)
    ensures var text := line + CRLF + more;
            LineEnd(text) == |line| + 2 && text[..|line|] == line && text[|line| + 2..] == more
  {
    if line == "" {
      LineEndOfLine("", "");
      assert "" + CRLF + "" == "" + CRLF;
    }
    LineEndAppend(line + CRLF, more);
  }

  ghost predicate Means(s: Section, lines: seq<string>, after: Section) {
    after == Section(s.strict, "", "", after.fields) && Collects(s.fields, Waiting(s, lines) + EntriesOf(lines), s.strict, after.fields)
  }

  lemma {:induction false} SectionMeans(s: Section, e: Errors, lines: seq<string>)
    requires forall line :: line in lines ==> line != ""
    ensures Means(s, lines, SectionAfter(s, e, lines).0)
    decreases |lines|
  {
    hide Collects, Waiting, EntriesOf, Flushed, FieldLine, Raised, SkipLwf, Find, MoreContent;
    if lines == [] {
      EndMeans(s);
    } else {
      var line, rest := lines[0], lines[1..];
      assert lines == [line] + rest && line in lines && forall l :: l in rest ==> l in lines;
      var t, raised := FieldLine(s, line).0, FieldLine(s, line).1;
      SectionMeans(t, Raised(e, raised), rest);
      var after := SectionAfter(s, e, lines).0;
      if Continues(line) {
        ContinuedMeans(s, line, rest, after);
      } else {
        LineMeans(s, line, rest, after);
      }
    }
  }

  lemma EndMeans(s: Section)
    ensures Means(s, [], FieldLine(s, "").0)
  {
    hide Collects, Waiting;
    FlushCollects(s);
    assert Waiting(s, []) + EntriesOf([]) == Waiting(s, []);
  }

  lemma ContinuedMeans(s: Section, line: string, rest: seq<string>, after: Section)
    requires Continues(line) && Means(FieldLine(s, line).0, rest, after)
    ensures Means(s, [line] + rest, after)
  {
    hide Collects;
    if s.crtName != "" {
      WaitingOn(s, line, rest);
    } else {
      WaitingAnew(s, line, rest);
      assert [] + EntriesOf(rest) == EntriesOf(rest);
    }
  }

  lemma LineMeans(s: Section, line: string, rest: seq<string>, after: Section)
    requires line != "" && !Continues(line) && Means(FieldLine(s, line).0, rest, after)
    ensures Means(s, [line] + rest, after)
  {
    hide Collects, Waiting, EntriesOf, Flushed, FieldLine, Find, MoreContent;
    var t := FieldLine(s, line).0;
    LineWaits(s, line, rest);
    WaitingAnew(s, line, rest);
    FlushCollects(s);
    var first, others := Waiting(s, []), Waiting(t, rest) + EntriesOf(rest);
    CollectsOn(s.fields, first, t.fields, others, after.fields, s.strict);
    assert [] + EntriesOf(rest) == EntriesOf(rest);
  }

  // ------------------------------------------------------------------ the errors

  lemma AllGoodConcat(a: seq<Entry>, b: seq<Entry>)
    ensures AllGood(a + b) <==> AllGood(a) && AllGood(b)
  {
    hide IsGood;
    assert forall e :: e in a + b <==> e in a || e in b;
  }

  lemma RaisedInTurn(e: Errors, ok: bool, others: seq<ParseError>)
    requires |others| <= 1
    ensures var r := Raised(e, SpecErrors(ok) + others);
            r.worst == Worst(e.worst, Worst(if ok then e.worst else READ_BAD_FIELD_SPEC, if others == [] then e.worst else others[0]))
  {
    if others == [] {
      assert SpecErrors(ok) + others == SpecErrors(ok);
    } else {
      assert others == [others[0]];
      assert ([READ_BAD_FIELD_SPEC] + others)[1..] == others;
      assert [] + others == others;
    }
  }

  lemma {:induction false} ErrorsMean(s: Section, e: Errors, lines: seq<string>)
    requires forall line :: line in lines ==> line != ""
    ensures SectionAfter(s, e, lines).1.worst ==
            Worst(e.worst, WorstOf(HasStray(lines, s.crtName != ""), AllGood(Waiting(s, lines) + EntriesOf(lines))))
    decreases |lines|
  {
    hide Waiting, EntriesOf, Flushed, SkipLwf, Find, MoreContent, AllGood, Begins;
    if lines == [] {
      FlushCollects(s);
      assert Waiting(s, []) + EntriesOf([]) == Waiting(s, []) by { NoEntries(); }
    } else {
      var line, rest := lines[0], lines[1..];
      assert lines == [line] + rest && line in lines && forall l :: l in rest ==> l in lines;
      var t, raised := FieldLine(s, line).0, FieldLine(s, line).1;
      ErrorsMean(t, Raised(e, raised), rest);
      hide SectionAfter;
      if Continues(line) {
        if s.crtName != "" {
          WaitingOn(s, line, rest);
        }
      } else {
        hide FieldLine;
        LineErrors(s, e, line, rest);
      }
    }
  }

  lemma LineErrors(s: Section, e: Errors, line: string, rest: seq<string>)
    requires line != "" && !Continues(line)
    ensures var t, raised := FieldLine(s, line).0, FieldLine(s, line).1;
            Worst(Raised(e, raised).worst, WorstOf(HasStray(rest, t.crtName != ""), AllGood(Waiting(t, rest) + EntriesOf(rest)))) ==
            Worst(e.worst, WorstOf(HasStray([line] + rest, s.crtName != ""), AllGood(Waiting(s, [line] + rest) + EntriesOf([line] + rest))))
  {
    hide Waiting, EntriesOf, Flushed, AllGood, Begins, Continues, FieldLine, Raised;
    var t := FieldLine(s, line).0;
    LineWaits(s, line, rest);
    WaitingAnew(s, line, rest);
    FlushCollects(s);
    RaisedInTurn(e, Flushed(s).1, if ':' in line then [] else [READ_NO_FIELD]);
    assert [] + EntriesOf(rest) == EntriesOf(rest);
    AllGoodConcat(Waiting(s, []), Waiting(t, rest) + EntriesOf(rest));
    assert ([line] + rest)[0] == line && ([line] + rest)[1..] == rest;
  }

  lemma NoEntries()
    ensures EntriesOf([]) == []
  {
  }

  // ------------------------------------------------------------------ any list of lines

  /** Whatever the lines in front of the empty line are: under each name the header holds what it
      held and the contents of the fields of that name, in order, joined with commas, where a content
      that goes on over several lines is joined with blanks; and the worst error tells whether a
      line belonged to no field or a field was bad. */
  lemma AnyLines(h: HeaderState, lines: seq<string>, tail: string, expected: FirstLineType)
    requires h.bytesParsed > 0 && h.section.crtName == "" && forall line :: line in lines ==> IsLine(line)
    ensures var r := ParseLines(h, LinesText(lines) + CRLF + tail, expected);
            && r.done && r.rest == tail && r.header.start == h.start
            && r.header.section == Section(h.section.strict, "", "", r.header.Fields())
            && r.header.bytesParsed == h.bytesParsed + |LinesText(lines)| + 2
            && Collects(h.Fields(), EntriesOf(lines), h.section.strict, r.header.Fields())
            && r.header.errors.worst == Worst(h.errors.worst, WorstOf(HasStray(lines, false), AllGood(EntriesOf(lines))))
  {
    assert forall line :: line in lines ==> line != "";
    hide Collects, EntriesOf, SectionAfter, HasStray, AllGood, WorstOf, IsLine;
    LinesAreRead(h, lines, tail, expected);
    SectionMeans(h.section, h.errors, lines);
    ErrorsMean(h.section, h.errors, lines);
    assert Waiting(h.section, lines) + EntriesOf(lines) == EntriesOf(lines);
  }

  // ------------------------------------------------------------------ fields as they are written

  /** A field that is written over one line or several. */
  datatype Spelled = Spelled(name: string, first: string, more: seq<string>)

  predicate CleanPart(part: string) {
    IsValidFieldContent(part) && '\n' !in part && (part == "" || !IsLwfChar(part[0]))
  }

  predicate CleanSpelled(f: Spelled) {
    IsValidFieldName(f.name) && CleanPart(f.first) && forall part :: part in f.more ==> CleanPart(part)
  }

  function MoreLines(parts: seq<string>): seq<string> {
    if parts == [] then [] else [" " + parts[0]] + MoreLines(parts[1..])
  }

  function LinesOf(fields: seq<Spelled>): seq<string> {
    if fields == [] then []
    else [fields[0].name + ": " + fields[0].first] + (MoreLines(fields[0].more) + LinesOf(fields[1..]))
  }

  function EntryWritten(f: Spelled): Entry { Entry(f.name, Joined([f.first] + f.more, " ")) }

  function Entries(fields: seq<Spelled>): seq<Entry> {
    if fields == [] then [] else [EntryWritten(fields[0])] + Entries(fields[1..])
  }

  lemma PlainLine(line: string)
    requires line != "" && '\n' !in line
    ensures IsLine(line)
  {
    LineEndOfLine(line, "");
    assert line + CRLF + "" == line + CRLF;
  }

  /** What a part adds to a field when it stands on a line of its own. */
  lemma PartLine(part: string)
    requires CleanPart(part)
    ensures Continues(" " + part) && SkipLwf(" " + part) == part && IsLine(" " + part)
  {
    assert (" " + part)[1..] == part;
    assert SkipLwf(" " + part) == SkipLwf(part);
    PlainLine(" " + part);
  }

  lemma {:induction false} PartsContinue(first: string, parts: seq<string>, rest: seq<string>)
    requires (forall part :: part in parts ==> CleanPart(part)) && (rest == [] || !Continues(rest[0]))
    ensures first + MoreContent(MoreLines(parts) + rest) == Joined([first] + parts, " ")
    decreases |parts|
  {
    hide CleanPart, SkipLwf, Continues;
    if parts == [] {
      assert MoreLines(parts) + rest == rest && [first] + parts == [first];
    } else {
      hide MoreContent, Joined;
      var part, lines := parts[0], MoreLines(parts[1..]) + rest;
      assert part in parts && forall q :: q in parts[1..] ==> q in parts;
      PartsContinue(part, parts[1..], rest);
      JoinedFront(first, parts, " ");
      assert parts == [part] + parts[1..];
      PartFirst(part, MoreLines(parts[1..]), rest);
      Spliced(first, part, MoreContent(lines));
    }
  }

  lemma Spliced(a: string, b: string, c: string)
    ensures a + (" " + b + c) == a + " " + (b + c)
  {
  }

  lemma PartFirst(part: string, more: seq<string>, rest: seq<string>)
    requires CleanPart(part)
    ensures MoreContent([" " + part] + more + rest) == " " + part + MoreContent(more + rest)
  {
    PartLine(part);
    FrontLine(" " + part, more, rest);
  }

  lemma FrontLine(line: string, lines: seq<string>, rest: seq<string>)
    ensures var all := [line] + lines + rest; all[0] == line && all[1..] == lines + rest
  {
  }

  lemma JoinedFront(first: string, texts: seq<string>, sep: string)
    requires texts != []
    ensures Joined([first] + texts, sep) == first + sep + Joined(texts, sep)
  {
    assert ([first] + texts)[1..] == texts;
  }

  lemma {:induction false} PartsBeginNothing(parts: seq<string>, rest: seq<string>)
    requires forall part :: part in parts ==> CleanPart(part)
    ensures EntriesOf(MoreLines(parts) + rest) == EntriesOf(rest)
    ensures HasStray(MoreLines(parts) + rest, true) <==> HasStray(rest, true)
    ensures forall line :: line in MoreLines(parts) ==> IsLine(line)
    decreases |parts|
  {
    hide CleanPart, SkipLwf, IsLine;
    if parts == [] {
      assert MoreLines(parts) + rest == rest;
    } else {
      assert parts[0] in parts && forall q :: q in parts[1..] ==> q in parts;
      PartLine(parts[0]);
      FrontLine(" " + parts[0], MoreLines(parts[1..]), rest);
      PartsBeginNothing(parts[1..], rest);
      assert [] + EntriesOf(MoreLines(parts[1..]) + rest) == EntriesOf(rest);
    }
  }

  lemma NameLine(name: string, part: string)
    requires IsValidFieldName(name) && CleanPart(part)
    ensures var line := name + ": " + part;
            && IsLine(line) && Begins(line) && Find(line, ':') == |name|
            && line[..|name|] == name && SkipLwf(line[|name| + 1..]) == part
  {
    var line := name + ": " + part;
    assert name[0] in name && ':' !in name && '\n' !in name && !IsLwfChar(name[0]);
    assert line[0] == name[0] && line[|name|] == ':';
    PlainLine(line);
    assert line == name + [':'] + (" " + part);
    FindAfter(name, ':', " " + part);
    assert line[|name| + 1..] == " " + part;
    PartLine(part);
  }

  /** Fields that are written out are what their lines spell. */
  lemma {:induction false} WrittenFields(fields: seq<Spelled>, open: bool)
    requires forall f :: f in fields ==> CleanSpelled(f)
    ensures EntriesOf(LinesOf(fields)) == Entries(fields) && !HasStray(LinesOf(fields), open)
    ensures fields == [] || !Continues(LinesOf(fields)[0])
    ensures forall line :: line in LinesOf(fields) ==> IsLine(line)
    decreases |fields|
  {
    hide CleanPart, IsLine, IsValidFieldName;
    if fields != [] {
      var f, rest := fields[0], LinesOf(fields[1..]);
      assert f in fields && forall g :: g in fields[1..] ==> g in fields;
      WrittenFields(fields[1..], true);
      WrittenField(f, rest, open);
    }
  }

  lemma WrittenField(f: Spelled, rest: seq<string>, open: bool)
    requires CleanSpelled(f) && (rest == [] || !Continues(rest[0])) && !HasStray(rest, true)
    requires forall line :: line in rest ==> IsLine(line)
    ensures var lines := [f.name + ": " + f.first] + (MoreLines(f.more) + rest);
            && EntriesOf(lines) == [EntryWritten(f)] + EntriesOf(rest)
            && !HasStray(lines, open) && !Continues(lines[0]) && forall line :: line in lines ==> IsLine(line)
  {
    NameLine(f.name, f.first);
    PartsContinue(f.first, f.more, rest);
    PartsBeginNothing(f.more, rest);
    hide CleanPart, IsLine, IsValidFieldName, SkipLwf, Find, MoreContent, MoreLines, Joined;
    var line, others := f.name + ": " + f.first, MoreLines(f.more) + rest;
    assert ([line] + others)[0] == line && ([line] + others)[1..] == others;
  }

  /** Clean fields, in which names may repeat and contents go on over several lines: under each name
      there are their contents, in order, joined with commas, and nothing goes wrong. */
  lemma RepeatedFieldsAreJoined(h: HeaderState, fields: seq<Spelled>, tail: string, expected: FirstLineType)
    requires h.bytesParsed > 0 && h.section.crtName == "" && forall f :: f in fields ==> CleanSpelled(f)
    ensures var r := ParseLines(h, LinesText(LinesOf(fields)) + CRLF + tail, expected);
            && r.done && r.rest == tail && r.header.errors.worst == Worst(h.errors.worst, READ_OK)
            && Collects(h.Fields(), Entries(fields), h.section.strict, r.header.Fields())
  {
    hide CleanSpelled, IsLine, Collects, HasStray;
    WrittenFields(fields, false);
    EntriesAreGood(fields);
    AnyLines(h, LinesOf(fields), tail, expected);
  }

  lemma {:induction false} EntriesAreGood(fields: seq<Spelled>)
    requires forall f :: f in fields ==> CleanSpelled(f)
    ensures AllGood(Entries(fields))
    decreases |fields|
  {
    hide IsValidFieldName, IsValidFieldContent;
    if fields != [] {
      var f := fields[0];
      assert f in fields && forall g :: g in fields[1..] ==> g in fields;
      JoinedIsValid([f.first] + f.more);
      EntriesAreGood(fields[1..]);
      assert IsGood(Entries(fields)[0]);
    }
  }

  lemma {:induction false} JoinedIsValid(parts: seq<string>)
    requires forall part :: part in parts ==> CleanPart(part)
    ensures IsValidFieldContent(Joined(parts, " "))
    decreases |parts|
  {
    if |parts| > 1 {
      assert parts[0] in parts && forall q :: q in parts[1..] ==> q in parts;
      JoinedIsValid(parts[1..]);
    } else if parts != [] {
      assert parts[0] in parts;
    }
  }

  // ------------------------------------------------------------------ fields that are added

  /** Contents added one after the other under one name. */
  function AddedAll(fields: FieldMap, name: string, contents: seq<string>, replace: bool, asIs: bool): FieldMap
    decreases |contents|
  {
    if contents == [] then fields
    else AddedAll(WithField(fields, name, contents[0], replace, asIs), name, contents[1..], replace, asIs)
  }

  /** What an addition leaves under its key: contents in turn are joined with commas behind what is there,
      or the last one replaces all others; an empty content that is there is forgotten. No other key is
      touched, and bad names and contents change nothing. */
  lemma {:induction false} AddedInTurn(fields: FieldMap, name: string, contents: seq<string>, replace: bool, asIs: bool)
    requires contents != [] && forall c :: c in contents ==> c != "" && IsValidField(name, c)
    ensures var key, after := Key(name, asIs), AddedAll(fields, name, contents, replace, asIs);
            && key in after && after.Keys == fields.Keys + {key}
            && (forall k :: k in fields && k != key ==> after[k] == fields[k])
            && after[key] == if replace then contents[|contents| - 1]
                             else Joined((if key in fields && fields[key] != "" then [fields[key]] else []) + contents, ", ")
    decreases |contents|
  {
    hide IsValidField, NormalizeFieldName;
    var key, c, rest := Key(name, asIs), contents[0], contents[1..];
    assert c in contents && forall d :: d in rest ==> d in contents;
    var f := WithField(fields, name, c, replace, asIs);
    AddedOnce(fields, name, c, replace, asIs);
    hide WithField, Key, Joined;
    var own := if key in fields && fields[key] != "" then [fields[key]] else [];
    if rest == [] {
      assert contents == [c];
    } else {
      AddedInTurn(f, name, rest, replace, asIs);
      if !replace {
        JoinedInTurn(own, contents);
      }
    }
  }

  lemma JoinedInTurn(own: seq<string>, contents: seq<string>)
    requires contents != []
    ensures Joined([Joined(own + [contents[0]], ", ")] + contents[1..], ", ") == Joined(own + contents, ", ")
  {
    JoinedOnce(own + [contents[0]], contents[1..], ", ");
    assert own + [contents[0]] + contents[1..] == own + contents;
  }

  lemma AddedOnce(fields: FieldMap, name: string, c: string, replace: bool, asIs: bool)
    requires IsValidField(name, c)
    ensures var key, f := Key(name, asIs), WithField(fields, name, c, replace, asIs);
            && f.Keys == fields.Keys + {key} && (forall k :: k in fields && k != key ==> f[k] == fields[k])
            && f[key] == if replace then c
                         else Joined((if key in fields && fields[key] != "" then [fields[key]] else []) + [c], ", ")
    ensures c != "" ==> WithField(fields, name, c, replace, asIs)[Key(name, asIs)] != ""
  {
    hide IsValidField, NormalizeFieldName;
    var key := Key(name, asIs);
    if key in fields && fields[key] != "" {
      assert [fields[key]] + [c] == [fields[key], c];
      JoinedTwo(fields[key], c, ", ");
    } else {
      assert [] + [c] == [c];
    }
  }

  lemma BadFieldIsRefused(fields: FieldMap, name: string, content: string, replace: bool, asIs: bool)
    ensures !IsValidField(name, content) ==> WithField(fields, name, content, replace, asIs) == fields
  {
  }

  /** Copying fields and replacing: under each name there is the copied content, if that is valid, or else
      what was there. */
  lemma ReplacedByCopy(own: FieldMap, src: FieldMap, name: string)
    ensures var after := Merged(own, src, true);
            && (name in after <==> name in own || (name in src && IsValidField(name, src[name])))
            && (name in after ==> after[name] == if name in src && IsValidField(name, src[name]) then src[name] else own[name])
  {
    hide IsValidField;
  }
}
