/** The bounded sample reader applied to a file the guest wrote. */
module SampleRecovery {
  import opened Text
  import opened ResultFile
  import opened ResultReader
  import opened ResultRoundTrip
  import opened ResultRecovery
  import opened SampleReader
  import S = Sampler

  /** Between records, before the selected one. */
  predicate Ready(s: Rescan) {
    !s.inRecord && !s.selected && !s.inSamples && !s.done && !s.samples.trapped
  }

  predicate InBody(s: Rescan) {
    s.inRecord && !s.done && !s.samples.trapped
  }

  // ----- what the scanner sees in a printed line -----

  lemma IdOfLine(line: Line)
    requires Tidy(line)
    ensures ExtractJsonString(Render(line), "id") ==
            if line.Quoted? && line.key == Id then Some(line.text) else None
  {
    match line
    case Number(key, value) =>
      UnquotedString(key, Decimal(value) + ",", Id);
    case Quoted(key, text, comma) =>
      QuotedString(key, text, comma, Id);
    case Other(key, rest) =>
      UnquotedString(key, rest, Id);
    case Sample(value, _) =>
      DecimalIsPlain(value);
      NoQuoteNoField(Render(line), "id");
    case RawClose =>
      NoQuoteNoField(Render(line), "id");
  }

  lemma RawOpenParts()
    ensures RAW_OPEN == Prefix(KeyText(RawResults)) + "["
  {
  }

  lemma NotRawField(key: Key, rest: string)
    requires key != RawResults
    ensures !StartsWith(Field(KeyText(key), rest), RAW_OPEN)
  {
    hide Field, Prefix;
    RawOpenParts();
    FieldKey(key, RawResults, rest);
    MatchesConcat(Field(KeyText(key), rest), Prefix(KeyText(RawResults)), "[", 0);
  }

  lemma NotRawUnquoted(line: string)
    requires '"' !in line
    ensures !StartsWith(line, RAW_OPEN)
  {
    hide Prefix;
    RawOpenParts();
    MatchesConcat(line, Prefix(KeyText(RawResults)), "[", 0);
    if StartsWith(line, Prefix(KeyText(RawResults))) {
      QuotedKey(line, KeyText(RawResults));
    }
  }

  /** A field that neither names the record nor opens its samples. */
  predicate OrdinaryField(line: Line) {
    Tidy(line) &&
    match line
    case Number(key, _) => key != RawResults
    case Quoted(key, _, _) => key != Id && key != RawResults
    case Other(key, _) => key != RawResults
    case _ => false
  }

  predicate AllOrdinary(lines: seq<Line>) {
    forall i :: 0 <= i < |lines| ==> OrdinaryField(lines[i])
  }

  lemma StepOrdinary(s: Rescan, line: Line, id: string, limit: nat)
    requires limit >= 2 && InBody(s) && !s.inSamples && OrdinaryField(line)
    ensures StepLine(s, Render(line), id, limit) == s
  {
    hide ExtractJsonString, StartsWith, Field, S.Add, ScanUnsigned;
    IdOfLine(line);
    BodyFacts(line);
    NotRawField(line.key, match line
                          case Number(_, value) => Decimal(value) + ","
                          case Quoted(_, text, comma) => "\"" + text + "\"" + if comma then "," else ""
                          case Other(_, rest) => rest);
  }

  /** Body lines are taken as they are and neither open nor close a record. */
  lemma BodyFacts(line: Line)
    requires Tidy(line)
    ensures DropReturn(Render(line)) == Render(line)
    ensures !IsRecordStart(Render(line)) && !IsRecordEnd(Render(line))
  {
    hide Render;
    RenderIsBody(line);
    assert Render(line)[2] == Render(line)[..4][2] == ' ';
  }

  lemma StepUnselected(s: Rescan, line: Line, id: string, limit: nat)
    requires limit >= 2 && InBody(s) && !s.selected && Tidy(line)
    requires !(line.Quoted? && line.key == Id)
    ensures StepLine(s, Render(line), id, limit) == s
  {
    hide ExtractJsonString, StartsWith, Render, S.Add, ScanUnsigned;
    IdOfLine(line);
    BodyFacts(line);
  }

  lemma StepId(s: Rescan, text: string, id: string, limit: nat)
    requires limit >= 2 && InBody(s) && Plain(text)
    ensures StepLine(s, Render(Quoted(Id, text, true)), id, limit) ==
            s.(selected := text == id, found := s.found || text == id)
  {
    hide ExtractJsonString, StartsWith, Render, S.Add, ScanUnsigned;
    IdOfLine(Quoted(Id, text, true));
    BodyFacts(Quoted(Id, text, true));
  }

  lemma StepRawOpen(s: Rescan, rest: string, id: string, limit: nat)
    requires limit >= 2 && InBody(s) && s.selected && (rest == "[" || rest == "[],")
    ensures StepLine(s, Render(Other(RawResults, rest)), id, limit) == s.(inSamples := rest == "[")
  {
    hide ExtractJsonString, S.Add, ScanUnsigned, Prefix, Field;
    var line := Render(Other(RawResults, rest));
    assert SingleLine(rest);
    IdOfLine(Other(RawResults, rest));
    BodyFacts(Other(RawResults, rest));
    FieldStarts(KeyText(RawResults), rest);
    assert line == RAW_OPEN + rest[1..] by {
      RawOpenParts();
      assert rest == "[" + rest[1..];
    }
    assert line[..|RAW_OPEN|] == RAW_OPEN;
    if rest == "[" {
      assert forall i :: 0 <= i < |line| ==> line[i] != ']';
    } else {
      assert line[|RAW_OPEN|] == ']';
    }
  }

  lemma StepSample(s: Rescan, value: uint32, last: bool, id: string, limit: nat)
    requires limit >= 2 && InBody(s) && s.selected && s.inSamples
    ensures StepLine(s, Render(Sample(value, last)), id, limit) == s.(samples := S.Add(s.samples, value, limit))
  {
    hide ExtractJsonString, StartsWith, S.Add, ScanUnsigned;
    var line := Render(Sample(value, last));
    IdOfLine(Sample(value, last));
    BodyFacts(Sample(value, last));
    SampleText(value, last);
    NotRawUnquoted(line);
  }

  lemma SampleText(value: uint32, last: bool)
    ensures
      var line := Render(Sample(value, last));
      '"' !in line && !HasBracket(line) && ScanUnsigned(line) == Some(value)
  {
    hide ScanUnsigned;
    var line := Render(Sample(value, last));
    var digits := Decimal(value);
    DecimalIsPlain(value);
    assert line[6..6 + |digits|] == digits;
    assert forall i :: 6 <= i < 6 + |digits| ==> line[i] == digits[i - 6];
    assert forall i :: 0 <= i < |line| ==> line[i] != ']';
    ScanDecimal(line, 6, value);
  }

  lemma StepRawClose(s: Rescan, id: string, limit: nat)
    requires limit >= 2 && InBody(s) && s.selected && s.inSamples
    ensures StepLine(s, Render(RawClose), id, limit) == s.(inSamples := false)
  {
    hide ExtractJsonString, StartsWith, S.Add, ScanUnsigned;
    IdOfLine(RawClose);
    BodyFacts(RawClose);
    NotRawUnquoted(Render(RawClose));
    assert Render(RawClose)[4] == ']';
  }

  // ----- runs of lines -----

  lemma {:induction false} SkipOrdinary(s: Rescan, lines: seq<Line>, id: string, limit: nat)
    requires limit >= 2 && InBody(s) && !s.inSamples
    requires AllOrdinary(lines)
    ensures ScanAll(s, RenderAll(lines), id, limit) == s
    decreases |lines|
  {
    hide StepLine, Render, OrdinaryField;
    if lines != [] {
      StepOrdinary(s, lines[0], id, limit);
      assert RenderAll(lines)[1..] == RenderAll(lines[1..]);
      SkipOrdinary(s, lines[1..], id, limit);
    }
  }

  lemma {:induction false} SkipUnselected(s: Rescan, lines: seq<Line>, id: string, limit: nat)
    requires limit >= 2 && InBody(s) && !s.selected && AllTidy(lines)
    requires forall i :: 0 <= i < |lines| ==> !(lines[i].Quoted? && lines[i].key == Id)
    ensures ScanAll(s, RenderAll(lines), id, limit) == s
    decreases |lines|
  {
    hide StepLine, Render, Tidy;
    if lines != [] {
      StepUnselected(s, lines[0], id, limit);
      assert RenderAll(lines)[1..] == RenderAll(lines[1..]);
      SkipUnselected(s, lines[1..], id, limit);
    }
  }

  lemma {:induction false} TakeSamples(s: Rescan, raw: seq<uint32>, count: nat, id: string, limit: nat)
    requires limit >= 2 && InBody(s) && s.selected && s.inSamples && count <= |raw|
    ensures ScanAll(s, RenderAll(SampleLines(raw))[..count], id, limit) ==
            s.(samples := S.AddAll(s.samples, raw[..count], limit))
    decreases count
  {
    hide StepLine, Render, S.Add;
    var text := RenderAll(SampleLines(raw));
    if count == 0 {
      assert text[..count] == [] && raw[..count] == [];
    } else {
      TakeSamples(s, raw, count - 1, id, limit);
      var t := s.(samples := S.AddAll(s.samples, raw[..count - 1], limit));
      assert text[..count] == text[..count - 1] + [text[count - 1]];
      ScanAppend(s, text[..count - 1], [text[count - 1]], id, limit);
      assert raw[..count][..count - 1] == raw[..count - 1];
      if t.samples.trapped {
        Settled(t, [text[count - 1]], id, limit);
        AddTrapped(t.samples, raw[count - 1], limit);
      } else {
        ScanOne(t, text[count - 1], id, limit);
        StepSample(t, raw[count - 1], count == |raw|, id, limit);
      }
    }
  }

  lemma AddTrapped(s: S.State, value: uint32, limit: nat)
    requires limit >= 2 && s.trapped
    ensures S.Add(s, value, limit) == s
  {
  }

  // ----- whole records -----

  /** The body after the two lines that lead up to and carry the id. */
  function FieldLines(r: Record): seq<Line> {
    [Number(Revision, r.revision), Quoted(Kind, if r.Leaf? then "leaf" else "group", true),
     Quoted(Name, r.name, true), Quoted(Outcome, r.outcome, true)] + WorkLines(r) + TimingLines(r)
  }

  lemma BodyParts(r: Record)
    ensures BodyLines(r) ==
            [Number(SchemaVersion, 1)] + [Quoted(Id, r.id, true)] + FieldLines(r) + RawLines(r) + TailLines(r)
  {
    hide WorkLines, TimingLines, RawLines, TailLines;
  }

  lemma OrdinaryAppend(a: seq<Line>, b: seq<Line>)
    requires AllOrdinary(a) && AllOrdinary(b)
    ensures AllOrdinary(a + b)
  {
    hide OrdinaryField;
  }

  /** Tidy lines keyed by neither the id nor the samples are ordinary. */
  lemma TidyIsOrdinary(lines: seq<Line>)
    requires AllTidy(lines)
    requires forall i :: 0 <= i < |lines| ==>
               (lines[i].Number? || lines[i].Quoted? || lines[i].Other?) && lines[i].key != Id && lines[i].key != RawResults
    ensures AllOrdinary(lines)
  {
    hide Tidy;
  }

  lemma FieldLinesAreOrdinary(r: Record)
    requires Printable(r)
    ensures AllOrdinary(FieldLines(r)) && AllOrdinary(TailLines(r))
  {
    hide Tidy, Printable, OrdinaryField, DirectionText;
    HeadIsTidy(r);
    WorkIsTidy(r);
    TimingIsTidy(r);
    RawAndTailAreTidy(r);
    TidyIsOrdinary(HeadLines(r)[2..]);
    TidyIsOrdinary(WorkLines(r));
    TidyIsOrdinary(TimingLines(r));
    TidyIsOrdinary(TailLines(r));
    OrdinaryAppend(HeadLines(r)[2..], WorkLines(r));
    OrdinaryAppend(HeadLines(r)[2..] + WorkLines(r), TimingLines(r));
    assert FieldLines(r) == HeadLines(r)[2..] + WorkLines(r) + TimingLines(r);
  }

  lemma RawIsTidy(r: Record)
    ensures AllTidy(RawLines(r))
    ensures forall i :: 0 <= i < |RawLines(r)| ==> !RawLines(r)[i].Quoted?
  {
    assert SingleLine("[") && SingleLine("[],");
  }

  lemma RenderParts(a: seq<Line>, b: seq<Line>)
    ensures RenderAll(a + b) == RenderAll(a) + RenderAll(b)
  {
  }

  /** Reads up to and including the line naming the record. */
  lemma ReadUpToId(s: Rescan, r: Record, first: bool, id: string, limit: nat)
    requires limit >= 2 && Ready(s) && Printable(r)
    ensures
      var e := ScanAll(s, Separator(first) + ["  {"] + RenderAll([Number(SchemaVersion, 1)] + [Quoted(Id, r.id, true)]),
                       id, limit);
      e == s.(inRecord := true, selected := r.id == id, found := s.found || r.id == id)
  {
    hide Render, StepLine;
    var a, b := [Number(SchemaVersion, 1)], [Quoted(Id, r.id, true)];
    RenderParts(a, b);
    ScanAppend(s, Separator(first) + ["  {"], RenderAll(a + b), id, limit);
    ScanAppend(s, Separator(first), ["  {"], id, limit);
    if !first {
      ScanOne(s, ",", id, limit);
      StepOutsideRecord(s, ",", id, limit);
    }
    ScanOne(s, "  {", id, limit);
    StepOpenBrace(s, id, limit);
    var t := s.(inRecord := true);
    ScanAppend(t, RenderAll(a), RenderAll(b), id, limit);
    SkipOrdinary(t, a, id, limit);
    assert RenderAll(b) == [Render(b[0])];
    ScanOne(t, Render(b[0]), id, limit);
    StepId(t, r.id, id, limit);
  }

  lemma StepOutsideRecord(s: Rescan, line: string, id: string, limit: nat)
    requires limit >= 2 && Ready(s) && (line == "," || line == "[" || line == "]")
    ensures StepLine(s, line, id, limit) == s
  {
    hide ExtractJsonString, StartsWith, S.Add, ScanUnsigned;
  }

  lemma StepOpenBrace(s: Rescan, id: string, limit: nat)
    requires limit >= 2 && Ready(s)
    ensures StepLine(s, "  {", id, limit) == s.(inRecord := true)
  {
    hide ExtractJsonString, StartsWith, S.Add, ScanUnsigned;
  }

  lemma StepCloseBrace(s: Rescan, id: string, limit: nat)
    requires limit >= 2 && InBody(s) && !s.inSamples
    ensures StepLine(s, "  }", id, limit) == if s.selected then s.(done := true) else s.(inRecord := false)
  {
    hide ExtractJsonString, StartsWith, S.Add, ScanUnsigned;
    NoQuoteNoField("  }", "id");
    NotRawUnquoted("  }");
  }

  function OpeningText(r: Record, first: bool): seq<string> {
    Separator(first) + ["  {"] + RenderAll([Number(SchemaVersion, 1)] + [Quoted(Id, r.id, true)])
  }

  lemma RecordText(r: Record, first: bool)
    ensures Separator(first) + RecordLines(r) ==
            OpeningText(r, first) + (RenderAll(FieldLines(r)) + RenderAll(RawLines(r)) + RenderAll(TailLines(r))) + ["  }"]
  {
    hide Render, FieldLines, RawLines, TailLines, BodyLines;
    var o := [Number(SchemaVersion, 1)] + [Quoted(Id, r.id, true)];
    BodyParts(r);
    RenderParts(o + FieldLines(r) + RawLines(r), TailLines(r));
    RenderParts(o + FieldLines(r), RawLines(r));
    RenderParts(o, FieldLines(r));
  }

  lemma UnselectedRecord(s: Rescan, r: Record, first: bool, id: string, limit: nat)
    requires limit >= 2 && Ready(s) && Printable(r) && r.id != id
    ensures ScanAll(s, Separator(first) + RecordLines(r), id, limit) == s
  {
    hide Render, StepLine, FieldLines, RawLines, TailLines, BodyLines, Printable, OrdinaryField;
    var body := RenderAll(FieldLines(r)) + RenderAll(RawLines(r)) + RenderAll(TailLines(r));
    RecordText(r, first);
    ReadUpToId(s, r, first, id, limit);
    var t := s.(inRecord := true);
    ScanAppend(s, OpeningText(r, first) + body, ["  }"], id, limit);
    ScanAppend(s, OpeningText(r, first), body, id, limit);
    ScanAppend(t, RenderAll(FieldLines(r)) + RenderAll(RawLines(r)), RenderAll(TailLines(r)), id, limit);
    ScanAppend(t, RenderAll(FieldLines(r)), RenderAll(RawLines(r)), id, limit);
    FieldLinesAreOrdinary(r);
    RawIsTidy(r);
    SkipOrdinary(t, FieldLines(r), id, limit);
    SkipUnselected(t, RawLines(r), id, limit);
    SkipOrdinary(t, TailLines(r), id, limit);
    ScanOne(t, "  }", id, limit);
    StepCloseBrace(t, id, limit);
  }

  /** The samples a record carries. */
  function RawOf(r: Record): seq<uint32> {
    if r.Leaf? then r.profile.raw else []
  }

  lemma ReadRaw(s: Rescan, r: Record, id: string, limit: nat)
    requires limit >= 2 && InBody(s) && s.selected && !s.inSamples
    ensures
      var e := ScanAll(s, RenderAll(RawLines(r)), id, limit);
      var samples := S.AddAll(s.samples, RawOf(r), limit);
      e.samples == samples && e.found == s.found && (samples.trapped || e == s.(samples := samples))
  {
    hide Render, StepLine, S.AddAll;
    if r.Leaf? {
      var raw := r.profile.raw;
      var a, b, c := [Other(RawResults, "[")], SampleLines(raw), [RawClose];
      RenderParts(a + b, c);
      RenderParts(a, b);
      assert RenderAll(a) == [Render(a[0])] && RenderAll(c) == [Render(RawClose)];
      ScanAppend(s, RenderAll(a) + RenderAll(b), RenderAll(c), id, limit);
      ScanAppend(s, RenderAll(a), RenderAll(b), id, limit);
      ScanOne(s, Render(a[0]), id, limit);
      StepRawOpen(s, "[", id, limit);
      var t := s.(inSamples := true);
      TakeSamples(t, raw, |raw|, id, limit);
      assert RenderAll(b)[..|raw|] == RenderAll(b) && raw[..|raw|] == raw;
      var u := t.(samples := S.AddAll(s.samples, raw, limit));
      if u.samples.trapped {
        Settled(u, RenderAll(c), id, limit);
      } else {
        ScanOne(u, Render(RawClose), id, limit);
        StepRawClose(u, id, limit);
      }
    } else {
      var a := [Other(RawResults, "[],")];
      assert RenderAll(a) == [Render(a[0])];
      ScanOne(s, Render(a[0]), id, limit);
      StepRawOpen(s, "[],", id, limit);
      AddNothing(s.samples, limit);
    }
  }

  lemma AddNothing(s: S.State, limit: nat)
    requires limit >= 2
    ensures S.AddAll(s, [], limit) == s
  {
  }

  lemma SelectedRecord(s: Rescan, r: Record, first: bool, id: string, limit: nat)
    requires limit >= 2 && Ready(s) && Printable(r) && r.id == id
    ensures
      var e := ScanAll(s, Separator(first) + RecordLines(r), id, limit);
      e.found && e.samples == S.AddAll(s.samples, RawOf(r), limit) && (e.done || e.samples.trapped)
  {
    hide Render, StepLine, FieldLines, RawLines, TailLines, BodyLines, Printable, OrdinaryField, S.AddAll;
    var fields, raw, tail := RenderAll(FieldLines(r)), RenderAll(RawLines(r)), RenderAll(TailLines(r));
    RecordText(r, first);
    ReadUpToId(s, r, first, id, limit);
    var t := s.(inRecord := true, selected := true, found := true);
    ScanAppend(s, OpeningText(r, first) + (fields + raw + tail), ["  }"], id, limit);
    ScanAppend(s, OpeningText(r, first), fields + raw + tail, id, limit);
    ScanAppend(t, fields + raw, tail, id, limit);
    ScanAppend(t, fields, raw, id, limit);
    FieldLinesAreOrdinary(r);
    SkipOrdinary(t, FieldLines(r), id, limit);
    ReadRaw(t, r, id, limit);
    var u := ScanAll(t, raw, id, limit);
    if u.samples.trapped {
      Settled(u, tail, id, limit);
      Settled(u, ["  }"], id, limit);
    } else {
      SkipOrdinary(u, TailLines(r), id, limit);
      ScanOne(u, "  }", id, limit);
      StepCloseBrace(u, id, limit);
    }
  }

  // ----- whole files -----

  /** The position of the first record with this id. */
  function FirstWith(rs: seq<Record>, id: string): (r: Option<nat>)
    ensures r.Some? ==> r.value < |rs| && rs[r.value].id == id
    ensures r.Some? ==> forall i :: 0 <= i < r.value ==> rs[i].id != id
    ensures r.None? ==> forall i :: 0 <= i < |rs| ==> rs[i].id != id
  {
    if rs == [] then None
    else if rs[0].id == id then Some(0)
    else
      var later := FirstWith(rs[1..], id);
      if later.Some? then Some(later.value + 1) else None
  }

  lemma {:induction false} ScanBlocks(s: Rescan, rs: seq<Record>, first: bool, id: string, limit: nat)
    requires limit >= 2 && Ready(s) && AllPrintable(rs)
    ensures
      var e := ScanAll(s, BlockLines(rs, first), id, limit);
      var at := FirstWith(rs, id);
      if at.None? then e == s
      else e.found && e.samples == S.AddAll(s.samples, RawOf(rs[at.value]), limit) && (e.done || e.samples.trapped)
    decreases |rs|
  {
    hide RecordLines, StepLine, S.AddAll, Printable;
    if rs != [] {
      var head, rest := Separator(first) + RecordLines(rs[0]), BlockLines(rs[1..], false);
      ScanAppend(s, head, rest, id, limit);
      if rs[0].id == id {
        SelectedRecord(s, rs[0], first, id, limit);
        Settled(ScanAll(s, head, id, limit), rest, id, limit);
      } else {
        UnselectedRecord(s, rs[0], first, id, limit);
        ScanBlocks(s, rs[1..], false, id, limit);
      }
    }
  }

  lemma ScanFile(rs: seq<Record>, id: string, limit: nat)
    requires limit >= 2 && AllPrintable(rs)
    ensures
      var e := Scanned(FileText(rs), id, limit);
      var at := FirstWith(rs, id);
      e.found == at.Some? &&
      e.samples == S.AddAll(S.EMPTY, if at.Some? then RawOf(rs[at.value]) else [], limit)
  {
    hide StepLine, S.AddAll, BlockLines;
    var blocks := BlockLines(rs, true);
    FileLinesAreLines(rs);
    LinesOfJoin(FileLines(rs));
    assert FileLines(rs) == ["["] + blocks + ["]"];
    ScanAppend(SCAN_START, ["["] + blocks, ["]"], id, limit);
    ScanAppend(SCAN_START, ["["], blocks, id, limit);
    ScanOne(SCAN_START, "[", id, limit);
    StepOutsideRecord(SCAN_START, "[", id, limit);
    ScanBlocks(SCAN_START, rs, true, id, limit);
    var s := ScanAll(SCAN_START, blocks, id, limit);
    AddNothing(S.EMPTY, limit);
    if FirstWith(rs, id).Some? {
      Settled(s, ["]"], id, limit);
    } else {
      ScanOne(s, "]", id, limit);
      StepOutsideRecord(s, "]", id, limit);
    }
  }

  /**
   * From a file the guest wrote, the viewer holds every stride-th sample of the first
   * record with the requested id, within its budget; it fails (by a division by zero)
   * exactly when the record has more samples than a 32-bit stride can follow.
   */
  lemma SamplesRecovered(rs: seq<Record>, id: string, budget: nat)
    requires AllPrintable(rs)
    ensures
      var read := ReadSamplesSpec(Some(FileText(rs)), id, budget);
      var limit := S.Limit(budget);
      var at := FirstWith(rs, id);
      var raw := if at.Some? then RawOf(rs[at.value]) else [];
      (read.found <==> exists i :: 0 <= i < |rs| && rs[i].id == id) &&
      (read.trapped <==> !S.StrideFits(|raw|, limit)) &&
      (!read.trapped ==>
        S.IsStrided(read.values, raw, read.stride) && S.PowerOfTwo(read.stride) &&
        read.total == |raw| % TWO_32 && (read.approximate <==> read.stride > 1) &&
        |read.values| <= limit && (read.approximate ==> limit <= 2 * |read.values|))
  {
    hide S.AddAll, S.IsStrided, FileText, Scanned, S.PowerOfTwo;
    var limit := S.Limit(budget);
    var at := FirstWith(rs, id);
    var raw := if at.Some? then RawOf(rs[at.value]) else [];
    ScanFile(rs, id, limit);
    S.TrapsExactly(raw, limit);
    if S.StrideFits(|raw|, limit) {
      S.SamplerRefines(raw, limit);
      S.SamplerSize(raw, limit);
    }
  }

  // ----- files cut short -----

  lemma {:induction false} BlocksSplit(rs: seq<Record>, first: bool, k: nat)
    requires 0 < k <= |rs|
    ensures BlockLines(rs, first) == BlockLines(rs[..k], first) + BlockLines(rs[k..], false)
    decreases k
  {
    hide RecordLines;
    assert rs[..k][0] == rs[0] && rs[..k][1..] == rs[1..][..k - 1];
    if k == 1 {
      assert rs[..k][1..] == [];
    } else {
      BlocksSplit(rs[1..], false, k - 1);
      assert rs[1..][k - 1..] == rs[k..];
    }
  }

  lemma FirstWithin(rs: seq<Record>, id: string)
    requires FirstWith(rs, id).Some?
    ensures
      var at := FirstWith(rs, id).value;
      at < |rs| && FirstWith(rs[..at + 1], id) == Some(at)
  {
    var at := FirstWith(rs, id).value;
    assert rs[..at + 1][at].id == id;
    assert forall i :: 0 <= i < at ==> rs[..at + 1][i] == rs[i];
  }

  /** A last line needs no line break to be read. */
  lemma LastBreakOptional(lines: seq<string>)
    requires lines != [] && lines[|lines| - 1] != "" && forall i :: 0 <= i < |lines| ==> OneLine(lines[i])
    ensures |JoinLines(lines)| > 0 && Lines(JoinLines(lines)[..|JoinLines(lines)| - 1]) == lines
  {
    hide Lines;
    var n := |lines| - 1;
    var last := lines[n];
    assert lines == lines[..n] + [last];
    JoinAppend(lines[..n], [last]);
    assert JoinLines([last]) == last + "\n" by {
      assert [last][1..] == [];
    }
    assert JoinLines(lines)[..|JoinLines(lines)| - 1] == JoinLines(lines[..n]) + last;
    LinesAfter(lines[..n], last);
    assert FindAny(last, "\n", 0) == |last|;
    LinesOfUnbroken(last);
  }

  /** From its last line's text on, a written prefix of lines is read whole, whatever follows. */
  lemma LinesFromPrefix(head: seq<string>, rest: seq<string>, cut: nat) returns (more: seq<string>)
    requires head != [] && head[|head| - 1] != "" && forall i :: 0 <= i < |head| ==> OneLine(head[i])
    requires |JoinLines(head)| - 1 <= cut <= |JoinLines(head + rest)|
    ensures Lines(JoinLines(head + rest)[..cut]) == head + more
  {
    hide Lines;
    var text := JoinLines(head);
    JoinAppend(head, rest);
    LastBreakOptional(head);
    if cut < |text| {
      assert JoinLines(head + rest)[..cut] == text[..|text| - 1];
      more := [];
      assert head + more == head;
    } else {
      var tail := JoinLines(rest)[..cut - |text|];
      assert JoinLines(head + rest)[..cut] == text + tail;
      LinesAfter(head, tail);
      more := Lines(tail);
    }
  }

  /** The lines of a file up to the closing brace of its first records. */
  function LinesThrough(rs: seq<Record>, k: nat): seq<string>
    requires k <= |rs|
  {
    ["["] + BlockLines(rs[..k], true)
  }

  lemma FileFromPrefix(rs: seq<Record>, k: nat) returns (rest: seq<string>)
    requires 0 < k <= |rs| && AllPrintable(rs)
    ensures FileLines(rs) == LinesThrough(rs, k) + rest
    ensures |JoinLines(LinesThrough(rs, k))| - 1 == ClosedAt(rs[..k])
    ensures LinesThrough(rs, k) != [] && LinesThrough(rs, k)[|LinesThrough(rs, k)| - 1] == "  }"
    ensures forall i :: 0 <= i < |LinesThrough(rs, k)| ==> OneLine(LinesThrough(rs, k)[i])
  {
    hide RecordLines, BlockLines, JoinLines;
    BlocksSplit(rs, true, k);
    rest := BlockLines(rs[k..], false) + ["]"];
    JoinAppend(["["], BlockLines(rs[..k], true));
    BracketText();
    EndsWithBrace(rs[..k], true);
    FileLinesAreLines(rs);
    assert forall i :: 0 <= i < |LinesThrough(rs, k)| ==> LinesThrough(rs, k)[i] == FileLines(rs)[i];
  }

  lemma BracketText()
    ensures JoinLines(["["]) == "[\n"
  {
    assert ["["][1..] == [];
  }

  lemma {:induction false} EndsWithBrace(rs: seq<Record>, first: bool)
    requires rs != []
    ensures var lines := BlockLines(rs, first); lines != [] && lines[|lines| - 1] == "  }"
    decreases |rs|
  {
    hide BodyLines, RenderAll;
    if |rs| > 1 {
      EndsWithBrace(rs[1..], false);
    }
  }

  /**
   * A file cut at any byte after the closing brace of the first record with the id gives
   * the viewer the same samples as the finished file.
   */
  lemma SamplesSurviveCut(rs: seq<Record>, id: string, budget: nat, cut: nat)
    requires AllPrintable(rs) && cut <= |FileText(rs)| && FirstWith(rs, id).Some?
    requires ClosedAt(rs[..FirstWith(rs, id).value + 1]) <= cut
    ensures ReadSamplesSpec(Some(FileText(rs)[..cut]), id, budget) == ReadSamplesSpec(Some(FileText(rs)), id, budget)
  {
    hide BlockLines, StepLine, S.AddAll, Lines, JoinLines, LinesThrough, ClosedAt;
    var at, limit := FirstWith(rs, id).value, S.Limit(budget);
    var rest := FileFromPrefix(rs, at + 1);
    var head := LinesThrough(rs, at + 1);
    var more := LinesFromPrefix(head, rest, cut);
    ScanFile(rs, id, limit);
    ScanThrough(rs, at, id, limit);
    ScanAppend(SCAN_START, head, more, id, limit);
    Settled(ScanAll(SCAN_START, head, id, limit), more, id, limit);
  }

  lemma ScanThrough(rs: seq<Record>, at: nat, id: string, limit: nat)
    requires limit >= 2 && AllPrintable(rs) && FirstWith(rs, id) == Some(at)
    ensures at < |rs|
    ensures
      var e := ScanAll(SCAN_START, LinesThrough(rs, at + 1), id, limit);
      e.found && e.samples == S.AddAll(S.EMPTY, RawOf(rs[at]), limit) && (e.done || e.samples.trapped)
  {
    hide BlockLines, StepLine, S.AddAll;
    FirstWithin(rs, id);
    assert rs[..at + 1][at] == rs[at];
    ScanAppend(SCAN_START, ["["], BlockLines(rs[..at + 1], true), id, limit);
    ScanOne(SCAN_START, "[", id, limit);
    StepOutsideRecord(SCAN_START, "[", id, limit);
    ScanBlocks(SCAN_START, rs[..at + 1], true, id, limit);
  }
}
