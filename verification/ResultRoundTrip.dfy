/**
 * What the viewer reads back from a file the guest wrote: every record of a
 * complete file, and of a file cut at any byte the records already closed.
 */
module ResultRoundTrip {
  import opened Text
  import opened ResultFile
  import opened ResultReader

  // ----- one field line, one effect -----

  /** Where a line opens with a quoted key, the key is the text up to the closing quote. */
  lemma QuotedKey(line: string, key: string)
    requires StartsWith(line, Prefix(key))
    ensures |key| + 8 <= |line| && line[5 + |key|] == '"'
    ensures forall i :: 0 <= i < |key| ==> line[5 + i] == key[i]
  {
    var p := Prefix(key);
    assert forall i :: 0 <= i < |p| ==> line[i] == line[0..|p|][i] == p[i];
    assert forall i :: 0 <= i < |key| ==> p[5 + i] == key[i];
    assert p[5 + |key|] == '"';
  }

  lemma NotLonger(line: string, a: string, b: string)
    requires StartsWith(line, Prefix(a)) && StartsWith(line, Prefix(b))
    requires '"' !in a
    ensures |a| <= |b|
  {
    QuotedKey(line, a);
    QuotedKey(line, b);
    assert forall i :: 0 <= i < |a| ==> a[i] != '"';
  }

  lemma SameKey(line: string, a: string, b: string)
    requires StartsWith(line, Prefix(a)) && StartsWith(line, Prefix(b))
    requires '"' !in a && '"' !in b
    ensures a == b
  {
    NotLonger(line, a, b);
    NotLonger(line, b, a);
    QuotedKey(line, a);
    QuotedKey(line, b);
  }

  /** A printed field line is recognised under its own key only. */
  lemma FieldKey(key: Key, k: Key, rest: string)
    ensures StartsWith(Field(KeyText(key), rest), Prefix(KeyText(k))) <==> k == key
  {
    var line := Field(KeyText(key), rest);
    FieldStarts(KeyText(key), rest);
    if StartsWith(line, Prefix(KeyText(k))) {
      KeyIsPlain(key);
      KeyIsPlain(k);
      SameKey(line, KeyText(key), KeyText(k));
      KeyTextInjective(key, k);
    }
  }

  lemma FieldStarts(key: string, rest: string)
    ensures Field(key, rest) == Prefix(key) + rest
    ensures StartsWith(Field(key, rest), Prefix(key))
  {
    assert Field(key, rest) == Prefix(key) + rest;
  }

  // ----- text fields -----

  lemma QuotedString(key: Key, text: string, comma: bool, k: Key)
    requires Plain(text)
    ensures ExtractJsonString(Render(Quoted(key, text, comma)), KeyText(k)) ==
            if k == key then Some(text) else None
  {
    var rest := "\"" + text + "\"" + if comma then "," else "";
    FieldKey(key, k, rest);
    if k == key {
      QuotedValue(KeyText(key), text, if comma then "," else "");
    } else {
      LongerPrefix(Field(KeyText(key), rest), KeyText(k));
    }
  }

  lemma LongerPrefix(line: string, k: string)
    requires !StartsWith(line, Prefix(k))
    ensures ExtractJsonString(line, k) == None
  {
    MatchesConcat(line, Prefix(k), "\"", 0);
  }

  lemma QuotedValue(key: string, text: string, after: string)
    requires '"' !in text
    ensures ExtractJsonString(Field(key, "\"" + text + "\"" + after), key) == Some(text)
  {
    var line := Field(key, "\"" + text + "\"" + after);
    var open := |Prefix(key)| + 1;
    var end := open + |text|;
    assert line == (Prefix(key) + "\"") + text + "\"" + after;
    assert line[..open] == Prefix(key) + "\"";
    assert line[open..end] == text;
    assert forall i :: open <= i < end ==> line[i] == text[i - open];
    assert line[end] == '"';
    assert FindAny(line, "\"", open) == end;
  }

  /** A field whose value is not a string is no string field. */
  lemma UnquotedString(key: Key, rest: string, k: Key)
    requires k == key ==> rest != "" && rest[0] != '"'
    ensures ExtractJsonString(Field(KeyText(key), rest), KeyText(k)) == None
  {
    var line := Field(KeyText(key), rest);
    FieldKey(key, k, rest);
    if k != key {
      LongerPrefix(line, KeyText(k));
    } else {
      var prefix := Prefix(KeyText(k));
      FieldStarts(KeyText(k), rest);
      MatchesConcat(line, prefix, "\"", 0);
      assert line[|prefix|..] == rest;
      assert line[|prefix|] == rest[0];
    }
  }

  // ----- number fields -----

  lemma NumberUInt(key: Key, n: uint32, k: Key)
    ensures ExtractJsonUInt(Render(Number(key, n)), KeyText(k)) == if k == key then Some(n) else None
  {
    var rest := Decimal(n) + ",";
    FieldKey(key, k, rest);
    if k == key {
      FieldStarts(KeyText(key), rest);
      assert Field(KeyText(key), rest)[|Prefix(KeyText(key))|..] == rest;
      assert rest[..|Decimal(n)|] == Decimal(n);
      ScanDecimal(rest, 0, n);
    }
  }

  predicate OpensNumber(c: char) {
    IsSpace(c) || IsSign(c) || IsDigit(c)
  }

  /** A field whose value does not open like a number is no number field. */
  lemma OtherUInt(key: Key, rest: string, k: Key)
    requires k == key ==> rest != "" && !OpensNumber(rest[0])
    ensures ExtractJsonUInt(Field(KeyText(key), rest), KeyText(k)) == None
  {
    FieldKey(key, k, rest);
    if k == key {
      FieldStarts(KeyText(key), rest);
      assert Field(KeyText(key), rest)[|Prefix(KeyText(key))|..] == rest;
    }
  }

  // ----- inline metadata keys -----

  ghost predicate NoMark(line: string, k: string) {
    forall i: nat :: !MatchesAt(line, InlineMark(k), i)
  }

  /** None of the metadata keys the reader looks for anywhere in a line occurs in this one. */
  ghost predicate Unmarked(line: string) {
    NoMark(line, "oracle_status") && NoMark(line, "oracle_failure_reason") &&
    NoMark(line, "expected_final_state") && NoMark(line, "expected_framebuffer_fnv1a64") &&
    NoMark(line, "actual_final_state")
  }

  predicate WordKey(k: string) {
    '"' !in k && k != "" && k[0] != ':'
  }

  lemma MarkShape(line: string, k: string, i: nat)
    requires MatchesAt(line, InlineMark(k), i)
    ensures i + |k| + 3 <= |line|
    ensures line[i] == line[i + 1 + |k|] == '"' && line[i + 2 + |k|] == ':'
    ensures forall j :: 0 <= j < |k| ==> line[i + 1 + j] == k[j]
  {
    var m := InlineMark(k);
    assert forall j :: 0 <= j < |m| ==> line[i + j] == line[i..i + |m|][j] == m[j];
    assert forall j :: 0 <= j < |k| ==> m[1 + j] == k[j];
    assert m[1 + |k|] == '"' && m[2 + |k|] == ':';
  }

  /** In a field line, a foreign inline key can only occur inside the value. */
  lemma FieldMark(key: string, rest: string, k: string, i: nat)
    requires '"' !in key && WordKey(k) && k != key
    ensures MatchesAt(Field(key, rest), InlineMark(k), i) <==>
            |Prefix(key)| <= i && MatchesAt(rest, InlineMark(k), i - |Prefix(key)|)
  {
    var line, p := Field(key, rest), |Prefix(key)|;
    FieldStarts(key, rest);
    if p <= i {
      assert i + |InlineMark(k)| <= |line| ==>
          line[i..i + |InlineMark(k)|] == rest[i - p..i - p + |InlineMark(k)|];
    } else if MatchesAt(line, InlineMark(k), i) {
      QuotedKey(line, key);
      MarkShape(line, k, i);
    }
  }

  lemma QuotedNoMark(text: string, after: string, k: string)
    requires '"' !in text && '"' !in k && (after == "" || after == ",")
    ensures NoMark("\"" + text + "\"" + after, k)
  {
    var rest := "\"" + text + "\"" + after;
    forall i: nat | MatchesAt(rest, InlineMark(k), i) ensures false {
      MarkShape(rest, k, i);
    }
  }

  lemma NoQuoteNoMark(line: string, k: string)
    requires '"' !in line
    ensures NoMark(line, k)
  {
    forall i: nat | MatchesAt(line, InlineMark(k), i) ensures false {
      MarkShape(line, k, i);
    }
  }

  lemma ForeignKeys(key: Key)
    ensures KeyText(key) != "oracle_status" && KeyText(key) != "oracle_failure_reason"
    ensures KeyText(key) != "expected_final_state" && KeyText(key) != "expected_framebuffer_fnv1a64"
    ensures KeyText(key) != "actual_final_state"
  {
    hide KeyText;
    NoOracleKey(key);
    NoExpectedKey(key);
    NoActualKey(key);
  }

  lemma NoOracleKey(key: Key)
    ensures KeyText(key) != "oracle_status" && KeyText(key) != "oracle_failure_reason"
  {
    assert KeyText(key)[0] != 'o' || key == Outcome;
  }

  lemma NoExpectedKey(key: Key)
    ensures KeyText(key) != "expected_final_state" && KeyText(key) != "expected_framebuffer_fnv1a64"
  {
    assert KeyText(key)[0] != 'e';
  }

  lemma NoActualKey(key: Key)
    ensures KeyText(key) != "actual_final_state"
  {
    assert KeyText(key)[0] != 'a' || key == Average;
  }

  lemma MarkWords()
    ensures WordKey("oracle_status") && WordKey("oracle_failure_reason") && WordKey("expected_final_state")
    ensures WordKey("expected_framebuffer_fnv1a64") && WordKey("actual_final_state")
  {
  }

  lemma FieldUnmarked(key: Key, rest: string)
    requires Unmarked(rest)
    ensures Unmarked(Field(KeyText(key), rest))
  {
    var line := Field(KeyText(key), rest);
    KeyIsPlain(key);
    ForeignKeys(key);
    MarkWords();
    forall i: nat
      ensures !MatchesAt(line, InlineMark("oracle_status"), i)
      ensures !MatchesAt(line, InlineMark("oracle_failure_reason"), i)
      ensures !MatchesAt(line, InlineMark("expected_final_state"), i)
      ensures !MatchesAt(line, InlineMark("expected_framebuffer_fnv1a64"), i)
      ensures !MatchesAt(line, InlineMark("actual_final_state"), i)
    {
      FieldMark(KeyText(key), rest, "oracle_status", i);
      FieldMark(KeyText(key), rest, "oracle_failure_reason", i);
      FieldMark(KeyText(key), rest, "expected_final_state", i);
      FieldMark(KeyText(key), rest, "expected_framebuffer_fnv1a64", i);
      FieldMark(KeyText(key), rest, "actual_final_state", i);
    }
  }

  lemma NoInlineString(line: string, k: string)
    requires NoMark(line, k)
    ensures ExtractInlineString(line, k) == None && ExtractInlineScalar(line, k) == None
  {
    forall i: nat ensures !MatchesAt(line, InlineMark(k) + "\"", i) {
      MatchesConcat(line, InlineMark(k), "\"", i);
    }
  }

  lemma InlineUnchanged(rec: StoredRecord, line: string)
    requires Unmarked(line)
    ensures SetInline(rec, line) == rec
  {
    hide ExtractInlineString, ExtractInlineScalar;
    NoInlineString(line, "oracle_status");
    NoInlineString(line, "oracle_failure_reason");
    NoInlineString(line, "expected_final_state");
    NoInlineString(line, "expected_framebuffer_fnv1a64");
    NoInlineString(line, "actual_final_state");
  }

  // ----- the effect of each printed line -----

  function StoreText(rec: StoredRecord, key: Key, text: string): StoredRecord {
    match key
    case Id => rec.(id := text)
    case Name => rec.(name := text)
    case Kind => rec.(kind := text)
    case Outcome => rec.(outcome := text)
    case Unit => rec.(unit := text)
    case Direction => rec.(direction := text)
    case Framebuffer => rec.(actualValue := text)
    case _ => rec
  }

  function StoreNumber(rec: StoredRecord, key: Key, n: uint32): StoredRecord {
    match key
    case SampleCount => rec.(sampleCount := n)
    case Average => rec.(averageUs := n, hasMeasurement := true)
    case Minimum => rec.(minimumUs := n)
    case Maximum => rec.(maximumUs := n)
    case Median => rec.(medianUs := n, hasDistribution := true)
    case P95 => rec.(p95Us := n)
    case Mad => rec.(madUs := n)
    case _ => rec
  }

  lemma TextOfQuoted(rec: StoredRecord, key: Key, text: string, comma: bool)
    requires Plain(text)
    ensures SetText(rec, Render(Quoted(key, text, comma))) == StoreText(rec, key, text)
  {
    hide ExtractJsonString, Field, Render;
    QuotedString(key, text, comma, Id);
    QuotedString(key, text, comma, Name);
    QuotedString(key, text, comma, Kind);
    QuotedString(key, text, comma, Outcome);
    QuotedString(key, text, comma, Unit);
    QuotedString(key, text, comma, Direction);
    QuotedString(key, text, comma, Framebuffer);
  }

  lemma TextOfUnquoted(rec: StoredRecord, key: Key, rest: string)
    requires rest != "" && rest[0] != '"'
    ensures SetText(rec, Field(KeyText(key), rest)) == rec
  {
    hide ExtractJsonString, Field;
    UnquotedString(key, rest, Id);
    UnquotedString(key, rest, Name);
    UnquotedString(key, rest, Kind);
    UnquotedString(key, rest, Outcome);
    UnquotedString(key, rest, Unit);
    UnquotedString(key, rest, Direction);
    UnquotedString(key, rest, Framebuffer);
  }

  lemma NumbersOfNumber(rec: StoredRecord, key: Key, n: uint32)
    ensures SetNumbers(rec, Render(Number(key, n))) == StoreNumber(rec, key, n)
  {
    hide ExtractJsonUInt, Field;
    NumberUInt(key, n, SampleCount);
    NumberUInt(key, n, Average);
    NumberUInt(key, n, Minimum);
    NumberUInt(key, n, Maximum);
    NumberUInt(key, n, Median);
    NumberUInt(key, n, P95);
    NumberUInt(key, n, Mad);
  }

  lemma NumbersOfOther(rec: StoredRecord, key: Key, rest: string)
    requires rest != "" && !OpensNumber(rest[0])
    ensures SetNumbers(rec, Field(KeyText(key), rest)) == rec
  {
    hide ExtractJsonUInt, Field;
    OtherUInt(key, rest, SampleCount);
    OtherUInt(key, rest, Average);
    OtherUInt(key, rest, Minimum);
    OtherUInt(key, rest, Maximum);
    OtherUInt(key, rest, Median);
    OtherUInt(key, rest, P95);
    OtherUInt(key, rest, Mad);
  }

  lemma ApplyQuoted(rec: StoredRecord, key: Key, text: string, comma: bool)
    requires Plain(text)
    ensures ApplyLine(rec, Render(Quoted(key, text, comma))) == StoreText(rec, key, text)
  {
    hide SetText, SetNumbers, SetInline, StoreText, StoreNumber, Field;
    var rest := "\"" + text + "\"" + if comma then "," else "";
    TextOfQuoted(rec, key, text, comma);
    NumbersOfOther(StoreText(rec, key, text), key, rest);
    QuotedUnmarked(key, text, comma);
    InlineUnchanged(StoreText(rec, key, text), Field(KeyText(key), rest));
  }

  lemma QuotedUnmarked(key: Key, text: string, comma: bool)
    requires Plain(text)
    ensures Unmarked(Render(Quoted(key, text, comma)))
  {
    var after := if comma then "," else "";
    MarkWords();
    QuotedNoMark(text, after, "oracle_status");
    QuotedNoMark(text, after, "oracle_failure_reason");
    QuotedNoMark(text, after, "expected_final_state");
    QuotedNoMark(text, after, "expected_framebuffer_fnv1a64");
    QuotedNoMark(text, after, "actual_final_state");
    FieldUnmarked(key, "\"" + text + "\"" + after);
  }

  lemma NoQuoteUnmarked(line: string)
    requires '"' !in line
    ensures Unmarked(line)
  {
    NoQuoteNoMark(line, "oracle_status");
    NoQuoteNoMark(line, "oracle_failure_reason");
    NoQuoteNoMark(line, "expected_final_state");
    NoQuoteNoMark(line, "expected_framebuffer_fnv1a64");
    NoQuoteNoMark(line, "actual_final_state");
  }

  lemma ApplyNumber(rec: StoredRecord, key: Key, n: uint32)
    ensures ApplyLine(rec, Render(Number(key, n))) == StoreNumber(rec, key, n)
  {
    hide SetText, SetNumbers, SetInline, StoreText, StoreNumber, Field;
    var rest := Decimal(n) + ",";
    DecimalIsPlain(n);
    TextOfUnquoted(rec, key, rest);
    NumbersOfNumber(rec, key, n);
    NoQuoteUnmarked(rest);
    FieldUnmarked(key, rest);
    InlineUnchanged(StoreNumber(rec, key, n), Render(Number(key, n)));
  }

  /** The structural values `null,`, `[` and `[],` leave the record alone. */
  lemma ApplyStructure(rec: StoredRecord, key: Key, rest: string)
    requires Structural(rest)
    ensures ApplyLine(rec, Render(Other(key, rest))) == rec
  {
    hide SetText, SetNumbers, SetInline, StoreText, StoreNumber, Field;
    assert '"' !in rest;
    TextOfUnquoted(rec, key, rest);
    NumbersOfOther(rec, key, rest);
    NoQuoteUnmarked(rest);
    FieldUnmarked(key, rest);
    InlineUnchanged(rec, Render(Other(key, rest)));
  }

  lemma NoQuoteNoField(line: string, k: string)
    requires '"' !in line
    ensures ExtractJsonString(line, k) == None && ExtractJsonUInt(line, k) == None
  {
    if StartsWith(line, Prefix(k)) {
      QuotedKey(line, k);
    }
    LongerPrefix(line, k);
  }

  lemma TextOfNoQuote(rec: StoredRecord, line: string)
    requires '"' !in line
    ensures SetText(rec, line) == rec
  {
    hide ExtractJsonString, Field;
    NoQuoteNoField(line, "id");
    NoQuoteNoField(line, "name");
    NoQuoteNoField(line, "kind");
    NoQuoteNoField(line, "outcome");
    NoQuoteNoField(line, "unit");
    NoQuoteNoField(line, "direction");
    NoQuoteNoField(line, "framebuffer_fnv1a64");
  }

  lemma NumbersOfNoQuote(rec: StoredRecord, line: string)
    requires '"' !in line
    ensures SetNumbers(rec, line) == rec
  {
    hide ExtractJsonUInt, Field;
    NoQuoteNoField(line, "sample_count");
    NoQuoteNoField(line, "average_us");
    NoQuoteNoField(line, "min_us");
    NoQuoteNoField(line, "max_us");
    NoQuoteNoField(line, "median_us");
    NoQuoteNoField(line, "p95_us");
    NoQuoteNoField(line, "mad_us");
  }

  lemma ApplyUnquotedLine(rec: StoredRecord, line: string)
    requires '"' !in line
    ensures ApplyLine(rec, line) == rec
  {
    hide SetText, SetNumbers, SetInline, StoreText, StoreNumber, Field;
    TextOfNoQuote(rec, line);
    NumbersOfNoQuote(rec, line);
    NoQuoteUnmarked(line);
    InlineUnchanged(rec, line);
  }

  lemma ApplySample(rec: StoredRecord, value: uint32, last: bool)
    ensures ApplyLine(rec, Render(Sample(value, last))) == rec
  {
    hide SetText, SetNumbers, SetInline, StoreText, StoreNumber, Field;
    DecimalIsPlain(value);
    ApplyUnquotedLine(rec, Render(Sample(value, last)));
  }

  predicate NoTexts(line: string) {
    ExtractJsonString(line, "id") == None && ExtractJsonString(line, "name") == None &&
    ExtractJsonString(line, "kind") == None && ExtractJsonString(line, "outcome") == None &&
    ExtractJsonString(line, "unit") == None && ExtractJsonString(line, "direction") == None &&
    ExtractJsonString(line, "framebuffer_fnv1a64") == None
  }

  predicate NoNumbers(line: string) {
    ExtractJsonUInt(line, "sample_count") == None && ExtractJsonUInt(line, "average_us") == None &&
    ExtractJsonUInt(line, "min_us") == None && ExtractJsonUInt(line, "max_us") == None &&
    ExtractJsonUInt(line, "median_us") == None && ExtractJsonUInt(line, "p95_us") == None &&
    ExtractJsonUInt(line, "mad_us") == None
  }

  lemma NothingSet(rec: StoredRecord, line: string)
    ensures NoTexts(line) ==> SetText(rec, line) == rec
    ensures NoNumbers(line) ==> SetNumbers(rec, line) == rec
  {
    hide ExtractJsonString, ExtractJsonUInt;
  }

  lemma TextOfMetadata(metadata: string)
    ensures NoTexts(Field(KeyText(Metadata), metadata))
  {
    hide ExtractJsonString, Field;
    UnquotedString(Metadata, metadata, Id);
    UnquotedString(Metadata, metadata, Name);
    UnquotedString(Metadata, metadata, Kind);
    UnquotedString(Metadata, metadata, Outcome);
    UnquotedString(Metadata, metadata, Unit);
    UnquotedString(Metadata, metadata, Direction);
    UnquotedString(Metadata, metadata, Framebuffer);
  }

  lemma NumbersOfMetadata(metadata: string)
    ensures NoNumbers(Field(KeyText(Metadata), metadata))
  {
    hide ExtractJsonUInt, Field;
    OtherUInt(Metadata, metadata, SampleCount);
    OtherUInt(Metadata, metadata, Average);
    OtherUInt(Metadata, metadata, Minimum);
    OtherUInt(Metadata, metadata, Maximum);
    OtherUInt(Metadata, metadata, Median);
    OtherUInt(Metadata, metadata, P95);
    OtherUInt(Metadata, metadata, Mad);
  }

  lemma ApplyMetadata(rec: StoredRecord, metadata: string)
    ensures ApplyLine(rec, Render(Other(Metadata, metadata))) ==
            SetInline(rec, Render(Other(Metadata, metadata)))
  {
    hide SetText, SetNumbers, SetInline, StoreText, StoreNumber, Field;
    TextOfMetadata(metadata);
    NumbersOfMetadata(metadata);
    NothingSet(rec, Field(KeyText(Metadata), metadata));
  }

  // ----- the record stored from a printed record -----

  function StoreLine(rec: StoredRecord, line: Line): StoredRecord {
    match line
    case Number(key, value) => StoreNumber(rec, key, value)
    case Quoted(key, text, _) => StoreText(rec, key, text)
    case Other(key, rest) => if key == Metadata then SetInline(rec, Render(line)) else rec
    case _ => rec
  }

  lemma ApplyRender(rec: StoredRecord, line: Line)
    requires Tidy(line)
    ensures ApplyLine(rec, Render(line)) == StoreLine(rec, line)
  {
    hide ApplyLine, StoreText, StoreNumber, SetInline;
    match line
    case Number(key, value) => ApplyNumber(rec, key, value);
    case Quoted(key, text, comma) => ApplyQuoted(rec, key, text, comma);
    case Other(key, rest) =>
      if key == Metadata {
        ApplyMetadata(rec, rest);
      } else {
        ApplyStructure(rec, key, rest);
      }
    case Sample(value, last) => ApplySample(rec, value, last);
    case RawClose => ApplyUnquotedLine(rec, Render(line));
  }

  lemma {:induction false} ApplyRenderAll(rec: StoredRecord, lines: seq<Line>)
    requires AllTidy(lines)
    ensures ApplyAll(rec, RenderAll(lines)) == Fold(StoreLine, rec, lines)
    decreases |lines|
  {
    hide ApplyLine, StoreLine, Render;
    if lines != [] {
      assert RenderAll(lines)[1..] == RenderAll(lines[1..]);
      ApplyRender(rec, lines[0]);
      ApplyRenderAll(StoreLine(rec, lines[0]), lines[1..]);
    }
  }

  /** The record just before its closing line. */
  function Base(r: Record): StoredRecord {
    var p := ProfileOf(r);
    StoredRecord(r.id, r.name, if r.Leaf? then "leaf" else "group", r.outcome,
                 p.average, p.minimum, p.maximum, p.median, p.p95, p.mad, p.sampleCount,
                 true, true, false, false, "us", DirectionText(r), "", "", r.hash)
  }

  function Stored(r: Record): StoredRecord {
    Close(if r.metadata == "" then Base(r) else SetInline(Base(r), Render(Other(Metadata, r.metadata))))
  }

  function AfterHead(r: Record): StoredRecord {
    BLANK.(id := r.id, kind := if r.Leaf? then "leaf" else "group", name := r.name, outcome := r.outcome)
  }

  lemma StoreHead(r: Record)
    ensures Fold(StoreLine, BLANK, HeadLines(r)) == AfterHead(r)
  {
    hide SetInline, Render;
    var h := HeadLines(r);
    assert h == [h[0], h[1], h[2]] + [h[3], h[4], h[5]];
    FoldAppend(StoreLine, BLANK, [h[0], h[1], h[2]], [h[3], h[4], h[5]]);
    FoldThree(StoreLine, BLANK, h[0], h[1], h[2]);
    FoldThree(StoreLine, BLANK.(id := r.id), h[3], h[4], h[5]);
  }

  function AfterWork(r: Record): StoredRecord {
    AfterHead(r).(sampleCount := ProfileOf(r).sampleCount)
  }

  lemma StoreExtra(r: Record)
    requires r.Group?
    ensures Fold(StoreLine, AfterHead(r), [Number(ChildCount, r.childCount), Other(Measurement, "null,")]) ==
            AfterHead(r)
  {
    hide SetInline, Render;
    StoreNothing(AfterHead(r), [Number(ChildCount, r.childCount), Other(Measurement, "null,")]);
  }

  lemma StorePlainWork(r: Record)
    ensures
      var p := ProfileOf(r);
      Fold(StoreLine, AfterHead(r),
           [Number(Iterations, p.iterations), Number(SampleCount, p.sampleCount), Number(Multiplier, p.multiplier)] +
           [Number(Warmup, p.warmup), Quoted(Mode, r.mode, true), Number(CompletionWait, p.completionWait)]) ==
      AfterWork(r)
  {
    hide SetInline, Render, AfterHead;
    var p := ProfileOf(r);
    var a := [Number(Iterations, p.iterations), Number(SampleCount, p.sampleCount), Number(Multiplier, p.multiplier)];
    var b := [Number(Warmup, p.warmup), Quoted(Mode, r.mode, true), Number(CompletionWait, p.completionWait)];
    FoldAppend(StoreLine, AfterHead(r), a, b);
    FoldThree(StoreLine, AfterHead(r), a[0], a[1], a[2]);
    StoreNothing(AfterWork(r), b);
  }

  lemma StoreWork(r: Record)
    ensures Fold(StoreLine, AfterHead(r), WorkLines(r)) == AfterWork(r)
  {
    hide SetInline, Render, AfterHead, AfterWork, StoreLine;
    var extra := if r.Leaf? then [] else [Number(ChildCount, r.childCount), Other(Measurement, "null,")];
    var p := ProfileOf(r);
    var rest := [Number(Iterations, p.iterations), Number(SampleCount, p.sampleCount), Number(Multiplier, p.multiplier)] +
                [Number(Warmup, p.warmup), Quoted(Mode, r.mode, true), Number(CompletionWait, p.completionWait)];
    assert WorkLines(r) == extra + rest;
    FoldAppend(StoreLine, AfterHead(r), extra, rest);
    StorePlainWork(r);
    if r.Group? {
      StoreExtra(r);
    }
  }

  lemma StoreTimingA(r: Record, rec: StoredRecord)
    ensures
      var p := ProfileOf(r);
      Fold(StoreLine, rec, [Number(Total, p.total), Number(Average, p.average), Number(Minimum, p.minimum)]) ==
      rec.(averageUs := p.average, hasMeasurement := true, minimumUs := p.minimum)
  {
    hide SetInline, Render;
    var p := ProfileOf(r);
    FoldThree(StoreLine, rec, Number(Total, p.total), Number(Average, p.average), Number(Minimum, p.minimum));
  }

  lemma StoreTimingB(r: Record, rec: StoredRecord)
    ensures
      var p := ProfileOf(r);
      Fold(StoreLine, rec, [Number(Maximum, p.maximum), Number(Median, p.median), Number(P95, p.p95)]) ==
      rec.(maximumUs := p.maximum, medianUs := p.median, hasDistribution := true, p95Us := p.p95)
  {
    hide SetInline, Render;
    var p := ProfileOf(r);
    FoldThree(StoreLine, rec, Number(Maximum, p.maximum), Number(Median, p.median), Number(P95, p.p95));
  }

  lemma StoreTimingC(r: Record, rec: StoredRecord)
    ensures
      Fold(StoreLine, rec,
           [Number(Mad, ProfileOf(r).mad), Quoted(Unit, "us", true), Quoted(Direction, DirectionText(r), true)]) ==
      rec.(madUs := ProfileOf(r).mad, unit := "us", direction := DirectionText(r))
  {
    hide SetInline, Render;
    FoldThree(StoreLine, rec, Number(Mad, ProfileOf(r).mad), Quoted(Unit, "us", true),
              Quoted(Direction, DirectionText(r), true));
  }

  lemma StoreTiming(r: Record)
    ensures Fold(StoreLine, AfterWork(r), TimingLines(r)) == Base(r).(actualValue := "")
  {
    hide SetInline, Render, StoreLine;
    var p := ProfileOf(r);
    var a := [Number(Total, p.total), Number(Average, p.average), Number(Minimum, p.minimum)];
    var b := [Number(Maximum, p.maximum), Number(Median, p.median), Number(P95, p.p95)];
    var c := [Number(Mad, p.mad), Quoted(Unit, "us", true), Quoted(Direction, DirectionText(r), true)];
    var s0 := AfterWork(r);
    var s1 := s0.(averageUs := p.average, hasMeasurement := true, minimumUs := p.minimum);
    var s2 := s1.(maximumUs := p.maximum, medianUs := p.median, hasDistribution := true, p95Us := p.p95);
    assert TimingLines(r) == a + b + c;
    FoldAppend(StoreLine, s0, a + b, c);
    FoldAppend(StoreLine, s0, a, b);
    StoreTimingA(r, s0);
    StoreTimingB(r, s1);
    StoreTimingC(r, s2);
  }

  lemma StoreRaw(r: Record, rec: StoredRecord)
    ensures Fold(StoreLine, rec, RawLines(r)) == rec
  {
    hide SetInline, Render;
    StoreNothing(rec, RawLines(r));
  }

  lemma {:induction false} StoreNothing(rec: StoredRecord, lines: seq<Line>)
    requires forall i :: 0 <= i < |lines| ==> StoreLine(rec, lines[i]) == rec
    ensures Fold(StoreLine, rec, lines) == rec
    decreases |lines|
  {
    hide SetInline, Render;
    if lines != [] {
      StoreNothing(rec, lines[1..]);
    }
  }

  lemma StoreTail(r: Record)
    ensures Close(Fold(StoreLine, Base(r).(actualValue := ""), TailLines(r))) == Stored(r)
  {
    hide SetInline, Render, Close;
    var t := TailLines(r);
    assert Base(r).(actualValue := "").(actualValue := r.hash) == Base(r);
    if r.metadata == "" {
      FoldOne(StoreLine, Base(r).(actualValue := ""), t[0]);
    } else {
      assert t[1..] == [t[1]];
      FoldOne(StoreLine, Base(r), t[1]);
    }
  }

  /** Reading a record's body lines gives, once closed, its stored form. */
  lemma StoreBody(r: Record)
    requires Printable(r)
    ensures Close(ApplyAll(BLANK, RenderAll(BodyLines(r)))) == Stored(r)
  {
    hide SetInline, Render, StoreLine, HeadLines, WorkLines, TimingLines, TailLines;
    var a, b, c, d, e := HeadLines(r), WorkLines(r), TimingLines(r), RawLines(r), TailLines(r);
    BodyIsTidy(r);
    ApplyRenderAll(BLANK, BodyLines(r));
    FoldAppend(StoreLine, BLANK, a + b + c + d, e);
    FoldAppend(StoreLine, BLANK, a + b + c, d);
    FoldAppend(StoreLine, BLANK, a + b, c);
    FoldAppend(StoreLine, BLANK, a, b);
    StoreHead(r);
    StoreWork(r);
    StoreTiming(r);
    StoreRaw(r, Base(r).(actualValue := ""));
    StoreTail(r);
  }
}
