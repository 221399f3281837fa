/** The printed record by its keys: each literal key stands on one line, with the value of its own field. */
module PrintedKeys {
  import opened Text
  import opened ResultFile
  import opened ResultReader
  import opened ResultRoundTrip

  /** Exactly one line opens with the key, and `rest` follows the key's colon and blank. */
  ghost predicate Under(lines: seq<string>, key: string, rest: string) {
    var opening := "    \"" + key + "\": ";
    exists i :: 0 <= i < |lines| && lines[i] == opening + rest &&
      forall j :: 0 <= j < |lines| && j != i ==> !StartsWith(lines[j], opening)
  }

  /** Exactly one line carries a number under the key, and it is this one. */
  ghost predicate PrintsNumber(lines: seq<string>, key: string, n: uint32) {
    Under(lines, key, Decimal(n) + ",") &&
    exists i :: 0 <= i < |lines| && ExtractJsonUInt(lines[i], key) == Some(n) &&
      forall j :: 0 <= j < |lines| && j != i ==> ExtractJsonUInt(lines[j], key) == None
  }

  /** Exactly one line carries a text under the key, and it is this one; `after` follows the closing quote. */
  ghost predicate PrintsText(lines: seq<string>, key: string, text: string, after: string) {
    Under(lines, key, "\"" + text + "\"" + after) &&
    exists i :: 0 <= i < |lines| && ExtractJsonString(lines[i], key) == Some(text) &&
      forall j :: 0 <= j < |lines| && j != i ==> ExtractJsonString(lines[j], key) == None
  }

  /** No line opens with the key. */
  predicate Absent(lines: seq<string>, key: string) {
    forall i :: 0 <= i < |lines| ==> !StartsWith(lines[i], "    \"" + key + "\": ")
  }

  // ----- one key among the lines -----

  function KeyOf(line: Line): Option<Key> {
    match line
    case Number(key, _) => Some(key)
    case Quoted(key, _, _) => Some(key)
    case Other(key, _) => Some(key)
    case _ => None
  }

  function RestOf(line: Line): string {
    match line
    case Number(_, value) => Decimal(value) + ","
    case Quoted(_, text, comma) => "\"" + text + "\"" + if comma then "," else ""
    case Other(_, rest) => rest
    case _ => ""
  }

  predicate Without(lines: seq<Line>, key: Key) {
    forall i :: 0 <= i < |lines| ==> KeyOf(lines[i]) != Some(key)
  }

  ghost predicate OnlyAt(lines: seq<Line>, key: Key, line: Line, i: int) {
    0 <= i < |lines| && lines[i] == line && KeyOf(line) == Some(key) &&
    forall j :: 0 <= j < |lines| && j != i ==> KeyOf(lines[j]) != Some(key)
  }

  ghost predicate Only(lines: seq<Line>, key: Key, line: Line) {
    exists i :: OnlyAt(lines, key, line, i)
  }

  lemma OnlyInFront(a: seq<Line>, b: seq<Line>, key: Key, line: Line)
    requires Only(a, key, line) && Without(b, key)
    ensures Only(a + b, key, line)
  {
    hide KeyOf;
    var i :| OnlyAt(a, key, line, i);
    assert OnlyAt(a + b, key, line, i);
  }

  lemma OnlyBehind(a: seq<Line>, b: seq<Line>, key: Key, line: Line)
    requires Without(a, key) && Only(b, key, line)
    ensures Only(a + b, key, line)
  {
    hide KeyOf;
    var i :| OnlyAt(b, key, line, i);
    forall j | 0 <= j < |a + b| && j != |a| + i ensures KeyOf((a + b)[j]) != Some(key) {
      assert j >= |a| ==> (a + b)[j] == b[j - |a|];
    }
    assert OnlyAt(a + b, key, line, |a| + i);
  }

  lemma WithoutBoth(a: seq<Line>, b: seq<Line>, key: Key)
    requires Without(a, key) && Without(b, key)
    ensures Without(a + b, key)
  {
    hide KeyOf;
  }

  lemma OnlyAppend(a: seq<Line>, b: seq<Line>, key: Key, line: Line)
    ensures Only(a, key, line) && Without(b, key) ==> Only(a + b, key, line)
    ensures Without(a, key) && Only(b, key, line) ==> Only(a + b, key, line)
    ensures Without(a, key) && Without(b, key) ==> Without(a + b, key)
  {
    hide Only, Without;
    if Only(a, key, line) && Without(b, key) {
      OnlyInFront(a, b, key, line);
    }
    if Without(a, key) && Only(b, key, line) {
      OnlyBehind(a, b, key, line);
    }
    if Without(a, key) && Without(b, key) {
      WithoutBoth(a, b, key);
    }
  }

  lemma LineOpens(line: Line, key: Key)
    ensures StartsWith(Render(line), "    \"" + KeyText(key) + "\": ") <==> KeyOf(line) == Some(key)
    ensures KeyOf(line) == Some(key) ==> Render(line) == "    \"" + KeyText(key) + "\": " + RestOf(line)
  {
    hide KeyText, Decimal;
    match line
    case Number(k, value) => FieldKey(k, key, Decimal(value) + ",");
    case Quoted(k, text, comma) => FieldKey(k, key, "\"" + text + "\"" + if comma then "," else "");
    case Other(k, rest) => FieldKey(k, key, rest);
    case Sample(value, last) => NoKeyOpens(Render(line), KeyText(key));
    case RawClose => NoKeyOpens("    ],", KeyText(key));
  }

  lemma OpeningChar(line: string, opening: string, i: nat)
    requires i < |opening|
    ensures StartsWith(line, opening) ==> i < |line| && line[i] == opening[i]
  {
    if StartsWith(line, opening) {
      assert line[0..|opening|][i] == line[i];
    }
  }

  lemma NoKeyOpens(line: string, key: string)
    requires |line| < 5 || line[4] != '"'
    ensures !StartsWith(line, "    \"" + key + "\": ")
  {
    var opening := "    \"" + key + "\": ";
    assert opening[4] == '"';
    OpeningChar(line, opening, 4);
  }

  /** The one line of a key among a record's body lines is its one line in the record. */
  lemma OnlyIsUnder(body: seq<Line>, key: Key, line: Line)
    requires Only(body, key, line)
    ensures Under(["  {"] + RenderAll(body) + ["  }"], KeyText(key), RestOf(line))
  {
    hide KeyText, Render, RestOf, KeyOf, StartsWith;
    var lines := ["  {"] + RenderAll(body) + ["  }"];
    var i :| OnlyAt(body, key, line, i);
    var opening := "    \"" + KeyText(key) + "\": ";
    LineOpens(line, key);
    assert lines[i + 1] == opening + RestOf(line);
    forall j | 0 <= j < |lines| && j != i + 1 ensures !StartsWith(lines[j], opening) {
      if 0 < j < |lines| - 1 {
        assert lines[j] == Render(body[j - 1]);
        LineOpens(body[j - 1], key);
      } else {
        NoKeyOpens(lines[j], KeyText(key));
      }
    }
  }

  lemma WithoutIsAbsent(body: seq<Line>, key: Key)
    requires Without(body, key)
    ensures Absent(["  {"] + RenderAll(body) + ["  }"], KeyText(key))
  {
    hide KeyText, Render, KeyOf, StartsWith;
    var lines := ["  {"] + RenderAll(body) + ["  }"];
    forall j | 0 <= j < |lines| ensures !StartsWith(lines[j], "    \"" + KeyText(key) + "\": ") {
      if 0 < j < |lines| - 1 {
        assert lines[j] == Render(body[j - 1]);
        LineOpens(body[j - 1], key);
      } else {
        NoKeyOpens(lines[j], KeyText(key));
      }
    }
  }

  lemma NumberUnder(lines: seq<string>, key: string, n: uint32)
    requires Under(lines, key, Decimal(n) + ",")
    ensures PrintsNumber(lines, key, n)
  {
    hide Decimal, StartsWith, ScanUnsigned;
    var rest, opening := Decimal(n) + ",", "    \"" + key + "\": ";
    var i :| 0 <= i < |lines| && lines[i] == opening + rest &&
      forall j :: 0 <= j < |lines| && j != i ==> !StartsWith(lines[j], opening);
    StartsWithOpening(opening, rest);
    assert rest[..|Decimal(n)|] == Decimal(n);
    ScanDecimal(rest, 0, n);
  }

  lemma StartsWithOpening(opening: string, rest: string)
    ensures StartsWith(opening + rest, opening) && (opening + rest)[|opening|..] == rest
  {
  }

  lemma TextUnder(lines: seq<string>, key: string, text: string, after: string)
    requires Under(lines, key, "\"" + text + "\"" + after) && '"' !in text
    ensures PrintsText(lines, key, text, after)
  {
    hide StartsWith, FindAny;
    var rest, opening := "\"" + text + "\"" + after, "    \"" + key + "\": ";
    var i :| 0 <= i < |lines| && lines[i] == opening + rest &&
      forall j :: 0 <= j < |lines| && j != i ==> !StartsWith(lines[j], opening);
    QuotedValue(key, text, after);
    assert lines[i] == Field(key, rest);
    forall j | 0 <= j < |lines| && j != i ensures ExtractJsonString(lines[j], key) == None {
      LongerPrefix(lines[j], key);
    }
  }

  // ----- the sections of a record -----

  predicate InHead(key: Key) {
    key == SchemaVersion || key == Id || key == Revision || key == Kind || key == Name || key == ResultFile.Outcome
  }

  predicate InWork(r: Record, key: Key) {
    key == Iterations || key == SampleCount || key == Multiplier || key == Warmup || key == Mode || key == CompletionWait ||
    (r.Group? && (key == ChildCount || key == Measurement))
  }

  predicate InTiming(key: Key) {
    key == Total || key == Average || key == Minimum || key == Maximum || key == Median || key == P95 || key == Mad ||
    key == Unit || key == Direction
  }

  predicate InTail(r: Record, key: Key) {
    key == Framebuffer || (key == Metadata && r.metadata != "")
  }

  lemma OnlyFirst(lines: seq<Line>, key: Key, i: nat)
    requires i < |lines| && KeyOf(lines[i]) == Some(key)
    requires forall j :: 0 <= j < |lines| && j != i ==> KeyOf(lines[j]) != Some(key)
    ensures Only(lines, key, lines[i])
  {
    hide KeyOf;
    assert OnlyAt(lines, key, lines[i], i);
  }

  lemma HeadElsewhere(r: Record, key: Key)
    requires !InHead(key)
    ensures Without(HeadLines(r), key)
  {
  }

  lemma WorkElsewhere(r: Record, key: Key)
    requires !InWork(r, key)
    ensures Without(WorkLines(r), key)
  {
  }

  lemma TimingElsewhere(r: Record, key: Key)
    requires !InTiming(key)
    ensures Without(TimingLines(r), key)
  {
  }

  lemma RawElsewhere(r: Record, key: Key)
    requires key != RawResults
    ensures Without(RawLines(r), key)
  {
  }

  lemma TailElsewhere(r: Record, key: Key)
    requires !InTail(r, key)
    ensures Without(TailLines(r), key)
  {
  }

  lemma SectionsElsewhere(r: Record, key: Key)
    ensures !InHead(key) ==> Without(HeadLines(r), key)
    ensures !InWork(r, key) ==> Without(WorkLines(r), key)
    ensures !InTiming(key) ==> Without(TimingLines(r), key)
    ensures key != RawResults ==> Without(RawLines(r), key)
    ensures !InTail(r, key) ==> Without(TailLines(r), key)
  {
    hide InHead, InWork, InTiming, InTail, Without;
    if !InHead(key) {
      HeadElsewhere(r, key);
    }
    if !InWork(r, key) {
      WorkElsewhere(r, key);
    }
    if !InTiming(key) {
      TimingElsewhere(r, key);
    }
    if key != RawResults {
      RawElsewhere(r, key);
    }
    if !InTail(r, key) {
      TailElsewhere(r, key);
    }
  }

  lemma OnceInHead(r: Record, key: Key, i: nat)
    requires InHead(key) && i < 6 && KeyOf(HeadLines(r)[i]) == Some(key)
    ensures Only(HeadLines(r), key, HeadLines(r)[i])
  {
    OnlyFirst(HeadLines(r), key, i);
  }

  lemma FromHead(r: Record, key: Key, i: nat)
    requires InHead(key) && i < 6 && KeyOf(HeadLines(r)[i]) == Some(key)
    ensures Only(BodyLines(r), key, HeadLines(r)[i])
  {
    OnceInHead(r, key, i);
    hide HeadLines, WorkLines, TimingLines, RawLines, TailLines, Only, Without;
    SectionsElsewhere(r, key);
    Gather(r, key, HeadLines(r)[i]);
  }

  lemma OnceInWork(r: Record, key: Key, i: nat)
    requires InWork(r, key) && i < |WorkLines(r)| && KeyOf(WorkLines(r)[i]) == Some(key)
    ensures Only(WorkLines(r), key, WorkLines(r)[i])
  {
    OnlyFirst(WorkLines(r), key, i);
  }

  lemma FromWork(r: Record, key: Key, i: nat)
    requires InWork(r, key) && i < |WorkLines(r)| && KeyOf(WorkLines(r)[i]) == Some(key)
    ensures Only(BodyLines(r), key, WorkLines(r)[i])
  {
    OnceInWork(r, key, i);
    hide HeadLines, WorkLines, TimingLines, RawLines, TailLines, Only, Without;
    SectionsElsewhere(r, key);
    Gather(r, key, WorkLines(r)[i]);
  }

  lemma OnceInTiming(r: Record, key: Key, i: nat)
    requires InTiming(key) && i < 9 && KeyOf(TimingLines(r)[i]) == Some(key)
    ensures Only(TimingLines(r), key, TimingLines(r)[i])
  {
    OnlyFirst(TimingLines(r), key, i);
  }

  lemma FromTiming(r: Record, key: Key, i: nat)
    requires InTiming(key) && i < 9 && KeyOf(TimingLines(r)[i]) == Some(key)
    ensures Only(BodyLines(r), key, TimingLines(r)[i])
  {
    OnceInTiming(r, key, i);
    hide HeadLines, WorkLines, TimingLines, RawLines, TailLines, Only, Without;
    SectionsElsewhere(r, key);
    Gather(r, key, TimingLines(r)[i]);
  }

  lemma OnceInRaw(r: Record, key: Key, i: nat)
    requires key == RawResults && i < 1 && KeyOf(RawLines(r)[i]) == Some(key)
    ensures Only(RawLines(r), key, RawLines(r)[i])
  {
    OnlyFirst(RawLines(r), key, i);
  }

  lemma FromRaw(r: Record, key: Key, i: nat)
    requires key == RawResults && i < 1 && KeyOf(RawLines(r)[i]) == Some(key)
    ensures Only(BodyLines(r), key, RawLines(r)[i])
  {
    OnceInRaw(r, key, i);
    hide HeadLines, WorkLines, TimingLines, RawLines, TailLines, Only, Without;
    SectionsElsewhere(r, key);
    Gather(r, key, RawLines(r)[i]);
  }

  lemma OnceInTail(r: Record, key: Key, i: nat)
    requires InTail(r, key) && i < |TailLines(r)| && KeyOf(TailLines(r)[i]) == Some(key)
    ensures Only(TailLines(r), key, TailLines(r)[i])
  {
    OnlyFirst(TailLines(r), key, i);
  }

  lemma FromTail(r: Record, key: Key, i: nat)
    requires InTail(r, key) && i < |TailLines(r)| && KeyOf(TailLines(r)[i]) == Some(key)
    ensures Only(BodyLines(r), key, TailLines(r)[i])
  {
    OnceInTail(r, key, i);
    hide HeadLines, WorkLines, TimingLines, RawLines, TailLines, Only, Without;
    SectionsElsewhere(r, key);
    Gather(r, key, TailLines(r)[i]);
  }

  /** A key that one section holds once and the others not is held once by the body. */
  lemma Gather(r: Record, key: Key, line: Line)
    requires
      var h, w, t, a, e := HeadLines(r), WorkLines(r), TimingLines(r), RawLines(r), TailLines(r);
      (Only(h, key, line) && Without(w, key) && Without(t, key) && Without(a, key) && Without(e, key)) ||
      (Without(h, key) && Only(w, key, line) && Without(t, key) && Without(a, key) && Without(e, key)) ||
      (Without(h, key) && Without(w, key) && Only(t, key, line) && Without(a, key) && Without(e, key)) ||
      (Without(h, key) && Without(w, key) && Without(t, key) && Only(a, key, line) && Without(e, key)) ||
      (Without(h, key) && Without(w, key) && Without(t, key) && Without(a, key) && Only(e, key, line))
    ensures Only(BodyLines(r), key, line)
  {
    hide HeadLines, WorkLines, TimingLines, RawLines, TailLines, Only, Without;
    var h, w, t, a, e := HeadLines(r), WorkLines(r), TimingLines(r), RawLines(r), TailLines(r);
    OnlyAppend(h, w, key, line);
    OnlyAppend(h + w, t, key, line);
    OnlyAppend(h + w + t, a, key, line);
    OnlyAppend(h + w + t + a, e, key, line);
  }

  lemma NumberPrinted(r: Record, key: Key, text: string, n: uint32)
    requires Only(BodyLines(r), key, Number(key, n)) && KeyText(key) == text
    ensures PrintsNumber(RecordLines(r), text, n)
  {
    hide BodyLines, Only, KeyText, Under, PrintsNumber;
    OnlyIsUnder(BodyLines(r), key, Number(key, n));
    NumberUnder(RecordLines(r), text, n);
  }

  lemma TextPrinted(r: Record, key: Key, text: string, value: string, comma: bool)
    requires Only(BodyLines(r), key, Quoted(key, value, comma)) && KeyText(key) == text && '"' !in value
    ensures PrintsText(RecordLines(r), text, value, if comma then "," else "")
  {
    hide BodyLines, Only, KeyText, Under, PrintsText;
    OnlyIsUnder(BodyLines(r), key, Quoted(key, value, comma));
    TextUnder(RecordLines(r), text, value, if comma then "," else "");
  }

  lemma OtherPrinted(r: Record, key: Key, text: string, rest: string)
    requires Only(BodyLines(r), key, Other(key, rest)) && KeyText(key) == text
    ensures Under(RecordLines(r), text, rest)
  {
    hide BodyLines, Only, KeyText, Under;
    OnlyIsUnder(BodyLines(r), key, Other(key, rest));
  }

  lemma TextsArePlain(r: Record)
    requires Printable(r)
    ensures '"' !in r.id && '"' !in r.name && '"' !in r.outcome && '"' !in r.mode && '"' !in r.hash
  {
  }

  lemma HeadWords()
    ensures KeyText(SchemaVersion) == "schema_version" && KeyText(Id) == "id" && KeyText(Revision) == "revision"
    ensures KeyText(Kind) == "kind" && KeyText(Name) == "name" && KeyText(ResultFile.Outcome) == "outcome"
    ensures '"' !in "leaf" && '"' !in "group"
  {
  }

  lemma ContractWords()
    ensures KeyText(Iterations) == "iterations" && KeyText(SampleCount) == "sample_count"
    ensures KeyText(Multiplier) == "measurement_iterations_multiplier" && KeyText(Warmup) == "warmup_iterations"
    ensures KeyText(Mode) == "gpu_completion_mode" && KeyText(CompletionWait) == "completion_wait_us"
  {
  }

  lemma TimingWords()
    ensures KeyText(Total) == "total_us" && KeyText(Average) == "average_us" && KeyText(Minimum) == "min_us"
    ensures KeyText(Maximum) == "max_us" && KeyText(Median) == "median_us" && KeyText(P95) == "p95_us"
    ensures KeyText(Mad) == "mad_us" && KeyText(Unit) == "unit" && KeyText(Direction) == "direction"
  {
  }

  // ----- what is printed under each key -----

  /** Identity and outcome, the same for leaves and groups. */
  ghost predicate HeadPrinted(r: Record, kind: string) {
    var lines := RecordLines(r);
    PrintsNumber(lines, "schema_version", 1) && PrintsText(lines, "id", r.id, ",") &&
    PrintsNumber(lines, "revision", r.revision) && PrintsText(lines, "kind", kind, ",") &&
    PrintsText(lines, "name", r.name, ",") && PrintsText(lines, "outcome", r.outcome, ",")
  }

  /** The contract of the measurement. */
  ghost predicate ContractPrinted(r: Record, iterations: uint32, samples: uint32, multiplier: uint32, warmup: uint32,
                                  wait: uint32) {
    var lines := RecordLines(r);
    PrintsNumber(lines, "iterations", iterations) && PrintsNumber(lines, "sample_count", samples) &&
    PrintsNumber(lines, "measurement_iterations_multiplier", multiplier) &&
    PrintsNumber(lines, "warmup_iterations", warmup) && PrintsText(lines, "gpu_completion_mode", r.mode, ",") &&
    PrintsNumber(lines, "completion_wait_us", wait)
  }

  ghost predicate TimingPrinted(r: Record, total: uint32, average: uint32, minimum: uint32, maximum: uint32,
                                median: uint32, p95: uint32, mad: uint32, direction: string) {
    var lines := RecordLines(r);
    PrintsNumber(lines, "total_us", total) && PrintsNumber(lines, "average_us", average) &&
    PrintsNumber(lines, "min_us", minimum) && PrintsNumber(lines, "max_us", maximum) &&
    PrintsNumber(lines, "median_us", median) && PrintsNumber(lines, "p95_us", p95) &&
    PrintsNumber(lines, "mad_us", mad) && PrintsText(lines, "unit", "us", ",") &&
    PrintsText(lines, "direction", direction, ",")
  }

  /** The frame hash, and the metadata behind it when there is any. */
  ghost predicate TailPrinted(r: Record) {
    var lines := RecordLines(r);
    PrintsText(lines, "framebuffer_fnv1a64", r.hash, if r.metadata == "" then "" else ",") &&
    if r.metadata == "" then Absent(lines, "metadata") else Under(lines, "metadata", r.metadata)
  }

  lemma HeadKeys(r: Record)
    requires Printable(r)
    ensures HeadPrinted(r, if r.Leaf? then "leaf" else "group")
  {
    hide PrintsNumber, PrintsText, RecordLines, BodyLines, Only, KeyText, Printable, Plain;
    var kind := if r.Leaf? then "leaf" else "group";
    TextsArePlain(r);
    HeadWords();
    FromHead(r, SchemaVersion, 0);
    NumberPrinted(r, SchemaVersion, "schema_version", 1);
    FromHead(r, Id, 1);
    TextPrinted(r, Id, "id", r.id, true);
    FromHead(r, Revision, 2);
    NumberPrinted(r, Revision, "revision", r.revision);
    FromHead(r, Kind, 3);
    TextPrinted(r, Kind, "kind", kind, true);
    FromHead(r, Name, 4);
    TextPrinted(r, Name, "name", r.name, true);
    FromHead(r, ResultFile.Outcome, 5);
    TextPrinted(r, ResultFile.Outcome, "outcome", r.outcome, true);
  }

  lemma LeafContract(r: Record)
    requires Printable(r) && r.Leaf?
    ensures ContractPrinted(r, r.profile.iterations, r.profile.sampleCount, r.profile.multiplier, r.profile.warmup,
                            r.profile.completionWait)
  {
    hide PrintsNumber, PrintsText, RecordLines, BodyLines, Only, KeyText, Printable, Plain;
    TextsArePlain(r);
    ContractWords();
    FromWork(r, Iterations, 0);
    NumberPrinted(r, Iterations, "iterations", r.profile.iterations);
    FromWork(r, SampleCount, 1);
    NumberPrinted(r, SampleCount, "sample_count", r.profile.sampleCount);
    FromWork(r, Multiplier, 2);
    NumberPrinted(r, Multiplier, "measurement_iterations_multiplier", r.profile.multiplier);
    FromWork(r, Warmup, 3);
    NumberPrinted(r, Warmup, "warmup_iterations", r.profile.warmup);
    FromWork(r, Mode, 4);
    TextPrinted(r, Mode, "gpu_completion_mode", r.mode, true);
    FromWork(r, CompletionWait, 5);
    NumberPrinted(r, CompletionWait, "completion_wait_us", r.profile.completionWait);
  }

  lemma GroupContract(r: Record)
    requires Printable(r) && r.Group?
    ensures ContractPrinted(r, 0, 0, r.multiplier, r.warmup, 0)
  {
    hide PrintsNumber, PrintsText, RecordLines, BodyLines, Only, KeyText, Printable, Plain;
    TextsArePlain(r);
    ContractWords();
    FromWork(r, Iterations, 2);
    NumberPrinted(r, Iterations, "iterations", 0);
    FromWork(r, SampleCount, 3);
    NumberPrinted(r, SampleCount, "sample_count", 0);
    FromWork(r, Multiplier, 4);
    NumberPrinted(r, Multiplier, "measurement_iterations_multiplier", r.multiplier);
    FromWork(r, Warmup, 5);
    NumberPrinted(r, Warmup, "warmup_iterations", r.warmup);
    FromWork(r, Mode, 6);
    TextPrinted(r, Mode, "gpu_completion_mode", r.mode, true);
    FromWork(r, CompletionWait, 7);
    NumberPrinted(r, CompletionWait, "completion_wait_us", 0);
  }

  lemma LeafTiming(r: Record)
    requires Printable(r) && r.Leaf?
    ensures TimingPrinted(r, r.profile.total, r.profile.average, r.profile.minimum, r.profile.maximum,
                          r.profile.median, r.profile.p95, r.profile.mad, "lower_is_better")
  {
    hide PrintsNumber, PrintsText, RecordLines, BodyLines, Only, KeyText, Printable, Plain;
    TimingWords();
    assert '"' !in "us" && '"' !in "lower_is_better";
    FromTiming(r, Total, 0);
    NumberPrinted(r, Total, "total_us", r.profile.total);
    FromTiming(r, Average, 1);
    NumberPrinted(r, Average, "average_us", r.profile.average);
    FromTiming(r, Minimum, 2);
    NumberPrinted(r, Minimum, "min_us", r.profile.minimum);
    FromTiming(r, Maximum, 3);
    NumberPrinted(r, Maximum, "max_us", r.profile.maximum);
    FromTiming(r, Median, 4);
    NumberPrinted(r, Median, "median_us", r.profile.median);
    FromTiming(r, P95, 5);
    NumberPrinted(r, P95, "p95_us", r.profile.p95);
    FromTiming(r, Mad, 6);
    NumberPrinted(r, Mad, "mad_us", r.profile.mad);
    FromTiming(r, Unit, 7);
    TextPrinted(r, Unit, "unit", "us", true);
    FromTiming(r, Direction, 8);
    TextPrinted(r, Direction, "direction", "lower_is_better", true);
  }

  lemma GroupTiming(r: Record)
    requires Printable(r) && r.Group?
    ensures TimingPrinted(r, 0, 0, 0, 0, 0, 0, 0, "neutral")
  {
    hide PrintsNumber, PrintsText, RecordLines, BodyLines, Only, KeyText, Printable, Plain;
    TimingWords();
    assert '"' !in "us" && '"' !in "neutral";
    FromTiming(r, Total, 0);
    NumberPrinted(r, Total, "total_us", 0);
    FromTiming(r, Average, 1);
    NumberPrinted(r, Average, "average_us", 0);
    FromTiming(r, Minimum, 2);
    NumberPrinted(r, Minimum, "min_us", 0);
    FromTiming(r, Maximum, 3);
    NumberPrinted(r, Maximum, "max_us", 0);
    FromTiming(r, Median, 4);
    NumberPrinted(r, Median, "median_us", 0);
    FromTiming(r, P95, 5);
    NumberPrinted(r, P95, "p95_us", 0);
    FromTiming(r, Mad, 6);
    NumberPrinted(r, Mad, "mad_us", 0);
    FromTiming(r, Unit, 7);
    TextPrinted(r, Unit, "unit", "us", true);
    FromTiming(r, Direction, 8);
    TextPrinted(r, Direction, "direction", "neutral", true);
  }

  lemma TailKeys(r: Record)
    requires Printable(r)
    ensures TailPrinted(r)
  {
    hide PrintsText, RecordLines, BodyLines, Only, Under, Absent, Without;
    FromTail(r, Framebuffer, 0);
    TextPrinted(r, Framebuffer, "framebuffer_fnv1a64", r.hash, r.metadata != "");
    if r.metadata == "" {
      NoMetadata(r);
    } else {
      FromTail(r, Metadata, 1);
      OtherPrinted(r, Metadata, "metadata", r.metadata);
    }
  }

  lemma NoMetadata(r: Record)
    requires r.metadata == ""
    ensures Absent(RecordLines(r), "metadata")
  {
    hide HeadLines, WorkLines, TimingLines, RawLines, TailLines, Without, Absent, InHead, InTiming;
    assert !InHead(Metadata) && !InTiming(Metadata) by {
      MetadataIsTail();
    }
    SectionsElsewhere(r, Metadata);
    WithoutBoth(HeadLines(r), WorkLines(r), Metadata);
    WithoutBoth(HeadLines(r) + WorkLines(r), TimingLines(r), Metadata);
    WithoutBoth(HeadLines(r) + WorkLines(r) + TimingLines(r), RawLines(r), Metadata);
    WithoutBoth(HeadLines(r) + WorkLines(r) + TimingLines(r) + RawLines(r), TailLines(r), Metadata);
    WithoutIsAbsent(BodyLines(r), Metadata);
  }

  lemma MetadataIsTail()
    ensures !InHead(Metadata) && !InTiming(Metadata)
  {
  }

  /** A leaf prints each of its own fields under the key of that name. */
  lemma LeafPrinted(r: Record)
    requires r.Leaf? && Printable(r)
    ensures
      var p := r.profile;
      HeadPrinted(r, "leaf") && ContractPrinted(r, p.iterations, p.sampleCount, p.multiplier, p.warmup, p.completionWait) &&
      TimingPrinted(r, p.total, p.average, p.minimum, p.maximum, p.median, p.p95, p.mad, "lower_is_better") && TailPrinted(r)
    ensures Under(RecordLines(r), "raw_results", "[")
  {
    hide HeadPrinted, ContractPrinted, TimingPrinted, TailPrinted, Under, RecordLines, BodyLines, Only;
    HeadKeys(r);
    LeafContract(r);
    LeafTiming(r);
    TailKeys(r);
    FromRaw(r, RawResults, 0);
    OtherPrinted(r, RawResults, "raw_results", "[");
  }

  /** A group prints zeroes for everything that would be measured. */
  lemma GroupPrinted(r: Record)
    requires r.Group? && Printable(r)
    ensures HeadPrinted(r, "group") && ContractPrinted(r, 0, 0, r.multiplier, r.warmup, 0)
    ensures TimingPrinted(r, 0, 0, 0, 0, 0, 0, 0, "neutral") && TailPrinted(r)
    ensures PrintsNumber(RecordLines(r), "child_result_count", r.childCount)
    ensures Under(RecordLines(r), "measurement", "null,") && Under(RecordLines(r), "raw_results", "[],")
  {
    hide HeadPrinted, ContractPrinted, TimingPrinted, TailPrinted, Under, PrintsNumber, RecordLines, BodyLines, Only;
    HeadKeys(r);
    GroupContract(r);
    GroupTiming(r);
    TailKeys(r);
    FromRaw(r, RawResults, 0);
    OtherPrinted(r, RawResults, "raw_results", "[],");
    FromWork(r, ChildCount, 0);
    NumberPrinted(r, ChildCount, "child_result_count", r.childCount);
    FromWork(r, Measurement, 1);
    OtherPrinted(r, Measurement, "measurement", "null,");
  }
}
