/** The viewer's streaming line scanner for a results file. */
module ResultReader {
  import opened Text

  datatype StoredRecord = StoredRecord(
    id: string, name: string, kind: string, outcome: string,
    averageUs: uint32, minimumUs: uint32, maximumUs: uint32,
    medianUs: uint32, p95Us: uint32, madUs: uint32, sampleCount: uint32,
    hasMeasurement: bool, hasDistribution: bool, oracleRecorded: bool, oracleFailed: bool,
    unit: string, direction: string,
    failureReason: string, expectedValue: string, actualValue: string)

  const BLANK := StoredRecord("", "", "", "", 0, 0, 0, 0, 0, 0, 0, false, false, false, false,
                              "us", "lower_is_better", "", "", "")

  datatype StoredFile = StoredFile(error: string, sizeBytes: nat, complete: bool, records: seq<StoredRecord>)

  // ----- field extraction -----

  function Prefix(key: string): string {
    "    \"" + key + "\": "
  }

  function ExtractJsonString(line: string, key: string): Option<string> {
    var prefix := Prefix(key) + "\"";
    if !StartsWith(line, prefix) then None
    else
      var end := FindAny(line, "\"", |prefix|);
      if end == |line| then None else Some(line[|prefix|..end])
  }

  function ExtractJsonUInt(line: string, key: string): Option<uint32> {
    if !StartsWith(line, Prefix(key)) then None else ScanUnsigned(line[|Prefix(key)|..])
  }

  function InlineMark(key: string): string {
    "\"" + key + "\":"
  }

  function ExtractInlineString(line: string, key: string): Option<string> {
    var prefix := InlineMark(key) + "\"";
    var start := Find(line, prefix, 0);
    if start.None? then None
    else
      var from := start.value + |prefix|;
      var end := FindAny(line, "\"", from);
      if end == |line| then None else Some(line[from..end])
  }

  function ExtractInlineScalar(line: string, key: string): Option<string> {
    var start := Find(line, InlineMark(key), 0);
    if start.None? then None
    else
      var from := start.value + |InlineMark(key)|;
      if from < |line| && line[from] == '"' then
        var end := FindAny(line, "\"", from + 1);
        if end == |line| then None else Some(line[from + 1..end])
      else
        Some(line[from..FindAny(line, ",}", from)])
  }

  function Or<T>(found: Option<T>, kept: T): T {
    if found.Some? then found.value else kept
  }

  // ----- one line -----

  function SetText(rec: StoredRecord, line: string): StoredRecord {
    rec.(id := Or(ExtractJsonString(line, "id"), rec.id),
         name := Or(ExtractJsonString(line, "name"), rec.name),
         kind := Or(ExtractJsonString(line, "kind"), rec.kind),
         outcome := Or(ExtractJsonString(line, "outcome"), rec.outcome),
         unit := Or(ExtractJsonString(line, "unit"), rec.unit),
         direction := Or(ExtractJsonString(line, "direction"), rec.direction),
         actualValue := Or(ExtractJsonString(line, "framebuffer_fnv1a64"), rec.actualValue))
  }

  function SetNumbers(rec: StoredRecord, line: string): StoredRecord {
    var average := ExtractJsonUInt(line, "average_us");
    var median := ExtractJsonUInt(line, "median_us");
    rec.(sampleCount := Or(ExtractJsonUInt(line, "sample_count"), rec.sampleCount),
         averageUs := Or(average, rec.averageUs),
         hasMeasurement := average.Some? || rec.hasMeasurement,
         minimumUs := Or(ExtractJsonUInt(line, "min_us"), rec.minimumUs),
         maximumUs := Or(ExtractJsonUInt(line, "max_us"), rec.maximumUs),
         medianUs := Or(median, rec.medianUs),
         hasDistribution := median.Some? || rec.hasDistribution,
         p95Us := Or(ExtractJsonUInt(line, "p95_us"), rec.p95Us),
         madUs := Or(ExtractJsonUInt(line, "mad_us"), rec.madUs))
  }

  function SetInline(rec: StoredRecord, line: string): StoredRecord {
    var status := ExtractInlineString(line, "oracle_status");
    var expected := ExtractInlineScalar(line, "expected_final_state");
    rec.(oracleRecorded := status.Some? || rec.oracleRecorded,
         oracleFailed := if status.Some? then status.value == "FAIL" else rec.oracleFailed,
         failureReason := Or(ExtractInlineString(line, "oracle_failure_reason"), rec.failureReason),
         expectedValue :=
           Or(if expected.Some? then expected else ExtractInlineString(line, "expected_framebuffer_fnv1a64"),
              rec.expectedValue),
         actualValue := Or(ExtractInlineScalar(line, "actual_final_state"), rec.actualValue))
  }

  function ApplyLine(rec: StoredRecord, line: string): StoredRecord {
    SetInline(SetNumbers(SetText(rec, line), line), line)
  }

  function ApplyAll(rec: StoredRecord, lines: seq<string>): StoredRecord {
    Fold(ApplyLine, rec, lines)
  }

  /** The defaults a record receives when its closing line is seen. */
  function Close(rec: StoredRecord): StoredRecord {
    rec.(hasMeasurement := rec.hasMeasurement && rec.kind != "group",
         outcome := if rec.outcome != "" then rec.outcome else if rec.oracleFailed then "FAIL" else "PASS")
  }

  // ----- the scanner -----

  predicate IsRecordStart(line: string) {
    line == "  {"
  }

  predicate IsRecordEnd(line: string) {
    line == "  }" || line == "  },"
  }

  predicate Blank(line: string) {
    forall i :: 0 <= i < |line| ==> line[i] == ' ' || line[i] == '\t'
  }

  datatype Scan = Scan(inRecord: bool, record: StoredRecord, records: seq<StoredRecord>, lastNonempty: string)

  const START := Scan(false, BLANK, [], "")

  function Step(s: Scan, raw: string): Scan {
    var line := DropReturn(raw);
    var s := if Blank(line) then s else s.(lastNonempty := line);
    if IsRecordStart(line) then s.(inRecord := true, record := BLANK)
    else if !s.inRecord then s
    else
      var rec := ApplyLine(s.record, line);
      if IsRecordEnd(line) then
        s.(inRecord := false, record := Close(rec), records := s.records + [Close(rec)])
      else s.(record := rec)
  }

  function Feed(s: Scan, lines: seq<string>): Scan {
    Fold(Step, s, lines)
  }

  /** What `ReadStoredResults` reports for a file, `None` standing for one that cannot be opened. */
  function ReadSpec(file: Option<string>): StoredFile {
    if file.None? then StoredFile("File unavailable", 0, false, [])
    else
      var end := Feed(START, Lines(file.value));
      StoredFile("", |file.value|, end.lastNonempty == "]", end.records)
  }

  method ReadStoredResults(file: Option<string>) returns (result: StoredFile)
    ensures result == ReadSpec(file)
  {
    hide SetText, SetNumbers, SetInline, Lines, DropReturn;
    if file.None? {
      return StoredFile("File unavailable", 0, false, []);
    }
    var input := Lines(file.value);
    var records: seq<StoredRecord> := [];
    var lastNonempty := "";
    var inRecord := false;
    var record := BLANK;
    for i := 0 to |input|
      invariant Feed(START, input) == Feed(Scan(inRecord, record, records, lastNonempty), input[i..])
    {
      assert input[i..][0] == input[i] && input[i..][1..] == input[i + 1..];
      var line := DropReturn(input[i]);
      if !Blank(line) {
        lastNonempty := line;
      }
      if IsRecordStart(line) {
        inRecord, record := true, BLANK;
        continue;
      }
      if !inRecord {
        continue;
      }
      record := SetText(record, line);
      record := SetNumbers(record, line);
      record := SetInline(record, line);
      if IsRecordEnd(line) {
        if record.kind == "group" {
          record := record.(hasMeasurement := false);
        }
        if record.outcome == "" {
          record := record.(outcome := if record.oracleFailed then "FAIL" else "PASS");
        }
        records := records + [record];
        inRecord := false;
      }
    }
    return StoredFile("", |file.value|, lastNonempty == "]", records);
  }

}
