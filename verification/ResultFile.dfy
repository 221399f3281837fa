/** The benchmark records the guest prints and the lines it prints them as. */
module ResultFile {
  import opened Text

  datatype Profile = Profile(
    iterations: uint32, sampleCount: uint32, multiplier: uint32, warmup: uint32,
    completionWait: uint32, total: uint32, average: uint32, minimum: uint32, maximum: uint32,
    median: uint32, p95: uint32, mad: uint32, raw: seq<uint32>)

  datatype Record =
    | Leaf(id: string, revision: uint32, name: string, outcome: string, mode: string,
           profile: Profile, hash: string, metadata: string)
    | Group(id: string, revision: uint32, name: string, outcome: string, mode: string,
            childCount: uint32, multiplier: uint32, warmup: uint32, hash: string, metadata: string)

  /** Text that may stand between quotes: no quote and no line break. */
  predicate Plain(s: string) {
    '"' !in s && SingleLine(s)
  }

  predicate SingleLine(s: string) {
    '\n' !in s && '\r' !in s
  }

  predicate Printable(r: Record) {
    Plain(r.id) && Plain(r.name) && Plain(r.outcome) && r.outcome != "" && Plain(r.mode) &&
    Plain(r.hash) && SingleLine(r.metadata)
  }

  predicate AllPrintable(rs: seq<Record>) {
    forall i :: 0 <= i < |rs| ==> Printable(rs[i])
  }

  // ----- lines -----

  datatype Key =
    | SchemaVersion | Id | Revision | Kind | Name | Outcome | Iterations | SampleCount | Multiplier
    | Warmup | Mode | CompletionWait | Total | Average | Minimum | Maximum | Median | P95 | Mad
    | Unit | Direction | RawResults | Framebuffer | Metadata | ChildCount | Measurement

  function KeyText(key: Key): string {
    match key
    case SchemaVersion => "schema_version"
    case Id => "id"
    case Revision => "revision"
    case Kind => "kind"
    case Name => "name"
    case Outcome => "outcome"
    case Iterations => "iterations"
    case SampleCount => "sample_count"
    case Multiplier => "measurement_iterations_multiplier"
    case Warmup => "warmup_iterations"
    case Mode => "gpu_completion_mode"
    case CompletionWait => "completion_wait_us"
    case Total => "total_us"
    case Average => "average_us"
    case Minimum => "min_us"
    case Maximum => "max_us"
    case Median => "median_us"
    case P95 => "p95_us"
    case Mad => "mad_us"
    case Unit => "unit"
    case Direction => "direction"
    case RawResults => "raw_results"
    case Framebuffer => "framebuffer_fnv1a64"
    case Metadata => "metadata"
    case ChildCount => "child_result_count"
    case Measurement => "measurement"
  }

  /** One printed line between a record's braces. */
  datatype Line =
    | Number(key: Key, value: uint32)                // "key": 123,
    | Quoted(key: Key, text: string, comma: bool)    // "key": "text",
    | Other(key: Key, rest: string)                  // "key": rest
    | Sample(sample: uint32, last: bool)             // 123,
    | RawClose                                       // ],

  function Field(key: string, value: string): string {
    "    \"" + key + "\": " + value
  }

  function Render(line: Line): string {
    match line
    case Number(key, value) => Field(KeyText(key), Decimal(value) + ",")
    case Quoted(key, text, comma) => Field(KeyText(key), "\"" + text + "\"" + if comma then "," else "")
    case Other(key, rest) => Field(KeyText(key), rest)
    case Sample(value, last) => "      " + Decimal(value) + if last then "" else ","
    case RawClose => "    ],"
  }

  function RenderAll(lines: seq<Line>): (text: seq<string>)
    ensures |text| == |lines|
    ensures forall i :: 0 <= i < |lines| ==> text[i] == Render(lines[i])
  {
    seq(|lines|, i requires 0 <= i < |lines| => Render(lines[i]))
  }

  function HeadLines(r: Record): seq<Line> {
    [Number(SchemaVersion, 1), Quoted(Id, r.id, true), Number(Revision, r.revision),
     Quoted(Kind, if r.Leaf? then "leaf" else "group", true), Quoted(Name, r.name, true),
     Quoted(Outcome, r.outcome, true)]
  }

  /** The profile a record's number lines carry: a group prints the legacy zeroes. */
  function ProfileOf(r: Record): Profile {
    match r
    case Leaf(_, _, _, _, _, p, _, _) => p
    case Group(_, _, _, _, _, _, multiplier, warmup, _, _) =>
      Profile(0, 0, multiplier, warmup, 0, 0, 0, 0, 0, 0, 0, 0, [])
  }

  function WorkLines(r: Record): seq<Line> {
    var p := ProfileOf(r);
    (if r.Leaf? then [] else [Number(ChildCount, r.childCount), Other(Measurement, "null,")]) +
    [Number(Iterations, p.iterations), Number(SampleCount, p.sampleCount),
     Number(Multiplier, p.multiplier), Number(Warmup, p.warmup), Quoted(Mode, r.mode, true),
     Number(CompletionWait, p.completionWait)]
  }

  function DirectionText(r: Record): string {
    if r.Leaf? then "lower_is_better" else "neutral"
  }

  function TimingLines(r: Record): seq<Line> {
    var p := ProfileOf(r);
    [Number(Total, p.total), Number(Average, p.average), Number(Minimum, p.minimum),
     Number(Maximum, p.maximum), Number(Median, p.median), Number(P95, p.p95), Number(Mad, p.mad),
     Quoted(Unit, "us", true), Quoted(Direction, DirectionText(r), true)]
  }

  function SampleLines(raw: seq<uint32>): (lines: seq<Line>)
    ensures |lines| == |raw|
    ensures forall i :: 0 <= i < |raw| ==> lines[i] == Sample(raw[i], i == |raw| - 1)
  {
    seq(|raw|, i requires 0 <= i < |raw| => Sample(raw[i], i == |raw| - 1))
  }

  function RawLines(r: Record): seq<Line> {
    if r.Leaf? then [Other(RawResults, "[")] + SampleLines(r.profile.raw) + [RawClose]
    else [Other(RawResults, "[],")]
  }

  function TailLines(r: Record): seq<Line> {
    if r.metadata == "" then [Quoted(Framebuffer, r.hash, false)]
    else [Quoted(Framebuffer, r.hash, true), Other(Metadata, r.metadata)]
  }

  function BodyLines(r: Record): seq<Line> {
    HeadLines(r) + WorkLines(r) + TimingLines(r) + RawLines(r) + TailLines(r)
  }

  function RecordLines(r: Record): seq<string> {
    ["  {"] + RenderAll(BodyLines(r)) + ["  }"]
  }

  function Separator(first: bool): seq<string> {
    if first then [] else [","]
  }

  /** The lines of `rs`, a comma line before each record except a first one. */
  function BlockLines(rs: seq<Record>, first: bool): seq<string> {
    if rs == [] then [] else Separator(first) + RecordLines(rs[0]) + BlockLines(rs[1..], false)
  }

  function FileLines(rs: seq<Record>): seq<string> {
    ["["] + BlockLines(rs, true) + ["]"]
  }

  function FileText(rs: seq<Record>): string {
    JoinLines(FileLines(rs))
  }

  // ----- shape of the printed lines -----

  predicate KeyChar(c: char) {
    'a' <= c <= 'z' || '0' <= c <= '9' || c == '_'
  }

  predicate KeyChars(s: string) {
    forall i :: 0 <= i < |s| ==> KeyChar(s[i])
  }

  lemma ShortKeyChars(key: Key)
    requires |KeyText(key)| <= 10
    ensures KeyChars(KeyText(key))
  {
  }

  lemma MediumKeyChars(key: Key)
    requires 10 < |KeyText(key)| <= 17
    ensures KeyChars(KeyText(key))
  {
  }

  lemma LongKeyChars(key: Key)
    requires 17 < |KeyText(key)| <= 19
    ensures KeyChars(KeyText(key))
  {
  }

  lemma LongestKeyChars(key: Key)
    requires 19 < |KeyText(key)|
    ensures KeyChars(KeyText(key))
  {
  }

  lemma KeyIsPlain(key: Key)
    ensures KeyChars(KeyText(key)) && Plain(KeyText(key))
  {
    if |KeyText(key)| <= 10 {
      ShortKeyChars(key);
    } else if |KeyText(key)| <= 17 {
      MediumKeyChars(key);
    } else if |KeyText(key)| <= 19 {
      LongKeyChars(key);
    } else {
      LongestKeyChars(key);
    }
  }

  lemma KeyTextInjective(a: Key, b: Key)
    requires KeyText(a) == KeyText(b)
    ensures a == b
  {
  }

  lemma DecimalIsPlain(n: nat)
    ensures Plain(Decimal(n))
  {
    forall c | c in Decimal(n) ensures IsDigit(c) {
      var i :| 0 <= i < |Decimal(n)| && Decimal(n)[i] == c;
    }
  }

  predicate Structural(value: string) {
    value == "null," || value == "[" || value == "[],"
  }

  predicate Tidy(line: Line) {
    match line
    case Quoted(_, text, _) => Plain(text)
    case Other(key, rest) => SingleLine(rest) && (key == Metadata || Structural(rest))
    case _ => true
  }

  predicate AllTidy(lines: seq<Line>) {
    forall i :: 0 <= i < |lines| ==> Tidy(lines[i])
  }

  /** Every line between a record's braces is indented by four blanks and is one line. */
  predicate IsBodyLine(line: string) {
    |line| > 4 && line[..4] == "    " && SingleLine(line)
  }

  lemma FieldIsBody(key: string, value: string)
    requires SingleLine(key) && SingleLine(value)
    ensures IsBodyLine(Field(key, value))
  {
  }

  lemma RenderIsBody(line: Line)
    requires Tidy(line)
    ensures IsBodyLine(Render(line))
  {
    match line
    case Number(key, value) =>
      KeyIsPlain(key);
      DecimalIsPlain(value);
      FieldIsBody(KeyText(key), Decimal(value) + ",");
    case Quoted(key, text, comma) =>
      KeyIsPlain(key);
      FieldIsBody(KeyText(key), "\"" + text + "\"" + if comma then "," else "");
    case Other(key, rest) =>
      KeyIsPlain(key);
      FieldIsBody(KeyText(key), rest);
    case Sample(value, last) =>
      DecimalIsPlain(value);
    case RawClose =>
  }

  lemma HeadIsTidy(r: Record)
    requires Printable(r)
    ensures AllTidy(HeadLines(r))
  {
    assert Plain("leaf") && Plain("group");
    hide Plain;
  }

  lemma WorkIsTidy(r: Record)
    requires Printable(r)
    ensures AllTidy(WorkLines(r))
  {
    assert SingleLine("null,") && Structural("null,");
    hide Plain, SingleLine, Structural;
  }

  lemma TimingIsTidy(r: Record)
    ensures AllTidy(TimingLines(r))
  {
    assert Plain("us") && Plain(DirectionText(r));
    hide Plain, DirectionText;
    var words := [Quoted(Unit, "us", true), Quoted(Direction, DirectionText(r), true)];
    assert AllTidy(words);
    TidyAppend(TimingLines(r)[..7], words);
    assert TimingLines(r) == TimingLines(r)[..7] + words;
  }

  lemma RawAndTailAreTidy(r: Record)
    requires Printable(r)
    ensures AllTidy(RawLines(r)) && AllTidy(TailLines(r))
  {
    assert SingleLine("[") && SingleLine("[],") && Structural("[") && Structural("[],");
  }

  lemma TidyAppend(a: seq<Line>, b: seq<Line>)
    requires AllTidy(a) && AllTidy(b)
    ensures AllTidy(a + b)
  {
  }

  lemma BodyIsTidy(r: Record)
    requires Printable(r)
    ensures AllTidy(BodyLines(r))
  {
    var a, b, c, d, e := HeadLines(r), WorkLines(r), TimingLines(r), RawLines(r), TailLines(r);
    HeadIsTidy(r);
    WorkIsTidy(r);
    TimingIsTidy(r);
    RawAndTailAreTidy(r);
    TidyAppend(a, b);
    TidyAppend(a + b, c);
    TidyAppend(a + b + c, d);
    TidyAppend(a + b + c + d, e);
  }

  predicate AllBody(lines: seq<string>) {
    forall i :: 0 <= i < |lines| ==> IsBodyLine(lines[i])
  }

  lemma BodyIsBody(r: Record)
    requires Printable(r)
    ensures AllBody(RenderAll(BodyLines(r)))
  {
    BodyIsTidy(r);
    forall i | 0 <= i < |BodyLines(r)| ensures IsBodyLine(RenderAll(BodyLines(r))[i]) {
      RenderIsBody(BodyLines(r)[i]);
    }
  }

  predicate AllLines(lines: seq<string>) {
    forall i :: 0 <= i < |lines| ==> OneLine(lines[i])
  }

  lemma RecordLinesAreLines(r: Record)
    requires Printable(r)
    ensures AllLines(RecordLines(r))
  {
    BodyIsBody(r);
  }

  lemma {:induction false} BlocksAreLines(rs: seq<Record>, first: bool)
    requires AllPrintable(rs)
    ensures AllLines(BlockLines(rs, first))
  {
    if rs != [] {
      RecordLinesAreLines(rs[0]);
      BlocksAreLines(rs[1..], false);
      var a, b, c := Separator(first), RecordLines(rs[0]), BlockLines(rs[1..], false);
      assert AllLines(a + b);
      assert AllLines(a + b + c);
    }
  }

  lemma FileLinesAreLines(rs: seq<Record>)
    requires AllPrintable(rs)
    ensures AllLines(FileLines(rs))
  {
    BlocksAreLines(rs, true);
  }
}
