/** Reading one guest result record into the hashes, contract and policy a functional report keeps. */
module OracleRecords {
  import opened JsonTree
  import opened Lists
  import opened Sorting
  import opened Text

  /** `Invalid` and `Nondeterminism` are the module's own exceptions, `Crash` any other one. */
  datatype Error = Invalid | Nondeterminism | Crash

  datatype Result<+T> = Ok(value: T) | Err(error: Error) {
    predicate IsFailure() {
      Err?
    }

    function PropagateFailure<U>(): Result<U>
      requires Err?
    {
      Err(error)
    }

    function Extract(): T
      requires Ok?
    {
      value
    }
  }

  const FRAMEBUFFER := "framebuffer_fnv1a64"
  const WORK := "work_checksum"
  const RESULT := "result_checksum"
  const KATS := "kats"
  const KATS_PREFIX := "kats."

  // ----- hexadecimal hashes -----

  predicate IsHex(s: string, width: nat) {
    |s| == width && AllHex(s)
  }

  predicate AllHex(s: string) {
    s == "" || (AllHex(s[..|s| - 1]) && IsHexDigit(s[|s| - 1]))
  }

  lemma {:induction false} HexDigits(s: string)
    ensures AllHex(s) <==> forall i | 0 <= i < |s| :: IsHexDigit(s[i])
  {
    if s != "" {
      HexDigits(s[..|s| - 1]);
      assert forall i | 0 <= i < |s| - 1 :: s[..|s| - 1][i] == s[i];
    }
  }

  function HexDigit(n: nat): char
    requires n < 16
  {
    if n < 10 then (n + '0' as int) as char else (n - 10 + 'a' as int) as char
  }

  function HexDigitValue(c: char): nat
    requires IsHexDigit(c)
  {
    if c <= '9' then c as int - '0' as int else c as int - 'a' as int + 10
  }

  /** `f"{n:x}"` */
  function HexText(n: nat): string {
    if n < 16 then [HexDigit(n)] else HexText(n / 16) + [HexDigit(n % 16)]
  }

  function Zeros(n: nat): string {
    seq(n, _ => '0')
  }

  /** The `0{width}` of the format. */
  function ZeroPadded(s: string, width: nat): string {
    if |s| >= width then s else Zeros(width - |s|) + s
  }

  function LowerChar(c: char): char {
    if 'A' <= c <= 'Z' then (c as int + 32) as char else c
  }

  function LowerText(s: string): string {
    seq(|s|, i requires 0 <= i < |s| => LowerChar(s[i]))
  }

  /** `str.isspace` for one character. */
  predicate IsBlank(c: char) {
    '\t' <= c <= '\r' || '\U{1C}' <= c <= ' ' || c == '\U{85}' || c == '\U{A0}' || c == '\U{1680}' ||
    '\U{2000}' <= c <= '\U{200A}' || c == '\U{2028}' || c == '\U{2029}' || c == '\U{202F}' || c == '\U{205F}' ||
    c == '\U{3000}'
  }

  function Strip(s: string): string {
    if s == "" then ""
    else if IsBlank(s[0]) then Strip(s[1..])
    else if IsBlank(s[|s| - 1]) then Strip(s[..|s| - 1])
    else s
  }

  /** A hash given as an integer or as hexadecimal text, in its one canonical form. */
  function HashText(v: Json, width: nat): (r: Result<string>)
    ensures r.Ok? ==> IsHex(r.value, width)
  {
    match v
    case Int(i) => if i < 0 then Err(Invalid) else Checked(ZeroPadded(HexText(i), width), width)
    case Str(s) =>
      var lower := LowerText(Strip(s));
      Checked(if StartsWith(lower, "0x") then lower[2..] else lower, width)
    case _ => Err(Invalid)
  }

  function Checked(s: string, width: nat): Result<string> {
    if IsHex(s, width) then Ok(s) else Err(Invalid)
  }

  /** A canonical hash is read back as itself. */
  lemma HashCanonical(s: string, width: nat)
    requires IsHex(s, width)
    ensures HashText(Str(s), width) == Ok(s)
  {
    HexDigits(s);
    assert Strip(s) == s;
    assert LowerText(s) == s;
    PrefixedByX(s);
  }

  lemma PrefixedByX(s: string)
    ensures StartsWith(s, "0x") ==> |s| >= 2 && s[1] == 'x'
  {
    if StartsWith(s, "0x") {
      assert s[0..2][1] == 'x';
    }
  }

  function HexValue(s: string): nat
    requires AllHex(s)
  {
    if s == "" then 0 else HexValue(s[..|s| - 1]) * 16 + HexDigitValue(s[|s| - 1])
  }

  /** The canonical text of an integer hash denotes that integer. */
  lemma IntegerHash(n: nat, width: nat)
    requires HashText(Int(n), width).Ok?
    ensures HexValue(HashText(Int(n), width).value) == n
  {
    HexTextValue(n);
    PaddingKeepsValue(HexText(n), width);
  }

  lemma {:induction false} HexTextValue(n: nat)
    ensures AllHex(HexText(n))
    ensures HexValue(HexText(n)) == n
  {
    var s := HexText(n);
    if n >= 16 {
      HexTextValue(n / 16);
      assert s[..|s| - 1] == HexText(n / 16);
    } else {
      assert s[..0] == "";
    }
  }

  lemma PaddingKeepsValue(s: string, width: nat)
    requires AllHex(s)
    ensures AllHex(ZeroPadded(s, width))
    ensures HexValue(ZeroPadded(s, width)) == HexValue(s)
  {
    if |s| < width {
      ZerosKeepValue(width - |s|, s);
    }
  }

  lemma {:induction false} ZerosKeepValue(n: nat, s: string)
    requires AllHex(s)
    ensures AllHex(Zeros(n) + s) && HexValue(Zeros(n) + s) == HexValue(s)
    decreases n + |s|
  {
    var all := Zeros(n) + s;
    if s != "" {
      assert all[..|all| - 1] == Zeros(n) + s[..|s| - 1];
      ZerosKeepValue(n, s[..|s| - 1]);
    } else if n > 0 {
      assert all[..|all| - 1] == Zeros(n - 1) + s;
      ZerosKeepValue(n - 1, s);
    }
  }

  // ----- known-answer tests -----

  /** The key whose value must equal that of an `expected` key. */
  function Counterpart(key: string): Option<string> {
    if key == "expected" then Some("actual")
    else if StartsWith(key, "expected_") then Some("actual_" + key[9..])
    else if EndsWith(key, "_expected") then Some(key[..|key| - 9] + "_actual")
    else None
  }

  predicate Agrees(fields: Fields, key: string)
    requires key in fields
  {
    var counterpart := Counterpart(key);
    counterpart.Some? && counterpart.value in fields ==> PyEq(fields[counterpart.value], fields[key])
  }

  function NormalizeKat(v: Json): Result<Json> {
    match v
    case Obj(fields) =>
      if exists k | k in fields :: NormalizeKat(fields[k]).Err? then Err(Invalid)
      else
        var normalized := map k | k in fields && NormalizeKat(fields[k]).Ok? :: NormalizeKat(fields[k]).value;
        if exists k | k in normalized :: !Agrees(normalized, k) then Err(Invalid) else Ok(Obj(normalized))
    case Arr(items) =>
      if exists i | 0 <= i < |items| :: NormalizeKat(items[i]).Err? then Err(Invalid)
      else
        Ok(Arr(seq(|items|, i requires 0 <= i < |items| =>
                 var item := NormalizeKat(items[i]); if item.Ok? then item.value else Null)))
    case Whole(_) => Err(Invalid)
    case Fraction(_) => Err(Invalid)
    case _ => Ok(v)
  }

  /** No float anywhere, and every `expected` value equals its `actual` counterpart when there is one. */
  predicate KatHolds(v: Json) {
    match v
    case Obj(fields) =>
      (forall k | k in fields :: KatHolds(fields[k])) && forall k | k in fields :: Agrees(fields, k)
    case Arr(items) => forall i | 0 <= i < |items| :: KatHolds(items[i])
    case Whole(_) => false
    case Fraction(_) => false
    case _ => true
  }

  /** Normalizing accepts exactly the trees whose known answers hold, and returns them unchanged. */
  lemma {:induction false} NormalizesExactly(v: Json)
    ensures NormalizeKat(v) == if KatHolds(v) then Ok(v) else Err(Invalid)
  {
    match v
    case Obj(fields) =>
      forall k | k in fields ensures NormalizeKat(fields[k]) == if KatHolds(fields[k]) then Ok(fields[k]) else Err(Invalid) {
        NormalizesExactly(fields[k]);
      }
      if forall k | k in fields :: KatHolds(fields[k]) {
        var normalized := map k | k in fields && NormalizeKat(fields[k]).Ok? :: NormalizeKat(fields[k]).value;
        assert normalized.Keys == fields.Keys;
        assert normalized == fields;
      }
    case Arr(items) =>
      forall i | 0 <= i < |items| ensures NormalizeKat(items[i]) == if KatHolds(items[i]) then Ok(items[i]) else Err(Invalid) {
        NormalizesExactly(items[i]);
      }
      if forall i | 0 <= i < |items| :: KatHolds(items[i]) {
        assert NormalizeKat(v).value.items == items;
      }
    case _ =>
  }

  /** Dropping observations keeps the known answers that are left. */
  lemma KatsSurviveRemoval(fields: Fields, dropped: set<string>)
    requires KatHolds(Obj(fields))
    ensures KatHolds(Obj(fields - dropped))
  {
    hide Counterpart;
    var kept := fields - dropped;
    assert forall k | k in kept :: k in fields && kept[k] == fields[k];
    forall k | k in kept ensures Agrees(kept, k) {
      assert Agrees(fields, k);
    }
  }

  predicate IsKat(key: string) {
    var lower := LowerText(key);
    Contains(lower, "kat") || EndsWith(lower, "_final") || EndsWith(lower, "_final_state")
  }

  function Kats(metadata: Fields): Fields {
    map k | k in metadata && IsKat(k) :: metadata[k]
  }

  function RecordKats(metadata: Fields): Result<Fields> {
    var kats := Obj(Kats(metadata));
    NormalizesExactly(kats);
    var normalized :- NormalizeKat(kats);
    Ok(normalized.fields)
  }

  // ----- record_hashes -----

  const EXPECTED_FRAME := "expected_framebuffer_fnv1a64"
  const OPTIONAL_PAIR := "game_load_composite_repeated_display"

  function CheckExpectedFrame(expected: Json, frame: string): Result<()> {
    if expected == Null then Ok(())
    else
      var text :- HashText(expected, 16);
      if text != frame then Err(Invalid) else Ok(())
  }

  function Checksums(work: Json, result: Json): Result<Fields> {
    if work == Null || result == Null then Ok(map[])
    else
      var workText :- HashText(work, 8);
      var resultText :- HashText(result, 8);
      Ok(map[WORK := Str(workText), RESULT := Str(resultText)])
  }

  function MetadataHashes(frame: string, metadata: Fields): Result<Fields> {
    var _ :- CheckExpectedFrame(Get(metadata, EXPECTED_FRAME), frame);
    var work, result, kind := Get(metadata, WORK), Get(metadata, RESULT), Get(metadata, "kind");
    if kind.Arr? || kind.Obj? then Err(Crash)
    else if (work == Null) != (result == Null) && kind != Str(OPTIONAL_PAIR) then Err(Invalid)
    else
      var checksums :- Checksums(work, result);
      var kats :- RecordKats(metadata);
      Ok(AllHashes(frame, checksums, kats))
  }

  function AllHashes(frame: string, checksums: Fields, kats: Fields): Fields {
    map[FRAMEBUFFER := Str(frame)] + checksums + if kats == map[] then map[] else map[KATS := Obj(kats)]
  }

  function RecordHashes(record: Fields): Result<Fields> {
    if !IsText(Get(record, "name")) then Err(Invalid)
    else
      var frame :- HashText(Get(record, FRAMEBUFFER), 16);
      var metadata := Get(record, "metadata");
      if metadata.Obj? then MetadataHashes(frame, metadata.fields) else Ok(map[FRAMEBUFFER := Str(frame)])
  }

  // ----- record_comparison_policy -----

  datatype Policy = Policy(excluded: seq<string>, reason: string)

  function PolicyJson(policy: Policy): Json {
    Obj(map["excluded_observations" := Arr(Texts(policy.excluded)), "reason" := Str(policy.reason)])
  }

  function Texts(s: seq<string>): seq<Json> {
    seq(|s|, i requires 0 <= i < |s| => Str(s[i]))
  }

  /** The known-answer tests that observe rendered state. */
  function RenderedKats(kats: Fields): set<string> {
    set k | k in kats && !StartsWith(k, "source_")
  }

  function Observation(kat: string): string {
    KATS_PREFIX + kat
  }

  function ExcludedObservations(metadata: Fields): Result<set<string>> {
    var frame := if Get(metadata, "framebuffer_comparison_eligible") == Bool(false) then {FRAMEBUFFER} else {};
    if Get(metadata, "oracle_applicable") == Bool(false) then
      var kats :- RecordKats(metadata);
      Ok(frame + set k | k in RenderedKats(kats) :: Observation(k))
    else Ok(frame)
  }

  function RecordPolicy(record: Fields): Result<Option<Policy>> {
    var metadata := Get(record, "metadata");
    if !metadata.Obj? then Ok(None)
    else
      var excluded :- ExcludedObservations(metadata.fields);
      var reason := Get(metadata.fields, "framebuffer_comparison_reason");
      if excluded == {} then Ok(None)
      else if !IsText(reason) then Err(Invalid)
      else Ok(Some(Policy(SortedStrings(excluded), reason.s)))
  }

  // ----- eligible_record_hashes -----

  /** The hashes left once the excluded observations are dropped. */
  function Kept(hashes: Fields, excluded: set<string>): Fields {
    var frames := if FRAMEBUFFER in excluded then hashes - {FRAMEBUFFER} else hashes;
    if !Get(hashes, KATS).Obj? then frames
    else
      var kats := KeptKats(hashes[KATS].fields, excluded);
      if kats == map[] && hashes[KATS].fields != map[] then frames - {KATS} else frames[KATS := Obj(kats)]
  }

  function KeptKats(kats: Fields, excluded: set<string>): Fields {
    map k | k in kats && Observation(k) !in excluded :: kats[k]
  }

  function EligibleHashes(record: Fields): Result<(Fields, Option<Policy>)> {
    var hashes :- RecordHashes(record);
    var policy :- RecordPolicy(record);
    if policy.None? then Ok((hashes, None))
    else
      var kept := Kept(hashes, set o | o in policy.value.excluded);
      if kept == map[] then Err(Invalid) else Ok((kept, policy))
  }

  /** What one turn of the loop over the excluded observations pops. */
  function Pop(hashes: Fields, observation: string): Fields {
    if observation == FRAMEBUFFER then hashes - {FRAMEBUFFER}
    else if !StartsWith(observation, KATS_PREFIX) || !Get(hashes, KATS).Obj? then hashes
    else
      var kats := hashes[KATS].fields - {observation[5..]};
      if kats == map[] then hashes - {KATS} else hashes[KATS := Obj(kats)]
  }

  /** The known answers, when there are any, are a non-empty object. */
  predicate WellFormed(hashes: Fields) {
    KATS in hashes ==> hashes[KATS].Obj? && hashes[KATS].fields != map[]
  }

  lemma PrefixedName(observation: string, kat: string)
    ensures StartsWith(observation, KATS_PREFIX) ==> (observation == Observation(kat) <==> kat == observation[5..])
    ensures observation == Observation(kat) ==> StartsWith(observation, KATS_PREFIX)
    ensures Observation(kat) != FRAMEBUFFER
  {
    if StartsWith(observation, KATS_PREFIX) {
      assert observation == observation[..5] + observation[5..];
      assert observation[..5] == observation[0..0 + 5];
    }
    assert Observation(kat)[..5] == Observation(kat)[0..0 + 5] == KATS_PREFIX;
    assert Observation(kat)[5..] == kat;
    assert Observation(kat)[0] == 'k' && FRAMEBUFFER[0] == 'f';
  }

  lemma KatsStep(kats: Fields, excluded: set<string>, observation: string)
    ensures KeptKats(kats, excluded + {observation}) ==
            if StartsWith(observation, KATS_PREFIX) then KeptKats(kats, excluded) - {observation[5..]}
            else KeptKats(kats, excluded)
  {
    hide Observation;
    forall k: string ensures
        StartsWith(observation, KATS_PREFIX) ==> (observation == Observation(k) <==> k == observation[5..])
    ensures observation == Observation(k) ==> StartsWith(observation, KATS_PREFIX) {
      PrefixedName(observation, k);
    }
  }

  /** Popping one more observation excludes one more observation. */
  lemma PopExcludes(hashes: Fields, excluded: set<string>, observation: string)
    requires WellFormed(hashes)
    ensures Pop(Kept(hashes, excluded), observation) == Kept(hashes, excluded + {observation})
  {
    hide KeptKats, StartsWith, Kept;
    if KATS in hashes {
      KatsStep(hashes[KATS].fields, excluded, observation);
    }
    FrameIsNoKat();
    if observation == FRAMEBUFFER {
      PopFrame(hashes, excluded);
    } else {
      PopKat(hashes, excluded, observation);
    }
  }

  lemma FrameIsNoKat()
    ensures !StartsWith(FRAMEBUFFER, KATS_PREFIX)
  {
    assert FRAMEBUFFER[0..5][0] == 'f' && KATS_PREFIX[0] == 'k';
  }

  lemma PopFrame(hashes: Fields, excluded: set<string>)
    requires WellFormed(hashes)
    requires KATS in hashes ==> KeptKats(hashes[KATS].fields, excluded + {FRAMEBUFFER}) == KeptKats(hashes[KATS].fields, excluded)
    ensures Kept(hashes, excluded) - {FRAMEBUFFER} == Kept(hashes, excluded + {FRAMEBUFFER})
  {
    hide KeptKats;
    var pre, post := Kept(hashes, excluded) - {FRAMEBUFFER}, Kept(hashes, excluded + {FRAMEBUFFER});
    assert pre.Keys == post.Keys;
    assert forall k | k in pre :: pre[k] == post[k];
  }

  lemma PopKat(hashes: Fields, excluded: set<string>, observation: string)
    requires WellFormed(hashes) && observation != FRAMEBUFFER
    requires KATS in hashes ==>
      KeptKats(hashes[KATS].fields, excluded + {observation}) ==
      if StartsWith(observation, KATS_PREFIX) then KeptKats(hashes[KATS].fields, excluded) - {observation[5..]}
      else KeptKats(hashes[KATS].fields, excluded)
    ensures Pop(Kept(hashes, excluded), observation) == Kept(hashes, excluded + {observation})
  {
    hide KeptKats, StartsWith;
    var pre, post := Pop(Kept(hashes, excluded), observation), Kept(hashes, excluded + {observation});
    if KATS in hashes {
      assert pre.Keys == post.Keys;
      assert forall k | k in pre :: pre[k] == post[k];
    }
  }

  lemma NothingExcluded(hashes: Fields)
    requires WellFormed(hashes)
    ensures Kept(hashes, {}) == hashes
  {
    if KATS in hashes {
      assert KeptKats(hashes[KATS].fields, {}) == hashes[KATS].fields;
    }
  }

  lemma HashesWellFormed(record: Fields)
    requires RecordHashes(record).Ok?
    ensures WellFormed(RecordHashes(record).value)
  {
    hide HashText, RecordKats;
  }

  /** `eligible_record_hashes`: the hashes with the excluded observations popped one by one. */
  method EligibleRecordHashes(record: Fields) returns (r: Result<(Fields, Option<Policy>)>)
    ensures r == EligibleHashes(record)
  {
    hide RecordHashes, RecordPolicy, Kept, StartsWith;
    var all := RecordHashes(record);
    if all.Err? {
      return Err(all.error);
    }
    var policy := RecordPolicy(record);
    if policy.Err? {
      return Err(policy.error);
    }
    if policy.value.None? {
      return Ok((all.value, None));
    }
    HashesWellFormed(record);
    var kept := DropExcluded(all.value, policy.value.value.excluded);
    assert (set o | o in policy.value.value.excluded) == Elements(policy.value.value.excluded);
    if kept == map[] {
      return Err(Invalid);
    }
    return Ok((kept, policy.value));
  }

  lemma PrefixLength(s: string, prefix: string)
    requires StartsWith(s, prefix)
    ensures |prefix| <= |s|
  {
  }

  method DropExcluded(all: Fields, excluded: seq<string>) returns (hashes: Fields)
    requires WellFormed(all)
    ensures hashes == Kept(all, Elements(excluded))
  {
    hide Kept, StartsWith;
    hashes := all;
    NothingExcluded(all);
    assert Elements(excluded[..0]) == {};
    for i := 0 to |excluded|
      invariant hashes == Kept(all, Elements(excluded[..i]))
    {
      var observation := excluded[i];
      assert Elements(excluded[..i + 1]) == Elements(excluded[..i]) + {observation};
      PopExcludes(all, Elements(excluded[..i]), observation);
      if observation == FRAMEBUFFER {
        hashes := hashes - {FRAMEBUFFER};
        continue;
      }
      if StartsWith(observation, KATS_PREFIX) {
        PrefixLength(observation, KATS_PREFIX);
        if Get(hashes, KATS).Obj? {
          var kats := hashes[KATS].fields - {observation[5..]};
          hashes := if kats == map[] then hashes - {KATS} else hashes[KATS := Obj(kats)];
        }
      }
    }
    assert excluded[..|excluded|] == excluded;
  }

  // ----- record_contract -----

  const ITERATIONS := "iterations"
  const SAMPLES := "sample_count"
  const MULTIPLIER := "measurement_iterations_multiplier"
  const WARMUP := "warmup_iterations"
  const COMPLETION := "gpu_completion_mode"
  const STAGES := "stage_order"

  /** `_integer`: a non-negative integer that is no boolean. */
  predicate IsCount(v: Json) {
    v.Int? && v.i >= 0
  }

  predicate IsStageOrder(v: Json) {
    v.Arr? && v.items != [] && forall i | 0 <= i < |v.items| :: IsText(v.items[i])
  }

  function RecordContract(record: Fields): Result<Fields> {
    var fixed := map[ITERATIONS := Get(record, ITERATIONS), SAMPLES := Get(record, SAMPLES),
                     MULTIPLIER := Get(record, MULTIPLIER), WARMUP := Get(record, WARMUP),
                     COMPLETION := Get(record, COMPLETION)];
    var metadata := Get(record, "metadata");
    if !IsCount(fixed[ITERATIONS]) || !IsCount(fixed[SAMPLES]) || !IsCount(fixed[MULTIPLIER]) || !IsCount(fixed[WARMUP])
    then Err(Invalid)
    else if !IsText(fixed[COMPLETION]) then Err(Invalid)
    else if metadata.Obj? && STAGES in metadata.fields then
      if IsStageOrder(metadata.fields[STAGES]) then Ok(fixed[STAGES := metadata.fields[STAGES]]) else Err(Invalid)
    else Ok(fixed)
  }

  // ----- record_internal_oracle -----

  function UpperChar(c: char): char {
    if 'a' <= c <= 'z' then (c as int - 32) as char else c
  }

  function UpperText(s: string): string {
    seq(|s|, i requires 0 <= i < |s| => UpperChar(s[i]))
  }

  predicate IsVerdict(v: Json) {
    v == Str("PASS") || v == Str("FAIL")
  }

  function Optional(key: string, v: Json): Fields {
    if v == Null then map[] else map[key := v]
  }

  function RecordInternalOracle(record: Fields): Result<Option<Fields>> {
    var metadata := Get(record, "metadata");
    if !metadata.Obj? || "oracle_status" !in metadata.fields then Ok(None)
    else
      var status := metadata.fields["oracle_status"];
      var provenance := Get(metadata.fields, "oracle_provenance");
      var count := Get(metadata.fields, "oracle_failure_count");
      var reason := Get(metadata.fields, "oracle_failure_reason");
      if !status.Str? || !IsVerdict(Str(UpperText(status.s))) then Err(Invalid)
      else if provenance != Null && !IsText(provenance) then Err(Invalid)
      else if count != Null && !IsCount(count) then Err(Invalid)
      else if reason != Null && !IsText(reason) then Err(Invalid)
      else
        Ok(Some(map["status" := Str(UpperText(status.s))] + Optional("provenance", provenance) +
                Optional("failure_count", count) + Optional("failure_reason", reason)))
  }

  // ----- one normalized record -----

  function NormalizedItem(record: Fields): Result<Json> {
    var eligible :- EligibleHashes(record);
    var contract :- RecordContract(record);
    var internal :- RecordInternalOracle(record);
    Ok(Item(Get(record, "name"), contract, eligible.0, eligible.1, internal))
  }

  function Item(testId: Json, contract: Fields, hashes: Fields, policy: Option<Policy>, internal: Option<Fields>): Json {
    Obj(map["test_id" := testId, "contract" := Obj(contract), "hashes" := Obj(hashes)] +
        (if policy.None? then map[] else map["comparison_policy" := PolicyJson(policy.value)]) +
        (if internal.None? then map[] else map["internal_oracle" := Obj(internal.value)]))
  }
}
