/** Building, sealing and validating functional hash reports. */
module OracleReport {
  import opened JsonTree
  import opened Lists
  import opened OracleRecords
  import opened Sorting
  import opened Text

  /** `canonical_json` and SHA-256 of its UTF-8 bytes, as a lower-case hexadecimal digest. */
  datatype Codec = Codec(canonical: Json -> string, sha256: string -> string) {
    function Hash(v: Json): string {
      sha256(canonical(v))
    }

    /** Canonical text determines the value, and a digest is 64 hexadecimal digits. */
    ghost predicate Valid() {
      (forall a, b :: canonical(a) == canonical(b) ==> a == b) && forall text :: IsHex(sha256(text), 64)
    }
  }

  // ----- a normalized record -----

  const FIXED_FIELDS: set<string> := {ITERATIONS, SAMPLES, MULTIPLIER, WARMUP, COMPLETION}

  predicate IsContract(c: Fields) {
    (c.Keys == FIXED_FIELDS || c.Keys == FIXED_FIELDS + {STAGES}) &&
    IsCount(c[ITERATIONS]) && IsCount(c[SAMPLES]) && IsCount(c[MULTIPLIER]) && IsCount(c[WARMUP]) &&
    IsText(c[COMPLETION]) && (STAGES in c ==> IsStageOrder(c[STAGES]))
  }

  predicate IsObservation(v: Json) {
    v.Str? && (v.s == FRAMEBUFFER || (StartsWith(v.s, KATS_PREFIX) && |v.s| > |KATS_PREFIX|))
  }

  predicate IsPolicy(v: Json) {
    v.Obj? && v.fields.Keys == {"excluded_observations", "reason"} &&
    var excluded := v.fields["excluded_observations"];
    excluded.Arr? && excluded.items != [] && (forall i | 0 <= i < |excluded.items| :: IsObservation(excluded.items[i])) &&
    IsText(v.fields["reason"])
  }

  function ExcludedBy(policy: Json): set<string> {
    if !policy.Obj? || !Get(policy.fields, "excluded_observations").Arr? then {}
    else
      var items := policy.fields["excluded_observations"].items;
      set i | 0 <= i < |items| && items[i].Str? :: items[i].s
  }

  predicate AreChecksums(h: Fields) {
    (WORK in h <==> RESULT in h) && (WORK in h ==> HashText(h[WORK], 8).Ok? && HashText(h[RESULT], 8).Ok?)
  }

  predicate AreKats(v: Json) {
    v.Obj? && v.fields != map[] && NormalizeKat(v).Ok?
  }

  function KatNames(h: Fields): set<string> {
    if Get(h, KATS).Obj? then h[KATS].fields.Keys else {}
  }

  predicate AreHashes(h: Fields, excluded: set<string>) {
    (if FRAMEBUFFER in excluded then FRAMEBUFFER !in h else HashText(Get(h, FRAMEBUFFER), 16).Ok?) &&
    AreChecksums(h) && h.Keys <= {FRAMEBUFFER, WORK, RESULT, KATS} && (KATS in h ==> AreKats(h[KATS])) &&
    forall o | o in excluded :: StartsWith(o, KATS_PREFIX) ==> o[|KATS_PREFIX|..] !in KatNames(h)
  }

  predicate IsInternal(v: Json) {
    v.Obj? && IsVerdict(Get(v.fields, "status")) &&
    ("failure_count" in v.fields ==> IsCount(v.fields["failure_count"])) &&
    ("provenance" in v.fields ==> IsText(v.fields["provenance"])) &&
    ("failure_reason" in v.fields ==> IsText(v.fields["failure_reason"]))
  }

  predicate IsRecord(r: Json) {
    r.Obj? && IsText(Get(r.fields, "test_id")) &&
    Get(r.fields, "contract").Obj? && Get(r.fields, "hashes").Obj? &&
    IsContract(r.fields["contract"].fields) &&
    var policy := Get(r.fields, "comparison_policy");
    (policy == Null || IsPolicy(policy)) && AreHashes(r.fields["hashes"].fields, ExcludedBy(policy)) &&
    var internal := Get(r.fields, "internal_oracle");
    internal == Null || IsInternal(internal)
  }

  function IdentityOf(codec: Codec, testId: Json, contract: Json): string {
    codec.canonical(Obj(map["test_id" := testId, "contract" := contract]))
  }

  function Identity(codec: Codec, r: Json): string {
    if r.Obj? then IdentityOf(codec, Get(r.fields, "test_id"), Get(r.fields, "contract")) else ""
  }

  function Identities(codec: Codec, records: seq<Json>): seq<string> {
    seq(|records|, i requires 0 <= i < |records| => Identity(codec, records[i]))
  }

  /** Non-empty, every record well formed, no two with the same test and contract. */
  ghost predicate ValidRecords(codec: Codec, records: Json) {
    records.Arr? && records.items != [] && (forall i | 0 <= i < |records.items| :: IsRecord(records.items[i])) &&
    Distinct(Identities(codec, records.items))
  }

  /** `_validate_normalized_records` */
  method ValidateNormalizedRecords(codec: Codec, records: Json) returns (ok: bool)
    ensures ok == ValidRecords(codec, records)
  {
    hide IsRecord;
    if !records.Arr? || records.items == [] {
      return false;
    }
    var items := records.items;
    var identities: set<string> := {};
    ghost var all := Identities(codec, items);
    for i := 0 to |items|
      invariant forall k | 0 <= k < i :: IsRecord(items[k])
      invariant forall x :: x in identities <==> x in all[..i]
      invariant Distinct(all[..i])
    {
      if !IsRecord(items[i]) {
        return false;
      }
      var identity := Identity(codec, items[i]);
      assert identity == all[i] && all[..i + 1] == all[..i] + [identity];
      if identity in identities {
        ghost var k :| 0 <= k < i && all[k] == identity;
        return false;
      }
      identities := identities + {identity};
    }
    assert all[..|items|] == all;
    return true;
  }

  // ----- normalized_records -----

  /** The sort key: the test, then the canonical text of its contract. */
  predicate KeyLeq(codec: Codec, a: Json, b: Json) {
    a.Obj? && b.Obj? &&
    var x, y := Get(a.fields, "test_id"), Get(b.fields, "test_id");
    x.Str? && y.Str? && StringLeq(x.s, y.s) &&
    (x.s == y.s ==> StringLeq(codec.canonical(Get(a.fields, "contract")), codec.canonical(Get(b.fields, "contract"))))
  }

  function ByKey(codec: Codec): Order<Json> {
    (a, b) => KeyLeq(codec, a, b)
  }

  function Items(records: seq<Fields>): Result<seq<Json>> {
    if records == [] then Ok([])
    else
      var front :- Items(records[..|records| - 1]);
      var item :- NormalizedItem(records[|records| - 1]);
      Ok(front + [item])
  }

  function IdentitySet(codec: Codec, items: seq<Json>): set<string> {
    set item | item in items :: Identity(codec, item)
  }

  function NormalizedRecords(codec: Codec, records: seq<Fields>): Result<seq<Json>> {
    var items :- Items(records);
    if |IdentitySet(codec, items)| != |items| then Err(Invalid) else Ok(Sort(ByKey(codec), items))
  }

  /** `normalized_records`: normalize one by one, sort, refuse duplicates. */
  method Normalize(codec: Codec, records: seq<Fields>) returns (r: Result<seq<Json>>)
    ensures r == NormalizedRecords(codec, records)
  {
    hide NormalizedItem, Identity, Sort, KeyLeq;
    var normalized: seq<Json> := [];
    assert records[..|records|] == records;
    for i := 0 to |records|
      invariant Items(records[..i]) == Ok(normalized)
      invariant Items(records).Ok? ==> Items(records[..i]).Ok?
    {
      ItemsPrefix(records, i);
      var item := NormalizedItem(records[i]);
      assert records[..i + 1][..i] == records[..i] && records[..i + 1][i] == records[i];
      if item.Err? {
        return Err(item.error);
      }
      normalized := normalized + [item.value];
    }
    var sorted := Sort(ByKey(codec), normalized);
    SameElements(sorted, normalized);
    assert IdentitySet(codec, sorted) == IdentitySet(codec, normalized) by {
      IdentitySetOf(codec, sorted, normalized);
    }
    if |IdentitySet(codec, sorted)| != |sorted| {
      return Err(Invalid);
    }
    return Ok(sorted);
  }

  /** The first error met in order is the error of the whole list. */
  lemma {:induction false} ItemsPrefix(records: seq<Fields>, i: nat)
    requires i < |records|
    ensures Items(records[..i + 1]).Err? ==> Items(records) == Err(Items(records[..i + 1]).error)
    decreases |records|
  {
    if i + 1 < |records| {
      var front := records[..|records| - 1];
      assert front[..i + 1] == records[..i + 1];
      ItemsPrefix(front, i);
    } else {
      assert records[..i + 1] == records;
    }
  }

  lemma IdentitySetOf(codec: Codec, a: seq<Json>, b: seq<Json>)
    requires Elements(a) == Elements(b)
    ensures IdentitySet(codec, a) == IdentitySet(codec, b)
  {
    hide Identity;
    assert forall x :: x in a <==> x in Elements(a);
    assert forall x :: x in b <==> x in Elements(b);
  }

  // ----- build_report -----

  const SCHEMA_VERSION := Int(1)
  const REPORT_KIND := Str("xemu_functional_hash_report")
  const XEMU := Str("XEMU")
  const RETAIL_XBOX := Str("RETAIL_XBOX")

  /** A report as the validators see it: what `report.get(field)` returns, `Null` for a missing field. */
  datatype Report = Report(
    schemaVersion: Json, kind: Json, provenance: Json, sourceType: Json, sourceBackend: Json, guestImage: Json,
    job: Json, records: Json, functionalId: Json, observationId: Json, surfaceScale: Json, build: Json,
    hardware: Json, reportId: Json)

  /** The arguments of `build_report` beside the records. */
  datatype Inputs = Inputs(
    guestImage: Json, jobConfig: Json, sourceBackend: Json, sourceType: Json, observationId: Json, build: Json,
    surfaceScale: Json, hardware: Json)

  /** What `functional_id` seals. */
  function Stable(sourceType: Json, sourceBackend: Json, guestImage: string, job: string, records: Json): Json {
    Obj(map["schema_version" := SCHEMA_VERSION, "kind" := REPORT_KIND, "oracle_provenance" := Null,
            "source_type" := sourceType, "source_backend" := sourceBackend, "guest_image_sha256" := Str(guestImage),
            "job_sha256" := Str(job), "records" := records])
  }

  /** What `report_id` seals. */
  function Observed(functionalId: string, observationId: Json, surfaceScale: Json, build: Json, hardware: Json): Json {
    Obj(map["functional_id" := Str(functionalId), "observation_id" := observationId, "surface_scale" := surfaceScale,
            "build" := build, "hardware" := hardware])
  }

  predicate IsSource(v: Json) {
    v == XEMU || v == RETAIL_XBOX
  }

  /** `v or None` */
  function OrNone(v: Json): Json {
    match v
    case Bool(b) => if b then v else Null
    case Int(i) => if i != 0 then v else Null
    case Whole(i) => if i != 0 then v else Null
    case Str(s) => if s != "" then v else Null
    case Arr(items) => if items != [] then v else Null
    case Obj(fields) => if fields != map[] then v else Null
    case _ => v
  }

  function BuildReport(codec: Codec, records: seq<Fields>, inputs: Inputs): Result<Report> {
    var guest :- HashText(inputs.guestImage, 64);
    if !IsSource(inputs.sourceType) || !IsText(inputs.sourceBackend) || !IsText(inputs.observationId) then Err(Invalid)
    else
      var normalized :- NormalizedRecords(codec, records);
      Ok(Seal(codec, guest, codec.Hash(inputs.jobConfig), Arr(normalized), inputs))
  }

  function Seal(codec: Codec, guest: string, job: string, records: Json, inputs: Inputs): Report {
    var functionalId := codec.Hash(Stable(inputs.sourceType, inputs.sourceBackend, guest, job, records));
    var build, hardware := OrNone(inputs.build), OrNone(inputs.hardware);
    var reportId := codec.Hash(Observed(functionalId, inputs.observationId, inputs.surfaceScale, build, hardware));
    Report(SCHEMA_VERSION, REPORT_KIND, Null, inputs.sourceType, inputs.sourceBackend, Str(guest), Str(job), records,
           Str(functionalId), inputs.observationId, inputs.surfaceScale, build, hardware, Str(reportId))
  }

  // ----- _validate_report_shape -----

  ghost predicate ValidReport(codec: Codec, r: Report) {
    PyEq(r.schemaVersion, SCHEMA_VERSION) && r.kind == REPORT_KIND &&
    HashText(r.guestImage, 64).Ok? && HashText(r.job, 64).Ok? &&
    HashText(r.reportId, 64).Ok? && HashText(r.functionalId, 64).Ok? &&
    IsText(r.observationId) && IsSource(r.sourceType) && IsText(r.sourceBackend) && r.provenance == Null &&
    ValidRecords(codec, r.records) && SealHolds(codec, r)
  }

  /** Both identifiers are the hashes of what they seal. */
  predicate SealHolds(codec: Codec, r: Report)
    requires HashText(r.guestImage, 64).Ok? && HashText(r.job, 64).Ok?
    requires HashText(r.reportId, 64).Ok? && HashText(r.functionalId, 64).Ok?
  {
    var stable := Stable(r.sourceType, r.sourceBackend, HashText(r.guestImage, 64).value, HashText(r.job, 64).value,
                         r.records);
    var functionalId := HashText(r.functionalId, 64).value;
    functionalId == codec.Hash(stable) &&
    HashText(r.reportId, 64).value ==
    codec.Hash(Observed(functionalId, r.observationId, r.surfaceScale, r.build, r.hardware))
  }

  method ValidateReport(codec: Codec, r: Report) returns (ok: bool)
    ensures ok == ValidReport(codec, r)
  {
    hide HashText, ValidRecords;
    if !PyEq(r.schemaVersion, SCHEMA_VERSION) || r.kind != REPORT_KIND {
      return false;
    }
    if HashText(r.guestImage, 64).Err? || HashText(r.job, 64).Err? || HashText(r.reportId, 64).Err? ||
       HashText(r.functionalId, 64).Err? {
      return false;
    }
    if !IsText(r.observationId) || !IsSource(r.sourceType) || !IsText(r.sourceBackend) || r.provenance != Null {
      return false;
    }
    ok := ValidateNormalizedRecords(codec, r.records);
    return ok && SealHolds(codec, r);
  }

  // ----- report ids -----

  /** Texts compare with texts and integers with integers; comparing the two kinds raises. */
  predicate IdLeq(a: Json, b: Json) {
    (a.Str? && b.Str? && StringLeq(a.s, b.s)) || (a.Int? && b.Int? && a.i <= b.i)
  }

  predicate SameKind(a: Json, b: Json) {
    (a.Str? && b.Str?) || (a.Int? && b.Int?)
  }

  predicate AllSameKind(ids: set<Json>) {
    forall a, b | a in ids && b in ids :: SameKind(a, b)
  }

  lemma IdsAreOrdered(ids: set<Json>)
    requires AllSameKind(ids)
    ensures TotalOn(IdLeq, ids)
  {
    hide StringLeq;
    var texts := set id | id in ids && id.Str? :: id.s;
    StringsAreOrdered(texts);
    forall a, b | a in ids && b in ids ensures IdLeq(a, b) || IdLeq(b, a) {
      assert SameKind(a, b);
    }
  }

  /** `sorted(ids)`, which raises when texts and integers are mixed. */
  function SortIds(ids: set<Json>): Result<seq<Json>> {
    if !AllSameKind(ids) then Err(Crash)
    else
      IdsAreOrdered(ids);
      Ok(SortedSet(IdLeq, ids))
  }
}
