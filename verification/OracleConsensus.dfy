/** Consensus manifests over agreeing reports, and the validation of a report against a manifest. */
module OracleConsensus {
  import opened FirstDifference
  import opened JsonTree
  import opened Lists
  import opened OracleRecords
  import opened OracleReport
  import opened Sorting

  // ----- comparison_records -----

  const DIAGNOSTIC_RECORDS: set<string> := {
    "GameLoadComposite::10-S3tcSyncFactor-02-Dxt1SameAddressQueued",
    "GameLoadComposite::10-S3tcSyncFactor-06-Rgba8SameAddressQueued"
  }
  const DIAGNOSTIC_REASON := "unsynchronized same-address writes have no defined per-draw source generation"

  predicate IsDiagnosticPolicy(policy: Json) {
    policy.Obj? && Get(policy.fields, "reason") == Str(DIAGNOSTIC_REASON) &&
    ExcludedBy(policy) == {FRAMEBUFFER, "kats.tile_center_kat"}
  }

  /**
   * The comparison view of a validated record. A present but null oracle or policy is
   * accepted by the validator and raises here.
   */
  function ComparisonView(record: Json): Result<Json>
    requires IsRecord(record)
  {
    var f := record.fields;
    var internal, policy := Get(f, "internal_oracle"), Get(f, "comparison_policy");
    if "internal_oracle" in f && internal == Null then Err(Crash)
    else if internal.Obj? && Get(internal.fields, "status") == Str("FAIL") then Err(Invalid)
    else if f["test_id"].s !in DIAGNOSTIC_RECORDS then Ok(record)
    else if "comparison_policy" in f && policy == Null then Err(Crash)
    else if IsDiagnosticPolicy(policy) && internal.Obj? && Get(internal.fields, "provenance") == Str("regression_only")
    then Ok(Obj(f["internal_oracle" := Obj(internal.fields - {"failure_count"})]))
    else Ok(record)
  }

  ghost predicate AreRecords(records: seq<Json>) {
    forall i | 0 <= i < |records| :: IsRecord(records[i])
  }

  ghost function ComparisonViews(records: seq<Json>): Result<seq<Json>>
    requires AreRecords(records)
  {
    if records == [] then Ok([])
    else
      var front :- ComparisonViews(records[..|records| - 1]);
      var view :- ComparisonView(records[|records| - 1]);
      Ok(front + [view])
  }

  /** `comparison_records` */
  method ComparisonRecords(records: seq<Json>) returns (r: Result<seq<Json>>)
    requires AreRecords(records)
    ensures r == ComparisonViews(records)
  {
    hide IsRecord, ComparisonView;
    var projected: seq<Json> := [];
    assert records[..|records|] == records;
    for i := 0 to |records|
      invariant ComparisonViews(records[..i]) == Ok(projected)
    {
      ViewsPrefix(records, i);
      var view := ComparisonView(records[i]);
      assert records[..i + 1][..i] == records[..i] && records[..i + 1][i] == records[i];
      if view.Err? {
        return Err(view.error);
      }
      projected := projected + [view.value];
    }
    return Ok(projected);
  }

  lemma {:induction false} ViewsPrefix(records: seq<Json>, i: nat)
    requires i < |records| && AreRecords(records)
    ensures ComparisonViews(records[..i + 1]).Err? ==>
              ComparisonViews(records) == Err(ComparisonViews(records[..i + 1]).error)
    decreases |records|
  {
    hide IsRecord, ComparisonView;
    if i + 1 < |records| {
      var front := records[..|records| - 1];
      assert front[..i + 1] == records[..i + 1];
      ViewsPrefix(front, i);
    } else {
      assert records[..i + 1] == records;
    }
  }

  // ----- build_consensus -----

  const MANIFEST_KIND := Str("xemu_functional_hash_oracle")
  const REGRESSION_CONSENSUS := Str("REGRESSION_CONSENSUS")

  /** A manifest as the validators see it: what `oracle.get(field)` returns. */
  datatype Manifest = Manifest(
    schemaVersion: Json, kind: Json, provenance: Json, sourceBackend: Json, guestImage: Json, job: Json, records: Json,
    reportCount: Json, reportIds: Json, ownerCount: Json, ownerReports: Json, oracleId: Json)

  /** What a consensus manifest's `oracle_id` seals. */
  function ConsensusStable(sourceBackend: Json, guestImage: Json, job: Json, records: Json, count: Json, ids: Json): Json {
    Obj(map["schema_version" := SCHEMA_VERSION, "kind" := MANIFEST_KIND, "oracle_provenance" := REGRESSION_CONSENSUS,
            "source_backend" := sourceBackend, "guest_image_sha256" := guestImage, "job_sha256" := job,
            "records" := records, "consensus_report_count" := count, "consensus_report_ids" := ids])
  }

  function ConsensusManifest(codec: Codec, first: Report, ids: seq<Json>): Manifest {
    var count := Int(|ids|);
    var stable := ConsensusStable(first.sourceBackend, first.guestImage, first.job, first.records, count, Arr(ids));
    Manifest(SCHEMA_VERSION, MANIFEST_KIND, REGRESSION_CONSENSUS, first.sourceBackend, first.guestImage, first.job,
             first.records, count, Arr(ids), Null, Null, Str(codec.Hash(stable)))
  }

  /** A raw xemu observation whose shape is valid. */
  ghost predicate IsObservedReport(codec: Codec, r: Report) {
    ValidReport(codec, r) && r.sourceType == XEMU
  }

  ghost predicate AreObserved(codec: Codec, reports: seq<Report>) {
    forall i | 0 <= i < |reports| :: IsObservedReport(codec, reports[i])
  }

  function ReportIds(reports: seq<Report>): set<Json> {
    set r | r in reports :: r.reportId
  }

  ghost function Views(codec: Codec, r: Report): Result<seq<Json>>
    requires IsObservedReport(codec, r)
  {
    ComparisonViews(r.records.items)
  }

  /** The pass over all reports that only looks for records which cannot be compared. */
  ghost function AllComparable(codec: Codec, reports: seq<Report>): Result<()>
    requires AreObserved(codec, reports)
  {
    if reports == [] then Ok(())
    else
      var _ :- AllComparable(codec, reports[..|reports| - 1]);
      var _ :- Views(codec, reports[|reports| - 1]);
      Ok(())
  }

  /** A report agrees with the first one on its backend, image, job and compared records. */
  ghost function Agreement(codec: Codec, first: Report, r: Report): Result<()>
    requires IsObservedReport(codec, first) && IsObservedReport(codec, r)
    requires Views(codec, first).Ok? && Views(codec, r).Ok?
  {
    if !PyEq(r.sourceBackend, first.sourceBackend) || !PyEq(r.guestImage, first.guestImage) || !PyEq(r.job, first.job)
    then Err(Invalid)
    else if Difference(Arr(Views(codec, first).value), Arr(Views(codec, r).value), []).Some? then Err(Nondeterminism)
    else Ok(())
  }

  ghost predicate HaveViews(codec: Codec, reports: seq<Report>)
    requires AreObserved(codec, reports)
  {
    forall i | 0 <= i < |reports| :: Views(codec, reports[i]).Ok?
  }

  ghost function AllAgree(codec: Codec, first: Report, reports: seq<Report>): Result<()>
    requires IsObservedReport(codec, first) && AreObserved(codec, reports)
    requires Views(codec, first).Ok? && HaveViews(codec, reports)
  {
    if reports == [] then Ok(())
    else
      var _ :- AllAgree(codec, first, reports[..|reports| - 1]);
      Agreement(codec, first, reports[|reports| - 1])
  }

  lemma {:induction false} ComparableExactly(codec: Codec, reports: seq<Report>)
    requires AreObserved(codec, reports)
    ensures AllComparable(codec, reports).Ok? <==> HaveViews(codec, reports)
    decreases |reports|
  {
    hide IsObservedReport, Views;
    if reports != [] {
      var n := |reports| - 1;
      ComparableExactly(codec, reports[..n]);
      assert forall i | 0 <= i < n :: reports[..n][i] == reports[i];
    }
  }

  /** `build_consensus` */
  ghost function Consensus(codec: Codec, reports: seq<Report>): Result<Manifest> {
    if |reports| < 2 || !AreObserved(codec, reports) || |ReportIds(reports)| < 2 then Err(Invalid)
    else
      var _ :- AllComparable(codec, reports);
      ComparableExactly(codec, reports);
      AgreedConsensus(codec, reports)
  }

  ghost function AgreedConsensus(codec: Codec, reports: seq<Report>): Result<Manifest>
    requires |reports| >= 2 && AreObserved(codec, reports) && HaveViews(codec, reports)
  {
    assert reports[0] == reports[..1][0];
    var _ :- AllAgree(codec, reports[0], reports[1..]);
    SealedConsensus(codec, reports)
  }

  function SealedConsensus(codec: Codec, reports: seq<Report>): Result<Manifest>
    requires reports != []
  {
    var ids :- SortIds(ReportIds(reports));
    Ok(ConsensusManifest(codec, reports[0], ids))
  }

  method BuildConsensus(codec: Codec, reports: seq<Report>) returns (r: Result<Manifest>)
    ensures r == Consensus(codec, reports)
  {
    hide IsObservedReport, AgreedConsensus, SealedConsensus, ReportIds, AllComparable, HaveViews;
    if |reports| < 2 {
      return Err(Invalid);
    }
    var observed := ObservedAll(codec, reports);
    if !observed || |ReportIds(reports)| < 2 {
      return Err(Invalid);
    }
    var comparable := CompareAll(codec, reports);
    if comparable.Err? {
      return Err(comparable.error);
    }
    ComparableExactly(codec, reports);
    r := AgreeAll(codec, reports);
  }

  method ObservedAll(codec: Codec, reports: seq<Report>) returns (ok: bool)
    ensures ok == AreObserved(codec, reports)
  {
    hide ValidReport;
    for i := 0 to |reports|
      invariant forall k | 0 <= k < i :: IsObservedReport(codec, reports[k])
    {
      var valid := ValidateReport(codec, reports[i]);
      if !valid || reports[i].sourceType != XEMU {
        return false;
      }
    }
    return true;
  }

  method CompareAll(codec: Codec, reports: seq<Report>) returns (r: Result<()>)
    requires AreObserved(codec, reports)
    ensures r == AllComparable(codec, reports)
  {
    hide Views, IsObservedReport;
    assert reports[..|reports|] == reports;
    for i := 0 to |reports|
      invariant AllComparable(codec, reports[..i]) == Ok(())
    {
      ComparablePrefix(codec, reports, i);
      assert reports[..i + 1][..i] == reports[..i] && reports[..i + 1][i] == reports[i];
      var views := ViewsOf(codec, reports[i]);
      if views.Err? {
        return Err(views.error);
      }
    }
    return Ok(());
  }

  method ViewsOf(codec: Codec, report: Report) returns (views: Result<seq<Json>>)
    requires IsObservedReport(codec, report)
    ensures views == Views(codec, report)
  {
    hide ComparisonViews, SealHolds, HashText;
    views := ComparisonRecords(report.records.items);
  }

  lemma {:induction false} ComparablePrefix(codec: Codec, reports: seq<Report>, i: nat)
    requires i < |reports| && AreObserved(codec, reports)
    ensures AllComparable(codec, reports[..i + 1]).Err? ==>
              AllComparable(codec, reports) == Err(AllComparable(codec, reports[..i + 1]).error)
    decreases |reports|
  {
    hide IsObservedReport, Views;
    if i + 1 < |reports| {
      var front := reports[..|reports| - 1];
      assert front[..i + 1] == reports[..i + 1];
      ComparablePrefix(codec, front, i);
    } else {
      assert reports[..i + 1] == reports;
    }
  }

  method AgreeAll(codec: Codec, reports: seq<Report>) returns (r: Result<Manifest>)
    requires |reports| >= 2 && AreObserved(codec, reports) && HaveViews(codec, reports)
    ensures r == AgreedConsensus(codec, reports)
  {
    hide IsObservedReport, Views, Agreement, SealedConsensus;
    var first, rest := reports[0], reports[1..];
    assert rest[..|rest|] == rest;
    for i := 0 to |rest|
      invariant AllAgree(codec, first, rest[..i]).Ok?
    {
      AgreePrefix(codec, first, rest, i);
      assert rest[..i + 1][..i] == rest[..i] && rest[..i + 1][i] == rest[i];
      var agreement := CheckAgreement(codec, first, rest[i]);
      if agreement.Err? {
        return Err(agreement.error);
      }
    }
    return SealedConsensus(codec, reports);
  }

  /** The comparison of one report with the first, field by field. */
  method CheckAgreement(codec: Codec, first: Report, report: Report) returns (r: Result<()>)
    requires IsObservedReport(codec, first) && IsObservedReport(codec, report)
    requires Views(codec, first).Ok? && Views(codec, report).Ok?
    ensures r == Agreement(codec, first, report)
  {
    hide IsObservedReport, Views, Difference;
    if !PyEq(report.sourceBackend, first.sourceBackend) || !PyEq(report.guestImage, first.guestImage) ||
       !PyEq(report.job, first.job) {
      return Err(Invalid);
    }
    var expected := ViewsOf(codec, first);
    var actual := ViewsOf(codec, report);
    if Difference(Arr(expected.value), Arr(actual.value), []).Some? {
      return Err(Nondeterminism);
    }
    return Ok(());
  }

  lemma {:induction false} AgreePrefix(codec: Codec, first: Report, reports: seq<Report>, i: nat)
    requires i < |reports| && IsObservedReport(codec, first) && AreObserved(codec, reports)
    requires Views(codec, first).Ok? && HaveViews(codec, reports)
    ensures AllAgree(codec, first, reports[..i + 1]).Err? ==>
              AllAgree(codec, first, reports) == Err(AllAgree(codec, first, reports[..i + 1]).error)
    decreases |reports|
  {
    hide IsObservedReport, Views, Agreement;
    if i + 1 < |reports| {
      var front := reports[..|reports| - 1];
      assert front[..i + 1] == reports[..i + 1];
      AgreePrefix(codec, first, front, i);
    } else {
      assert reports[..i + 1] == reports;
    }
  }

  // ----- _validate_oracle_shape -----

  const RETAIL_BACKEND := Str("retail-xbox")

  predicate AreHashList(items: seq<Json>) {
    forall i | 0 <= i < |items| :: HashText(items[i], 64).Ok?
  }

  /** The sorted canonical texts of a list of hashes. */
  function SortedHashes(items: seq<Json>): seq<string>
    requires AreHashList(items)
  {
    Sort(StringLeq, seq(|items|, i requires 0 <= i < |items| => HashText(items[i], 64).value))
  }

  ghost predicate ValidReportIds(count: Json, ids: Json) {
    IsCount(count) && ids.Arr? && count.i >= 2 && |ids.items| == count.i && AreHashList(ids.items) &&
    |Elements(SortedHashes(ids.items))| == count.i && ids.items == Texts(SortedHashes(ids.items))
  }

  predicate IsOwner(item: Json) {
    item.Obj? && IsText(Get(item.fields, "owner_id")) && IsText(Get(item.fields, "hardware_revision")) &&
    HashText(Get(item.fields, "report_id"), 64).Ok?
  }

  function NormalizedOwner(item: Json): Json
    requires IsOwner(item)
  {
    Obj(map["owner_id" := item.fields["owner_id"], "hardware_revision" := item.fields["hardware_revision"],
            "report_id" := Str(HashText(item.fields["report_id"], 64).value)])
  }

  predicate OwnerLeq(a: Json, b: Json) {
    a.Obj? && b.Obj? && Get(a.fields, "owner_id").Str? && Get(b.fields, "owner_id").Str? &&
    StringLeq(a.fields["owner_id"].s, b.fields["owner_id"].s)
  }

  predicate AreOwners(items: seq<Json>) {
    forall i | 0 <= i < |items| :: IsOwner(items[i])
  }

  function NormalizedOwners(items: seq<Json>): seq<Json>
    requires AreOwners(items)
  {
    Sort(OwnerLeq, seq(|items|, i requires 0 <= i < |items| => NormalizedOwner(items[i])))
  }

  function OwnerIds(items: seq<Json>): set<Json>
    requires AreOwners(items)
  {
    set i | 0 <= i < |items| :: items[i].fields["owner_id"]
  }

  predicate ValidOwners(count: Json, owners: Json) {
    IsCount(count) && owners.Arr? && count.i >= 2 && |owners.items| == count.i && AreOwners(owners.items) &&
    |OwnerIds(owners.items)| == count.i && PyEq(owners, Arr(NormalizedOwners(owners.items)))
  }

  /** What a retail manifest's `oracle_id` seals. */
  function RetailStable(guestImage: Json, job: Json, records: Json, count: Json, owners: Json): Json {
    Obj(map["schema_version" := SCHEMA_VERSION, "kind" := MANIFEST_KIND, "oracle_provenance" := RETAIL_XBOX,
            "source_backend" := RETAIL_BACKEND, "guest_image_sha256" := guestImage, "job_sha256" := job,
            "records" := records, "owner_report_count" := count, "owner_reports" := owners])
  }

  ghost predicate ValidOracle(codec: Codec, o: Manifest) {
    PyEq(o.schemaVersion, SCHEMA_VERSION) && o.kind == MANIFEST_KIND && IsText(o.sourceBackend) &&
    HashText(o.guestImage, 64).Ok? && HashText(o.job, 64).Ok? && ValidRecords(codec, o.records) &&
    HashText(o.oracleId, 64).Ok? &&
    if o.provenance == REGRESSION_CONSENSUS then ValidReportIds(o.reportCount, o.reportIds) && ConsensusSealed(codec, o)
    else
      o.provenance == RETAIL_XBOX && o.sourceBackend == RETAIL_BACKEND && ValidOwners(o.ownerCount, o.ownerReports) &&
      RetailSealed(codec, o)
  }

  predicate ConsensusSealed(codec: Codec, o: Manifest)
    requires HashText(o.guestImage, 64).Ok? && HashText(o.job, 64).Ok? && HashText(o.oracleId, 64).Ok?
    requires o.reportIds.Arr? && AreHashList(o.reportIds.items)
  {
    HashText(o.oracleId, 64).value ==
    codec.Hash(ConsensusStable(o.sourceBackend, Str(HashText(o.guestImage, 64).value), Str(HashText(o.job, 64).value),
                               o.records, o.reportCount, Arr(Texts(SortedHashes(o.reportIds.items)))))
  }

  predicate RetailSealed(codec: Codec, o: Manifest)
    requires HashText(o.guestImage, 64).Ok? && HashText(o.job, 64).Ok? && HashText(o.oracleId, 64).Ok?
    requires o.ownerReports.Arr? && AreOwners(o.ownerReports.items)
  {
    HashText(o.oracleId, 64).value ==
    codec.Hash(RetailStable(Str(HashText(o.guestImage, 64).value), Str(HashText(o.job, 64).value), o.records,
                            o.ownerCount, Arr(NormalizedOwners(o.ownerReports.items))))
  }

  // ----- validate_against_oracle -----

  ghost predicate SameRecords(codec: Codec, oracle: Json, report: Json)
    requires ValidRecords(codec, oracle) && ValidRecords(codec, report)
  {
    var expected, actual := ComparisonViews(oracle.items), ComparisonViews(report.items);
    expected.Ok? && actual.Ok? && Difference(Arr(expected.value), Arr(actual.value), []).None?
  }

  /** `validate_against_oracle` returns without raising. */
  ghost predicate Accepts(codec: Codec, r: Report, o: Manifest) {
    ValidReport(codec, r) && ValidOracle(codec, o) &&
    (o.provenance == REGRESSION_CONSENSUS ==> PyEq(o.sourceBackend, r.sourceBackend)) &&
    PyEq(o.guestImage, r.guestImage) && PyEq(o.job, r.job) && SameRecords(codec, o.records, r.records)
  }

  method ValidateOracle(codec: Codec, o: Manifest) returns (ok: bool)
    ensures ok == ValidOracle(codec, o)
  {
    hide HashText, ValidRecords, IsOwner, AreHashList, SortedHashes, ConsensusStable, RetailStable, NormalizedOwners;
    if !PyEq(o.schemaVersion, SCHEMA_VERSION) || o.kind != MANIFEST_KIND || !IsText(o.sourceBackend) {
      return false;
    }
    if o.provenance != REGRESSION_CONSENSUS && o.provenance != RETAIL_XBOX {
      return false;
    }
    if HashText(o.guestImage, 64).Err? || HashText(o.job, 64).Err? || HashText(o.oracleId, 64).Err? {
      return false;
    }
    var records := ValidateNormalizedRecords(codec, o.records);
    if !records {
      return false;
    }
    if o.provenance == REGRESSION_CONSENSUS {
      var ids := CheckReportIds(o.reportCount, o.reportIds);
      return ids && ConsensusSealed(codec, o);
    }
    return o.sourceBackend == RETAIL_BACKEND && ValidOwners(o.ownerCount, o.ownerReports) && RetailSealed(codec, o);
  }

  method CheckReportIds(count: Json, ids: Json) returns (ok: bool)
    ensures ok == ValidReportIds(count, ids)
  {
    hide HashText;
    if !IsCount(count) || !ids.Arr? || count.i < 2 || |ids.items| != count.i || !AreHashList(ids.items) {
      return false;
    }
    var normalized := SortedHashes(ids.items);
    var distinct := set id | id in normalized;
    assert distinct == Elements(normalized);
    return |distinct| == count.i && ids.items == Texts(normalized);
  }

  method ValidateAgainstOracle(codec: Codec, r: Report, o: Manifest) returns (passed: bool)
    ensures passed == Accepts(codec, r, o)
  {
    hide ValidReport, ValidOracle, SameRecords, Norm;
    var report := ValidateReport(codec, r);
    if !report {
      return false;
    }
    var oracle := ValidateOracle(codec, o);
    if !oracle {
      return false;
    }
    if o.provenance == REGRESSION_CONSENSUS && !PyEq(o.sourceBackend, r.sourceBackend) {
      return false;
    }
    if !PyEq(o.guestImage, r.guestImage) || !PyEq(o.job, r.job) {
      return false;
    }
    ValidRecordsInside(codec, r, o);
    passed := CompareRecords(codec, o.records, r.records);
  }

  lemma ValidRecordsInside(codec: Codec, r: Report, o: Manifest)
    requires ValidReport(codec, r) && ValidOracle(codec, o)
    ensures ValidRecords(codec, r.records) && ValidRecords(codec, o.records)
  {
    hide ValidRecords, HashText, SealHolds, ConsensusSealed, RetailSealed, ValidReportIds, ValidOwners;
  }

  method CompareRecords(codec: Codec, oracle: Json, report: Json) returns (same: bool)
    requires ValidRecords(codec, oracle) && ValidRecords(codec, report)
    ensures same == SameRecords(codec, oracle, report)
  {
    hide IsRecord, ComparisonViews, Difference;
    var expected := ComparisonRecords(oracle.items);
    if expected.Err? {
      return false;
    }
    var actual := ComparisonRecords(report.items);
    if actual.Err? {
      return false;
    }
    return Difference(Arr(expected.value), Arr(actual.value), []).None?;
  }
}
