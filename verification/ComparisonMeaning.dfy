/** When two records compare equal, in terms of their own fields. */
module ComparisonMeaning {
  import opened ComparisonCrash
  import opened ConsensusSoundness
  import opened DeterminismLedger
  import opened FirstDifference
  import opened JsonTree
  import opened OracleConsensus
  import opened OracleRecords
  import opened OracleReport

  // ----- the records whose failure count is not compared -----

  /** The texts of a list of observations, as a set. */
  function ExcludedTexts(policy: Fields): set<Json> {
    if Get(policy, "excluded_observations").Arr? then (set v | v in policy["excluded_observations"].items) else {}
  }

  predicate IsS3tcScene(testId: Json) {
    testId == Str("GameLoadComposite::10-S3tcSyncFactor-02-Dxt1SameAddressQueued") ||
    testId == Str("GameLoadComposite::10-S3tcSyncFactor-06-Rgba8SameAddressQueued")
  }

  predicate IsUnsynchronized(policy: Json) {
    policy.Obj? &&
    Get(policy.fields, "reason") ==
      Str("unsynchronized same-address writes have no defined per-draw source generation") &&
    ExcludedTexts(policy.fields) == {Str("framebuffer_fnv1a64"), Str("kats.tile_center_kat")}
  }

  predicate ForRegressionOnly(internal: Json) {
    internal.Obj? && Get(internal.fields, "provenance") == Str("regression_only")
  }

  /** One of the two unsynchronized S3TC scenes, excluded for that reason and checked for regressions only. */
  predicate IsDiagnostic(record: Json) {
    record.Obj? && IsS3tcScene(Get(record.fields, "test_id")) && IsUnsynchronized(Get(record.fields, "comparison_policy")) &&
    ForRegressionOnly(Get(record.fields, "internal_oracle"))
  }

  /** Equal but for the failure count of the internal oracle, which may also be absent. */
  predicate EqualButCount(a: Json, b: Json) {
    a.Obj? && b.Obj? && a.fields - {"internal_oracle"} == b.fields - {"internal_oracle"} &&
    Get(a.fields, "internal_oracle").Obj? && Get(b.fields, "internal_oracle").Obj? &&
    a.fields["internal_oracle"].fields - {"failure_count"} == b.fields["internal_oracle"].fields - {"failure_count"}
  }

  predicate ComparesEqual(a: Json, b: Json) {
    a == b || (IsDiagnostic(a) && IsDiagnostic(b) && EqualButCount(a, b))
  }

  // ----- the view -----

  lemma ObservationsOfPolicy(policy: Json)
    requires IsPolicy(policy)
    ensures ExcludedBy(policy) == {FRAMEBUFFER, "kats.tile_center_kat"} <==>
            ExcludedTexts(policy.fields) == {Str("framebuffer_fnv1a64"), Str("kats.tile_center_kat")}
  {
    hide IsObservation;
    var items := policy.fields["excluded_observations"].items;
    assert forall i | 0 <= i < |items| :: items[i].Str? by {
      forall i | 0 <= i < |items| ensures items[i].Str? {
        ObservationIsText(items[i]);
      }
    }
    var texts := ExcludedBy(policy);
    forall t: string ensures t in texts <==> Str(t) in ExcludedTexts(policy.fields) {
      if Str(t) in items {
        var i :| 0 <= i < |items| && items[i] == Str(t);
        assert items[i].s in texts;
      }
    }
    assert forall v | v in ExcludedTexts(policy.fields) :: v.Str?;
    if texts == {FRAMEBUFFER, "kats.tile_center_kat"} {
      assert ExcludedTexts(policy.fields) == {Str(FRAMEBUFFER), Str("kats.tile_center_kat")};
    }
    if ExcludedTexts(policy.fields) == {Str(FRAMEBUFFER), Str("kats.tile_center_kat")} {
      assert texts == {FRAMEBUFFER, "kats.tile_center_kat"};
    }
  }

  lemma ObservationIsText(v: Json)
    requires IsObservation(v)
    ensures v.Str?
  {
  }

  /** A comparable record is shown without its failure count exactly when it is diagnostic, and unchanged otherwise. */
  lemma ViewIs(record: Json)
    requires IsRecord(record) && ComparisonView(record).Ok?
    ensures ComparisonView(record).value ==
            if IsDiagnostic(record)
            then Obj(record.fields["internal_oracle" := Obj(record.fields["internal_oracle"].fields - {"failure_count"})])
            else record
  {
    hide IsContract, AreHashes, IsInternal, ExcludedBy, ExcludedTexts, IsPolicy;
    var policy := Get(record.fields, "comparison_policy");
    DiagnosticIds(record);
    if policy != Null {
      ObservationsOfPolicy(policy);
    }
  }

  lemma DiagnosticIds(record: Json)
    requires IsRecord(record)
    ensures record.fields["test_id"].s in DIAGNOSTIC_RECORDS <==> IsS3tcScene(Get(record.fields, "test_id"))
  {
    hide IsContract, AreHashes, IsInternal, ExcludedBy, IsPolicy;
  }

  function WithoutCount(record: Json): Json
    requires record.Obj? && Get(record.fields, "internal_oracle").Obj?
  {
    Obj(record.fields["internal_oracle" := Obj(record.fields["internal_oracle"].fields - {"failure_count"})])
  }

  lemma ProvenanceStays(internal: Json)
    requires ForRegressionOnly(internal)
    ensures ForRegressionOnly(Obj(internal.fields - {"failure_count"}))
  {
    assert "provenance" in internal.fields - {"failure_count"};
  }

  /** Dropping the count leaves the conditions alone. */
  lemma WithoutCountDiagnostic(record: Json)
    requires IsDiagnostic(record)
    ensures IsDiagnostic(WithoutCount(record))
  {
    hide IsS3tcScene, IsUnsynchronized, ForRegressionOnly, WithoutCount;
    DiagnosticOracle(record);
    ProvenanceStays(Get(record.fields, "internal_oracle"));
    WithoutCountParts(record);
  }

  lemma WithoutCountParts(record: Json)
    requires record.Obj? && Get(record.fields, "internal_oracle").Obj?
    ensures
      var f, g := record.fields, WithoutCount(record).fields;
      Get(g, "test_id") == Get(f, "test_id") && Get(g, "comparison_policy") == Get(f, "comparison_policy") &&
      Get(g, "internal_oracle") == Obj(Get(f, "internal_oracle").fields - {"failure_count"}) && WithoutCount(record) == Obj(g)
  {
  }

  lemma CountsAside(a: Json, b: Json)
    requires a.Obj? && Get(a.fields, "internal_oracle").Obj? && b.Obj? && Get(b.fields, "internal_oracle").Obj?
    ensures WithoutCount(a) == WithoutCount(b) <==> EqualButCount(a, b)
  {
    var f, g := WithoutCount(a).fields, WithoutCount(b).fields;
    assert f - {"internal_oracle"} == a.fields - {"internal_oracle"};
    assert g - {"internal_oracle"} == b.fields - {"internal_oracle"};
    assert f["internal_oracle"].fields == a.fields["internal_oracle"].fields - {"failure_count"};
    assert g["internal_oracle"].fields == b.fields["internal_oracle"].fields - {"failure_count"};
    if EqualButCount(a, b) {
      assert forall k | k in f :: k == "internal_oracle" || k in f - {"internal_oracle"};
      assert forall k | k in g :: k == "internal_oracle" || k in g - {"internal_oracle"};
      assert f.Keys == g.Keys;
      assert forall k | k in f && k != "internal_oracle" :: f[k] == (f - {"internal_oracle"})[k];
      assert forall k | k in g && k != "internal_oracle" :: g[k] == (g - {"internal_oracle"})[k];
    }
  }

  lemma DiagnosticOracle(record: Json)
    requires IsDiagnostic(record)
    ensures record.Obj? && Get(record.fields, "internal_oracle").Obj?
  {
  }

  /**
   * Two comparable records compare equal exactly when they are equal, or both are diagnostic
   * and differ in nothing but the failure count of their internal oracle.
   */
  lemma RecordsCompareExactly(a: Json, b: Json)
    requires IsRecord(a) && IsRecord(b) && ComparisonView(a).Ok? && ComparisonView(b).Ok?
    ensures ComparisonView(a) == ComparisonView(b) <==> ComparesEqual(a, b)
  {
    hide IsRecord, ComparisonView, IsDiagnostic, EqualButCount;
    ViewIs(a);
    ViewIs(b);
    if IsDiagnostic(a) {
      DiagnosticOracle(a);
      WithoutCountDiagnostic(a);
    }
    if IsDiagnostic(b) {
      DiagnosticOracle(b);
      WithoutCountDiagnostic(b);
    }
    if IsDiagnostic(a) && IsDiagnostic(b) {
      CountsAside(a, b);
      assert ComparisonView(a).value == WithoutCount(a) && ComparisonView(b).value == WithoutCount(b);
      SameIsEqualButCount(a, b);
    }
  }

  lemma SameIsEqualButCount(a: Json, b: Json)
    requires IsDiagnostic(a) && IsDiagnostic(b)
    ensures a == b ==> EqualButCount(a, b)
  {
    DiagnosticOracle(a);
    hide IsDiagnostic;
  }

  // ----- lists of records -----

  /** Record by record. */
  predicate RecordsCompare(a: seq<Json>, b: seq<Json>) {
    |a| == |b| && forall i | 0 <= i < |a| :: ComparesEqual(a[i], b[i])
  }

  lemma {:induction false} ViewsAre(records: seq<Json>)
    requires AreRecords(records) && ComparisonViews(records).Ok?
    ensures |ComparisonViews(records).value| == |records|
    ensures forall i | 0 <= i < |records| :: ComparisonView(records[i]) == Ok(ComparisonViews(records).value[i])
  {
    hide IsRecord, ComparisonView;
    if records != [] {
      var n := |records| - 1;
      assert forall i | 0 <= i < n :: records[..n][i] == records[i];
      ViewsAre(records[..n]);
    }
  }

  lemma ViewsCompareExactly(a: seq<Json>, b: seq<Json>)
    requires AreRecords(a) && AreRecords(b) && ComparisonViews(a).Ok? && ComparisonViews(b).Ok?
    ensures ComparisonViews(a) == ComparisonViews(b) <==> RecordsCompare(a, b)
  {
    hide IsRecord, ComparisonView, ComparesEqual, ComparisonViews;
    ViewsAre(a);
    ViewsAre(b);
    var x, y := ComparisonViews(a).value, ComparisonViews(b).value;
    if |a| == |b| {
      forall i | 0 <= i < |a| ensures x[i] == y[i] <==> ComparesEqual(a[i], b[i]) {
        RecordsCompareExactly(a[i], b[i]);
      }
      if RecordsCompare(a, b) {
        assert x == y;
      }
    }
  }

  // ----- reports and manifests -----

  /** Two comparable reports agree on backend, image, job and, record by record, on what is compared. */
  lemma AgreementExactlyByRecords(codec: Codec, a: Report, b: Report)
    requires IsObservedReport(codec, a) && IsObservedReport(codec, b) && IsComparable(a) && IsComparable(b)
    ensures Agree(codec, a, b) <==>
            PyEq(a.sourceBackend, b.sourceBackend) && PyEq(a.guestImage, b.guestImage) && PyEq(a.job, b.job) &&
            RecordsCompare(a.records.items, b.records.items)
  {
    hide HashText, SealHolds, IsComparable, ComparisonViews, RecordsCompare, Norm, IsRecord;
    ComparisonCrashesExactly(codec, a);
    ComparisonCrashesExactly(codec, b);
    ViewsCompareExactly(a.records.items, b.records.items);
  }

  lemma ComparableHasList(r: Report)
    requires IsComparable(r)
    ensures r.records.Arr?
  {
  }

  /** A consensus of valid reports, stated on their own fields. */
  lemma ConsensusExactlyByRecords(codec: Codec, reports: seq<Report>)
    ensures Consensus(codec, reports).Ok? <==>
            |reports| >= 2 && AreObserved(codec, reports) && |ReportIds(reports)| >= 2 && AllSameKind(ReportIds(reports)) &&
            (forall r | r in reports :: IsComparable(r)) &&
            forall a, b | a in reports && b in reports ::
              PyEq(a.sourceBackend, b.sourceBackend) && PyEq(a.guestImage, b.guestImage) && PyEq(a.job, b.job) &&
              RecordsCompare(a.records.items, b.records.items)
  {
    hide IsObservedReport, Views, IsComparable, RecordsCompare, Norm, ReportIds, AllSameKind, Consensus, Agree;
    ConsensusExactly(codec, reports);
    if AreObserved(codec, reports) {
      forall r | r in reports ensures IsObservedReport(codec, r) && (Views(codec, r).Ok? <==> IsComparable(r)) {
        ComparisonCrashesExactly(codec, r);
      }
      if forall r | r in reports :: IsComparable(r) {
        forall a, b | a in reports && b in reports
          ensures a.records.Arr? && b.records.Arr?
          ensures Agree(codec, a, b) <==>
                  PyEq(a.sourceBackend, b.sourceBackend) && PyEq(a.guestImage, b.guestImage) && PyEq(a.job, b.job) &&
                  RecordsCompare(a.records.items, b.records.items)
        {
          ComparableHasList(a);
          ComparableHasList(b);
          AgreementExactlyByRecords(codec, a, b);
        }
      }
    }
  }

  predicate AllComparableRecords(records: seq<Json>) {
    forall i | 0 <= i < |records| :: !HasNull(records[i]) && !HasFailed(records[i])
  }

  /** The records of a manifest and of a candidate compare equal, stated on their own fields. */
  lemma SameRecordsExactly(codec: Codec, oracle: Json, report: Json)
    requires ValidRecords(codec, oracle) && ValidRecords(codec, report)
    ensures SameRecords(codec, oracle, report) <==>
            AllComparableRecords(oracle.items) && AllComparableRecords(report.items) &&
            RecordsCompare(oracle.items, report.items)
  {
    hide IsRecord, HasNull, HasFailed, ComparisonViews, RecordsCompare, Difference;
    ViewsFailExactly(oracle.items);
    ViewsFailExactly(report.items);
    var x, y := ComparisonViews(oracle.items), ComparisonViews(report.items);
    if x.Ok? && y.Ok? {
      ViewsCompareExactly(oracle.items, report.items);
      DifferenceExact(Arr(x.value), Arr(y.value), []);
    }
  }
}
