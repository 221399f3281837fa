/** The valid reports on which the comparison raises instead of deciding, and why built reports are not among them. */
module ComparisonCrash {
  import opened ConsensusSoundness
  import opened DeterminismLedger
  import opened JsonTree
  import opened Lists
  import opened OracleConsensus
  import opened OracleRecords
  import opened OracleReport
  import opened ReportSealing
  import opened Sorting

  // ----- one record -----

  /**
   * The record carries its internal oracle as an explicit null; or it is a diagnostic record
   * whose oracle did not fail and it carries its policy as an explicit null.
   */
  predicate HasNull(record: Json) {
    record.Obj? &&
    var f := record.fields;
    ("internal_oracle" in f && f["internal_oracle"] == Null) ||
    (!HasFailed(record) && Get(f, "test_id").Str? && f["test_id"].s in DIAGNOSTIC_RECORDS &&
     "comparison_policy" in f && f["comparison_policy"] == Null)
  }

  lemma ViewFailsExactly(record: Json)
    requires IsRecord(record)
    ensures ComparisonView(record) == Err(Crash) <==> HasNull(record)
    ensures ComparisonView(record).Ok? <==> !HasNull(record) && !HasFailed(record)
  {
    hide IsContract, IsPolicy, AreHashes, ExcludedBy, IsInternal, IsDiagnosticPolicy;
  }

  // ----- the records of a report -----

  /** Every record before the `i`th can be compared, and the `i`th raises. */
  ghost predicate CrashesAt(records: seq<Json>, i: int) {
    0 <= i < |records| && HasNull(records[i]) && forall k | 0 <= k < i :: !HasNull(records[k]) && !HasFailed(records[k])
  }

  lemma LastCrash(records: seq<Json>)
    requires records != []
    ensures
      var n := |records| - 1;
      (exists i :: CrashesAt(records, i)) <==>
      (exists i :: CrashesAt(records[..n], i)) ||
      (HasNull(records[n]) && forall i | 0 <= i < n :: !HasNull(records[i]) && !HasFailed(records[i]))
  {
    hide HasNull, HasFailed;
    var n := |records| - 1;
    forall i | 0 <= i < n ensures CrashesAt(records[..n], i) <==> CrashesAt(records, i) {
      assert forall k | 0 <= k <= i :: records[..n][k] == records[k];
    }
    if i :| CrashesAt(records, i) && i < n {
      assert CrashesAt(records[..n], i);
    }
    if i :| CrashesAt(records[..n], i) {
      assert CrashesAt(records, i);
    }
    if HasNull(records[n]) && forall i | 0 <= i < n :: !HasNull(records[i]) && !HasFailed(records[i]) {
      assert CrashesAt(records, n);
    }
  }

  lemma {:induction false} ViewsFailExactly(records: seq<Json>)
    requires AreRecords(records)
    ensures ComparisonViews(records).Ok? <==> forall i | 0 <= i < |records| :: !HasNull(records[i]) && !HasFailed(records[i])
    ensures ComparisonViews(records) == Err(Crash) <==> exists i :: CrashesAt(records, i)
    decreases |records|
  {
    hide IsRecord, ComparisonView, HasNull, HasFailed;
    if records != [] {
      var n := |records| - 1;
      var front := records[..n];
      assert forall i | 0 <= i < n :: front[i] == records[i];
      ViewsFailExactly(front);
      ViewFailsExactly(records[n]);
      LastCrash(records);
    }
  }

  /** Some record raises and all before it can be compared. */
  ghost predicate Raises(r: Report) {
    r.records.Arr? && exists i :: CrashesAt(r.records.items, i)
  }

  /** No record carries such a null or a failed oracle. */
  predicate IsComparable(r: Report) {
    r.records.Arr? && forall i | 0 <= i < |r.records.items| :: !HasNull(r.records.items[i]) && !HasFailed(r.records.items[i])
  }

  /** Comparing a valid report raises exactly when the first record that cannot be compared has such a null. */
  lemma ComparisonCrashesExactly(codec: Codec, r: Report)
    requires IsObservedReport(codec, r)
    ensures Views(codec, r) == Err(Crash) <==> Raises(r)
    ensures Views(codec, r).Ok? <==> IsComparable(r)
  {
    hide ComparisonViews, HashText, SealHolds, CrashesAt, HasNull, HasFailed, IsRecord;
    ViewsFailExactly(r.records.items);
  }

  // ----- a consensus -----

  /** Every report before the `k`th can be compared, and the `k`th raises. */
  ghost predicate ReportCrashesAt(codec: Codec, reports: seq<Report>, k: int)
    requires AreObserved(codec, reports)
  {
    0 <= k < |reports| && Views(codec, reports[k]) == Err(Crash) && forall j | 0 <= j < k :: Views(codec, reports[j]).Ok?
  }

  lemma LastReportCrash(codec: Codec, reports: seq<Report>)
    requires reports != [] && AreObserved(codec, reports)
    ensures
      var n := |reports| - 1;
      (exists k :: ReportCrashesAt(codec, reports, k)) <==>
      (exists k :: ReportCrashesAt(codec, reports[..n], k)) ||
      (HaveViews(codec, reports[..n]) && Views(codec, reports[n]) == Err(Crash))
  {
    hide IsObservedReport, Views;
    var n := |reports| - 1;
    forall k | 0 <= k < n ensures ReportCrashesAt(codec, reports[..n], k) <==> ReportCrashesAt(codec, reports, k) {
      assert forall j | 0 <= j <= k :: reports[..n][j] == reports[j];
    }
    if k :| ReportCrashesAt(codec, reports, k) && k < n {
      assert ReportCrashesAt(codec, reports[..n], k);
    }
    if k :| ReportCrashesAt(codec, reports[..n], k) {
      assert ReportCrashesAt(codec, reports, k);
    }
    if HaveViews(codec, reports[..n]) && Views(codec, reports[n]) == Err(Crash) {
      assert forall j | 0 <= j < n :: reports[..n][j] == reports[j];
      assert ReportCrashesAt(codec, reports, n);
    }
  }

  lemma {:induction false} ComparableCrashes(codec: Codec, reports: seq<Report>)
    requires AreObserved(codec, reports)
    ensures AllComparable(codec, reports) == Err(Crash) <==> exists k :: ReportCrashesAt(codec, reports, k)
    decreases |reports|
  {
    hide IsObservedReport, Views;
    if reports != [] {
      var n := |reports| - 1;
      var front := reports[..n];
      assert forall i | 0 <= i < n :: front[i] == reports[i];
      ComparableCrashes(codec, front);
      ComparableExactly(codec, front);
      LastReportCrash(codec, reports);
    }
  }

  lemma {:induction false} AgreementDecides(codec: Codec, first: Report, reports: seq<Report>)
    requires IsObservedReport(codec, first) && AreObserved(codec, reports)
    requires Views(codec, first).Ok? && HaveViews(codec, reports)
    ensures AllAgree(codec, first, reports) != Err(Crash)
    decreases |reports|
  {
    hide IsObservedReport, Views, Norm;
    if reports != [] {
      AgreementDecides(codec, first, reports[..|reports| - 1]);
    }
  }

  lemma ConsensusCrashes(codec: Codec, reports: seq<Report>)
    requires |reports| >= 2 && AreObserved(codec, reports) && |ReportIds(reports)| >= 2
    ensures Consensus(codec, reports) == Err(Crash) <==>
            (exists k :: ReportCrashesAt(codec, reports, k)) ||
            (HaveViews(codec, reports) && PairwiseAgree(codec, reports) && !AllSameKind(ReportIds(reports)))
  {
    hide IsObservedReport, Views, ReportIds, PairwiseAgree, AllSameKind, AllAgree, ConsensusManifest, SortedSet;
    ComparableCrashes(codec, reports);
    ComparableExactly(codec, reports);
    if HaveViews(codec, reports) {
      AgreementDecides(codec, reports[0], reports[1..]);
      AgreedExactly(codec, reports);
      AllAgreeExactly(codec, reports[0], reports[1..]);
      FirstAgreesWithAll(codec, reports);
    }
  }

  /** The `k`th report raises and all before it can be compared. */
  ghost predicate RaisesAt(reports: seq<Report>, k: int) {
    0 <= k < |reports| && Raises(reports[k]) && forall j | 0 <= j < k :: IsComparable(reports[j])
  }

  /**
   * Building a consensus of valid reports raises exactly when the first report that cannot be
   * compared has such a null before any failed oracle, or all can be compared and agree and
   * their ids mix texts with integers.
   */
  lemma ConsensusCrashesExactly(codec: Codec, reports: seq<Report>)
    requires |reports| >= 2 && AreObserved(codec, reports) && |ReportIds(reports)| >= 2
    ensures Consensus(codec, reports) == Err(Crash) <==>
            (exists k :: RaisesAt(reports, k)) ||
            ((forall r | r in reports :: IsComparable(r)) && PairwiseAgree(codec, reports) &&
             !AllSameKind(ReportIds(reports)))
  {
    hide IsObservedReport, Views, ReportIds, PairwiseAgree, AllSameKind, Consensus, Raises, IsComparable;
    ConsensusCrashes(codec, reports);
    forall k | 0 <= k < |reports|
      ensures Views(codec, reports[k]) == Err(Crash) <==> Raises(reports[k])
      ensures Views(codec, reports[k]).Ok? <==> IsComparable(reports[k])
    {
      ComparisonCrashesExactly(codec, reports[k]);
    }
    forall k | 0 <= k < |reports| ensures ReportCrashesAt(codec, reports, k) <==> RaisesAt(reports, k) {
    }
    assert forall k :: RaisesAt(reports, k) ==> ReportCrashesAt(codec, reports, k);
    assert forall k :: ReportCrashesAt(codec, reports, k) ==> RaisesAt(reports, k);
  }

  // ----- built reports -----

  lemma ItemHasNoNull(record: Fields)
    requires NormalizedItem(record).Ok?
    ensures !HasNull(NormalizedItem(record).value)
  {
    hide EligibleHashes, RecordContract, RecordInternalOracle, HasFailed, PolicyJson;
    PolicyIsObjectAlways();
  }

  lemma PolicyIsObjectAlways()
    ensures forall policy :: PolicyJson(policy).Obj?
  {
  }

  /** The comparison never raises on a report `build_report` returned. */
  lemma BuiltNeverCrashes(codec: Codec, records: seq<Fields>, inputs: Inputs)
    requires codec.Valid() && records != [] && inputs.sourceType == XEMU && BuildReport(codec, records, inputs).Ok?
    ensures
      var r := BuildReport(codec, records, inputs).value;
      IsObservedReport(codec, r) && Views(codec, r) != Err(Crash)
  {
    hide NormalizedItem, HasNull, HasFailed, ComparisonView, Sort, Items, HashText, ValidReport, IdentitySet, Codec.Valid,
         ComparisonViews;
    var r := BuildReport(codec, records, inputs).value;
    BuiltReportIsValid(codec, records, inputs);
    var items := Items(records).value;
    ItemsAre(records);
    SameElements(r.records.items, items);
    forall i | 0 <= i < |r.records.items| ensures !HasNull(r.records.items[i]) {
      assert r.records.items[i] in Elements(items);
      var k :| 0 <= k < |items| && items[k] == r.records.items[i];
      ItemHasNoNull(records[k]);
    }
    ComparisonCrashesExactly(codec, r);
  }

  ghost predicate IsBuilt(codec: Codec, r: Report) {
    exists records: seq<Fields>, inputs: Inputs ::
      records != [] && inputs.sourceType == XEMU && BuildReport(codec, records, inputs) == Ok(r)
  }

  /** A consensus of built reports is decided: it succeeds or ends in one of the module's own errors. */
  lemma BuiltConsensusDecided(codec: Codec, reports: seq<Report>)
    requires codec.Valid() && forall r | r in reports :: IsBuilt(codec, r)
    ensures Consensus(codec, reports) != Err(Crash)
  {
    hide BuildReport, IsObservedReport, Views, Consensus, ReportIds, AllSameKind, Codec.Valid;
    forall i | 0 <= i < |reports| ensures IsObservedReport(codec, reports[i]) && Views(codec, reports[i]) != Err(Crash) {
      assert IsBuilt(codec, reports[i]);
      var records: seq<Fields>, inputs: Inputs :| records != [] && inputs.sourceType == XEMU &&
                                                  BuildReport(codec, records, inputs) == Ok(reports[i]);
      BuiltNeverCrashes(codec, records, inputs);
    }
    BuiltIdsAreTexts(codec, reports);
    FewReports(codec, reports);
    if |reports| >= 2 && |ReportIds(reports)| >= 2 {
      ConsensusCrashes(codec, reports);
    }
  }

  lemma FewReports(codec: Codec, reports: seq<Report>)
    ensures |reports| < 2 || |ReportIds(reports)| < 2 ==> Consensus(codec, reports) == Err(Invalid)
  {
    hide AreObserved, AllComparable, AgreedConsensus;
  }

  lemma BuiltIdsAreTexts(codec: Codec, reports: seq<Report>)
    requires forall r | r in reports :: IsBuilt(codec, r)
    ensures AllSameKind(ReportIds(reports))
  {
    hide NormalizedRecords, HashText, Stable, Observed;
    forall r | r in reports ensures r.reportId.Str? {
      assert IsBuilt(codec, r);
    }
  }
}
