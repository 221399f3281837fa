/** Valid reports on which the comparison and the ledger must tell, or must not tell, two things apart. */
module OracleWitnesses {
  import opened ComparisonCrash
  import opened ComparisonMeaning
  import opened DeterminismLedger
  import opened JsonTree
  import opened LedgerConfluence
  import opened Lists
  import opened OracleConsensus
  import opened OracleExample
  import opened OracleFindings
  import opened OracleRecords
  import opened OracleReport
  import opened ReportSealing
  import opened Seals
  import opened Text

  // ----- failure counts of a diagnostic record -----

  const SCENE := "GameLoadComposite::10-S3tcSyncFactor-02-Dxt1SameAddressQueued"

  const REASON := "unsynchronized same-address writes have no defined per-draw source generation"

  function ScenePolicy(): Json {
    Obj(map["excluded_observations" := Arr([Str("framebuffer_fnv1a64"), Str("kats.tile_center_kat")]),
            "reason" := Str(REASON)])
  }

  function SceneOracle(count: nat): Json {
    Obj(map["status" := Str("PASS"), "provenance" := Str("regression_only"), "failure_count" := Int(count)])
  }

  function Checked(): Fields {
    map["work_checksum" := Str(Zeros(8)), "result_checksum" := Str(Zeros(8))]
  }

  function Diagnostic(count: nat): Json {
    Obj(map["test_id" := Str(SCENE), "contract" := Obj(CONTRACT), "hashes" := Obj(Checked()),
            "comparison_policy" := ScenePolicy(), "internal_oracle" := SceneOracle(count)])
  }

  lemma PolicyExcludes()
    ensures IsPolicy(ScenePolicy()) && ExcludedBy(ScenePolicy()) == {"framebuffer_fnv1a64", "kats.tile_center_kat"}
    ensures IsUnsynchronized(ScenePolicy())
  {
    hide REASON;
    var items := [Str("framebuffer_fnv1a64"), Str("kats.tile_center_kat")];
    TileIsKat();
    assert IsObservation(items[0]) && IsObservation(items[1]);
    ReasonIsText();
    assert ScenePolicy().fields["excluded_observations"] == Arr(items) && ScenePolicy().fields["reason"] == Str(REASON);
    assert ExcludedBy(ScenePolicy()) == {items[0].s, items[1].s} by {
      assert items[0].Str? && items[1].Str?;
    }
    assert ExcludedTexts(ScenePolicy().fields) == {items[0], items[1]};
    ReasonIs();
  }

  lemma ReasonIsText()
    ensures REASON != ""
  {
  }

  lemma ReasonIs()
    ensures REASON == "unsynchronized same-address writes have no defined per-draw source generation"
  {
  }

  lemma TileIsKat()
    ensures StartsWith("kats.tile_center_kat", "kats.") && !StartsWith("framebuffer_fnv1a64", "kats.")
  {
    assert "kats.tile_center_kat"[0..5] == "kats.";
    assert "framebuffer_fnv1a64"[0..5][0] == 'f' && "kats."[0] == 'k';
  }

  lemma CheckedHashes()
    ensures AreHashes(Checked(), {"framebuffer_fnv1a64", "kats.tile_center_kat"})
  {
    hide HashText;
    ZerosAreHex(8);
    HashCanonical(Zeros(8), 8);
    assert Checked().Keys == {"work_checksum", "result_checksum"};
  }

  lemma DiagnosticParts(count: nat)
    ensures
      var f := Diagnostic(count).fields;
      Get(f, "test_id") == Str(SCENE) && Get(f, "contract") == Obj(CONTRACT) && Get(f, "hashes") == Obj(Checked()) &&
      Get(f, "comparison_policy") == ScenePolicy() && Get(f, "internal_oracle") == SceneOracle(count)
  {
    hide SCENE, CONTRACT, Checked, ScenePolicy, SceneOracle;
  }

  lemma ContractHolds()
    ensures IsContract(CONTRACT)
  {
    RecordParts();
    ContractIsValid(RECORD);
    assert RecordContract(RECORD) == Ok(CONTRACT);
  }

  lemma OracleHolds(count: nat)
    ensures IsInternal(SceneOracle(count)) && ForRegressionOnly(SceneOracle(count))
    ensures Get(SceneOracle(count).fields, "status") == Str("PASS")
  {
    var f := SceneOracle(count).fields;
    assert f["status"] == Str("PASS") && f["provenance"] == Str("regression_only") && f["failure_count"] == Int(count);
  }

  lemma SceneIs()
    ensures SCENE != "" && IsS3tcScene(Str(SCENE))
  {
  }

  /** The record is valid, comparable and diagnostic. */
  lemma DiagnosticHolds(count: nat)
    ensures IsRecord(Diagnostic(count)) && IsDiagnostic(Diagnostic(count))
    ensures !HasNull(Diagnostic(count)) && !HasFailed(Diagnostic(count))
  {
    hide SCENE, CONTRACT, Checked, ScenePolicy, SceneOracle, IsContract, AreHashes, IsPolicy, IsInternal, ExcludedBy,
         IsS3tcScene, IsUnsynchronized, ForRegressionOnly;
    DiagnosticParts(count);
    ContractHolds();
    CheckedHashes();
    PolicyExcludes();
    OracleHolds(count);
    SceneIs();
    OracleIsObject(count);
  }

  lemma OracleIsObject(count: nat)
    ensures SceneOracle(count).Obj? && ScenePolicy().Obj?
  {
  }

  lemma CountsDiffer(a: nat, b: nat)
    ensures EqualButCount(Diagnostic(a), Diagnostic(b))
    ensures a != b ==> Diagnostic(a) != Diagnostic(b)
  {
    hide SCENE, CONTRACT, Checked, ScenePolicy;
    var f, g := Diagnostic(a).fields, Diagnostic(b).fields;
    var x, y := SceneOracle(a), SceneOracle(b);
    assert f["internal_oracle"] == x && g["internal_oracle"] == y;
    assert x.fields["failure_count"] == Int(a) && y.fields["failure_count"] == Int(b);
    assert f - {"internal_oracle"} == g - {"internal_oracle"};
    assert x.fields - {"failure_count"} == y.fields - {"failure_count"};
  }

  lemma SealedReport(codec: Codec, item: Json, observation: string)
    requires codec.Valid() && observation != "" && IsRecord(item)
    ensures
      var r := ReportOf(codec, item, observation);
      IsObservedReport(codec, r) && r.records == Arr([item]) && r.reportId.Str? && r.observationId == Str(observation) &&
      r.sourceBackend == Str("vulkan") && r.guestImage == Str(DIGEST) && r.job == Str(codec.Hash(Obj(map[]))) &&
      Normal(r.reportId) == r.reportId
  {
    hide IsRecord, Identity, Stable, Observed, ValidReport, Codec.Valid, HashText, DIGEST;
    var r := ReportOf(codec, item, observation);
    assert Distinct(Identities(codec, [item]));
    ZerosAreHex(64);
    DigestIsZeros();
    HashIsHex(codec, Obj(map[]));
    SealIsValid(codec, DIGEST, codec.Hash(Obj(map[])), Arr([item]), InputsOf(observation));
    ReportIdNormal(codec, r);
  }

  lemma DigestIsZeros()
    ensures DIGEST == Zeros(64)
  {
  }

  lemma ReportIdNormal(codec: Codec, r: Report)
    requires codec.Valid() && exists v :: r.reportId == Str(codec.Hash(v))
    ensures Normal(r.reportId) == r.reportId
  {
    hide HashText, IsHex;
    HashCanonical(r.reportId.s, 64);
  }

  /**
   * Two valid reports of a diagnostic record with failure counts 3 and 4 form a consensus,
   * unless the texts of just their report ids collide.
   */
  lemma DiagnosticConsensus(codec: Codec)
    requires codec.Valid()
    ensures
      var a, b := ReportOf(codec, Diagnostic(3), "first"), ReportOf(codec, Diagnostic(4), "second");
      IsObservedReport(codec, a) && IsObservedReport(codec, b) && a.records != b.records &&
      (Consensus(codec, [a, b]).Ok? || Collide(codec, Obj(SightingFields(SightingOf(a))), Obj(SightingFields(SightingOf(b)))))
  {
    hide ReportOf, Diagnostic, IsObservedReport, IsRecord, IsDiagnostic, Consensus, Normal, Collide, SightingFields,
         SightingOf, EqualButCount, HasNull, HasFailed, Codec.Valid, BehaviourOf, BehaviourFields;
    var a, b := ReportOf(codec, Diagnostic(3), "first"), ReportOf(codec, Diagnostic(4), "second");
    DiagnosticHolds(3);
    DiagnosticHolds(4);
    CountsDiffer(3, 4);
    CountsDiffer(4, 3);
    SealedReport(codec, Diagnostic(3), "first");
    SealedReport(codec, Diagnostic(4), "second");
    assert [Diagnostic(3)][0] != [Diagnostic(4)][0];
    ObservedAreValid(codec, a);
    ObservedAreValid(codec, b);
    ReportsBound(codec, a, b);
    SightingsDiffer(a, b);
    if a.reportId != b.reportId {
      PairCompares(codec, a, b, Diagnostic(3), Diagnostic(4));
    }
  }

  lemma SightingsDiffer(a: Report, b: Report)
    requires a.observationId == Str("first") && b.observationId == Str("second")
    ensures SightingOf(a) != SightingOf(b)
  {
    hide Normal;
  }

  lemma PairCompares(codec: Codec, a: Report, b: Report, x: Json, y: Json)
    requires IsObservedReport(codec, a) && IsObservedReport(codec, b) && a.records == Arr([x]) && b.records == Arr([y])
    requires !HasNull(x) && !HasFailed(x) && !HasNull(y) && !HasFailed(y)
    requires ComparesEqual(x, y) && ComparesEqual(y, x)
    requires a.sourceBackend == b.sourceBackend && a.guestImage == b.guestImage && a.job == b.job
    requires a.reportId != b.reportId && a.reportId.Str? && b.reportId.Str?
    ensures Consensus(codec, [a, b]).Ok?
  {
    hide IsObservedReport, HasNull, HasFailed, IsDiagnostic, EqualButCount, Consensus, Norm, ReportIds, AllSameKind,
         ComparesEqual;
    TwoReportIds(a, b);
    SelfCompares(x);
    SelfCompares(y);
    ConsensusExactlyByRecords(codec, [a, b]);
  }

  lemma SelfCompares(x: Json)
    ensures ComparesEqual(x, x)
  {
    hide IsDiagnostic;
  }

  lemma ObservedAreValid(codec: Codec, r: Report)
    requires IsObservedReport(codec, r)
    ensures ValidReport(codec, r)
  {
    hide ValidReport;
  }

  lemma TwoReportIds(a: Report, b: Report)
    requires a.reportId != b.reportId && a.reportId.Str? && b.reportId.Str?
    ensures |ReportIds([a, b])| == 2 && AllSameKind(ReportIds([a, b]))
  {
    assert ReportIds([a, b]) == {a.reportId, b.reportId};
  }

  // ----- one record at two surface scales -----

  /** A sealed report of one known answer at a surface scale. */
  function ScaledReport(codec: Codec, value: int, scale: int, observation: string): Report {
    Seal(codec, DIGEST, codec.Hash(Obj(map[])), Arr([KatItem(Int(value))]), InputsOf(observation).(surfaceScale := Int(scale)))
  }

  lemma ScaledObserved(codec: Codec, value: int, scale: int, observation: string)
    requires codec.Valid() && observation != "" && 1 <= scale <= 4
    ensures
      var r := ScaledReport(codec, value, scale, observation);
      IsLedgerReport(codec, r) && r.reportId.Str? &&
      Observations(r) == [ObservationOf(r, KatItem(Int(value)))] &&
      ObservationOf(r, KatItem(Int(value))).work.surfaceScale == Int(scale)
  {
    hide IsRecord, Identity, Stable, Observed, ValidReport, Codec.Valid, HashText, DIGEST, NormalizedItem, Item, HasFailed,
         ObservationsIn;
    var r, item := ScaledReport(codec, value, scale, observation), KatItem(Int(value));
    KatRecordNormalizes(Int(value));
    ItemIsRecord(KatRecord(Int(value)));
    assert Distinct(Identities(codec, [item]));
    ZerosAreHex(64);
    DigestIsZeros();
    HashIsHex(codec, Obj(map[]));
    SealIsValid(codec, DIGEST, codec.Hash(Obj(map[])), Arr([item]), InputsOf(observation).(surfaceScale := Int(scale)));
    ItemParts(Str("Suite::test"), CONTRACT, KatHashes(Int(value)), None, None);
    NothingFailed(item);
    OneObservation(r, item);
  }

  /**
   * Reports of one record at scales 1 and 2 with different known answers are both recorded,
   * under entries of their own, unless the texts of just these two keys collide.
   */
  lemma ScalesSeparate(codec: Codec)
    requires codec.Valid()
    ensures
      var a, b := ScaledReport(codec, 7, 1, "first"), ScaledReport(codec, 8, 2, "second");
      var o, p := ObservationOf(a, KatItem(Int(7))), ObservationOf(b, KatItem(Int(8)));
      IsLedgerReport(codec, a) && IsLedgerReport(codec, b) &&
      ((Run(codec, map[], [a, b]).Ok? && |Run(codec, map[], [a, b]).value| == 2) ||
       Collide(codec, Obj(WorkFields(o.work)), Obj(WorkFields(p.work))))
  {
    hide IsLedgerReport, ScaledReport, ObservationOf, Apply, Run, Collide, WorkFields, AllObservations,
         Observations, KatItem, Norm, AreLedgerReports, Codec.Valid, Outcome, Consistent;
    var a, b := ScaledReport(codec, 7, 1, "first"), ScaledReport(codec, 8, 2, "second");
    var o, p := ObservationOf(a, KatItem(Int(7))), ObservationOf(b, KatItem(Int(8)));
    ScaledObserved(codec, 7, 1, "first");
    ScaledObserved(codec, 8, 2, "second");
    ObservedId(a, KatItem(Int(7)));
    ObservedId(b, KatItem(Int(8)));
    PairObserved(a, b, o, p);
    if !Collide(codec, Obj(WorkFields(o.work)), Obj(WorkFields(p.work))) {
      PairSeparate(codec, a, b, o, p);
    }
  }

  lemma PairSeparate(codec: Codec, a: Report, b: Report, o: Observation, p: Observation)
    requires codec.Valid() && IsLedgerReport(codec, a) && IsLedgerReport(codec, b) && o.work != p.work
    requires AllObservations([a, b]) == [o, p] && !Collide(codec, Obj(WorkFields(o.work)), Obj(WorkFields(p.work)))
    requires o.reportId.Str? && p.reportId.Str?
    ensures
      var run := Run(codec, map[], [a, b]);
      run.Ok? && |run.value| == 2
  {
    hide IsLedgerReport, Apply, Run, WorkFields, AllObservations, Norm, Codec.Valid, KeyOf, Outcome, Consistent, Collide,
         WorksTellApart, WorksRepeat, WorkIdsAlike, ValidLedger, AreLedgerReports;
    var all := [o, p];
    PairWorks(codec, o, p);
    AcceptedByWork(codec, all);
    LedgerReportsPair(codec, a, b);
    RunApplies(codec, map[], [a, b]);
    NothingStored(codec);
    ApplyExactly(codec, map[], all);
    WorksBound(codec, o.work, p.work);
    TwoKeys(codec, o, p, Apply(codec, map[], all).value);
  }

  lemma TwoKeys(codec: Codec, o: Observation, p: Observation, final: Entries)
    requires Outcome(codec, map[], [o, p], final) && Key(codec, o) != Key(codec, p)
    ensures |final| == 2
  {
    hide Outcome, Key;
    OutcomeKeys(codec, [o, p], final);
    assert KeysOf(codec, [o, p]) == {Key(codec, o), Key(codec, p)};
    KeyCount(final, Key(codec, o), Key(codec, p));
  }

  lemma OutcomeKeys(codec: Codec, observations: seq<Observation>, final: Entries)
    requires Outcome(codec, map[], observations, final)
    ensures final.Keys == KeysOf(codec, observations)
  {
    hide KeysOf, ValidLedger, FromLedgerOrRun, IdsAt;
    var none: Entries := map[];
    assert none.Keys == {};
  }

  lemma KeyCount(m: Entries, a: string, b: string)
    requires m.Keys == {a, b} && a != b
    ensures |m| == 2
  {
    assert |m| == |m.Keys|;
  }

  lemma LedgerReportsPair(codec: Codec, a: Report, b: Report)
    requires IsLedgerReport(codec, a) && IsLedgerReport(codec, b)
    ensures AreLedgerReports(codec, [a, b])
  {
    hide IsLedgerReport;
  }

  lemma PairWorks(codec: Codec, o: Observation, p: Observation)
    requires o.work != p.work && !Collide(codec, Obj(WorkFields(o.work)), Obj(WorkFields(p.work)))
    requires o.reportId.Str? && p.reportId.Str?
    ensures WorksTellApart(codec, [o, p]) && WorksRepeat([o, p]) && WorkIdsAlike([o, p])
  {
    hide WorkFields, Norm, Collide;
    NoOwnCollision(codec, o.work, p.work);
    NoOwnCollision(codec, p.work, o.work);
    SameHashes(o);
    SameHashes(p);
  }

  lemma SameHashes(o: Observation)
    ensures PyEq(o.hashes, o.hashes)
  {
  }

  lemma NoOwnCollision(codec: Codec, a: Work, b: Work)
    ensures !Collide(codec, Obj(WorkFields(a)), Obj(WorkFields(a)))
    ensures Collide(codec, Obj(WorkFields(a)), Obj(WorkFields(b))) <==> Collide(codec, Obj(WorkFields(b)), Obj(WorkFields(a)))
  {
    hide WorkFields;
  }
}
