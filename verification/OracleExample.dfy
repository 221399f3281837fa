/** One record observed twice: the hypotheses of the oracle protocol's theorems can be met together. */
module OracleExample {
  import opened CanonicalJson
  import opened ConsensusSoundness
  import opened DeterminismLedger
  import opened JsonTree
  import opened LedgerConfluence
  import opened LedgerOrder
  import opened Lists
  import opened OracleConsensus
  import opened OracleRecords
  import opened OracleReport
  import opened ReportSealing
  import opened Sorting
  import opened Text

  const FRAME: string := Zeros(16)
  const DIGEST: string := Zeros(64)

  const CONTRACT: Fields := map[
    ITERATIONS := Int(1), SAMPLES := Int(1), MULTIPLIER := Int(1), WARMUP := Int(0), COMPLETION := Str("batch_complete")]

  const RECORD: Fields := CONTRACT + map["name" := Str("Suite::test"), FRAMEBUFFER := Str(FRAME)]

  const ITEM: Json := Item(Str("Suite::test"), CONTRACT, map[FRAMEBUFFER := Str(FRAME)], None, None)

  function InputsOf(observation: string): Inputs {
    Inputs(Str(DIGEST), Obj(map[]), Str("vulkan"), XEMU, Str(observation), Null, Int(1), Null)
  }

  lemma ZerosAreHex(n: nat)
    ensures IsHex(Zeros(n), n)
  {
    HexDigits(Zeros(n));
  }

  lemma RecordParts()
    ensures Get(RECORD, "name") == Str("Suite::test") && Get(RECORD, FRAMEBUFFER) == Str(FRAME)
    ensures Get(RECORD, "metadata") == Null
    ensures Get(RECORD, ITERATIONS) == Int(1) && Get(RECORD, SAMPLES) == Int(1) && Get(RECORD, MULTIPLIER) == Int(1)
    ensures Get(RECORD, WARMUP) == Int(0) && Get(RECORD, COMPLETION) == Str("batch_complete")
  {
  }

  lemma RecordNormalizes()
    ensures NormalizedItem(RECORD) == Ok(ITEM)
  {
    hide HashText, Item;
    RecordParts();
    ZerosAreHex(16);
    HashCanonical(FRAME, 16);
    assert RecordHashes(RECORD) == Ok(map[FRAMEBUFFER := Str(FRAME)]);
    assert RecordPolicy(RECORD) == Ok(None);
    assert RecordContract(RECORD) == Ok(CONTRACT);
    assert RecordInternalOracle(RECORD) == Ok(None);
  }

  /** A list of one record normalizes to its item. */
  lemma OneNormalizes(codec: Codec, record: Fields, item: Json)
    requires NormalizedItem(record) == Ok(item)
    ensures NormalizedRecords(codec, [record]) == Ok([item])
  {
    hide NormalizedItem, Identity, KeyLeq;
    assert [record][..0] == [] && Items([]) == Ok([]) && [] + [item] == [item];
    assert Items([record]) == Ok([item]);
    assert IdentitySet(codec, [item]) == {Identity(codec, item)};
    SameElements(Sort(ByKey(codec), [item]), [item]);
    assert Sort(ByKey(codec), [item])[0] in Elements([item]);
    assert Sort(ByKey(codec), [item]) == [item];
  }

  /** The report of one item under an observation id. */
  function ReportOf(codec: Codec, item: Json, observation: string): Report {
    Seal(codec, DIGEST, codec.Hash(Obj(map[])), Arr([item]), InputsOf(observation))
  }

  lemma ReportBuilds(codec: Codec, record: Fields, item: Json, observation: string)
    requires codec.Valid() && observation != "" && NormalizedItem(record) == Ok(item)
    ensures BuildReport(codec, [record], InputsOf(observation)) == Ok(ReportOf(codec, item, observation))
    ensures ValidReport(codec, ReportOf(codec, item, observation)) && IsCanonical(ReportOf(codec, item, observation))
  {
    hide NormalizedRecords, NormalizedItem, ValidReport, IsCanonical, HashText, Seal;
    ZerosAreHex(64);
    HashCanonical(DIGEST, 64);
    OneNormalizes(codec, record, item);
    BuiltReportIsValid(codec, [record], InputsOf(observation));
    BuiltReportIsCanonical(codec, [record], InputsOf(observation));
  }

  /** A digest that gives the texts of some values a digest of their own. */
  function Mark(marked: set<Json>): string -> string {
    text => if exists v :: v in marked && text == Canonical(v) then Ones() else DIGEST
  }

  function Ones(): string {
    seq(64, _ => '1')
  }

  lemma MarkIsDigest(marked: set<Json>)
    ensures JsonCodec(Mark(marked)).Valid()
  {
    hide Canonical, Codec.Valid;
    ZerosAreHex(64);
    HexDigits(Ones());
    var sha256 := Mark(marked);
    forall text ensures IsHex(sha256(text), 64) {
    }
    JsonCodecIsValid(sha256);
  }

  lemma MarkTells(marked: set<Json>, v: Json)
    ensures JsonCodec(Mark(marked)).Hash(v) == if v in marked then Ones() else DIGEST
  {
    hide Canonical;
    forall u | u in marked && Canonical(v) == Canonical(u) ensures v == u {
      CanonicalInjective(v, u);
    }
  }

  /** What the report id of an observation seals when every other digest is the plain one. */
  function SealedBy(observation: string): Json {
    Observed(DIGEST, Str(observation), Int(1), Null, Null)
  }

  lemma SealsDiffer(sourceType: Json, sourceBackend: Json, guestImage: string, job: string, records: Json)
    ensures Stable(sourceType, sourceBackend, guestImage, job, records) != SealedBy("first")
    ensures SealedBy("second") != SealedBy("first") && SealedBy("first") != Obj(map[])
  {
    var a, b := Stable(sourceType, sourceBackend, guestImage, job, records), SealedBy("first");
    assert "kind" in a.fields && "kind" !in b.fields;
    assert b.fields["observation_id"] == Str("first") && SealedBy("second").fields["observation_id"] == Str("second");
  }

  lemma ReportIdOf(marked: set<Json>, item: Json, observation: string)
    requires Obj(map[]) !in marked
    requires Stable(XEMU, Str("vulkan"), DIGEST, DIGEST, Arr([item])) !in marked
    ensures
      var r := ReportOf(JsonCodec(Mark(marked)), item, observation);
      r.job == Str(DIGEST) && r.reportId == Str(if SealedBy(observation) in marked then Ones() else DIGEST)
  {
    hide Stable, SealedBy, Canonical, Mark;
    var codec := JsonCodec(Mark(marked));
    MarkTells(marked, Obj(map[]));
    MarkTells(marked, Stable(XEMU, Str("vulkan"), DIGEST, DIGEST, Arr([item])));
    MarkTells(marked, SealedBy(observation));
    SealedByIs(observation);
  }

  lemma SealedByIs(observation: string)
    ensures SealedBy(observation) == Observed(DIGEST, Str(observation), Int(1), Null, Null)
  {
  }

  lemma DistinctReports()
    ensures
      var codec := JsonCodec(Mark({SealedBy("first")}));
      ReportOf(codec, ITEM, "first").reportId != ReportOf(codec, ITEM, "second").reportId
  {
    hide ReportOf, SealedBy, Mark, Canonical, Stable;
    SealsDiffer(XEMU, Str("vulkan"), DIGEST, DIGEST, Arr([ITEM]));
    ReportIdOf({SealedBy("first")}, ITEM, "first");
    ReportIdOf({SealedBy("first")}, ITEM, "second");
    assert Ones()[0] == '1' && DIGEST[0] == '0';
  }

  lemma ItemCompares()
    ensures IsRecord(ITEM) && ComparisonView(ITEM) == Ok(ITEM) && !HasFailed(ITEM)
  {
    hide IsRecord, NormalizedItem, Item;
    RecordNormalizes();
    ItemIsRecord(RECORD);
    ItemParts(Str("Suite::test"), CONTRACT, map[FRAMEBUFFER := Str(FRAME)], None, None);
    NoInternalOracle();
    NoDiagnosticRecord();
  }

  lemma NoInternalOracle()
    ensures "internal_oracle" !in ITEM.fields
  {
  }

  lemma NoDiagnosticRecord()
    ensures "Suite::test" !in DIAGNOSTIC_RECORDS
  {
    assert forall name | name in DIAGNOSTIC_RECORDS :: |name| > 20;
  }

  lemma ReportCompares(codec: Codec, observation: string)
    requires codec.Valid() && observation != ""
    ensures
      var r := ReportOf(codec, ITEM, observation);
      IsObservedReport(codec, r) && Views(codec, r) == Ok([ITEM]) && IsLedgerReport(codec, r) &&
      Observations(r) == [ObservationOf(r, ITEM)]
  {
    hide Codec.Valid, IsCanonical, ComparisonView, ValidReport, HasFailed, ObservationOf, Stable, Observed, Item,
         ComparisonViews, ObservationsIn;
    RecordNormalizes();
    ReportBuilds(codec, RECORD, ITEM, observation);
    ItemCompares();
    OneView(ITEM);
    OneObservation(ReportOf(codec, ITEM, observation), ITEM);
  }

  lemma OneView(item: Json)
    requires IsRecord(item) && ComparisonView(item) == Ok(item)
    ensures AreRecords([item]) && ComparisonViews([item]) == Ok([item])
  {
    hide IsRecord, ComparisonView;
    assert [item][..0] == [] && ComparisonViews([]) == Ok([]) && [] + [item] == [item];
  }

  lemma OneObservation(r: Report, item: Json)
    requires !HasFailed(item)
    ensures ObservationsIn(r, [item]) == [ObservationOf(r, item)]
  {
    hide HasFailed, ObservationOf;
    assert [item][..0] == [] && ObservationsIn(r, []) == [];
  }

  lemma SameWork(codec: Codec)
    ensures
      var a, b := ReportOf(codec, ITEM, "first"), ReportOf(codec, ITEM, "second");
      a.sourceBackend == b.sourceBackend && a.guestImage == b.guestImage && a.job == b.job && a.records == b.records &&
      ObservationOf(a, ITEM).work == ObservationOf(b, ITEM).work &&
      ObservationOf(a, ITEM).hashes == ObservationOf(b, ITEM).hashes && Plain(ObservationOf(a, ITEM).hashes) &&
      a.reportId.Str? && b.reportId.Str?
  {
    hide Stable, Observed;
    ItemParts(Str("Suite::test"), CONTRACT, map[FRAMEBUFFER := Str(FRAME)], None, None);
  }

  /** Two equal observations of two reports with ids of their own form a consensus. */
  lemma PairAgrees(codec: Codec, a: Report, b: Report)
    requires IsObservedReport(codec, a) && IsObservedReport(codec, b)
    requires Views(codec, a).Ok? && Views(codec, a) == Views(codec, b)
    requires a.sourceBackend == b.sourceBackend && a.guestImage == b.guestImage && a.job == b.job
    requires a.reportId != b.reportId && a.reportId.Str? && b.reportId.Str?
    ensures Consensus(codec, [a, b]).Ok?
  {
    hide IsObservedReport, Views, Norm, Consensus;
    assert ReportIds([a, b]) == {a.reportId, b.reportId};
    ConsensusExactly(codec, [a, b]);
  }

  lemma PairConsistent(codec: Codec, o: Observation, p: Observation)
    requires PyEq(o.hashes, p.hashes) && o.reportId.Str? && p.reportId.Str?
    ensures Consistent(codec, map[], [o, p]) && ValidLedger(codec, map[])
  {
    hide KeyOf, Norm;
  }

  lemma PairObserved(a: Report, b: Report, o: Observation, p: Observation)
    requires Observations(a) == [o] && Observations(b) == [p]
    ensures AllObservations([a, b]) == [o, p]
  {
    hide Observations;
    assert [a, b][..1] == [a] && [a][..0] == [] && AllObservations([]) == [] && [] + [o] == [o] && [o] + [p] == [o, p];
    assert AllObservations([a]) == [o];
  }

  /** Two observations that Python calls equal are both recorded. */
  lemma PairRecorded(codec: Codec, a: Report, b: Report, o: Observation, p: Observation)
    requires IsLedgerReport(codec, a) && IsLedgerReport(codec, b) && Observations(a) == [o] && Observations(b) == [p]
    requires PyEq(o.hashes, p.hashes) && o.reportId.Str? && p.reportId.Str?
    ensures Run(codec, map[], [a, b]).Ok? && ValidLedger(codec, map[])
  {
    hide IsLedgerReport, Observations, Apply, Norm, Run, Consistent, ValidLedger, Outcome, AllObservations;
    PairObserved(a, b, o, p);
    PairConsistent(codec, o, p);
    ApplyExactly(codec, map[], [o, p]);
    RunApplies(codec, map[], [a, b]);
  }

  lemma PairUnambiguous(codec: Codec, a: Report, b: Report, o: Observation, p: Observation)
    requires Observations(a) == [o] && Observations(b) == [p]
    requires o.work == p.work && o.hashes == p.hashes && Plain(o.hashes)
    ensures Unambiguous(codec, AllObservations([a, b]))
  {
    hide Observations, KeyOf, Plain, AllObservations;
    PairObserved(a, b, o, p);
  }

  /**
   * With a digest that tells two observations apart, two built reports form a consensus, and
   * the ledger takes both under the conditions that make it independent of their order.
   */
  lemma ProtocolRuns()
    ensures
      var codec := JsonCodec(Mark({SealedBy("first")}));
      var reports := [ReportOf(codec, ITEM, "first"), ReportOf(codec, ITEM, "second")];
      codec.Valid() && AllCanonical(reports) && Consensus(codec, reports).Ok? &&
      Run(codec, map[], reports).Ok? && Unambiguous(codec, AllObservations(reports))
  {
    hide JsonCodec, Codec.Valid, SealedBy, Mark, ValidReport, IsCanonical, Consensus, ReportOf, Views, IsObservedReport,
         IsLedgerReport, Observations, ObservationOf, Run, Unambiguous, Plain, AllObservations, Item, Norm, NormalizedItem;
    var codec := JsonCodec(Mark({SealedBy("first")}));
    var a, b := ReportOf(codec, ITEM, "first"), ReportOf(codec, ITEM, "second");
    MarkIsDigest({SealedBy("first")});
    RecordNormalizes();
    ReportBuilds(codec, RECORD, ITEM, "first");
    ReportBuilds(codec, RECORD, ITEM, "second");
    ReportCompares(codec, "first");
    ReportCompares(codec, "second");
    SameWork(codec);
    DistinctReports();
    PairAgrees(codec, a, b);
    ObservedId(a, ITEM);
    ObservedId(b, ITEM);
    PairRecorded(codec, a, b, ObservationOf(a, ITEM), ObservationOf(b, ITEM));
    PairUnambiguous(codec, a, b, ObservationOf(a, ITEM), ObservationOf(b, ITEM));
  }

  lemma ObservedId(r: Report, item: Json)
    ensures ObservationOf(r, item).reportId == r.reportId
  {
  }
}
