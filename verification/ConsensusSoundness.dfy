/** A consensus manifest against the reports it was built from. */
module ConsensusSoundness {
  import opened FirstDifference
  import opened JsonTree
  import opened Lists
  import opened OracleConsensus
  import opened OracleRecords
  import opened OracleReport
  import opened Sorting

  // ----- when build_consensus succeeds -----

  /** The two reports agree on their backend, image, job and compared records. */
  ghost predicate Agree(codec: Codec, a: Report, b: Report)
    requires IsObservedReport(codec, a) && IsObservedReport(codec, b)
  {
    PyEq(a.sourceBackend, b.sourceBackend) && PyEq(a.guestImage, b.guestImage) && PyEq(a.job, b.job) &&
    Views(codec, a) == Views(codec, b)
  }

  ghost predicate PairwiseAgree(codec: Codec, reports: seq<Report>)
    requires AreObserved(codec, reports)
  {
    forall a, b | a in reports && b in reports :: Agree(codec, a, b)
  }

  /** A condition on the set of reports alone. */
  ghost predicate CanAgree(codec: Codec, reports: seq<Report>) {
    |reports| >= 2 && AreObserved(codec, reports) && |ReportIds(reports)| >= 2 && AllSameKind(ReportIds(reports)) &&
    HaveViews(codec, reports) && PairwiseAgree(codec, reports)
  }

  lemma AgreementExactly(codec: Codec, first: Report, r: Report)
    requires IsObservedReport(codec, first) && IsObservedReport(codec, r)
    requires Views(codec, first).Ok? && Views(codec, r).Ok?
    ensures Agreement(codec, first, r).Ok? <==> Agree(codec, first, r)
  {
    hide IsObservedReport, Views, Difference;
    DifferenceExact(Arr(Views(codec, first).value), Arr(Views(codec, r).value), []);
  }

  lemma {:induction false} AllAgreeExactly(codec: Codec, first: Report, reports: seq<Report>)
    requires IsObservedReport(codec, first) && AreObserved(codec, reports)
    requires Views(codec, first).Ok? && HaveViews(codec, reports)
    ensures AllAgree(codec, first, reports).Ok? <==> forall i | 0 <= i < |reports| :: Agree(codec, first, reports[i])
    decreases |reports|
  {
    hide IsObservedReport, Views, Agreement, Agree;
    if reports != [] {
      var n := |reports| - 1;
      AllAgreeExactly(codec, first, reports[..n]);
      AgreementExactly(codec, first, reports[n]);
    }
  }

  lemma FirstAgreesWithAll(codec: Codec, reports: seq<Report>)
    requires reports != [] && AreObserved(codec, reports)
    ensures PairwiseAgree(codec, reports) <==> forall i | 0 <= i < |reports| - 1 :: Agree(codec, reports[0], reports[1..][i])
  {
    hide IsObservedReport, Views;
    var first := reports[0];
    if forall i | 0 <= i < |reports| - 1 :: Agree(codec, first, reports[1..][i]) {
      forall a | a in reports ensures Agree(codec, first, a) {
        var i :| 0 <= i < |reports| && reports[i] == a;
        assert i > 0 ==> a == reports[1..][i - 1];
      }
    }
  }

  /** Consensus succeeds exactly when the reports, as a set, agree pairwise. */
  lemma ConsensusExactly(codec: Codec, reports: seq<Report>)
    ensures Consensus(codec, reports).Ok? <==> CanAgree(codec, reports)
    ensures Consensus(codec, reports).Ok? ==>
              reports != [] && Consensus(codec, reports) == SealedConsensus(codec, reports)
  {
    hide AreObserved, HaveViews, ReportIds, AllAgree, PairwiseAgree, SortedSet, ConsensusManifest;
    if |reports| >= 2 && AreObserved(codec, reports) {
      ComparableExactly(codec, reports);
      if HaveViews(codec, reports) {
        AgreedExactly(codec, reports);
      }
    }
  }

  lemma AgreedExactly(codec: Codec, reports: seq<Report>)
    requires |reports| >= 2 && AreObserved(codec, reports) && HaveViews(codec, reports)
    ensures AgreedConsensus(codec, reports).Ok? <==>
            PairwiseAgree(codec, reports) && AllSameKind(ReportIds(reports))
    ensures AgreedConsensus(codec, reports).Ok? ==>
              AgreedConsensus(codec, reports) == SealedConsensus(codec, reports)
  {
    hide ReportIds, PairwiseAgree, SortedSet, ConsensusManifest, Agree, IsObservedReport, Views;
    AllAgreeExactly(codec, reports[0], reports[1..]);
    FirstAgreesWithAll(codec, reports);
  }

  /** The order of the input reports does not decide whether consensus succeeds. */
  lemma ConsensusOrderIrrelevant(codec: Codec, a: seq<Report>, b: seq<Report>)
    requires multiset(a) == multiset(b)
    ensures Consensus(codec, a).Ok? <==> Consensus(codec, b).Ok?
  {
    hide Consensus, CanAgree;
    ConsensusExactly(codec, a);
    ConsensusExactly(codec, b);
    SameElements(a, b);
    CanAgreeBySet(codec, a, b);
    CanAgreeBySet(codec, b, a);
  }

  lemma CanAgreeBySet(codec: Codec, a: seq<Report>, b: seq<Report>)
    requires Elements(a) == Elements(b) && |a| == |b|
    ensures CanAgree(codec, a) ==> CanAgree(codec, b)
  {
    hide IsObservedReport, Views, Agree;
    assert forall r :: r in a <==> r in Elements(a);
    assert forall r :: r in b <==> r in Elements(b);
    assert ReportIds(a) == ReportIds(b);
    if CanAgree(codec, a) {
      forall i | 0 <= i < |b| ensures IsObservedReport(codec, b[i]) && Views(codec, b[i]).Ok? {
        assert b[i] in a;
        var k :| 0 <= k < |a| && a[k] == b[i];
      }
    }
  }

  // ----- what a consensus accepts -----

  /** The lower-case form `build_report` writes. */
  predicate IsCanonicalHash(v: Json) {
    v.Str? && IsHex(v.s, 64)
  }

  predicate IsCanonical(r: Report) {
    IsCanonicalHash(r.guestImage) && IsCanonicalHash(r.job) && IsCanonicalHash(r.reportId)
  }

  predicate AllCanonical(reports: seq<Report>) {
    forall r | r in reports :: IsCanonical(r)
  }

  lemma BuiltReportIsCanonical(codec: Codec, records: seq<Fields>, inputs: Inputs)
    requires codec.Valid() && BuildReport(codec, records, inputs).Ok?
    ensures IsCanonical(BuildReport(codec, records, inputs).value)
  {
    hide NormalizedRecords, Stable, Observed;
  }

  /** A sorted list of canonical hashes without repeats is its own normal form. */
  lemma CanonicalIds(ids: seq<Json>)
    requires Sorted(IdLeq, ids) && Distinct(ids) && forall i | 0 <= i < |ids| :: IsCanonicalHash(ids[i])
    requires |ids| >= 2
    ensures ValidReportIds(Int(|ids|), Arr(ids))
  {
    hide StringLeq, Sort, HashText, IsHex;
    forall i | 0 <= i < |ids| ensures HashText(ids[i], 64) == Ok(ids[i].s) {
      HashCanonical(ids[i].s, 64);
    }
    var texts := seq(|ids|, i requires 0 <= i < |ids| => HashText(ids[i], 64).value);
    assert Sorted(StringLeq, texts) && Distinct(texts) by {
      forall i, j | 0 <= i < j < |ids| ensures StringLeq(texts[i], texts[j]) && texts[i] != texts[j] {
        assert IdLeq(ids[i], ids[j]) && ids[i] != ids[j];
      }
    }
    SortOfSorted(texts);
    CountDistinct(texts);
    assert Texts(texts) == ids;
  }

  lemma SortOfSorted(texts: seq<string>)
    requires Sorted(StringLeq, texts) && Distinct(texts)
    ensures Sort(StringLeq, texts) == texts
  {
    hide StringLeq;
    StringsAreOrdered(Elements(texts));
    SortSorts(StringLeq, texts);
    SameElements(Sort(StringLeq, texts), texts);
    CountDistinct(texts);
    CountDistinct(Sort(StringLeq, texts));
    SortedUnique(StringLeq, Sort(StringLeq, texts), texts);
  }

  lemma ConsensusIds(codec: Codec, reports: seq<Report>)
    requires Consensus(codec, reports).Ok?
    ensures
      var m := Consensus(codec, reports).value;
      m.reportIds.Arr? && |m.reportIds.items| >= 2 && Elements(m.reportIds.items) == ReportIds(reports) &&
      Sorted(IdLeq, m.reportIds.items) && Distinct(m.reportIds.items) && m.reportCount == Int(|m.reportIds.items|)
  {
    hide Consensus, AreObserved, HaveViews, PairwiseAgree, ConsensusStable;
    ConsensusExactly(codec, reports);
    IdsAreOrdered(ReportIds(reports));
  }

  /** Sealing canonical hashes is sealing their normal forms. */
  lemma CanonicalSeal(codec: Codec, first: Report, ids: seq<Json>)
    requires codec.Valid() && IsCanonicalHash(first.guestImage) && IsCanonicalHash(first.job)
    requires ValidReportIds(Int(|ids|), Arr(ids))
    ensures
      var m := ConsensusManifest(codec, first, ids);
      HashText(m.guestImage, 64).Ok? && HashText(m.job, 64).Ok? && HashText(m.oracleId, 64).Ok? &&
      ConsensusSealed(codec, m)
  {
    hide IsHex, HashText, ConsensusStable, SortedHashes;
    var m := ConsensusManifest(codec, first, ids);
    HashCanonical(first.guestImage.s, 64);
    HashCanonical(first.job.s, 64);
    HashCanonical(m.oracleId.s, 64);
  }

  /** The manifest's own shape is valid when the reports are in canonical form. */
  lemma CanonicalManifestIsValid(codec: Codec, reports: seq<Report>)
    requires codec.Valid() && Consensus(codec, reports).Ok? && AllCanonical(reports)
    ensures ValidOracle(codec, Consensus(codec, reports).value)
  {
    hide Consensus, HaveViews, PairwiseAgree, ConsensusStable, ValidReportIds, SortedHashes, IsHex, HashText, ValidRecords,
         SealHolds, IdLeq, ConsensusSealed;
    var m := Consensus(codec, reports).value;
    ConsensusExactly(codec, reports);
    ConsensusIds(codec, reports);
    var first, ids := reports[0], m.reportIds.items;
    forall i | 0 <= i < |ids| ensures IsCanonicalHash(ids[i]) {
      assert ids[i] in Elements(ids);
    }
    CanonicalIds(ids);
    assert IsObservedReport(codec, first) && IsCanonical(first);
    assert m == ConsensusManifest(codec, first, ids);
    CanonicalSeal(codec, first, ids);
  }

  // ----- soundness -----

  /** Every report agrees with the manifest's retained content. */
  lemma AgreesWithManifest(codec: Codec, reports: seq<Report>, r: Report)
    requires Consensus(codec, reports).Ok? && r in reports
    ensures
      var m := Consensus(codec, reports).value;
      ValidReport(codec, r) && ValidRecords(codec, m.records) &&
      PyEq(m.sourceBackend, r.sourceBackend) && PyEq(m.guestImage, r.guestImage) && PyEq(m.job, r.job) &&
      SameRecords(codec, m.records, r.records)
  {
    hide Consensus, ValidRecords, SealHolds, HashText, ReportIds, ConsensusStable, ComparisonViews, Difference;
    ConsensusExactly(codec, reports);
    var first := reports[0];
    assert Agree(codec, first, r);
    assert Views(codec, first).Ok?;
    var k :| 0 <= k < |reports| && reports[k] == r;
    assert IsObservedReport(codec, reports[k]) && Views(codec, reports[k]).Ok?;
    DifferenceExact(Arr(Views(codec, first).value), Arr(Views(codec, r).value), []);
  }

  /** The two stable contents `oracle_id` could seal: as copied, and as the validator normalizes them. */
  ghost predicate NoSealCollision(codec: Codec, m: Manifest) {
    HashText(m.guestImage, 64).Ok? && HashText(m.job, 64).Ok? && m.reportIds.Arr? && AreHashList(m.reportIds.items) ==>
      var copied := ConsensusStable(m.sourceBackend, m.guestImage, m.job, m.records, m.reportCount, m.reportIds);
      var normalized := ConsensusStable(m.sourceBackend, Str(HashText(m.guestImage, 64).value),
                                        Str(HashText(m.job, 64).value), m.records, m.reportCount,
                                        Arr(Texts(SortedHashes(m.reportIds.items))));
      codec.Hash(copied) == codec.Hash(normalized) ==> copied == normalized
  }

  lemma StableParts(backend: Json, guest: Json, job: Json, records: Json, count: Json, ids: Json)
    ensures ConsensusStable(backend, guest, job, records, count, ids).fields["guest_image_sha256"] == guest
    ensures ConsensusStable(backend, guest, job, records, count, ids).fields["job_sha256"] == job
  {
  }

  /** A valid manifest copied canonical image and job hashes. */
  lemma ManifestHashesCanonical(codec: Codec, m: Manifest, first: Report)
    requires codec.Valid() && m.reportIds.Arr? && m == ConsensusManifest(codec, first, m.reportIds.items)
    requires ValidOracle(codec, m) && NoSealCollision(codec, m)
    ensures IsCanonicalHash(m.guestImage) && IsCanonicalHash(m.job)
  {
    hide ValidRecords, HashText, ConsensusStable, SortedHashes, IsHex;
    HashIsCanonical(codec, m);
    var guest, job := Str(HashText(m.guestImage, 64).value), Str(HashText(m.job, 64).value);
    var ids := Arr(Texts(SortedHashes(m.reportIds.items)));
    StableParts(m.sourceBackend, m.guestImage, m.job, m.records, m.reportCount, m.reportIds);
    StableParts(m.sourceBackend, guest, job, m.records, m.reportCount, ids);
    assert m.guestImage == guest && m.job == job;
  }

  lemma ValidManifestIsCanonical(codec: Codec, reports: seq<Report>)
    requires codec.Valid() && Consensus(codec, reports).Ok? && NoSealCollision(codec, Consensus(codec, reports).value)
    requires ValidOracle(codec, Consensus(codec, reports).value)
    ensures AllCanonical(reports)
  {
    hide Consensus, ValidRecords, ConsensusStable, IsHex, SameRecords, ValidReport, Norm, NoSealCollision, ConsensusSealed,
         ValidReportIds;
    var m := Consensus(codec, reports).value;
    ConsensusIds(codec, reports);
    ConsensusExactly(codec, reports);
    ManifestHashesCanonical(codec, m, reports[0]);
    forall r | r in reports ensures IsCanonical(r) {
      AgreesWithManifest(codec, reports, r);
      ReportHashesAreAtoms(codec, r);
      AtomEquality(m.guestImage, r.guestImage);
      AtomEquality(m.job, r.job);
      assert r.reportId in Elements(m.reportIds.items);
      IdIsCanonical(codec, m, r);
    }
  }

  lemma ReportHashesAreAtoms(codec: Codec, r: Report)
    requires ValidReport(codec, r)
    ensures (r.guestImage.Str? || r.guestImage.Int?) && (r.job.Str? || r.job.Int?) &&
            (r.reportId.Str? || r.reportId.Int?)
  {
    hide IsHex, ValidRecords, SealHolds;
  }

  lemma IdIsCanonical(codec: Codec, m: Manifest, r: Report)
    requires m.reportIds.Arr? && ValidReportIds(m.reportCount, m.reportIds) && r.reportId in m.reportIds.items
    ensures IsCanonicalHash(r.reportId)
  {
    hide HashText, Sort, IsHex;
    var items := m.reportIds.items;
    var texts := seq(|items|, i requires 0 <= i < |items| => HashText(items[i], 64).value);
    SameElements(SortedHashes(items), texts);
    var i :| 0 <= i < |items| && items[i] == r.reportId;
    assert SortedHashes(items)[i] in Elements(texts);
    var j :| 0 <= j < |texts| && texts[j] == SortedHashes(items)[i];
    assert IsHex(HashText(items[j], 64).value, 64);
  }

  /**
   * A consensus accepts every report it was built from exactly when all of them carry
   * canonical hashes, provided SHA-256 does not collide on the two seals compared.
   */
  lemma ConsensusAcceptsInputsExactly(codec: Codec, reports: seq<Report>, r: Report)
    requires codec.Valid() && Consensus(codec, reports).Ok? && NoSealCollision(codec, Consensus(codec, reports).value)
    requires r in reports
    ensures Accepts(codec, r, Consensus(codec, reports).value) <==> AllCanonical(reports)
  {
    hide Consensus, ValidReport, ValidOracle, SameRecords, AllCanonical, NoSealCollision;
    AgreesWithManifest(codec, reports, r);
    if AllCanonical(reports) {
      CanonicalManifestIsValid(codec, reports);
    }
    if ValidOracle(codec, Consensus(codec, reports).value) {
      ValidManifestIsCanonical(codec, reports);
    }
  }

  /** Reports in the form `build_report` writes are all accepted by their consensus. */
  lemma ConsensusSound(codec: Codec, reports: seq<Report>, r: Report)
    requires codec.Valid() && Consensus(codec, reports).Ok? && AllCanonical(reports) && r in reports
    ensures Accepts(codec, r, Consensus(codec, reports).value)
  {
    hide Consensus, ValidReport, ValidOracle, SameRecords, AllCanonical;
    AgreesWithManifest(codec, reports, r);
    CanonicalManifestIsValid(codec, reports);
  }

  /** Whatever the order of the inputs, the consensus accepts the same candidates. */
  lemma AcceptedCandidatesSame(codec: Codec, a: seq<Report>, b: seq<Report>, candidate: Report)
    requires codec.Valid() && multiset(a) == multiset(b) && Consensus(codec, a).Ok? && Consensus(codec, b).Ok?
    requires AllCanonical(a)
    ensures Accepts(codec, candidate, Consensus(codec, a).value) <==> Accepts(codec, candidate, Consensus(codec, b).value)
  {
    hide Consensus, ValidReport, ValidOracle, SameRecords, Norm;
    SameElements(a, b);
    assert forall r :: r in a <==> r in Elements(a);
    assert forall r :: r in b <==> r in Elements(b);
    CanonicalManifestIsValid(codec, a);
    CanonicalManifestIsValid(codec, b);
    ManifestsAgree(codec, a, b, candidate);
  }

  lemma ManifestsAgree(codec: Codec, a: seq<Report>, b: seq<Report>, candidate: Report)
    requires Elements(a) == Elements(b) && Consensus(codec, a).Ok? && Consensus(codec, b).Ok?
    ensures
      var m, n := Consensus(codec, a).value, Consensus(codec, b).value;
      m.provenance == n.provenance && PyEq(m.sourceBackend, n.sourceBackend) && PyEq(m.guestImage, n.guestImage) &&
      PyEq(m.job, n.job) && ValidRecords(codec, m.records) && ValidRecords(codec, n.records) &&
      (ValidReport(codec, candidate) ==>
         (SameRecords(codec, m.records, candidate.records) <==> SameRecords(codec, n.records, candidate.records)))
  {
    hide Consensus, ValidReport, ValidOracle, Norm, ConsensusStable, ComparisonViews, Difference, ValidRecords;
    var m, n := Consensus(codec, a).value, Consensus(codec, b).value;
    ConsensusExactly(codec, a);
    ConsensusExactly(codec, b);
    assert b[0] in Elements(b);
    AgreesWithManifest(codec, a, b[0]);
    AgreesWithManifest(codec, b, b[0]);
    assert m.provenance == n.provenance && n.records == b[0].records;
    ViewsEqual(codec, m.records, n.records);
  }

  lemma ViewsEqual(codec: Codec, x: Json, y: Json)
    requires ValidRecords(codec, x) && ValidRecords(codec, y) && SameRecords(codec, x, y)
    ensures ComparisonViews(x.items) == ComparisonViews(y.items)
  {
    hide ComparisonViews, Difference;
    DifferenceExact(Arr(ComparisonViews(x.items).value), Arr(ComparisonViews(y.items).value), []);
  }

  lemma HashIsCanonical(codec: Codec, m: Manifest)
    requires codec.Valid() && exists v :: m.oracleId == Str(codec.Hash(v))
    ensures m.oracleId.Str? && HashText(m.oracleId, 64) == Ok(m.oracleId.s)
  {
    hide HashText, IsHex;
    HashCanonical(m.oracleId.s, 64);
  }
}
