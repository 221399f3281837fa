/** Which manifests are valid, what they accept, what a consensus holds and what the ledger takes, in words. */
module ManifestMeaning {
  import opened ComparisonCrash
  import opened ComparisonMeaning
  import opened HashMeaning
  import opened JsonTree
  import opened Lists
  import opened OracleConsensus
  import opened OracleRecords
  import opened OracleReport
  import opened RecordMeaning
  import opened ReportMeaning
  import opened Seals
  import opened Sorting

  // ----- sorted lists -----

  ghost predicate Ascending(texts: seq<string>) {
    forall i, j | 0 <= i < j < |texts| :: texts[i] != texts[j] && StringLeq(texts[i], texts[j])
  }

  lemma AscendingSorts(texts: seq<string>)
    requires Ascending(texts)
    ensures Sort(StringLeq, texts) == texts
  {
    hide StringLeq, Sort;
    StringsAreOrdered(Elements(texts));
    SortedStaysSorted(StringLeq, texts);
  }

  lemma SortedStaysSorted<T(!new)>(leq: Order<T>, s: seq<T>)
    requires TotalOn(leq, Elements(s)) && Sorted(leq, s) && Distinct(s)
    ensures Sort(leq, s) == s
  {
    hide Sort;
    SortSorts(leq, s);
    SameElements(Sort(leq, s), s);
    CountDistinct(s);
    CountDistinct(Sort(leq, s));
    SortedUnique(leq, Sort(leq, s), s);
  }

  lemma SortAscends(texts: seq<string>)
    requires Distinct(Sort(StringLeq, texts))
    ensures Ascending(Sort(StringLeq, texts))
  {
    hide StringLeq, Sort;
    StringsAreOrdered(Elements(texts));
    SortSorts(StringLeq, texts);
  }

  // ----- the reports behind a consensus -----

  ghost predicate IsId(v: Json) {
    v.Str? && IsHash(v.s, 64)
  }

  function TextsOf(items: seq<Json>): seq<string> {
    seq(|items|, i requires 0 <= i < |items| => if items[i].Str? then items[i].s else "")
  }

  /** At least two report ids in canonical spelling, ascending, and as many as counted. */
  ghost predicate IdsStand(count: Json, ids: Json) {
    NonNegative(count) && count.i >= 2 && ids.Arr? && |ids.items| == count.i &&
    (forall i | 0 <= i < |ids.items| :: IsId(ids.items[i])) && Ascending(TextsOf(ids.items))
  }

  function HashesOfItems(items: seq<Json>): seq<string>
    requires AreHashList(items)
  {
    seq(|items|, i requires 0 <= i < |items| => HashText(items[i], 64).value)
  }

  lemma SortedAreHashes(items: seq<Json>)
    requires AreHashList(items)
    ensures forall i | 0 <= i < |SortedHashes(items)| :: IsHash(SortedHashes(items)[i], 64)
  {
    hide HashText, Sort, IsHash;
    var hashes, sorted := HashesOfItems(items), SortedHashes(items);
    assert sorted == Sort(StringLeq, hashes);
    SameElements(sorted, hashes);
    forall i | 0 <= i < |sorted| ensures IsHash(sorted[i], 64) {
      assert sorted[i] in Elements(hashes);
      var k :| 0 <= k < |hashes| && hashes[k] == sorted[i];
      HashIsHex(sorted[i], 64);
    }
  }

  lemma IdsAreTheirHashes(items: seq<Json>)
    requires forall i | 0 <= i < |items| :: IsId(items[i])
    ensures AreHashList(items) && HashesOfItems(items) == TextsOf(items) && Texts(TextsOf(items)) == items
  {
    hide HashText, IsHash;
    forall i | 0 <= i < |items| ensures HashText(items[i], 64) == Ok(items[i].s) {
      HashIsHex(items[i].s, 64);
      HashCanonical(items[i].s, 64);
    }
  }

  lemma IdsStandExactly(count: Json, ids: Json)
    ensures ValidReportIds(count, ids) <==> IdsStand(count, ids)
  {
    hide HashText, Sort, IsHash, Ascending, Distinct;
    if ValidReportIds(count, ids) {
      var sorted := SortedHashes(ids.items);
      SortedAreHashes(ids.items);
      CountDistinct(sorted);
      assert sorted == Sort(StringLeq, HashesOfItems(ids.items));
      SortAscends(HashesOfItems(ids.items));
      assert TextsOf(ids.items) == sorted;
    }
    if IdsStand(count, ids) {
      IdsAreTheirHashes(ids.items);
      AscendingSorts(TextsOf(ids.items));
      assert SortedHashes(ids.items) == Sort(StringLeq, HashesOfItems(ids.items));
      AscendingIsDistinct(TextsOf(ids.items));
      CountDistinct(TextsOf(ids.items));
    }
  }

  lemma AscendingIsDistinct(texts: seq<string>)
    requires Ascending(texts)
    ensures Distinct(texts)
  {
  }

  // ----- the owners behind a retail manifest -----

  ghost predicate OwnerStands(item: Json) {
    item.Obj? && item.fields.Keys == {"owner_id", "hardware_revision", "report_id"} &&
    NonEmptyText(item.fields["owner_id"]) && NonEmptyText(item.fields["hardware_revision"]) && IsId(item.fields["report_id"])
  }

  function OwnerOf(item: Json): string {
    if item.Obj? && Member(item.fields, "owner_id").Str? then item.fields["owner_id"].s else ""
  }

  function OwnersOf(items: seq<Json>): seq<string> {
    seq(|items|, i requires 0 <= i < |items| => OwnerOf(items[i]))
  }

  /** At least two owners, ascending by id, and as many as counted. */
  ghost predicate OwnersStand(count: Json, owners: Json) {
    NonNegative(count) && count.i >= 2 && owners.Arr? && |owners.items| == count.i &&
    (forall i | 0 <= i < |owners.items| :: OwnerStands(owners.items[i])) && Ascending(OwnersOf(owners.items))
  }

  lemma OwnerIsNormal(item: Json)
    requires OwnerStands(item)
    ensures IsOwner(item) && NormalizedOwner(item) == item
  {
    hide HashText, IsHash;
    HashIsHex(item.fields["report_id"].s, 64);
    HashCanonical(item.fields["report_id"].s, 64);
    assert NormalizedOwner(item).fields == item.fields;
  }

  lemma NormalOwnerStands(item: Json)
    requires IsOwner(item)
    ensures OwnerStands(NormalizedOwner(item)) && OwnerOf(NormalizedOwner(item)) == OwnerOf(item)
  {
    hide IsHash, IsHex;
    HashIsHex(HashText(item.fields["report_id"], 64).value, 64);
  }

  function EachNormal(items: seq<Json>): seq<Json>
    requires AreOwners(items)
  {
    seq(|items|, i requires 0 <= i < |items| => NormalizedOwner(items[i]))
  }

  lemma OwnersCounted(items: seq<Json>)
    requires AreOwners(items)
    ensures |OwnerIds(items)| == |items| <==> Distinct(OwnersOf(items))
  {
    hide IsOwner;
    forall i | 0 <= i < |items| ensures items[i].Obj? && Member(items[i].fields, "owner_id") == Str(OwnerOf(items[i])) {
      OwnerIsText(items[i]);
    }
    var ids := Texts(OwnersOf(items));
    assert OwnerIds(items) == Elements(ids) by {
      forall v ensures v in OwnerIds(items) <==> v in ids {
        if v in OwnerIds(items) {
          var i :| 0 <= i < |items| && items[i].fields["owner_id"] == v;
          assert ids[i] == v;
        }
        if v in ids {
          var i :| 0 <= i < |ids| && ids[i] == v;
          assert items[i].fields["owner_id"] == v;
        }
      }
    }
    CountDistinct(ids);
    DistinctTexts(OwnersOf(items));
  }

  lemma DistinctTexts(texts: seq<string>)
    ensures Distinct(Texts(texts)) <==> Distinct(texts)
  {
    if Distinct(Texts(texts)) {
      forall i, j | 0 <= i < j < |texts| ensures texts[i] != texts[j] {
        assert Texts(texts)[i] != Texts(texts)[j];
      }
    }
  }

  lemma OwnerIsText(item: Json)
    requires IsOwner(item)
    ensures item.Obj? && Member(item.fields, "owner_id") == Str(OwnerOf(item))
  {
    hide HashText;
  }

  ghost predicate OwnersListed(items: seq<Json>) {
    (forall i | 0 <= i < |items| :: OwnerStands(items[i])) && Ascending(OwnersOf(items))
  }

  lemma OwnersOrdered(items: seq<Json>)
    requires forall i | 0 <= i < |items| :: OwnerStands(items[i])
    requires Distinct(OwnersOf(items))
    ensures TotalOn(OwnerLeq, Elements(items)) && Distinct(items)
  {
    hide StringLeq, OwnerStands;
    forall i | 0 <= i < |items|
      ensures items[i].Obj? && Member(items[i].fields, "owner_id") == Str(OwnerOf(items[i])) {
      StandingOwnerIsText(items[i]);
    }
    forall x, y | x in items && y in items && OwnerOf(x) == OwnerOf(y) ensures x == y {
      var i :| 0 <= i < |items| && items[i] == x;
      var j :| 0 <= j < |items| && items[j] == y;
      assert OwnersOf(items)[i] == OwnersOf(items)[j];
    }
    forall i, j | 0 <= i < j < |items| ensures items[i] != items[j] {
      assert OwnersOf(items)[i] != OwnersOf(items)[j];
    }
    OwnersCompare(items);
    StringsAreOrdered(Elements(OwnersOf(items)));
    forall x | x in items ensures OwnerOf(x) in Elements(OwnersOf(items)) {
      var i :| 0 <= i < |items| && items[i] == x;
      assert OwnersOf(items)[i] == OwnerOf(x);
    }
  }

  lemma OwnersCompare(items: seq<Json>)
    requires forall i | 0 <= i < |items| :: items[i].Obj? && Member(items[i].fields, "owner_id") == Str(OwnerOf(items[i]))
    ensures forall x, y | x in items && y in items :: OwnerLeq(x, y) <==> StringLeq(OwnerOf(x), OwnerOf(y))
  {
    hide StringLeq;
  }

  lemma StandingOwnerIsText(item: Json)
    requires OwnerStands(item)
    ensures item.Obj? && Member(item.fields, "owner_id") == Str(OwnerOf(item))
  {
  }

  lemma ListedOwnersAreNormal(items: seq<Json>)
    requires OwnersListed(items)
    ensures AreOwners(items) && NormalizedOwners(items) == items && Distinct(OwnersOf(items))
  {
    hide StringLeq, OwnerStands, IsOwner, NormalizedOwner, Sort;
    forall i | 0 <= i < |items| ensures IsOwner(items[i]) && NormalizedOwner(items[i]) == items[i] {
      OwnerIsNormal(items[i]);
    }
    assert EachNormal(items) == items;
    OwnersOrdered(items);
    forall i, j | 0 <= i < j < |items| ensures OwnerLeq(items[i], items[j]) {
      StandingOwnerIsText(items[i]);
      StandingOwnerIsText(items[j]);
      assert StringLeq(OwnersOf(items)[i], OwnersOf(items)[j]);
    }
    SortedStaysSorted(OwnerLeq, items);
  }

  lemma NormalOwnersAreListed(items: seq<Json>)
    requires AreOwners(items) && Distinct(OwnersOf(items)) && items == NormalizedOwners(items)
    ensures OwnersListed(items)
  {
    hide StringLeq, OwnerStands, IsOwner, NormalizedOwner, Sort;
    SameElements(items, EachNormal(items));
    forall i | 0 <= i < |items| ensures OwnerStands(items[i]) {
      assert items[i] in Elements(EachNormal(items));
      var k :| 0 <= k < |items| && EachNormal(items)[k] == items[i];
      NormalOwnerStands(items[k]);
    }
    OwnersOrdered(items);
    SortSorts(OwnerLeq, EachNormal(items));
    forall i, j | 0 <= i < j < |items| ensures StringLeq(OwnersOf(items)[i], OwnersOf(items)[j]) {
      assert OwnerLeq(items[i], items[j]);
      StandingOwnerIsText(items[i]);
      StandingOwnerIsText(items[j]);
    }
  }

  lemma OwnersStandExactly(count: Json, owners: Json)
    ensures ValidOwners(count, owners) <==> OwnersStand(count, owners)
  {
    hide IsOwner, OwnerStands, NormalizedOwners, Norm, OwnersOf, Distinct, OwnerIds, Ascending;
    if ValidOwners(count, owners) {
      OwnersAreNormal(count, owners);
      OwnersCounted(owners.items);
      NormalOwnersAreListed(owners.items);
    }
    if OwnersStand(count, owners) {
      ListedOwnersAreNormal(owners.items);
      OwnersCounted(owners.items);
    }
  }

  // ----- manifests -----

  ghost predicate ManifestStands(codec: Codec, o: Manifest) {
    o.schemaVersion in {Int(1), Whole(1), Bool(true)} && o.kind == Str("xemu_functional_hash_oracle") &&
    NonEmptyText(o.sourceBackend) && Normal(o.guestImage) != Null && Normal(o.job) != Null && RecordsStand(o.records) &&
    ((o.provenance == Str("REGRESSION_CONSENSUS") && IdsStand(o.reportCount, o.reportIds)) ||
     (o.provenance == Str("RETAIL_XBOX") && o.sourceBackend == Str("retail-xbox") &&
      OwnersStand(o.ownerCount, o.ownerReports))) &&
    Normal(o.oracleId) == Str(codec.sha256(codec.canonical(Obj(ManifestFields(o)))))
  }

  /** What a manifest is compared with, for each of the two classes. */
  lemma SealsInWords(codec: Codec, o: Manifest)
    requires HashText(o.guestImage, 64).Ok? && HashText(o.job, 64).Ok? && HashText(o.oracleId, 64).Ok?
    ensures o.provenance == REGRESSION_CONSENSUS && ValidReportIds(o.reportCount, o.reportIds) ==>
              (ConsensusSealed(codec, o) <==> Normal(o.oracleId) == Str(codec.sha256(codec.canonical(Obj(ManifestFields(o))))))
    ensures o.provenance == RETAIL_XBOX && ValidOwners(o.ownerCount, o.ownerReports) ==>
              (RetailSealed(codec, o) <==> Normal(o.oracleId) == Str(codec.sha256(codec.canonical(Obj(ManifestFields(o))))))
  {
    hide HashText, SortedHashes, NormalizedOwners, IsOwner, AreHashList, Norm, OwnerLeq, Elements, OwnerIds;
    if o.provenance == RETAIL_XBOX && ValidOwners(o.ownerCount, o.ownerReports) {
      OwnersAreNormal(o.ownerCount, o.ownerReports);
    }
  }

  /** A manifest is valid exactly when it is a well-formed one of the two classes and its id is the digest. */
  lemma ManifestStandsExactly(codec: Codec, o: Manifest)
    requires codec.Valid()
    ensures ValidOracle(codec, o) <==> ManifestStands(codec, o)
  {
    hide HashText, ValidRecords, RecordsStand, ValidReportIds, ValidOwners, IdsStand, OwnersStand, ConsensusSealed,
         RetailSealed, ManifestFields;
    RecordsStandExactly(codec, o.records);
    IdsStandExactly(o.reportCount, o.reportIds);
    OwnersStandExactly(o.ownerCount, o.ownerReports);
    if HashText(o.guestImage, 64).Ok? && HashText(o.job, 64).Ok? && HashText(o.oracleId, 64).Ok? {
      SealsInWords(codec, o);
    }
  }

  /** A report passes against a manifest exactly when both are valid and agree, record by record. */
  lemma AcceptsInWords(codec: Codec, r: Report, o: Manifest)
    requires codec.Valid()
    ensures Accepts(codec, r, o) <==>
            ReportStands(codec, r) && ManifestStands(codec, o) &&
            (o.provenance == Str("REGRESSION_CONSENSUS") ==> o.sourceBackend == r.sourceBackend) &&
            PyEq(o.guestImage, r.guestImage) && PyEq(o.job, r.job) &&
            AllComparableRecords(o.records.items) && AllComparableRecords(r.records.items) &&
            RecordsCompare(o.records.items, r.records.items)
  {
    hide ValidReport, ValidOracle, RecordsStand, ValidRecords, IdsStand, OwnersStand, AllComparableRecords, RecordsCompare,
         SameRecords, ManifestFields, Normal, BehaviourFields, SightingFields;
    ReportStandsExactly(codec, r);
    ManifestStandsExactly(codec, o);
    if ReportStands(codec, r) && ManifestStands(codec, o) {
      RecordsStandExactly(codec, r.records);
      RecordsStandExactly(codec, o.records);
      SameRecordsExactly(codec, o.records, r.records);
    }
  }

  // ----- a consensus -----

  /** Different ids of one kind, texts by code point and integers by size. */
  ghost predicate IdsAscend(ids: seq<Json>) {
    forall i, j | 0 <= i < j < |ids| ::
      ids[i] != ids[j] &&
      ((ids[i].Str? && ids[j].Str? && StringLeq(ids[i].s, ids[j].s)) || (ids[i].Int? && ids[j].Int? && ids[i].i <= ids[j].i))
  }

  lemma SortedIdsAscend(ids: set<Json>)
    requires SortIds(ids).Ok?
    ensures IdsAscend(SortIds(ids).value) && Elements(SortIds(ids).value) == ids
  {
    hide StringLeq;
    IdsAreOrdered(ids);
  }

  /** A consensus holds what its first report shows, the ids of all its reports and the digest of both. */
  lemma ConsensusInWords(codec: Codec, reports: seq<Report>)
    requires Consensus(codec, reports).Ok?
    ensures
      var o, first := Consensus(codec, reports).value, reports[0];
      o.schemaVersion == Int(1) && o.kind == Str("xemu_functional_hash_oracle") &&
      o.provenance == Str("REGRESSION_CONSENSUS") && o.sourceBackend == first.sourceBackend &&
      o.guestImage == first.guestImage && o.job == first.job && o.records == first.records &&
      o.reportIds.Arr? && IdsAscend(o.reportIds.items) && o.reportCount == Int(|o.reportIds.items|) &&
      Elements(o.reportIds.items) == (set r | r in reports :: r.reportId) &&
      o.ownerCount == Null && o.ownerReports == Null &&
      o.oracleId == Str(codec.sha256(codec.canonical(Obj(AgreedFields(
                          Agreed(o.sourceBackend, o.guestImage, o.job, o.records, o.reportCount, o.reportIds))))))
  {
    hide IsObservedReport, AllComparable, AllAgree, SortIds, IdsAscend;
    SortedIdsAscend(ReportIds(reports));
  }

  ghost predicate Observed(codec: Codec, r: Report) {
    ReportStands(codec, r) && r.sourceType == Str("XEMU") && AllComparableRecords(r.records.items)
  }

  /** The reports agree on backend, image and job, and their records compare equal. */
  ghost predicate AgreeOnAll(a: Report, b: Report) {
    PyEq(a.sourceBackend, b.sourceBackend) && PyEq(a.guestImage, b.guestImage) && PyEq(a.job, b.job) &&
    a.records.Arr? && b.records.Arr? && RecordsCompare(a.records.items, b.records.items)
  }

  ghost predicate KindsAgree(a: Json, b: Json) {
    (a.Str? && b.Str?) || (a.Int? && b.Int?)
  }

  lemma ObservedExactly(codec: Codec, r: Report)
    requires codec.Valid()
    ensures IsObservedReport(codec, r) && IsComparable(r) <==> Observed(codec, r)
    ensures Observed(codec, r) ==> r.records.Arr?
  {
    hide ReportStands, ValidReport, HasNull;
    ReportStandsExactly(codec, r);
    if ReportStands(codec, r) {
      StandingHasList(codec, r);
    }
  }

  lemma StandingHasList(codec: Codec, r: Report)
    requires ReportStands(codec, r)
    ensures r.records.Arr?
  {
    hide Normal, BehaviourFields, SightingFields;
  }

  lemma TwoIds(reports: seq<Report>)
    ensures |ReportIds(reports)| >= 2 <==> exists a, b :: a in reports && b in reports && a.reportId != b.reportId
  {
    var ids := ReportIds(reports);
    if |ids| >= 2 {
      var x :| x in ids;
      assert |ids - {x}| >= 1;
      var y :| y in ids - {x};
      assert x in ids && y in ids && x != y;
    }
    if a, b :| a in reports && b in reports && a.reportId != b.reportId {
      assert {a.reportId, b.reportId} <= ids && |{a.reportId, b.reportId}| == 2;
      SubsetSize({a.reportId, b.reportId}, ids);
    }
  }

  lemma {:induction false} SubsetSize(a: set<Json>, b: set<Json>)
    requires a <= b
    ensures |a| <= |b|
  {
    assert b == a + (b - a);
  }

  /** Consensus succeeds exactly for at least two comparable xemu reports of different ids that agree pairwise. */
  lemma ConsensusStandsExactly(codec: Codec, reports: seq<Report>)
    requires codec.Valid()
    ensures Consensus(codec, reports).Ok? <==>
            (forall r | r in reports :: Observed(codec, r)) &&
            (exists a, b :: a in reports && b in reports && a.reportId != b.reportId) &&
            forall a, b | a in reports && b in reports :: KindsAgree(a.reportId, b.reportId) && AgreeOnAll(a, b)
  {
    hide IsObservedReport, IsComparable, Observed, Consensus, AgreeOnAll, ReportIds, AllSameKind, KindsAgree, AreObserved;
    ConsensusByPairs(codec, reports);
    TwoIds(reports);
    IdKinds(reports);
    ObservedByIndex(codec, reports);
    forall r | r in reports ensures IsObservedReport(codec, r) && IsComparable(r) <==> Observed(codec, r) {
      ObservedExactly(codec, r);
    }
  }

  lemma ConsensusByPairs(codec: Codec, reports: seq<Report>)
    ensures Consensus(codec, reports).Ok? <==>
            |reports| >= 2 && AreObserved(codec, reports) && |ReportIds(reports)| >= 2 && AllSameKind(ReportIds(reports)) &&
            (forall r | r in reports :: IsComparable(r)) && forall a, b | a in reports && b in reports :: AgreeOnAll(a, b)
  {
    hide AreObserved, Consensus, ReportIds, AllSameKind, RecordsCompare, Norm, HasNull;
    ConsensusExactlyByRecords(codec, reports);
  }

  lemma ObservedByIndex(codec: Codec, reports: seq<Report>)
    ensures AreObserved(codec, reports) <==> forall r | r in reports :: IsObservedReport(codec, r)
  {
    hide IsObservedReport;
  }

  lemma IdKinds(reports: seq<Report>)
    ensures AllSameKind(ReportIds(reports)) <==>
            forall a, b | a in reports && b in reports :: KindsAgree(a.reportId, b.reportId)
  {
    if AllSameKind(ReportIds(reports)) {
      forall a, b | a in reports && b in reports ensures KindsAgree(a.reportId, b.reportId) {
        assert a.reportId in ReportIds(reports) && b.reportId in ReportIds(reports);
      }
    }
  }
}
