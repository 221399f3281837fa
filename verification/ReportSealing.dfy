/** What `build_report` seals: its reports validate, and neither record order nor excluded observations reach them. */
module ReportSealing {
  import opened JsonTree
  import opened Lists
  import opened OracleRecords
  import opened OracleReport
  import opened Sorting
  import opened Text

  // ----- a normalized item is a valid record -----

  lemma ContractIsValid(record: Fields)
    requires RecordContract(record).Ok?
    ensures IsContract(RecordContract(record).value)
  {
  }

  lemma InternalIsValid(record: Fields)
    requires RecordInternalOracle(record).Ok? && RecordInternalOracle(record).value.Some?
    ensures IsInternal(Obj(RecordInternalOracle(record).value.value))
  {
    hide UpperText;
  }

  lemma KatNamesAreNonEmpty()
    ensures !IsKat("")
  {
    assert LowerText("") == "";
    assert !MatchesAt("", "kat", 0);
  }

  /** The excluded observations of a record, each the frame or a named known answer. */
  lemma ExcludedAreObservations(metadata: Fields)
    requires ExcludedObservations(metadata).Ok?
    ensures forall o | o in ExcludedObservations(metadata).value :: IsObservation(Str(o))
  {
    hide IsKat;
    KatNamesAreNonEmpty();
    var kats := Obj(Kats(metadata));
    NormalizesExactly(kats);
    forall o | o in ExcludedObservations(metadata).value ensures IsObservation(Str(o)) {
      if o != FRAMEBUFFER {
        var k :| IsKat(k) && o == Observation(k);
        PrefixedName(o, k);
        assert |o| == 5 + |k|;
      }
    }
  }

  lemma PolicyIsValid(record: Fields)
    requires RecordPolicy(record).Ok? && RecordPolicy(record).value.Some?
    ensures
      var policy := RecordPolicy(record).value.value;
      IsPolicy(PolicyJson(policy)) && ExcludedBy(PolicyJson(policy)) == Elements(policy.excluded)
  {
    hide ExcludedObservations, IsObservation;
    var metadata := Get(record, "metadata").fields;
    ExcludedAreObservations(metadata);
    var policy := RecordPolicy(record).value.value;
    assert forall o | o in policy.excluded :: o in Elements(policy.excluded);
    PolicyShape(policy);
  }

  lemma PolicyShape(policy: Policy)
    requires policy.excluded != [] && policy.reason != ""
    requires forall o | o in policy.excluded :: IsObservation(Str(o))
    ensures IsPolicy(PolicyJson(policy)) && ExcludedBy(PolicyJson(policy)) == Elements(policy.excluded)
  {
    hide IsObservation;
    var items := Texts(policy.excluded);
    var fields := PolicyJson(policy).fields;
    assert fields["excluded_observations"] == Arr(items) && fields["reason"] == Str(policy.reason);
    assert fields.Keys == {"excluded_observations", "reason"};
    assert forall i | 0 <= i < |items| :: items[i] == Str(policy.excluded[i]);
    assert (set i | 0 <= i < |items| && items[i].Str? :: items[i].s) == Elements(policy.excluded) by {
      forall o | o in policy.excluded ensures exists i :: 0 <= i < |items| && items[i] == Str(o) {
        var i :| 0 <= i < |policy.excluded| && policy.excluded[i] == o;
        assert items[i] == Str(o);
      }
    }
  }

  /** The hashes of a record before exclusion. */
  lemma RecordHashesShape(record: Fields)
    requires RecordHashes(record).Ok?
    ensures
      var h := RecordHashes(record).value;
      IsText(Get(record, "name")) && HashText(Get(h, FRAMEBUFFER), 16).Ok? && AreChecksums(h) &&
      h.Keys <= {FRAMEBUFFER, WORK, RESULT, KATS} && (KATS in h ==> AreKats(h[KATS]))
  {
    hide HashText, RecordKats, NormalizeKat;
    var frame := HashText(Get(record, FRAMEBUFFER), 16).value;
    HashCanonical(frame, 16);
    var metadata := Get(record, "metadata");
    if metadata.Obj? {
      var work, result := Get(metadata.fields, WORK), Get(metadata.fields, RESULT);
      ChecksumsShape(work, result);
      KatsShape(metadata.fields);
      AllHashesShape(frame, Checksums(work, result).value, RecordKats(metadata.fields).value);
    }
  }

  lemma ChecksumsShape(work: Json, result: Json)
    requires Checksums(work, result).Ok?
    ensures AreChecksums(Checksums(work, result).value) && Checksums(work, result).value.Keys <= {WORK, RESULT}
  {
    hide HashText;
    if work != Null && result != Null {
      HashCanonical(HashText(work, 8).value, 8);
      HashCanonical(HashText(result, 8).value, 8);
    }
  }

  lemma KatsShape(metadata: Fields)
    requires RecordKats(metadata).Ok?
    ensures RecordKats(metadata).value == Kats(metadata) && KatHolds(Obj(Kats(metadata)))
    ensures NormalizeKat(Obj(Kats(metadata))) == Ok(Obj(Kats(metadata)))
  {
    hide KatHolds, NormalizeKat;
    NormalizesExactly(Obj(Kats(metadata)));
  }

  lemma AllHashesShape(frame: string, checksums: Fields, kats: Fields)
    requires HashText(Str(frame), 16).Ok? && AreChecksums(checksums) && checksums.Keys <= {WORK, RESULT}
    requires NormalizeKat(Obj(kats)).Ok?
    ensures
      var h := AllHashes(frame, checksums, kats);
      HashText(Get(h, FRAMEBUFFER), 16).Ok? && AreChecksums(h) && h.Keys <= {FRAMEBUFFER, WORK, RESULT, KATS} &&
      (KATS in h ==> AreKats(h[KATS]))
  {
    hide HashText, NormalizeKat;
  }

  lemma KeptIsValid(h: Fields, excluded: set<string>)
    requires HashText(Get(h, FRAMEBUFFER), 16).Ok? && AreChecksums(h) && h.Keys <= {FRAMEBUFFER, WORK, RESULT, KATS}
    requires KATS in h ==> AreKats(h[KATS])
    ensures AreHashes(Kept(h, excluded), excluded)
  {
    hide HashText, NormalizeKat, AreKats, KeptKats;
    var kept := Kept(h, excluded);
    assert WORK in kept <==> WORK in h;
    assert RESULT in kept <==> RESULT in h;
    assert kept.Keys <= h.Keys;
    if KATS in h {
      KeptKatsAreValid(h[KATS], excluded);
    }
    forall o | o in excluded && StartsWith(o, KATS_PREFIX) ensures o[|KATS_PREFIX|..] !in KatNames(kept) {
      PrefixedName(o, o[5..]);
      if KATS in h {
        ExcludedIsDropped(h[KATS].fields, excluded, o[5..]);
      }
    }
  }

  lemma ExcludedIsDropped(kats: Fields, excluded: set<string>, name: string)
    requires Observation(name) in excluded
    ensures name !in KeptKats(kats, excluded)
  {
  }

  lemma KeptKatsAreValid(kats: Json, excluded: set<string>)
    requires AreKats(kats)
    ensures kats.Obj? && kats.fields != map[]
    ensures KeptKats(kats.fields, excluded) != map[] ==> AreKats(Obj(KeptKats(kats.fields, excluded)))
  {
    hide Observation;
    NormalizesExactly(kats);
    var dropped := set k | k in kats.fields && Observation(k) in excluded;
    assert KeptKats(kats.fields, excluded) == kats.fields - dropped;
    KatsSurviveRemoval(kats.fields, dropped);
    NormalizesExactly(Obj(kats.fields - dropped));
  }

  lemma EligibleIsValid(record: Fields)
    requires EligibleHashes(record).Ok?
    ensures
      var (hashes, policy) := EligibleHashes(record).value;
      IsText(Get(record, "name")) && (policy.Some? ==> IsPolicy(PolicyJson(policy.value))) &&
      AreHashes(hashes, if policy.None? then {} else ExcludedBy(PolicyJson(policy.value)))
  {
    hide RecordHashes, RecordPolicy, AreHashes, IsPolicy, Kept, PolicyJson, ExcludedBy, HashText, AreChecksums, AreKats;
    RecordHashesShape(record);
    var all := RecordHashes(record).value;
    var policy := RecordPolicy(record).value;
    if policy.None? {
      HashesWellFormed(record);
      NothingExcluded(all);
      KeptIsValid(all, {});
    } else {
      PolicyIsValid(record);
      assert (set o | o in policy.value.excluded) == Elements(policy.value.excluded);
      KeptIsValid(all, Elements(policy.value.excluded));
    }
  }

  lemma ItemParts(testId: Json, contract: Fields, hashes: Fields, policy: Option<Policy>, internal: Option<Fields>)
    ensures Item(testId, contract, hashes, policy, internal).Obj?
    ensures
      var f := Item(testId, contract, hashes, policy, internal).fields;
      Get(f, "test_id") == testId && Get(f, "contract") == Obj(contract) && Get(f, "hashes") == Obj(hashes) &&
      Get(f, "comparison_policy") == (if policy.None? then Null else PolicyJson(policy.value)) &&
      Get(f, "internal_oracle") == if internal.None? then Null else Obj(internal.value)
  {
    hide PolicyJson;
  }

  lemma ItemIsRecord(record: Fields)
    requires NormalizedItem(record).Ok?
    ensures IsRecord(NormalizedItem(record).value)
  {
    hide EligibleHashes, RecordContract, RecordInternalOracle, Item, IsContract, IsInternal, AreHashes, IsPolicy,
         ExcludedBy, PolicyJson;
    EligibleIsValid(record);
    ContractIsValid(record);
    var internal := RecordInternalOracle(record).value;
    if internal.Some? {
      InternalIsValid(record);
    }
    var eligible := EligibleHashes(record).value;
    ItemParts(Get(record, "name"), RecordContract(record).value, eligible.0, eligible.1, internal);
    NoPolicyExcludes();
    if eligible.1.Some? {
      PolicyIsObject(eligible.1.value);
    }
  }

  lemma NoPolicyExcludes()
    ensures ExcludedBy(Null) == {}
  {
  }

  lemma PolicyIsObject(policy: Policy)
    ensures PolicyJson(policy).Obj?
  {
  }

  // ----- a built report validates -----

  lemma {:induction false} ItemsAre(records: seq<Fields>)
    requires Items(records).Ok?
    ensures |Items(records).value| == |records|
    ensures forall i | 0 <= i < |records| :: NormalizedItem(records[i]) == Ok(Items(records).value[i])
    decreases |records|
  {
    hide NormalizedItem;
    if records != [] {
      var front := records[..|records| - 1];
      ItemsAre(front);
      assert forall i | 0 <= i < |front| :: records[i] == front[i];
    }
  }

  lemma {:induction false} ItemsExist(records: seq<Fields>)
    requires forall i | 0 <= i < |records| :: NormalizedItem(records[i]).Ok?
    ensures Items(records).Ok?
    decreases |records|
  {
    hide NormalizedItem;
    if records != [] {
      ItemsExist(records[..|records| - 1]);
    }
  }

  /** The source's size comparison finds a duplicate exactly when two identities are equal. */
  lemma DuplicatesCounted(codec: Codec, items: seq<Json>)
    ensures |IdentitySet(codec, items)| == |items| <==> Distinct(Identities(codec, items))
  {
    hide Identity;
    var identities := Identities(codec, items);
    assert IdentitySet(codec, items) == Elements(identities) by {
      forall item | item in items ensures Identity(codec, item) in identities {
        var i :| 0 <= i < |items| && items[i] == item;
        assert identities[i] == Identity(codec, item);
      }
    }
    CountDistinct(identities);
  }

  lemma NormalizedAreValid(codec: Codec, records: seq<Fields>)
    requires NormalizedRecords(codec, records).Ok? && records != []
    ensures ValidRecords(codec, Arr(NormalizedRecords(codec, records).value))
  {
    hide NormalizedItem, IsRecord, Identity, Sort, Items;
    var items := Items(records).value;
    var sorted := NormalizedRecords(codec, records).value;
    ItemsAre(records);
    SameElements(sorted, items);
    IdentitySetOf(codec, sorted, items);
    DuplicatesCounted(codec, sorted);
    forall i | 0 <= i < |sorted| ensures IsRecord(sorted[i]) {
      assert sorted[i] in Elements(items);
      var k :| 0 <= k < |items| && items[k] == sorted[i];
      ItemIsRecord(records[k]);
    }
  }

  /** A seal over valid records validates. */
  lemma SealIsValid(codec: Codec, guest: string, job: string, records: Json, inputs: Inputs)
    requires codec.Valid() && IsHex(guest, 64) && IsHex(job, 64) && ValidRecords(codec, records)
    requires IsSource(inputs.sourceType) && IsText(inputs.sourceBackend) && IsText(inputs.observationId)
    ensures ValidReport(codec, Seal(codec, guest, job, records, inputs))
  {
    hide HashText, ValidRecords, Stable, Observed;
    var report := Seal(codec, guest, job, records, inputs);
    HashCanonical(guest, 64);
    HashCanonical(job, 64);
    HashCanonical(report.functionalId.s, 64);
    HashCanonical(report.reportId.s, 64);
  }

  /** Every non-empty report `build_report` returns is accepted by `_validate_report_shape`. */
  lemma BuiltReportIsValid(codec: Codec, records: seq<Fields>, inputs: Inputs)
    requires codec.Valid() && records != [] && BuildReport(codec, records, inputs).Ok?
    ensures ValidReport(codec, BuildReport(codec, records, inputs).value)
  {
    hide NormalizedRecords, ValidRecords, Seal, ValidReport;
    NormalizedAreValid(codec, records);
    SealIsValid(codec, HashText(inputs.guestImage, 64).value, codec.Hash(inputs.jobConfig),
                Arr(NormalizedRecords(codec, records).value), inputs);
  }

  /** The seal is over the canonical hash, so any other spelling of the image hash validates as well. */
  lemma RespelledIsValid(codec: Codec, r: Report, guestImage: Json)
    requires ValidReport(codec, r) && HashText(guestImage, 64) == HashText(r.guestImage, 64)
    ensures ValidReport(codec, r.(guestImage := guestImage))
  {
    hide HashText, ValidRecords, Stable, Observed;
  }

  // ----- the order of the guest records -----

  /** The sort key orders records whose test is text; equal keys mean equal identities. */
  lemma KeysAreOrdered(codec: Codec, s: set<Json>)
    requires codec.Valid() && forall r | r in s :: r.Obj? && Get(r.fields, "test_id").Str?
    requires forall a, b | a in s && b in s :: Identity(codec, a) == Identity(codec, b) ==> a == b
    ensures TotalOn(ByKey(codec), s)
  {
    hide StringLeq, IdentityOf;
    forall a, b | a in s && b in s ensures KeyLeq(codec, a, b) || KeyLeq(codec, b, a) {
      KeyTotal(codec, a, b);
    }
    forall a, b | a in s && b in s && KeyLeq(codec, a, b) && KeyLeq(codec, b, a) ensures a == b {
      StringLeqAntisymmetric(a.fields["test_id"].s, b.fields["test_id"].s);
      StringLeqAntisymmetric(codec.canonical(Get(a.fields, "contract")), codec.canonical(Get(b.fields, "contract")));
    }
    forall a, b, c | a in s && b in s && c in s && KeyLeq(codec, a, b) && KeyLeq(codec, b, c)
      ensures KeyLeq(codec, a, c) {
      KeyTransitive(codec, a, b, c);
    }
  }

  lemma KeyTotal(codec: Codec, a: Json, b: Json)
    requires a.Obj? && b.Obj? && Get(a.fields, "test_id").Str? && Get(b.fields, "test_id").Str?
    ensures KeyLeq(codec, a, b) || KeyLeq(codec, b, a)
  {
    hide StringLeq;
    StringLeqTotal(a.fields["test_id"].s, b.fields["test_id"].s);
    StringLeqTotal(codec.canonical(Get(a.fields, "contract")), codec.canonical(Get(b.fields, "contract")));
  }

  lemma KeyTransitive(codec: Codec, a: Json, b: Json, c: Json)
    requires KeyLeq(codec, a, b) && KeyLeq(codec, b, c)
    ensures KeyLeq(codec, a, c)
  {
    hide StringLeq;
    var x, y, z := a.fields["test_id"].s, b.fields["test_id"].s, c.fields["test_id"].s;
    StringLeqTransitive(x, y, z);
    if x == z {
      StringLeqAntisymmetric(x, y);
      StringLeqTransitive(codec.canonical(Get(a.fields, "contract")), codec.canonical(Get(b.fields, "contract")),
                          codec.canonical(Get(c.fields, "contract")));
    }
  }

  /** Items with distinct identities, in one order or another, sort to the same list. */
  lemma SortedItemsUnique(codec: Codec, a: seq<Json>, b: seq<Json>)
    requires codec.Valid() && Elements(a) == Elements(b)
    requires forall r | r in a :: r.Obj? && Get(r.fields, "test_id").Str?
    requires Distinct(Identities(codec, a)) && Distinct(Identities(codec, b))
    ensures Sort(ByKey(codec), a) == Sort(ByKey(codec), b)
  {
    hide Sort, KeyLeq, Identity;
    var leq := ByKey(codec);
    assert forall r :: r in a <==> r in Elements(a);
    forall x, y | x in Elements(a) && y in Elements(a) && Identity(codec, x) == Identity(codec, y) ensures x == y {
      IdentityDetermines(codec, a, x, y);
    }
    KeysAreOrdered(codec, Elements(a));
    SortSorts(leq, a);
    SortSorts(leq, b);
    SortedDistinct(codec, a);
    SortedDistinct(codec, b);
    SameElements(Sort(leq, a), a);
    SameElements(Sort(leq, b), b);
    SortedUnique(leq, Sort(leq, a), Sort(leq, b));
  }

  lemma IdentityDetermines(codec: Codec, items: seq<Json>, x: Json, y: Json)
    requires Distinct(Identities(codec, items)) && x in items && y in items
    requires Identity(codec, x) == Identity(codec, y)
    ensures x == y
  {
    hide Identity;
    var i :| 0 <= i < |items| && items[i] == x;
    var j :| 0 <= j < |items| && items[j] == y;
    assert Identities(codec, items)[i] == Identities(codec, items)[j];
  }

  lemma SortedDistinct(codec: Codec, items: seq<Json>)
    requires Distinct(Identities(codec, items))
    ensures Distinct(Sort(ByKey(codec), items))
  {
    hide Identity, Sort;
    forall i, j | 0 <= i < j < |items| ensures items[i] != items[j] {
      assert Identities(codec, items)[i] != Identities(codec, items)[j];
    }
    CountDistinct(items);
    SameElements(Sort(ByKey(codec), items), items);
    CountDistinct(Sort(ByKey(codec), items));
  }

  /** The order in which the guest wrote its records leaves the whole report unchanged. */
  lemma RecordOrderIrrelevant(codec: Codec, a: seq<Fields>, b: seq<Fields>, inputs: Inputs)
    requires codec.Valid() && multiset(a) == multiset(b) && BuildReport(codec, a, inputs).Ok?
    ensures BuildReport(codec, b, inputs) == BuildReport(codec, a, inputs)
  {
    hide NormalizedItem, Sort, Identity, HashText, Seal, Items;
    SameElements(a, b);
    ItemsAre(a);
    forall i | 0 <= i < |b| ensures NormalizedItem(b[i]).Ok? {
      assert b[i] in Elements(a);
    }
    ItemsExist(b);
    ItemsAre(b);
    var x, y := Items(a).value, Items(b).value;
    SameItems(a, b);
    SameItems(b, a);
    assert Elements(x) == Elements(y);
    IdentitySetOf(codec, x, y);
    DuplicatesCounted(codec, x);
    DuplicatesCounted(codec, y);
    forall r | r in x ensures r.Obj? && Get(r.fields, "test_id").Str? {
      var i :| 0 <= i < |x| && x[i] == r;
      ItemIsRecord(a[i]);
    }
    SortedItemsUnique(codec, x, y);
  }

  lemma SameItems(a: seq<Fields>, b: seq<Fields>)
    requires Items(a).Ok? && Items(b).Ok? && Elements(a) == Elements(b)
    ensures forall r | r in Items(a).value :: r in Items(b).value
  {
    hide NormalizedItem, Items;
    ItemsAre(a);
    ItemsAre(b);
    forall r | r in Items(a).value ensures r in Items(b).value {
      var i :| 0 <= i < |a| && Items(a).value[i] == r;
      assert a[i] in Elements(b);
      var j :| 0 <= j < |b| && b[j] == a[i];
      assert Items(b).value[j] == r;
    }
  }
}
