/** Which records and reports are valid and what a built report holds, in words. */
module ReportMeaning {
  import opened HashMeaning
  import opened JsonTree
  import opened Lists
  import opened OracleRecords
  import opened OracleReport
  import opened RecordMeaning
  import opened ReportSealing
  import opened Seals
  import opened Sorting
  import opened Text

  // ----- a normalized record -----

  ghost predicate ContractStands(c: Fields) {
    (c.Keys == {"iterations", "sample_count", "measurement_iterations_multiplier", "warmup_iterations",
                "gpu_completion_mode"} ||
     c.Keys == {"iterations", "sample_count", "measurement_iterations_multiplier", "warmup_iterations",
                "gpu_completion_mode", "stage_order"}) &&
    NonNegative(Member(c, "iterations")) && NonNegative(Member(c, "sample_count")) &&
    NonNegative(Member(c, "measurement_iterations_multiplier")) && NonNegative(Member(c, "warmup_iterations")) &&
    NonEmptyText(Member(c, "gpu_completion_mode")) && ("stage_order" in c ==> StagesStand(c["stage_order"]))
  }

  ghost predicate StagesStand(order: Json) {
    order.Arr? && order.items != [] && forall i | 0 <= i < |order.items| :: NonEmptyText(order.items[i])
  }

  lemma ContractStandsExactly(c: Fields)
    ensures IsContract(c) <==> ContractStands(c)
  {
    hide IsStageOrder, StagesStand;
    forall v: Json ensures IsStageOrder(v) <==> StagesStand(v) {
      StagesExactly(v);
    }
    assert FIXED_FIELDS + {STAGES} == {"iterations", "sample_count", "measurement_iterations_multiplier",
                                       "warmup_iterations", "gpu_completion_mode", "stage_order"};
  }

  lemma StagesExactly(v: Json)
    ensures IsStageOrder(v) <==> StagesStand(v)
  {
  }

  /** The frame or a named known answer. */
  ghost predicate Observes(v: Json) {
    v == Str("framebuffer_fnv1a64") || exists name: string :: name != "" && v == Str("kats." + name)
  }

  lemma ObservesExactly(v: Json)
    ensures IsObservation(v) <==> Observes(v)
  {
    hide StartsWith;
    if v.Str? {
      StartsInWords(v.s, "kats.");
    }
  }

  ghost predicate PolicyStands(p: Json) {
    p.Obj? && p.fields.Keys == {"excluded_observations", "reason"} && NonEmptyText(p.fields["reason"]) &&
    var excluded := p.fields["excluded_observations"];
    excluded.Arr? && excluded.items != [] && forall i | 0 <= i < |excluded.items| :: Observes(excluded.items[i])
  }

  lemma PolicyStandsExactly(p: Json)
    ensures IsPolicy(p) <==> PolicyStands(p)
  {
    hide IsObservation, Observes;
    forall v: Json ensures IsObservation(v) <==> Observes(v) {
      ObservesExactly(v);
    }
  }

  /** The observations a policy excludes, as the policy lists them. */
  function ExcludedItems(p: Json): seq<Json> {
    if p.Obj? && Member(p.fields, "excluded_observations").Arr? then p.fields["excluded_observations"].items else []
  }

  lemma ExcludedItemsExactly(p: Json, o: string)
    ensures o in ExcludedBy(p) <==> Str(o) in ExcludedItems(p)
  {
    if Str(o) in ExcludedItems(p) {
      var i :| 0 <= i < |ExcludedItems(p)| && ExcludedItems(p)[i] == Str(o);
      assert p.fields["excluded_observations"].items[i].s == o;
    }
  }

  ghost predicate AnswersStand(kats: Json, excluded: seq<Json>) {
    kats.Obj? && kats.fields != map[] && AnswersHold(kats) &&
    forall name | name in kats.fields :: Str("kats." + name) !in excluded
  }

  ghost predicate HashesStand(h: Fields, excluded: seq<Json>) {
    (if Str("framebuffer_fnv1a64") in excluded then "framebuffer_fnv1a64" !in h
     else Canonical(Member(h, "framebuffer_fnv1a64"), 16) != Null) &&
    ("work_checksum" in h <==> "result_checksum" in h) &&
    ("work_checksum" in h ==> Canonical(h["work_checksum"], 8) != Null && Canonical(h["result_checksum"], 8) != Null) &&
    h.Keys <= {"framebuffer_fnv1a64", "work_checksum", "result_checksum", "kats"} &&
    ("kats" in h ==> AnswersStand(h["kats"], excluded))
  }

  /** No excluded answer is kept. */
  lemma ExcludedAnswers(names: set<string>, excluded: set<string>)
    ensures (forall o | o in excluded :: StartsWith(o, KATS_PREFIX) ==> o[5..] !in names) <==>
            forall name | name in names :: "kats." + name !in excluded
  {
    if forall o | o in excluded :: StartsWith(o, KATS_PREFIX) ==> o[5..] !in names {
      forall name | name in names ensures "kats." + name !in excluded {
        StartsInWords("kats." + name, KATS_PREFIX);
        assert ("kats." + name)[5..] == name;
      }
    }
    if forall name | name in names :: "kats." + name !in excluded {
      forall o | o in excluded && StartsWith(o, KATS_PREFIX) ensures o[5..] !in names {
        StartsInWords(o, KATS_PREFIX);
        assert o == "kats." + o[5..];
      }
    }
  }

  lemma AnswersStandExactly(h: Fields, p: Json)
    requires "kats" in h
    ensures AreKats(h["kats"]) &&
            (forall o | o in ExcludedBy(p) :: StartsWith(o, KATS_PREFIX) ==> o[5..] !in KatNames(h)) <==>
            AnswersStand(h["kats"], ExcludedItems(p))
  {
    hide NormalizeKat, KatHolds, AnswersHold, ExcludedBy, ExcludedItems, StartsWith;
    NormalizesExactly(h["kats"]);
    AnswersInWords(h["kats"]);
    if h["kats"].Obj? {
      ExcludedAnswers(h["kats"].fields.Keys, ExcludedBy(p));
      forall name: string ensures "kats." + name in ExcludedBy(p) <==> Str("kats." + name) in ExcludedItems(p) {
        ExcludedItemsExactly(p, "kats." + name);
      }
    }
  }

  lemma HashesStandExactly(h: Fields, p: Json)
    ensures AreHashes(h, ExcludedBy(p)) <==> HashesStand(h, ExcludedItems(p))
  {
    hide HashText, AreKats, AnswersStand, ExcludedBy, ExcludedItems, StartsWith;
    ExcludedItemsExactly(p, "framebuffer_fnv1a64");
    if "kats" in h {
      AnswersStandExactly(h, p);
    }
  }

  ghost predicate InternalStands(v: Json) {
    v.Obj? && (Member(v.fields, "status") == Str("PASS") || Member(v.fields, "status") == Str("FAIL")) &&
    ("failure_count" in v.fields ==> NonNegative(v.fields["failure_count"])) &&
    ("provenance" in v.fields ==> NonEmptyText(v.fields["provenance"])) &&
    ("failure_reason" in v.fields ==> NonEmptyText(v.fields["failure_reason"]))
  }

  ghost predicate RecordStands(r: Json) {
    r.Obj? && NonEmptyText(Member(r.fields, "test_id")) && Member(r.fields, "contract").Obj? &&
    Member(r.fields, "hashes").Obj? && ContractStands(r.fields["contract"].fields) &&
    var policy, internal := Member(r.fields, "comparison_policy"), Member(r.fields, "internal_oracle");
    (policy == Null || PolicyStands(policy)) && HashesStand(r.fields["hashes"].fields, ExcludedItems(policy)) &&
    (internal == Null || InternalStands(internal))
  }

  lemma RecordStandsExactly(r: Json)
    ensures IsRecord(r) <==> RecordStands(r)
  {
    hide IsContract, IsPolicy, AreHashes, ContractStands, PolicyStands, HashesStand, ExcludedBy, ExcludedItems;
    if r.Obj? && Member(r.fields, "contract").Obj? && Member(r.fields, "hashes").Obj? {
      ContractStandsExactly(r.fields["contract"].fields);
      PolicyStandsExactly(Member(r.fields, "comparison_policy"));
      HashesStandExactly(r.fields["hashes"].fields, Member(r.fields, "comparison_policy"));
    }
  }

  // ----- the records of a report -----

  function TestOf(r: Json): Json {
    if r.Obj? then Member(r.fields, "test_id") else Null
  }

  function ContractIn(r: Json): Json {
    if r.Obj? then Member(r.fields, "contract") else Null
  }

  /** The two records are the same test under the same contract. */
  predicate SameTest(a: Json, b: Json) {
    TestOf(a) == TestOf(b) && ContractIn(a) == ContractIn(b)
  }

  ghost predicate TestsDiffer(items: seq<Json>) {
    forall i, j | 0 <= i < j < |items| :: !SameTest(items[i], items[j])
  }

  lemma SameIdentity(codec: Codec, a: Json, b: Json)
    requires codec.Valid() && a.Obj? && b.Obj?
    ensures Identity(codec, a) == Identity(codec, b) <==> SameTest(a, b)
  {
    var x := map["test_id" := TestOf(a), "contract" := ContractIn(a)];
    var y := map["test_id" := TestOf(b), "contract" := ContractIn(b)];
    assert Identity(codec, a) == codec.canonical(Obj(x)) && Identity(codec, b) == codec.canonical(Obj(y));
    assert x["test_id"] == TestOf(a) && x["contract"] == ContractIn(a);
    assert y["test_id"] == TestOf(b) && y["contract"] == ContractIn(b);
  }

  lemma DistinctIdentities(codec: Codec, items: seq<Json>)
    requires codec.Valid() && forall i | 0 <= i < |items| :: items[i].Obj?
    ensures Distinct(Identities(codec, items)) <==> TestsDiffer(items)
  {
    hide Identity, SameTest;
    forall i, j | 0 <= i < j < |items|
      ensures Identities(codec, items)[i] == Identities(codec, items)[j] <==> SameTest(items[i], items[j]) {
      SameIdentity(codec, items[i], items[j]);
    }
  }

  ghost predicate RecordsStand(records: Json) {
    records.Arr? && records.items != [] && (forall i | 0 <= i < |records.items| :: RecordStands(records.items[i])) &&
    TestsDiffer(records.items)
  }

  /** Accepted are the non-empty lists of well-formed records of different tests or contracts. */
  lemma RecordsStandExactly(codec: Codec, records: Json)
    requires codec.Valid()
    ensures ValidRecords(codec, records) <==> RecordsStand(records)
  {
    hide IsRecord, RecordStands, Identities, TestsDiffer;
    if records.Arr? {
      forall i | 0 <= i < |records.items| ensures IsRecord(records.items[i]) <==> RecordStands(records.items[i]) {
        RecordStandsExactly(records.items[i]);
      }
      if forall i | 0 <= i < |records.items| :: IsRecord(records.items[i]) {
        forall i | 0 <= i < |records.items| ensures records.items[i].Obj? {
          RecordIsObject(records.items[i]);
        }
        DistinctIdentities(codec, records.items);
      }
    }
  }

  lemma RecordIsObject(r: Json)
    requires IsRecord(r)
    ensures r.Obj? && NonEmptyText(TestOf(r))
  {
    hide IsContract, IsPolicy, AreHashes;
  }

  // ----- a report -----

  ghost predicate ReportStands(codec: Codec, r: Report) {
    r.schemaVersion in {Int(1), Whole(1), Bool(true)} && r.kind == Str("xemu_functional_hash_report") &&
    Normal(r.guestImage) != Null && Normal(r.job) != Null && NonEmptyText(r.observationId) &&
    (r.sourceType == Str("XEMU") || r.sourceType == Str("RETAIL_XBOX")) && NonEmptyText(r.sourceBackend) &&
    r.provenance == Null && RecordsStand(r.records) &&
    Normal(r.functionalId) == Str(codec.sha256(codec.canonical(Obj(BehaviourFields(BehaviourOf(r)))))) &&
    Normal(r.reportId) == Str(codec.sha256(codec.canonical(Obj(SightingFields(SightingOf(r))))))
  }

  /** A report is valid exactly when its members are, its records differ and both identifiers are the digests. */
  lemma ReportStandsExactly(codec: Codec, r: Report)
    requires codec.Valid()
    ensures ValidReport(codec, r) <==> ReportStands(codec, r)
  {
    hide HashText, ValidRecords, RecordsStand;
    RecordsStandExactly(codec, r.records);
  }

  // ----- building a report -----

  ghost predicate InputsStand(inputs: Inputs) {
    Normal(inputs.guestImage) != Null && (inputs.sourceType == Str("XEMU") || inputs.sourceType == Str("RETAIL_XBOX")) &&
    NonEmptyText(inputs.sourceBackend) && NonEmptyText(inputs.observationId)
  }

  /** The values Python counts as false. */
  predicate Falsy(v: Json) {
    v in {Null, Bool(false), Int(0), Whole(0), Str(""), Arr([]), Obj(map[])}
  }

  lemma NullForFalsy(v: Json)
    ensures OrNone(v) == if Falsy(v) then Null else v
  {
  }

  /** Tests in the order of their ids, and one test in the order of the texts of its contracts. */
  predicate InOrder(codec: Codec, a: Json, b: Json) {
    TestOf(a).Str? && TestOf(b).Str? &&
    if TestOf(a) == TestOf(b) then StringLeq(codec.canonical(ContractIn(a)), codec.canonical(ContractIn(b)))
    else StringLeq(TestOf(a).s, TestOf(b).s)
  }

  lemma InOrderExactly(codec: Codec, a: Json, b: Json)
    ensures KeyLeq(codec, a, b) ==> InOrder(codec, a, b)
  {
    hide StringLeq;
  }

  ghost predicate AllNormalize(records: seq<Fields>) {
    forall i | 0 <= i < |records| :: NormalizedItem(records[i]).Ok?
  }

  /** The first record that fails decides the error. */
  lemma {:induction false} FirstError(records: seq<Fields>) returns (first: nat)
    requires !AllNormalize(records)
    ensures first < |records| && AllNormalize(records[..first])
    ensures NormalizedItem(records[first]).Err? && Items(records) == Err(NormalizedItem(records[first]).error)
    decreases |records|
  {
    hide NormalizedItem;
    var front := records[..|records| - 1];
    if AllNormalize(front) {
      ItemsExist(front);
      first := |records| - 1;
      forall i | 0 <= i < first ensures NormalizedItem(records[i]).Ok? {
        assert front[i] == records[i];
      }
    } else {
      first := FirstError(front);
      assert front[..first] == records[..first];
    }
  }

  function ItemsOf(records: seq<Fields>): seq<Json> {
    seq(|records|, i requires 0 <= i < |records| =>
      var item := NormalizedItem(records[i]); if item.Ok? then item.value else Null)
  }

  lemma ItemsInWords(records: seq<Fields>)
    requires AllNormalize(records)
    ensures Items(records) == Ok(ItemsOf(records))
    ensures forall i | 0 <= i < |records| :: ItemsOf(records)[i].Obj? && NonEmptyText(TestOf(ItemsOf(records)[i]))
  {
    hide NormalizedItem;
    ItemsExist(records);
    ItemsAre(records);
    assert Items(records).value == ItemsOf(records);
    forall i | 0 <= i < |records| ensures ItemsOf(records)[i].Obj? && NonEmptyText(TestOf(ItemsOf(records)[i])) {
      ItemIsRecord(records[i]);
      RecordIsObject(ItemsOf(records)[i]);
    }
  }

  ghost predicate ListedInOrder(codec: Codec, items: seq<Json>) {
    forall i, j | 0 <= i < j < |items| :: InOrder(codec, items[i], items[j])
  }

  lemma SortedInOrder(codec: Codec, items: seq<Json>)
    requires codec.Valid() && forall i | 0 <= i < |items| :: items[i].Obj? && TestOf(items[i]).Str?
    requires Distinct(Identities(codec, items))
    ensures ListedInOrder(codec, Sort(ByKey(codec), items))
  {
    hide KeyLeq, Identity, Sort, InOrder;
    forall x, y | x in Elements(items) && y in Elements(items) && Identity(codec, x) == Identity(codec, y) ensures x == y {
      IdentityDetermines(codec, items, x, y);
    }
    KeysAreOrdered(codec, Elements(items));
    SortSorts(ByKey(codec), items);
    var sorted := Sort(ByKey(codec), items);
    forall i, j | 0 <= i < j < |sorted| ensures InOrder(codec, sorted[i], sorted[j]) {
      InOrderExactly(codec, sorted[i], sorted[j]);
    }
  }

  /** What the guest records become: normalized, all different, in order; or the first error met. */
  lemma NormalizedInWords(codec: Codec, records: seq<Fields>)
    requires codec.Valid()
    ensures
      var r := NormalizedRecords(codec, records);
      (!AllNormalize(records) ==>
         exists first | 0 <= first < |records| ::
           AllNormalize(records[..first]) && NormalizedItem(records[first]).Err? &&
           r == Err(NormalizedItem(records[first]).error)) &&
      (AllNormalize(records) && !TestsDiffer(ItemsOf(records)) ==> r == Err(Invalid)) &&
      (AllNormalize(records) && TestsDiffer(ItemsOf(records)) ==>
         r.Ok? && multiset(r.value) == multiset(ItemsOf(records)) && ListedInOrder(codec, r.value))
  {
    hide NormalizedItem, TestsDiffer, IdentitySet, Identities, Sort, ListedInOrder, Items;
    if AllNormalize(records) {
      ItemsInWords(records);
      DistinctIdentities(codec, ItemsOf(records));
      DuplicatesCounted(codec, ItemsOf(records));
      if TestsDiffer(ItemsOf(records)) {
        SortedInOrder(codec, ItemsOf(records));
      }
    } else {
      var first := FirstError(records);
    }
  }

  /** What a report holds that is built from the inputs and the normalized records. */
  ghost predicate HoldsInputs(codec: Codec, r: Report, inputs: Inputs) {
    r.schemaVersion == Int(1) && r.kind == Str("xemu_functional_hash_report") && r.provenance == Null &&
    r.sourceType == inputs.sourceType && r.sourceBackend == inputs.sourceBackend &&
    r.guestImage == Normal(inputs.guestImage) && r.job == Str(codec.sha256(codec.canonical(inputs.jobConfig))) &&
    r.observationId == inputs.observationId && r.surfaceScale == inputs.surfaceScale &&
    r.build == (if Falsy(inputs.build) then Null else inputs.build) &&
    r.hardware == (if Falsy(inputs.hardware) then Null else inputs.hardware) &&
    r.functionalId == Str(codec.sha256(codec.canonical(Obj(BehaviourFields(BehaviourOf(r)))))) &&
    r.reportId == Str(codec.sha256(codec.canonical(Obj(SightingFields(SightingOf(r))))))
  }

  lemma SealHoldsInputs(codec: Codec, guest: string, records: Json, inputs: Inputs)
    requires codec.Valid() && HashText(inputs.guestImage, 64) == Ok(guest)
    ensures HoldsInputs(codec, Seal(codec, guest, codec.Hash(inputs.jobConfig), records, inputs), inputs)
  {
    hide HashText, OrNone, Falsy, IsHex;
    NullForFalsy(inputs.build);
    NullForFalsy(inputs.hardware);
    var job := codec.Hash(inputs.jobConfig);
    var r := Seal(codec, guest, job, records, inputs);
    HashOfHash(inputs.guestImage, 64);
    HashCanonical(job, 64);
    HashCanonical(r.functionalId.s, 64);
  }

  lemma HashOfHash(v: Json, width: nat)
    requires HashText(v, width).Ok?
    ensures HashText(Str(HashText(v, width).value), width) == HashText(v, width)
  {
    HashCanonical(HashText(v, width).value, width);
  }

  /** A report is built exactly from usable inputs and different guest records, and holds what is stated. */
  lemma ReportBuilt(codec: Codec, records: seq<Fields>, inputs: Inputs)
    requires codec.Valid()
    ensures
      var r := BuildReport(codec, records, inputs);
      (!InputsStand(inputs) ==> r == Err(Invalid)) &&
      (InputsStand(inputs) && !AllNormalize(records) ==>
         exists first | 0 <= first < |records| ::
           AllNormalize(records[..first]) && NormalizedItem(records[first]).Err? &&
           r == Err(NormalizedItem(records[first]).error)) &&
      (InputsStand(inputs) && AllNormalize(records) && !TestsDiffer(ItemsOf(records)) ==> r == Err(Invalid)) &&
      (InputsStand(inputs) && AllNormalize(records) && TestsDiffer(ItemsOf(records)) ==>
         r.Ok? && HoldsInputs(codec, r.value, inputs) && r.value.records.Arr? &&
         multiset(r.value.records.items) == multiset(ItemsOf(records)) && ListedInOrder(codec, r.value.records.items))
  {
    hide NormalizedItem, NormalizedRecords, AllNormalize, TestsDiffer, ItemsOf, ListedInOrder, Seal, HoldsInputs, HashText;
    HashErrors();
    NormalizedInWords(codec, records);
    var guest, normalized := HashText(inputs.guestImage, 64), NormalizedRecords(codec, records);
    if InputsStand(inputs) && normalized.Ok? {
      SealHoldsInputs(codec, guest.value, Arr(normalized.value), inputs);
      SealedRecords(codec, guest.value, Arr(normalized.value), inputs);
    }
  }

  lemma SealedRecords(codec: Codec, guest: string, records: Json, inputs: Inputs)
    ensures Seal(codec, guest, codec.Hash(inputs.jobConfig), records, inputs).records == records
  {
  }
}
