/** Inputs on which the oracle protocol falls short of what it promises, and the ledger's counterpart in built reports. */
module OracleFindings {
  import opened CanonicalJson
  import opened ComparisonCrash
  import opened ConsensusSoundness
  import opened DeterminismLedger
  import opened JsonTree
  import opened LedgerConfluence
  import opened LedgerOrder
  import opened Lists
  import opened OracleConsensus
  import opened OracleExample
  import opened OracleRecords
  import opened OracleReport
  import opened ReportSealing
  import opened Text

  // ----- a boolean known answer -----

  function OneKat(value: Json): Fields {
    map["kat" := value]
  }

  /** The guest record of `OracleExample` with one known answer. */
  function KatRecord(value: Json): Fields {
    RECORD + map["metadata" := Obj(OneKat(value))]
  }

  function KatHashes(value: Json): Fields {
    map[FRAMEBUFFER := Str(FRAME), KATS := Obj(OneKat(value))]
  }

  function KatItem(value: Json): Json {
    Item(Str("Suite::test"), CONTRACT, KatHashes(value), None, None)
  }

  predicate IsAnswer(value: Json) {
    value.Bool? || value.Int?
  }

  lemma KatRecordParts(value: Json)
    ensures
      var r := KatRecord(value);
      Get(r, "metadata") == Obj(OneKat(value)) && Get(r, "name") == Str("Suite::test") &&
      Get(r, FRAMEBUFFER) == Str(FRAME) && RecordContract(r) == RecordContract(RECORD)
    ensures OneKat(value).Keys == {"kat"}
  {
    RecordParts();
  }

  lemma OneKatIsKept(value: Json)
    requires IsAnswer(value)
    ensures RecordKats(OneKat(value)) == Ok(OneKat(value))
  {
    assert LowerText("kat") == "kat";
    assert MatchesAt("kat", "kat", 0);
    assert Kats(OneKat(value)) == OneKat(value);
    NormalizesExactly(Obj(OneKat(value)));
    assert KatHolds(Obj(OneKat(value)));
  }

  lemma OneKatHashes(value: Json)
    requires IsAnswer(value)
    ensures MetadataHashes(FRAME, OneKat(value)) == Ok(KatHashes(value))
  {
    hide RecordKats;
    OneKatIsKept(value);
    assert "kat" in OneKat(value);
    assert AllHashes(FRAME, map[], OneKat(value)) == KatHashes(value);
  }

  lemma KatRecordNormalizes(value: Json)
    requires IsAnswer(value)
    ensures NormalizedItem(KatRecord(value)) == Ok(KatItem(value))
  {
    hide HashText, Item, RecordContract, MetadataHashes, RecordKats;
    KatRecordParts(value);
    ZerosAreHex(16);
    HashCanonical(FRAME, 16);
    OneKatHashes(value);
    PlainContract();
    assert RecordPolicy(KatRecord(value)) == Ok(None);
    assert RecordInternalOracle(KatRecord(value)) == Ok(None);
  }

  lemma PlainContract()
    ensures RecordContract(RECORD) == Ok(CONTRACT)
  {
    RecordParts();
  }

  lemma OneKatEquality()
    ensures PyEq(Obj(KatHashes(Bool(true))), Obj(KatHashes(Int(1))))
    ensures KatHashes(Bool(true)) != KatHashes(Int(1))
  {
    var a, b := Obj(OneKat(Bool(true))), Obj(OneKat(Int(1)));
    assert a.fields["kat"] != b.fields["kat"];
    assert Norm(a) == Norm(b);
    assert KatHashes(Bool(true))[KATS] != KatHashes(Int(1))[KATS];
  }

  lemma KatObserved(codec: Codec, value: Json, observation: string)
    requires codec.Valid() && observation != "" && IsAnswer(value)
    ensures
      var r := ReportOf(codec, KatItem(value), observation);
      BuildReport(codec, [KatRecord(value)], InputsOf(observation)) == Ok(r) && IsLedgerReport(codec, r) &&
      r.reportId.Str? && Observations(r) == [Observation(
        Work(Str("vulkan"), Int(1), Str(DIGEST), Str(codec.Hash(Obj(map[]))), Str("Suite::test"), Obj(CONTRACT)),
        Obj(KatHashes(value)), r.reportId)]
  {
    hide ValidReport, IsCanonical, Item, ObservationsIn, Stable, Observed, NormalizedItem, HasFailed, Codec.Valid;
    var r := ReportOf(codec, KatItem(value), observation);
    KatRecordNormalizes(value);
    ReportBuilds(codec, KatRecord(value), KatItem(value), observation);
    ItemParts(Str("Suite::test"), CONTRACT, KatHashes(value), None, None);
    NothingFailed(KatItem(value));
    OneObservation(r, KatItem(value));
  }

  lemma NothingFailed(item: Json)
    requires item.Obj? && Get(item.fields, "internal_oracle") == Null
    ensures !HasFailed(item)
  {
  }

  lemma KatView(codec: Codec, value: Json, observation: string)
    requires codec.Valid() && observation != "" && IsAnswer(value)
    ensures
      var r := ReportOf(codec, KatItem(value), observation);
      IsObservedReport(codec, r) && Views(codec, r) == Ok([KatItem(value)])
  {
    hide IsRecord, NormalizedItem, Item, ValidReport, Seal, ComparisonViews, Codec.Valid, IsCanonical;
    var item := KatItem(value);
    KatRecordNormalizes(value);
    ItemIsRecord(KatRecord(value));
    ReportBuilds(codec, KatRecord(value), item, observation);
    ItemParts(Str("Suite::test"), CONTRACT, KatHashes(value), None, None);
    NoOracleField(KatHashes(value));
    NoDiagnosticRecord();
    OneView(item);
    SealedParts(codec, item, observation);
  }

  lemma NoOracleField(hashes: Fields)
    ensures "internal_oracle" !in Item(Str("Suite::test"), CONTRACT, hashes, None, None).fields
  {
  }

  lemma SealedParts(codec: Codec, item: Json, observation: string)
    ensures
      var r := ReportOf(codec, item, observation);
      r.records == Arr([item]) && r.sourceType == XEMU && r.sourceBackend == Str("vulkan") && r.guestImage == Str(DIGEST)
  {
  }

  lemma ItemsDiffer(a: Fields, b: Fields)
    requires a != b
    ensures Item(Str("Suite::test"), CONTRACT, a, None, None) != Item(Str("Suite::test"), CONTRACT, b, None, None)
  {
    ItemParts(Str("Suite::test"), CONTRACT, a, None, None);
    ItemParts(Str("Suite::test"), CONTRACT, b, None, None);
  }

  /** The first of two reports settles the entry of a work only they observe. */
  lemma FirstOfPair(codec: Codec, a: Report, b: Report, o: Observation, p: Observation)
    requires IsLedgerReport(codec, a) && IsLedgerReport(codec, b) && Observations(a) == [o] && Observations(b) == [p]
    requires PyEq(o.hashes, p.hashes) && o.reportId.Str? && p.reportId.Str?
    ensures Run(codec, map[], [a, b]).Ok? && Key(codec, o) in Run(codec, map[], [a, b]).value
    ensures Run(codec, map[], [a, b]).value[Key(codec, o)].hashes == o.hashes
  {
    hide IsLedgerReport, Observations, Run, Norm, Key, ValidLedger;
    PairRecorded(codec, a, b, o, p);
    assert [a] + [b] == [a, b];
    assert Brings(codec, a, Key(codec, o)) == Some(o);
    FirstReportWins(codec, map[], a, [b], Key(codec, o));
  }

  /**
   * Whatever the digest, two built reports that answer `True` and `1` are both recorded in
   * either order, and the ledger keeps the answer that came first; a consensus tells them
   * apart. Their ids are equal only if the digest of two different texts is.
   */
  lemma BooleanReportsKeepOrder(codec: Codec)
    requires codec.Valid()
    ensures
      var x := BuildReport(codec, [KatRecord(Bool(true))], InputsOf("first"));
      var y := BuildReport(codec, [KatRecord(Int(1))], InputsOf("second"));
      x.Ok? && y.Ok? && Run(codec, map[], [x.value, y.value]).Ok? && Run(codec, map[], [y.value, x.value]).Ok? &&
      Run(codec, map[], [x.value, y.value]) != Run(codec, map[], [y.value, x.value]) &&
      Consensus(codec, [x.value, y.value]).Err? &&
      (x.value.reportId == y.value.reportId ==> exists s, t :: s != t && codec.sha256(s) == codec.sha256(t))
  {
    hide BuildReport, IsLedgerReport, Observations, Run, Norm, ReportOf, KatHashes, KeyOf, Consensus;
    var a, b := ReportOf(codec, KatItem(Bool(true)), "first"), ReportOf(codec, KatItem(Int(1)), "second");
    KatObserved(codec, Bool(true), "first");
    KatObserved(codec, Int(1), "second");
    OneKatEquality();
    var o, p := Observations(a)[0], Observations(b)[0];
    FirstOfPair(codec, a, b, o, p);
    FirstOfPair(codec, b, a, p, o);
    assert Key(codec, o) == Key(codec, p);
    KatsDisagree(codec, a, b);
    IdsCollide(codec, KatItem(Bool(true)), KatItem(Int(1)));
  }

  lemma KatsDisagree(codec: Codec, a: Report, b: Report)
    requires codec.Valid()
    requires a == ReportOf(codec, KatItem(Bool(true)), "first") && b == ReportOf(codec, KatItem(Int(1)), "second")
    ensures Consensus(codec, [a, b]).Err?
  {
    hide Consensus, ReportOf, IsObservedReport, Views, Norm, Item, ReportIds, KatHashes, Codec.Valid;
    KatView(codec, Bool(true), "first");
    KatView(codec, Int(1), "second");
    OneKatEquality();
    ItemsDiffer(KatHashes(Bool(true)), KatHashes(Int(1)));
    assert [KatItem(Bool(true))][0] != [KatItem(Int(1))][0];
    assert a in [a, b] && b in [a, b] && !Agree(codec, a, b);
    ConsensusExactly(codec, [a, b]);
  }

  lemma IdsCollide(codec: Codec, item: Json, other: Json)
    requires codec.Valid()
    ensures ReportOf(codec, item, "first").reportId == ReportOf(codec, other, "second").reportId ==>
              exists s, t :: s != t && codec.sha256(s) == codec.sha256(t)
  {
    hide Stable;
    var f := codec.Hash(Stable(XEMU, Str("vulkan"), DIGEST, codec.Hash(Obj(map[])), Arr([item])));
    var g := codec.Hash(Stable(XEMU, Str("vulkan"), DIGEST, codec.Hash(Obj(map[])), Arr([other])));
    var u, v := Observed(f, Str("first"), Int(1), Null, Null), Observed(g, Str("second"), Int(1), Null, Null);
    assert u.fields["observation_id"] != v.fields["observation_id"];
    assert codec.canonical(u) != codec.canonical(v);
  }

  // ----- an explicit null -----

  /** The item of the example record with its internal oracle as an explicit null. */
  const NULL_ITEM: Json := Obj(ITEM.fields["internal_oracle" := Null])

  lemma NullItemIsRecord()
    ensures IsRecord(NULL_ITEM) && HasNull(NULL_ITEM)
  {
    hide NormalizedItem, Item, IsContract, IsPolicy, AreHashes, ExcludedBy, IsInternal;
    RecordNormalizes();
    ItemIsRecord(RECORD);
    ItemParts(Str("Suite::test"), CONTRACT, map[FRAMEBUFFER := Str(FRAME)], None, None);
    assert NULL_ITEM.fields["internal_oracle"] == Null;
    assert forall k | k in ITEM.fields && k != "internal_oracle" :: NULL_ITEM.fields[k] == ITEM.fields[k];
  }

  /** For every digest there is a valid, sealed report with an explicit null, and comparing it raises. */
  lemma NullOracleCrashes(codec: Codec, observation: string)
    requires codec.Valid() && observation != ""
    ensures
      var r := ReportOf(codec, NULL_ITEM, observation);
      IsObservedReport(codec, r) && CrashesAt(r.records.items, 0) && Views(codec, r) == Err(Crash)
  {
    hide IsRecord, HasNull, ComparisonViews, Identity, Stable, Observed, ValidReport, Codec.Valid;
    var r := ReportOf(codec, NULL_ITEM, observation);
    NullItemIsRecord();
    assert Distinct(Identities(codec, [NULL_ITEM]));
    ZerosAreHex(64);
    HashIsHex(codec, Obj(map[]));
    SealIsValid(codec, DIGEST, codec.Hash(Obj(map[])), Arr([NULL_ITEM]), InputsOf(observation));
    ComparisonCrashesExactly(codec, r);
  }

  lemma HashIsHex(codec: Codec, v: Json)
    requires codec.Valid()
    ensures IsHex(codec.Hash(v), 64)
  {
  }

  // ----- a hash in another spelling -----

  const SPELLED := "0x" + DIGEST

  lemma SpelledHash()
    ensures HashText(Str(SPELLED), 64) == Ok(DIGEST) && !IsCanonicalHash(Str(SPELLED))
  {
    ZerosAreHex(64);
    HexDigits(DIGEST);
    assert Strip(SPELLED) == SPELLED;
    assert LowerText(SPELLED) == SPELLED;
    assert SPELLED[0..2] == "0x";
    assert SPELLED[2..] == DIGEST;
  }

  /** The example report with its image hash spelled with a prefix. */
  function SpelledReport(codec: Codec, observation: string): Report {
    ReportOf(codec, ITEM, observation).(guestImage := Str(SPELLED))
  }

  lemma SpelledCompares(codec: Codec, observation: string)
    requires codec.Valid() && observation != ""
    ensures
      var r := SpelledReport(codec, observation);
      IsObservedReport(codec, r) && Views(codec, r) == Ok([ITEM])
  {
    hide ValidReport, HashText, ComparisonViews, Stable, Observed, Item, Codec.Valid, Observations, ObservationOf,
         SPELLED, DIGEST;
    var r := ReportOf(codec, ITEM, observation);
    ReportCompares(codec, observation);
    SpelledHash();
    ZerosAreHex(64);
    HashCanonical(DIGEST, 64);
    RespelledIsValid(codec, r, Str(SPELLED));
  }

  /** Two agreeing reports with that spelling form a consensus, and it refuses them both. */
  lemma SpelledConsensusRefuses(codec: Codec, r: Report)
    requires codec.Valid() && SpelledReport(codec, "first").reportId != SpelledReport(codec, "second").reportId
    requires r == SpelledReport(codec, "first") || r == SpelledReport(codec, "second")
    ensures
      var consensus := Consensus(codec, [SpelledReport(codec, "first"), SpelledReport(codec, "second")]);
      consensus.Ok? && (NoSealCollision(codec, consensus.value) ==> !Accepts(codec, r, consensus.value))
  {
    hide Consensus, IsObservedReport, Views, NoSealCollision, Accepts, Codec.Valid, Stable, Observed, HashText, IsHex;
    var a, b := SpelledReport(codec, "first"), SpelledReport(codec, "second");
    SpelledCompares(codec, "first");
    SpelledCompares(codec, "second");
    PairAgrees(codec, a, b);
    SpelledHash();
    assert a in [a, b] && !IsCanonical(a);
    if NoSealCollision(codec, Consensus(codec, [a, b]).value) {
      ConsensusAcceptsInputsExactly(codec, [a, b], r);
    }
  }

  /** What the manifest of the two reports seals, with their ids in some order. */
  function Copied(ids: seq<Json>): Json {
    ConsensusStable(Str("vulkan"), Str(SPELLED), Str(DIGEST), Arr([ITEM]), Int(2), Arr(ids))
  }

  /** The values with a digest of their own: one report's seal, and the manifest's for either order of the ids. */
  function Marked(): set<Json> {
    {SealedBy("first"), Copied([Str(DIGEST), Str(Ones())]), Copied([Str(Ones()), Str(DIGEST)])}
  }

  lemma CopiedParts(ids: seq<Json>)
    ensures Copied(ids).fields["guest_image_sha256"] == Str(SPELLED) && Get(Copied(ids).fields, "kind") == MANIFEST_KIND
  {
    hide SPELLED, DIGEST, ITEM;
  }

  lemma NotMarked(v: Json)
    requires v.Obj? && (Get(v.fields, "kind") == REPORT_KIND || v == SealedBy("second") || v == Obj(map[]) ||
                        Get(v.fields, "guest_image_sha256") == Str(DIGEST))
    ensures v !in Marked()
  {
    hide Copied, SPELLED, DIGEST, ITEM;
    CopiedParts([Str(DIGEST), Str(Ones())]);
    CopiedParts([Str(Ones()), Str(DIGEST)]);
    assert "kind" !in SealedBy("first").fields && "guest_image_sha256" !in SealedBy("first").fields;
    assert SealedBy("first").fields["observation_id"] == Str("first");
    assert SealedBy("second").fields["observation_id"] == Str("second");
    SpelledDiffers();
  }

  lemma SpelledDiffers()
    ensures SPELLED != DIGEST
  {
    assert SPELLED[1] == 'x' && DIGEST[1] == '0';
  }

  lemma StableKind(records: Json)
    ensures
      var v := Stable(XEMU, Str("vulkan"), DIGEST, DIGEST, records);
      v.Obj? && Get(v.fields, "kind") == REPORT_KIND
  {
    hide DIGEST;
  }

  lemma MarkedIds()
    ensures
      var codec := JsonCodec(Mark(Marked()));
      SpelledReport(codec, "first").reportId == Str(Ones()) && SpelledReport(codec, "second").reportId == Str(DIGEST) &&
      SpelledReport(codec, "first").job == Str(DIGEST) && Str(Ones()) != Str(DIGEST)
  {
    hide Copied, SealedBy, Stable, Mark, ReportOf, SPELLED;
    StableKind(Arr([ITEM]));
    NotMarked(Stable(XEMU, Str("vulkan"), DIGEST, DIGEST, Arr([ITEM])));
    NotMarked(Obj(map[]));
    SecondIsObject();
    NotMarked(SealedBy("second"));
    ReportIdOf(Marked(), ITEM, "first");
    ReportIdOf(Marked(), ITEM, "second");
    assert Ones()[0] == '1' && DIGEST[0] == '0';
  }

  lemma SecondIsObject()
    ensures SealedBy("second").Obj?
  {
  }

  lemma TwoIds(ids: seq<Json>, x: Json, y: Json)
    requires Distinct(ids) && Elements(ids) == {x, y} && x != y
    ensures ids == [x, y] || ids == [y, x]
  {
    CountDistinct(ids);
    assert |Elements(ids)| == 2;
    assert ids[0] in Elements(ids) && ids[1] in Elements(ids);
  }

  /** With such a digest the manifest's two possible seals differ, so the refusal is real. */
  lemma SpelledExample()
    ensures
      var codec := JsonCodec(Mark(Marked()));
      var a, b := SpelledReport(codec, "first"), SpelledReport(codec, "second");
      var consensus := Consensus(codec, [a, b]);
      codec.Valid() && IsObservedReport(codec, a) && IsObservedReport(codec, b) && consensus.Ok? &&
      NoSealCollision(codec, consensus.value) && !Accepts(codec, a, consensus.value) && !Accepts(codec, b, consensus.value)
  {
    hide JsonCodec, Marked, Mark, SpelledReport, Consensus, IsObservedReport, Views, NoSealCollision, Accepts,
         Codec.Valid, IsCopied;
    var codec := JsonCodec(Mark(Marked()));
    var a, b := SpelledReport(codec, "first"), SpelledReport(codec, "second");
    MarkIsDigest(Marked());
    MarkedIds();
    SpelledCompares(codec, "first");
    SpelledCompares(codec, "second");
    SpelledConsensusRefuses(codec, a);
    SpelledConsensusRefuses(codec, b);
    CopiedManifest(codec);
    SealsTellApart(codec, Consensus(codec, [a, b]).value);
  }

  /** A manifest of these parts was sealed with a marked value, and its normal form is not marked. */
  ghost predicate IsCopied(m: Manifest) {
    m.reportIds.Arr? && m.guestImage == Str(SPELLED) &&
    (m.reportIds.items == [Str(DIGEST), Str(Ones())] || m.reportIds.items == [Str(Ones()), Str(DIGEST)]) &&
    ConsensusStable(m.sourceBackend, m.guestImage, m.job, m.records, m.reportCount, m.reportIds) == Copied(m.reportIds.items)
  }

  lemma CopiedManifest(codec: Codec)
    requires codec == JsonCodec(Mark(Marked()))
    requires Consensus(codec, [SpelledReport(codec, "first"), SpelledReport(codec, "second")]).Ok?
    ensures IsCopied(Consensus(codec, [SpelledReport(codec, "first"), SpelledReport(codec, "second")]).value)
  {
    hide JsonCodec, Marked, Mark, SpelledReport, Consensus, ConsensusStable, SPELLED, DIGEST, ITEM, CanAgree;
    var a, b := SpelledReport(codec, "first"), SpelledReport(codec, "second");
    ConsensusIds(codec, [a, b]);
    ConsensusExactly(codec, [a, b]);
    MarkedIds();
    SpelledParts(codec);
    assert ReportIds([a, b]) == {a.reportId, b.reportId};
    TwoIds(Consensus(codec, [a, b]).value.reportIds.items, Str(Ones()), Str(DIGEST));
  }

  lemma SealsTellApart(codec: Codec, m: Manifest)
    requires codec == JsonCodec(Mark(Marked())) && IsCopied(m)
    ensures NoSealCollision(codec, m)
  {
    hide JsonCodec, Marked, Mark, Copied, ConsensusStable, HashText, SortedHashes, SPELLED, DIGEST, ITEM, AreHashList;
    SpelledHash();
    CopiedIsMarked(m.reportIds.items);
    if HashText(m.job, 64).Ok? && AreHashList(m.reportIds.items) {
      NormalizedNotMarked(m.sourceBackend, Str(HashText(m.job, 64).value), m.records, m.reportCount,
                          Arr(Texts(SortedHashes(m.reportIds.items))));
    }
  }

  lemma SpelledParts(codec: Codec)
    ensures
      var r := SpelledReport(codec, "first");
      r.records == Arr([ITEM]) && r.sourceBackend == Str("vulkan") && r.guestImage == Str(SPELLED)
  {
  }

  lemma CopiedIsMarked(ids: seq<Json>)
    requires ids == [Str(DIGEST), Str(Ones())] || ids == [Str(Ones()), Str(DIGEST)]
    ensures JsonCodec(Mark(Marked())).Hash(Copied(ids)) == Ones()
  {
    hide Copied, Mark, DIGEST;
    MarkTells(Marked(), Copied(ids));
  }

  lemma NormalizedNotMarked(backend: Json, job: Json, records: Json, count: Json, ids: Json)
    ensures
      var v := ConsensusStable(backend, Str(DIGEST), job, records, count, ids);
      JsonCodec(Mark(Marked())).Hash(v) == DIGEST && DIGEST != Ones()
  {
    hide Mark, Marked, DIGEST, ConsensusStable;
    var v := ConsensusStable(backend, Str(DIGEST), job, records, count, ids);
    StableParts(backend, Str(DIGEST), job, records, count, ids);
    StableIsObject(backend, Str(DIGEST), job, records, count, ids);
    NotMarked(v);
    MarkTells(Marked(), v);
    OnesDiffer();
  }

  lemma OnesDiffer()
    ensures DIGEST != Ones()
  {
    assert Ones()[0] == '1' && DIGEST[0] == '0';
  }

  lemma StableIsObject(backend: Json, guest: Json, job: Json, records: Json, count: Json, ids: Json)
    ensures
      var v := ConsensusStable(backend, guest, job, records, count, ids);
      v.Obj? && Get(v.fields, "guest_image_sha256") == guest
  {
  }
}
