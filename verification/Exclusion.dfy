/** Observations a record declares ineligible do not reach the report. */
module Exclusion {
  import opened JsonTree
  import opened Lists
  import opened OracleRecords
  import opened OracleReport
  import opened ReportSealing
  import opened Sorting
  import opened Text

  predicate FrameExcluded(metadata: Fields) {
    Get(metadata, "framebuffer_comparison_eligible") == Bool(false)
  }

  predicate RenderedExcluded(metadata: Fields) {
    Get(metadata, "oracle_applicable") == Bool(false)
  }

  /** The metadata key holds an observation the record declares ineligible. */
  predicate IsExcludedKey(metadata: Fields, key: string) {
    (FrameExcluded(metadata) && key == EXPECTED_FRAME) ||
    (RenderedExcluded(metadata) && IsKat(key) && !StartsWith(key, "source_"))
  }

  /** Two metadata objects that differ at most in the values of ineligible observations. */
  ghost predicate SameMetadata(m: Fields, n: Fields) {
    m.Keys == n.Keys && forall k | k in m && !IsExcludedKey(m, k) :: m[k] == n[k]
  }

  /** Two guest records that differ at most in the values of ineligible observations. */
  ghost predicate SameButExcluded(a: Fields, b: Fields) {
    var m, n := Get(a, "metadata"), Get(b, "metadata");
    (forall k | k != "metadata" && k != FRAMEBUFFER :: Get(a, k) == Get(b, k)) &&
    (Get(a, FRAMEBUFFER) == Get(b, FRAMEBUFFER) || (m.Obj? && FrameExcluded(m.fields))) &&
    if m.Obj? then n.Obj? && SameMetadata(m.fields, n.fields) else m == n
  }

  // ----- the fixed metadata keys are no known answers -----

  lemma NotKat(key: string)
    requires |key| >= 2 && forall i | 0 <= i < |key| - 1 :: !(key[i] == 'k' && key[i + 1] == 'a')
    requires forall i | 0 <= i < |key| :: !('A' <= key[i] <= 'Z')
    requires key[|key| - 1] != 'l' && !(key[|key| - 2] == 't' && key[|key| - 1] == 'e')
    ensures !IsKat(key)
  {
    assert LowerText(key) == key;
    forall i: nat ensures !MatchesAt(key, "kat", i) {
      KatStart(key, i);
    }
    LastTwo(key, "_final");
    LastTwo(key, "_final_state");
  }

  lemma KatStart(s: string, i: nat)
    ensures MatchesAt(s, "kat", i) ==> i < |s| - 1 && s[i] == 'k' && s[i + 1] == 'a'
  {
    if MatchesAt(s, "kat", i) {
      assert s[i..i + 3][0] == 'k' && s[i..i + 3][1] == 'a';
    }
  }

  lemma LastTwo(s: string, suffix: string)
    requires |suffix| >= 2
    ensures EndsWith(s, suffix) ==>
              |s| >= 2 && s[|s| - 1] == suffix[|suffix| - 1] && s[|s| - 2] == suffix[|suffix| - 2]
  {
    if EndsWith(s, suffix) {
      var from := |s| - |suffix|;
      assert s[from..from + |suffix|][|suffix| - 1] == s[|s| - 1];
      assert s[from..from + |suffix|][|suffix| - 2] == s[|s| - 2];
    }
  }

  lemma PolicyKeys()
    ensures !IsKat("framebuffer_comparison_eligible") && !IsKat("oracle_applicable")
    ensures !IsKat("framebuffer_comparison_reason") && !IsKat(EXPECTED_FRAME)
  {
    hide IsKat;
    NotKat("framebuffer_comparison_eligible");
    NotKat("oracle_applicable");
    NotKat("framebuffer_comparison_reason");
    NotKat(EXPECTED_FRAME);
  }

  lemma HashKeys()
    ensures !IsKat(WORK) && !IsKat(RESULT) && !IsKat(STAGES)
  {
    hide IsKat;
    NotKat(WORK);
    NotKat(RESULT);
    NotKat(STAGES);
  }

  lemma OracleKeys()
    ensures !IsKat("oracle_status") && !IsKat("oracle_provenance")
    ensures !IsKat("oracle_failure_count") && !IsKat("oracle_failure_reason")
  {
    hide IsKat;
    NotKat("oracle_status");
    NotKat("oracle_provenance");
    NotKat("oracle_failure_count");
    NotKat("oracle_failure_reason");
  }

  /** Every fixed key but the expected frame has the same value on both sides. */
  lemma FixedKeyAgrees(m: Fields, n: Fields, key: string)
    requires SameMetadata(m, n) && !IsKat(key) && key != EXPECTED_FRAME
    ensures Get(m, key) == Get(n, key) && (key in m <==> key in n)
  {
    hide IsKat;
    assert key in m ==> !IsExcludedKey(m, key);
  }

  ghost predicate FixedAgree(m: Fields, n: Fields) {
    FrameExcluded(m) == FrameExcluded(n) && RenderedExcluded(m) == RenderedExcluded(n) &&
    Get(m, "framebuffer_comparison_reason") == Get(n, "framebuffer_comparison_reason") &&
    Get(m, WORK) == Get(n, WORK) && Get(m, RESULT) == Get(n, RESULT) &&
    (STAGES in m <==> STAGES in n) && Get(m, STAGES) == Get(n, STAGES) &&
    ("oracle_status" in m <==> "oracle_status" in n) && Get(m, "oracle_status") == Get(n, "oracle_status") &&
    Get(m, "oracle_provenance") == Get(n, "oracle_provenance") &&
    Get(m, "oracle_failure_count") == Get(n, "oracle_failure_count") &&
    Get(m, "oracle_failure_reason") == Get(n, "oracle_failure_reason")
  }

  lemma FixedKeysAgree(m: Fields, n: Fields)
    requires SameMetadata(m, n)
    ensures FixedAgree(m, n)
  {
    hide IsKat, SameMetadata;
    PolicyKeys();
    HashKeys();
    OracleKeys();
    FixedKeyAgrees(m, n, "framebuffer_comparison_eligible");
    FixedKeyAgrees(m, n, "oracle_applicable");
    FixedKeyAgrees(m, n, "framebuffer_comparison_reason");
    FixedKeyAgrees(m, n, WORK);
    FixedKeyAgrees(m, n, RESULT);
    FixedKeyAgrees(m, n, STAGES);
    FixedKeyAgrees(m, n, "oracle_status");
    FixedKeyAgrees(m, n, "oracle_provenance");
    FixedKeyAgrees(m, n, "oracle_failure_count");
    FixedKeyAgrees(m, n, "oracle_failure_reason");
  }

  // ----- what the record keeps -----

  lemma SameContract(a: Fields, b: Fields)
    requires SameButExcluded(a, b)
    ensures RecordContract(a) == RecordContract(b)
  {
    hide IsKat, IsStageOrder, SameMetadata;
    if Get(a, "metadata").Obj? {
      FixedKeysAgree(Get(a, "metadata").fields, Get(b, "metadata").fields);
    }
  }

  lemma SameInternal(a: Fields, b: Fields)
    requires SameButExcluded(a, b)
    ensures RecordInternalOracle(a) == RecordInternalOracle(b)
  {
    hide IsKat, SameMetadata, UpperText;
    if Get(a, "metadata").Obj? {
      FixedKeysAgree(Get(a, "metadata").fields, Get(b, "metadata").fields);
    }
  }

  lemma SameExcluded(m: Fields, n: Fields)
    requires SameMetadata(m, n) && FixedAgree(m, n)
    requires RecordKats(m).Ok? && RecordKats(n).Ok?
    ensures ExcludedObservations(m) == ExcludedObservations(n)
  {
    hide IsKat, RecordKats, Observation, StartsWith;
    KatsShape(m);
    KatsShape(n);
    assert RenderedKats(Kats(m)) == RenderedKats(Kats(n));
  }

  lemma SamePolicy(a: Fields, b: Fields)
    requires SameButExcluded(a, b) && RecordHashes(a).Ok? && RecordHashes(b).Ok?
    ensures RecordPolicy(a) == RecordPolicy(b)
  {
    hide ExcludedObservations, SameMetadata, RecordKats, HashText;
    var m := Get(a, "metadata");
    if m.Obj? {
      var n := Get(b, "metadata").fields;
      FixedKeysAgree(m.fields, n);
      SameExcluded(m.fields, n);
    }
  }

  /** The known answers that are left are the same. */
  lemma SameKeptKats(m: Fields, n: Fields)
    requires SameMetadata(m, n) && FixedAgree(m, n) && ExcludedObservations(m).Ok?
    ensures KeptKats(Kats(m), ExcludedObservations(m).value) == KeptKats(Kats(n), ExcludedObservations(m).value)
  {
    hide IsKat, RecordKats, Observation, StartsWith;
    var excluded := ExcludedObservations(m).value;
    PolicyKeys();
    if RenderedExcluded(m) {
      KatsShape(m);
      forall k | k in Kats(m) && Observation(k) !in excluded ensures m[k] == n[k] {
        assert k !in RenderedKats(Kats(m));
      }
    } else {
      assert Kats(m) == Kats(n);
    }
  }

  /** Kept hashes depend on the frame, the checksums and the kept known answers only. */
  lemma KeptOfAll(frame: string, checksums: Fields, kats: Fields, excluded: set<string>)
    requires checksums.Keys <= {WORK, RESULT}
    ensures
      var kept := KeptKats(kats, excluded);
      Kept(AllHashes(frame, checksums, kats), excluded) ==
      (if FRAMEBUFFER in excluded then map[] else map[FRAMEBUFFER := Str(frame)]) + checksums +
      (if kept == map[] then map[] else map[KATS := Obj(kept)])
  {
    hide KeptKats;
    KeptOfNone(excluded);
    var all := AllHashes(frame, checksums, kats);
    var left := Kept(all, excluded);
    var right := (if FRAMEBUFFER in excluded then map[] else map[FRAMEBUFFER := Str(frame)]) + checksums +
      (if KeptKats(kats, excluded) == map[] then map[] else map[KATS := Obj(KeptKats(kats, excluded))]);
    assert left.Keys == right.Keys;
    assert forall k | k in left :: left[k] == right[k];
  }

  lemma KeptOfNone(excluded: set<string>)
    ensures KeptKats(map[], excluded) == map[]
  {
  }

  lemma HashesOfMetadata(record: Fields)
    requires RecordHashes(record).Ok? && Get(record, "metadata").Obj?
    ensures
      var metadata := Get(record, "metadata").fields;
      HashText(Get(record, FRAMEBUFFER), 16).Ok? && Checksums(Get(metadata, WORK), Get(metadata, RESULT)).Ok? &&
      RecordKats(metadata).Ok? &&
      RecordHashes(record).value ==
      AllHashes(HashText(Get(record, FRAMEBUFFER), 16).value,
                Checksums(Get(metadata, WORK), Get(metadata, RESULT)).value, Kats(metadata))
  {
    hide HashText, AllHashes, Checksums, RecordKats;
    KatsShapeIfOk(Get(record, "metadata").fields);
  }

  lemma KatsShapeIfOk(metadata: Fields)
    ensures RecordKats(metadata).Ok? ==> RecordKats(metadata).value == Kats(metadata)
  {
    if RecordKats(metadata).Ok? {
      KatsShape(metadata);
    }
  }

  /** The hashes kept under the record's own exclusions are the same. */
  lemma SameKept(a: Fields, b: Fields, excluded: set<string>)
    requires SameButExcluded(a, b) && RecordHashes(a).Ok? && RecordHashes(b).Ok? && Get(a, "metadata").Obj?
    requires ExcludedObservations(Get(a, "metadata").fields) == Ok(excluded)
    ensures Kept(RecordHashes(a).value, excluded) == Kept(RecordHashes(b).value, excluded)
  {
    hide HashText, AllHashes, Checksums, RecordKats, RecordHashes, Kept, SameMetadata, Kats, FrameExcluded;
    var m, n := Get(a, "metadata").fields, Get(b, "metadata").fields;
    HashesOfMetadata(a);
    HashesOfMetadata(b);
    FixedKeysAgree(m, n);
    SameKeptKats(m, n);
    var frame, other := HashText(Get(a, FRAMEBUFFER), 16).value, HashText(Get(b, FRAMEBUFFER), 16).value;
    var checksums := Checksums(Get(m, WORK), Get(m, RESULT)).value;
    ChecksumsShape(Get(m, WORK), Get(m, RESULT));
    KeptOfAll(frame, checksums, Kats(m), excluded);
    KeptOfAll(other, checksums, Kats(n), excluded);
    FrameExclusion(m);
  }

  lemma FrameExclusion(metadata: Fields)
    requires ExcludedObservations(metadata).Ok?
    ensures FrameExcluded(metadata) ==> FRAMEBUFFER in ExcludedObservations(metadata).value
  {
    hide RecordKats, Observation;
  }

  lemma SameEligible(a: Fields, b: Fields)
    requires SameButExcluded(a, b) && EligibleHashes(a).Ok? && EligibleHashes(b).Ok?
    ensures EligibleHashes(a) == EligibleHashes(b)
  {
    hide RecordHashes, Kept, SameMetadata, ExcludedObservations;
    SamePolicy(a, b);
    var metadata := Get(a, "metadata");
    if metadata.Obj? {
      var excluded := ExcludedObservations(metadata.fields).value;
      SameKept(a, b, excluded);
      if excluded == {} {
        HashesWellFormed(a);
        HashesWellFormed(b);
        NothingExcluded(RecordHashes(a).value);
        NothingExcluded(RecordHashes(b).value);
      } else {
        assert (set o | o in SortedStrings(excluded)) == Elements(SortedStrings(excluded));
      }
    } else {
      SameFrameHash(a, b);
    }
  }

  lemma SameFrameHash(a: Fields, b: Fields)
    requires SameButExcluded(a, b) && !Get(a, "metadata").Obj?
    ensures RecordHashes(a) == RecordHashes(b)
  {
    hide HashText;
  }

  lemma SameItem(a: Fields, b: Fields)
    requires SameButExcluded(a, b) && NormalizedItem(a).Ok? && NormalizedItem(b).Ok?
    ensures NormalizedItem(a) == NormalizedItem(b)
  {
    hide EligibleHashes, RecordContract, RecordInternalOracle, Item, SameMetadata;
    SameEligible(a, b);
    SameContract(a, b);
    SameInternal(a, b);
  }

  lemma {:induction false} SameItemLists(a: seq<Fields>, b: seq<Fields>)
    requires |a| == |b| && forall i | 0 <= i < |a| :: SameButExcluded(a[i], b[i])
    requires Items(a).Ok? && Items(b).Ok?
    ensures Items(a) == Items(b)
    decreases |a|
  {
    hide NormalizedItem, SameButExcluded;
    if a != [] {
      var n := |a| - 1;
      SameItemLists(a[..n], b[..n]);
      SameItem(a[n], b[n]);
    }
  }

  /**
   * Changing the values of observations the records declare ineligible leaves the whole
   * report, and so its `functional_id`, unchanged, while both inputs build.
   */
  lemma ExclusionsDoNotReachReport(codec: Codec, a: seq<Fields>, b: seq<Fields>, inputs: Inputs)
    requires |a| == |b| && forall i | 0 <= i < |a| :: SameButExcluded(a[i], b[i])
    requires BuildReport(codec, a, inputs).Ok? && BuildReport(codec, b, inputs).Ok?
    ensures BuildReport(codec, a, inputs) == BuildReport(codec, b, inputs)
  {
    hide HashText, Seal, Items, SameButExcluded, Sort, IdentitySet;
    SameItemLists(a, b);
  }
}
