/** Which guest records are accepted and what the normalized record holds, member by member, in words. */
module RecordMeaning {
  import opened HashMeaning
  import opened JsonTree
  import opened Lists
  import opened OracleRecords
  import opened Sorting
  import opened Text

  /** The metadata of a guest record; anything but an object counts as none. */
  function MetadataOf(record: Fields): Fields {
    if "metadata" in record && record["metadata"].Obj? then record["metadata"].fields else map[]
  }

  function Member(fields: Fields, key: string): Json {
    if key in fields then fields[key] else Null
  }

  predicate NonEmptyText(v: Json) {
    v.Str? && |v.s| > 0
  }

  predicate NonNegative(v: Json) {
    v.Int? && 0 <= v.i
  }

  // ----- the contract -----

  ghost predicate ContractGiven(record: Fields) {
    NonNegative(Member(record, "iterations")) && NonNegative(Member(record, "sample_count")) &&
    NonNegative(Member(record, "measurement_iterations_multiplier")) &&
    NonNegative(Member(record, "warmup_iterations")) && NonEmptyText(Member(record, "gpu_completion_mode")) &&
    ("stage_order" in MetadataOf(record) ==>
       var order := MetadataOf(record)["stage_order"];
       order.Arr? && order.items != [] && forall i | 0 <= i < |order.items| :: NonEmptyText(order.items[i]))
  }

  /** The five counted members, and the stage order when the metadata gives one. */
  function ContractOf(record: Fields): Fields {
    var fixed := map["iterations" := Member(record, "iterations"), "sample_count" := Member(record, "sample_count"),
                     "measurement_iterations_multiplier" := Member(record, "measurement_iterations_multiplier"),
                     "warmup_iterations" := Member(record, "warmup_iterations"),
                     "gpu_completion_mode" := Member(record, "gpu_completion_mode")];
    if "stage_order" in MetadataOf(record) then fixed["stage_order" := MetadataOf(record)["stage_order"]] else fixed
  }

  lemma ContractInWords(record: Fields)
    ensures RecordContract(record) == if ContractGiven(record) then Ok(ContractOf(record)) else Err(Invalid)
  {
  }

  // ----- the internal oracle -----

  function Given(key: string, v: Json): Fields {
    if v == Null then map[] else map[key := v]
  }

  /** The word in any mixture of cases. */
  predicate Spells(s: string, word: string) {
    |s| == |word| && forall i :: 0 <= i < |word| ==>
      s[i] == word[i] || ('A' <= word[i] <= 'Z' && s[i] as int == word[i] as int + 32)
  }

  lemma UpperSpells(s: string, word: string)
    requires forall i :: 0 <= i < |word| ==> 'A' <= word[i] <= 'Z'
    ensures UpperText(s) == word <==> Spells(s, word)
  {
    if Spells(s, word) {
      assert UpperText(s) == word;
    }
    if UpperText(s) == word {
      forall i | 0 <= i < |word| ensures s[i] == word[i] || s[i] as int == word[i] as int + 32 {
        assert UpperText(s)[i] == word[i];
      }
    }
  }

  /** A verdict in any case; provenance, failure count and failure reason may be missing or null. */
  predicate OracleGiven(m: Fields) {
    "oracle_status" in m ==>
      m["oracle_status"].Str? && (Spells(m["oracle_status"].s, "PASS") || Spells(m["oracle_status"].s, "FAIL")) &&
      (Member(m, "oracle_provenance") == Null || NonEmptyText(Member(m, "oracle_provenance"))) &&
      (Member(m, "oracle_failure_count") == Null || NonNegative(Member(m, "oracle_failure_count"))) &&
      (Member(m, "oracle_failure_reason") == Null || NonEmptyText(Member(m, "oracle_failure_reason")))
  }

  function OracleOf(m: Fields): Fields
    requires OracleGiven(m) && "oracle_status" in m
  {
    map["status" := Str(if Spells(m["oracle_status"].s, "PASS") then "PASS" else "FAIL")] +
    Given("provenance", Member(m, "oracle_provenance")) +
    Given("failure_count", Member(m, "oracle_failure_count")) +
    Given("failure_reason", Member(m, "oracle_failure_reason"))
  }

  /** There is an internal oracle exactly when the metadata has a status. */
  lemma OracleInWords(record: Fields)
    ensures
      var m := MetadataOf(record);
      RecordInternalOracle(record) ==
      if !OracleGiven(m) then Err(Invalid)
      else if "oracle_status" in m then Ok(Some(OracleOf(m)))
      else Ok(None)
  {
    hide UpperText, Spells;
    var m := MetadataOf(record);
    if "oracle_status" in m && m["oracle_status"].Str? {
      UpperSpells(m["oracle_status"].s, "PASS");
      UpperSpells(m["oracle_status"].s, "FAIL");
    }
  }

  // ----- the hashes -----

  /** The text of a hash of the given width, or `Null` when there is none. */
  function Canonical(hash: Json, width: nat): Json {
    var text := HashText(hash, width);
    if text.Ok? then Str(text.value) else Null
  }

  ghost predicate FrameGiven(record: Fields) {
    var frame := Canonical(Member(record, "framebuffer_fnv1a64"), 16);
    var expected := Member(MetadataOf(record), "expected_framebuffer_fnv1a64");
    NonEmptyText(Member(record, "name")) && frame != Null && (expected == Null || Canonical(expected, 16) == frame)
  }

  /** Both checksums or neither; one alone only in a repeated display. */
  ghost predicate ChecksumsGiven(m: Fields) {
    var work, result := Member(m, "work_checksum"), Member(m, "result_checksum");
    if work == Null && result == Null then true
    else if work == Null || result == Null then Member(m, "kind") == Str("game_load_composite_repeated_display")
    else Canonical(work, 8) != Null && Canonical(result, 8) != Null
  }

  /** The key names a known answer: it holds `kat` in any case, or ends on `_final` or `_final_state`. */
  ghost predicate NamesAnswer(key: string) {
    var lower := LowerText(key);
    (exists before: string, after: string :: lower == before + "kat" + after) ||
    (exists before: string :: lower == before + "_final") || (exists before: string :: lower == before + "_final_state")
  }

  lemma Holds(s: string, part: string)
    ensures Contains(s, part) <==> exists before: string, after: string :: s == before + part + after
  {
    if Contains(s, part) {
      var i := Find(s, part, 0).value;
      assert s == s[..i] + part + s[i + |part|..];
    }
    if before: string, after: string :| s == before + part + after {
      assert s[|before|..|before| + |part|] == part;
      assert MatchesAt(s, part, |before|);
    }
  }

  lemma AnswersNamed(key: string)
    ensures IsKat(key) <==> NamesAnswer(key)
  {
    hide LowerText, Contains, EndsWith;
    var lower := LowerText(key);
    Holds(lower, "kat");
    EndsInWords(lower, "_final");
    EndsInWords(lower, "_final_state");
  }

  /** The lower-case form differs from the text only where a capital stands. */
  lemma LowerInWords(s: string)
    ensures |LowerText(s)| == |s|
    ensures forall i :: 0 <= i < |s| ==>
      LowerText(s)[i] as int == if 'A' <= s[i] <= 'Z' then s[i] as int + 32 else s[i] as int
  {
  }

  /** The known answers of the metadata, unchanged. */
  ghost function AnswersOf(m: Fields): Fields {
    map k | k in m && NamesAnswer(k) :: m[k]
  }

  lemma AnswersAreKats(m: Fields)
    ensures RecordKats(m) == if AnswersHold(Obj(AnswersOf(m))) then Ok(AnswersOf(m)) else Err(Invalid)
  {
    hide IsKat, NamesAnswer, KatHolds, AnswersHold, NormalizeKat;
    forall k: string ensures IsKat(k) <==> NamesAnswer(k) {
      AnswersNamed(k);
    }
    assert Kats(m) == AnswersOf(m);
    NormalizesExactly(Obj(Kats(m)));
    AnswersInWords(Obj(Kats(m)));
  }

  function ChecksumsOf(m: Fields): Fields {
    var work, result := Member(m, "work_checksum"), Member(m, "result_checksum");
    if work == Null || result == Null then map[]
    else map["work_checksum" := Canonical(work, 8), "result_checksum" := Canonical(result, 8)]
  }

  /** All hashes of a record before anything is excluded. */
  ghost function HashesOf(record: Fields): Fields {
    var m := MetadataOf(record);
    map["framebuffer_fnv1a64" := Canonical(Member(record, "framebuffer_fnv1a64"), 16)] + ChecksumsOf(m) +
    if AnswersOf(m) == map[] then map[] else map["kats" := Obj(AnswersOf(m))]
  }

  lemma HashErrors()
    ensures forall v, width :: HashText(v, width).Err? ==> HashText(v, width).error == Invalid
  {
  }

  lemma MetadataInWords(frame: string, m: Fields)
    ensures
      var expected := Member(m, "expected_framebuffer_fnv1a64");
      MetadataHashes(frame, m) ==
      if expected != Null && Canonical(expected, 16) != Str(frame) then Err(Invalid)
      else if Member(m, "kind").Arr? || Member(m, "kind").Obj? then Err(Crash)
      else if !ChecksumsGiven(m) || !AnswersHold(Obj(AnswersOf(m))) then Err(Invalid)
      else Ok(AllHashes(frame, ChecksumsOf(m), AnswersOf(m)))
  {
    hide HashText, RecordKats, AnswersHold, AnswersOf, AllHashes;
    AnswersAreKats(m);
    HashErrors();
  }

  /** The hashes of a record, or the error that reading them ends in. */
  lemma HashesInWords(record: Fields)
    ensures
      var m := MetadataOf(record);
      RecordHashes(record) ==
      if !FrameGiven(record) then Err(Invalid)
      else if Member(m, "kind").Arr? || Member(m, "kind").Obj? then Err(Crash)
      else if !ChecksumsGiven(m) || !AnswersHold(Obj(AnswersOf(m))) then Err(Invalid)
      else Ok(HashesOf(record))
  {
    hide HashText, AnswersHold, NamesAnswer, MetadataHashes, ChecksumsGiven, ChecksumsOf;
    HashErrors();
    var m, frame := MetadataOf(record), HashText(Get(record, "framebuffer_fnv1a64"), 16);
    if frame.Ok? {
      MetadataInWords(frame.value, m);
      assert AllHashes(frame.value, ChecksumsOf(m), AnswersOf(m)) == HashesOf(record);
    }
    if m == map[] {
      assert AnswersOf(m) == map[];
      NoAnswers();
      NoChecksums();
      assert HashesOf(record) == map["framebuffer_fnv1a64" := Canonical(Member(record, "framebuffer_fnv1a64"), 16)];
    }
  }

  lemma NoChecksums()
    ensures ChecksumsGiven(map[]) && ChecksumsOf(map[]) == map[]
  {
  }

  lemma NoAnswers()
    ensures AnswersHold(Obj(map[]))
  {
  }

  // ----- the comparison policy -----

  /** The answer is about the bytes the guest wrote, not about what was rendered from them. */
  ghost predicate NamesSource(key: string) {
    exists rest: string :: key == "source_" + rest
  }

  /** The frame when it may not be compared, and the rendered known answers when the oracle does not apply. */
  ghost function ExcludedOf(m: Fields): set<string> {
    (if Member(m, "framebuffer_comparison_eligible") == Bool(false) then {"framebuffer_fnv1a64"} else {}) +
    (if Member(m, "oracle_applicable") == Bool(false)
     then (set k | k in AnswersOf(m) && !NamesSource(k) :: "kats." + k) else {})
  }

  ghost predicate PolicyGiven(m: Fields) {
    ExcludedOf(m) == {} || NonEmptyText(Member(m, "framebuffer_comparison_reason"))
  }

  ghost function PolicyOf(m: Fields): Option<Policy>
    requires PolicyGiven(m)
  {
    if ExcludedOf(m) == {} then None
    else Some(Policy(SortedStrings(ExcludedOf(m)), Member(m, "framebuffer_comparison_reason").s))
  }

  lemma RenderedInWords(m: Fields)
    ensures RenderedKats(AnswersOf(m)) == set k | k in AnswersOf(m) && !NamesSource(k)
  {
    hide StartsWith, NamesSource, AnswersOf;
    var kats := AnswersOf(m);
    forall k: string ensures k in RenderedKats(kats) <==> k in kats && !NamesSource(k) {
      SourceNamed(k);
    }
  }

  lemma SourceNamed(key: string)
    ensures StartsWith(key, "source_") <==> NamesSource(key)
  {
    hide StartsWith;
    StartsInWords(key, "source_");
  }

  lemma ExcludedInWords(m: Fields)
    requires AnswersHold(Obj(AnswersOf(m)))
    ensures ExcludedObservations(m) == Ok(ExcludedOf(m))
  {
    hide AnswersHold, RecordKats, RenderedKats, AnswersOf, NamesSource;
    AnswersAreKats(m);
    RenderedInWords(m);
    var kats := AnswersOf(m);
    forall k: string ensures Observation(k) == "kats." + k {
    }
    assert (set k | k in RenderedKats(kats) :: Observation(k)) == set k | k in kats && !NamesSource(k) :: "kats." + k by {
      assert forall k :: k in RenderedKats(kats) <==> k in kats && !NamesSource(k);
    }
    assert ExcludedObservations(m).value == ExcludedOf(m);
  }

  lemma PolicyInWords(record: Fields)
    requires AnswersHold(Obj(AnswersOf(MetadataOf(record))))
    ensures
      var m := MetadataOf(record);
      RecordPolicy(record) == if PolicyGiven(m) then Ok(PolicyOf(m)) else Err(Invalid)
  {
    hide AnswersHold, NamesAnswer, ExcludedObservations, SortedStrings;
    ExcludedInWords(MetadataOf(record));
  }

  /** Texts stand in the order of their first difference, a prefix first. */
  lemma {:induction false} OrderInWords(a: string, b: string)
    ensures StringLeq(a, b) <==>
            a <= b || exists i :: 0 <= i < |a| && i < |b| && a[..i] == b[..i] && a[i] < b[i]
    decreases |a|
  {
    if a != "" && b != "" && a[0] == b[0] {
      OrderInWords(a[1..], b[1..]);
      assert a == [a[0]] + a[1..] && b == [b[0]] + b[1..];
      if i :| 0 <= i < |a| && i < |b| && a[..i] == b[..i] && a[i] < b[i] {
        assert i > 0;
        assert a[1..][..i - 1] == a[..i][1..] && b[1..][..i - 1] == b[..i][1..];
        assert a[1..][i - 1] < b[1..][i - 1];
      }
      if i :| 0 <= i < |a[1..]| && i < |b[1..]| && a[1..][..i] == b[1..][..i] && a[1..][i] < b[1..][i] {
        assert a[..i + 1] == [a[0]] + a[1..][..i] && b[..i + 1] == [b[0]] + b[1..][..i];
        assert a[i + 1] < b[i + 1];
      }
    } else if a != "" && b != "" {
      assert a[..0] == b[..0];
    }
  }

  // ----- the normalized record -----

  /** The known answers that are compared. */
  ghost function ComparedAnswers(m: Fields): Fields {
    map k | k in AnswersOf(m) && "kats." + k !in ExcludedOf(m) :: AnswersOf(m)[k]
  }

  /** The hashes that are compared. */
  ghost function ComparedHashes(record: Fields): Fields {
    var m := MetadataOf(record);
    (if "framebuffer_fnv1a64" in ExcludedOf(m) then map[]
     else map["framebuffer_fnv1a64" := Canonical(Member(record, "framebuffer_fnv1a64"), 16)]) + ChecksumsOf(m) +
    if ComparedAnswers(m) == map[] then map[] else map["kats" := Obj(ComparedAnswers(m))]
  }

  ghost function Together(frames: Fields, checksums: Fields, kats: Fields): Fields {
    frames + checksums + if kats == map[] then map[] else map[KATS := Obj(kats)]
  }

  lemma KeptTogether(frame: Json, checksums: Fields, kats: Fields, excluded: set<string>)
    requires FRAMEBUFFER !in checksums && KATS !in checksums && FRAMEBUFFER != KATS
    requires kats == map[] ==> KeptKats(kats, excluded) == map[]
    ensures Kept(Together(map[FRAMEBUFFER := frame], checksums, kats), excluded) ==
            Together(if FRAMEBUFFER in excluded then map[] else map[FRAMEBUFFER := frame], checksums,
                     KeptKats(kats, excluded))
  {
    hide FRAMEBUFFER, KATS, KeptKats;
    var all := Together(map[FRAMEBUFFER := frame], checksums, kats);
    var frames := if FRAMEBUFFER in excluded then all - {FRAMEBUFFER} else all;
    var left := if FRAMEBUFFER in excluded then map[] else map[FRAMEBUFFER := frame];
    if kats == map[] {
      assert Kept(all, excluded) == frames == left + checksums;
    } else if KeptKats(kats, excluded) == map[] {
      assert Kept(all, excluded) == frames - {KATS} == left + checksums;
    } else {
      assert Kept(all, excluded) == frames[KATS := Obj(KeptKats(kats, excluded))];
    }
  }

  lemma KeysDiffer(m: Fields)
    ensures FRAMEBUFFER != KATS && FRAMEBUFFER !in ChecksumsOf(m) && KATS !in ChecksumsOf(m)
  {
    hide HashText;
    assert FRAMEBUFFER[0] == 'f' && KATS[0] == 'k' && "work_checksum"[0] == 'w' && "result_checksum"[0] == 'r';
  }

  lemma KeptInWords(record: Fields)
    ensures Kept(HashesOf(record), ExcludedOf(MetadataOf(record))) == ComparedHashes(record)
  {
    hide ExcludedOf, HashText, AnswersOf, ComparedAnswers, KeptKats, Kept, ChecksumsOf;
    var m := MetadataOf(record);
    AnswersKept(m);
    KeysDiffer(m);
    KeptTogether(Canonical(Member(record, "framebuffer_fnv1a64"), 16), ChecksumsOf(m), AnswersOf(m), ExcludedOf(m));
  }

  lemma AnswersKept(m: Fields)
    ensures KeptKats(AnswersOf(m), ExcludedOf(m)) == ComparedAnswers(m)
    ensures AnswersOf(m) == map[] ==> ComparedAnswers(m) == map[]
  {
    hide ExcludedOf, AnswersOf;
  }

  lemma NothingLeftOut(record: Fields)
    requires ExcludedOf(MetadataOf(record)) == {}
    ensures ComparedHashes(record) == HashesOf(record)
  {
    hide ExcludedOf, NamesAnswer, HashText, AnswersOf;
    assert ComparedAnswers(MetadataOf(record)) == AnswersOf(MetadataOf(record));
  }

  lemma EligibleInWords(record: Fields)
    requires RecordHashes(record) == Ok(HashesOf(record))
    requires AnswersHold(Obj(AnswersOf(MetadataOf(record))))
    ensures
      var m := MetadataOf(record);
      EligibleHashes(record) ==
      if PolicyGiven(m) && ComparedHashes(record) != map[] then Ok((ComparedHashes(record), PolicyOf(m))) else Err(Invalid)
  {
    hide AnswersHold, ExcludedOf, Kept, HashesOf, ComparedHashes, RecordPolicy, RecordHashes, Member;
    var m := MetadataOf(record);
    PolicyInWords(record);
    KeptInWords(record);
    if ExcludedOf(m) == {} {
      NothingLeftOut(record);
      FrameIsKept(record);
    } else if PolicyGiven(m) {
      var excluded := SortedStrings(ExcludedOf(m));
      assert (set o | o in excluded) == Elements(excluded);
    }
  }

  lemma FrameIsKept(record: Fields)
    ensures HashesOf(record) != map[]
  {
    hide AnswersOf, HashText;
    assert "framebuffer_fnv1a64" in HashesOf(record);
  }

  ghost function ItemOf(record: Fields): Fields
    requires PolicyGiven(MetadataOf(record)) && OracleGiven(MetadataOf(record))
  {
    var m := MetadataOf(record);
    map["test_id" := Member(record, "name"), "contract" := Obj(ContractOf(record)),
        "hashes" := Obj(ComparedHashes(record))] +
    (if ExcludedOf(m) == {} then map[]
     else map["comparison_policy" := Obj(map[
                "excluded_observations" := Arr(Texts(SortedStrings(ExcludedOf(m)))),
                "reason" := Member(m, "framebuffer_comparison_reason")])]) +
    if "oracle_status" in m then map["internal_oracle" := Obj(OracleOf(m))] else map[]
  }

  ghost predicate Accepted(record: Fields) {
    var m := MetadataOf(record);
    ChecksumsGiven(m) && AnswersHold(Obj(AnswersOf(m))) && PolicyGiven(m) && ComparedHashes(record) != map[] &&
    ContractGiven(record) && OracleGiven(m)
  }

  /** A guest record becomes exactly the stated normalized record or ends in the stated error. */
  lemma RecordInWords(record: Fields)
    ensures
      var m := MetadataOf(record);
      NormalizedItem(record) ==
      if !FrameGiven(record) then Err(Invalid)
      else if Member(m, "kind").Arr? || Member(m, "kind").Obj? then Err(Crash)
      else if Accepted(record) then Ok(Obj(ItemOf(record)))
      else Err(Invalid)
  {
    hide FrameGiven, ChecksumsGiven, AnswersHold, AnswersOf, ExcludedOf, ComparedHashes, ContractGiven, OracleGiven;
    hide RecordHashes, EligibleHashes, RecordContract, RecordInternalOracle, ContractOf, OracleOf, HashesOf, Spells;
    HashesInWords(record);
    ContractInWords(record);
    OracleInWords(record);
    if RecordHashes(record).Ok? {
      EligibleInWords(record);
    } else {
      NothingEligible(record);
    }
  }

  lemma NothingEligible(record: Fields)
    requires RecordHashes(record).Err?
    ensures EligibleHashes(record) == Err(RecordHashes(record).error)
  {
    hide RecordHashes, RecordPolicy;
  }
}
