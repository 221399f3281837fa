/** Which resolved plans are accepted and which message a refusal adds, in words. */
module PlanMeaning {
  import opened Catalog
  import opened HashMeaning
  import opened PlanConfig
  import opened Text

  /** `sha256:` and 64 small hexadecimal digits. */
  ghost predicate NamesPlan(planId: string) {
    exists digits: string :: IsHash(digits, 64) && planId == "sha256:" + digits
  }

  lemma PlanNamed(planId: string)
    ensures IsSha256Id(planId) <==> NamesPlan(planId)
  {
    hide IsHexDigit;
    forall c: char ensures IsHexDigit(c) <==> c in HEXADECIMAL {
      DigitIsHex(c);
    }
    StartsInWords(planId, "sha256:");
    if IsSha256Id(planId) {
      var digits := planId[7..];
      assert forall i :: 0 <= i < 64 ==> digits[i] == planId[7 + i];
      assert IsHash(digits, 64) && planId == "sha256:" + digits;
    }
    if digits: string :| IsHash(digits, 64) && planId == "sha256:" + digits {
      assert forall i :: 7 <= i < 71 ==> planId[i] == digits[i - 7];
    }
  }

  /** The entry names a leaf of the catalog. */
  predicate ListsLeaf(test: Entry, catalog: seq<Descriptor>) {
    test.Test? && test.id.Given? && test.id.value != "" && FindById(catalog, test.id.value).Some? &&
    FindById(catalog, test.id.value).value.kind == LeafTest
  }

  ghost predicate ListsLeaves(tests: seq<Entry>, catalog: seq<Descriptor>) {
    (forall i | 0 <= i < |tests| :: ListsLeaf(tests[i], catalog)) &&
    forall i, j | 0 <= i < j < |tests| :: tests[i] != tests[j]
  }

  lemma LeavesListed(tests: seq<Entry>, catalog: seq<Descriptor>)
    ensures GoodIds(EntryIds(tests), catalog) <==> ListsLeaves(tests, catalog)
  {
    hide FindById;
    var ids := EntryIds(tests);
    forall i | 0 <= i < |tests| ensures ids[i] != "" && KnownLeaf(catalog, ids[i]) <==> ListsLeaf(tests[i], catalog) {
    }
    if GoodIds(ids, catalog) {
      forall i, j | 0 <= i < j < |tests| ensures tests[i] != tests[j] {
        assert ids[i] != ids[j];
      }
    }
    if ListsLeaves(tests, catalog) {
      forall i, j | 0 <= i < j < |tests| ensures ids[i] != ids[j] {
        assert ListsLeaf(tests[i], catalog) && ListsLeaf(tests[j], catalog);
      }
    }
  }

  /** None of the group's leaves is listed, or all five checkpoints are. */
  ghost predicate WholeGroup(tests: seq<Entry>, catalog: seq<Descriptor>, group: SelectionGroup) {
    (forall id | id in EntryIds(tests) :: !InGroup(catalog, id, group)) || AllCheckpoints(EntryIds(tests), catalog, group)
  }

  /** A plan of schema 2 with an id, this catalog, a count and different leaves of it, as many as counted. */
  ghost predicate PlanStands(plan: PlanJson, catalog: seq<Descriptor>, catalogId: string) {
    plan.schemaVersion == Given(2) && plan.planId.Given? && NamesPlan(plan.planId.value) &&
    (plan.catalogId == Given(catalogId) || (plan.catalogId == Missing && catalogId == "")) &&
    plan.selectedLeafCount.Given? && plan.tests.Given? && plan.tests.value != [] &&
    ListsLeaves(plan.tests.value, catalog) && plan.selectedLeafCount.value == |plan.tests.value| % 0x1_0000_0000 != 0 &&
    WholeGroup(plan.tests.value, catalog, MemoryRepresentative) && WholeGroup(plan.tests.value, catalog, MemoryStress)
  }

  /** A new object accepts exactly these plans. */
  lemma PlanStandsExactly(plan: PlanJson, catalog: seq<Descriptor>, catalogId: string)
    requires SmallBits(catalog)
    ensures Acceptable(plan, catalog, catalogId) <==> PlanStands(plan, catalog, catalogId)
  {
    hide IsSha256Id, NamesPlan, GoodIds, ListsLeaves, MaskOf, WholeOrNone, InGroup, AllCheckpoints, SmallBits;
    if plan.planId.Given? && plan.tests.Given? {
      PlanNamed(plan.planId.value);
      LeavesListed(plan.tests.value, catalog);
      CheckpointsExactly(EntryIds(plan.tests.value), catalog, MemoryRepresentative);
      CheckpointsExactly(EntryIds(plan.tests.value), catalog, MemoryStress);
    }
  }

  /** What is wrong with an entry, by the catalog and the ids taken before. */
  lemma EntryMessage(test: Entry, catalog: seq<Descriptor>, taken: set<string>)
    ensures
      EntryError(test, catalog, taken) ==
      if test == NotAnObject then Some("resolved_plan[tests] entries must be objects")
      else if test.id == Missing || test.id == Mistyped || test.id == Given("")
      then Some("resolved_plan test id must be a non-empty string")
      else if forall d | d in catalog :: d.id != test.id.value
      then Some("resolved_plan contains unknown test id: " + test.id.value)
      else if FindById(catalog, test.id.value).value.kind == GroupTest
      then Some("resolved_plan must contain leaf ids, not group id: " + test.id.value)
      else if test.id.value in taken then Some("resolved_plan contains duplicate test id: " + test.id.value)
      else None
  {
    hide FindById;
  }

  /** What is wrong with the selection as a whole: its count, then its memory-pressure groups. */
  lemma SelectionMessage(selected: nat, declared: uint32, representative: bv32, stress: bv32)
    ensures
      SelectionError(selected, declared, representative, stress) ==
      if selected % 0x1_0000_0000 == 0 || selected % 0x1_0000_0000 != declared
      then Some("resolved_plan[selected_leaf_count] does not match its unique leaf ids")
      else if representative !in {0, 0x1F} || stress !in {0, 0x1F}
      then Some("memory-pressure plans must include all five checkpoint leaf ids")
      else None
  {
  }

  /** A refusal names the first violated condition on the members before the list of tests. */
  lemma HeaderMessage(plan: PlanJson, planId: string, catalogId: string)
    ensures
      HeaderError(plan, planId, catalogId) ==
      if plan.schemaVersion != Given(2) then Some("resolved_plan[schema_version] must be 2")
      else if plan.planId == Mistyped || !NamesPlan(planId)
      then Some("resolved_plan[plan_id] must be a lowercase sha256 identifier")
      else if plan.catalogId != Given(catalogId) && !(plan.catalogId == Missing && catalogId == "")
      then Some("resolved_plan[catalog_id] does not match the bundled catalog")
      else if plan.selectedLeafCount == Mistyped then Some("resolved_plan[selected_leaf_count] must be an integer")
      else if !plan.tests.Given? then Some("resolved_plan[tests] must be an array")
      else None
  {
    hide IsSha256Id, NamesPlan;
    PlanNamed(planId);
  }
}
