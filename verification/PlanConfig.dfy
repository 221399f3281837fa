/** Selecting a resolved plan of leaf tests and applying it to the registered suites. */
module PlanConfig {
  import opened Text
  import opened Catalog
  import opened Lists

  /** A member of a parsed object. */
  datatype Member<T> = Missing | Mistyped | Given(value: T)

  datatype Entry = NotAnObject | Test(id: Member<string>)

  datatype PlanJson = PlanJson(schemaVersion: Member<uint32>, planId: Member<string>, catalogId: Member<string>,
                               selectedLeafCount: Member<uint32>, tests: Member<seq<Entry>>)

  const ALL_CHECKPOINTS: bv32 := 0x1F

  predicate IsSha256Id(value: string) {
    |value| == 71 && StartsWith(value, "sha256:") && forall i :: 7 <= i < 71 ==> IsHexDigit(value[i])
  }

  // ----- masks -----

  function Bit(n: nat): bv32
    requires n < 32
  {
    1 << n
  }

  function Or(a: bv32, b: bv32): bv32 {
    a | b
  }

  function And(a: bv32, b: bv32): bv32 {
    a & b
  }

  predicate Overlaps(a: bv32, b: bv32) {
    And(a, b) != 0
  }

  predicate HasBit(mask: bv32, n: nat)
    requires n < 32
  {
    Overlaps(mask, Bit(n))
  }

  predicate Carries(catalog: seq<Descriptor>, id: string, group: SelectionGroup, n: nat) {
    var d := FindById(catalog, id);
    d.Some? && d.value.group == group && d.value.bit == n
  }

  function Contribution(catalog: seq<Descriptor>, id: string, group: SelectionGroup): bv32
    requires SmallBits(catalog)
  {
    var d := FindById(catalog, id);
    if d.Some? && d.value.group == group then Bit(d.value.bit) else 0
  }

  /** The bits carried by the selected leaves of one selection group. */
  function MaskOf(ids: seq<string>, catalog: seq<Descriptor>, group: SelectionGroup): bv32
    requires SmallBits(catalog)
  {
    if ids == [] then 0
    else Or(MaskOf(ids[..|ids| - 1], catalog, group), Contribution(catalog, ids[|ids| - 1], group))
  }

  predicate SmallBits(catalog: seq<Descriptor>) {
    forall d :: d in catalog ==> d.bit < 32
  }

  lemma BitOfOr(a: bv32, b: bv32, n: nat)
    requires n < 32
    ensures HasBit(Or(a, b), n) <==> HasBit(a, n) || HasBit(b, n)
  {
    hide Bit, Or, Overlaps;
    OrOverlaps(a, b, Bit(n));
  }

  lemma OrOverlaps(a: bv32, b: bv32, t: bv32)
    ensures Overlaps(Or(a, b), t) <==> Overlaps(a, t) || Overlaps(b, t)
  {
    hide And, Or;
    AndDistributes(a, b, t);
    OrNonzero(And(a, t), And(b, t));
  }

  lemma AndDistributes(a: bv32, b: bv32, t: bv32)
    ensures And(Or(a, b), t) == Or(And(a, t), And(b, t))
  {
  }

  lemma OrNonzero(a: bv32, b: bv32)
    ensures Or(a, b) != 0 <==> a != 0 || b != 0
  {
  }

  lemma BitOfBit(m: nat, n: nat)
    requires m < 32 && n < 32
    ensures HasBit(Bit(m), n) <==> m == n
  {
  }

  lemma NoBit(n: nat)
    requires n < 32
    ensures !HasBit(0, n)
  {
  }

  lemma ContributionBit(catalog: seq<Descriptor>, id: string, group: SelectionGroup, n: nat)
    requires SmallBits(catalog) && n < 32
    ensures HasBit(Contribution(catalog, id, group), n) <==> Carries(catalog, id, group, n)
  {
    hide HasBit, Bit;
    var d := FindById(catalog, id);
    NoBit(n);
    if d.Some? {
      BitOfBit(d.value.bit, n);
    }
  }

  /** A stage mask has a bit set exactly when some selected leaf of its group carries it. */
  lemma {:induction false} MaskBit(ids: seq<string>, catalog: seq<Descriptor>, group: SelectionGroup, n: nat)
    requires SmallBits(catalog) && n < 32
    ensures HasBit(MaskOf(ids, catalog, group), n) <==> exists id :: id in ids && Carries(catalog, id, group, n)
    decreases |ids|
  {
    hide HasBit, Or, Bit, Carries, Contribution, SmallBits;
    if ids == [] {
      NoBit(n);
    } else {
      var front, last := ids[..|ids| - 1], ids[|ids| - 1];
      MaskBit(front, catalog, group, n);
      BitOfOr(MaskOf(front, catalog, group), Contribution(catalog, last, group), n);
      ContributionBit(catalog, last, group, n);
      assert ids == front + [last];
    }
  }

  lemma OrAbsorbs(m: bv32, a: bv32, b: bv32)
    ensures Or(m, a) == m && Or(m, b) == m ==> Or(m, Or(a, b)) == m
    ensures Or(m, a) == m ==> Or(Or(m, b), a) == Or(m, b)
    ensures Or(Or(m, a), a) == Or(m, a)
    ensures Or(a, b) == Or(b, a) && Or(m, 0) == m
  {
    hide Or;
    OrBoth(m, a, b);
    OrPast(m, a, b);
    OrTwice(m, a);
    OrSwap(a, b);
    OrZero(m);
  }

  lemma OrBoth(m: bv32, a: bv32, b: bv32)
    ensures Or(m, a) == m && Or(m, b) == m ==> Or(m, Or(a, b)) == m
  {
  }

  lemma OrPast(m: bv32, a: bv32, b: bv32)
    ensures Or(m, a) == m ==> Or(Or(m, b), a) == Or(m, b)
  {
  }

  lemma OrTwice(m: bv32, a: bv32)
    ensures Or(Or(m, a), a) == Or(m, a)
  {
  }

  lemma OrSwap(a: bv32, b: bv32)
    ensures Or(a, b) == Or(b, a)
  {
  }

  lemma OrZero(m: bv32)
    ensures Or(m, 0) == m
  {
  }

  lemma {:induction false} MaskAbsorbs(ids: seq<string>, id: string, catalog: seq<Descriptor>, group: SelectionGroup)
    requires SmallBits(catalog) && id in ids
    ensures Or(MaskOf(ids, catalog, group), Contribution(catalog, id, group)) == MaskOf(ids, catalog, group)
    decreases |ids|
  {
    hide Or, Contribution, SmallBits;
    var front, last := ids[..|ids| - 1], ids[|ids| - 1];
    OrAbsorbs(MaskOf(front, catalog, group), Contribution(catalog, id, group), Contribution(catalog, last, group));
    if last != id {
      assert id in front;
      MaskAbsorbs(front, id, catalog, group);
    }
  }

  lemma {:induction false} MaskContains(a: seq<string>, b: seq<string>, catalog: seq<Descriptor>, group: SelectionGroup)
    requires SmallBits(catalog) && forall id :: id in b ==> id in a
    ensures Or(MaskOf(a, catalog, group), MaskOf(b, catalog, group)) == MaskOf(a, catalog, group)
    decreases |b|
  {
    hide Or, Contribution, SmallBits;
    var m := MaskOf(a, catalog, group);
    if b == [] {
      OrAbsorbs(m, 0, 0);
    } else {
      var front, last := b[..|b| - 1], b[|b| - 1];
      MaskContains(a, front, catalog, group);
      MaskAbsorbs(a, last, catalog, group);
      OrAbsorbs(m, MaskOf(front, catalog, group), Contribution(catalog, last, group));
    }
  }

  /** A stage mask depends only on which leaves are selected. */
  lemma MaskOfSameIds(a: seq<string>, b: seq<string>, catalog: seq<Descriptor>, group: SelectionGroup)
    requires SmallBits(catalog) && forall id :: id in a <==> id in b
    ensures MaskOf(a, catalog, group) == MaskOf(b, catalog, group)
  {
    hide Or, MaskOf, SmallBits;
    MaskContains(a, b, catalog, group);
    MaskContains(b, a, catalog, group);
    OrAbsorbs(0, MaskOf(a, catalog, group), MaskOf(b, catalog, group));
  }

  // ----- acceptance -----

  predicate KnownLeaf(catalog: seq<Descriptor>, id: string) {
    var d := FindById(catalog, id);
    d.Some? && d.value.kind.LeafTest?
  }

  function EntryId(e: Entry): string {
    if e.Test? && e.id.Given? then e.id.value else ""
  }

  function EntryIds(tests: seq<Entry>): (ids: seq<string>)
    ensures |ids| == |tests| && forall i :: 0 <= i < |tests| ==> ids[i] == EntryId(tests[i])
  {
    seq(|tests|, i requires 0 <= i < |tests| => EntryId(tests[i]))
  }

  predicate GoodIds(ids: seq<string>, catalog: seq<Descriptor>) {
    Distinct(ids) && forall i :: 0 <= i < |ids| ==> ids[i] != "" && KnownLeaf(catalog, ids[i])
  }

  predicate WholeOrNone(mask: bv32) {
    mask == 0 || mask == ALL_CHECKPOINTS
  }

  function Declared(count: Member<uint32>): uint32 {
    if count.Given? then count.value else 0
  }

  /** The plan id after the id member was read: a missing one leaves what was there. */
  function PlanIdAfter(before: string, plan: PlanJson): string {
    if plan.schemaVersion == Given(2) && plan.planId.Given? then plan.planId.value else before
  }

  /** Everything but the list of tests is in order; `planId` is the id after reading. */
  predicate HeaderFits(plan: PlanJson, planId: string, catalogId: string) {
    plan.schemaVersion == Given(2) && !plan.planId.Mistyped? && IsSha256Id(planId) &&
    (plan.catalogId == Given(catalogId) || (plan.catalogId.Missing? && catalogId == "")) &&
    !plan.selectedLeafCount.Mistyped? && plan.tests.Given?
  }

  /** Distinct known leaves, none of them selected before. */
  predicate NewIds(ids: seq<string>, catalog: seq<Descriptor>, left: set<string>) {
    GoodIds(ids, catalog) && forall id :: id in ids ==> id !in left
  }

  /** The plans an object accepts that holds a plan id and selected ids of earlier loads. */
  predicate AcceptableAfter(plan: PlanJson, catalog: seq<Descriptor>, catalogId: string, planId: string, left: set<string>)
    requires SmallBits(catalog)
  {
    HeaderFits(plan, PlanIdAfter(planId, plan), catalogId) &&
    var ids := EntryIds(plan.tests.value);
    NewIds(ids, catalog, left) && Counted(ids, left, Declared(plan.selectedLeafCount)) &&
    WholeOrNone(MaskOf(ids, catalog, MemoryRepresentative)) && WholeOrNone(MaskOf(ids, catalog, MemoryStress))
  }

  /** The declared count is that of all ids then selected, and not zero. */
  predicate Counted(ids: seq<string>, left: set<string>, declared: uint32) {
    |left + Elements(ids)| % TWO_32 == declared != 0
  }

  /** The plans a new object accepts. */
  predicate Acceptable(plan: PlanJson, catalog: seq<Descriptor>, catalogId: string)
    requires SmallBits(catalog)
  {
    plan.schemaVersion == Given(2) && plan.planId.Given? && IsSha256Id(plan.planId.value) &&
    (plan.catalogId == Given(catalogId) || (plan.catalogId.Missing? && catalogId == "")) &&
    !plan.selectedLeafCount.Mistyped? && plan.tests.Given? &&
    var ids := EntryIds(plan.tests.value);
    GoodIds(ids, catalog) && ids != [] && |ids| % TWO_32 == Declared(plan.selectedLeafCount) != 0 &&
    WholeOrNone(MaskOf(ids, catalog, MemoryRepresentative)) && WholeOrNone(MaskOf(ids, catalog, MemoryStress))
  }

  // ----- whole memory-pressure groups -----

  predicate InGroup(catalog: seq<Descriptor>, id: string, group: SelectionGroup) {
    var d := FindById(catalog, id);
    d.Some? && d.value.group == group
  }

  /** The selected leaves of the group carry exactly the five checkpoints. */
  ghost predicate AllCheckpoints(ids: seq<string>, catalog: seq<Descriptor>, group: SelectionGroup) {
    forall n: nat | n < 32 :: CarriedBySome(ids, catalog, group, n) <==> n < 5
  }

  ghost predicate CarriedBySome(ids: seq<string>, catalog: seq<Descriptor>, group: SelectionGroup, n: nat) {
    exists id :: id in ids && Carries(catalog, id, group, n)
  }

  /** The mask test accepts exactly a selection with none of the group's leaves, or with all five checkpoints. */
  lemma CheckpointsExactly(ids: seq<string>, catalog: seq<Descriptor>, group: SelectionGroup)
    requires SmallBits(catalog)
    ensures WholeOrNone(MaskOf(ids, catalog, group)) <==>
            (forall id | id in ids :: !InGroup(catalog, id, group)) || AllCheckpoints(ids, catalog, group)
  {
    hide HasBit, MaskOf, SmallBits, CarriedBySome, InGroup;
    var mask := MaskOf(ids, catalog, group);
    forall n: nat | n < 32
      ensures HasBit(mask, n) <==> CarriedBySome(ids, catalog, group, n)
      ensures !HasBit(0, n) && (HasBit(ALL_CHECKPOINTS, n) <==> n < 5)
    {
      CarriedBit(ids, catalog, group, n);
      NoBit(n);
      CheckpointBit(n);
    }
    BitsDetermine(mask, 0);
    BitsDetermine(mask, ALL_CHECKPOINTS);
    NothingCarried(ids, catalog, group);
  }

  lemma CarriedBit(ids: seq<string>, catalog: seq<Descriptor>, group: SelectionGroup, n: nat)
    requires SmallBits(catalog) && n < 32
    ensures HasBit(MaskOf(ids, catalog, group), n) <==> CarriedBySome(ids, catalog, group, n)
  {
    hide HasBit, MaskOf, SmallBits;
    MaskBit(ids, catalog, group, n);
  }

  lemma NothingCarried(ids: seq<string>, catalog: seq<Descriptor>, group: SelectionGroup)
    requires SmallBits(catalog)
    ensures (forall id | id in ids :: !InGroup(catalog, id, group)) <==>
            (forall n: nat | n < 32 :: !CarriedBySome(ids, catalog, group, n))
  {
    forall id | id in ids && InGroup(catalog, id, group)
      ensures exists n: nat :: n < 32 && CarriedBySome(ids, catalog, group, n)
    {
      GroupBit(catalog, id, group);
      var n: nat :| n < 32 && Carries(catalog, id, group, n);
      assert CarriedBySome(ids, catalog, group, n);
    }
  }

  lemma GroupBit(catalog: seq<Descriptor>, id: string, group: SelectionGroup)
    requires SmallBits(catalog) && InGroup(catalog, id, group)
    ensures exists n: nat :: n < 32 && Carries(catalog, id, group, n)
  {
    assert Carries(catalog, id, group, FindById(catalog, id).value.bit);
  }

  lemma CheckpointBit(n: nat)
    requires n < 32
    ensures HasBit(ALL_CHECKPOINTS, n) <==> n < 5
  {
  }

  /** A mask is determined by its bits. */
  lemma BitsDetermine(a: bv32, b: bv32)
    ensures SameBits(a, b) <==> a == b
  {
    if SameBits(a, b) {
      FirstByte(a, b);
      SecondByte(a, b);
      ThirdByte(a, b);
      FourthByte(a, b);
      hide SameBits;
      assert a == b;
    }
  }

  ghost predicate SameBits(a: bv32, b: bv32) {
    forall n: nat | n < 32 :: HasBit(a, n) <==> HasBit(b, n)
  }

  lemma FirstByte(a: bv32, b: bv32)
    requires SameBits(a, b)
    ensures a & 0xFF == b & 0xFF
  {
    assert HasBit(a, 0) <==> HasBit(b, 0);
    assert HasBit(a, 1) <==> HasBit(b, 1);
    assert HasBit(a, 2) <==> HasBit(b, 2);
    assert HasBit(a, 3) <==> HasBit(b, 3);
    assert HasBit(a, 4) <==> HasBit(b, 4);
    assert HasBit(a, 5) <==> HasBit(b, 5);
    assert HasBit(a, 6) <==> HasBit(b, 6);
    assert HasBit(a, 7) <==> HasBit(b, 7);
  }

  lemma SecondByte(a: bv32, b: bv32)
    requires SameBits(a, b)
    ensures a & 0xFF00 == b & 0xFF00
  {
    assert HasBit(a, 8) <==> HasBit(b, 8);
    assert HasBit(a, 9) <==> HasBit(b, 9);
    assert HasBit(a, 10) <==> HasBit(b, 10);
    assert HasBit(a, 11) <==> HasBit(b, 11);
    assert HasBit(a, 12) <==> HasBit(b, 12);
    assert HasBit(a, 13) <==> HasBit(b, 13);
    assert HasBit(a, 14) <==> HasBit(b, 14);
    assert HasBit(a, 15) <==> HasBit(b, 15);
  }

  lemma ThirdByte(a: bv32, b: bv32)
    requires SameBits(a, b)
    ensures a & 0xFF_0000 == b & 0xFF_0000
  {
    assert HasBit(a, 16) <==> HasBit(b, 16);
    assert HasBit(a, 17) <==> HasBit(b, 17);
    assert HasBit(a, 18) <==> HasBit(b, 18);
    assert HasBit(a, 19) <==> HasBit(b, 19);
    assert HasBit(a, 20) <==> HasBit(b, 20);
    assert HasBit(a, 21) <==> HasBit(b, 21);
    assert HasBit(a, 22) <==> HasBit(b, 22);
    assert HasBit(a, 23) <==> HasBit(b, 23);
  }

  lemma FourthByte(a: bv32, b: bv32)
    requires SameBits(a, b)
    ensures a & 0xFF00_0000 == b & 0xFF00_0000
  {
    assert HasBit(a, 24) <==> HasBit(b, 24);
    assert HasBit(a, 25) <==> HasBit(b, 25);
    assert HasBit(a, 26) <==> HasBit(b, 26);
    assert HasBit(a, 27) <==> HasBit(b, 27);
    assert HasBit(a, 28) <==> HasBit(b, 28);
    assert HasBit(a, 29) <==> HasBit(b, 29);
    assert HasBit(a, 30) <==> HasBit(b, 30);
    assert HasBit(a, 31) <==> HasBit(b, 31);
  }

  // ----- leftovers of an earlier load -----

  /** On a new object that is acceptance. */
  lemma FreshExactly(plan: PlanJson, catalog: seq<Descriptor>, catalogId: string)
    requires SmallBits(catalog)
    ensures AcceptableAfter(plan, catalog, catalogId, "", {}) <==> Acceptable(plan, catalog, catalogId)
  {
    hide MaskOf, SmallBits, IsSha256Id, KnownLeaf, WholeOrNone;
    EmptyIsNoId();
    if plan.tests.Given? {
      var ids := EntryIds(plan.tests.value);
      CountDistinct(ids);
      assert {} + Elements(ids) == Elements(ids);
      assert ids == [] ==> |ids| % TWO_32 == 0;
    }
  }

  /**
   * What ids of a refused load do to a plan that a new object accepts: it is accepted exactly
   * when it lists none of them and they do not change the 32-bit count.
   */
  lemma RetryExactly(plan: PlanJson, catalog: seq<Descriptor>, catalogId: string, planId: string, left: set<string>)
    requires SmallBits(catalog) && Acceptable(plan, catalog, catalogId)
    ensures AcceptableAfter(plan, catalog, catalogId, planId, left) <==>
            Elements(EntryIds(plan.tests.value)) !! left && |left| % TWO_32 == 0
  {
    hide MaskOf, SmallBits, IsSha256Id, KnownLeaf, WholeOrNone;
    var ids := EntryIds(plan.tests.value);
    CountDistinct(ids);
    if NewIds(ids, catalog, left) {
      assert Elements(ids) !! left;
    }
    if Elements(ids) !! left {
      assert |left + Elements(ids)| == |left| + |ids|;
      assert forall id :: id in ids ==> id in Elements(ids);
      AddedMultiple(|ids|, |left|);
    }
  }

  lemma AddedMultiple(n: nat, more: nat)
    ensures (more + n) % TWO_32 == n % TWO_32 <==> more % TWO_32 == 0
  {
  }

  /** An accepted plan selects exactly its own leaves when nothing was left, and more otherwise. */
  lemma RetrySelects(plan: PlanJson, catalog: seq<Descriptor>, catalogId: string, planId: string, left: set<string>)
    requires SmallBits(catalog) && AcceptableAfter(plan, catalog, catalogId, planId, left)
    ensures left + Elements(EntryIds(plan.tests.value)) == Elements(EntryIds(plan.tests.value)) <==> left == {}
  {
    hide MaskOf, SmallBits, IsSha256Id, GoodIds, WholeOrNone, Counted;
    var ids := EntryIds(plan.tests.value);
    if left != {} {
      var id :| id in left;
      assert id in left + Elements(ids) && id !in ids;
    }
  }

  function ListOf(id: string): seq<Entry> {
    [Test(Given(id))]
  }

  /**
   * One refused load is enough for both failures. After `a` was left, the plan of `b` alone is
   * refused with its own count of one, and accepted with a count of two, which selects `a` as well.
   */
  lemma LeftoverSelects(catalog: seq<Descriptor>, plan: PlanJson, a: string, b: string)
    requires SmallBits(catalog) && a != b && a != "" && KnownLeaf(catalog, a)
    requires plan.tests == Given(ListOf(b)) && plan.selectedLeafCount == Given(1)
    requires plan.catalogId.Given? && Acceptable(plan, catalog, plan.catalogId.value)
    ensures
      var catalogId, refused := plan.catalogId.value, plan.(tests := Given(ListOf(a)), selectedLeafCount := Given(2));
      !Acceptable(refused, catalog, catalogId) && HeaderFits(refused, plan.planId.value, catalogId) &&
      NewIds(EntryIds(ListOf(a)), catalog, {}) &&
      !AcceptableAfter(plan, catalog, catalogId, plan.planId.value, {a}) &&
      AcceptableAfter(plan.(selectedLeafCount := Given(2)), catalog, catalogId, plan.planId.value, {a}) &&
      {a} + Elements(EntryIds(ListOf(b))) == {a, b}
  {
    hide MaskOf, SmallBits, IsSha256Id, KnownLeaf, WholeOrNone;
    assert EntryIds(ListOf(a)) == [a] && EntryIds(ListOf(b)) == [b];
    assert Elements([b]) == {b} && {a} + {b} == {a, b} && |{a, b}| == 2 && |{a}| == 1;
    RetryExactly(plan, catalog, plan.catalogId.value, plan.planId.value, {a});
  }

  // ----- the configuration object -----

  const SCHEMA_ERROR := "resolved_plan[schema_version] must be 2"
  const PLAN_ID_ERROR := "resolved_plan[plan_id] must be a lowercase sha256 identifier"
  const CATALOG_ERROR := "resolved_plan[catalog_id] does not match the bundled catalog"
  const COUNT_ERROR := "resolved_plan[selected_leaf_count] must be an integer"
  const TESTS_ERROR := "resolved_plan[tests] must be an array"
  const LEAVES_ERROR := "resolved_plan[selected_leaf_count] does not match its unique leaf ids"
  const CHECKPOINTS_ERROR := "memory-pressure plans must include all five checkpoint leaf ids"

  /** The errors a check adds. */
  function Reported(error: Option<string>): seq<string> {
    if error.Some? then [error.value] else []
  }

  /** What is wrong with the members before the list of tests; the first violation is named. */
  function HeaderError(plan: PlanJson, planId: string, catalogId: string): (error: Option<string>)
    ensures error.None? <==> HeaderFits(plan, planId, catalogId)
  {
    if plan.schemaVersion != Given(2) then Some(SCHEMA_ERROR)
    else if plan.planId.Mistyped? || !IsSha256Id(planId)
    then Some(PLAN_ID_ERROR)
    else if !(plan.catalogId == Given(catalogId) || (plan.catalogId.Missing? && catalogId == ""))
    then Some(CATALOG_ERROR)
    else if plan.selectedLeafCount.Mistyped? then Some(COUNT_ERROR)
    else if !plan.tests.Given? then Some(TESTS_ERROR)
    else None
  }

  /** What is wrong with one entry after the ids in `selected`. */
  function EntryError(test: Entry, catalog: seq<Descriptor>, selected: set<string>): (error: Option<string>)
    ensures error.None? <==> EntryId(test) != "" && KnownLeaf(catalog, EntryId(test)) && EntryId(test) !in selected
  {
    if test.NotAnObject? then Some("resolved_plan[tests] entries must be objects")
    else if !test.id.Given? || test.id.value == "" then Some("resolved_plan test id must be a non-empty string")
    else if FindById(catalog, test.id.value).None? then Some("resolved_plan contains unknown test id: " + test.id.value)
    else if !KnownLeaf(catalog, test.id.value)
    then Some("resolved_plan must contain leaf ids, not group id: " + test.id.value)
    else if test.id.value in selected then Some("resolved_plan contains duplicate test id: " + test.id.value)
    else None
  }

  /** What is wrong with the selection as a whole. */
  function SelectionError(selected: nat, declared: uint32, representative: bv32, stress: bv32): (error: Option<string>)
    ensures error.None? <==> selected % TWO_32 == declared != 0 && WholeOrNone(representative) && WholeOrNone(stress)
  {
    if selected % TWO_32 == 0 || selected % TWO_32 != declared
    then Some(LEAVES_ERROR)
    else if !WholeOrNone(representative) || !WholeOrNone(stress)
    then Some(CHECKPOINTS_ERROR)
    else None
  }

  /** What is wrong with the list of tests, of which the first `taken` were selected on top of `left`. */
  function TestsError(tests: seq<Entry>, declared: uint32, catalog: seq<Descriptor>, left: set<string>, taken: nat)
    : Option<string>
    requires SmallBits(catalog) && taken <= |tests|
  {
    var ids := EntryIds(tests);
    if taken < |tests| then EntryError(tests[taken], catalog, left + Elements(ids[..taken]))
    else
      SelectionError(|left + Elements(ids)|, declared, MaskOf(ids, catalog, MemoryRepresentative),
                     MaskOf(ids, catalog, MemoryStress))
  }

  class RuntimeConfig {
    const catalog: seq<Descriptor>
    const catalogId: string
    var planId: string
    var selectedTestIds: set<string>
    var selectedLeafCount: uint32
    var hasResolvedPlan: bool
    var stageMask: bv32
    var crossTitleMask: bv32
    var s3tcMask: bv32
    var errors: seq<string>

    /** Only known leaves are ever selected; every bit of the catalog fits in a mask. */
    ghost predicate Valid()
      reads this
    {
      SmallBits(catalog) && forall id :: id in selectedTestIds ==> KnownLeaf(catalog, id)
    }

    /** The first `taken` entries were selected on top of `left`, and the next one, if any, was refused. */
    ghost predicate Took(ids: seq<string>, left: set<string>, taken: nat)
      requires SmallBits(catalog)
      reads this
    {
      taken <= |ids| && NewIds(ids[..taken], catalog, left) &&
      (taken < |ids| ==> !NewIds(ids[..taken + 1], catalog, left)) &&
      selectedTestIds == left + Elements(ids[..taken]) && stageMask == MaskOf(ids[..taken], catalog, LongScene) &&
      crossTitleMask == MaskOf(ids[..taken], catalog, CrossTitle) &&
      s3tcMask == MaskOf(ids[..taken], catalog, S3tcSyncFactor)
    }

    constructor (catalog: seq<Descriptor>, catalogId: string)
      requires SmallBits(catalog)
      ensures Valid() && this.catalog == catalog && this.catalogId == catalogId && errors == []
      ensures planId == "" && selectedTestIds == {} && !hasResolvedPlan && selectedLeafCount == 0
      ensures stageMask == 0 && crossTitleMask == 0 && s3tcMask == 0
    {
      this.catalog, this.catalogId := catalog, catalogId;
      planId, selectedTestIds, selectedLeafCount, hasResolvedPlan := "", {}, 0, false;
      stageMask, crossTitleMask, s3tcMask, errors := 0, 0, 0, [];
    }

    method Fail(error: string) returns (ok: bool)
      modifies this`errors
      ensures !ok && errors == old(errors) + [error]
    {
      errors := errors + [error];
      ok := false;
    }

    /** The members before the list of tests, in the source's order. */
    method CheckHeader(plan: PlanJson) returns (ok: bool)
      modifies this`planId, this`errors
      ensures planId == PlanIdAfter(old(planId), plan) && (ok <==> HeaderFits(plan, planId, catalogId))
      ensures errors == old(errors) + Reported(HeaderError(plan, planId, catalogId))
    {
      hide IsSha256Id, SCHEMA_ERROR, PLAN_ID_ERROR, CATALOG_ERROR, COUNT_ERROR, TESTS_ERROR;
      if plan.schemaVersion != Given(2) {
        ok := Fail(SCHEMA_ERROR);
        return;
      }
      if plan.planId.Given? {
        planId := plan.planId.value;
      }
      if plan.planId.Mistyped? || !IsSha256Id(planId) {
        ok := Fail(PLAN_ID_ERROR);
        return;
      }
      if plan.catalogId.Mistyped? || (if plan.catalogId.Given? then plan.catalogId.value else "") != catalogId {
        ok := Fail(CATALOG_ERROR);
        return;
      }
      if plan.selectedLeafCount.Mistyped? {
        ok := Fail(COUNT_ERROR);
        return;
      }
      if !plan.tests.Given? {
        ok := Fail(TESTS_ERROR);
        return;
      }
      ok := true;
    }

    /** The `resolved_plan` branch of `LoadConfigBuffer`, on an object that may hold the rest of earlier loads. */
    method LoadResolvedPlan(plan: PlanJson) returns (ok: bool, ghost taken: nat)
      requires Valid()
      modifies this
      ensures Valid() && planId == PlanIdAfter(old(planId), plan)
      ensures ok <==> AcceptableAfter(plan, catalog, catalogId, old(planId), old(selectedTestIds))
      ensures hasResolvedPlan == (old(hasResolvedPlan) || ok)
      ensures if HeaderFits(plan, planId, catalogId)
              then taken <= |plan.tests.value| &&
                   errors == old(errors) + Reported(TestsError(plan.tests.value, Declared(plan.selectedLeafCount), catalog,
                                                               old(selectedTestIds), taken))
              else errors == old(errors) + Reported(HeaderError(plan, planId, catalogId))
      ensures if HeaderFits(plan, planId, catalogId) then Took(EntryIds(plan.tests.value), old(selectedTestIds), taken)
              else unchanged(`selectedTestIds) && unchanged(`selectedLeafCount) && unchanged(`stageMask) &&
                   unchanged(`crossTitleMask) && unchanged(`s3tcMask)
      ensures ok ==> taken == |plan.tests.value| && selectedLeafCount == |selectedTestIds| % TWO_32
    {
      hide HeaderFits, NewIds, Counted, MaskOf, SmallBits, KnownLeaf, WholeOrNone, Took, TestsError, HeaderError;
      taken := 0;
      ok := CheckHeader(plan);
      if ok {
        assert HeaderFits(plan, planId, catalogId);
        HeaderGivesTests(plan, planId, catalogId);
        ok, taken := LoadTests(plan.tests.value, Declared(plan.selectedLeafCount));
      }
    }

    /** One entry: checks it and adds its id, or reports what is wrong with it. */
    method SelectTest(test: Entry) returns (found: Option<Descriptor>)
      modifies this`selectedTestIds, this`errors
      ensures found.Some? <==>
              EntryId(test) != "" && KnownLeaf(catalog, EntryId(test)) && EntryId(test) !in old(selectedTestIds)
      ensures found.Some? ==>
                found == FindById(catalog, EntryId(test)) && selectedTestIds == old(selectedTestIds) + {EntryId(test)}
      ensures found.None? ==> selectedTestIds == old(selectedTestIds)
      ensures errors == old(errors) + Reported(EntryError(test, catalog, old(selectedTestIds)))
    {
      var ok;
      found := None;
      if test.NotAnObject? {
        ok := Fail("resolved_plan[tests] entries must be objects");
        return;
      }
      if !test.id.Given? || test.id.value == "" {
        ok := Fail("resolved_plan test id must be a non-empty string");
        return;
      }
      var id := test.id.value;
      var descriptor := FindById(catalog, id);
      if descriptor.None? {
        ok := Fail("resolved_plan contains unknown test id: " + id);
        return;
      }
      if !descriptor.value.kind.LeafTest? {
        ok := Fail("resolved_plan must contain leaf ids, not group id: " + id);
        return;
      }
      if id in selectedTestIds {
        ok := Fail("resolved_plan contains duplicate test id: " + id);
        return;
      }
      selectedTestIds := selectedTestIds + {id};
      found := descriptor;
    }

    ghost function MaskView(representative: bv32, stress: bv32): Masks
      reads this`stageMask, this`crossTitleMask, this`s3tcMask
    {
      Masks(stageMask, crossTitleMask, s3tcMask, representative, stress)
    }

    /** The switch over the selection group; the memory-pressure masks are local to the caller. */
    method AddSelection(group: SelectionGroup, bit: bv32, representative: bv32, stress: bv32)
      returns (newRepresentative: bv32, newStress: bv32)
      modifies this`stageMask, this`crossTitleMask, this`s3tcMask
      ensures MaskView(newRepresentative, newStress) == AddBit(old(MaskView(representative, stress)), group, bit)
    {
      newRepresentative, newStress := representative, stress;
      match group {
        case LongScene => stageMask := Or(stageMask, bit);
        case CrossTitle => crossTitleMask := Or(crossTitleMask, bit);
        case S3tcSyncFactor => s3tcMask := Or(s3tcMask, bit);
        case MemoryRepresentative => newRepresentative := Or(newRepresentative, bit);
        case MemoryStress => newStress := Or(newStress, bit);
        case NoGroup =>
      }
    }

    /** The loop over the plan's tests and the two checks that follow it. */
    method LoadTests(tests: seq<Entry>, declared: uint32) returns (ok: bool, ghost taken: nat)
      requires Valid()
      modifies this`selectedTestIds, this`selectedLeafCount, this`hasResolvedPlan, this`stageMask,
               this`crossTitleMask, this`s3tcMask, this`errors
      ensures Valid() && Took(EntryIds(tests), old(selectedTestIds), taken)
      ensures
        var ids := EntryIds(tests);
        ok <==> NewIds(ids, catalog, old(selectedTestIds)) && Counted(ids, old(selectedTestIds), declared) &&
                WholeOrNone(MaskOf(ids, catalog, MemoryRepresentative)) &&
                WholeOrNone(MaskOf(ids, catalog, MemoryStress))
      ensures hasResolvedPlan == (old(hasResolvedPlan) || ok)
      ensures taken <= |tests| &&
              errors == old(errors) + Reported(TestsError(tests, declared, catalog, old(selectedTestIds), taken))
      ensures ok ==> taken == |tests| && selectedLeafCount == |selectedTestIds| % TWO_32
    {
      ghost var left := selectedTestIds;
      hide Bit, Or, NewIds, KnownLeaf, SmallBits, AddBit, MasksOf, MaskOf, Elements, WholeOrNone, EntryError, SelectionError;
      stageMask, crossTitleMask, s3tcMask := 0, 0, 0;
      var representative: bv32, stress: bv32 := 0, 0;
      ghost var ids := EntryIds(tests);
      NothingYet(ids, catalog, left);
      for i := 0 to |tests|
        invariant hasResolvedPlan == old(hasResolvedPlan) && errors == old(errors)
        invariant NewIds(ids[..i], catalog, left) && selectedTestIds == left + Elements(ids[..i])
        invariant forall id :: id in selectedTestIds ==> KnownLeaf(catalog, id)
        invariant MaskView(representative, stress) == MasksOf(ids[..i], catalog)
      {
        MasksParts(ids[..i], catalog);
        var descriptor := SelectTest(tests[i]);
        if descriptor.None? {
          BadEntry(ids, i, catalog, left);
          ok, taken := false, i;
          return;
        }
        BitIsSmall(descriptor.value, catalog);
        representative, stress :=
          AddSelection(descriptor.value.group, Bit(descriptor.value.bit), representative, stress);
        GoodStep(ids, i, catalog, left);
        MasksStep(ids, i, catalog, descriptor.value);
      }
      assert ids[..|tests|] == ids;
      MasksParts(ids, catalog);
      taken := |tests|;
      ok := CheckSelection(declared, representative, stress);
    }

    /** The declared count, then the memory-pressure checkpoints. */
    method CheckSelection(declared: uint32, representative: bv32, stress: bv32) returns (ok: bool)
      modifies this`selectedLeafCount, this`hasResolvedPlan, this`errors
      ensures ok <==> |selectedTestIds| % TWO_32 == declared != 0 && WholeOrNone(representative) && WholeOrNone(stress)
      ensures hasResolvedPlan == (old(hasResolvedPlan) || ok)
      ensures errors == old(errors) + Reported(SelectionError(|selectedTestIds|, declared, representative, stress))
      ensures selectedLeafCount == |selectedTestIds| % TWO_32
    {
      hide LEAVES_ERROR, CHECKPOINTS_ERROR;
      selectedLeafCount := |selectedTestIds| % TWO_32;
      if selectedLeafCount == 0 || selectedLeafCount != declared {
        ok := Fail(LEAVES_ERROR);
        return;
      }
      if (representative != 0 && representative != ALL_CHECKPOINTS) || (stress != 0 && stress != ALL_CHECKPOINTS) {
        ok := Fail(CHECKPOINTS_ERROR);
        return;
      }
      hasResolvedPlan := true;
      ok := true;
    }
  }

  lemma HeaderGivesTests(plan: PlanJson, planId: string, catalogId: string)
    requires HeaderFits(plan, planId, catalogId)
    ensures plan.tests.Given?
  {
  }

  // ----- applying the plan -----

  /** A registered suite and its still enabled tests. */
  class TestSuite {
    const name: string
    var tests: set<string>

    constructor (name: string, tests: set<string>)
      ensures this.name == name && this.tests == tests
    {
      this.name, this.tests := name, tests;
    }

    method DisableTests(testsToSkip: set<string>)
      modifies this
      ensures tests == old(tests) - testsToSkip
    {
      var remaining := testsToSkip;
      while remaining != {}
        invariant remaining <= testsToSkip
        invariant tests == old(tests) - (testsToSkip - remaining)
        decreases |remaining|
      {
        var name :| name in remaining;
        tests := tests - {name};
        remaining := remaining - {name};
      }
    }
  }

  /** Some selected leaf routes to this test of this suite. */
  ghost predicate Routed(selected: set<string>, catalog: seq<Descriptor>, suite: string, test: string) {
    exists id :: id in selected && FindById(catalog, id).Some? &&
      FindById(catalog, id).value.legacySuite == suite && FindById(catalog, id).value.executionTest == test
  }

  function Lookup(enabled: map<string, set<string>>, suite: string): set<string> {
    if suite in enabled then enabled[suite] else {}
  }

  /** `enabled` lists exactly the tests some leaf in `done` routes to. */
  ghost predicate Routes(enabled: map<string, set<string>>, done: set<string>, catalog: seq<Descriptor>) {
    forall suite, test :: test in Lookup(enabled, suite) <==> Routed(done, catalog, suite, test)
  }

  /** The execution tests of the selected leaves, by suite. */
  method EnabledExecutionTests(selected: set<string>, catalog: seq<Descriptor>)
    returns (enabled: map<string, set<string>>)
    requires forall id :: id in selected ==> KnownLeaf(catalog, id)
    ensures Routes(enabled, selected, catalog)
  {
    hide Routes, Lookup;
    enabled := map[];
    var rest := selected;
    RoutesNone(catalog);
    assert selected - rest == {};
    while rest != {}
      invariant rest <= selected
      invariant Routes(enabled, selected - rest, catalog)
      decreases |rest|
    {
      var id :| id in rest;
      var d := FindById(catalog, id).value;
      RoutesStep(enabled, selected - rest, catalog, id, d);
      assert selected - (rest - {id}) == selected - rest + {id};
      enabled := enabled[d.legacySuite := Lookup(enabled, d.legacySuite) + {d.executionTest}];
      rest := rest - {id};
    }
    assert selected - rest == selected;
  }

  lemma RoutesNone(catalog: seq<Descriptor>)
    ensures Routes(map[], {}, catalog)
  {
  }

  lemma RoutesStep(enabled: map<string, set<string>>, done: set<string>, catalog: seq<Descriptor>, id: string,
                   d: Descriptor)
    requires Routes(enabled, done, catalog) && FindById(catalog, id) == Some(d)
    ensures Routes(enabled[d.legacySuite := Lookup(enabled, d.legacySuite) + {d.executionTest}], done + {id}, catalog)
  {
    hide Routed;
    RoutedStep(done, catalog, id, d);
  }

  lemma RoutedStep(done: set<string>, catalog: seq<Descriptor>, id: string, d: Descriptor)
    requires FindById(catalog, id) == Some(d)
    ensures forall suite, test ::
              Routed(done + {id}, catalog, suite, test) <==>
              Routed(done, catalog, suite, test) || (suite == d.legacySuite && test == d.executionTest)
  {
    forall suite, test
      ensures Routed(done + {id}, catalog, suite, test) <==>
              Routed(done, catalog, suite, test) || (suite == d.legacySuite && test == d.executionTest)
    {
      if suite == d.legacySuite && test == d.executionTest {
        assert id in done + {id};
      }
      if Routed(done, catalog, suite, test) {
        var other :| other in done && FindById(catalog, other).Some? &&
          FindById(catalog, other).value.legacySuite == suite && FindById(catalog, other).value.executionTest == test;
        assert other in done + {id};
      }
    }
  }

  /** The suites that still have an enabled test, in their original order. */
  ghost function NonEmpty(suites: seq<TestSuite>): seq<TestSuite>
    reads suites
  {
    if suites == [] then []
    else
      var last := suites[|suites| - 1];
      NonEmpty(suites[..|suites| - 1]) + if last.tests != {} then [last] else []
  }

  /**
   * Applies an accepted plan: a test stays enabled iff some selected leaf routes to it,
   * and exactly the suites with an enabled test remain.
   */
  method ApplyConfig(config: RuntimeConfig, suites: seq<TestSuite>) returns (filtered: seq<TestSuite>)
    requires forall id :: id in config.selectedTestIds ==> KnownLeaf(config.catalog, id)
    requires forall i, j :: 0 <= i < j < |suites| ==> suites[i] != suites[j]
    modifies suites
    ensures forall i :: 0 <= i < |suites| ==>
              forall test :: test in suites[i].tests <==>
                test in old(suites[i].tests) && Routed(config.selectedTestIds, config.catalog, suites[i].name, test)
    ensures filtered == NonEmpty(suites) && forall suite :: suite in filtered <==> suite in suites && suite.tests != {}
  {
    hide Lookup, Routed, NonEmpty;
    var enabled := EnabledExecutionTests(config.selectedTestIds, config.catalog);
    filtered := FilterSuites(enabled, suites);
    assert Routes(enabled, config.selectedTestIds, config.catalog);
    KeptSuites(suites);
  }

  lemma {:induction false} KeptSuites(suites: seq<TestSuite>)
    ensures forall suite :: suite in NonEmpty(suites) <==> suite in suites && suite.tests != {}
  {
    if suites != [] {
      KeptSuites(suites[..|suites| - 1]);
      assert suites == suites[..|suites| - 1] + [suites[|suites| - 1]];
    }
  }

  /** Disables what is not enabled, suite by suite, and keeps the suites that still have a test. */
  method FilterSuites(enabled: map<string, set<string>>, suites: seq<TestSuite>) returns (filtered: seq<TestSuite>)
    requires forall i, j :: 0 <= i < j < |suites| ==> suites[i] != suites[j]
    modifies suites
    ensures forall k :: 0 <= k < |suites| ==> suites[k].tests == old(suites[k].tests) * Lookup(enabled, suites[k].name)
    ensures filtered == NonEmpty(suites)
  {
    hide Lookup;
    filtered := [];
    for i := 0 to |suites|
      invariant forall k :: i <= k < |suites| ==> suites[k].tests == old(suites[k].tests)
      invariant forall k :: 0 <= k < i ==> suites[k].tests == old(suites[k].tests) * Lookup(enabled, suites[k].name)
      invariant filtered == NonEmpty(suites[..i])
    {
      var suite := suites[i];
      var disabled := set test | test in suite.tests && test !in Lookup(enabled, suite.name);
      assert suite !in suites[..i];
      suite.DisableTests(disabled);
      assert suites[..i + 1][..i] == suites[..i];
      if suite.tests != {} {
        filtered := filtered + [suite];
      }
    }
    assert suites[..|suites|] == suites;
  }

  lemma MasksParts(ids: seq<string>, catalog: seq<Descriptor>)
    requires SmallBits(catalog)
    ensures MasksOf(ids, catalog) ==
            Masks(MaskOf(ids, catalog, LongScene), MaskOf(ids, catalog, CrossTitle), MaskOf(ids, catalog, S3tcSyncFactor),
                  MaskOf(ids, catalog, MemoryRepresentative), MaskOf(ids, catalog, MemoryStress))
  {
  }

  lemma NothingYet(ids: seq<string>, catalog: seq<Descriptor>, left: set<string>)
    requires SmallBits(catalog)
    ensures NewIds(ids[..0], catalog, left) && left + Elements(ids[..0]) == left
    ensures MasksOf(ids[..0], catalog) == Masks(0, 0, 0, 0, 0)
  {
  }

  lemma BitIsSmall(d: Descriptor, catalog: seq<Descriptor>)
    requires SmallBits(catalog) && d in catalog
    ensures d.bit < 32
  {
  }

  lemma EmptyIsNoId()
    ensures !IsSha256Id("")
  {
  }

  lemma BadEntry(ids: seq<string>, i: nat, catalog: seq<Descriptor>, left: set<string>)
    requires i < |ids|
    requires ids[i] == "" || !KnownLeaf(catalog, ids[i]) || ids[i] in left + Elements(ids[..i])
    ensures !NewIds(ids[..i + 1], catalog, left) && !NewIds(ids, catalog, left)
  {
    hide KnownLeaf;
    var front := ids[..i + 1];
    assert front[i] == ids[i] && ids[i] in ids;
    if ids[i] in ids[..i] {
      var j :| 0 <= j < i && ids[..i][j] == ids[i];
      assert front[j] == front[i] && ids[j] == ids[i];
    }
  }

  lemma GoodStep(ids: seq<string>, i: nat, catalog: seq<Descriptor>, left: set<string>)
    requires i < |ids| && NewIds(ids[..i], catalog, left)
    requires ids[i] != "" && KnownLeaf(catalog, ids[i]) && ids[i] !in left + Elements(ids[..i])
    ensures NewIds(ids[..i + 1], catalog, left)
    ensures left + Elements(ids[..i + 1]) == left + Elements(ids[..i]) + {ids[i]}
  {
    hide KnownLeaf;
    assert ids[..i + 1] == ids[..i] + [ids[i]];
    assert forall j :: 0 <= j < i ==> ids[..i][j] == ids[j];
  }

  lemma MaskStep(ids: seq<string>, i: nat, catalog: seq<Descriptor>, d: Descriptor, group: SelectionGroup)
    requires SmallBits(catalog) && i < |ids| && FindById(catalog, ids[i]) == Some(d)
    ensures MaskOf(ids[..i + 1], catalog, group) ==
            if group == d.group then Or(MaskOf(ids[..i], catalog, group), Bit(d.bit)) else MaskOf(ids[..i], catalog, group)
  {
    hide Or, Bit, SmallBits;
    assert ids[..i + 1][..i] == ids[..i];
    OrAbsorbs(MaskOf(ids[..i], catalog, group), 0, 0);
  }

  datatype Masks = Masks(stage: bv32, cross: bv32, s3tc: bv32, representative: bv32, stress: bv32)

  function MasksOf(ids: seq<string>, catalog: seq<Descriptor>): Masks
    requires SmallBits(catalog)
  {
    Masks(MaskOf(ids, catalog, LongScene), MaskOf(ids, catalog, CrossTitle), MaskOf(ids, catalog, S3tcSyncFactor),
          MaskOf(ids, catalog, MemoryRepresentative), MaskOf(ids, catalog, MemoryStress))
  }

  function AddBit(m: Masks, group: SelectionGroup, bit: bv32): Masks {
    match group
    case LongScene => m.(stage := Or(m.stage, bit))
    case CrossTitle => m.(cross := Or(m.cross, bit))
    case S3tcSyncFactor => m.(s3tc := Or(m.s3tc, bit))
    case MemoryRepresentative => m.(representative := Or(m.representative, bit))
    case MemoryStress => m.(stress := Or(m.stress, bit))
    case NoGroup => m
  }

  lemma MasksStep(ids: seq<string>, i: nat, catalog: seq<Descriptor>, d: Descriptor)
    requires SmallBits(catalog) && i < |ids| && FindById(catalog, ids[i]) == Some(d)
    ensures MasksOf(ids[..i + 1], catalog) == AddBit(MasksOf(ids[..i], catalog), d.group, Bit(d.bit))
  {
    hide Or, Bit, SmallBits, MaskOf;
    MaskStep(ids, i, catalog, d, LongScene);
    MaskStep(ids, i, catalog, d, CrossTitle);
    MaskStep(ids, i, catalog, d, S3tcSyncFactor);
    MaskStep(ids, i, catalog, d, MemoryRepresentative);
    MaskStep(ids, i, catalog, d, MemoryStress);
  }

  /** The order of the plan's tests changes neither its acceptance nor any mask. */
  lemma PlanOrderIrrelevant(plan: PlanJson, tests: seq<Entry>, catalog: seq<Descriptor>, catalogId: string,
                            group: SelectionGroup)
    requires SmallBits(catalog) && plan.tests.Given? && multiset(tests) == multiset(plan.tests.value)
    ensures Acceptable(plan, catalog, catalogId) <==> Acceptable(plan.(tests := Given(tests)), catalog, catalogId)
    ensures MaskOf(EntryIds(tests), catalog, group) == MaskOf(EntryIds(plan.tests.value), catalog, group)
  {
    hide MaskOf, Bit, IsSha256Id, SmallBits, KnownLeaf;
    var a, b := plan.tests.value, tests;
    SameIds(a, b);
    SameIds(b, a);
    MaskOfSameIds(EntryIds(a), EntryIds(b), catalog, group);
    MaskOfSameIds(EntryIds(a), EntryIds(b), catalog, MemoryRepresentative);
    MaskOfSameIds(EntryIds(a), EntryIds(b), catalog, MemoryStress);
    assert |a| == |b| by {
      assert |multiset(a)| == |multiset(b)|;
    }
    if GoodIds(EntryIds(a), catalog) {
      GoodPermutation(a, b, catalog);
    }
    if GoodIds(EntryIds(b), catalog) {
      GoodPermutation(b, a, catalog);
    }
  }

  lemma SameIds(a: seq<Entry>, b: seq<Entry>)
    requires multiset(a) == multiset(b)
    ensures forall id :: id in EntryIds(a) ==> id in EntryIds(b)
  {
    forall id | id in EntryIds(a) ensures id in EntryIds(b) {
      var i :| 0 <= i < |a| && EntryIds(a)[i] == id;
      assert a[i] in multiset(b);
      var j :| 0 <= j < |b| && b[j] == a[i];
      assert EntryIds(b)[j] == id;
    }
  }

  /** Distinct ids stay distinct under reordering. */
  lemma GoodPermutation(a: seq<Entry>, b: seq<Entry>, catalog: seq<Descriptor>)
    requires multiset(a) == multiset(b) && GoodIds(EntryIds(a), catalog)
    ensures GoodIds(EntryIds(b), catalog)
  {
    SameElements(a, b);
    SameIds(a, b);
    SameIds(b, a);
    assert Elements(EntryIds(a)) == Elements(EntryIds(b));
    CountDistinct(EntryIds(a));
    CountDistinct(EntryIds(b));
    forall i | 0 <= i < |b| ensures EntryIds(b)[i] != "" && KnownLeaf(catalog, EntryIds(b)[i]) {
      assert EntryIds(b)[i] in EntryIds(a);
    }
  }
}
