/** The generated test catalog: one descriptor per result the guest can print. */
module Catalog {
  import opened Text

  datatype TestKind = LeafTest | GroupTest

  datatype SelectionGroup =
    | NoGroup | LongScene | CrossTitle | S3tcSyncFactor | MemoryRepresentative | MemoryStress

  datatype Descriptor = Descriptor(
    id: string, revision: uint32, legacySuite: string, legacyResult: string, executionTest: string,
    kind: TestKind, group: SelectionGroup, bit: nat)

  function FindById(catalog: seq<Descriptor>, id: string): (r: Option<Descriptor>)
    ensures r.Some? ==> r.value in catalog && r.value.id == id
    ensures r.None? ==> forall d :: d in catalog ==> d.id != id
  {
    if catalog == [] then None
    else if catalog[0].id == id then Some(catalog[0])
    else FindById(catalog[1..], id)
  }

  function FindByResult(catalog: seq<Descriptor>, suite: string, result: string): (r: Option<Descriptor>)
    ensures r.Some? ==> r.value in catalog && r.value.legacySuite == suite && r.value.legacyResult == result
    ensures r.None? ==> forall d :: d in catalog ==> !(d.legacySuite == suite && d.legacyResult == result)
  {
    if catalog == [] then None
    else if catalog[0].legacySuite == suite && catalog[0].legacyResult == result then Some(catalog[0])
    else FindByResult(catalog[1..], suite, result)
  }
}
