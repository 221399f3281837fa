/** The determinism ledger: one entry per unit of guest work, fed by xemu reports. */
module DeterminismLedger {
  import opened JsonTree
  import opened OracleRecords
  import opened OracleReport
  import opened Sorting

  /** What makes two records the same work on the same backend. */
  datatype Work = Work(
    sourceBackend: Json, surfaceScale: Json, guestImage: Json, job: Json, testId: Json, contract: Json)

  datatype Entry = Entry(work: Work, hashes: Json, reportIds: seq<Json>, observationCount: nat)

  type Entries = map<string, Entry>

  /** One eligible record of one report. */
  datatype Observation = Observation(work: Work, hashes: Json, reportId: Json)

  function WorkJson(w: Work): Json {
    Obj(map["source_backend" := w.sourceBackend, "surface_scale" := w.surfaceScale,
            "guest_image_sha256" := w.guestImage, "job_sha256" := w.job, "test_id" := w.testId,
            "contract" := w.contract])
  }

  /** `_ledger_key` */
  function KeyOf(codec: Codec, w: Work): string {
    codec.Hash(WorkJson(w))
  }

  // ----- one record -----

  /** Adding a report id to an entry's sorted list; sorting raises when the kinds are mixed. */
  function AddId(ids: seq<Json>, id: Json): Result<seq<Json>> {
    if id in ids then Ok(ids)
    else if !AllSameKind((set x | x in ids) + {id}) then Err(Crash)
    else Ok(Sort(IdLeq, ids + [id]))
  }

  function Record(codec: Codec, entries: Entries, o: Observation): Result<Entries> {
    var key := KeyOf(codec, o.work);
    if key in entries && !PyEq(entries[key].hashes, o.hashes) then Err(Nondeterminism)
    else
      var existing := if key in entries then entries[key] else Entry(o.work, o.hashes, [], 0);
      var ids :- AddId(existing.reportIds, o.reportId);
      Ok(entries[key := existing.(reportIds := ids, observationCount := |ids|)])
  }

  function Apply(codec: Codec, entries: Entries, observations: seq<Observation>): Result<Entries> {
    if observations == [] then Ok(entries)
    else
      var n := |observations| - 1;
      var staged :- Apply(codec, entries, observations[..n]);
      Record(codec, staged, observations[n])
  }

  lemma {:induction false} ApplyAppend(codec: Codec, entries: Entries, a: seq<Observation>, b: seq<Observation>)
    ensures
      Apply(codec, entries, a + b) ==
      var staged := Apply(codec, entries, a);
      if staged.Err? then staged else Apply(codec, staged.value, b)
    decreases |b|
  {
    hide Record;
    if b == [] {
      assert a + b == a;
    } else {
      var n := |b| - 1;
      assert (a + b)[..|a + b| - 1] == a + b[..n];
      ApplyAppend(codec, entries, a, b[..n]);
    }
  }

  // ----- one report -----

  /** The guest's own oracle failed: the record is skipped. */
  predicate HasFailed(record: Json) {
    record.Obj? && var internal := Get(record.fields, "internal_oracle");
    internal.Obj? && Get(internal.fields, "status") == Str("FAIL")
  }

  function WorkOf(r: Report, record: Json): Work {
    var f := if record.Obj? then record.fields else map[];
    Work(r.sourceBackend, r.surfaceScale, r.guestImage, r.job, Get(f, "test_id"), Get(f, "contract"))
  }

  function ObservationOf(r: Report, record: Json): Observation {
    Observation(WorkOf(r, record), if record.Obj? then Get(record.fields, "hashes") else Null, r.reportId)
  }

  function ObservationsIn(r: Report, records: seq<Json>): seq<Observation> {
    if records == [] then []
    else
      var n := |records| - 1;
      ObservationsIn(r, records[..n]) + if HasFailed(records[n]) then [] else [ObservationOf(r, records[n])]
  }

  function Observations(r: Report): seq<Observation> {
    if r.records.Arr? then ObservationsIn(r, r.records.items) else []
  }

  /** An integer from 1 through 4 that is no boolean. */
  predicate IsScale(v: Json) {
    v.Int? && 1 <= v.i <= 4
  }

  ghost predicate IsLedgerReport(codec: Codec, r: Report) {
    ValidReport(codec, r) && r.sourceType == XEMU && IsScale(r.surfaceScale)
  }

  ghost function Updated(codec: Codec, entries: Entries, r: Report): Result<Entries> {
    if !IsLedgerReport(codec, r) then Err(Invalid) else Apply(codec, entries, Observations(r))
  }

  datatype Skipped = Skipped(testId: Json, reason: Json)

  datatype Excluded = Excluded(testId: Json, observations: Json, reason: Json)

  datatype Summary = Summary(recordCount: int, skipped: seq<Skipped>, excluded: seq<Excluded>)

  function SkippedOf(record: Json): Skipped
    requires HasFailed(record)
  {
    var internal := record.fields["internal_oracle"].fields;
    Skipped(Get(record.fields, "test_id"),
            if "failure_reason" in internal then internal["failure_reason"] else Str("guest internal oracle failed"))
  }

  function SkippedIn(records: seq<Json>): seq<Skipped> {
    if records == [] then []
    else
      var n := |records| - 1;
      SkippedIn(records[..n]) + if HasFailed(records[n]) then [SkippedOf(records[n])] else []
  }

  function ExcludedOf(record: Json): seq<Excluded> {
    if HasFailed(record) || !record.Obj? || !Get(record.fields, "comparison_policy").Obj? then []
    else
      var policy := record.fields["comparison_policy"].fields;
      [Excluded(Get(record.fields, "test_id"), Get(policy, "excluded_observations"), Get(policy, "reason"))]
  }

  function ExcludedIn(records: seq<Json>): seq<Excluded> {
    if records == [] then []
    else ExcludedIn(records[..|records| - 1]) + ExcludedOf(records[|records| - 1])
  }

  function SummaryOf(records: seq<Json>): Summary {
    Summary(|records| - |SkippedIn(records)|, SkippedIn(records), ExcludedIn(records))
  }

  lemma {:induction false} ObservationsAppend(r: Report, a: seq<Json>, b: seq<Json>)
    ensures ObservationsIn(r, a + b) == ObservationsIn(r, a) + ObservationsIn(r, b)
    decreases |b|
  {
    hide HasFailed, ObservationOf;
    if b == [] {
      assert a + b == a;
    } else {
      var n := |b| - 1;
      assert (a + b)[..|a + b| - 1] == a + b[..n];
      ObservationsAppend(r, a, b[..n]);
    }
  }

  /** An update that fails on a prefix of the records fails. */
  lemma FailsOnPrefix(codec: Codec, entries: Entries, r: Report, records: seq<Json>, i: nat)
    requires i <= |records| && Apply(codec, entries, ObservationsIn(r, records[..i])).Err?
    ensures Apply(codec, entries, ObservationsIn(r, records)) == Apply(codec, entries, ObservationsIn(r, records[..i]))
  {
    hide Apply, ObservationsIn;
    assert records == records[..i] + records[i..];
    ObservationsAppend(r, records[..i], records[i..]);
    ApplyAppend(codec, entries, ObservationsIn(r, records[..i]), ObservationsIn(r, records[i..]));
  }

  lemma OneMoreRecord(codec: Codec, entries: Entries, r: Report, records: seq<Json>, i: nat)
    requires i < |records|
    ensures SkippedIn(records[..i + 1]) ==
            SkippedIn(records[..i]) + if HasFailed(records[i]) then [SkippedOf(records[i])] else []
    ensures ExcludedIn(records[..i + 1]) == ExcludedIn(records[..i]) + ExcludedOf(records[i])
    ensures
      Apply(codec, entries, ObservationsIn(r, records[..i + 1])) ==
      var staged := Apply(codec, entries, ObservationsIn(r, records[..i]));
      if HasFailed(records[i]) || staged.Err? then staged
      else Record(codec, staged.value, ObservationOf(r, records[i]))
  {
    hide HasFailed, SkippedOf, ExcludedOf, ObservationOf, Record;
    assert records[..i + 1][..i] == records[..i] && records[..i + 1][i] == records[i];
    var front := ObservationsIn(r, records[..i]);
    if HasFailed(records[i]) {
      assert ObservationsIn(r, records[..i + 1]) == front;
    } else {
      var o := ObservationOf(r, records[i]);
      assert (front + [o])[..|front|] == front;
    }
  }

  class DeterminismLedger {
    var entries: Entries

    constructor ()
      ensures entries == map[]
    {
      entries := map[];
    }

    /** `update_determinism_ledger`: all records of the report are recorded, or the ledger stays as it was. */
    method Update(codec: Codec, report: Report) returns (r: Result<Summary>)
      modifies this
      ensures
        match Updated(codec, old(entries), report)
        case Ok(next) => entries == next && r == Ok(SummaryOf(report.records.items))
        case Err(error) => entries == old(entries) && r == Err(error)
    {
      hide ValidReport, ObservationsIn, Apply, SkippedIn, ExcludedIn;
      var valid := ValidateReport(codec, report);
      if !valid || report.sourceType != XEMU || !IsScale(report.surfaceScale) {
        return Err(Invalid);
      }
      RecordsAreListed(codec, report);
      var staged := Stage(codec, report, report.records.items);
      if staged.Err? {
        return Err(staged.error);
      }
      entries := staged.value.0;
      return Ok(staged.value.1);
    }

    /** The loop over the records, on a copy of the entries. */
    method Stage(codec: Codec, report: Report, records: seq<Json>) returns (r: Result<(Entries, Summary)>)
      ensures
        match Apply(codec, entries, ObservationsIn(report, records))
        case Ok(next) => r == Ok((next, SummaryOf(records)))
        case Err(error) => r == Err(error)
    {
      hide HasFailed, ObservationsIn, Apply, SkippedIn, ExcludedIn, SkippedOf, ExcludedOf, Record, ObservationOf;
      var staged := entries;
      var skipped: seq<Skipped> := [];
      var excluded: seq<Excluded> := [];
      assert records[..|records|] == records;
      NothingYet(codec, entries, report);
      for i := 0 to |records|
        invariant Apply(codec, entries, ObservationsIn(report, records[..i])) == Ok(staged)
        invariant skipped == SkippedIn(records[..i]) && excluded == ExcludedIn(records[..i])
      {
        var record := records[i];
        OneMoreRecord(codec, entries, report, records, i);
        if HasFailed(record) {
          FailedIsNotExcluded(record);
          skipped := skipped + [SkippedOf(record)];
          continue;
        }
        excluded := excluded + ExcludedOf(record);
        var next := Record(codec, staged, ObservationOf(report, record));
        if next.Err? {
          FailsOnPrefix(codec, entries, report, records, i + 1);
          return Err(next.error);
        }
        staged := next.value;
      }
      return Ok((staged, Summary(|records| - |skipped|, skipped, excluded)));
    }
  }

  lemma NothingYet(codec: Codec, entries: Entries, r: Report)
    ensures Apply(codec, entries, ObservationsIn(r, [])) == Ok(entries) && SkippedIn([]) == [] && ExcludedIn([]) == []
  {
  }

  lemma FailedIsNotExcluded(record: Json)
    requires HasFailed(record)
    ensures ExcludedOf(record) == []
  {
  }

  lemma RecordsAreListed(codec: Codec, r: Report)
    requires ValidReport(codec, r)
    ensures r.records.Arr? && Observations(r) == ObservationsIn(r, r.records.items)
  {
    hide HashText, SealHolds, ObservationsIn;
  }
}
