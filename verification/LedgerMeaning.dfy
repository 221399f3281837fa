/** Which reports the ledger takes and what an update says about their records, in words. */
module LedgerMeaning {
  import opened DeterminismLedger
  import opened JsonTree
  import opened OracleReport
  import RecordMeaning
  import opened ReportMeaning

  /** A valid raw xemu report at one of the four surface scales. */
  lemma TakenInWords(codec: Codec, r: Report)
    requires codec.Valid()
    ensures IsLedgerReport(codec, r) <==>
            ReportStands(codec, r) && r.sourceType == Str("XEMU") &&
            r.surfaceScale in {Int(1), Int(2), Int(3), Int(4)}
  {
    hide ReportStands, ValidReport;
    ReportStandsExactly(codec, r);
  }

  /** The record's own oracle is an object whose status is `FAIL`. */
  predicate GuestFailed(record: Json) {
    record.Obj? && RecordMeaning.Member(record.fields, "internal_oracle").Obj? &&
    RecordMeaning.Member(record.fields["internal_oracle"].fields, "status") == Str("FAIL")
  }

  /** What is said about one skipped record. */
  function SkippedLine(record: Json): Skipped
    requires GuestFailed(record)
  {
    var internal := record.fields["internal_oracle"].fields;
    Skipped(RecordMeaning.Member(record.fields, "test_id"),
            if "failure_reason" in internal then internal["failure_reason"] else Str("guest internal oracle failed"))
  }

  /** What is said about one recorded record: the observations its policy leaves out. */
  function ExcludedLine(record: Json): seq<Excluded> {
    if GuestFailed(record) || !record.Obj? || !RecordMeaning.Member(record.fields, "comparison_policy").Obj? then []
    else
      var policy := record.fields["comparison_policy"].fields;
      [Excluded(RecordMeaning.Member(record.fields, "test_id"),
                RecordMeaning.Member(policy, "excluded_observations"), RecordMeaning.Member(policy, "reason"))]
  }

  function SkippedLines(records: seq<Json>): seq<Skipped> {
    if records == [] then []
    else (if GuestFailed(records[0]) then [SkippedLine(records[0])] else []) + SkippedLines(records[1..])
  }

  function ExcludedLines(records: seq<Json>): seq<Excluded> {
    if records == [] then [] else ExcludedLine(records[0]) + ExcludedLines(records[1..])
  }

  lemma LinesOfRecord(record: Json)
    ensures HasFailed(record) <==> GuestFailed(record)
    ensures GuestFailed(record) ==> SkippedOf(record) == SkippedLine(record)
    ensures ExcludedOf(record) == ExcludedLine(record)
  {
  }

  lemma {:induction false} SkippedFromLast(records: seq<Json>)
    ensures SkippedLines(records) == SkippedIn(records)
    decreases |records|
  {
    hide HasFailed, GuestFailed, SkippedOf, SkippedLine;
    if records != [] {
      var front, last := records[..|records| - 1], records[|records| - 1];
      assert records == front + [last];
      SkippedFromLast(front);
      SkippedAppend(front, last);
      LinesOfRecord(last);
    }
  }

  lemma {:induction false} SkippedAppend(front: seq<Json>, last: Json)
    ensures SkippedLines(front + [last]) ==
            SkippedLines(front) + if GuestFailed(last) then [SkippedLine(last)] else []
    decreases |front|
  {
    hide GuestFailed, SkippedLine;
    var all := front + [last];
    if front == [] {
      assert all == [last];
      assert all[1..] == [];
    } else {
      assert all[1..] == front[1..] + [last];
      SkippedAppend(front[1..], last);
      SkippedFirst(front);
      SkippedFirst(all);
    }
  }

  lemma SkippedFirst(records: seq<Json>)
    requires records != []
    ensures SkippedLines(records) ==
            (if GuestFailed(records[0]) then [SkippedLine(records[0])] else []) + SkippedLines(records[1..])
  {
    hide GuestFailed, SkippedLine;
  }

  lemma {:induction false} ExcludedFromLast(records: seq<Json>)
    ensures ExcludedLines(records) == ExcludedIn(records)
    decreases |records|
  {
    hide ExcludedOf, ExcludedLine;
    if records != [] {
      var front, last := records[..|records| - 1], records[|records| - 1];
      assert records == front + [last];
      ExcludedFromLast(front);
      ExcludedAppend(front, last);
      LinesOfRecord(last);
    }
  }

  lemma {:induction false} ExcludedAppend(front: seq<Json>, last: Json)
    ensures ExcludedLines(front + [last]) == ExcludedLines(front) + ExcludedLine(last)
    decreases |front|
  {
    hide ExcludedLine;
    var all := front + [last];
    if front == [] {
      assert all[1..] == [];
    } else {
      assert all[1..] == front[1..] + [last];
      ExcludedAppend(front[1..], last);
    }
  }

  /** The summary of an update: how many records count, which were skipped and why, what was left out. */
  lemma SummaryInWords(records: seq<Json>)
    ensures SummaryOf(records) ==
            Summary(|records| - |SkippedLines(records)|, SkippedLines(records), ExcludedLines(records))
  {
    hide SkippedIn, ExcludedIn, SkippedLines, ExcludedLines;
    SkippedFromLast(records);
    ExcludedFromLast(records);
  }

  /** The recorded observations are those of the records that did not fail. */
  lemma {:induction false} ObservedExactly(r: Report, records: seq<Json>)
    ensures forall o :: o in ObservationsIn(r, records) <==>
              exists i :: 0 <= i < |records| && !GuestFailed(records[i]) && o == ObservationOf(r, records[i])
    decreases |records|
  {
    hide HasFailed, GuestFailed, ObservationOf;
    if records != [] {
      var n := |records| - 1;
      ObservedExactly(r, records[..n]);
      LinesOfRecord(records[n]);
      assert forall i | 0 <= i < n :: records[..n][i] == records[i];
    }
  }
}
