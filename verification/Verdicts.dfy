/** The verdict on one result: formed by the guest, printed, and read back by the viewer. */
module Verdicts {
  import opened Text
  import opened ResultFile
  import opened ResultReader
  import opened ResultRoundTrip
  import opened ResultRecovery
  import opened Catalog
  import opened TestHost
  import opened PerfRun

  /** The viewer's verdict on a stored record. */
  predicate IsFailure(stored: StoredRecord) {
    stored.oracleFailed || stored.outcome == "FAIL"
  }

  /** The guest fails a result whose test failed or whose metadata reports a failed oracle. */
  predicate GuestFails(result: Result) {
    result.failed || ReportsOracleFailure(result.metadata)
  }

  /** The viewer fails a printed result exactly when the guest did. */
  lemma ViewerAgrees(s: Settings, result: Result)
    requires Recordable(s, result)
    ensures IsFailure(Stored(RecordOf(s, result))) <==> GuestFails(result)
  {
    hide Recordable, Stored, Printable, ReportsOracleFailure, MetadataStatus, FirstStatusIsFail, StatusAtMostOnce;
    var r := RecordOf(s, result);
    RecordPrintable(s, result);
    StoredIsFaithful(r);
    StoredOracleStatus(r);
    FlagAgreesExactly(result.metadata);
    OutcomeIsVerdict(s, result);
  }

  lemma OutcomeIsVerdict(s: Settings, result: Result)
    requires Recordable(s, result)
    ensures RecordOf(s, result).metadata == result.metadata
    ensures RecordOf(s, result).outcome == "FAIL" <==> GuestFails(result)
  {
    hide ReportsOracleFailure, Plain, SingleLine;
    assert "PASS" != "FAIL";
  }

  /** The same of a whole run, for every record recovered from a file cut at any byte. */
  lemma VerdictsSurvive(s: Settings, results: seq<Result>, cut: nat) returns (closed: nat)
    requires AllRecordable(s, results) && cut <= |FileText(RecordsOf(s, results))|
    ensures closed <= |results| && (cut == |FileText(RecordsOf(s, results))| ==> closed == |results|)
    ensures
      var read := ReadSpec(Some(FileText(RecordsOf(s, results))[..cut]));
      |read.records| == closed && forall i :: 0 <= i < closed ==> (IsFailure(read.records[i]) <==> GuestFails(results[i]))
  {
    hide Recordable, RecordOf, ReadSpec, FileText, IsFailure, GuestFails, Stored, Printable;
    var rs := RecordsOf(s, results);
    forall i | 0 <= i < |rs| ensures Printable(rs[i]) {
      RecordPrintable(s, results[i]);
    }
    closed := CrashRecovery(rs, cut);
    if cut == |FileText(rs)| {
      RoundTrip(rs);
      assert FileText(rs)[..cut] == FileText(rs);
      assert |StoredAll(rs[..closed])| == |StoredAll(rs)|;
    }
    forall i | 0 <= i < closed ensures IsFailure(Stored(rs[i])) <==> GuestFails(results[i]) {
      ViewerAgrees(s, results[i]);
    }
  }

  const SATURATION :=
    Descriptor("busy_pfifo.pfifo_saturation", 1, "BusyPfifo", "PFIFOSaturation", "PFIFOSaturation", LeafTest, NoGroup, 0)

  function Saturation(metadata: string): Result {
    LeafResult("BusyPfifo", "PFIFOSaturation", Profile(1, 1, 1, 0, 0, 5, 5, 5, 5, 5, 5, 0, [5]), metadata, "00", false)
  }

  lemma SaturationRecordable(metadata: string)
    requires SingleLine(metadata)
    ensures Recordable(Settings([SATURATION], Enqueue, 1, 0), Saturation(metadata))
  {
    hide SingleLine;
    assert FindByResult([SATURATION], "BusyPfifo", "PFIFOSaturation") == Some(SATURATION);
    SaturationPlain();
    SaturationIdPlain();
  }

  lemma SaturationPlain()
    ensures Plain("BusyPfifo") && Plain("PFIFOSaturation") && Plain("00")
  {
  }

  lemma SaturationIdPlain()
    ensures Plain("busy_pfifo.pfifo_saturation")
  {
  }

  lemma TwoStatusesOnOneLine()
    ensures SingleLine(PASS_THEN_FAIL)
  {
  }

  /** The stored flag alone is not the verdict: a printed record can fail without it. */
  lemma FlagIsNotVerdict()
    ensures
      var s, result := Settings([SATURATION], Enqueue, 1, 0), Saturation(PASS_THEN_FAIL);
      Recordable(s, result) && GuestFails(result) &&
      var stored := Stored(RecordOf(s, result));
      !stored.oracleFailed && IsFailure(stored)
  {
    hide Recordable, Stored, ReportsOracleFailure, MetadataStatus, SingleLine, SATURATION;
    var s, result := Settings([SATURATION], Enqueue, 1, 0), Saturation(PASS_THEN_FAIL);
    TwoStatusesOnOneLine();
    SaturationRecordable(PASS_THEN_FAIL);
    SecondStatusUnseen();
    OutcomeIsVerdict(s, result);
    hide PASS_THEN_FAIL, RecordOf;
    StoredOracleStatus(RecordOf(s, result));
    ViewerAgrees(s, result);
  }
}
