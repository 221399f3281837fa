/** What the guest prints for a result: its own arguments, the catalog entry and the settings, each under its key. */
module PrintedResults {
  import opened Text
  import opened ResultFile
  import opened ResultRecovery
  import opened Catalog
  import opened TestHost
  import opened PerfRun
  import opened PrintedKeys

  /** The text in the metadata that makes the guest count a failed oracle. */
  ghost predicate SaysFail(metadata: string) {
    exists before: string, after: string :: metadata == before + "\"oracle_status\":\"FAIL\"" + after
  }

  lemma SearchFindsFail(metadata: string)
    ensures ReportsOracleFailure(metadata) <==> SaysFail(metadata)
  {
    var pattern := "\"oracle_status\":\"FAIL\"";
    var found := Find(metadata, pattern, 0);
    if found.Some? {
      var i := found.value;
      assert metadata == metadata[..i] + pattern + metadata[i + |pattern|..];
    }
    if before: string, after: string :| metadata == before + pattern + after {
      assert metadata[|before|..|before| + |pattern|] == pattern;
      assert MatchesAt(metadata, pattern, |before|);
    }
  }

  /** Identity, verdict and completion mode under their keys. */
  ghost predicate IdentityPrinted(lines: seq<string>, d: Descriptor, name: string, failed: bool, mode: GpuCompletionMode) {
    PrintsText(lines, "id", d.id, ",") && PrintsNumber(lines, "revision", d.revision) &&
    PrintsText(lines, "name", name, ",") && PrintsText(lines, "outcome", if failed then "FAIL" else "PASS", ",") &&
    (mode == Enqueue ==> PrintsText(lines, "gpu_completion_mode", "enqueue", ",")) &&
    (mode == BatchComplete ==> PrintsText(lines, "gpu_completion_mode", "batch_complete", ",")) &&
    (mode == PerIteration ==> PrintsText(lines, "gpu_completion_mode", "per_iteration", ","))
  }

  lemma LeafResultPrinted(s: Settings, result: Result)
    requires Recordable(s, result) && result.LeafResult?
    ensures
      var r, p := RecordOf(s, result), result.profile;
      IdentityPrinted(RecordLines(r), FindByResult(s.catalog, result.suite, result.test).value,
                      result.suite + "::" + result.test, result.failed || SaysFail(result.metadata), s.mode) &&
      ContractPrinted(r, p.iterations, p.sampleCount, p.multiplier, p.warmup, p.completionWait) &&
      TimingPrinted(r, p.total, p.average, p.minimum, p.maximum, p.median, p.p95, p.mad, "lower_is_better") &&
      TailPrinted(r) && r.hash == result.hash && r.metadata == result.metadata
  {
    hide RecordLines, TimingPrinted, TailPrinted, PrintsNumber, PrintsText, FindByResult, Printable, ReportsOracleFailure,
         Plain, SingleLine;
    RecordPrintable(s, result);
    SearchFindsFail(result.metadata);
    LeafPrinted(RecordOf(s, result));
  }

  lemma GroupResultPrinted(s: Settings, result: Result)
    requires Recordable(s, result) && result.GroupResult?
    ensures
      var r := RecordOf(s, result);
      IdentityPrinted(RecordLines(r), FindByResult(s.catalog, result.suite, result.group).value,
                      result.suite + "::" + result.group, result.failed || SaysFail(result.metadata), s.mode) &&
      ContractPrinted(r, 0, 0, s.multiplier, s.warmup, 0) && TimingPrinted(r, 0, 0, 0, 0, 0, 0, 0, "neutral") &&
      PrintsNumber(RecordLines(r), "child_result_count", result.children) &&
      TailPrinted(r) && r.hash == result.hash && r.metadata == result.metadata
  {
    hide RecordLines, TimingPrinted, TailPrinted, PrintsNumber, PrintsText, FindByResult, Printable, ReportsOracleFailure,
         Plain, SingleLine;
    RecordPrintable(s, result);
    SearchFindsFail(result.metadata);
    GroupPrinted(RecordOf(s, result));
  }

  // ----- the verdict of a run -----

  ghost predicate FailedLeaf(results: seq<Result>, i: nat) {
    i < |results| && results[i].LeafResult? && SaysFail(results[i].metadata)
  }

  ghost predicate FailedSoftly(steps: seq<Step>, i: nat) {
    i < |steps| && steps[i].Ended? && steps[i].failed
  }

  /** The failed oracles of a run are its leaves whose metadata says so. */
  lemma {:induction false} FailuresCounted(results: seq<Result>)
    ensures OracleFailures(results) == |set i: nat | i < |results| && FailedLeaf(results, i)|
    decreases |results|
  {
    hide SaysFail, ReportsOracleFailure;
    if results == [] {
      assert (set i: nat | i < |results| && FailedLeaf(results, i)) == {};
    } else {
      var n := |results| - 1;
      FailuresCounted(results[..n]);
      SearchFindsFail(results[n].metadata);
      var front := set i: nat | i < n && FailedLeaf(results[..n], i);
      assert (set i: nat | i < |results| && FailedLeaf(results, i)) == front + if FailedLeaf(results, n) then {n} else {};
    }
  }

  /** The soft failures of a run are its tests that end with the latch set. */
  lemma {:induction false} SoftFailuresCounted(steps: seq<Step>)
    ensures SoftFailures(steps) == |set i: nat | i < |steps| && FailedSoftly(steps, i)|
    decreases |steps|
  {
    if steps == [] {
      assert (set i: nat | i < |steps| && FailedSoftly(steps, i)) == {};
    } else {
      var n := |steps| - 1;
      SoftFailuresCounted(steps[..n]);
      var front := set i: nat | i < n && FailedSoftly(steps[..n], i);
      assert (set i: nat | i < |steps| && FailedSoftly(steps, i)) == front + if FailedSoftly(steps, n) then {n} else {};
    }
  }
}
