/** One run of the guest: the results file it leaves, the plan verdict, and what the viewer reads. */
module PerfRun {
  import opened Text
  import opened ResultFile
  import opened ResultReader
  import opened ResultRoundTrip
  import opened ResultRecovery
  import opened Catalog
  import opened TestHost

  datatype Result =
    | LeafResult(suite: string, test: string, profile: Profile, metadata: string, hash: string, failed: bool)
    | GroupResult(suite: string, group: string, children: uint32, metadata: string, hash: string, failed: bool)

  /** The catalog names the result, and its texts fit on a quoted line. */
  predicate Recordable(s: Settings, result: Result) {
    match result
    case LeafResult(suite, test, _, metadata, hash, _) =>
      Known(s.catalog, suite, test, false) && Plain(FindByResult(s.catalog, suite, test).value.id) &&
      Plain(suite) && Plain(test) && SingleLine(metadata) && Plain(hash)
    case GroupResult(suite, group, _, metadata, hash, _) =>
      Known(s.catalog, suite, group, true) && Plain(FindByResult(s.catalog, suite, group).value.id) &&
      Plain(suite) && Plain(group) && SingleLine(metadata) && Plain(hash)
  }

  predicate AllRecordable(s: Settings, results: seq<Result>) {
    forall i :: 0 <= i < |results| ==> Recordable(s, results[i])
  }

  function RecordOf(s: Settings, result: Result): Record
    requires Recordable(s, result)
  {
    match result
    case LeafResult(suite, test, profile, metadata, hash, failed) =>
      LeafRecord(s, suite, test, profile, metadata, hash, failed)
    case GroupResult(suite, group, children, metadata, hash, failed) =>
      GroupRecord(s, suite, group, children, metadata, hash, failed)
  }

  function RecordsOf(s: Settings, results: seq<Result>): (rs: seq<Record>)
    requires AllRecordable(s, results)
    ensures |rs| == |results| && forall i :: 0 <= i < |rs| ==> rs[i] == RecordOf(s, results[i])
  {
    seq(|results|, i requires 0 <= i < |results| => RecordOf(s, results[i]))
  }

  function OutcomeOf(r: Record): Outcome {
    if r.Leaf? then LeafDone(r.id) else GroupDone
  }

  function OutcomesOf(rs: seq<Record>): (run: seq<Outcome>)
    ensures |run| == |rs| && forall i :: 0 <= i < |rs| ==> run[i] == OutcomeOf(rs[i])
  {
    seq(|rs|, i requires 0 <= i < |rs| => OutcomeOf(rs[i]))
  }

  /** One thing a run does to the host: a printed result, or the end of a test with its failure latch. */
  datatype Step = Printed(result: Result) | Ended(suite: string, test: string, failed: bool)

  /** The results a run prints. */
  function PrintedIn(steps: seq<Step>): seq<Result> {
    if steps == [] then []
    else
      var n := |steps| - 1;
      PrintedIn(steps[..n]) + if steps[n].Printed? then [steps[n].result] else []
  }

  /** Only leaves are counted as oracle failures. */
  predicate FailsOracle(result: Result) {
    result.LeafResult? && ReportsOracleFailure(result.metadata)
  }

  function OracleFailures(results: seq<Result>): nat {
    if results == [] then 0
    else
      var n := |results| - 1;
      OracleFailures(results[..n]) + if FailsOracle(results[n]) then 1 else 0
  }

  function SoftFailures(steps: seq<Step>): nat {
    if steps == [] then 0
    else
      var n := |steps| - 1;
      SoftFailures(steps[..n]) + if steps[n].Ended? && steps[n].failed then 1 else 0
  }

  datatype ResolvedPlan = ResolvedPlan(id: string, selected: set<string>)

  /** The plan a run starts with: the configured one, or what the host had. */
  function StartingPlan(before: Plan, config: Option<ResolvedPlan>): Plan {
    if config.Some? then Configure(config.value.id, config.value.selected) else before
  }

  /** What the host holds after some steps of a run. */
  ghost predicate HostAfter(host: TestHost, steps: seq<Step>, start: Plan)
    reads host
  {
    var results := PrintedIn(steps);
    AllRecordable(host.View(), results) &&
    var rs := RecordsOf(host.View(), results);
    (host.firstResult <==> results == []) && host.log == "[\n" + JoinLines(BlockLines(rs, true)) &&
    host.plan == Fold(Complete, start, OutcomesOf(rs)) &&
    host.oracleFailureCount == OracleFailures(results) % TWO_32 && host.softFailureCount == SoftFailures(steps) % TWO_32
  }

  /**
   * A run between the opening and the closing bracket, and its verdict: the plan is complete,
   * no leaf reports an oracle failure and no test fails softly, as the 32-bit counters see it.
   */
  method RunTests(host: TestHost, config: Option<ResolvedPlan>, steps: seq<Step>, planResultWritten: bool)
    returns (runPass: bool)
    requires host.saveResults && host.log == "" && AllRecordable(host.View(), PrintedIn(steps))
    modifies host`log, host`firstResult, host`plan, host`recordedLeafCount, host`recordedGroupCount,
             host`oracleFailureCount, host`firstOracleFailure, host`softFailureCount, host`firstSoftFailure
    ensures
      var rs := RecordsOf(host.View(), PrintedIn(steps));
      host.log == FileText(rs) &&
      host.plan == Fold(Complete, StartingPlan(old(host.plan), config), OutcomesOf(rs))
    ensures runPass <==>
            (config.Some? ==> planResultWritten) && Accepts(host.plan) &&
            OracleFailures(PrintedIn(steps)) % TWO_32 == 0 && SoftFailures(steps) % TWO_32 == 0
  {
    hide RecordsOf, OutcomesOf, JoinLines, BlockLines, Complete, FileText, HostAfter, AllRecordable, PrintedIn, Accepts,
         OracleFailures, SoftFailures, Configure, Fold, Recordable;
    host.ResetResultLogState();
    if config.Some? {
      host.ConfigureResolvedPlan(config.value.id, config.value.selected);
    }
    ghost var start := host.plan;
    host.log := host.log + "[\n";
    HostBefore(host);
    RunDriver(host, steps, start);
    RunEnds(host, steps, start);
    host.log := host.log + "]\n";
    var planComplete, error := host.ValidateResolvedPlan();
    if config.Some? && !planResultWritten {
      return false;
    }
    var oraclePass := host.oracleFailureCount == 0;
    var softPass := host.softFailureCount == 0;
    return planComplete && oraclePass && softPass;
  }

  /** The test driver: every step leaves the host as the steps so far say. */
  method RunDriver(host: TestHost, steps: seq<Step>, ghost start: Plan)
    requires host.saveResults && HostAfter(host, [], start) && AllRecordable(host.View(), PrintedIn(steps))
    modifies host`log, host`firstResult, host`plan, host`recordedLeafCount, host`recordedGroupCount,
             host`oracleFailureCount, host`firstOracleFailure, host`softFailureCount, host`firstSoftFailure
    ensures HostAfter(host, steps, start)
  {
    hide HostAfter, AllRecordable, PrintedIn, Recordable;
    assert steps[..0] == [];
    for i := 0 to |steps|
      invariant HostAfter(host, steps[..i], start)
    {
      StepRecordable(host.View(), steps, i);
      assert steps[..i + 1] == steps[..i] + [steps[i]];
      OneStep(host, steps[..i], steps[i], start);
    }
    assert steps[..|steps|] == steps;
  }

  lemma HostBefore(host: TestHost)
    requires host.firstResult && host.log == "[\n" && host.oracleFailureCount == 0 && host.softFailureCount == 0
    ensures HostAfter(host, [], host.plan)
  {
    NoBlocks(RecordsOf(host.View(), []));
    assert OutcomesOf(RecordsOf(host.View(), [])) == [];
  }

  lemma RunEnds(host: TestHost, steps: seq<Step>, start: Plan)
    requires HostAfter(host, steps, start)
    ensures AllRecordable(host.View(), PrintedIn(steps))
    ensures
      var rs := RecordsOf(host.View(), PrintedIn(steps));
      host.log + "]\n" == FileText(rs) && host.plan == Fold(Complete, start, OutcomesOf(rs)) &&
      host.oracleFailureCount == OracleFailures(PrintedIn(steps)) % TWO_32 &&
      host.softFailureCount == SoftFailures(steps) % TWO_32
  {
    hide FileText, JoinLines, BlockLines, RecordsOf, OutcomesOf, AllRecordable, Complete;
    FileTextParts(RecordsOf(host.View(), PrintedIn(steps)));
  }

  lemma {:induction false} StepRecordable(s: Settings, steps: seq<Step>, i: nat)
    requires i < |steps| && AllRecordable(s, PrintedIn(steps))
    ensures steps[i].Printed? ==> Recordable(s, steps[i].result)
    decreases |steps|
  {
    hide Recordable;
    var n := |steps| - 1;
    var front := PrintedIn(steps[..n]);
    assert forall k :: 0 <= k < |front| ==> PrintedIn(steps)[k] == front[k];
    if i < n {
      StepRecordable(s, steps[..n], i);
    } else if steps[n].Printed? {
      assert PrintedIn(steps)[|front|] == steps[n].result;
    }
  }

  method OneStep(host: TestHost, done: seq<Step>, step: Step, ghost start: Plan)
    requires host.saveResults && HostAfter(host, done, start)
    requires step.Printed? ==> Recordable(host.View(), step.result)
    modifies host`log, host`firstResult, host`plan, host`recordedLeafCount, host`recordedGroupCount,
             host`oracleFailureCount, host`firstOracleFailure, host`softFailureCount, host`firstSoftFailure
    ensures HostAfter(host, done + [step], start)
  {
    hide RecordOf, RecordsOf, OutcomesOf, OutcomeOf, JoinLines, BlockLines, RecordLines, Complete, AllRecordable, PrintedIn,
         Recordable, OracleFailures, FailsOracle, SoftFailures;
    match step
    case Printed(result) =>
      PrintedSnoc(host.View(), done, result);
      ghost var rs := RecordsOf(host.View(), PrintedIn(done));
      RunStep(rs, RecordOf(host.View(), result), start, host.firstResult);
      RecordOne(host, result);
    case Ended(suite, test, failed) =>
      EndedSnoc(done, suite, test, failed);
      host.RecordSoftTestOutcome(suite, test, failed);
  }

  lemma PrintedSnoc(s: Settings, done: seq<Step>, result: Result)
    requires AllRecordable(s, PrintedIn(done)) && Recordable(s, result)
    ensures
      var steps := done + [Printed(result)];
      PrintedIn(steps) == PrintedIn(done) + [result] && AllRecordable(s, PrintedIn(steps)) &&
      RecordsOf(s, PrintedIn(steps)) == RecordsOf(s, PrintedIn(done)) + [RecordOf(s, result)] &&
      OracleFailures(PrintedIn(steps)) == OracleFailures(PrintedIn(done)) + (if FailsOracle(result) then 1 else 0) &&
      SoftFailures(steps) == SoftFailures(done)
  {
    hide Recordable, RecordOf, FailsOracle;
    assert (done + [Printed(result)])[..|done|] == done;
    var results := PrintedIn(done);
    assert (results + [result])[..|results|] == results;
    assert AllRecordable(s, results + [result]);
    assert RecordsOf(s, results + [result]) == RecordsOf(s, results) + [RecordOf(s, result)];
  }

  lemma EndedSnoc(done: seq<Step>, suite: string, test: string, failed: bool)
    ensures
      var steps := done + [Ended(suite, test, failed)];
      PrintedIn(steps) == PrintedIn(done) && SoftFailures(steps) == SoftFailures(done) + if failed then 1 else 0
  {
    assert (done + [Ended(suite, test, failed)])[..|done|] == done;
  }

  /** One more record adds its lines to the text and its outcome to the plan. */
  lemma RunStep(rs: seq<Record>, r: Record, start: Plan, first: bool)
    requires first <==> rs == []
    ensures
      "[\n" + JoinLines(BlockLines(rs + [r], true)) ==
      "[\n" + JoinLines(BlockLines(rs, true)) + JoinLines(Separator(first) + RecordLines(r))
    ensures Fold(Complete, start, OutcomesOf(rs + [r])) == Complete(Fold(Complete, start, OutcomesOf(rs)), OutcomeOf(r))
  {
    hide JoinLines, BlockLines, RecordLines, Complete, OutcomeOf;
    BlocksSnoc(rs, r, true);
    assert OutcomesOf(rs + [r]) == OutcomesOf(rs) + [OutcomeOf(r)];
    FoldAppend(Complete, start, OutcomesOf(rs), [OutcomeOf(r)]);
    FoldOne(Complete, Fold(Complete, start, OutcomesOf(rs)), OutcomeOf(r));
  }

  /** The ids of the printed leaves, in order. */
  function LeafIds(rs: seq<Record>): seq<string> {
    if rs == [] then [] else (if rs[0].Leaf? then [rs[0].id] else []) + LeafIds(rs[1..])
  }

  /** After a run with a plan, the plan verdict is that the printed leaves are a permutation of the selected ids. */
  lemma PlanVerdict(before: Plan, config: ResolvedPlan, rs: seq<Record>)
    requires config.id != ""
    ensures Accepts(Fold(Complete, StartingPlan(before, Some(config)), OutcomesOf(rs))) <==>
            multiset(LeafIds(rs)) == multiset(config.selected)
  {
    hide Complete;
    LeavesOf(rs);
    PlanCompletion(config.id, config.selected, OutcomesOf(rs));
  }

  lemma {:induction false} LeavesOf(rs: seq<Record>)
    ensures Leaves(OutcomesOf(rs)) == LeafIds(rs)
  {
    if rs != [] {
      assert OutcomesOf(rs)[1..] == OutcomesOf(rs[1..]);
      LeavesOf(rs[1..]);
    }
  }

  /** What a run leaves is readable: complete, every result in order, nothing else. */
  lemma RunIsReadable(s: Settings, results: seq<Result>)
    requires AllRecordable(s, results)
    ensures
      var rs := RecordsOf(s, results);
      var read := ReadSpec(Some(FileText(rs)));
      read.complete && |read.records| == |results| &&
      forall i :: 0 <= i < |results| ==> Faithful(read.records[i], rs[i])
  {
    hide RecordOf, Recordable, ReadSpec, FileText, Printable, Faithful, Stored;
    var rs := RecordsOf(s, results);
    forall i | 0 <= i < |rs| ensures Printable(rs[i]) && Faithful(Stored(rs[i]), rs[i]) {
      RecordPrintable(s, results[i]);
      StoredIsFaithful(rs[i]);
    }
    RoundTrip(rs);
  }

  method RecordOne(host: TestHost, result: Result)
    requires host.saveResults && Recordable(host.View(), result)
    modifies host`log, host`firstResult, host`plan, host`recordedLeafCount, host`recordedGroupCount,
             host`oracleFailureCount, host`firstOracleFailure
    ensures !host.firstResult
    ensures host.log == old(host.log) + JoinLines(Separator(old(host.firstResult)) + RecordLines(RecordOf(host.View(), result)))
    ensures host.plan == Complete(old(host.plan), OutcomeOf(RecordOf(host.View(), result)))
    ensures host.oracleFailureCount == (old(host.oracleFailureCount) + if FailsOracle(result) then 1 else 0) % TWO_32
  {
    hide JoinLines, RecordLines, ReportsOracleFailure;
    match result
    case LeafResult(suite, test, profile, metadata, hash, failed) =>
      host.RecordProfileResult(suite, test, profile, metadata, hash, failed);
    case GroupResult(suite, group, children, metadata, hash, failed) =>
      host.FinishGroup(suite, group, children, metadata, hash, failed);
  }

  lemma OutcomesArePlain()
    ensures Plain("PASS") && Plain("FAIL")
  {
  }

  lemma ModesArePlain(mode: GpuCompletionMode)
    ensures Plain(ModeName(mode))
  {
  }

  lemma NameIsPlain(suite: string, test: string)
    requires Plain(suite) && Plain(test)
    ensures Plain(suite + "::" + test)
  {
  }

  lemma RecordPrintable(s: Settings, result: Result)
    requires Recordable(s, result)
    ensures Printable(RecordOf(s, result))
  {
    hide Plain, SingleLine, ReportsOracleFailure, FindByResult, ModeName;
    OutcomesArePlain();
    ModesArePlain(s.mode);
    match result
    case LeafResult(suite, test, _, _, _, _) => NameIsPlain(suite, test);
    case GroupResult(suite, group, _, _, _, _) => NameIsPlain(suite, group);
  }

  lemma NoBlocks(rs: seq<Record>)
    requires rs == []
    ensures JoinLines(BlockLines(rs, true)) == ""
  {
  }

  /** Appending a record appends its lines, after a comma unless it is the first. */
  lemma {:induction false} BlocksSnoc(rs: seq<Record>, r: Record, first: bool)
    ensures JoinLines(BlockLines(rs + [r], first)) ==
            JoinLines(BlockLines(rs, first)) + JoinLines(Separator(first && rs == []) + RecordLines(r))
    decreases |rs|
  {
    hide RecordLines, JoinLines;
    if rs == [] {
      assert rs + [r] == [r] && [r][1..] == [];
      JoinNothing();
      assert BlockLines([r], first) == Separator(first) + RecordLines(r);
    } else {
      var head := Separator(first) + RecordLines(rs[0]);
      assert (rs + [r])[0] == rs[0] && (rs + [r])[1..] == rs[1..] + [r];
      BlocksSnoc(rs[1..], r, false);
      JoinAppend(head, BlockLines(rs[1..] + [r], false));
      JoinAppend(head, BlockLines(rs[1..], false));
    }
  }

  lemma FileTextParts(rs: seq<Record>)
    ensures FileText(rs) == "[\n" + JoinLines(BlockLines(rs, true)) + "]\n"
  {
    hide BlockLines, JoinLines;
    JoinAppend(["["] + BlockLines(rs, true), ["]"]);
    JoinAppend(["["], BlockLines(rs, true));
    JoinOne("[");
    JoinOne("]");
  }
}
