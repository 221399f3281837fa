/** The guest's result printer and its bookkeeping of a resolved plan. */
module TestHost {
  import opened Text
  import opened ResultFile
  import opened ResultRecovery
  import opened Catalog

  datatype GpuCompletionMode = Enqueue | BatchComplete | PerIteration

  function ModeName(mode: GpuCompletionMode): string {
    match mode
    case Enqueue => "enqueue"
    case BatchComplete => "batch_complete"
    case PerIteration => "per_iteration"
  }

  function ResultOutcome(metadata: string, testFailed: bool): string {
    if testFailed || ReportsOracleFailure(metadata) then "FAIL" else "PASS"
  }

  // ----- a resolved plan as a state machine -----

  datatype Plan = Plan(id: string, selected: set<string>, emitted: set<string>, unexpected: bool)

  datatype Outcome = LeafDone(id: string) | GroupDone

  function Configure(id: string, selected: set<string>): Plan {
    Plan(id, selected, {}, false)
  }

  function Complete(p: Plan, done: Outcome): Plan {
    match done
    case GroupDone => p
    case LeafDone(id) =>
      if p.id == "" then p
      else if id !in p.selected then p.(unexpected := true)
      else if id in p.emitted then p.(unexpected := true)
      else p.(emitted := p.emitted + {id})
  }

  predicate Accepts(p: Plan) {
    p.id == "" || (!p.unexpected && p.emitted == p.selected)
  }

  function Leaves(run: seq<Outcome>): seq<string> {
    if run == [] then []
    else (if run[0].LeafDone? then [run[0].id] else []) + Leaves(run[1..])
  }

  /** Completing a leaf keeps the plan unless the id is foreign or repeated. */
  lemma LeafStep(p: Plan, id: string, rest: multiset<string>)
    requires p.id != "" && p.emitted <= p.selected
    ensures
      var q := Complete(p, LeafDone(id));
      q.id == p.id && q.selected == p.selected && q.emitted <= q.selected &&
      (!q.unexpected && rest + multiset(q.emitted) <= multiset(p.selected) <==>
       !p.unexpected && multiset{id} + rest + multiset(p.emitted) <= multiset(p.selected)) &&
      (!q.unexpected ==> multiset(q.emitted) == multiset(p.emitted) + multiset{id})
  {
    var q := Complete(p, LeafDone(id));
    if id !in p.selected {
      assert multiset(p.selected)[id] == 0;
    } else if id in p.emitted {
      assert multiset(p.selected)[id] == 1 && multiset(p.emitted)[id] == 1;
    } else {
      assert multiset(q.emitted) == multiset(p.emitted) + multiset{id};
      assert rest + multiset(q.emitted) == multiset{id} + rest + multiset(p.emitted);
    }
  }

  /** A leaf result outside the plan, or the second of its id, condemns the plan. */
  lemma {:induction false} PlanRun(p: Plan, run: seq<Outcome>)
    requires p.id != "" && p.emitted <= p.selected
    ensures
      var e := Fold(Complete, p, run);
      e.id == p.id && e.selected == p.selected && e.emitted <= e.selected &&
      (!e.unexpected <==> !p.unexpected && multiset(Leaves(run)) + multiset(p.emitted) <= multiset(p.selected)) &&
      (!e.unexpected ==> multiset(e.emitted) == multiset(p.emitted) + multiset(Leaves(run)))
    decreases |run|
  {
    if run == [] {
      assert multiset(p.emitted) <= multiset(p.selected);
    } else {
      hide Complete, Leaves;
      var rest := multiset(Leaves(run[1..]));
      LeavesStep(run);
      if run[0].LeafDone? {
        LeafStep(p, run[0].id, rest);
      } else {
        GroupStep(p);
      }
      PlanRun(Complete(p, run[0]), run[1..]);
    }
  }

  lemma GroupStep(p: Plan)
    ensures Complete(p, GroupDone) == p
  {
  }

  lemma LeavesStep(run: seq<Outcome>)
    requires run != []
    ensures multiset(Leaves(run)) ==
            (if run[0].LeafDone? then multiset{run[0].id} else multiset{}) + multiset(Leaves(run[1..]))
  {
  }

  /** A run satisfies its plan iff its leaf results are a permutation of the selected ids. */
  lemma PlanCompletion(id: string, selected: set<string>, run: seq<Outcome>)
    requires id != ""
    ensures Accepts(Fold(Complete, Configure(id, selected), run)) <==>
            multiset(Leaves(run)) == multiset(selected)
  {
    var p := Configure(id, selected);
    PlanRun(p, run);
    var e := Fold(Complete, p, run);
    assert multiset(p.emitted) == multiset{};
    if !e.unexpected {
      assert multiset(e.emitted) == multiset(Leaves(run));
      if multiset(e.emitted) == multiset(selected) {
        SameSet(e.emitted, selected);
      }
    }
  }

  lemma SameSet(a: set<string>, b: set<string>)
    requires multiset(a) == multiset(b)
    ensures a == b
  {
    assert forall x :: x in a <==> x in multiset(a);
    assert forall x :: x in b <==> x in multiset(b);
  }

  // ----- the host -----

  /** What a printed record takes from the host besides the result itself. */
  datatype Settings = Settings(catalog: seq<Descriptor>, mode: GpuCompletionMode, multiplier: uint32, warmup: uint32)

  /** The catalog entry of a printable result; both assertions of the source halt the guest. */
  predicate Known(catalog: seq<Descriptor>, suite: string, test: string, expectGroup: bool) {
    var d := FindByResult(catalog, suite, test);
    d.Some? && (d.value.kind.GroupTest? <==> expectGroup)
  }

  function LeafRecord(s: Settings, suite: string, test: string, results: Profile, metadata: string, hash: string,
                      testFailed: bool): Record
    requires Known(s.catalog, suite, test, false)
  {
    var d := FindByResult(s.catalog, suite, test).value;
    Leaf(d.id, d.revision, suite + "::" + test, ResultOutcome(metadata, testFailed), ModeName(s.mode),
         results, hash, metadata)
  }

  function GroupRecord(s: Settings, suite: string, group: string, children: uint32, metadata: string, hash: string,
                       testFailed: bool): Record
    requires Known(s.catalog, suite, group, true)
  {
    var d := FindByResult(s.catalog, suite, group).value;
    Group(d.id, d.revision, suite + "::" + group, ResultOutcome(metadata, testFailed), ModeName(s.mode),
          children, s.multiplier, s.warmup, hash, metadata)
  }

  /** The catalog id of a test, or its full name. */
  function TestName(catalog: seq<Descriptor>, suite: string, test: string): string {
    var d := FindByResult(catalog, suite, test);
    if d.Some? then d.value.id else suite + "::" + test
  }

  class TestHost {
    const catalog: seq<Descriptor>
    var saveResults: bool
    var firstResult: bool
    var log: string
    var plan: Plan
    var recordedLeafCount: uint32
    var recordedGroupCount: uint32
    var oracleFailureCount: uint32
    var firstOracleFailure: string
    var softFailureCount: uint32
    var firstSoftFailure: string
    var mode: GpuCompletionMode
    var warmupIterations: uint32
    var multiplier: uint32

    ghost function View(): Settings
      reads this`mode, this`multiplier, this`warmupIterations
    {
      Settings(catalog, mode, multiplier, warmupIterations)
    }

    constructor (catalog: seq<Descriptor>)
      ensures this.catalog == catalog && saveResults && firstResult && log == ""
      ensures plan == Configure("", {}) && oracleFailureCount == 0 && firstOracleFailure == ""
      ensures softFailureCount == 0 && firstSoftFailure == ""
      ensures recordedLeafCount == 0 && recordedGroupCount == 0
      ensures mode == Enqueue && warmupIterations == 0 && multiplier == 1
    {
      this.catalog := catalog;
      saveResults, firstResult, log := true, true, "";
      plan := Configure("", {});
      recordedLeafCount, recordedGroupCount, oracleFailureCount, firstOracleFailure := 0, 0, 0, "";
      softFailureCount, firstSoftFailure := 0, "";
      mode, warmupIterations, multiplier := Enqueue, 0, 1;
    }

    method ResetResultLogState()
      modifies this`firstResult, this`recordedLeafCount, this`recordedGroupCount, this`oracleFailureCount,
               this`firstOracleFailure, this`softFailureCount, this`firstSoftFailure
      ensures firstResult && recordedLeafCount == 0 && recordedGroupCount == 0
      ensures oracleFailureCount == 0 && firstOracleFailure == "" && softFailureCount == 0 && firstSoftFailure == ""
    {
      firstResult := true;
      recordedLeafCount, recordedGroupCount, oracleFailureCount, firstOracleFailure := 0, 0, 0, "";
      softFailureCount, firstSoftFailure := 0, "";
    }

    method ConfigureResolvedPlan(planId: string, selectedTestIds: set<string>)
      modifies this`plan
      ensures plan == Configure(planId, selectedTestIds)
    {
      plan := Plan(planId, selectedTestIds, {}, false);
    }

    method RecordDescriptor(suite: string, test: string, expectGroup: bool) returns (d: Descriptor)
      requires Known(catalog, suite, test, expectGroup)
      modifies this`plan, this`recordedLeafCount, this`recordedGroupCount
      ensures Some(d) == FindByResult(catalog, suite, test)
      ensures plan == Complete(old(plan), if expectGroup then GroupDone else LeafDone(d.id))
      ensures recordedLeafCount == if expectGroup then old(recordedLeafCount) else (old(recordedLeafCount) + 1) % TWO_32
      ensures recordedGroupCount == if expectGroup then (old(recordedGroupCount) + 1) % TWO_32 else old(recordedGroupCount)
    {
      var found := FindByResult(catalog, suite, test);
      d := found.value;
      if expectGroup {
        recordedGroupCount := (recordedGroupCount + 1) % TWO_32;
      } else {
        recordedLeafCount := (recordedLeafCount + 1) % TWO_32;
      }
      if !expectGroup && plan.id != "" {
        if d.id !in plan.selected {
          plan := plan.(unexpected := true);
        } else {
          var inserted := d.id !in plan.emitted;
          plan := plan.(emitted := plan.emitted + {d.id});
          if !inserted {
            plan := plan.(unexpected := true);
            assert plan.emitted == old(plan).emitted;
          }
        }
      }
    }

    method ValidateResolvedPlan() returns (ok: bool, error: string)
      ensures ok <==> Accepts(plan)
      ensures error == if ok then ""
                       else if plan.unexpected then "resolved plan emitted an unexpected or duplicate leaf result"
                       else "resolved plan leaf completion set does not match selected leaf ids"
    {
      if plan.id == "" {
        return true, "";
      }
      if plan.unexpected {
        return false, "resolved plan emitted an unexpected or duplicate leaf result";
      }
      if plan.emitted != plan.selected {
        return false, "resolved plan leaf completion set does not match selected leaf ids";
      }
      return true, "";
    }

    method CountOracleFailure(id: string, metadata: string)
      modifies this`oracleFailureCount, this`firstOracleFailure
      ensures oracleFailureCount ==
              if ReportsOracleFailure(metadata) then (old(oracleFailureCount) + 1) % TWO_32 else old(oracleFailureCount)
      ensures firstOracleFailure ==
              if ReportsOracleFailure(metadata) && old(firstOracleFailure) == "" then id else old(firstOracleFailure)
    {
      if ReportsOracleFailure(metadata) {
        oracleFailureCount := (oracleFailureCount + 1) % TWO_32;
        if firstOracleFailure == "" {
          firstOracleFailure := id;
        }
      }
    }

    /** Counts a test whose soft failure latch is set at its end, and names the first one. */
    method RecordSoftTestOutcome(suite: string, test: string, failed: bool)
      modifies this`softFailureCount, this`firstSoftFailure
      ensures softFailureCount == (old(softFailureCount) + if failed then 1 else 0) % TWO_32
      ensures firstSoftFailure == if !failed || old(firstSoftFailure) != "" then old(firstSoftFailure)
                                  else TestName(catalog, suite, test)
    {
      if !failed {
        return;
      }
      softFailureCount := (softFailureCount + 1) % TWO_32;
      if firstSoftFailure != "" {
        return;
      }
      var d := FindByResult(catalog, suite, test);
      firstSoftFailure := if d.Some? then d.value.id else suite + "::" + test;
    }

    /** The sample block: every value on its own line, the comma written before the next line break. */
    method WriteSamples(raw: seq<uint32>)
      modifies this`log
      ensures log == old(log) + JoinLines(RenderAll([Other(RawResults, "[")] + SampleLines(raw)))
    {
      hide Decimal, JoinLines, RenderAll, Render, SampleLines, LoopText;
      log := log + Render(Other(RawResults, "["));
      WriteLoop(raw);
      log := log + "\n";
      SampleBlock(raw);
      var open := Render(Other(RawResults, "["));
      assert old(log) + open + LoopText(raw) + "\n" == old(log) + (open + LoopText(raw) + "\n");
    }

    /** One sample a line, each line ended when the next begins. */
    method WriteLoop(raw: seq<uint32>)
      modifies this`log
      ensures log == old(log) + LoopText(raw)
    {
      hide SampleText, LoopText;
      var separator := "";
      NoLoopText();
      assert raw[..0] == [];
      for i := 0 to |raw|
        invariant separator == if i == 0 then "" else ","
        invariant log == old(log) + LoopText(raw[..i])
      {
        LoopStep(raw, i);
        Regroup3(old(log), LoopText(raw[..i]), SampleText(separator, raw[i]));
        WriteSample(separator, raw[i]);
        separator := ",";
      }
      assert raw[..|raw|] == raw;
    }

    /** One pass of the loop: the line before is ended, then the sample stands on its own line. */
    method WriteSample(separator: string, value: uint32)
      modifies this`log
      ensures log == old(log) + SampleText(separator, value)
    {
      hide Decimal;
      log := log + separator + "\n";
      log := log + "      " + Decimal(value);
      RegroupFour(old(log), separator, "\n", "      ", Decimal(value));
    }

    /** A comma line before every record but the first. */
    method WriteSeparator()
      modifies this`log, this`firstResult
      ensures log == old(log) + JoinLines(Separator(old(firstResult))) && !firstResult
    {
      SeparatorText(firstResult);
      if !firstResult {
        log := log + ",\n";
      }
      firstResult := false;
    }

    method WriteLeaf(r: Record)
      requires r.Leaf?
      modifies this`log
      ensures log == old(log) + JoinLines(RecordLines(r))
    {
      hide Render, RenderAll, JoinLines, HeadLines, WorkLines, TimingLines, TailLines, RecordLines;
      LeafText(r);
      log := log + "  {\n" + JoinLines(RenderAll(HeadLines(r) + WorkLines(r) + TimingLines(r)));
      WriteSamples(r.profile.raw);
      log := log + "    ],\n" + JoinLines(RenderAll(TailLines(r))) + "  }\n";
    }

    method WriteGroup(r: Record)
      modifies this`log
      ensures log == old(log) + JoinLines(RecordLines(r))
    {
      hide Render, RenderAll, JoinLines, HeadLines, WorkLines, TimingLines, RawLines, TailLines, RecordLines;
      RecordText(r);
      log := log + "  {\n" + JoinLines(RenderAll(HeadLines(r) + WorkLines(r) + TimingLines(r)));
      log := log + JoinLines(RenderAll(RawLines(r)));
      log := log + JoinLines(RenderAll(TailLines(r))) + "  }\n";
    }

    method RecordProfileResult(suite: string, test: string, results: Profile, metadata: string, hash: string,
                               testFailed: bool)
      requires saveResults ==> Known(catalog, suite, test, false)
      modifies this`log, this`firstResult, this`plan, this`recordedLeafCount, this`recordedGroupCount,
               this`oracleFailureCount, this`firstOracleFailure
      ensures !old(saveResults) ==> unchanged(this)
      ensures old(saveResults) ==>
                !firstResult && recordedGroupCount == old(recordedGroupCount) &&
                recordedLeafCount == (old(recordedLeafCount) + 1) % TWO_32 &&
                log == old(log) + JoinLines(Separator(old(firstResult)) +
                       RecordLines(LeafRecord(View(), suite, test, results, metadata, hash, testFailed))) &&
                plan == Complete(old(plan), LeafDone(FindByResult(catalog, suite, test).value.id)) &&
                oracleFailureCount == (if ReportsOracleFailure(metadata) then (old(oracleFailureCount) + 1) % TWO_32
                                       else old(oracleFailureCount)) &&
                firstOracleFailure == (if ReportsOracleFailure(metadata) && old(firstOracleFailure) == ""
                                       then FindByResult(catalog, suite, test).value.id else old(firstOracleFailure))
    {
      hide JoinLines, ReportsOracleFailure, RecordLines, Separator, Complete, ModeName, ResultOutcome;
      if !saveResults {
        return;
      }
      var d := RecordDescriptor(suite, test, false);
      CountOracleFailure(d.id, metadata);
      WriteSeparator();
      var r := Leaf(d.id, d.revision, suite + "::" + test, ResultOutcome(metadata, testFailed), ModeName(mode),
                    results, hash, metadata);
      WriteLeaf(r);
      JoinAppend(Separator(old(firstResult)), RecordLines(r));
    }

    method FinishGroup(suite: string, group: string, childResultCount: uint32, metadata: string, hash: string,
                       testFailed: bool)
      requires saveResults ==> Known(catalog, suite, group, true)
      modifies this`log, this`firstResult, this`plan, this`recordedLeafCount, this`recordedGroupCount
      ensures !old(saveResults) ==> unchanged(this)
      ensures old(saveResults) ==>
                !firstResult && recordedLeafCount == old(recordedLeafCount) && plan == old(plan) &&
                recordedGroupCount == (old(recordedGroupCount) + 1) % TWO_32 &&
                log == old(log) + JoinLines(Separator(old(firstResult)) +
                       RecordLines(GroupRecord(View(), suite, group, childResultCount, metadata, hash, testFailed)))
    {
      hide JoinLines, RecordLines, Separator, ModeName, ResultOutcome;
      if !saveResults {
        return;
      }
      var d := RecordDescriptor(suite, group, true);
      WriteSeparator();
      var r := Group(d.id, d.revision, suite + "::" + group, ResultOutcome(metadata, testFailed), ModeName(mode),
                     childResultCount, multiplier, warmupIterations, hash, metadata);
      WriteGroup(r);
      JoinAppend(Separator(old(firstResult)), RecordLines(r));
    }
  }

  // ----- the text of a record -----

  function CommaLines(raw: seq<uint32>): (lines: seq<Line>)
    ensures |lines| == |raw| && forall i :: 0 <= i < |raw| ==> lines[i] == Sample(raw[i], false)
  {
    seq(|raw|, i requires 0 <= i < |raw| => Sample(raw[i], false))
  }

  /** What the sample loop has written: whole lines ending in commas, then an unfinished one. */
  function SampleText(separator: string, value: uint32): string {
    separator + "\n" + "      " + Decimal(value)
  }

  function LoopText(raw: seq<uint32>): string {
    if raw == [] then ""
    else
      var n := |raw| - 1;
      "\n" + JoinLines(RenderAll(CommaLines(raw[..n]))) + "      " + Decimal(raw[n])
  }

  lemma Regroup(base: string, a: string, b: string, c: string, d: string, e: string)
    ensures base + a + b + c + d + e == base + (a + b + c + d + e)
  {
  }

  lemma Regroup3(a: string, b: string, c: string)
    ensures a + b + c == a + (b + c)
  {
  }

  lemma RegroupFour(a: string, b: string, c: string, d: string, e: string)
    ensures a + b + c + d + e == a + (b + c + d + e)
  {
  }

  lemma CommaStep(raw: seq<uint32>)
    requires raw != []
    ensures
      var n := |raw| - 1;
      JoinLines(RenderAll(CommaLines(raw))) ==
      JoinLines(RenderAll(CommaLines(raw[..n]))) + "      " + Decimal(raw[n]) + "," + "\n"
  {
    hide Decimal, JoinLines;
    var n := |raw| - 1;
    var front, last := RenderAll(CommaLines(raw[..n])), Render(Sample(raw[n], false));
    assert RenderAll(CommaLines(raw)) == front + [last];
    JoinAppend(front, [last]);
    JoinOne(last);
    assert last == "      " + Decimal(raw[n]) + ",";
  }

  lemma LoopStep(raw: seq<uint32>, i: nat)
    requires i < |raw|
    ensures LoopText(raw[..i + 1]) ==
            LoopText(raw[..i]) + SampleText(if i == 0 then "" else ",", raw[i])
  {
    hide Decimal, JoinLines, RenderAll, CommaLines;
    assert raw[..i + 1][..i] == raw[..i];
    if i > 0 {
      CommaStep(raw[..i]);
      Regroup("\n", JoinLines(RenderAll(CommaLines(raw[..i][..i - 1]))), "      ", Decimal(raw[i - 1]), ",", "\n");
    } else {
      assert RenderAll(CommaLines(raw[..0])) == [];
      JoinNothing();
    }
  }

  lemma NoLoopText()
    ensures LoopText([]) == ""
  {
  }

  lemma JoinNothing()
    ensures JoinLines([]) == ""
  {
  }

  lemma JoinOne(line: string)
    ensures JoinLines([line]) == line + "\n"
  {
    assert [line][1..] == [];
  }

  lemma SamplesSplit(raw: seq<uint32>)
    requires raw != []
    ensures RenderAll(SampleLines(raw)) ==
            RenderAll(CommaLines(raw[..|raw| - 1])) + [Render(Sample(raw[|raw| - 1], true))]
  {
    hide Render;
  }

  lemma LoopEnd(raw: seq<uint32>)
    ensures LoopText(raw) + "\n" == "\n" + JoinLines(RenderAll(SampleLines(raw)))
  {
    hide Decimal, JoinLines, SampleLines, CommaLines, RenderAll;
    if raw == [] {
      assert RenderAll(SampleLines(raw)) == [];
      JoinNothing();
    } else {
      var n := |raw| - 1;
      SamplesSplit(raw);
      JoinAppend(RenderAll(CommaLines(raw[..n])), [Render(Sample(raw[n], true))]);
      JoinOne(Render(Sample(raw[n], true)));
    }
  }

  /** Closing the last line leaves exactly the sample lines. */
  lemma SampleBlock(raw: seq<uint32>)
    ensures Render(Other(RawResults, "[")) + LoopText(raw) + "\n" ==
            JoinLines(RenderAll([Other(RawResults, "[")] + SampleLines(raw)))
  {
    hide JoinLines, Render, SampleLines, RenderAll, LoopText;
    var open := [Other(RawResults, "[")];
    LoopEnd(raw);
    JoinParts(open, SampleLines(raw));
    assert RenderAll(open) == [Render(open[0])];
    JoinOne(Render(open[0]));
    var o, text := Render(open[0]), JoinLines(RenderAll(SampleLines(raw)));
    assert o + LoopText(raw) + "\n" == o + (LoopText(raw) + "\n");
    assert o + "\n" + text == o + ("\n" + text);
  }

  lemma SeparatorText(first: bool)
    ensures JoinLines(Separator(first)) == if first then "" else ",\n"
  {
    JoinNothing();
    JoinOne(",");
  }

  lemma JoinParts(a: seq<Line>, b: seq<Line>)
    ensures JoinLines(RenderAll(a + b)) == JoinLines(RenderAll(a)) + JoinLines(RenderAll(b))
  {
    hide JoinLines, Render;
    assert RenderAll(a + b) == RenderAll(a) + RenderAll(b);
    JoinAppend(RenderAll(a), RenderAll(b));
  }

  lemma RecordText(r: Record)
    ensures JoinLines(RecordLines(r)) ==
            "  {\n" + JoinLines(RenderAll(HeadLines(r) + WorkLines(r) + TimingLines(r))) +
            JoinLines(RenderAll(RawLines(r))) + JoinLines(RenderAll(TailLines(r))) + "  }\n"
  {
    hide JoinLines, RenderAll, HeadLines, WorkLines, TimingLines, RawLines, TailLines;
    var fields := HeadLines(r) + WorkLines(r) + TimingLines(r);
    JoinParts(fields + RawLines(r), TailLines(r));
    JoinParts(fields, RawLines(r));
    JoinAppend(["  {"] + RenderAll(BodyLines(r)), ["  }"]);
    JoinAppend(["  {"], RenderAll(BodyLines(r)));
    JoinOne("  {");
    JoinOne("  }");
  }

  lemma LeafText(r: Record)
    requires r.Leaf?
    ensures JoinLines(RecordLines(r)) ==
            "  {\n" + JoinLines(RenderAll(HeadLines(r) + WorkLines(r) + TimingLines(r))) +
            JoinLines(RenderAll([Other(RawResults, "[")] + SampleLines(r.profile.raw))) + "    ],\n" +
            JoinLines(RenderAll(TailLines(r))) + "  }\n"
  {
    hide JoinLines, HeadLines, WorkLines, TimingLines, TailLines;
    RecordText(r);
    assert RawLines(r) == [Other(RawResults, "[")] + SampleLines(r.profile.raw) + [RawClose];
    JoinParts([Other(RawResults, "[")] + SampleLines(r.profile.raw), [RawClose]);
    assert RenderAll([RawClose]) == ["    ],"];
    JoinOne("    ],");
    var fields := "  {\n" + JoinLines(RenderAll(HeadLines(r) + WorkLines(r) + TimingLines(r)));
    var samples := JoinLines(RenderAll([Other(RawResults, "[")] + SampleLines(r.profile.raw)));
    assert JoinLines(RenderAll(RawLines(r))) == samples + "    ],\n";
    assert fields + (samples + "    ],\n") == fields + samples + "    ],\n";
    assert JoinLines(RecordLines(r)) == fields + (samples + "    ],\n") + JoinLines(RenderAll(TailLines(r))) + "  }\n";
  }
}
