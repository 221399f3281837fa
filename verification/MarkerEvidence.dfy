/** The host's acceptance of a run's marker evidence. */
module MarkerEvidence {
  import opened Text
  import opened JsonTree
  import opened EventWatcher

  // ----- the check of an evidence document -----

  /** Strict alternation F0 F1 F0 F1 ..., ending on a completed boundary. */
  predicate CompleteBoundaries(b: seq<Json>) {
    b != [] && |b| % 2 == 0 && forall i :: 0 <= i < |b| ==> b[i] == Str(if i % 2 == 0 then "F0" else "F1")
  }

  function SequenceOf(record: Json): Json {
    if record.Obj? then Get(record.fields, "sequence") else Null
  }

  function TypeOfRecord(record: Json): Json {
    if record.Obj? then TypeOfEvent(record.fields) else Null
  }

  /** Every present sequence number is an integer above all earlier ones. */
  predicate StrictSequence(records: seq<Json>) {
    (forall i :: 0 <= i < |records| ==> SequenceOf(records[i]).Null? || SequenceOf(records[i]).Int?) &&
    forall i, j :: 0 <= i < j < |records| && SequenceOf(records[i]).Int? && SequenceOf(records[j]).Int? ==>
      SequenceOf(records[i]).i < SequenceOf(records[j]).i
  }

  /** The last workload event, if there is one, is terminal. */
  predicate EndsTerminal(records: seq<Json>) {
    forall i :: (0 <= i < |records| && IsWorkload(TypeOfRecord(records[i])) &&
      (forall j :: i < j < |records| ==> !IsWorkload(TypeOfRecord(records[j])))) ==> IsTerminal(TypeOfRecord(records[i]))
  }

  predicate WellFormedRecords(records: seq<Json>) {
    (forall i :: 0 <= i < |records| ==> records[i].Obj?) && StrictSequence(records) && EndsTerminal(records)
  }

  /** `evidence` is what was loaded or `None`; anything but a well-formed document is refused. */
  predicate Acceptable(evidence: Json) {
    evidence.Obj? &&
    var e := evidence.fields;
    Get(e, "marker_file_observed") == Bool(true) &&
    Get(e, "boundary_sequence").Arr? && CompleteBoundaries(Get(e, "boundary_sequence").items) &&
    Get(e, "event_records").Arr? && Get(e, "event_count") == Int(|Get(e, "event_records").items|) &&
    WellFormedRecords(Get(e, "event_records").items)
  }

  method Validate(evidence: Json) returns (ok: bool)
    ensures ok <==> Acceptable(evidence)
  {
    hide CompleteBoundaries, WellFormedRecords;
    if !evidence.Obj? {
      return false;
    }
    var e := evidence.fields;
    if Get(e, "marker_file_observed") != Bool(true) {
      return false;
    }
    var sequence := Get(e, "boundary_sequence");
    if !sequence.Arr? {
      return false;
    }
    var boundaries := ValidateBoundaries(sequence.items);
    if !boundaries {
      return false;
    }
    var count, records := Get(e, "event_count"), Get(e, "event_records");
    if !count.Int? || count.i < 0 {
      return false;
    }
    if !records.Arr? || |records.items| != count.i {
      return false;
    }
    ok := ValidateRecords(records.items);
  }

  method ValidateBoundaries(b: seq<Json>) returns (ok: bool)
    ensures ok <==> CompleteBoundaries(b)
  {
    if b == [] {
      return false;
    }
    var expected := "F0";
    var completed := 0;
    for i := 0 to |b|
      invariant expected == if i % 2 == 0 then "F0" else "F1"
      invariant completed == i / 2
      invariant forall k :: 0 <= k < i ==> b[k] == Str(if k % 2 == 0 then "F0" else "F1")
    {
      if b[i] != Str(expected) {
        return false;
      }
      if b[i] == Str("F1") {
        completed := completed + 1;
      }
      expected := if expected == "F0" then "F1" else "F0";
    }
    ok := !(expected != "F0" || completed == 0);
  }

  /** `previous` is the last sequence number of an increasing list, if it has any. */
  ghost predicate RisesTo(records: seq<Json>, previous: Option<int>) {
    StrictSequence(records) &&
    match previous
    case None => forall k :: 0 <= k < |records| ==> SequenceOf(records[k]).Null?
    case Some(n) =>
      (forall k :: 0 <= k < |records| && SequenceOf(records[k]).Int? ==> SequenceOf(records[k]).i <= n) &&
      exists k :: 0 <= k < |records| && SequenceOf(records[k]) == Int(n)
  }

  /** One more record keeps the sequence increasing exactly when its number is absent or above the last. */
  lemma SequenceStep(front: seq<Json>, record: Json, previous: Option<int>)
    requires RisesTo(front, previous)
    ensures
      var sequence := SequenceOf(record);
      match sequence
      case Null => RisesTo(front + [record], previous)
      case Int(n) =>
        if previous.None? || n > previous.value then RisesTo(front + [record], Some(n))
        else !StrictSequence(front + [record])
      case _ => !StrictSequence(front + [record])
  {
    hide SequenceOf;
    var all := front + [record];
    assert all[|front|] == record && forall k :: 0 <= k < |front| ==> all[k] == front[k];
    if SequenceOf(record).Int? && previous.Some? {
      var k :| 0 <= k < |front| && SequenceOf(front[k]) == Int(previous.value);
      assert all[k] == front[k];
    }
    if SequenceOf(record).Null? && previous.Some? {
      var k :| 0 <= k < |front| && SequenceOf(front[k]) == Int(previous.value);
      assert SequenceOf(all[k]) == Int(previous.value);
    }
  }

  lemma StrictPrefix(records: seq<Json>, i: nat)
    requires i <= |records| && StrictSequence(records)
    ensures StrictSequence(records[..i])
  {
    hide SequenceOf;
  }

  method ValidateRecords(records: seq<Json>) returns (ok: bool)
    ensures ok <==> WellFormedRecords(records)
  {
    hide IsWorkload, IsTerminal, TypeOfEvent, Get, StrictSequence, RisesTo;
    var previous: Option<int> := None;
    var workload: Option<Json> := None;
    ghost var last := 0;
    NothingYet();
    assert records[..0] == [];
    for i := 0 to |records|
      invariant forall k :: 0 <= k < i ==> records[k].Obj?
      invariant RisesTo(records[..i], previous)
      invariant workload.None? ==> forall k :: 0 <= k < i ==> !IsWorkload(TypeOfRecord(records[k]))
      invariant workload.Some? ==> last < i && workload.value == TypeOfRecord(records[last]) && IsWorkload(workload.value)
      invariant workload.Some? ==> forall k :: last < k < i ==> !IsWorkload(TypeOfRecord(records[k]))
    {
      var record := records[i];
      if !record.Obj? {
        return false;
      }
      var kind := TypeOfEvent(record.fields);
      if IsWorkload(kind) {
        workload, last := Some(kind), i;
      }
      assert records[..i + 1] == records[..i] + [record];
      SequenceStep(records[..i], record, previous);
      if StrictSequence(records) {
        StrictPrefix(records, i + 1);
      }
      var sequence := Get(record.fields, "sequence");
      if sequence.Null? {
        continue;
      }
      if !sequence.Int? {
        return false;
      }
      if previous.Some? && sequence.i <= previous.value {
        return false;
      }
      previous := Some(sequence.i);
    }
    assert records[..|records|] == records;
    EndsStrict(records, previous);
    ok := workload.None? || IsTerminal(workload.value);
  }

  lemma NothingYet()
    ensures RisesTo([], None)
  {
  }

  lemma EndsStrict(records: seq<Json>, previous: Option<int>)
    requires RisesTo(records, previous)
    ensures StrictSequence(records)
  {
  }

  // ----- the evidence of a marker stream -----

  function Texts(lines: seq<string>): seq<Json> {
    seq(|lines|, i requires 0 <= i < |lines| => Str(lines[i]))
  }

  /** The checked part of the evidence a watcher hands over. */
  function Gather(s: State): Json {
    Obj(map["marker_file_observed" := Bool(s.observed), "boundary_sequence" := Arr(Texts(s.log.boundaries)),
            "event_count" := Int(s.log.count), "event_records" := Arr(s.log.records)])
  }

  predicate IsBoundary(raw: string) {
    DropReturn(raw) == "F0" || DropReturn(raw) == "F1"
  }

  /** The boundary markers among the lines, in order. */
  function Boundaries(lines: seq<string>): seq<Json> {
    if lines == [] then []
    else
      var n := |lines| - 1;
      Boundaries(lines[..n]) + if IsBoundary(lines[n]) then [Str(DropReturn(lines[n]))] else []
  }

  /** The line is neither empty nor a marker and decodes to an object. */
  predicate IsEvent(decode: Decoder, raw: string) {
    var line := DropReturn(raw);
    line != "" && line != "F0" && line != "F1" && line != "F2" && decode(line).Value? && decode(line).json.Obj?
  }

  /** The objects among the lines, in order. */
  function Events(decode: Decoder, lines: seq<string>): seq<Json> {
    if lines == [] then []
    else
      var n := |lines| - 1;
      Events(decode, lines[..n]) + if IsEvent(decode, lines[n]) then [decode(DropReturn(lines[n])).json] else []
  }

  /** A log holds what stands on the lines read so far. */
  ghost predicate Holds(decode: Decoder, log: Log, lines: seq<string>) {
    var events := Events(decode, lines);
    Texts(log.boundaries) == Boundaries(lines) && log.count == |log.records| == |events| &&
    forall i :: 0 <= i < |events| ==> events[i].Obj? && log.records[i] == Summary(events[i].fields)
  }

  lemma {:induction false} LogHolds(decode: Decoder, lines: seq<string>)
    ensures Holds(decode, ReadLines(decode, EMPTY, lines), lines)
  {
    hide Summary, DropReturn, IsTerminal, EventWatcher.IsFailure;
    if lines != [] {
      var n := |lines| - 1;
      LogHolds(decode, lines[..n]);
      var log := ReadLines(decode, EMPTY, lines[..n]);
      var line := DropReturn(lines[n]);
      assert Texts(log.boundaries + [line]) == Texts(log.boundaries) + [Str(line)];
    }
  }

  /** The summaries are judged like the events they stand for. */
  lemma SummariesJudged(records: seq<Json>, events: seq<Json>)
    requires |records| == |events|
    requires forall i :: 0 <= i < |events| ==> events[i].Obj? && records[i] == Summary(events[i].fields)
    ensures WellFormedRecords(records) <==> StrictSequence(events) && EndsTerminal(events)
  {
    hide IsWorkload, IsTerminal;
    forall i | 0 <= i < |events|
      ensures SequenceOf(records[i]) == SequenceOf(events[i]) && TypeOfRecord(records[i]) == TypeOfRecord(events[i])
    {
      assert records[i] == Summary(events[i].fields);
    }
    if WellFormedRecords(records) {
      assert StrictSequence(events);
      assert EndsTerminal(events);
    }
    if StrictSequence(events) && EndsTerminal(events) {
      assert StrictSequence(records);
      assert EndsTerminal(records);
    }
  }

  /**
   * What is accepted, in terms of the marker stream alone: the boundary markers among its
   * complete lines alternate from F0 to a last F1, the sequence numbers of its events
   * increase, and its last workload event is terminal. The split over polls plays no part.
   */
  lemma AcceptsStreamExactly(decode: Decoder, first: File, polls: seq<Option<File>>)
    requires Growing(polls, first.identity, first.content)
    ensures
      var lines := Complete(LastSeen(polls, first.content));
      Acceptable(Gather(PollAll(decode, START, [Some(first)] + polls))) <==>
      CompleteBoundaries(Boundaries(lines)) && StrictSequence(Events(decode, lines)) && EndsTerminal(Events(decode, lines))
  {
    hide PollAll, Growing, LastSeen, Complete, Rest, ReadLines, CompleteBoundaries, WellFormedRecords, StrictSequence,
         EndsTerminal, Boundaries, Events, Summary;
    var lines := Complete(LastSeen(polls, first.content));
    ChunkingInvariance(decode, START, first, polls);
    LogHolds(decode, lines);
    SummariesJudged(ReadLines(decode, EMPTY, lines).records, Events(decode, lines));
  }

  /** A run whose marker file never appeared is refused. */
  lemma {:induction false} UnseenFileRefused(decode: Decoder, polls: seq<Option<File>>)
    requires forall i :: 0 <= i < |polls| ==> polls[i].None?
    ensures PollAll(decode, START, polls) == START && !Acceptable(Gather(START))
  {
    if polls != [] {
      UnseenFileRefused(decode, polls[..|polls| - 1]);
    }
  }
}
