/** What the watcher keeps of a stream and when its evidence is accepted, in the words of the events themselves. */
module WatcherMeaning {
  import opened Text
  import opened JsonTree
  import opened EventWatcher
  import opened MarkerEvidence

  /** The member of an event, or null. */
  function Member(event: Fields, key: string): Json {
    if key in event then event[key] else Null
  }

  /** A trailing carriage return is not part of a line, and nothing else is dropped. */
  lemma ReturnDropped(line: string)
    ensures DropReturn(line + "\r") == line
    ensures line == "" || line[|line| - 1] != '\r' ==> DropReturn(line) == line
  {
  }

  // ----- the log -----

  /** The objects on the lines: neither blank nor a marker once a carriage return is dropped. */
  function ObjectsOn(decode: Decoder, lines: seq<string>): seq<Fields> {
    if lines == [] then []
    else
      var n := |lines| - 1;
      var line := DropReturn(lines[n]);
      var decoded := decode(line);
      ObjectsOn(decode, lines[..n]) +
      if line !in {"", "F0", "F1", "F2"} && decoded.Value? && decoded.json.Obj? then [decoded.json.fields] else []
  }

  function CountOf(lines: seq<string>, marker: string): nat {
    if lines == [] then 0
    else CountOf(lines[..|lines| - 1], marker) + if DropReturn(lines[|lines| - 1]) == marker then 1 else 0
  }

  /** The boundary markers on the lines, in order. */
  function MarksOn(lines: seq<string>): seq<string> {
    if lines == [] then []
    else
      var line := DropReturn(lines[|lines| - 1]);
      MarksOn(lines[..|lines| - 1]) + if line == "F0" || line == "F1" then [line] else []
  }

  /** The names of the events that have one, in order. */
  function Names(events: seq<Fields>): seq<string> {
    if events == [] then []
    else
      var n := |events| - 1;
      var name := Member(events[n], "event");
      Names(events[..n]) + if name.Str? then [name.s] else []
  }

  /** The last PASS or FAIL. */
  function Verdict(events: seq<Fields>): Option<string> {
    if events == [] then None
    else
      var name := Member(events[|events| - 1], "event");
      if name == Str("PASS") then Some("PASS")
      else if name == Str("FAIL") then Some("FAIL")
      else Verdict(events[..|events| - 1])
  }

  /** The first failed assertion or protocol error. */
  function Alarm(events: seq<Fields>): Option<Fields> {
    if events == [] then None
    else if Alarm(events[..|events| - 1]).Some? then Alarm(events[..|events| - 1])
    else
      var last := events[|events| - 1];
      if Member(last, "event") == Str("FAIL") || Member(last, "event") == Str("PROTOCOL_ERROR") then Some(last) else None
  }

  function Summaries(events: seq<Fields>): seq<Json> {
    seq(|events|, i requires 0 <= i < |events| =>
      Obj(map["event" := Member(events[i], "event"), "sequence" := Member(events[i], "sequence")]))
  }

  ghost predicate LogIs(log: Log, events: seq<Fields>, marks: seq<string>, others: nat) {
    log.boundaries == marks && log.events == events &&
    log.count == |events| && log.records == Summaries(events) && log.types == Names(events) &&
    log.terminal == Verdict(events) && log.failure == Alarm(events) &&
    log.terminations == (if Alarm(events).Some? then 1 else 0) && log.others == seq(others, _ => "F2")
  }

  lemma EventStep(log: Log, events: seq<Fields>, marks: seq<string>, others: nat, e: Fields)
    requires LogIs(log, events, marks, others)
    ensures LogIs(RecordEvent(log, e), events + [e], marks, others)
  {
    var all := events + [e];
    assert all[..|all| - 1] == events && all[|all| - 1] == e;
    assert Summaries(all) == Summaries(events) + [Summary(e)];
  }

  lemma OtherStep(log: Log, events: seq<Fields>, marks: seq<string>, others: nat)
    requires LogIs(log, events, marks, others)
    ensures LogIs(log.(others := log.others + ["F2"]), events, marks, others + 1)
  {
    hide Summaries, Names, Verdict, Alarm;
    assert seq(others, _ => "F2") + ["F2"] == seq(others + 1, _ => "F2");
  }

  /** The log of any lines, by the objects and the markers on them. */
  lemma {:induction false} LogOfLines(decode: Decoder, lines: seq<string>)
    ensures LogIs(ReadLines(decode, EMPTY, lines), ObjectsOn(decode, lines), MarksOn(lines), CountOf(lines, "F2"))
  {
    hide DropReturn, RecordEvent;
    if lines == [] {
      EmptyLog();
    } else {
      hide LogIs;
      var n := |lines| - 1;
      LogOfLines(decode, lines[..n]);
      var log, line := ReadLines(decode, EMPTY, lines[..n]), DropReturn(lines[n]);
      var decoded := decode(line);
      if line == "F2" {
        OtherStep(log, ObjectsOn(decode, lines[..n]), MarksOn(lines[..n]), CountOf(lines[..n], "F2"));
        assert ObjectsOn(decode, lines) == ObjectsOn(decode, lines[..n]) && MarksOn(lines) == MarksOn(lines[..n]);
      } else if line == "F0" || line == "F1" {
        BoundaryStep(log, ObjectsOn(decode, lines[..n]), MarksOn(lines[..n]), CountOf(lines[..n], "F2"), line);
        assert ObjectsOn(decode, lines) == ObjectsOn(decode, lines[..n]);
      } else if line != "" && decoded.Value? && decoded.json.Obj? {
        EventStep(log, ObjectsOn(decode, lines[..n]), MarksOn(lines[..n]), CountOf(lines[..n], "F2"), decoded.json.fields);
        assert MarksOn(lines) == MarksOn(lines[..n]);
      } else {
        assert ObjectsOn(decode, lines) == ObjectsOn(decode, lines[..n]) && MarksOn(lines) == MarksOn(lines[..n]);
      }
    }
  }

  lemma EmptyLog()
    ensures LogIs(EMPTY, [], [], 0)
  {
  }

  lemma BoundaryStep(log: Log, events: seq<Fields>, marks: seq<string>, others: nat, line: string)
    requires LogIs(log, events, marks, others)
    ensures LogIs(log.(boundaries := log.boundaries + [line]), events, marks + [line], others)
  {
  }

  // ----- acceptance -----

  /** The boundaries of a number of measurements, one after another. */
  function Measured(times: nat): seq<string> {
    if times == 0 then [] else Measured(times - 1) + ["F0", "F1"]
  }

  /** Exactly the boundaries of some measurements, at least one. */
  ghost predicate AreMeasurements(marks: seq<Json>) {
    exists times: nat :: times > 0 && marks == Texts(Measured(times))
  }

  lemma {:induction false} MeasuredAt(times: nat)
    ensures |Measured(times)| == 2 * times
    ensures forall i :: 0 <= i < 2 * times ==> Measured(times)[i] == if i % 2 == 0 then "F0" else "F1"
  {
    if times > 0 {
      MeasuredAt(times - 1);
    }
  }

  lemma BoundariesMeasure(marks: seq<Json>)
    ensures CompleteBoundaries(marks) <==> AreMeasurements(marks)
  {
    hide Measured;
    if CompleteBoundaries(marks) {
      MeasuredAt(|marks| / 2);
      assert marks == Texts(Measured(|marks| / 2));
    }
    if times: nat :| times > 0 && marks == Texts(Measured(times)) {
      MeasuredAt(times);
    }
  }

  lemma {:induction false} BoundariesAreMarks(lines: seq<string>)
    ensures Boundaries(lines) == Texts(MarksOn(lines))
  {
    hide DropReturn;
    if lines != [] {
      BoundariesAreMarks(lines[..|lines| - 1]);
    }
  }

  /** Numbers, where given, are integers and rise. */
  predicate Rising(events: seq<Fields>) {
    (forall i :: 0 <= i < |events| ==> Member(events[i], "sequence").Null? || Member(events[i], "sequence").Int?) &&
    forall i, j :: 0 <= i < j < |events| && Member(events[i], "sequence").Int? && Member(events[j], "sequence").Int? ==>
      Member(events[i], "sequence").i < Member(events[j], "sequence").i
  }

  predicate OfWorkload(event: Fields) {
    Member(event, "event") in {Str("CONTEXT"), Str("HEARTBEAT"), Str("PASS"), Str("FAIL")}
  }

  /** The last event of the workload, if there is one, is a PASS or a FAIL. */
  predicate Finished(events: seq<Fields>) {
    forall i :: 0 <= i < |events| && OfWorkload(events[i]) && (forall j :: i < j < |events| ==> !OfWorkload(events[j])) ==>
      Member(events[i], "event") in {Str("PASS"), Str("FAIL")}
  }

  lemma {:induction false} SameObjects(decode: Decoder, lines: seq<string>)
    ensures |Events(decode, lines)| == |ObjectsOn(decode, lines)|
    ensures forall i :: 0 <= i < |ObjectsOn(decode, lines)| ==> Events(decode, lines)[i] == Obj(ObjectsOn(decode, lines)[i])
  {
    hide DropReturn;
    if lines != [] {
      SameObjects(decode, lines[..|lines| - 1]);
    }
  }

  lemma JudgedAlike(records: seq<Json>, events: seq<Fields>)
    requires |records| == |events| && forall i :: 0 <= i < |events| ==> records[i] == Obj(events[i])
    ensures StrictSequence(records) <==> Rising(events)
    ensures EndsTerminal(records) <==> Finished(events)
  {
    forall i | 0 <= i < |events|
      ensures SequenceOf(records[i]) == Member(events[i], "sequence")
      ensures TypeOfRecord(records[i]) == Member(events[i], "event")
      ensures IsWorkload(TypeOfRecord(records[i])) <==> OfWorkload(events[i])
      ensures IsTerminal(TypeOfRecord(records[i])) <==> Member(events[i], "event") in {Str("PASS"), Str("FAIL")}
    {
      assert records[i] == Obj(events[i]);
    }
    hide SequenceOf, TypeOfRecord, IsWorkload, IsTerminal, OfWorkload, Member;
    SequencesAlike(records, events);
    EndsAlike(records, events);
  }

  lemma SequencesAlike(records: seq<Json>, events: seq<Fields>)
    requires |records| == |events|
    requires forall i :: 0 <= i < |events| ==> SequenceOf(records[i]) == Member(events[i], "sequence")
    ensures StrictSequence(records) <==> Rising(events)
  {
    hide SequenceOf, Member;
    if StrictSequence(records) {
      assert Rising(events);
    }
    if Rising(events) {
      assert StrictSequence(records);
    }
  }

  lemma EndsAlike(records: seq<Json>, events: seq<Fields>)
    requires |records| == |events|
    requires forall i :: 0 <= i < |events| ==> (IsWorkload(TypeOfRecord(records[i])) <==> OfWorkload(events[i]))
    requires forall i :: 0 <= i < |events| ==>
      (IsTerminal(TypeOfRecord(records[i])) <==> Member(events[i], "event") in {Str("PASS"), Str("FAIL")})
    ensures EndsTerminal(records) <==> Finished(events)
  {
    hide TypeOfRecord, Member, IsWorkload, IsTerminal, OfWorkload;
    if EndsTerminal(records) {
      assert Finished(events);
    }
    if Finished(events) {
      assert EndsTerminal(records);
    }
  }

  /** Acceptance of a stream, however it was polled, by its markers and objects. */
  lemma AcceptedInWords(decode: Decoder, first: File, polls: seq<Option<File>>)
    requires Growing(polls, first.identity, first.content)
    ensures
      var lines := Complete(LastSeen(polls, first.content));
      Acceptable(Gather(PollAll(decode, START, [Some(first)] + polls))) <==>
      AreMeasurements(Texts(MarksOn(lines))) && Rising(ObjectsOn(decode, lines)) && Finished(ObjectsOn(decode, lines))
  {
    hide AreMeasurements, MarksOn, PollAll, Growing, LastSeen, Complete, CompleteBoundaries, StrictSequence,
         EndsTerminal, Rising, Finished, Acceptable, Gather, Boundaries, Events, ObjectsOn;
    var lines := Complete(LastSeen(polls, first.content));
    AcceptsStreamExactly(decode, first, polls);
    SameObjects(decode, lines);
    JudgedAlike(Events(decode, lines), ObjectsOn(decode, lines));
    BoundariesAreMarks(lines);
    BoundariesMeasure(Boundaries(lines));
  }

  // ----- any document -----

  function ObjectsIn(records: seq<Json>): seq<Fields> {
    seq(|records|, i requires 0 <= i < |records| => if records[i].Obj? then records[i].fields else map[])
  }

  /** Of all JSON values, exactly these evidence documents are accepted. */
  lemma DocumentInWords(evidence: Json)
    ensures Acceptable(evidence) <==>
            evidence.Obj? && Member(evidence.fields, "marker_file_observed") == Bool(true) &&
            Member(evidence.fields, "boundary_sequence").Arr? &&
            AreMeasurements(Member(evidence.fields, "boundary_sequence").items) &&
            Member(evidence.fields, "event_records").Arr? &&
            var records := Member(evidence.fields, "event_records").items;
            Member(evidence.fields, "event_count") == Int(|records|) && (forall r | r in records :: r.Obj?) &&
            Rising(ObjectsIn(records)) && Finished(ObjectsIn(records))
  {
    hide CompleteBoundaries, AreMeasurements, StrictSequence, EndsTerminal, Rising, Finished;
    if evidence.Obj? && Member(evidence.fields, "boundary_sequence").Arr? && Member(evidence.fields, "event_records").Arr? {
      BoundariesMeasure(Member(evidence.fields, "boundary_sequence").items);
      var records := Member(evidence.fields, "event_records").items;
      if forall r | r in records :: r.Obj? {
        assert forall i | 0 <= i < |records| :: records[i] in records;
        JudgedAlike(records, ObjectsIn(records));
      }
    }
  }
}
