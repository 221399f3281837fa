/** The host's incremental reader of the guest's marker file. */
module EventWatcher {
  import opened Text
  import opened JsonTree

  // ----- what a line means -----

  /** The outcome of decoding a line as UTF-8 JSON. */
  datatype Decoded = NotJson | Value(json: Json)

  type Decoder = string -> Decoded

  function TypeOfEvent(event: Fields): Json {
    Get(event, "event")
  }

  predicate IsFailure(kind: Json) {
    kind == Str("FAIL") || kind == Str("PROTOCOL_ERROR")
  }

  predicate IsTerminal(kind: Json) {
    kind == Str("PASS") || kind == Str("FAIL")
  }

  predicate IsWorkload(kind: Json) {
    kind == Str("CONTEXT") || kind == Str("HEARTBEAT") || kind == Str("PASS") || kind == Str("FAIL")
  }

  /** What the evidence keeps of an event. */
  function Summary(event: Fields): Json {
    Obj(map["event" := TypeOfEvent(event), "sequence" := Get(event, "sequence")])
  }

  /**
   * Everything the watcher has learned: `events` is the durable event file, and
   * `terminations` counts the calls that kill the process tree.
   */
  datatype Log = Log(boundaries: seq<string>, others: seq<string>, events: seq<Fields>, count: nat, records: seq<Json>,
                     types: seq<string>, terminal: Option<string>, failure: Option<Fields>, terminations: nat)

  const EMPTY := Log([], [], [], 0, [], [], None, None, 0)

  function RecordEvent(log: Log, e: Fields): Log {
    var kind := TypeOfEvent(e);
    log.(events := log.events + [e], count := log.count + 1, records := log.records + [Summary(e)],
         types := if kind.Str? then log.types + [kind.s] else log.types,
         terminal := if IsTerminal(kind) then Some(kind.s) else log.terminal,
         failure := if IsFailure(kind) && log.failure.None? then Some(e) else log.failure,
         terminations := if IsFailure(kind) && log.failure.None? then log.terminations + 1 else log.terminations)
  }

  function ReadLine(decode: Decoder, log: Log, raw: string): Log {
    var line := DropReturn(raw);
    if line == "" then log
    else if line == "F0" || line == "F1" then log.(boundaries := log.boundaries + [line])
    else if line == "F2" then log.(others := log.others + ["F2"])
    else
      var decoded := decode(line);
      if decoded.Value? && decoded.json.Obj? then RecordEvent(log, decoded.json.fields) else log
  }

  function ReadLines(decode: Decoder, log: Log, lines: seq<string>): Log {
    if lines == [] then log
    else ReadLine(decode, ReadLines(decode, log, lines[..|lines| - 1]), lines[|lines| - 1])
  }

  // ----- complete lines -----

  /** The lines ended by a newline. */
  function Complete(text: string): seq<string> {
    var end := FindAny(text, "\n", 0);
    if end == |text| then [] else [text[..end]] + Complete(text[end + 1..])
  }

  /** What follows the last newline. */
  function Rest(text: string): string {
    var end := FindAny(text, "\n", 0);
    if end == |text| then text else Rest(text[end + 1..])
  }

  lemma RestStep(text: string)
    ensures
      var end := FindAny(text, "\n", 0);
      if end == |text| then Complete(text) == [] && Rest(text) == text && OneLine(text)
      else Complete(text) == [text[..end]] + Complete(text[end + 1..]) && Rest(text) == Rest(text[end + 1..])
  {
    hide FindAny;
  }

  lemma {:induction false} RestIsSuffix(text: string)
    ensures OneLine(Rest(text)) && |Rest(text)| <= |text| && text[|text| - |Rest(text)|..] == Rest(text)
    ensures Rest(text) != text ==> text[|text| - |Rest(text)| - 1] == '\n'
  {
    hide Rest, FindAny, Complete;
    RestStep(text);
    var end := FindAny(text, "\n", 0);
    if end < |text| {
      var tail := text[end + 1..];
      RestIsSuffix(tail);
      assert text[|text| - |Rest(text)|..] == tail[|tail| - |Rest(tail)|..];
    }
  }

  lemma FirstNewline(a: string, b: string)
    ensures FindAny(a, "\n", 0) < |a| ==> FindAny(a + b, "\n", 0) == FindAny(a, "\n", 0)
    ensures FindAny(a, "\n", 0) == |a| ==> FindAny(a + b, "\n", 0) == |a| + FindAny(b, "\n", 0)
  {
    var i, j, k := FindAny(a, "\n", 0), FindAny(b, "\n", 0), FindAny(a + b, "\n", 0);
    assert forall n :: 0 <= n < |a| ==> (a + b)[n] == a[n];
    assert forall n :: 0 <= n < |b| ==> (a + b)[|a| + n] == b[n];
    if i < |a| {
      assert (a + b)[i] == a[i];
    } else if j < |b| {
      assert (a + b)[|a| + j] == b[j];
    }
  }

  /** Reading on from the unfinished line is reading the whole. */
  lemma {:induction false} CompleteAppend(a: string, b: string)
    ensures Complete(a + b) == Complete(a) + Complete(Rest(a) + b)
    ensures Rest(a + b) == Rest(Rest(a) + b)
    decreases |a|
  {
    hide Rest, FindAny, Complete;
    RestStep(a);
    RestStep(a + b);
    var end := FindAny(a, "\n", 0);
    FirstNewline(a, b);
    if end < |a| {
      assert (a + b)[..end] == a[..end] && (a + b)[end + 1..] == a[end + 1..] + b;
      CompleteAppend(a[end + 1..], b);
    }
  }

  lemma {:induction false} ReadLinesAppend(decode: Decoder, log: Log, a: seq<string>, b: seq<string>)
    ensures ReadLines(decode, log, a + b) == ReadLines(decode, ReadLines(decode, log, a), b)
    decreases |b|
  {
    hide ReadLine;
    if b == [] {
      assert a + b == a;
    } else {
      var n := |b| - 1;
      assert (a + b)[..|a + b| - 1] == a + b[..n] && (a + b)[|a + b| - 1] == b[n];
      ReadLinesAppend(decode, log, a, b[..n]);
    }
  }

  // ----- polling as a state machine -----

  datatype File = File(identity: int, content: string)

  datatype State = State(offset: nat, partial: string, identity: Option<int>, observed: bool, log: Log)

  const START := State(0, "", None, false, EMPTY)

  /** A recreated or truncated file is read from its beginning, dropping the unfinished line. */
  predicate Restarted(s: State, f: File) {
    (s.identity.Some? && s.identity.value != f.identity) || |f.content| < s.offset
  }

  function Poll(decode: Decoder, s: State, file: Option<File>): State {
    match file
    case None => s
    case Some(f) =>
      var s := if Restarted(s, f) then s.(offset := 0, partial := "") else s;
      var chunk := f.content[s.offset..];
      var text := s.partial + chunk;
      State(|f.content|, if chunk == "" then s.partial else Rest(text), Some(f.identity), true,
            if chunk == "" then s.log else ReadLines(decode, s.log, Complete(text)))
  }

  function PollAll(decode: Decoder, s: State, polls: seq<Option<File>>): State {
    if polls == [] then s else Poll(decode, PollAll(decode, s, polls[..|polls| - 1]), polls[|polls| - 1])
  }

  class GuestEventWatcher {
    const decode: Decoder
    var offset: nat
    var partial: string
    var fileIdentity: Option<int>
    var markerFileObserved: bool
    var boundarySequence: seq<string>
    var otherMarkers: seq<string>
    var eventLog: seq<Fields>
    var eventCount: nat
    var eventRecords: seq<Json>
    var eventTypes: seq<string>
    var terminalEventType: Option<string>
    var failure: Option<Fields>
    var terminations: nat

    ghost function LogView(): Log
      reads this
    {
      Log(boundarySequence, otherMarkers, eventLog, eventCount, eventRecords, eventTypes, terminalEventType, failure,
          terminations)
    }

    ghost function View(): State
      reads this
    {
      State(offset, partial, fileIdentity, markerFileObserved, LogView())
    }

    constructor (decode: Decoder)
      ensures this.decode == decode && View() == START
    {
      this.decode := decode;
      offset, partial, fileIdentity, markerFileObserved := 0, "", None, false;
      boundarySequence, otherMarkers, eventLog, eventCount, eventRecords, eventTypes := [], [], [], 0, [], [];
      terminalEventType, failure, terminations := None, None, 0;
    }

    /** Latches the first failure and kills the guest for it, once. */
    method Fail(e: Fields)
      modifies this`failure, this`terminations
      ensures failure == (if old(failure).None? then Some(e) else old(failure))
      ensures terminations == old(terminations) + if old(failure).None? then 1 else 0
    {
      if failure.Some? {
        return;
      }
      failure := Some(e);
      terminations := terminations + 1;
    }

    method Record(e: Fields)
      modifies this`eventLog, this`eventCount, this`eventRecords, this`eventTypes, this`terminalEventType,
               this`failure, this`terminations
      ensures LogView() == RecordEvent(old(LogView()), e)
    {
      eventLog := eventLog + [e];
      eventCount := eventCount + 1;
      var kind := TypeOfEvent(e);
      if kind.Str? {
        eventTypes := eventTypes + [kind.s];
      }
      eventRecords := eventRecords + [Summary(e)];
      if IsTerminal(kind) {
        terminalEventType := Some(kind.s);
      }
      if IsFailure(kind) {
        Fail(e);
      }
    }

    method PollOnce(file: Option<File>)
      modifies this
      ensures View() == Poll(decode, old(View()), file)
    {
      hide ReadLine, Complete, Rest;
      if file.None? {
        return;
      }
      var f := file.value;
      if (fileIdentity.Some? && fileIdentity.value != f.identity) || |f.content| < offset {
        offset := 0;
        partial := "";
      }
      fileIdentity := Some(f.identity);
      markerFileObserved := true;
      var chunk := f.content[offset..];
      offset := |f.content|;
      if chunk == "" {
        return;
      }
      var lines := Complete(partial + chunk);
      partial := Rest(partial + chunk);
      ghost var before := LogView();
      ghost var kept := (offset, partial, fileIdentity, markerFileObserved);
      for i := 0 to |lines|
        invariant LogView() == ReadLines(decode, before, lines[..i])
        invariant (offset, partial, fileIdentity, markerFileObserved) == kept
      {
        assert lines[..i + 1][..i] == lines[..i];
        TakeLine(lines[i]);
      }
      assert lines[..|lines|] == lines;
    }

    method TakeLine(raw: string)
      modifies this`boundarySequence, this`otherMarkers, this`eventLog, this`eventCount, this`eventRecords,
               this`eventTypes, this`terminalEventType, this`failure, this`terminations
      ensures LogView() == ReadLine(decode, old(LogView()), raw)
    {
      hide RecordEvent;
      var line := raw;
      if line != "" && line[|line| - 1] == '\r' {
        line := line[..|line| - 1];
      }
      if line == "" {
        return;
      }
      if line == "F0" || line == "F1" {
        boundarySequence := boundarySequence + [line];
        return;
      }
      if line == "F2" {
        otherMarkers := otherMarkers + ["F2"];
        return;
      }
      var decoded := decode(line);
      if decoded.Value? && decoded.json.Obj? {
        Record(decoded.json.fields);
      }
    }
  }

  // ----- chunking -----

  /** One-shot reading of a stream on top of an earlier log. */
  function OneShot(decode: Decoder, log: Log, identity: int, content: string): State {
    State(|content|, Rest(content), Some(identity), true, ReadLines(decode, log, Complete(content)))
  }

  /** Every poll sees a prefix of what the next one sees, in the same file; some polls may see no file. */
  predicate Growing(polls: seq<Option<File>>, identity: int, seen: string) {
    if polls == [] then true
    else if polls[0].None? then Growing(polls[1..], identity, seen)
    else
      polls[0].value.identity == identity && seen <= polls[0].value.content &&
      Growing(polls[1..], identity, polls[0].value.content)
  }

  function LastSeen(polls: seq<Option<File>>, seen: string): string {
    if polls == [] then seen
    else LastSeen(polls[1..], if polls[0].None? then seen else polls[0].value.content)
  }

  lemma PollGrows(decode: Decoder, log: Log, identity: int, seen: string, content: string)
    requires seen <= content
    ensures Poll(decode, OneShot(decode, log, identity, seen), Some(File(identity, content))) ==
            OneShot(decode, log, identity, content)
  {
    hide ReadLine, Complete, Rest;
    var chunk := content[|seen|..];
    assert content == seen + chunk;
    CompleteAppend(seen, chunk);
    ReadLinesAppend(decode, log, Complete(seen), Complete(Rest(seen) + chunk));
    if chunk == "" {
      assert content == seen;
    }
  }

  lemma {:induction false} PollAllFront(decode: Decoder, s: State, polls: seq<Option<File>>)
    requires polls != []
    ensures PollAll(decode, s, polls) == PollAll(decode, Poll(decode, s, polls[0]), polls[1..])
    decreases |polls|
  {
    hide Poll;
    var n := |polls| - 1;
    if n == 0 {
      assert polls[..0] == [] && polls[1..] == [];
    } else {
      PollAllFront(decode, s, polls[..n]);
      assert polls[..n][1..] == polls[1..][..n - 1];
    }
  }

  lemma {:induction false} PollsFollow(decode: Decoder, log: Log, identity: int, polls: seq<Option<File>>, seen: string)
    requires Growing(polls, identity, seen)
    ensures PollAll(decode, OneShot(decode, log, identity, seen), polls) ==
            OneShot(decode, log, identity, LastSeen(polls, seen))
    decreases |polls|
  {
    hide OneShot, Poll;
    if polls != [] {
      PollAllFront(decode, OneShot(decode, log, identity, seen), polls);
      if polls[0].None? {
        PollMissing(decode, OneShot(decode, log, identity, seen));
        PollsFollow(decode, log, identity, polls[1..], seen);
      } else {
        PollGrows(decode, log, identity, seen, polls[0].value.content);
        PollsFollow(decode, log, identity, polls[1..], polls[0].value.content);
      }
    }
  }

  lemma PollMissing(decode: Decoder, s: State)
    ensures Poll(decode, s, None) == s
  {
  }

  /** The first sight of a file, or of a recreated or truncated one, reads it whole on top of the log. */
  lemma PollFromStart(decode: Decoder, s: State, f: File)
    requires s == START || Restarted(s, f)
    ensures Poll(decode, s, Some(f)) == OneShot(decode, s.log, f.identity, f.content)
  {
    hide ReadLine, ReadLines;
    var text := "" + f.content;
    assert text == f.content && f.content[0..] == f.content;
    assert f.content == "" ==> Complete(f.content) == [] && Rest(f.content) == "";
    NoLines(decode, s.log);
  }

  lemma NoLines(decode: Decoder, log: Log)
    ensures ReadLines(decode, log, []) == log
  {
  }

  /**
   * Chunking invariance: however an append-only stream is split over polls, and whatever
   * was read before the file appeared or was recreated, the watcher ends as if it had
   * parsed the complete lines of the stream once.
   */
  lemma ChunkingInvariance(decode: Decoder, s: State, first: File, polls: seq<Option<File>>)
    requires s == START || Restarted(s, first)
    requires Growing(polls, first.identity, first.content)
    ensures PollAll(decode, s, [Some(first)] + polls) ==
            OneShot(decode, s.log, first.identity, LastSeen(polls, first.content))
  {
    hide Poll, OneShot;
    PollAllFront(decode, s, [Some(first)] + polls);
    assert ([Some(first)] + polls)[1..] == polls;
    PollFromStart(decode, s, first);
    PollsFollow(decode, s.log, first.identity, polls, first.content);
  }

  // ----- the failure latch -----

  /** The first failure event among the decoded objects, and the count of kills, agree. */
  ghost predicate Latched(log: Log) {
    log.terminations == (if log.failure.Some? then 1 else 0) &&
    (log.failure.None? ==> forall i :: 0 <= i < |log.events| ==> !IsFailure(TypeOfEvent(log.events[i]))) &&
    (log.failure.Some? ==> exists k :: 0 <= k < |log.events| && FirstFailure(log, k))
  }

  ghost predicate FirstFailure(log: Log, k: nat)
    requires k < |log.events|
  {
    log.failure == Some(log.events[k]) && IsFailure(TypeOfEvent(log.events[k])) &&
    forall i :: 0 <= i < k ==> !IsFailure(TypeOfEvent(log.events[i]))
  }

  lemma RecordKeepsLatch(log: Log, e: Fields)
    requires Latched(log)
    ensures Latched(RecordEvent(log, e))
  {
    var next := RecordEvent(log, e);
    if log.failure.Some? {
      var k :| 0 <= k < |log.events| && FirstFailure(log, k);
      assert FirstFailure(next, k);
    } else if IsFailure(TypeOfEvent(e)) {
      assert FirstFailure(next, |log.events|);
    }
  }

  lemma {:induction false} ReadLinesKeepLatch(decode: Decoder, log: Log, lines: seq<string>)
    requires Latched(log)
    ensures Latched(ReadLines(decode, log, lines))
  {
    hide RecordEvent, DropReturn;
    if lines != [] {
      var n := |lines| - 1;
      ReadLinesKeepLatch(decode, log, lines[..n]);
      var before := ReadLines(decode, log, lines[..n]);
      var line := DropReturn(lines[n]);
      var decoded := decode(line);
      if decoded.Value? && decoded.json.Obj? {
        RecordKeepsLatch(before, decoded.json.fields);
      }
      hide Latched;
      LatchIgnoresMarkers(before, line);
    }
  }

  lemma LatchIgnoresMarkers(log: Log, line: string)
    requires Latched(log)
    ensures Latched(log.(boundaries := log.boundaries + [line])) && Latched(log.(others := log.others + ["F2"]))
  {
    if log.failure.Some? {
      var k :| 0 <= k < |log.events| && FirstFailure(log, k);
      assert FirstFailure(log.(boundaries := log.boundaries + [line]), k);
      assert FirstFailure(log.(others := log.others + ["F2"]), k);
    }
  }

  /** Over any polls of any files, the watcher latches exactly the first failure and kills the guest at most once. */
  lemma {:induction false} FailureLatchedOnce(decode: Decoder, polls: seq<Option<File>>)
    ensures Latched(PollAll(decode, START, polls).log)
    decreases |polls|
  {
    hide ReadLines, Complete, Rest;
    if polls != [] {
      var n := |polls| - 1;
      FailureLatchedOnce(decode, polls[..n]);
      var s := PollAll(decode, START, polls[..n]);
      if polls[n].Some? {
        var t := if Restarted(s, polls[n].value) then s.(offset := 0, partial := "") else s;
        ReadLinesKeepLatch(decode, s.log, Complete(t.partial + polls[n].value.content[t.offset..]));
      }
    }
  }
}
