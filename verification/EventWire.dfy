/** What a run of calls puts on the port: byte by byte, and from the history of the calls alone. */
module EventWire {
  import opened EventChecksum
  import opened EventPort

  // ----- the checksum -----

  lemma CrcThree(c: bv8, x: bv8, y: bv8, z: bv8)
    ensures Crc(c, [x, y, z]) == ShiftByte(Xor(ShiftByte(Xor(ShiftByte(Xor(c, x)), y)), z))
  {
    hide ShiftByte, Xor;
    var first := ShiftByte(Xor(c, x));
    var second := ShiftByte(Xor(first, y));
    assert [x, y, z][1..] == [y, z] && [y, z][1..] == [z] && [z][1..] == [];
    assert Crc(c, [x, y, z]) == Crc(first, [y, z]);
    assert Crc(first, [y, z]) == Crc(second, [z]);
    assert Crc(second, [z]) == Crc(ShiftByte(Xor(second, z)), []);
  }

  lemma StepValues()
    ensures ShiftByte(Xor(0, 0x31)) == 0x97 && ShiftByte(Xor(0x97, 0x32)) == 0x72 && ShiftByte(Xor(0x72, 0x33)) == 0xC0
    ensures ShiftByte(Xor(0xC0, 0x34)) == 0xC2 && ShiftByte(Xor(0xC2, 0x35)) == 0xCB && ShiftByte(Xor(0xCB, 0x36)) == 0xFD
    ensures ShiftByte(Xor(0xFD, 0x37)) == 0x78 && ShiftByte(Xor(0x78, 0x38)) == 0xC7 && ShiftByte(Xor(0xC7, 0x39)) == 0xF4
  {
  }

  /** The published check value of the CRC with polynomial x^8 + x^2 + x + 1: that of the digits 1 to 9. */
  lemma CheckValue()
    ensures Checksum([0x31, 0x32, 0x33] + [0x34, 0x35, 0x36] + [0x37, 0x38, 0x39]) == 0xF4
  {
    hide ShiftByte, Xor, Crc;
    StepValues();
    CrcAppend(0, [0x31, 0x32, 0x33] + [0x34, 0x35, 0x36], [0x37, 0x38, 0x39]);
    CrcAppend(0, [0x31, 0x32, 0x33], [0x34, 0x35, 0x36]);
    CrcThree(0, 0x31, 0x32, 0x33);
    CrcThree(0xC0, 0x34, 0x35, 0x36);
    CrcThree(0xFD, 0x37, 0x38, 0x39);
  }

  lemma CrcOfNothing(c: bv8)
    ensures Crc(c, []) == c
  {
  }

  // ----- the frame -----

  /** Both digits of a byte, each on the base A0, the high one first. */
  function Digits(bytes: seq<bv8>): seq<bv8> {
    if bytes == [] then [] else [0xA0 | (bytes[0] >> 4), 0xA0 | (bytes[0] & 0x0F)] + Digits(bytes[1..])
  }

  function Code(kind: EventType): bv8 {
    if kind == CONTEXT then 1 else if kind == HEARTBEAT then 2 else if kind == FAIL then 3 else 4
  }

  function Word(v: bv32): seq<bv8> {
    [(v & 0xFF) as bv8, ((v >> 8) & 0xFF) as bv8, ((v >> 16) & 0xFF) as bv8, ((v >> 24) & 0xFF) as bv8]
  }

  /** Version 1, type, phase, assertion, sequence, expected, actual and final state, low bytes first. */
  function Payload(kind: EventType, phase: bv32, assertion: bv16, sequence: bv32, expected: bv32, actual: bv32,
                   finalState: bv32): seq<bv8> {
    [1, Code(kind), (phase & 0xFF) as bv8, ((phase >> 8) & 0xFF) as bv8,
     (assertion & 0xFF) as bv8, (assertion >> 8) as bv8] +
    Word(sequence) + Word(expected) + Word(actual) + Word(finalState)
  }

  function Wire(payload: seq<bv8>): seq<bv8> {
    [0xF8] + Digits(payload + [Checksum(payload)])
  }

  lemma {:induction false} DigitsAreNibbles(bytes: seq<bv8>)
    ensures Digits(bytes) == Nibbles(bytes)
  {
    if bytes != [] {
      DigitsAreNibbles(bytes[1..]);
    }
  }

  lemma WordIs(v: bv32)
    ensures U32(v) == Word(v)
  {
    assert Low8(v >> 8) == ((v >> 8) & 0xFF) as bv8;
  }

  lemma PayloadIs(e: Event, phase: bv32)
    requires e.phase == Low16(phase)
    ensures Body(e) == Payload(e.kind, phase, e.assertion, e.sequence, e.expected, e.actual, e.finalState)
  {
    hide U16, U32, Word, Low16, Code, TypeCode;
    WordIs(e.sequence);
    WordIs(e.expected);
    WordIs(e.actual);
    WordIs(e.finalState);
    HalfWordIs(phase);
    AssertionIs(e.assertion);
    CodeIs(e.kind);
  }

  lemma HalfWordIs(v: bv32)
    ensures U16(Low16(v)) == [(v & 0xFF) as bv8, ((v >> 8) & 0xFF) as bv8]
  {
    HalfLow(v);
    HalfHigh(v);
  }

  lemma HalfLow(v: bv32)
    ensures (((v & 0xFFFF) as bv16) & 0xFF) as bv8 == (v & 0xFF) as bv8
  {
  }

  lemma HalfHigh(v: bv32)
    ensures (((v & 0xFFFF) as bv16) >> 8) as bv8 == ((v >> 8) & 0xFF) as bv8
  {
  }

  /** The frame of an event is the wire form of its parts. */
  lemma FrameWire(s: State, kind: EventType, assertion: bv16, expected: bv32, actual: bv32)
    ensures Encode(Framed(FrameOf(s, kind, assertion, expected, actual))) ==
            Wire(Payload(kind, s.phase, assertion, Next32(s.sequence), expected, actual, s.finalState))
  {
    hide Body, Payload, Low16, Checksum, Nibbles, Digits, Next32, Increment;
    Increments(s.sequence);
    var e := FrameOf(s, kind, assertion, expected, actual);
    PayloadIs(e, s.phase);
    DigitsAreNibbles(Body(e) + [Checksum(Body(e))]);
  }

  lemma AssertionIs(v: bv16)
    ensures U16(v) == [(v & 0xFF) as bv8, (v >> 8) as bv8]
  {
  }

  lemma CodeIs(kind: EventType)
    ensures TypeCode(kind) == Code(kind)
  {
  }

  // ----- the history -----

  /** Phase and final state of the last context that was set. */
  function LastContext(calls: seq<Call>): (bv32, bv32) {
    if calls == [] then (0, 0)
    else
      var last := calls[|calls| - 1];
      if last.SetContext? then (last.phase, last.finalState) else LastContext(calls[..|calls| - 1])
  }

  /** The `i`th call sets a context that no later call clears. */
  ghost predicate OpensAt(calls: seq<Call>, i: int) {
    0 <= i < |calls| && calls[i].SetContext? && forall j :: i < j < |calls| ==> !calls[j].ClearContext?
  }

  /** A context was set and not cleared since. */
  ghost predicate Active(calls: seq<Call>) {
    exists i :: OpensAt(calls, i)
  }

  /** The `i`th call reports a failure and no test begins after it. */
  ghost predicate FailsAt(calls: seq<Call>, i: int) {
    0 <= i < |calls| && calls[i].Emit? && calls[i].kind == FAIL && forall j :: i < j < |calls| ==> !calls[j].BeginTest?
  }

  /** A failure was reported and no test began since. */
  ghost predicate Failed(calls: seq<Call>) {
    exists i :: FailsAt(calls, i)
  }

  /** The call puts a frame on the port. */
  ghost predicate Answers(calls: seq<Call>, c: Call) {
    c.Emit? && Active(calls) && c.available && !(c.kind == PASS && Failed(calls))
  }

  function Next32(v: bv32): bv32 {
    v + 1
  }

  /** How many frames the calls put on the port, modulo 2^32. */
  ghost function Frames(calls: seq<Call>): bv32 {
    if calls == [] then 0
    else
      var front, last := calls[..|calls| - 1], calls[|calls| - 1];
      if Answers(front, last) then Next32(Frames(front)) else Frames(front)
  }

  lemma ActiveStep(front: seq<Call>, c: Call)
    ensures Active(front + [c]) <==> c.SetContext? || (Active(front) && !c.ClearContext?)
  {
    var all, n := front + [c], |front|;
    assert forall j :: 0 <= j < n ==> all[j] == front[j];
    assert c.SetContext? ==> OpensAt(all, n);
    forall i | 0 <= i < n ensures OpensAt(all, i) <==> OpensAt(front, i) && !c.ClearContext? {
      if OpensAt(all, i) {
        assert all[n] == c;
      }
    }
    assert forall i :: OpensAt(all, i) ==> i < n || c.SetContext?;
  }

  lemma FailedStep(front: seq<Call>, c: Call)
    ensures Failed(front + [c]) <==> (c.Emit? && c.kind == FAIL) || (Failed(front) && !c.BeginTest?)
  {
    var all, n := front + [c], |front|;
    assert forall j :: 0 <= j < n ==> all[j] == front[j];
    assert c.Emit? && c.kind == FAIL ==> FailsAt(all, n);
    forall i | 0 <= i < n ensures FailsAt(all, i) <==> FailsAt(front, i) && !c.BeginTest? {
      if FailsAt(all, i) {
        assert all[n] == c;
      }
    }
    assert forall i :: FailsAt(all, i) ==> i < n || (c.Emit? && c.kind == FAIL);
  }

  /** The state of the device is a function of the history: last context, open context, open failure, frames sent. */
  lemma {:induction false} StateIsHistory(calls: seq<Call>)
    ensures Run(START, calls) ==
            State(LastContext(calls).0, LastContext(calls).1, Frames(calls), Active(calls), Failed(calls))
    decreases |calls|
  {
    hide Active, Failed, Next, Answers, LastContext, Frames, Next32;
    if calls == [] {
      NoHistory();
    } else {
      var front, last := calls[..|calls| - 1], calls[|calls| - 1];
      assert calls == front + [last];
      StateIsHistory(front);
      ActiveStep(front, last);
      FailedStep(front, last);
      ContextStep(front, last);
      FramesStep(front, last);
      NextIs(Run(START, front), last);
      AnswersIs(front, last);
    }
  }

  lemma ContextStep(front: seq<Call>, c: Call)
    ensures LastContext(front + [c]) == if c.SetContext? then (c.phase, c.finalState) else LastContext(front)
  {
    assert (front + [c])[..|front|] == front;
  }

  lemma FramesStep(front: seq<Call>, c: Call)
    ensures Frames(front + [c]) == if Answers(front, c) then Next32(Frames(front)) else Frames(front)
  {
    hide Answers, Next32;
    assert (front + [c])[..|front|] == front;
  }

  lemma AnswersIs(calls: seq<Call>, c: Call)
    ensures Answers(calls, c) <==> c.Emit? && Active(calls) && c.available && !(c.kind == PASS && Failed(calls))
  {
    hide Active, Failed;
  }

  /** One call, state by state. */
  lemma NextIs(s: State, c: Call)
    ensures
      var t := Next(s, c);
      t.phase == (if c.SetContext? then c.phase else s.phase) &&
      t.finalState == (if c.SetContext? then c.finalState else s.finalState) &&
      t.active == (c.SetContext? || (s.active && !c.ClearContext?)) &&
      t.failed == ((c.Emit? && c.kind == FAIL) || (s.failed && !c.BeginTest?)) &&
      t.sequence == if c.Emit? && s.active && c.available && !(c.kind == PASS && s.failed)
                    then Next32(s.sequence) else s.sequence
  {
    hide Next32, Increment;
    Increments(s.sequence);
    match c
    case Emit(kind, _, _, _, _) => KindCases(kind);
    case _ =>
  }

  lemma KindCases(kind: EventType)
    ensures kind.FAIL? <==> kind == FAIL
    ensures kind.PASS? <==> kind == PASS
  {
  }

  lemma Increments(v: bv32)
    ensures Increment(v) == Next32(v)
  {
  }

  lemma NoHistory()
    ensures !Active([]) && !Failed([]) && LastContext([]) == (0, 0) && Frames([]) == 0
  {
  }

  /**
   * What one more call adds to the bytes on the port. A marker is one byte. An event is a frame
   * of its own arguments, the last context and the count of frames, written exactly when a
   * context is open, the device answers and the event is no pass after an open failure.
   */
  lemma PortIsHistory(calls: seq<Call>, c: Call)
    ensures EncodeAll(SentBy(START, calls + [c])) ==
            EncodeAll(SentBy(START, calls)) +
            match c
            case EmitMarker(marker, available) => if available then [marker] else []
            case Emit(kind, assertion, expected, actual, _) =>
              if Answers(calls, c) then
                Wire(Payload(kind, LastContext(calls).0, assertion, Next32(Frames(calls)), expected, actual,
                             LastContext(calls).1))
              else []
            case _ => []
  {
    hide Encode, EncodeAll, FrameOf, Wire, Payload, Active, Failed, Next32;
    assert (calls + [c])[..|calls|] == calls;
    StateIsHistory(calls);
    var s := Run(START, calls);
    EncodeAppend(SentBy(START, calls), Sent(s, c));
    EncodeNothing();
    match c
    case EmitMarker(marker, available) =>
      EncodeOne(Marker(marker));
      EncodeMarker(marker);
    case Emit(kind, assertion, expected, actual, _) =>
      EncodeOne(Framed(FrameOf(s, kind, assertion, expected, actual)));
      FrameWire(s, kind, assertion, expected, actual);
    case _ =>
  }

  /** The three markers: begin and end of a measurement, and the end of its work on the GPU. */
  lemma MarkersAre(b: bv8)
    ensures MARKER_BEGIN == 0xF0 && MARKER_END == 0xF1 && MARKER_GPU_COMPLETE == 0xF2
    ensures IsMarker(b) <==> 0xF0 <= b <= 0xF2
  {
  }

  lemma EncodeNothing()
    ensures EncodeAll([]) == []
  {
  }

  lemma EncodeMarker(marker: bv8)
    ensures Encode(Marker(marker)) == [marker]
  {
  }
}
