/** The guest's opt-in event port: markers, framed events, sequence numbers and the failure latch. */
module EventPort {
  import opened Text
  import opened EventChecksum

  const MARKER_BEGIN: bv8 := 0xF0
  const MARKER_END: bv8 := 0xF1
  const MARKER_GPU_COMPLETE: bv8 := 0xF2
  const PREAMBLE: bv8 := 0xF8
  const NIBBLE_BASE: bv8 := 0xA0
  const VERSION: bv8 := 1

  datatype EventType = CONTEXT | HEARTBEAT | FAIL | PASS

  function TypeCode(t: EventType): bv8 {
    match t
    case CONTEXT => 1
    case HEARTBEAT => 2
    case FAIL => 3
    case PASS => 4
  }

  function TypeOf(code: bv8): Option<EventType> {
    if code == 1 then Some(CONTEXT)
    else if code == 2 then Some(HEARTBEAT)
    else if code == 3 then Some(FAIL)
    else if code == 4 then Some(PASS)
    else None
  }

  datatype Event = Event(kind: EventType, phase: bv16, assertion: bv16, sequence: bv32,
                         expected: bv32, actual: bv32, finalState: bv32)

  datatype Item = Marker(marker: bv8) | Framed(event: Event)

  // ----- bytes -----

  function Low8(v: bv32): bv8 {
    (v & 0xFF) as bv8
  }

  function Low16(v: bv32): bv16 {
    (v & 0xFFFF) as bv16
  }

  /** `++` on a 32-bit counter. */
  function Increment(v: bv32): bv32 {
    v + 1
  }

  function U16(v: bv16): seq<bv8> {
    [(v & 0xFF) as bv8, (v >> 8) as bv8]
  }

  function ByteAt(v: bv32, index: nat): bv8
    requires index < 4
  {
    if index == 0 then Low8(v)
    else if index == 1 then Low8(v >> 8)
    else if index == 2 then Low8(v >> 16)
    else Low8(v >> 24)
  }

  function U32(v: bv32): seq<bv8> {
    [ByteAt(v, 0), ByteAt(v, 1), ByteAt(v, 2), ByteAt(v, 3)]
  }

  function FromU16(a: bv8, b: bv8): bv16 {
    (a as bv16) | (b as bv16 << 8)
  }

  function FromU32(a: bv8, b: bv8, c: bv8, d: bv8): bv32 {
    (a as bv32) | (b as bv32 << 8) | (c as bv32 << 16) | (d as bv32 << 24)
  }

  lemma U16RoundTrip(v: bv16)
    ensures FromU16(U16(v)[0], U16(v)[1]) == v
  {
  }

  lemma U32RoundTrip(v: bv32)
    ensures FromU32(U32(v)[0], U32(v)[1], U32(v)[2], U32(v)[3]) == v
  {
  }

  function Body(e: Event): (bytes: seq<bv8>)
    ensures |bytes| == 22
  {
    [VERSION, TypeCode(e.kind)] + U16(e.phase) + U16(e.assertion) + U32(e.sequence) +
    U32(e.expected) + U32(e.actual) + U32(e.finalState)
  }

  // ----- nibbles -----

  function HighNibble(b: bv8): bv8 {
    NIBBLE_BASE | (b >> 4)
  }

  function LowNibble(b: bv8): bv8 {
    NIBBLE_BASE | (b & 0x0F)
  }

  predicate IsNibble(b: bv8) {
    0xA0 <= b <= 0xAF
  }

  function FromNibbles(high: bv8, low: bv8): bv8 {
    ((high & 0x0F) << 4) | (low & 0x0F)
  }

  lemma NibbleRoundTrip(b: bv8)
    ensures IsNibble(HighNibble(b)) && IsNibble(LowNibble(b))
    ensures FromNibbles(HighNibble(b), LowNibble(b)) == b
  {
  }

  function Nibbles(bytes: seq<bv8>): (r: seq<bv8>)
    ensures |r| == 2 * |bytes|
  {
    if bytes == [] then [] else [HighNibble(bytes[0]), LowNibble(bytes[0])] + Nibbles(bytes[1..])
  }

  function Encode(item: Item): seq<bv8> {
    match item
    case Marker(m) => [m]
    case Framed(e) => [PREAMBLE] + Nibbles(Seal(Body(e)))
  }

  function EncodeAll(items: seq<Item>): seq<bv8> {
    if items == [] then [] else EncodeAll(items[..|items| - 1]) + Encode(items[|items| - 1])
  }

  // ----- a receiver -----

  predicate IsMarker(b: bv8) {
    b == MARKER_BEGIN || b == MARKER_END || b == MARKER_GPU_COMPLETE
  }

  function Unpair(nibbles: seq<bv8>): Option<seq<bv8>>
    requires |nibbles| % 2 == 0
  {
    if nibbles == [] then Some([])
    else if !IsNibble(nibbles[0]) || !IsNibble(nibbles[1]) then None
    else
      var rest := Unpair(nibbles[2..]);
      if rest.None? then None else Some([FromNibbles(nibbles[0], nibbles[1])] + rest.value)
  }

  function ParseBody(b: seq<bv8>): Option<Event>
    requires |b| == 22
  {
    var kind := TypeOf(b[1]);
    if b[0] != VERSION || kind.None? then None
    else
      Some(Event(kind.value, FromU16(b[2], b[3]), FromU16(b[4], b[5]), FromU32(b[6], b[7], b[8], b[9]),
                 FromU32(b[10], b[11], b[12], b[13]), FromU32(b[14], b[15], b[16], b[17]),
                 FromU32(b[18], b[19], b[20], b[21])))
  }

  const FRAME_LENGTH: nat := 47

  /** One frame at the head of a stream: preamble, 46 nibbles, version and checksum all in order. */
  function ParseFrame(s: seq<bv8>): Option<Event>
    requires |s| == FRAME_LENGTH
  {
    var bytes := Unpair(s[1..]);
    if s[0] != PREAMBLE || bytes.None? || |bytes.value| != 23 then None
    else if bytes.value[22] != Checksum(bytes.value[..22]) then None
    else ParseBody(bytes.value[..22])
  }

  function Receive(s: seq<bv8>): Option<seq<Item>>
    decreases |s|
  {
    if s == [] then Some([])
    else if IsMarker(s[0]) then
      var rest := Receive(s[1..]);
      if rest.None? then None else Some([Marker(s[0])] + rest.value)
    else if |s| < FRAME_LENGTH then None
    else
      var e := ParseFrame(s[..FRAME_LENGTH]);
      var rest := Receive(s[FRAME_LENGTH..]);
      if e.None? || rest.None? then None else Some([Framed(e.value)] + rest.value)
  }

  /** An older receiver only looks for the three marker bytes. */
  function MarkerBytes(s: seq<bv8>): seq<bv8> {
    if s == [] then [] else (if IsMarker(s[0]) then [s[0]] else []) + MarkerBytes(s[1..])
  }

  function Markers(items: seq<Item>): seq<bv8> {
    if items == [] then []
    else Markers(items[..|items| - 1]) + if items[|items| - 1].Marker? then [items[|items| - 1].marker] else []
  }

  predicate Sendable(items: seq<Item>) {
    forall i :: 0 <= i < |items| && items[i].Marker? ==> IsMarker(items[i].marker)
  }

  lemma {:induction false} UnpairNibbles(bytes: seq<bv8>)
    ensures Unpair(Nibbles(bytes)) == Some(bytes)
  {
    hide HighNibble, LowNibble, IsNibble, FromNibbles;
    if bytes != [] {
      NibbleRoundTrip(bytes[0]);
      assert Nibbles(bytes)[2..] == Nibbles(bytes[1..]);
      UnpairNibbles(bytes[1..]);
      assert bytes == [bytes[0]] + bytes[1..];
    }
  }

  lemma ParseBodyRoundTrip(e: Event)
    ensures ParseBody(Body(e)) == Some(e)
  {
    hide U16, U32, FromU16, FromU32;
    BodyLayout(e);
    U16RoundTrip(e.phase);
    U16RoundTrip(e.assertion);
    U32RoundTrip(e.sequence);
    U32RoundTrip(e.expected);
    U32RoundTrip(e.actual);
    U32RoundTrip(e.finalState);
  }

  lemma BodyLayout(e: Event)
    ensures
      var b := Body(e);
      b[0] == VERSION && b[1] == TypeCode(e.kind) &&
      [b[2], b[3]] == U16(e.phase) && [b[4], b[5]] == U16(e.assertion) &&
      [b[6], b[7], b[8], b[9]] == U32(e.sequence) && [b[10], b[11], b[12], b[13]] == U32(e.expected) &&
      [b[14], b[15], b[16], b[17]] == U32(e.actual) && [b[18], b[19], b[20], b[21]] == U32(e.finalState)
  {
    hide ByteAt;
  }

  lemma ParseFrameRoundTrip(e: Event)
    ensures |Encode(Framed(e))| == FRAME_LENGTH && ParseFrame(Encode(Framed(e))) == Some(e)
  {
    hide Body, Nibbles, Unpair, Checksum, ParseBody;
    var bytes := Seal(Body(e));
    UnpairNibbles(bytes);
    assert Encode(Framed(e))[1..] == Nibbles(bytes);
    assert bytes[..22] == Body(e) && bytes[22] == Checksum(Body(e));
    ParseBodyRoundTrip(e);
  }

  lemma ReceiveHead(item: Item, rest: seq<bv8>)
    requires item.Marker? ==> IsMarker(item.marker)
    ensures Receive(Encode(item) + rest) ==
            if Receive(rest).None? then None else Some([item] + Receive(rest).value)
  {
    hide Nibbles, ParseFrame;
    var s := Encode(item) + rest;
    if item.Marker? {
      assert s[0] == item.marker && s[1..] == rest;
    } else {
      ParseFrameRoundTrip(item.event);
      assert s[..FRAME_LENGTH] == Encode(item) && s[FRAME_LENGTH..] == rest;
      assert s[0] == PREAMBLE && !IsMarker(PREAMBLE);
    }
  }

  lemma {:induction false} ReceiveOnto(items: seq<Item>, rest: seq<bv8>, tail: seq<Item>)
    requires Sendable(items) && Receive(rest) == Some(tail)
    ensures Receive(EncodeAll(items) + rest) == Some(items + tail)
    decreases |items|
  {
    hide Encode, Receive;
    if items == [] {
      assert EncodeAll(items) + rest == rest && items + tail == tail;
    } else {
      var n := |items| - 1;
      ReceiveHead(items[n], rest);
      ReceiveOnto(items[..n], Encode(items[n]) + rest, [items[n]] + tail);
      assert EncodeAll(items) + rest == EncodeAll(items[..n]) + (Encode(items[n]) + rest);
      assert items + tail == items[..n] + ([items[n]] + tail);
    }
  }

  /** A receiver recovers exactly the emitted items from the port stream. */
  lemma ReceiveAll(items: seq<Item>)
    requires Sendable(items)
    ensures Receive(EncodeAll(items)) == Some(items)
  {
    ReceiveOnto(items, [], []);
    assert EncodeAll(items) + [] == EncodeAll(items) && items + [] == items;
  }

  lemma {:induction false} MarkerBytesAppend(a: seq<bv8>, b: seq<bv8>)
    ensures MarkerBytes(a + b) == MarkerBytes(a) + MarkerBytes(b)
  {
    hide MarkerBytes, IsMarker;
    if a == [] {
      assert a + b == b;
      NoMarkerBytes();
    } else {
      assert (a + b)[1..] == a[1..] + b && (a + b)[0] == a[0];
      MarkerBytesAppend(a[1..], b);
      MarkerBytesOpen(a);
      MarkerBytesOpen(a + b);
    }
  }

  lemma NoMarkerBytes()
    ensures MarkerBytes([]) == []
  {
  }

  lemma MarkerBytesOpen(s: seq<bv8>)
    requires s != []
    ensures MarkerBytes(s) == (if IsMarker(s[0]) then [s[0]] else []) + MarkerBytes(s[1..])
  {
    hide IsMarker;
  }

  lemma NibbleIsNoMarker(b: bv8)
    ensures !IsMarker(HighNibble(b)) && !IsMarker(LowNibble(b))
    ensures HighNibble(b) != PREAMBLE && LowNibble(b) != PREAMBLE
  {
  }

  lemma {:induction false} NibblesHideMarkers(bytes: seq<bv8>)
    ensures MarkerBytes(Nibbles(bytes)) == []
  {
    hide HighNibble, LowNibble;
    if bytes != [] {
      NibbleIsNoMarker(bytes[0]);
      var n := Nibbles(bytes);
      assert n[1..][1..] == Nibbles(bytes[1..]);
      assert MarkerBytes(n) == MarkerBytes(n[1..]) == MarkerBytes(n[1..][1..]);
      NibblesHideMarkers(bytes[1..]);
    }
  }

  lemma MarkersOfItem(item: Item)
    requires item.Marker? ==> IsMarker(item.marker)
    ensures MarkerBytes(Encode(item)) == if item.Marker? then [item.marker] else []
  {
    hide Nibbles, Body, Checksum;
    if item.Framed? {
      var n := Nibbles(Seal(Body(item.event)));
      NibblesHideMarkers(Seal(Body(item.event)));
      MarkerBytesAppend([PREAMBLE], n);
      assert MarkerBytes([PREAMBLE]) == [] by {
        assert [PREAMBLE][1..] == [];
      }
    } else {
      assert [item.marker][1..] == [];
    }
  }

  /** The marker bytes of the stream are exactly the emitted markers: no frame imitates one. */
  lemma {:induction false} MarkersOfStream(items: seq<Item>)
    requires Sendable(items)
    ensures MarkerBytes(EncodeAll(items)) == Markers(items)
    decreases |items|
  {
    hide Encode, MarkerBytes, IsMarker;
    if items == [] {
      MarkerBytesOfNothing();
    } else {
      var n := |items| - 1;
      MarkersOfStream(items[..n]);
      MarkerBytesAppend(EncodeAll(items[..n]), Encode(items[n]));
      MarkersOfItem(items[n]);
    }
  }

  lemma MarkerBytesOfNothing()
    ensures MarkerBytes([]) == []
  {
  }

  // ----- the guest side -----

  datatype Call =
    | SetContext(phase: bv32, finalState: bv32)
    | ClearContext
    | BeginTest
    | Emit(kind: EventType, assertion: bv16, expected: bv32, actual: bv32, available: bool)
    | EmitMarker(marker: bv8, available: bool)

  datatype State = State(phase: bv32, finalState: bv32, sequence: bv32, active: bool, failed: bool)

  const START := State(0, 0, 0, false, false)

  /** The frame an accepted event call sends. */
  function FrameOf(s: State, kind: EventType, assertion: bv16, expected: bv32, actual: bv32): Event {
    Event(kind, Low16(s.phase), assertion, Increment(s.sequence), expected, actual, s.finalState)
  }

  predicate Sends(s: State, c: Call)
    requires c.Emit?
  {
    !(c.kind.PASS? && s.failed) && s.active && c.available
  }

  function Next(s: State, c: Call): State {
    match c
    case SetContext(phase, finalState) => s.(phase := phase, finalState := finalState, active := true)
    case ClearContext => s.(active := false)
    case BeginTest => s.(failed := false)
    case EmitMarker(_, _) => s
    case Emit(kind, _, _, _, _) =>
      s.(failed := s.failed || kind.FAIL?, sequence := if Sends(s, c) then Increment(s.sequence) else s.sequence)
  }

  function Sent(s: State, c: Call): seq<Item> {
    match c
    case EmitMarker(m, available) => if available then [Marker(m)] else []
    case Emit(kind, assertion, expected, actual, _) =>
      if Sends(s, c) then [Framed(FrameOf(s, kind, assertion, expected, actual))] else []
    case _ => []
  }

  function Run(s: State, calls: seq<Call>): State {
    if calls == [] then s else Next(Run(s, calls[..|calls| - 1]), calls[|calls| - 1])
  }

  function SentBy(s: State, calls: seq<Call>): seq<Item> {
    if calls == [] then []
    else SentBy(s, calls[..|calls| - 1]) + Sent(Run(s, calls[..|calls| - 1]), calls[|calls| - 1])
  }

  class EventDevice {
    var phase: bv32
    var finalState: bv32
    var sequence: bv32
    var contextActive: bool
    var failureReported: bool
    var port: seq<bv8>

    ghost function View(): State
      reads this
    {
      State(phase, finalState, sequence, contextActive, failureReported)
    }

    constructor ()
      ensures View() == START && port == []
    {
      phase, finalState, sequence, contextActive, failureReported, port := 0, 0, 0, false, false, [];
    }

    method SetContext(newPhase: bv32, newFinalState: bv32)
      modifies this
      ensures View() == Next(old(View()), Call.SetContext(newPhase, newFinalState)) && port == old(port)
    {
      phase, finalState, contextActive := newPhase, newFinalState, true;
    }

    method ClearContext()
      modifies this
      ensures View() == Next(old(View()), Call.ClearContext) && port == old(port)
    {
      contextActive := false;
    }

    method BeginTest()
      modifies this
      ensures View() == Next(old(View()), Call.BeginTest) && port == old(port)
    {
      failureReported := false;
    }

    method WritePort(value: bv8)
      modifies this`port
      ensures port == old(port) + [value]
    {
      port := port + [value];
    }

    method EmitMarker(marker: bv8, available: bool)
      modifies this`port
      ensures View() == old(View())
      ensures port == old(port) + EncodeAll(Sent(old(View()), Call.EmitMarker(marker, available)))
    {
      if available {
        WritePort(marker);
        EncodeOne(Marker(marker));
      }
    }

    method AppendU16(bytes: array<bv8>, offset: nat, value: bv16) returns (newOffset: nat)
      requires offset + 2 <= bytes.Length
      modifies bytes
      ensures newOffset == offset + 2 && bytes[..newOffset] == old(bytes[..offset]) + U16(value)
    {
      bytes[offset] := (value & 0xFF) as bv8;
      bytes[offset + 1] := (value >> 8) as bv8;
      newOffset := offset + 2;
    }

    method AppendU32(bytes: array<bv8>, offset: nat, value: bv32) returns (newOffset: nat)
      requires offset + 4 <= bytes.Length
      modifies bytes
      ensures newOffset == offset + 4 && bytes[..newOffset] == old(bytes[..offset]) + U32(value)
    {
      hide ByteAt;
      newOffset := offset;
      for byte := 0 to 4
        invariant newOffset == offset + byte
        invariant bytes[..newOffset] == old(bytes[..offset]) + U32(value)[..byte]
      {
        bytes[newOffset] := ByteAt(value, byte);
        newOffset := newOffset + 1;
        assert U32(value)[byte] == ByteAt(value, byte);
      }
    }

    /** The 22 bytes before the checksum. */
    method FillBody(bytes: array<bv8>, kind: EventType, assertion: bv16, expected: bv32, actual: bv32)
      returns (offset: nat)
      requires bytes.Length == 23
      modifies this`sequence, bytes
      ensures sequence == Increment(old(sequence)) && offset == 22
      ensures bytes[..22] == Body(FrameOf(old(View()), kind, assertion, expected, actual))
    {
      hide U16, U32, Low16, Increment, TypeCode;
      bytes[0] := VERSION;
      bytes[1] := TypeCode(kind);
      offset := 2;
      assert bytes[..offset] == [VERSION, TypeCode(kind)];
      offset := AppendU16(bytes, offset, Low16(phase));
      offset := AppendU16(bytes, offset, assertion);
      sequence := Increment(sequence);
      offset := AppendU32(bytes, offset, sequence);
      offset := AppendU32(bytes, offset, expected);
      offset := AppendU32(bytes, offset, actual);
      offset := AppendU32(bytes, offset, finalState);
    }

    method WriteNibbles(bytes: array<bv8>)
      modifies this`port
      ensures port == old(port) + Nibbles(bytes[..])
    {
      hide HighNibble, LowNibble;
      for i := 0 to bytes.Length
        invariant port + Nibbles(bytes[i..]) == old(port) + Nibbles(bytes[..])
      {
        NibblesStep(port, bytes[i..]);
        assert bytes[i..][1..] == bytes[i + 1..];
        WritePort(HighNibble(bytes[i]));
        WritePort(LowNibble(bytes[i]));
      }
    }

    /** Builds the frame and writes it as a preamble and nibbles. */
    method SendFrame(kind: EventType, assertion: bv16, expected: bv32, actual: bv32)
      modifies this`sequence, this`port
      ensures sequence == Increment(old(sequence))
      ensures port == old(port) + Encode(Framed(FrameOf(old(View()), kind, assertion, expected, actual)))
    {
      hide Body, FrameOf, Checksum, Nibbles, Increment;
      ghost var event := FrameOf(View(), kind, assertion, expected, actual);
      var bytes := new bv8[23](_ => 0);
      var offset := FillBody(bytes, kind, assertion, expected, actual);
      var checksum := EventChecksum.EventChecksum(bytes[..offset]);
      bytes[offset] := checksum;
      assert bytes[..] == Seal(Body(event));
      WritePort(PREAMBLE);
      WriteNibbles(bytes);
      ghost var nibbles := Nibbles(Seal(Body(event)));
      assert old(port) + [PREAMBLE] + nibbles == old(port) + ([PREAMBLE] + nibbles);
    }

    method EmitEvent(kind: EventType, assertion: bv16, expected: bv32, actual: bv32, available: bool)
      modifies this`failureReported, this`sequence, this`port
      ensures View() == Next(old(View()), Emit(kind, assertion, expected, actual, available))
      ensures port == old(port) + EncodeAll(Sent(old(View()), Emit(kind, assertion, expected, actual, available)))
    {
      hide Encode, FrameOf, Increment;
      if kind.FAIL? {
        failureReported := true;
      } else if kind.PASS? && failureReported {
        return;
      }
      if !contextActive || !available {
        return;
      }
      FrameIgnoresLatch(old(View()), View(), kind, assertion, expected, actual);
      EncodeOne(Framed(FrameOf(old(View()), kind, assertion, expected, actual)));
      SendFrame(kind, assertion, expected, actual);
    }
  }

  lemma NibblesStep(port: seq<bv8>, bytes: seq<bv8>)
    requires bytes != []
    ensures port + Nibbles(bytes) == port + [HighNibble(bytes[0])] + [LowNibble(bytes[0])] + Nibbles(bytes[1..])
  {
    hide HighNibble, LowNibble, Nibbles;
    NibblesOpen(bytes);
    var high, low, rest := HighNibble(bytes[0]), LowNibble(bytes[0]), Nibbles(bytes[1..]);
    assert port + ([high, low] + rest) == port + [high] + [low] + rest;
  }

  lemma NibblesOpen(bytes: seq<bv8>)
    requires bytes != []
    ensures Nibbles(bytes) == [HighNibble(bytes[0]), LowNibble(bytes[0])] + Nibbles(bytes[1..])
  {
    hide HighNibble, LowNibble;
  }

  lemma FrameIgnoresLatch(a: State, b: State, kind: EventType, assertion: bv16, expected: bv32, actual: bv32)
    requires a.(failed := b.failed) == b
    ensures FrameOf(a, kind, assertion, expected, actual) == FrameOf(b, kind, assertion, expected, actual)
  {
    hide Low16, Increment;
  }

  lemma EncodeOne(item: Item)
    ensures EncodeAll([item]) == Encode(item)
  {
    assert [item][..0] == [];
  }

  // ----- whole runs -----

  /** Any run of the device, as its callers drive it. */
  method Drive(calls: seq<Call>) returns (device: EventDevice)
    ensures fresh(device) && device.View() == Run(START, calls)
    ensures device.port == EncodeAll(SentBy(START, calls))
  {
    hide Next, Sent, Encode;
    device := new EventDevice();
    for i := 0 to |calls|
      invariant fresh(device) && device.View() == Run(START, calls[..i])
      invariant device.port == EncodeAll(SentBy(START, calls[..i]))
    {
      assert calls[..i + 1][..i] == calls[..i];
      EncodeAppend(SentBy(START, calls[..i]), Sent(Run(START, calls[..i]), calls[i]));
      Perform(device, calls[i]);
    }
    assert calls[..|calls|] == calls;
  }

  method Perform(device: EventDevice, c: Call)
    modifies device
    ensures device.View() == Next(old(device.View()), c)
    ensures device.port == old(device.port) + EncodeAll(Sent(old(device.View()), c))
  {
    hide Encode;
    match c {
      case SetContext(phase, finalState) => device.SetContext(phase, finalState);
      case ClearContext => device.ClearContext();
      case BeginTest => device.BeginTest();
      case EmitMarker(marker, available) => device.EmitMarker(marker, available);
      case Emit(kind, assertion, expected, actual, available) =>
        device.EmitEvent(kind, assertion, expected, actual, available);
    }
  }

  lemma {:induction false} EncodeAppend(a: seq<Item>, b: seq<Item>)
    ensures EncodeAll(a + b) == EncodeAll(a) + EncodeAll(b)
    decreases |b|
  {
    hide Encode;
    if b == [] {
      assert a + b == a;
    } else {
      var n := |b| - 1;
      assert (a + b)[..|a + b| - 1] == a + b[..n] && (a + b)[|a + b| - 1] == b[n];
      EncodeAppend(a, b[..n]);
    }
  }

  /** The callers of the source pass only the three marker constants. */
  predicate RealMarkers(calls: seq<Call>) {
    forall i :: 0 <= i < |calls| && calls[i].EmitMarker? ==> IsMarker(calls[i].marker)
  }

  lemma {:induction false} SentIsSendable(s: State, calls: seq<Call>)
    requires RealMarkers(calls)
    ensures Sendable(SentBy(s, calls))
    decreases |calls|
  {
    hide IsMarker, FrameOf, Next;
    if calls != [] {
      var n := |calls| - 1;
      SentIsSendable(s, calls[..n]);
      assert Sendable(Sent(Run(s, calls[..n]), calls[n]));
    }
  }

  /** Over any run, the receiver recovers exactly what was sent, and old receivers exactly the markers. */
  lemma StreamIsFaithful(calls: seq<Call>)
    requires RealMarkers(calls)
    ensures
      var stream := EncodeAll(SentBy(START, calls));
      Receive(stream) == Some(SentBy(START, calls)) && MarkerBytes(stream) == Markers(SentBy(START, calls))
  {
    SentIsSendable(START, calls);
    ReceiveAll(SentBy(START, calls));
    MarkersOfStream(SentBy(START, calls));
  }

  function Events(items: seq<Item>): seq<Event> {
    if items == [] then []
    else Events(items[..|items| - 1]) + if items[|items| - 1].Framed? then [items[|items| - 1].event] else []
  }

  lemma {:induction false} EventsAppend(a: seq<Item>, b: seq<Item>)
    ensures Events(a + b) == Events(a) + Events(b)
    decreases |b|
  {
    if b == [] {
      assert a + b == a;
    } else {
      var n := |b| - 1;
      assert (a + b)[..|a + b| - 1] == a + b[..n] && (a + b)[|a + b| - 1] == b[n];
      EventsAppend(a, b[..n]);
    }
  }

  /** A 32-bit counter after `n` increments. */
  function Advance(v: bv32, n: nat): bv32 {
    if n == 0 then v else Increment(Advance(v, n - 1))
  }

  /** Each event's number is the next 32-bit number after its predecessor's, the first follows `last`. */
  ghost predicate Consecutive(events: seq<Event>, last: bv32) {
    forall i :: 0 <= i < |events| ==> events[i].sequence == Advance(last, i + 1)
  }

  lemma EventsOfCall(t: State, c: Call)
    ensures Events(Sent(t, c)) ==
            if c.Emit? && Sends(t, c) then [FrameOf(t, c.kind, c.assertion, c.expected, c.actual)] else []
    ensures Next(t, c).sequence == if c.Emit? && Sends(t, c) then Increment(t.sequence) else t.sequence
  {
    hide Low16, Increment;
    if Sent(t, c) != [] {
      assert Sent(t, c)[..0] == [];
    }
  }

  /** Emitted events carry consecutive sequence numbers modulo 2^32, in order and without gaps. */
  lemma {:induction false} SequenceIsConsecutive(s: State, calls: seq<Call>)
    ensures
      var events := Events(SentBy(s, calls));
      Consecutive(events, s.sequence) && Run(s, calls).sequence == Advance(s.sequence, |events|)
    decreases |calls|
  {
    hide Increment, Low16, Next, Sent;
    if calls != [] {
      var n := |calls| - 1;
      var t, c := Run(s, calls[..n]), calls[n];
      SequenceIsConsecutive(s, calls[..n]);
      EventsAppend(SentBy(s, calls[..n]), Sent(t, c));
      EventsOfCall(t, c);
    }
  }

  predicate NoBegin(calls: seq<Call>) {
    forall i :: 0 <= i < |calls| ==> !calls[i].BeginTest?
  }

  predicate NoPass(items: seq<Item>) {
    forall i :: 0 <= i < |items| ==> !(items[i].Framed? && items[i].event.kind.PASS?)
  }

  /** The failure latch: no PASS frame is sent after a failure until the next test begins. */
  lemma {:induction false} NoPassAfterFailure(s: State, fail: Call, calls: seq<Call>)
    requires fail.Emit? && fail.kind.FAIL? && NoBegin(calls)
    ensures Run(Next(s, fail), calls).failed && NoPass(SentBy(Next(s, fail), calls))
    decreases |calls|
  {
    if calls != [] {
      NoPassAfterFailure(s, fail, calls[..|calls| - 1]);
    }
  }
}
