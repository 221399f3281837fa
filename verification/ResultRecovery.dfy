/**
 * Whole files: reading back a complete run, and recovering from one that was
 * cut short at an arbitrary byte.
 */
module ResultRecovery {
  import opened Text
  import opened ResultFile
  import opened ResultReader
  import opened ResultRoundTrip

  function StoredAll(rs: seq<Record>): (stored: seq<StoredRecord>)
    ensures |stored| == |rs|
    ensures forall i :: 0 <= i < |rs| ==> stored[i] == Stored(rs[i])
  {
    seq(|rs|, i requires 0 <= i < |rs| => Stored(rs[i]))
  }

  /** No record closed yet from `s` on, and no final bracket seen. */
  predicate Idle(s: Scan) {
    !s.inRecord && s.lastNonempty != "]"
  }

  lemma StepBody(s: Scan, line: string)
    requires s.inRecord && s.lastNonempty != "]" && IsBodyLine(line)
    ensures
      var next := Step(s, line);
      next.inRecord && next.record == ApplyLine(s.record, line) &&
      next.records == s.records && next.lastNonempty != "]"
  {
    hide ApplyLine;
    assert line[2] == line[..4][2] == ' ';
    assert line[|line| - 1] != '\r';
  }

  lemma {:induction false} FeedBody(s: Scan, lines: seq<string>)
    requires s.inRecord && s.lastNonempty != "]" && AllBody(lines)
    ensures
      var next := Feed(s, lines);
      next.inRecord && next.record == ApplyAll(s.record, lines) &&
      next.records == s.records && next.lastNonempty != "]"
    decreases |lines|
  {
    hide ApplyLine, Step;
    if lines != [] {
      StepBody(s, lines[0]);
      FeedBody(Step(s, lines[0]), lines[1..]);
    }
  }

  lemma StepOpen(s: Scan)
    ensures Step(s, "  {") == s.(inRecord := true, record := BLANK, lastNonempty := "  {")
  {
    hide ApplyLine;
    assert "  {"[2] != ' ';
  }

  lemma StepClose(s: Scan)
    requires s.inRecord
    ensures
      var next := Step(s, "  }");
      !next.inRecord && next.records == s.records + [Close(s.record)] && next.lastNonempty == "  }"
  {
    hide SetText, SetNumbers, SetInline, Close;
    assert "  }"[2] != ' ';
    ApplyUnquotedLine(s.record, "  }");
  }

  lemma StepComma(s: Scan)
    requires Idle(s)
    ensures Step(s, ",") == s.(lastNonempty := ",")
  {
    hide ApplyLine;
    assert ","[0] != ' ';
  }

  /** Feeding one whole record appends exactly its stored form. */
  lemma FeedRecord(s: Scan, r: Record, first: bool)
    requires Idle(s) && Printable(r)
    ensures
      var next := Feed(s, Separator(first) + RecordLines(r));
      Idle(next) && next.records == s.records + [Stored(r)]
  {
    hide Step, ApplyAll, Close, Stored, RenderAll, BodyLines;
    var body := RenderAll(BodyLines(r));
    FoldAppend(Step, s, Separator(first), RecordLines(r));
    FoldAppend(Step, s, Separator(first) + ["  {"] + body, ["  }"]);
    var s0 := Feed(s, Separator(first));
    if !first {
      FoldOne(Step, s, ",");
      StepComma(s);
    }
    FoldAppend(Step, s0, ["  {"] + body, ["  }"]);
    FoldAppend(Step, s0, ["  {"], body);
    FoldOne(Step, s0, "  {");
    StepOpen(s0);
    var s1 := Step(s0, "  {");
    BodyIsBody(r);
    FeedBody(s1, body);
    var s2 := Feed(s1, body);
    FoldOne(Step, s2, "  }");
    StepClose(s2);
    StoreBody(r);
  }

  lemma {:induction false} FeedBlocks(s: Scan, rs: seq<Record>, first: bool)
    requires Idle(s) && AllPrintable(rs)
    ensures
      var next := Feed(s, BlockLines(rs, first));
      Idle(next) && next.records == s.records + StoredAll(rs)
    decreases |rs|
  {
    hide Step, RecordLines, Stored, Printable, Separator;
    if rs != [] {
      var head := Separator(first) + RecordLines(rs[0]);
      FeedRecord(s, rs[0], first);
      FoldAppend(Step, s, head, BlockLines(rs[1..], false));
      FeedBlocks(Feed(s, head), rs[1..], false);
      assert StoredAll(rs) == [Stored(rs[0])] + StoredAll(rs[1..]);
    }
  }

  /** Round trip: a finished run reads back complete, with exactly its records in order. */
  lemma RoundTrip(rs: seq<Record>)
    requires AllPrintable(rs)
    ensures
      var read := ReadSpec(Some(FileText(rs)));
      read.error == "" && read.complete && read.records == StoredAll(rs)
  {
    hide Step, BlockLines;
    FileLinesAreLines(rs);
    LinesOfJoin(FileLines(rs));
    var blocks := BlockLines(rs, true);
    FoldAppend(Step, START, ["["] + blocks, ["]"]);
    FoldAppend(Step, START, ["["], blocks);
    FoldOne(Step, START, "[");
    StepOutside(START, "[");
    FeedBlocks(Step(START, "["), rs, true);
    var s := Feed(Step(START, "["), blocks);
    FoldOne(Step, s, "]");
    StepOutside(s, "]");
  }

  lemma StepOutside(s: Scan, bracket: string)
    requires !s.inRecord && (bracket == "[" || bracket == "]")
    ensures Step(s, bracket) == s.(lastNonempty := bracket)
  {
    hide ApplyLine;
    assert bracket[0] != ' ';
  }

  // ----- files cut short -----

  /** A line that neither closes a record nor ends the file. */
  predicate Quiet(line: string) {
    !IsRecordEnd(DropReturn(line)) && DropReturn(line) != "]"
  }

  lemma {:induction false} FeedQuiet(s: Scan, lines: seq<string>)
    requires s.lastNonempty != "]"
    requires forall i :: 0 <= i < |lines| ==> Quiet(lines[i])
    ensures Feed(s, lines).records == s.records && Feed(s, lines).lastNonempty != "]"
    decreases |lines|
  {
    hide ApplyLine;
    if lines != [] {
      FeedQuiet(Step(s, lines[0]), lines[1..]);
    }
  }

  lemma BodyPrefixQuiet(line: string, part: nat)
    requires IsBodyLine(line) && part <= |line|
    ensures Quiet(line[..part])
  {
    var cut := DropReturn(line[..part]);
    assert forall i :: 0 <= i < 4 ==> line[i] == line[..4][i] == ' ';
    assert |cut| > 2 ==> cut[2] == line[2];
    assert cut != "" ==> cut[0] == line[0];
    assert "  }"[2] == '}' && "  },"[2] == '}' && "]"[0] == ']';
  }

  lemma HeadPrefixQuiet(r: Record, first: bool, i: nat, part: nat)
    requires Printable(r)
    requires var head := Separator(first) + RecordLines(r);
             i < |head| && part <= |head[i]| && (i == |head| - 1 ==> part < |head[i]|)
    ensures Quiet((Separator(first) + RecordLines(r))[i][..part])
  {
    hide BodyLines, RenderAll, IsBodyLine;
    var head := Separator(first) + RecordLines(r);
    var body := RenderAll(BodyLines(r));
    var skip := |Separator(first)|;
    BodyIsBody(r);
    if skip < i < |head| - 1 {
      assert head[i] == body[i - skip - 1];
      BodyPrefixQuiet(head[i], part);
    } else if i == |head| - 1 {
      assert head[i] == "  }";
      assert part == 0 || part == 1 || part == 2;
      assert "  }"[..1] == " " && "  }"[..2] == "  ";
    } else if i == skip {
      assert head[i] == "  {";
      assert part == 0 || part == 1 || part == 2 || part == 3;
      assert "  {"[..1] == " " && "  {"[..2] == "  " && "  {"[..3] == "  {";
    } else {
      assert head[i] == ",";
      assert part == 0 || part == 1;
      assert ","[..1] == ",";
    }
  }

  /** Bytes up to and including the closing brace of the last of `rs`. */
  function CloseOffset(rs: seq<Record>, first: bool): int {
    |JoinLines(BlockLines(rs, first))| - 1
  }

  /** Feeding a record cut before its closing brace is complete adds nothing. */
  lemma CutInRecord(s: Scan, r: Record, first: bool, cut: nat)
    requires Idle(s) && Printable(r)
    requires cut < |JoinLines(Separator(first) + RecordLines(r))| - 1
    ensures
      var head := Separator(first) + RecordLines(r);
      var next := Feed(s, Lines(JoinLines(head)[..cut]));
      next.records == s.records && next.lastNonempty != "]"
  {
    hide RecordLines, Step;
    var head := Separator(first) + RecordLines(r);
    RecordLinesAreLines(r);
    var whole, part := LinesOfPrefix(head, cut);
    LastLine(r, first, whole, part, cut);
    var lines := Lines(JoinLines(head)[..cut]);
    forall i | 0 <= i < |lines| ensures Quiet(lines[i]) {
      if i < whole {
        assert lines[i] == head[i] == head[i][..|head[i]|];
        HeadPrefixQuiet(r, first, i, |head[i]|);
      } else {
        HeadPrefixQuiet(r, first, whole, part);
      }
    }
    FeedQuiet(s, lines);
  }

  /** Short of the closing brace, the cut falls before the end of the record's last line. */
  lemma LastLine(r: Record, first: bool, whole: nat, part: nat, cut: nat)
    requires var head := Separator(first) + RecordLines(r);
             whole <= |head| && cut == |JoinLines(head[..whole])| + part && cut < |JoinLines(head)| - 1
    ensures whole < |Separator(first) + RecordLines(r)|
    ensures whole == |Separator(first) + RecordLines(r)| - 1 ==> part < 3
    ensures (Separator(first) + RecordLines(r))[|Separator(first) + RecordLines(r)| - 1] == "  }"
  {
    hide BodyLines, RenderAll, JoinLines;
    var head := Separator(first) + RecordLines(r);
    assert head[|head| - 1] == "  }";
    CutInLastLine(head, whole, part, cut);
  }

  lemma CutInLastLine(head: seq<string>, whole: nat, part: nat, cut: nat)
    requires head != [] && head[|head| - 1] == "  }" && whole <= |head|
    requires cut == |JoinLines(head[..whole])| + part && cut < |JoinLines(head)| - 1
    ensures whole < |head| && (whole == |head| - 1 ==> part < 3)
  {
    var n := |head| - 1;
    assert head == head[..n] + ["  }"] && head[..|head|] == head;
    JoinAppend(head[..n], ["  }"]);
    assert ["  }"][1..] == [];
    assert |JoinLines(["  }"])| == 4;
  }

  lemma CutEnd(s: Scan, cut: nat)
    requires Idle(s) && cut <= 2
    ensures
      var next := Feed(s, Lines(JoinLines(["]"])[..cut]));
      next.records == s.records && (next.lastNonempty == "]" <==> 1 <= cut)
  {
    hide Step;
    assert JoinLines(["]"]) == "]\n" by {
      assert ["]"][1..] == [];
    }
    if cut == 0 {
      assert "]\n"[..cut] == "";
    } else {
      LinesAfter(["]"], "");
      assert "]\n"[..1] == "]";
      assert FindAny("]", "\n", 0) == 1;
      assert Lines("]\n"[..cut]) == ["]"] by {
        assert cut == 2 ==> "]\n"[..cut] == JoinLines(["]"]) + "";
      }
      FoldOne(Step, s, "]");
      StepOutside(s, "]");
    }
  }

  /** `closed` counts the records whose closing brace lies before the cut. */
  predicate ClosedBefore(rs: seq<Record>, first: bool, cut: nat, closed: nat) {
    closed <= |rs| &&
    (closed > 0 ==> CloseOffset(rs[..closed], first) <= cut) &&
    (closed < |rs| ==> cut < CloseOffset(rs[..closed + 1], first))
  }

  /** Feeding the blocks and the final bracket, cut at `cut`, yields exactly `closed` records. */
  predicate ReadsClosed(s: Scan, rs: seq<Record>, first: bool, cut: nat, closed: nat) {
    var text := JoinLines(BlockLines(rs, first) + ["]"]);
    cut <= |text| && closed <= |rs| &&
    var next := Feed(s, Lines(text[..cut]));
    next.records == s.records + StoredAll(rs[..closed]) && (next.lastNonempty == "]" <==> |text| - 1 <= cut)
  }

  lemma {:induction false} CutBlocks(s: Scan, rs: seq<Record>, first: bool, cut: nat) returns (closed: nat)
    requires Idle(s) && AllPrintable(rs)
    requires cut <= |JoinLines(BlockLines(rs, first) + ["]"])|
    ensures ClosedBefore(rs, first, cut, closed) && ReadsClosed(s, rs, first, cut, closed)
    decreases |rs|
  {
    hide Step, RecordLines, Stored, Lines, CloseOffset;
    if rs == [] {
      assert BlockLines(rs, first) + ["]"] == ["]"];
      assert JoinLines(["]"]) == "]\n" by {
        assert ["]"][1..] == [];
      }
      CutEnd(s, cut);
      return 0;
    }
    var head := Separator(first) + RecordLines(rs[0]);
    if cut < |JoinLines(head)| - 1 {
      CutBeforeClose(s, rs, first, cut);
      return 0;
    } else if cut == |JoinLines(head)| - 1 {
      CutAtClose(s, rs, first, cut);
      return 1;
    } else {
      SplitBlocks(rs, first);
      FeedRecord(s, rs[0], first);
      var c := CutBlocks(Feed(s, head), rs[1..], false, cut - |JoinLines(head)|);
      CutAfterClose(s, rs, first, cut, c);
      return c + 1;
    }
  }

  lemma CutBeforeClose(s: Scan, rs: seq<Record>, first: bool, cut: nat)
    requires Idle(s) && AllPrintable(rs) && rs != []
    requires cut < |JoinLines(Separator(first) + RecordLines(rs[0]))| - 1
    ensures ClosedBefore(rs, first, cut, 0) && ReadsClosed(s, rs, first, cut, 0)
  {
    hide Step, RecordLines, Stored, Lines, CloseOffset, BlockLines;
    var head, rest := Separator(first) + RecordLines(rs[0]), BlockLines(rs[1..], false) + ["]"];
    SplitBlocks(rs, first);
    CutInRecord(s, rs[0], first, cut);
    assert JoinLines(head + rest)[..cut] == JoinLines(head)[..cut];
    FirstClose(rs, first);
    assert StoredAll(rs[..0]) == [];
    RestNonempty(rest);
  }

  lemma CutAtClose(s: Scan, rs: seq<Record>, first: bool, cut: nat)
    requires Idle(s) && AllPrintable(rs) && rs != []
    requires cut == |JoinLines(Separator(first) + RecordLines(rs[0]))| - 1
    ensures ClosedBefore(rs, first, cut, 1) && ReadsClosed(s, rs, first, cut, 1)
  {
    hide Step, RecordLines, Stored, Lines, CloseOffset, BlockLines;
    var head, rest := Separator(first) + RecordLines(rs[0]), BlockLines(rs[1..], false) + ["]"];
    SplitBlocks(rs, first);
    CutAtBrace(rs[0], first);
    FeedRecord(s, rs[0], first);
    assert JoinLines(head + rest)[..cut] == JoinLines(head)[..cut];
    FirstClose(rs, first);
    if |rs| > 1 {
      SecondClose(rs, first);
    }
    assert StoredAll(rs[..1]) == [Stored(rs[0])];
    RestNonempty(rest);
  }

  lemma CutAfterClose(s: Scan, rs: seq<Record>, first: bool, cut: nat, c: nat)
    requires Idle(s) && AllPrintable(rs) && rs != []
    requires var head := Separator(first) + RecordLines(rs[0]);
             |JoinLines(head)| <= cut &&
             ClosedBefore(rs[1..], false, cut - |JoinLines(head)|, c) &&
             ReadsClosed(Feed(s, head), rs[1..], false, cut - |JoinLines(head)|, c)
    ensures ClosedBefore(rs, first, cut, c + 1) && ReadsClosed(s, rs, first, cut, c + 1)
  {
    hide ClosedBefore, ReadsClosed, RecordLines;
    MoreClosed(rs, first, cut, c);
    MoreRead(s, rs, first, cut, c);
  }

  lemma MoreClosed(rs: seq<Record>, first: bool, cut: nat, c: nat)
    requires rs != []
    requires var head := JoinLines(Separator(first) + RecordLines(rs[0]));
             |head| <= cut && ClosedBefore(rs[1..], false, cut - |head|, c)
    ensures ClosedBefore(rs, first, cut, c + 1)
  {
    hide RecordLines, CloseOffset, BlockLines;
    LaterClose(rs, first, c);
    if c < |rs| - 1 {
      LaterClose(rs, first, c + 1);
    }
    if c == 0 {
      FirstClose(rs, first);
    }
  }

  lemma MoreRead(s: Scan, rs: seq<Record>, first: bool, cut: nat, c: nat)
    requires Idle(s) && AllPrintable(rs) && rs != []
    requires var head := Separator(first) + RecordLines(rs[0]);
             |JoinLines(head)| <= cut && ReadsClosed(Feed(s, head), rs[1..], false, cut - |JoinLines(head)|, c)
    ensures ReadsClosed(s, rs, first, cut, c + 1)
  {
    hide Step, RecordLines, Stored, Lines, BlockLines;
    var head, rest := Separator(first) + RecordLines(rs[0]), BlockLines(rs[1..], false) + ["]"];
    var k := cut - |JoinLines(head)|;
    SplitBlocks(rs, first);
    RecordLinesAreLines(rs[0]);
    LinesAfter(head, JoinLines(rest)[..k]);
    assert JoinLines(head + rest)[..cut] == JoinLines(head) + JoinLines(rest)[..k];
    FeedRecord(s, rs[0], first);
    FoldAppend(Step, s, head, Lines(JoinLines(rest)[..k]));
    assert StoredAll(rs[..c + 1]) == [Stored(rs[0])] + StoredAll(rs[1..][..c]);
  }

  lemma SplitBlocks(rs: seq<Record>, first: bool)
    requires rs != []
    ensures
      var head, rest := Separator(first) + RecordLines(rs[0]), BlockLines(rs[1..], false) + ["]"];
      BlockLines(rs, first) + ["]"] == head + rest && JoinLines(head + rest) == JoinLines(head) + JoinLines(rest)
  {
    hide RecordLines;
    JoinAppend(Separator(first) + RecordLines(rs[0]), BlockLines(rs[1..], false) + ["]"]);
  }

  lemma RestNonempty(rest: seq<string>)
    requires rest != []
    ensures |JoinLines(rest)| >= 1
  {
  }

  lemma CutAtBrace(r: Record, first: bool)
    requires Printable(r)
    ensures
      var head := Separator(first) + RecordLines(r);
      |JoinLines(head)| >= 1 && Lines(JoinLines(head)[..|JoinLines(head)| - 1]) == head
  {
    hide BodyLines, RenderAll, Lines;
    var head := Separator(first) + RecordLines(r);
    var n := |head| - 1;
    assert head == head[..n] + ["  }"];
    JoinAppend(head[..n], ["  }"]);
    assert JoinLines(["  }"]) == "  }\n" by {
      assert ["  }"][1..] == [];
    }
    assert JoinLines(head)[..|JoinLines(head)| - 1] == JoinLines(head[..n]) + "  }";
    RecordLinesAreLines(r);
    LinesAfter(head[..n], "  }");
    assert Lines("  }") == ["  }"] by {
      assert FindAny("  }", "\n", 0) == 3;
      LinesOfUnbroken("  }");
    }
  }

  lemma LinesOfUnbroken(line: string)
    requires line != "" && FindAny(line, "\n", 0) == |line|
    ensures Lines(line) == [line]
  {
  }

  lemma FirstClose(rs: seq<Record>, first: bool)
    requires rs != []
    ensures CloseOffset(rs[..1], first) == |JoinLines(Separator(first) + RecordLines(rs[0]))| - 1
  {
    hide RecordLines;
    assert rs[..1][1..] == [];
    var head := Separator(first) + RecordLines(rs[0]);
    assert BlockLines(rs[..1], first) == head;
  }

  lemma SecondClose(rs: seq<Record>, first: bool)
    requires |rs| > 1
    ensures CloseOffset(rs[..2], first) > CloseOffset(rs[..1], first)
  {
    hide RecordLines;
    LaterClose(rs, first, 1);
    FirstClose(rs, first);
    FirstClose(rs[1..], false);
    RestNonempty(Separator(false) + RecordLines(rs[1]));
    assert JoinLines(Separator(false) + RecordLines(rs[1])) == "," + "\n" + JoinLines(RecordLines(rs[1])) by {
      JoinAppend([","], RecordLines(rs[1]));
      assert [","][1..] == [];
    }
  }

  lemma LaterClose(rs: seq<Record>, first: bool, c: nat)
    requires c < |rs|
    ensures CloseOffset(rs[..c + 1], first) ==
            |JoinLines(Separator(first) + RecordLines(rs[0]))| + CloseOffset(rs[1..][..c], false)
  {
    hide RecordLines;
    var head := Separator(first) + RecordLines(rs[0]);
    assert rs[..c + 1][1..] == rs[1..][..c];
    assert BlockLines(rs[..c + 1], first) == head + BlockLines(rs[1..][..c], false);
    JoinAppend(head, BlockLines(rs[1..][..c], false));
  }

  /** Bytes of the file up to and including the closing brace of the last of `rs`. */
  function ClosedAt(rs: seq<Record>): int {
    2 + CloseOffset(rs, true)
  }

  /**
   * Crash recovery: from a results file cut at any byte the reader returns exactly the
   * records whose closing brace was written, and reports completeness exactly when the
   * final bracket was.
   */
  lemma CrashRecovery(rs: seq<Record>, cut: nat) returns (closed: nat)
    requires AllPrintable(rs) && cut <= |FileText(rs)|
    ensures closed <= |rs|
    ensures closed > 0 ==> ClosedAt(rs[..closed]) <= cut
    ensures closed < |rs| ==> cut < ClosedAt(rs[..closed + 1])
    ensures
      var read := ReadSpec(Some(FileText(rs)[..cut]));
      read.records == StoredAll(rs[..closed]) && (read.complete <==> |FileText(rs)| - 1 <= cut)
  {
    hide Step, RecordLines, Lines, BlockLines;
    var blocks := BlockLines(rs, true) + ["]"];
    assert FileLines(rs) == ["["] + blocks;
    JoinAppend(["["], blocks);
    assert JoinLines(["["]) == "[\n" by {
      assert ["["][1..] == [];
    }
    var text := FileText(rs);
    assert text == "[\n" + JoinLines(blocks);
    assert |JoinLines(blocks)| >= 2 by {
      JoinAppend(BlockLines(rs, true), ["]"]);
      assert ["]"][1..] == [];
    }
    if cut < 2 {
      closed := 0;
      CutBeforeBlocks(cut);
      assert text[..cut] == "[\n"[..cut];
      assert StoredAll(rs[..0]) == [];
      if rs != [] {
        FirstClose(rs, true);
        RecordBytes(rs[0]);
      }
    } else {
      var k := cut - 2;
      assert text[..cut] == JoinLines(["["]) + JoinLines(blocks)[..k];
      LinesAfter(["["], JoinLines(blocks)[..k]);
      FoldAppend(Step, START, ["["], Lines(JoinLines(blocks)[..k]));
      FoldOne(Step, START, "[");
      StepOutside(START, "[");
      closed := CutBlocks(Step(START, "["), rs, true, k);
    }
  }

  lemma RecordBytes(r: Record)
    ensures |JoinLines(Separator(true) + RecordLines(r))| >= 2
  {
    hide BodyLines, RenderAll;
    assert Separator(true) + RecordLines(r) == RecordLines(r);
    assert RecordLines(r)[0] == "  {";
  }

  lemma CutBeforeBlocks(cut: nat)
    requires cut < 2
    ensures
      var read := ReadSpec(Some("[\n"[..cut]));
      read.records == [] && !read.complete
  {
    hide Step;
    if cut == 0 {
      assert "[\n"[..cut] == "";
    } else {
      assert "[\n"[..cut] == "[";
      assert FindAny("[", "\n", 0) == 1;
      FoldOne(Step, START, "[");
      StepOutside(START, "[");
    }
  }

  // ----- what a stored record says about the printed one -----

  /** The stored record carries the printed identity, outcome and measurements; a group has no measurement. */
  predicate Faithful(stored: StoredRecord, r: Record) {
    var p := ProfileOf(r);
    stored.id == r.id && stored.name == r.name && stored.outcome == r.outcome &&
    stored.kind == (if r.Leaf? then "leaf" else "group") &&
    stored.averageUs == p.average && stored.minimumUs == p.minimum && stored.maximumUs == p.maximum &&
    stored.medianUs == p.median && stored.p95Us == p.p95 && stored.madUs == p.mad &&
    stored.sampleCount == p.sampleCount && stored.hasMeasurement == r.Leaf? && stored.hasDistribution &&
    stored.unit == "us" && stored.direction == (if r.Leaf? then "lower_is_better" else "neutral")
  }

  lemma StoredIsFaithful(r: Record)
    requires Printable(r)
    ensures Faithful(Stored(r), r)
  {
    hide ExtractInlineString, ExtractInlineScalar, Render;
    assert "leaf" != "group";
  }

  /** Every complete run and every cut run stores faithful records. */
  lemma FaithfulRecovery(rs: seq<Record>, cut: nat) returns (closed: nat)
    requires AllPrintable(rs) && cut <= |FileText(rs)|
    ensures closed <= |rs| && (cut == |FileText(rs)| ==> closed == |rs|)
    ensures
      var read := ReadSpec(Some(FileText(rs)[..cut]));
      |read.records| == closed && forall i :: 0 <= i < closed ==> Faithful(read.records[i], rs[i])
  {
    hide Faithful, Stored, ReadSpec, FileText;
    closed := CrashRecovery(rs, cut);
    if cut == |FileText(rs)| {
      RoundTrip(rs);
      assert FileText(rs)[..cut] == FileText(rs);
      assert |StoredAll(rs[..closed])| == |StoredAll(rs)|;
    }
    forall i | 0 <= i < closed ensures Faithful(Stored(rs[i]), rs[i]) {
      StoredIsFaithful(rs[i]);
    }
  }

  // ----- the oracle verdict in the metadata -----

  const STATUS := "oracle_status"

  /** The value of the first inline `oracle_status` of a metadata text. */
  function MetadataStatus(metadata: string): Option<string> {
    ExtractInlineString(metadata, STATUS)
  }

  /** The host's own test, which decides the printed outcome. */
  predicate ReportsOracleFailure(metadata: string) {
    Contains(metadata, "\"oracle_status\":\"FAIL\"")
  }

  lemma StatusMark(metadata: string, i: nat)
    ensures
      var line, p, pattern := Field("metadata", metadata), |Prefix("metadata")|, InlineMark(STATUS) + "\"";
      MatchesAt(line, pattern, i) <==> p <= i && MatchesAt(metadata, pattern, i - p)
  {
    hide InlineMark, Prefix, Field, MatchesAt;
    var line, p := Field("metadata", metadata), |Prefix("metadata")|;
    FieldStarts("metadata", metadata);
    MarkWords();
    KeyIsPlain(Metadata);
    MatchesConcat(line, InlineMark(STATUS), "\"", i);
    FieldMark("metadata", metadata, STATUS, i);
    if p <= i {
      MatchesConcat(metadata, InlineMark(STATUS), "\"", i - p);
      MatchesShift(line, metadata, "\"", p, i - p + |InlineMark(STATUS)|);
    }
  }

  lemma MatchesShift(line: string, tail: string, pattern: string, p: nat, i: nat)
    requires p <= |line| && line[p..] == tail
    ensures MatchesAt(line, pattern, p + i) <==> MatchesAt(tail, pattern, i)
  {
    if i + |pattern| <= |tail| {
      SuffixSlice(line, p, i, i + |pattern|);
    }
  }

  lemma SuffixSlice(s: string, p: nat, i: nat, j: nat)
    requires i <= j && p + j <= |s|
    ensures s[p..][i..j] == s[p + i..p + j]
  {
  }

  lemma MatchInside(s: string, pattern: string, i: nat)
    requires MatchesAt(s, pattern, i)
    ensures i + |pattern| <= |s|
  {
  }

  lemma InlineShift(line: string, tail: string, key: string, p: nat)
    requires p <= |line| && line[p..] == tail
    requires
      var pattern := InlineMark(key) + "\"";
      forall i: nat :: MatchesAt(line, pattern, i) <==> p <= i && MatchesAt(tail, pattern, i - p)
    ensures ExtractInlineString(line, key) == ExtractInlineString(tail, key)
  {
    hide InlineMark, Find, FindAny, MatchesAt;
    var pattern := InlineMark(key) + "\"";
    FindShift(line, tail, pattern, p);
    var start := Find(tail, pattern, 0);
    if start.Some? {
      var from := start.value + |pattern|;
      MatchInside(tail, pattern, start.value);
      FindAnyShift(line, tail, "\"", p, from);
      var end := FindAny(tail, "\"", from);
      SuffixSlice(line, p, from, end);
    }
  }

  lemma StatusOfLine(metadata: string)
    ensures ExtractInlineString(Render(Other(Metadata, metadata)), STATUS) == MetadataStatus(metadata)
  {
    hide InlineMark, Prefix, Field, MatchesAt, ExtractInlineString;
    var line, p := Field("metadata", metadata), |Prefix("metadata")|;
    FieldStarts("metadata", metadata);
    forall i: nat
      ensures MatchesAt(line, InlineMark(STATUS) + "\"", i) <==>
              p <= i && MatchesAt(metadata, InlineMark(STATUS) + "\"", i - p)
    {
      StatusMark(metadata, i);
    }
    InlineShift(line, metadata, STATUS, p);
  }

  lemma FindShift(line: string, tail: string, pattern: string, p: nat)
    requires forall i: nat :: MatchesAt(line, pattern, i) <==> p <= i && MatchesAt(tail, pattern, i - p)
    ensures Find(tail, pattern, 0).None? <==> Find(line, pattern, 0).None?
    ensures Find(tail, pattern, 0).Some? ==> Find(line, pattern, 0) == Some(p + Find(tail, pattern, 0).value)
  {
    var a, b := Find(tail, pattern, 0), Find(line, pattern, 0);
    if a.Some? {
      assert MatchesAt(line, pattern, p + a.value);
    }
    if b.Some? {
      assert MatchesAt(tail, pattern, b.value - p);
    }
  }

  lemma FindAnyShift(line: string, tail: string, chars: string, p: nat, from: nat)
    requires p <= |line| && line[p..] == tail && from <= |tail|
    ensures FindAny(line, chars, p + from) == p + FindAny(tail, chars, from)
    decreases |tail| - from
  {
    if from < |tail| {
      assert line[p + from] == tail[from];
      FindAnyShift(line, tail, chars, p, from + 1);
    }
  }

  /** The viewer's failure flag is the first status of the metadata, and nothing else. */
  lemma StoredOracleStatus(r: Record)
    ensures Stored(r).oracleRecorded <==> r.metadata != "" && MetadataStatus(r.metadata).Some?
    ensures Stored(r).oracleFailed <==> r.metadata != "" && MetadataStatus(r.metadata) == Some("FAIL")
  {
    hide ExtractInlineString, ExtractInlineScalar, Render;
    StatusOfLine(r.metadata);
  }

  ghost predicate StatusAtMostOnce(metadata: string) {
    forall i: nat, j: nat ::
      MatchesAt(metadata, InlineMark(STATUS), i) && MatchesAt(metadata, InlineMark(STATUS), j) ==> i == j
  }

  /** `FAIL` and a quote stand behind the first status key. */
  predicate FirstStatusIsFail(metadata: string) {
    var first := Find(metadata, InlineMark(STATUS) + "\"", 0);
    first.Some? && MatchesAt(metadata, "FAIL\"", first.value + |InlineMark(STATUS) + "\""|)
  }

  /** The reader calls the first status a failure exactly when the failure text stands there. */
  lemma FirstStatusFails(metadata: string)
    ensures MetadataStatus(metadata) == Some("FAIL") <==> FirstStatusIsFail(metadata)
  {
    hide InlineMark, Find, MatchesAt;
    var first := Find(metadata, InlineMark(STATUS) + "\"", 0);
    if first.Some? {
      var from := first.value + |InlineMark(STATUS) + "\""|;
      MatchInside(metadata, InlineMark(STATUS) + "\"", first.value);
      FailQuoted(metadata, from);
    }
  }

  /** The text up to the next quote is `FAIL` exactly when `FAIL` and a quote stand here. */
  lemma FailQuoted(text: string, from: nat)
    requires from <= |text|
    ensures
      var end := FindAny(text, "\"", from);
      MatchesAt(text, "FAIL\"", from) <==> end < |text| && text[from..end] == "FAIL"
  {
    var end := FindAny(text, "\"", from);
    if MatchesAt(text, "FAIL\"", from) {
      var word := text[from..from + 5];
      assert word[0] == text[from] && word[1] == text[from + 1] && word[2] == text[from + 2] && word[3] == text[from + 3];
      assert word[4] == text[from + 4] == '"';
      assert end == from + 4;
      assert text[from..end] == word[..4];
    }
    if end < |text| && text[from..end] == "FAIL" {
      assert text[end] == '"';
      assert text[from..from + 5] == text[from..end] + [text[end]];
    }
  }

  /**
   * The reader's status flag, which looks at the first status only, agrees with the guest's
   * search of the whole text exactly when no status fails or the first one does.
   */
  lemma FlagAgreesExactly(metadata: string)
    ensures MetadataStatus(metadata) == Some("FAIL") ==> ReportsOracleFailure(metadata)
    ensures (MetadataStatus(metadata) == Some("FAIL") <==> ReportsOracleFailure(metadata)) <==>
            (ReportsOracleFailure(metadata) ==> FirstStatusIsFail(metadata))
    ensures StatusAtMostOnce(metadata) && ReportsOracleFailure(metadata) ==> FirstStatusIsFail(metadata)
  {
    var open := InlineMark(STATUS) + "\"";
    var fail := "\"oracle_status\":\"FAIL\"";
    assert fail == open + "FAIL\"";
    FirstStatusFails(metadata);
    var first := Find(metadata, open, 0);
    if first.Some? {
      MatchesConcat(metadata, open, "FAIL\"", first.value);
      MatchesConcat(metadata, InlineMark(STATUS), "\"", first.value);
    }
    var where := Find(metadata, fail, 0);
    if where.Some? {
      MatchesConcat(metadata, open, "FAIL\"", where.value);
      MatchesConcat(metadata, InlineMark(STATUS), "\"", where.value);
    }
  }

  const PASS_THEN_FAIL := InlineMark(STATUS) + "\"PASS\"," + "\"oracle_status\":\"FAIL\""

  /** A second, failing status does not set the flag. */
  lemma SecondStatusUnseen()
    ensures ReportsOracleFailure(PASS_THEN_FAIL) && MetadataStatus(PASS_THEN_FAIL) == Some("PASS")
  {
    var fail := "\"oracle_status\":\"FAIL\"";
    var open := InlineMark(STATUS) + "\"";
    var metadata := InlineMark(STATUS) + "\"PASS\"," + fail;
    hide InlineMark;
    var n := |open|;
    assert metadata == open + "PASS\"," + fail;
    assert metadata[0..n] == open;
    PassQuoted(metadata, open, fail);
    assert metadata[n + 6..n + 6 + |fail|] == fail;
    assert MatchesAt(metadata, fail, n + 6);
  }

  lemma PassQuoted(text: string, open: string, after: string)
    requires text == open + "PASS\"," + after
    ensures var n := |open|; FindAny(text, "\"", n) == n + 4 && text[n..n + 4] == "PASS"
  {
    var n := |open|;
    var word := text[n..n + 5];
    assert word == "PASS\"";
    assert text[n..n + 4] == word[..4];
    assert text[n] == word[0] && text[n + 1] == word[1] && text[n + 2] == word[2] && text[n + 3] == word[3];
    assert text[n + 4] == word[4];
    FirstOf(text, "\"", n, n + 4);
  }

  lemma FirstOf(text: string, chars: string, from: nat, at: nat)
    requires from <= at < |text| && text[at] in chars && forall i :: from <= i < at ==> text[i] !in chars
    ensures FindAny(text, chars, from) == at
  {
    hide FindAny;
  }
}
