/**
 * Character-level text operations the guest and its result viewer rely on:
 * searching, decimal output, `sscanf("%lu")` input and `std::getline` splitting.
 */
module Text {
  datatype Option<+T> = None | Some(value: T)

  const TWO_32: nat := 0x1_0000_0000
  type uint32 = x: nat | x < 0x1_0000_0000

  /** Runs a step function over a sequence from left to right. */
  function Fold<S, T>(step: (S, T) -> S, start: S, items: seq<T>): S
    decreases |items|
  {
    if items == [] then start else Fold(step, step(start, items[0]), items[1..])
  }

  lemma {:induction false} FoldAppend<S, T>(step: (S, T) -> S, start: S, a: seq<T>, b: seq<T>)
    ensures Fold(step, start, a + b) == Fold(step, Fold(step, start, a), b)
    decreases |a|
  {
    if a == [] {
      assert a + b == b;
    } else {
      assert (a + b)[0] == a[0] && (a + b)[1..] == a[1..] + b;
      FoldAppend(step, step(start, a[0]), a[1..], b);
    }
  }

  lemma FoldOne<S, T>(step: (S, T) -> S, start: S, item: T)
    ensures Fold(step, start, [item]) == step(start, item)
  {
    assert [item][1..] == [];
    assert Fold(step, step(start, item), []) == step(start, item);
  }

  lemma FoldThree<S, T>(step: (S, T) -> S, start: S, a: T, b: T, c: T)
    ensures Fold(step, start, [a, b, c]) == step(step(step(start, a), b), c)
  {
    assert [a, b, c][1..] == [b, c] && [b, c][1..] == [c];
    FoldOne(step, step(step(start, a), b), c);
  }

  // ----- searching -----

  predicate MatchesAt(s: string, pattern: string, i: nat) {
    i + |pattern| <= |s| && s[i..i + |pattern|] == pattern
  }

  predicate StartsWith(s: string, prefix: string) {
    MatchesAt(s, prefix, 0)
  }

  predicate EndsWith(s: string, suffix: string) {
    |suffix| <= |s| && MatchesAt(s, suffix, |s| - |suffix|)
  }

  predicate Contains(s: string, pattern: string) {
    Find(s, pattern, 0).Some?
  }

  /** The least position at or after `from` where `pattern` occurs. */
  function Find(s: string, pattern: string, from: nat): (r: Option<nat>)
    ensures r.Some? ==> from <= r.value && MatchesAt(s, pattern, r.value)
    ensures r.Some? ==> forall i :: from <= i < r.value ==> !MatchesAt(s, pattern, i)
    ensures r.None? ==> forall i :: from <= i ==> !MatchesAt(s, pattern, i)
    decreases |s| - from
  {
    if from + |pattern| > |s| then None
    else if MatchesAt(s, pattern, from) then Some(from)
    else if from == |s| then None
    else Find(s, pattern, from + 1)
  }

  /** The least position at or after `from` holding one of `chars`, or the length of `s`. */
  function FindAny(s: string, chars: string, from: nat): (r: nat)
    requires from <= |s|
    ensures from <= r <= |s|
    ensures forall i :: from <= i < r ==> s[i] !in chars
    ensures r < |s| ==> s[r] in chars
    decreases |s| - from
  {
    if from == |s| || s[from] in chars then from else FindAny(s, chars, from + 1)
  }

  lemma MatchesConcat(s: string, p: string, q: string, i: nat)
    ensures MatchesAt(s, p + q, i) <==> MatchesAt(s, p, i) && MatchesAt(s, q, i + |p|)
  {
    var j, k := i + |p|, i + |p + q|;
    if k <= |s| {
      assert s[i..k] == s[i..j] + s[j..k];
      assert s[i..k][..|p|] == s[i..j] && s[i..k][|p|..] == s[j..k];
      assert (p + q)[..|p|] == p && (p + q)[|p|..] == q;
    }
  }

  // ----- decimal text -----

  predicate IsDigit(c: char) {
    '0' <= c <= '9'
  }

  predicate IsHexDigit(c: char) {
    '0' <= c <= '9' || 'a' <= c <= 'f'
  }

  function DigitValue(c: char): nat
    requires IsDigit(c)
  {
    c as int - '0' as int
  }

  /** The text `operator<<` writes for an unsigned integer. */
  function Decimal(n: nat): (s: string)
    ensures |s| > 0
    ensures forall i :: 0 <= i < |s| ==> IsDigit(s[i])
  {
    if n < 10 then [(n + '0' as int) as char]
    else Decimal(n / 10) + [(n % 10 + '0' as int) as char]
  }

  function DigitsValue(s: string): nat
    requires forall i :: 0 <= i < |s| ==> IsDigit(s[i])
  {
    if s == "" then 0 else DigitsValue(s[..|s| - 1]) * 10 + DigitValue(s[|s| - 1])
  }

  predicate IsSpace(c: char) {
    c == ' ' || '\t' <= c <= '\r'
  }

  predicate IsSign(c: char) {
    c == '+' || c == '-'
  }

  function SkipSpace(s: string, from: nat): (r: nat)
    requires from <= |s|
    ensures from <= r <= |s|
    decreases |s| - from
  {
    if from < |s| && IsSpace(s[from]) then SkipSpace(s, from + 1) else from
  }

  function DigitsEnd(s: string, from: nat): (r: nat)
    requires from <= |s|
    ensures from <= r <= |s|
    ensures forall i :: from <= i < r ==> IsDigit(s[i])
    ensures r < |s| ==> !IsDigit(s[r])
    decreases |s| - from
  {
    if from < |s| && IsDigit(s[from]) then DigitsEnd(s, from + 1) else from
  }

  /**
   * `sscanf(s, "%lu", &v)` followed by the cast to `uint32_t`: leading white space,
   * an optional sign, then the longest run of digits. A minus sign negates modulo 2^32.
   */
  function ScanUnsigned(s: string): Option<uint32> {
    var start := SkipSpace(s, 0);
    var signed := start < |s| && IsSign(s[start]);
    var digits := if signed then start + 1 else start;
    var end := DigitsEnd(s, digits);
    if end == digits then None
    else
      var magnitude := DigitsValue(s[digits..end]) % TWO_32;
      Some(if signed && s[start] == '-' then (TWO_32 - magnitude) % TWO_32 else magnitude)
  }

  lemma {:induction false} DecimalValue(n: nat)
    ensures DigitsValue(Decimal(n)) == n
  {
    if n >= 10 {
      DecimalValue(n / 10);
      var s := Decimal(n);
      assert s[..|s| - 1] == Decimal(n / 10);
    } else {
      assert Decimal(n)[..0] == "";
    }
  }

  /** Reading back a printed number returns it, whatever blanks precede it and non-digit follows it. */
  lemma ScanDecimal(s: string, start: nat, n: uint32)
    requires forall i :: 0 <= i < start <= |s| ==> s[i] == ' '
    requires MatchesAt(s, Decimal(n), start)
    requires start + |Decimal(n)| < |s| ==> !IsDigit(s[start + |Decimal(n)|])
    ensures ScanUnsigned(s) == Some(n)
  {
    hide ScanUnsigned, SkipSpace, DigitsEnd, DigitsValue, Decimal, IsDigit;
    var digits := Decimal(n);
    var end := start + |digits|;
    assert forall i :: start <= i < end ==> s[i] == digits[i - start];
    SkipBlanks(s, start, 0);
    assert s[start..end] == digits;
    DecimalValue(n);
    ScanRun(s, start, end);
  }

  lemma ScanRun(s: string, start: nat, end: nat)
    requires start < end <= |s| && SkipSpace(s, 0) == start
    requires forall i :: start <= i < end ==> IsDigit(s[i])
    requires end < |s| ==> !IsDigit(s[end])
    ensures ScanUnsigned(s) == Some(DigitsValue(s[start..end]) % TWO_32)
  {
    DigitsEndAt(s, start, end);
    assert IsDigit(s[start]);
  }

  lemma {:induction false} SkipBlanks(s: string, end: nat, from: nat)
    requires from <= end < |s| && IsDigit(s[end])
    requires forall i :: from <= i < end ==> s[i] == ' '
    ensures SkipSpace(s, from) == end
    decreases end - from
  {
    if from < end {
      SkipBlanks(s, end, from + 1);
    }
  }

  lemma DigitsEndAt(s: string, from: nat, end: nat)
    requires from <= end <= |s|
    requires forall i :: from <= i < end ==> IsDigit(s[i])
    requires end < |s| ==> !IsDigit(s[end])
    ensures DigitsEnd(s, from) == end
  {
  }

  // ----- lines -----

  /** A line without the carriage return that may end it. */
  function DropReturn(line: string): string {
    if line != "" && line[|line| - 1] == '\r' then line[..|line| - 1] else line
  }

  predicate OneLine(s: string) {
    '\n' !in s
  }

  /** The lines successive `std::getline` calls return for a file holding `text`. */
  function Lines(text: string): seq<string> {
    if text == "" then []
    else
      var end := FindAny(text, "\n", 0);
      if end == |text| then [text] else [text[..end]] + Lines(text[end + 1..])
  }

  /** The text written by one `<< line << std::endl` per line. */
  function JoinLines(lines: seq<string>): string {
    if lines == [] then "" else lines[0] + "\n" + JoinLines(lines[1..])
  }

  lemma {:induction false} JoinAppend(a: seq<string>, b: seq<string>)
    ensures JoinLines(a + b) == JoinLines(a) + JoinLines(b)
  {
    if a == [] {
      assert a + b == b;
    } else {
      assert (a + b)[1..] == a[1..] + b;
      JoinAppend(a[1..], b);
    }
  }

  lemma FirstLine(line: string, rest: string)
    requires OneLine(line)
    ensures Lines(line + "\n" + rest) == [line] + Lines(rest)
  {
    var text := line + "\n" + rest;
    var end := FindAny(text, "\n", 0);
    assert text[|line|] == '\n';
    assert forall i :: 0 <= i < |line| ==> text[i] == line[i];
    assert end == |line|;
    assert text[..end] == line && text[end + 1..] == rest;
  }

  /** Splitting what was written line by line gives the lines back. */
  lemma {:induction false} LinesOfJoin(lines: seq<string>)
    requires forall i :: 0 <= i < |lines| ==> OneLine(lines[i])
    ensures Lines(JoinLines(lines)) == lines
  {
    if lines != [] {
      FirstLine(lines[0], JoinLines(lines[1..]));
      LinesOfJoin(lines[1..]);
    }
  }

  /**
   * A cut at byte `cut` leaves whole lines plus, unless it falls on a line
   * boundary, a non-empty proper or whole prefix of the next line.
   */
  lemma {:induction false} LinesOfPrefix(lines: seq<string>, cut: nat) returns (whole: nat, part: nat)
    requires forall i :: 0 <= i < |lines| ==> OneLine(lines[i])
    requires cut <= |JoinLines(lines)|
    ensures whole <= |lines|
    ensures cut == |JoinLines(lines[..whole])| + part
    ensures if whole < |lines| then part <= |lines[whole]| else part == 0
    ensures Lines(JoinLines(lines)[..cut]) ==
            lines[..whole] + (if part == 0 then [] else [lines[whole][..part]])
  {
    hide Lines, JoinLines;
    NothingJoined();
    if lines == [] {
      assert lines[..0] == [];
      return 0, 0;
    }
    JoinFront(lines);
    if cut <= |lines[0]| {
      assert lines[..0] == [];
      CutInFirstLine(lines, cut);
      return 0, cut;
    }
    var w, p := LinesOfPrefix(lines[1..], cut - |lines[0]| - 1);
    CutLater(lines, cut, w, p);
    return w + 1, p;
  }

  lemma NothingJoined()
    ensures JoinLines([]) == "" && Lines("") == []
  {
  }

  lemma JoinFront(lines: seq<string>)
    requires lines != []
    ensures |JoinLines(lines)| == |lines[0]| + 1 + |JoinLines(lines[1..])|
  {
  }

  /** What a cut leaves of the later lines it leaves of them all, behind the whole first one. */
  lemma CutLater(lines: seq<string>, cut: nat, w: nat, p: nat)
    requires lines != [] && OneLine(lines[0]) && w < |lines|
    requires |lines[0]| < cut <= |JoinLines(lines)|
    requires
      var tail, rest := lines[1..], cut - |lines[0]| - 1;
      rest == |JoinLines(tail[..w])| + p && (if w < |tail| then p <= |tail[w]| else p == 0) &&
      Lines(JoinLines(tail)[..rest]) == tail[..w] + if p == 0 then [] else [tail[w][..p]]
    ensures cut == |JoinLines(lines[..w + 1])| + p
    ensures if w + 1 < |lines| then p <= |lines[w + 1]| else p == 0
    ensures Lines(JoinLines(lines)[..cut]) == lines[..w + 1] + (if p == 0 then [] else [lines[w + 1][..p]])
  {
    hide Lines, JoinLines;
    CutAfterFirstLine(lines, cut, w);
  }

  lemma CutInFirstLine(lines: seq<string>, cut: nat)
    requires lines != [] && OneLine(lines[0]) && cut <= |lines[0]|
    ensures Lines(JoinLines(lines)[..cut]) == if cut == 0 then [] else [lines[0][..cut]]
  {
    var text := lines[0][..cut];
    assert JoinLines(lines)[..cut] == text;
    if cut > 0 {
      assert FindAny(text, "\n", 0) == cut;
    }
  }

  lemma CutAfterFirstLine(lines: seq<string>, cut: nat, w: nat)
    requires lines != [] && OneLine(lines[0]) && w < |lines|
    requires |lines[0]| < cut <= |JoinLines(lines)|
    ensures Lines(JoinLines(lines)[..cut]) == [lines[0]] + Lines(JoinLines(lines[1..])[..cut - |lines[0]| - 1])
    ensures lines[..w + 1] == [lines[0]] + lines[1..][..w]
    ensures |JoinLines(lines[..w + 1])| == |lines[0]| + 1 + |JoinLines(lines[1..][..w])|
  {
    hide Lines, FindAny;
    var rest := JoinLines(lines[1..])[..cut - |lines[0]| - 1];
    assert JoinLines(lines)[..cut] == lines[0] + "\n" + rest;
    FirstLine(lines[0], rest);
    JoinTake(lines, w);
  }

  lemma JoinTake(lines: seq<string>, w: nat)
    requires lines != [] && w < |lines|
    ensures lines[..w + 1] == [lines[0]] + lines[1..][..w]
    ensures |JoinLines(lines[..w + 1])| == |lines[0]| + 1 + |JoinLines(lines[1..][..w])|
  {
    assert lines[..w + 1][1..] == lines[1..][..w];
  }

  /** Splitting after a run of whole lines: the rest is split on its own. */
  lemma {:induction false} LinesAfter(lines: seq<string>, rest: string)
    requires forall i :: 0 <= i < |lines| ==> OneLine(lines[i])
    ensures Lines(JoinLines(lines) + rest) == lines + Lines(rest)
  {
    hide Lines;
    if lines == [] {
      assert JoinLines(lines) + rest == rest;
    } else {
      var tail := JoinLines(lines[1..]) + rest;
      assert JoinLines(lines) + rest == lines[0] + "\n" + tail;
      FirstLine(lines[0], tail);
      LinesAfter(lines[1..], rest);
    }
  }
}
