/** Which texts and integers spell a hash, and which known answers hold, in words. */
module HashMeaning {
  import opened JsonTree
  import opened OracleRecords
  import opened Text

  // ----- hexadecimal text -----

  const HEXADECIMAL := "0123456789abcdef"

  ghost predicate IsHash(h: string, width: nat) {
    |h| == width && forall i :: 0 <= i < |h| ==> h[i] in HEXADECIMAL
  }

  lemma DigitIsHex(c: char)
    ensures IsHexDigit(c) <==> c in HEXADECIMAL
  {
    forall i | 0 <= i < 16 ensures HEXADECIMAL[i] as int == if i < 10 then 48 + i else 87 + i {
    }
    if IsHexDigit(c) {
      var i := if c <= '9' then c as int - 48 else c as int - 87;
      assert HEXADECIMAL[i] == c;
    }
  }

  lemma HashIsHex(h: string, width: nat)
    ensures IsHex(h, width) <==> IsHash(h, width)
  {
    hide IsHexDigit;
    HexDigits(h);
    forall c: char ensures IsHexDigit(c) <==> c in HEXADECIMAL {
      DigitIsHex(c);
    }
  }

  /** The white space of `str.strip`, as code points. */
  predicate Blank(c: char) {
    var n := c as int;
    9 <= n <= 13 || 28 <= n <= 32 || n == 133 || n == 160 || n == 5760 || 8192 <= n <= 8202 || n == 8232 || n == 8233 ||
    n == 8239 || n == 8287 || n == 12288
  }

  ghost predicate Blanks(s: string) {
    forall i :: 0 <= i < |s| ==> Blank(s[i])
  }

  /** The text with some of its small letters written as capitals. */
  ghost predicate Spelled(core: string, text: string) {
    |core| == |text| &&
    forall i :: 0 <= i < |core| ==>
      core[i] == text[i] || ('a' <= text[i] <= 'z' && core[i] as int + 32 == text[i] as int)
  }

  /** The hash in letters of any case, with or without `0x` before it and white space around it. */
  ghost predicate SpellsHash(s: string, h: string) {
    exists before: string, core: string, after: string ::
      s == before + core + after && Blanks(before) && Blanks(after) && (Spelled(core, h) || Spelled(core, "0x" + h))
  }

  lemma SpelledLowers(core: string, text: string)
    requires forall i :: 0 <= i < |text| ==> !('A' <= text[i] <= 'Z')
    ensures LowerText(core) == text <==> Spelled(core, text)
  {
    if LowerText(core) == text {
      forall i | 0 <= i < |core| ensures
        core[i] == text[i] || ('a' <= text[i] <= 'z' && core[i] as int + 32 == text[i] as int) {
        assert LowerText(core)[i] == text[i];
      }
    }
    if Spelled(core, text) {
      assert LowerText(core) == text;
    }
  }

  lemma {:induction false} StripParts(s: string) returns (before: string, after: string)
    ensures s == before + Strip(s) + after && Blanks(before) && Blanks(after)
    decreases |s|
  {
    hide Blanks, Blank;
    NoBlanks();
    before, after := "", "";
    if s != "" {
      if IsBlank(s[0]) {
        var b, a := StripParts(s[1..]);
        before, after := OneMoreBefore(s, b, Strip(s[1..]), a);
      } else if IsBlank(s[|s| - 1]) {
        var b, a := StripParts(s[..|s| - 1]);
        before, after := OneMoreAfter(s, b, Strip(s[..|s| - 1]), a);
      }
    }
  }

  lemma NoBlanks()
    ensures Blanks("")
  {
  }

  lemma OneMoreBefore(s: string, b: string, core: string, a: string) returns (before: string, after: string)
    requires s != "" && IsBlank(s[0]) && s[1..] == b + core + a && Blanks(b) && Blanks(a)
    ensures s == before + core + after && Blanks(before) && Blanks(after)
  {
    before, after := [s[0]] + b, a;
    assert s == [s[0]] + s[1..];
  }

  lemma OneMoreAfter(s: string, b: string, core: string, a: string) returns (before: string, after: string)
    requires s != "" && IsBlank(s[|s| - 1]) && s[..|s| - 1] == b + core + a && Blanks(b) && Blanks(a)
    ensures s == before + core + after && Blanks(before) && Blanks(after)
  {
    before, after := b, a + [s[|s| - 1]];
    assert s == s[..|s| - 1] + [s[|s| - 1]];
  }

  lemma {:induction false} StripCore(before: string, core: string, after: string)
    requires Blanks(before) && Blanks(after) && core != "" && !Blank(core[0]) && !Blank(core[|core| - 1])
    ensures Strip(before + core + after) == core
    decreases |before| + |after|
  {
    var s := before + core + after;
    if before != "" {
      assert s[1..] == before[1..] + core + after;
      StripCore(before[1..], core, after);
    } else if after != "" {
      assert s[..|s| - 1] == before + core + after[..|after| - 1];
      StripCore(before, core, after[..|after| - 1]);
    } else {
      assert s == core;
    }
  }

  lemma NoBlankSpelled(core: string, text: string, width: nat)
    requires width > 0 && Spelled(core, text) && (IsHash(text, width) || (exists h :: IsHash(h, width) && text == "0x" + h))
    ensures core != "" && !Blank(core[0]) && !Blank(core[|core| - 1])
    ensures forall i :: 0 <= i < |text| ==> !('A' <= text[i] <= 'Z')
  {
    forall i | 0 <= i < |text| ensures text[i] in HEXADECIMAL || text[i] == 'x' {
      if h :| IsHash(h, width) && text == "0x" + h {
        assert "0x" == HEXADECIMAL[..1] + "x";
        if i >= 2 {
          assert text[i] == h[i - 2];
        }
      }
    }
    SmallLetters();
  }

  lemma SmallLetters()
    ensures forall c :: c in HEXADECIMAL ==> '0' <= c <= '9' || 'a' <= c <= 'f'
  {
    forall c | c in HEXADECIMAL ensures '0' <= c <= '9' || 'a' <= c <= 'f' {
      DigitIsHex(c);
    }
  }

  lemma PrefixOf(s: string, prefix: string)
    ensures StartsWith(s, prefix) <==> |prefix| <= |s| && s[..|prefix|] == prefix
  {
    if |prefix| <= |s| {
      assert s[..|prefix|] == s[0..|prefix|];
    }
  }

  /** A stripped, lowered text reads as a hash in one of the two spellings. */
  lemma CoreReads(core: string, h: string, width: nat)
    requires width > 0
    ensures
      var lower := LowerText(core);
      Checked(if StartsWith(lower, "0x") then lower[2..] else lower, width) == Ok(h) <==>
      IsHash(h, width) && (Spelled(core, h) || Spelled(core, "0x" + h))
  {
    hide LowerText, StartsWith, Spelled, IsHash, IsHex;
    var lower := LowerText(core);
    HashIsHex(h, width);
    PrefixOf(lower, "0x");
    if IsHash(h, width) {
      HashLetters(h, width);
      SpelledLowers(core, h);
      SpelledLowers(core, "0x" + h);
      if StartsWith(lower, "0x") {
        assert lower == "0x" + lower[2..];
      }
      if lower == "0x" + h {
        assert lower[..2] == "0x" && lower[2..] == h;
      }
      if lower == h {
        NoPrefix(h, width);
      }
    }
  }

  lemma HashLetters(h: string, width: nat)
    requires IsHash(h, width)
    ensures forall i :: 0 <= i < |h| ==> !('A' <= h[i] <= 'Z') && h[i] != 'x'
    ensures forall i :: 0 <= i < |"0x" + h| ==> !('A' <= ("0x" + h)[i] <= 'Z')
  {
    SmallLetters();
  }

  lemma NoPrefix(h: string, width: nat)
    requires IsHash(h, width)
    ensures !StartsWith(h, "0x")
  {
    HashLetters(h, width);
    PrefixedByX(h);
  }

  /** A text is read as exactly the hash it spells. */
  lemma HashSpelled(s: string, width: nat, h: string)
    requires width > 0
    ensures HashText(Str(s), width) == Ok(h) <==> IsHash(h, width) && SpellsHash(s, h)
  {
    hide LowerText, StartsWith, Spelled, IsHash, IsHex, Blanks, Strip, Checked;
    CoreReads(Strip(s), h, width);
    if HashText(Str(s), width) == Ok(h) {
      var before, after := StripParts(s);
      assert s == before + Strip(s) + after;
    }
    if IsHash(h, width) && SpellsHash(s, h) {
      var before: string, core: string, after: string :|
        s == before + core + after && Blanks(before) && Blanks(after) && (Spelled(core, h) || Spelled(core, "0x" + h));
      if Spelled(core, h) {
        NoBlankSpelled(core, h, width);
      } else {
        NoBlankSpelled(core, "0x" + h, width);
      }
      StripCore(before, core, after);
    }
  }

  // ----- hexadecimal integers -----

  function Power(width: nat): nat {
    if width == 0 then 1 else 16 * Power(width - 1)
  }

  /** The last digits of the integer. */
  function Digits(n: nat, width: nat): string {
    if width == 0 then "" else Digits(n / 16, width - 1) + [HEXADECIMAL[n % 16]]
  }

  lemma {:induction false} ZeroDigits(width: nat)
    ensures Digits(0, width) == Zeros(width)
  {
    if width > 0 {
      ZeroDigits(width - 1);
      assert Zeros(width) == Zeros(width - 1) + ['0'];
    }
  }

  lemma {:induction false} PaddedDigits(n: nat, width: nat)
    requires width > 0
    ensures n < Power(width) ==> ZeroPadded(HexText(n), width) == Digits(n, width)
    ensures n >= Power(width) ==> |HexText(n)| > width
    decreases n
  {
    assert HexDigit(n % 16) == HEXADECIMAL[n % 16];
    if n < 16 {
      ZeroDigits(width - 1);
      assert Power(width) >= 16 by {
        PowerPositive(width - 1);
      }
      assert n / 16 == 0 && n % 16 == n;
      assert ZeroPadded(HexText(n), width) == Zeros(width - 1) + [HEXADECIMAL[n]];
    } else if width == 1 {
      assert Power(1) == 16 * Power(0) == 16;
    } else {
      PaddedDigits(n / 16, width - 1);
      assert n < Power(width) <==> n / 16 < Power(width - 1);
      assert HexText(n) == HexText(n / 16) + [HEXADECIMAL[n % 16]];
    }
  }

  lemma {:induction false} PowerPositive(width: nat)
    ensures Power(width) >= 1
  {
    if width > 0 {
      PowerPositive(width - 1);
    }
  }

  lemma {:induction false} DigitsAreHash(n: nat, width: nat)
    ensures IsHash(Digits(n, width), width)
  {
    if width > 0 {
      DigitsAreHash(n / 16, width - 1);
      assert HEXADECIMAL[n % 16] in HEXADECIMAL;
    }
  }

  /** An integer is read as its digits exactly when they fit; nothing else is a hash. */
  lemma IntegerSpelled(v: Json, width: nat)
    requires width > 0 && !v.Str?
    ensures HashText(v, width) ==
            if v.Int? && 0 <= v.i < Power(width) then Ok(Digits(v.i, width)) else Err(Invalid)
  {
    hide IsHash, IsHex, HexText, ZeroPadded;
    if v.Int? && v.i >= 0 {
      PaddedDigits(v.i, width);
      DigitsAreHash(v.i, width);
      HashIsHex(Digits(v.i, width), width);
      if v.i >= Power(width) {
        TooLong(HexText(v.i), width);
      }
    }
  }

  lemma TooLong(s: string, width: nat)
    requires |s| > width
    ensures Checked(ZeroPadded(s, width), width) == Err(Invalid)
  {
  }

  // ----- known answers -----

  /** The answer under the second key is what the first key expects. */
  ghost predicate Expects(key: string, other: string) {
    if key == "expected" then other == "actual"
    else if exists rest: string :: key == "expected_" + rest then
      exists rest: string :: key == "expected_" + rest && other == "actual_" + rest
    else
      exists rest: string :: key == rest + "_expected" && other == rest + "_actual"
  }

  /** Nothing holds a float, and in every object an expected value equals the actual one given with it. */
  ghost predicate AnswersHold(v: Json) {
    match v
    case Obj(fields) =>
      (forall k | k in fields :: AnswersHold(fields[k])) &&
      forall k, other | k in fields && other in fields && Expects(k, other) :: PyEq(fields[other], fields[k])
    case Arr(items) => forall i | 0 <= i < |items| :: AnswersHold(items[i])
    case Whole(_) => false
    case Fraction(_) => false
    case _ => true
  }

  lemma StartsInWords(key: string, prefix: string)
    ensures StartsWith(key, prefix) <==> exists rest: string :: key == prefix + rest
    ensures StartsWith(key, prefix) ==> key == prefix + key[|prefix|..]
  {
    PrefixOf(key, prefix);
    if StartsWith(key, prefix) {
      assert key == prefix + key[|prefix|..];
    }
    if rest: string :| key == prefix + rest {
      assert key[..|prefix|] == prefix;
    }
  }

  lemma EndsInWords(key: string, suffix: string)
    ensures EndsWith(key, suffix) <==> exists rest: string :: key == rest + suffix
    ensures EndsWith(key, suffix) ==> key == key[..|key| - |suffix|] + suffix
  {
    if EndsWith(key, suffix) {
      assert key == key[..|key| - |suffix|] + suffix;
    }
    if rest: string :| key == rest + suffix {
      assert key[|rest|..] == suffix;
    }
  }

  lemma CounterpartInWords(key: string, other: string)
    ensures Counterpart(key) == Some(other) <==> Expects(key, other)
  {
    hide StartsWith, EndsWith;
    StartsInWords(key, "expected_");
    EndsInWords(key, "_expected");
    if rest: string :| key == "expected_" + rest {
      assert key[9..] == rest;
    }
    if rest: string :| key == rest + "_expected" {
      assert key[..|key| - 9] == rest;
    }
  }

  /** Normalizing the known answers accepts exactly those that hold. */
  lemma {:induction false} AnswersInWords(v: Json)
    ensures KatHolds(v) <==> AnswersHold(v)
  {
    hide Expects, Counterpart, PyEq;
    match v
    case Obj(fields) =>
      forall k | k in fields ensures KatHolds(fields[k]) <==> AnswersHold(fields[k]) {
        AnswersInWords(fields[k]);
      }
      forall k: string, other: string ensures Counterpart(k) == Some(other) <==> Expects(k, other) {
        CounterpartInWords(k, other);
      }
    case Arr(items) =>
      forall i | 0 <= i < |items| ensures KatHolds(items[i]) <==> AnswersHold(items[i]) {
        AnswersInWords(items[i]);
      }
    case _ =>
  }
}
