/** `canonical_json`: the text whose digest identifies a value, and that it determines the value. */
module CanonicalJson {
  import opened JsonTree
  import opened Lists
  import opened OracleRecords
  import opened OracleReport
  import opened Sorting
  import opened Text

  // ----- strings, as ASCII -----

  function Hex4(n: nat): (r: string)
    requires n < 0x10000
    ensures |r| == 4
  {
    var a := n / 16;
    var b := a / 16;
    [HexDigit(b / 16), HexDigit(b % 16), HexDigit(a % 16), HexDigit(n % 16)]
  }

  /** The letter of a two-character escape. */
  function ShortCode(c: char): Option<char> {
    match c
    case '"' => Some('"')
    case '\\' => Some('\\')
    case '\n' => Some('n')
    case '\r' => Some('r')
    case '\t' => Some('t')
    case '\U{0C}' => Some('f')
    case '\U{08}' => Some('b')
    case _ => None
  }

  predicate IsPrinted(c: char) {
    ' ' <= c <= '~' && ShortCode(c).None?
  }

  function Escape(c: char): string {
    if ShortCode(c).Some? then ['\\', ShortCode(c).value]
    else if ' ' <= c <= '~' then [c]
    else if c as int < 0x10000 then "\\u" + Hex4(c as int)
    else
      var n := c as int - 0x10000;
      "\\u" + Hex4(0xD800 + n / 1024) + "\\u" + Hex4(0xDC00 + n % 1024)
  }

  function EscapeAll(s: string): string {
    if s == "" then "" else Escape(s[0]) + EscapeAll(s[1..])
  }

  function StringText(s: string): string {
    "\"" + EscapeAll(s) + "\""
  }

  // ----- the other scalars -----

  function IntText(i: int): string {
    if i < 0 then "-" + Decimal(-i) else Decimal(i)
  }

  /** A value that is no string, list or object. */
  predicate IsToken(v: Json) {
    v.Null? || v.Bool? || v.Int? || v.Whole? || v.Fraction?
  }

  function TokenText(v: Json): string
    requires IsToken(v)
  {
    match v
    case Null => "null"
    case Bool(b) => if b then "true" else "false"
    case Int(i) => IntText(i)
    case Whole(i) => IntText(i) + ".0"
    case Fraction(repr) => repr
  }

  // ----- values -----

  function Canonical(v: Json): string
    decreases v, 1, 0
  {
    match v
    case Str(s) => StringText(s)
    case Arr(items) => "[" + ItemsText(v, 0)
    case Obj(fields) => "{" + FieldsText(v, SortedStrings(fields.Keys), 0)
    case _ => TokenText(v)
  }

  /** The items from `from` on, a comma before all but the first, and the closing bracket. */
  function ItemsText(v: Json, from: nat): string
    requires v.Arr? && from <= |v.items|
    decreases v, 0, |v.items| - from
  {
    if from == |v.items| then "]"
    else (if from == 0 then "" else ",") + Canonical(v.items[from]) + ItemsText(v, from + 1)
  }

  /** The fields with the keys from `from` on, and the closing brace. */
  function FieldsText(v: Json, keys: seq<string>, from: nat): string
    requires v.Obj? && from <= |keys| && forall k | k in keys :: k in v.fields
    decreases v, 0, |keys| - from
  {
    if from == |keys| then "}"
    else
      (if from == 0 then "" else ",") + StringText(keys[from]) + ":" + Canonical(v.fields[keys[from]]) +
      FieldsText(v, keys, from + 1)
  }

  // ----- escaping determines the character -----

  lemma Hex4Injective(m: nat, n: nat)
    requires m < 0x10000 && n < 0x10000 && Hex4(m) == Hex4(n)
    ensures m == n
  {
    DigitInjective(m / 16 / 16 / 16, n / 16 / 16 / 16);
    DigitInjective(m / 16 / 16 % 16, n / 16 / 16 % 16);
    DigitInjective(m / 16 % 16, n / 16 % 16);
    DigitInjective(m % 16, n % 16);
    assert Hex4(m)[0] == Hex4(n)[0] && Hex4(m)[1] == Hex4(n)[1] && Hex4(m)[2] == Hex4(n)[2] && Hex4(m)[3] == Hex4(n)[3];
    hide HexDigit;
    assert m / 16 / 16 == n / 16 / 16;
    assert m / 16 == n / 16;
  }

  lemma DigitInjective(m: nat, n: nat)
    requires m < 16 && n < 16
    ensures HexDigit(m) == HexDigit(n) ==> m == n
  {
  }

  /** What follows a prefix is determined by it. */
  lemma SplitAt(a: string, b: string, x: string, y: string)
    requires a + x == b + y && |a| == |b|
    ensures a == b && x == y
  {
    assert a == (a + x)[..|a|] && b == (b + y)[..|b|];
    assert x == (a + x)[|a|..] && y == (b + y)[|b|..];
  }

  predicate IsLong(c: char) {
    ShortCode(c).None? && !(' ' <= c <= '~')
  }

  /** The first UTF-16 unit of a character. */
  function Unit(c: char): (r: nat)
    ensures r < 0x10000
  {
    var n := c as int;
    if n < 0x10000 then n else 0xD800 + (n - 0x10000) / 1024
  }

  /** The second UTF-16 unit of a character beyond the first plane. */
  function LowUnit(c: char): (r: nat)
    requires c as int >= 0x10000
    ensures r < 0x10000
  {
    0xDC00 + (c as int - 0x10000) % 1024
  }

  lemma UnitsDetermine(c: char, d: char)
    requires Unit(c) == Unit(d)
    ensures c as int >= 0x10000 <==> d as int >= 0x10000
    ensures c as int < 0x10000 ==> c == d
    ensures c as int >= 0x10000 && LowUnit(c) == LowUnit(d) ==> c == d
  {
  }

  lemma EscapeShape(c: char)
    ensures IsPrinted(c) ==> Escape(c) == [c] && c != '\\' && c != '"'
    ensures ShortCode(c).Some? ==> Escape(c) == ['\\', ShortCode(c).value] && ShortCode(c).value != 'u'
    ensures IsLong(c) ==>
              Escape(c) == "\\u" + Hex4(Unit(c)) +
                (if c as int < 0x10000 then "" else "\\u" + Hex4(LowUnit(c)))
    ensures IsPrinted(c) || ShortCode(c).Some? || IsLong(c)
  {
    hide Hex4;
  }

  lemma ShortInjective(c: char, d: char)
    requires ShortCode(c).Some? && ShortCode(c) == ShortCode(d)
    ensures c == d
  {
  }

  lemma PrintedPrefix(c: char, d: char, x: string, y: string)
    requires IsPrinted(c) && Escape(c) + x == Escape(d) + y
    ensures c == d && x == y
  {
    hide Escape, ShortCode, Hex4, IsLong, IsPrinted, Unit, LowUnit;
    EscapeShape(c);
    EscapeShape(d);
    assert (Escape(c) + x)[0] == c && (Escape(d) + y)[0] == Escape(d)[0];
    SplitAt(Escape(c), Escape(d), x, y);
  }

  lemma ShortPrefix(c: char, d: char, x: string, y: string)
    requires ShortCode(c).Some? && Escape(c) + x == Escape(d) + y
    ensures c == d && x == y
  {
    hide Escape, ShortCode, Hex4, IsLong, IsPrinted, Unit, LowUnit;
    EscapeShape(c);
    EscapeShape(d);
    assert (Escape(c) + x)[0] == '\\' && (Escape(d) + y)[0] == Escape(d)[0];
    assert (Escape(c) + x)[1] == ShortCode(c).value && (Escape(d) + y)[1] == Escape(d)[1];
    SplitAt(Escape(c), Escape(d), x, y);
    assert Escape(d)[1] == ShortCode(d).value;
    ShortInjective(c, d);
  }

  lemma LongPrefix(c: char, d: char, x: string, y: string)
    requires IsLong(c) && IsLong(d) && Escape(c) + x == Escape(d) + y
    ensures c == d && x == y
  {
    hide Escape, ShortCode, Hex4, IsLong, IsPrinted, Unit, LowUnit;
    EscapeShape(c);
    EscapeShape(d);
    var u, v := "\\u" + Hex4(Unit(c)), "\\u" + Hex4(Unit(d));
    var p, q := Escape(c)[6..], Escape(d)[6..];
    assert Escape(c) + x == u + (p + x) && Escape(d) + y == v + (q + y);
    SplitAt(u, v, p + x, q + y);
    SplitAt("\\u", "\\u", Hex4(Unit(c)), Hex4(Unit(d)));
    Hex4Injective(Unit(c), Unit(d));
    UnitsDetermine(c, d);
    if c as int < 0x10000 {
      assert p + x == x && q + y == y;
    } else {
      assert p == "\\u" + Hex4(LowUnit(c)) && q == "\\u" + Hex4(LowUnit(d));
      SplitAt(p, q, x, y);
      SplitAt("\\u", "\\u", Hex4(LowUnit(c)), Hex4(LowUnit(d)));
      Hex4Injective(LowUnit(c), LowUnit(d));
    }
  }

  /** No escape is a prefix of another one. */
  lemma EscapePrefix(c: char, d: char, x: string, y: string)
    requires Escape(c) + x == Escape(d) + y
    ensures c == d && x == y
  {
    hide Escape, ShortCode, Hex4, IsLong, IsPrinted, Unit, LowUnit;
    EscapeShape(c);
    EscapeShape(d);
    if IsPrinted(c) {
      PrintedPrefix(c, d, x, y);
    } else if IsPrinted(d) {
      PrintedPrefix(d, c, y, x);
    } else if ShortCode(c).Some? {
      ShortPrefix(c, d, x, y);
    } else if ShortCode(d).Some? {
      ShortPrefix(d, c, y, x);
    } else {
      LongPrefix(c, d, x, y);
    }
  }

  lemma {:induction false} EscapeAllPrefix(s: string, t: string, x: string, y: string)
    requires EscapeAll(s) + "\"" + x == EscapeAll(t) + "\"" + y
    ensures s == t && x == y
    decreases |s|
  {
    hide Escape;
    var u, v := EscapeAll(s) + "\"" + x, EscapeAll(t) + "\"" + y;
    if s == "" || t == "" {
      QuoteEnds(s, x);
      QuoteEnds(t, y);
      assert x == u[1..] && y == v[1..];
    } else {
      var p, q := EscapeAll(s[1..]) + "\"" + x, EscapeAll(t[1..]) + "\"" + y;
      assert u == Escape(s[0]) + p && v == Escape(t[0]) + q;
      EscapePrefix(s[0], t[0], p, q);
      EscapeAllPrefix(s[1..], t[1..], x, y);
      assert s == [s[0]] + s[1..] && t == [t[0]] + t[1..];
    }
  }

  /** An escaped string starts with its closing quote exactly when it is empty. */
  lemma QuoteEnds(s: string, x: string)
    ensures (EscapeAll(s) + "\"" + x)[0] == '"' <==> s == ""
  {
    if s != "" {
      EscapeShape(s[0]);
      hide Escape;
      assert (EscapeAll(s) + "\"" + x)[0] == Escape(s[0])[0];
    }
  }

  lemma StringPrefix(s: string, t: string, x: string, y: string)
    requires StringText(s) + x == StringText(t) + y
    ensures s == t && x == y
  {
    hide EscapeAll;
    var u, v := EscapeAll(s) + "\"" + x, EscapeAll(t) + "\"" + y;
    assert StringText(s) + x == "\"" + u && StringText(t) + y == "\"" + v;
    SplitAt("\"", "\"", u, v);
    EscapeAllPrefix(s, t, x, y);
  }

  // ----- tokens -----

  predicate IsDelimiter(c: char) {
    c == ',' || c == ']' || c == '}'
  }

  /** What follows a value: nothing or a delimiter. */
  predicate Follows(x: string) {
    x == "" || IsDelimiter(x[0])
  }

  predicate NoDelimiter(s: string) {
    forall c | c in s :: !IsDelimiter(c)
  }

  lemma TokenPrefix(a: string, b: string, x: string, y: string)
    requires NoDelimiter(a) && NoDelimiter(b) && Follows(x) && Follows(y) && a + x == b + y
    ensures a == b && x == y
  {
    if |a| < |b| {
      RunsInto(a, b, x, y);
    } else if |b| < |a| {
      RunsInto(b, a, y, x);
    }
    SplitAt(a, b, x, y);
  }

  lemma RunsInto(a: string, b: string, x: string, y: string)
    requires NoDelimiter(b) && a + x == b + y && |a| < |b|
    ensures x != "" && !IsDelimiter(x[0])
  {
    assert (a + x)[|a|] == x[0] && (b + y)[|a|] == b[|a|];
  }

  lemma TokenIsPlain(v: Json)
    requires IsToken(v)
    ensures TokenText(v) != "" && NoDelimiter(TokenText(v)) && TokenText(v)[0] !in "\"[{"
  {
    hide Decimal;
    match v
    case Int(i) => IntIsPlain(i);
    case Whole(i) => IntIsPlain(i);
    case _ =>
  }

  /** An integer's text: an optional sign and digits. */
  lemma IntIsPlain(i: int)
    ensures IntText(i) != "" && forall c | c in IntText(i) :: IsDigit(c) || c == '-'
  {
    hide Decimal;
    var digits := Decimal(if i < 0 then -i else i);
    forall c | c in digits ensures IsDigit(c) {
      var k :| 0 <= k < |digits| && digits[k] == c;
    }
  }

  lemma IntInjective(i: int, j: int)
    requires IntText(i) == IntText(j)
    ensures i == j
  {
    hide Decimal;
    DecimalValue(if i < 0 then -i else i);
    DecimalValue(if j < 0 then -j else j);
    assert i < 0 ==> IntText(i)[1..] == Decimal(-i) && IntText(i)[0] == '-';
    assert j < 0 ==> IntText(j)[1..] == Decimal(-j) && IntText(j)[0] == '-';
    assert i >= 0 ==> IsDigit(IntText(i)[0]);
    assert j >= 0 ==> IsDigit(IntText(j)[0]);
  }

  predicate EndsWhole(s: string) {
    |s| >= 2 && s[|s| - 2..] == ".0"
  }

  /** The text of a number shows what kind of number it is. */
  lemma NumberShape(v: Json)
    requires IsToken(v) && !v.Null? && !v.Bool?
    ensures
      var t := TokenText(v);
      t != "" && (t[0] == '-' || IsDigit(t[0])) && (EndsWhole(t) <==> v.Whole?) &&
      (('.' in t || 'e' in t) <==> !v.Int?)
  {
    hide Decimal;
    match v
    case Int(i) =>
      IntIsPlain(i);
      PlainEndsNotWhole(IntText(i));
    case Whole(i) =>
      IntIsPlain(i);
      var t := IntText(i) + ".0";
      assert t[0] == IntText(i)[0] && IntText(i)[0] in IntText(i);
      assert t[|t| - 2..] == ".0" && t[|t| - 2] == '.';
    case Fraction(repr) =>
  }

  lemma PlainEndsNotWhole(s: string)
    requires '.' !in s && s != ""
    ensures !EndsWhole(s) && s[0] in s
  {
    if |s| >= 2 {
      assert s[|s| - 2] in s && s[|s| - 2..][0] == s[|s| - 2];
    }
  }

  lemma TokenInjective(a: Json, b: Json)
    requires IsToken(a) && IsToken(b) && TokenText(a) == TokenText(b)
    ensures a == b
  {
    hide IntText;
    if a.Null? || a.Bool? {
      WordShape(a);
      TokenShape(b);
    } else if b.Null? || b.Bool? {
      WordShape(b);
      TokenShape(a);
    } else {
      hide EndsWhole;
      NumberShape(a);
      NumberShape(b);
      if a.Int? {
        IntInjective(a.i, b.i);
      } else if a.Whole? {
        SplitAtEnd(IntText(a.w), IntText(b.w), ".0");
        IntInjective(a.w, b.w);
      }
    }
  }

  lemma SplitAtEnd(a: string, b: string, x: string)
    requires a + x == b + x
    ensures a == b
  {
    assert |a| == |b|;
    SplitAt(a, b, x, x);
  }

  lemma WordShape(v: Json)
    requires v.Null? || v.Bool?
    ensures TokenText(v)[0] == match v case Null => 'n' case Bool(b) => if b then 't' else 'f' case _ => ' '
  {
  }

  lemma TokenShape(v: Json)
    requires IsToken(v)
    ensures v.Null? || v.Bool? || TokenText(v)[0] == '-' || IsDigit(TokenText(v)[0])
    ensures v.Null? || v.Bool? ==> TokenText(v)[0] == match v case Null => 'n' case Bool(b) => if b then 't' else 'f' case _ => ' '
  {
    hide EndsWhole, IntText;
    if !v.Null? && !v.Bool? {
      NumberShape(v);
    }
  }

  // ----- values -----

  /** The first character shows whether a value is a string, a list, an object or a token. */
  lemma FirstCharacter(v: Json)
    ensures
      var t := Canonical(v);
      t != "" && (t[0] == '"' <==> v.Str?) && (t[0] == '[' <==> v.Arr?) && (t[0] == '{' <==> v.Obj?)
  {
    hide TokenText, ItemsText, FieldsText, EscapeAll, SortedStrings;
    if IsToken(v) {
      TokenIsPlain(v);
    }
  }

  /**
   * Before a delimiter or the end, a value's text is never a prefix of another value's: two
   * texts that go on equally belong to equal values.
   */
  lemma {:induction false} CanonicalPrefix(a: Json, b: Json, x: string, y: string)
    requires Follows(x) && Follows(y) && Canonical(a) + x == Canonical(b) + y
    ensures a == b && x == y
    decreases a, 1, 0
  {
    hide Canonical, StringText, ItemsText, FieldsText, TokenText, SortedStrings;
    FirstCharacter(a);
    FirstCharacter(b);
    assert (Canonical(a) + x)[0] == Canonical(a)[0] && (Canonical(b) + y)[0] == Canonical(b)[0];
    CanonicalIs(a);
    CanonicalIs(b);
    if a.Str? {
      StringPrefix(a.s, b.s, x, y);
    } else if a.Arr? {
      var u, v := ItemsText(a, 0), ItemsText(b, 0);
      assert "[" + u + x == "[" + (u + x) && "[" + v + y == "[" + (v + y);
      SplitAt("[", "[", u + x, v + y);
      ItemsPrefix(a, b, 0, x, y);
    } else if a.Obj? {
      var k, l := SortedStrings(a.fields.Keys), SortedStrings(b.fields.Keys);
      KeysInFields(a, k);
      KeysInFields(b, l);
      var u, v := FieldsText(a, k, 0), FieldsText(b, l, 0);
      assert "{" + u + x == "{" + (u + x) && "{" + v + y == "{" + (v + y);
      SplitAt("{", "{", u + x, v + y);
      FieldsPrefix(a, b, k, l, 0, x, y);
      SameFields(a.fields, b.fields, k);
    } else {
      TokenIsPlain(a);
      TokenIsPlain(b);
      TokenPrefix(TokenText(a), TokenText(b), x, y);
      TokenInjective(a, b);
    }
  }

  lemma KeysInFields(v: Json, keys: seq<string>)
    requires v.Obj? && Elements(keys) == v.fields.Keys
    ensures forall k | k in keys :: k in v.fields
  {
    assert forall k | k in keys :: k in Elements(keys);
  }

  lemma CanonicalIs(v: Json)
    ensures v.Str? ==> Canonical(v) == StringText(v.s)
    ensures v.Arr? ==> Canonical(v) == "[" + ItemsText(v, 0)
    ensures v.Obj? ==>
              (forall k | k in SortedStrings(v.fields.Keys) :: k in v.fields) &&
              Canonical(v) == "{" + FieldsText(v, SortedStrings(v.fields.Keys), 0)
    ensures IsToken(v) ==> Canonical(v) == TokenText(v)
  {
    hide StringText, ItemsText, FieldsText, TokenText;
    if v.Obj? {
      KeysInFields(v, SortedStrings(v.fields.Keys));
    }
  }

  lemma SameFields(a: Fields, b: Fields, keys: seq<string>)
    requires Elements(keys) == a.Keys == b.Keys && forall k | k in keys :: k in a && k in b && a[k] == b[k]
    ensures a == b
  {
    forall k | k in a ensures a[k] == b[k] {
      assert k in Elements(keys);
    }
  }

  /** What follows the items from `from` on opens with a comma or the closing bracket. */
  lemma ItemsOpen(v: Json, from: nat)
    requires v.Arr? && from <= |v.items|
    ensures
      var t := ItemsText(v, from);
      if from == |v.items| then t == "]"
      else
        var rest := Canonical(v.items[from]) + ItemsText(v, from + 1);
        t == (if from == 0 then "" else ",") + rest
    ensures from > 0 ==> Follows(ItemsText(v, from))
  {
    hide Canonical;
    if from < |v.items| {
      var c, i, r := if from == 0 then "" else ",", Canonical(v.items[from]), ItemsText(v, from + 1);
      assert c + i + r == c + (i + r);
    }
  }

  lemma {:induction false} ItemsPrefix(a: Json, b: Json, from: nat, x: string, y: string)
    requires a.Arr? && b.Arr? && from <= |a.items| && from <= |b.items| && a.items[..from] == b.items[..from]
    requires ItemsText(a, from) + x == ItemsText(b, from) + y
    ensures a == b && x == y
    decreases a, 0, |a.items| - from
  {
    hide Canonical, ItemsText;
    ItemsOpen(a, from);
    ItemsOpen(b, from);
    ItemsFirst(a, from, x);
    ItemsFirst(b, from, y);
    if from == |a.items| || from == |b.items| {
      SplitAt("]", "]", x, y);
      assert a.items == a.items[..from] && b.items == b.items[..from];
    } else {
      var comma := if from == 0 then "" else ",";
      var i, j := Canonical(a.items[from]), Canonical(b.items[from]);
      var p, q := ItemsText(a, from + 1), ItemsText(b, from + 1);
      assert comma + (i + p) + x == comma + (i + (p + x)) && comma + (j + q) + y == comma + (j + (q + y));
      SplitAt(comma, comma, i + (p + x), j + (q + y));
      ItemsOpen(a, from + 1);
      ItemsOpen(b, from + 1);
      FollowsBefore(p, x);
      FollowsBefore(q, y);
      CanonicalPrefix(a.items[from], b.items[from], p + x, q + y);
      assert a.items[..from + 1] == a.items[..from] + [a.items[from]];
      assert b.items[..from + 1] == b.items[..from] + [b.items[from]];
      ItemsPrefix(a, b, from + 1, x, y);
    }
  }

  lemma FollowsBefore(p: string, x: string)
    requires p != "" && Follows(p)
    ensures Follows(p + x)
  {
    assert (p + x)[0] == p[0];
  }

  /** The list ends at `from` exactly when the closing bracket stands there. */
  lemma ItemsFirst(v: Json, from: nat, x: string)
    requires v.Arr? && from <= |v.items|
    ensures ItemsText(v, from) != "" && ((ItemsText(v, from) + x)[0] == ']' <==> from == |v.items|)
  {
    hide Canonical, ItemsText;
    ItemsOpen(v, from);
    var t := ItemsText(v, from);
    if from < |v.items| {
      NoValueOpensWithDelimiter(v.items[from]);
      assert from == 0 ==> t[0] == Canonical(v.items[from])[0];
    }
    assert (t + x)[0] == t[0];
  }

  lemma NoValueOpensWithDelimiter(v: Json)
    ensures Canonical(v) != "" && !IsDelimiter(Canonical(v)[0])
  {
    hide TokenText, ItemsText, FieldsText, EscapeAll, SortedStrings;
    if IsToken(v) {
      TokenIsPlain(v);
      assert TokenText(v)[0] in TokenText(v);
    }
  }

  lemma FieldsOpen(v: Json, keys: seq<string>, from: nat)
    requires v.Obj? && from <= |keys| && forall k | k in keys :: k in v.fields
    ensures
      var t := FieldsText(v, keys, from);
      if from == |keys| then t == "}"
      else
        var rest := Canonical(v.fields[keys[from]]) + FieldsText(v, keys, from + 1);
        t == (if from == 0 then "" else ",") + (StringText(keys[from]) + (":" + rest))
    ensures from > 0 ==> Follows(FieldsText(v, keys, from))
    ensures FieldsText(v, keys, from) != "" && (FieldsText(v, keys, from)[0] == '}' <==> from == |keys|)
  {
    hide Canonical, EscapeAll;
    if from < |keys| {
      var c, k := if from == 0 then "" else ",", StringText(keys[from]);
      var i, r := Canonical(v.fields[keys[from]]), FieldsText(v, keys, from + 1);
      assert c + k + ":" + i + r == c + (k + (":" + (i + r)));
      assert from == 0 ==> FieldsText(v, keys, from)[0] == k[0];
    }
  }

  lemma {:induction false} FieldsPrefix(a: Json, b: Json, k: seq<string>, l: seq<string>, from: nat, x: string, y: string)
    requires a.Obj? && b.Obj? && from <= |k| && from <= |l| && k[..from] == l[..from]
    requires (forall key | key in k :: key in a.fields) && forall key | key in l :: key in b.fields
    requires forall i | 0 <= i < from :: a.fields[k[i]] == b.fields[k[i]]
    requires FieldsText(a, k, from) + x == FieldsText(b, l, from) + y
    ensures k == l && x == y && forall i | 0 <= i < |k| :: a.fields[k[i]] == b.fields[k[i]]
    decreases a, 0, |k| - from
  {
    hide Canonical, FieldsText, StringText;
    FieldsOpen(a, k, from);
    FieldsOpen(b, l, from);
    var s, t := FieldsText(a, k, from), FieldsText(b, l, from);
    assert (s + x)[0] == s[0] && (t + y)[0] == t[0];
    if from == |k| || from == |l| {
      SplitAt("}", "}", x, y);
      assert k == k[..from] && l == l[..from];
    } else {
      var comma := if from == 0 then "" else ",";
      var i, j := Canonical(a.fields[k[from]]), Canonical(b.fields[l[from]]);
      var p, q := FieldsText(a, k, from + 1), FieldsText(b, l, from + 1);
      Regroup(comma, StringText(k[from]), i, p, x);
      Regroup(comma, StringText(l[from]), j, q, y);
      FieldsOpen(a, k, from + 1);
      FieldsOpen(b, l, from + 1);
      FollowsBefore(p, x);
      FollowsBefore(q, y);
      SplitAt(comma, comma, StringText(k[from]) + (":" + (i + (p + x))), StringText(l[from]) + (":" + (j + (q + y))));
      StringPrefix(k[from], l[from], ":" + (i + (p + x)), ":" + (j + (q + y)));
      SplitAt(":", ":", i + (p + x), j + (q + y));
      assert k[from] in k;
      CanonicalPrefix(a.fields[k[from]], b.fields[l[from]], p + x, q + y);
      assert k[..from + 1] == k[..from] + [k[from]] && l[..from + 1] == l[..from] + [l[from]];
      FieldsPrefix(a, b, k, l, from + 1, x, y);
    }
  }

  lemma Regroup(comma: string, key: string, i: string, p: string, x: string)
    ensures comma + (key + (":" + (i + p))) + x == comma + (key + (":" + (i + (p + x))))
  {
    assert i + p + x == i + (p + x);
    assert ":" + (i + p) + x == ":" + (i + p + x);
    assert key + (":" + (i + p)) + x == key + (":" + (i + p) + x);
    assert comma + (key + (":" + (i + p))) + x == comma + (key + (":" + (i + p)) + x);
  }

  /** The canonical text determines the value. */
  lemma CanonicalInjective(a: Json, b: Json)
    requires Canonical(a) == Canonical(b)
    ensures a == b
  {
    hide Canonical;
    CanonicalPrefix(a, b, "", "");
  }

  // ----- the codec of the source -----

  function JsonCodec(sha256: string -> string): Codec {
    Codec(Canonical, sha256)
  }

  /** With any digest function that gives 64 hexadecimal digits, the source's own encoding is a valid codec. */
  lemma JsonCodecIsValid(sha256: string -> string)
    requires forall text :: IsHex(sha256(text), 64)
    ensures JsonCodec(sha256).Valid()
  {
    hide Canonical;
    var codec := JsonCodec(sha256);
    forall a, b | codec.canonical(a) == codec.canonical(b) ensures a == b {
      CanonicalInjective(a, b);
    }
  }
}
