/** The canonical text of a value, in words: escapes, separators, key order and numbers. */
module CanonicalMeaning {
  import opened CanonicalJson
  import opened HashMeaning
  import opened JsonTree
  import opened Lists
  import opened OracleRecords
  import opened Sorting
  import opened Text

  // ----- characters -----

  /** The seven characters with a two-character escape, and what follows the backslash. */
  const SHORT: seq<(char, char)> :=
    [('"', '"'), ('\\', '\\'), ('\n', 'n'), ('\r', 'r'), ('\t', 't'), ('\U{0C}', 'f'), ('\U{08}', 'b')]

  predicate IsPlainText(c: char) {
    32 <= c as int <= 126 && c as int != 34 && c as int != 92
  }

  lemma FourDigits(n: nat)
    requires n < 0x10000
    ensures Hex4(n) == Digits(n, 4)
  {
    forall k: nat | k < 16 ensures HexDigit(k) == HEXADECIMAL[k] {
    }
    hide HexDigit;
    var a := n / 16;
    var b := a / 16;
    assert Digits(b / 16, 1) == Digits(b / 16 / 16, 0) + [HEXADECIMAL[b / 16 % 16]];
    assert b / 16 % 16 == b / 16 && b % 16 < 16 && a % 16 < 16 && n % 16 < 16;
    assert Digits(b, 2) == Digits(b / 16, 1) + [HEXADECIMAL[b % 16]];
    assert Digits(a, 3) == Digits(b, 2) + [HEXADECIMAL[a % 16]];
    assert Digits(n, 4) == Digits(a, 3) + [HEXADECIMAL[n % 16]];
  }

  /** Printable ASCII stands for itself, seven characters have a short escape, the others four digits a unit. */
  lemma EscapeInWords(c: char)
    ensures forall i | 0 <= i < |SHORT| :: c == SHORT[i].0 ==> Escape(c) == ['\\', SHORT[i].1]
    ensures IsPlainText(c) ==> Escape(c) == [c]
    ensures (forall i | 0 <= i < |SHORT| :: c != SHORT[i].0) && !IsPlainText(c) ==>
              if c as int < 0x10000 then Escape(c) == "\\u" + Digits(c as int, 4)
              else exists high: nat, low: nat ::
                     0xD800 <= high < 0xDC00 && 0xDC00 <= low < 0xE000 &&
                     c as int == 0x10000 + (high - 0xD800) * 1024 + (low - 0xDC00) &&
                     Escape(c) == "\\u" + Digits(high, 4) + "\\u" + Digits(low, 4)
  {
    hide Hex4, Digits;
    if c as int < 0x10000 {
      FourDigits(c as int);
    } else {
      var n := c as int - 0x10000;
      var high, low := 0xD800 + n / 1024, 0xDC00 + n % 1024;
      FourDigits(high);
      FourDigits(low);
      assert c as int == 0x10000 + (high - 0xD800) * 1024 + (low - 0xDC00);
    }
    if (forall i | 0 <= i < |SHORT| :: c != SHORT[i].0) && !IsPlainText(c) {
      NoShortCode(c);
    }
  }

  lemma NoShortCode(c: char)
    requires forall i | 0 <= i < |SHORT| :: c != SHORT[i].0
    ensures ShortCode(c).None?
  {
    assert c != SHORT[0].0 && c != SHORT[1].0 && c != SHORT[2].0 && c != SHORT[3].0 && c != SHORT[4].0;
    assert c != SHORT[5].0 && c != SHORT[6].0;
  }

  /** The text in quotes, one character after another. */
  lemma {:induction false} StringInWords(s: string, c: char)
    ensures StringText("") == "\"\""
    ensures StringText(s + [c]) == StringText(s)[..|StringText(s)| - 1] + Escape(c) + "\""
  {
    hide Escape;
    EscapeLast(s, c);
  }

  lemma {:induction false} EscapeLast(s: string, c: char)
    ensures EscapeAll(s + [c]) == EscapeAll(s) + Escape(c)
  {
    hide Escape;
    var all := s + [c];
    if s == "" {
      assert all[1..] == "";
    } else {
      assert all[1..] == s[1..] + [c];
      EscapeLast(s[1..], c);
    }
  }

  // ----- numbers -----

  lemma DecimalInWords(n: nat)
    ensures Decimal(n) == (if n < 10 then "" else Decimal(n / 10)) + ["0123456789"[n % 10]]
  {
    var d := n % 10;
    assert "0123456789"[d] as int == 48 + d;
  }

  lemma TokensInWords(v: Json)
    ensures v.Null? ==> Canonical(v) == "null"
    ensures v.Bool? ==> Canonical(v) == if v.b then "true" else "false"
    ensures v.Int? ==> Canonical(v) == if v.i >= 0 then Decimal(v.i) else "-" + Decimal(-v.i)
    ensures v.Whole? ==> Canonical(v) == (if v.w >= 0 then Decimal(v.w) else "-" + Decimal(-v.w)) + ".0"
    ensures v.Fraction? ==> Canonical(v) == v.repr
  {
  }

  // ----- lists and objects -----

  function Join(parts: seq<string>): string {
    if parts == [] then "" else if |parts| == 1 then parts[0] else parts[0] + "," + Join(parts[1..])
  }

  function ItemTexts(v: Json, from: nat): seq<string>
    requires v.Arr? && from <= |v.items|
  {
    seq(|v.items| - from, i requires 0 <= i < |v.items| - from => Canonical(v.items[from + i]))
  }

  function FieldTexts(v: Json, keys: seq<string>, from: nat): seq<string>
    requires v.Obj? && from <= |keys| && forall k | k in keys :: k in v.fields
  {
    seq(|keys| - from, i requires 0 <= i < |keys| - from =>
      StringText(keys[from + i]) + ":" + Canonical(v.fields[keys[from + i]]))
  }

  /** What follows the opening bracket, or the last item before `from`. */
  lemma {:induction false} ItemsJoin(v: Json, from: nat)
    requires v.Arr? && from <= |v.items|
    ensures ItemsText(v, from) ==
            (if 0 < from < |v.items| then "," else "") + Join(ItemTexts(v, from)) + "]"
    decreases |v.items| - from
  {
    hide Canonical;
    if from < |v.items| {
      ItemsJoin(v, from + 1);
      assert ItemTexts(v, from)[1..] == ItemTexts(v, from + 1);
      assert ItemTexts(v, from)[0] == Canonical(v.items[from]);
    }
  }

  lemma {:induction false} FieldsJoin(v: Json, keys: seq<string>, from: nat)
    requires v.Obj? && from <= |keys| && forall k | k in keys :: k in v.fields
    ensures FieldsText(v, keys, from) ==
            (if 0 < from < |keys| then "," else "") + Join(FieldTexts(v, keys, from)) + "}"
    decreases |keys| - from
  {
    hide Canonical, StringText, FieldTexts;
    if from < |keys| {
      FieldsJoin(v, keys, from + 1);
      FieldsStep(v, keys, from);
    } else {
      FieldCount(v, keys, from);
    }
  }

  lemma FieldsStep(v: Json, keys: seq<string>, from: nat)
    requires v.Obj? && from < |keys| && forall k | k in keys :: k in v.fields
    requires FieldsText(v, keys, from + 1) ==
             (if from + 1 < |keys| then "," else "") + Join(FieldTexts(v, keys, from + 1)) + "}"
    ensures FieldsText(v, keys, from) == (if 0 < from then "," else "") + Join(FieldTexts(v, keys, from)) + "}"
  {
    hide Canonical, StringText, FieldTexts, Join;
    var name, value, rest := StringText(keys[from]), Canonical(v.fields[keys[from]]), FieldTexts(v, keys, from + 1);
    FirstField(v, keys, from);
    FieldCount(v, keys, from + 1);
    JoinFirst(name + ":" + value, rest);
    Chain(if from == 0 then "" else ",", name, value, if from + 1 < |keys| then "," else "", Join(rest));
  }

  lemma Chain(comma: string, name: string, value: string, more: string, rest: string)
    ensures comma + name + ":" + value + (more + rest + "}") == comma + (name + ":" + value + more + rest) + "}"
  {
  }

  lemma FieldCount(v: Json, keys: seq<string>, from: nat)
    requires v.Obj? && from <= |keys| && forall k | k in keys :: k in v.fields
    ensures |FieldTexts(v, keys, from)| == |keys| - from
  {
  }

  lemma FirstField(v: Json, keys: seq<string>, from: nat)
    requires v.Obj? && from < |keys| && forall k | k in keys :: k in v.fields
    ensures FieldTexts(v, keys, from) ==
            [StringText(keys[from]) + ":" + Canonical(v.fields[keys[from]])] + FieldTexts(v, keys, from + 1)
  {
    hide Canonical, StringText;
  }

  lemma JoinFirst(part: string, rest: seq<string>)
    ensures Join([part] + rest) == part + (if rest == [] then "" else ",") + Join(rest)
  {
    assert ([part] + rest)[1..] == rest;
  }

  lemma ListInWords(v: Json)
    requires v.Arr?
    ensures Canonical(v) == "[" + Join(ItemTexts(v, 0)) + "]"
  {
    hide ItemsText, Join, ItemTexts;
    ItemsJoin(v, 0);
  }

  /** The members of an object in the order of their keys. */
  lemma ObjectInWords(v: Json) returns (keys: seq<string>)
    requires v.Obj?
    ensures forall k :: k in keys <==> k in v.fields
    ensures forall i, j | 0 <= i < j < |keys| :: keys[i] != keys[j] && StringLeq(keys[i], keys[j])
    ensures Canonical(v) == "{" + Join(FieldTexts(v, keys, 0)) + "}"
  {
    hide Join, FieldTexts, StringLeq, Canonical, FieldsText, StringText;
    keys := SortedStrings(v.fields.Keys);
    SortedKeys(v.fields.Keys);
    KeysInFields(v, keys);
    FieldsJoin(v, keys, 0);
    CanonicalIs(v);
    Enclosed("{", Join(FieldTexts(v, keys, 0)), "}");
  }

  lemma SortedKeys(keys: set<string>)
    ensures forall k :: k in SortedStrings(keys) <==> k in keys
    ensures forall i, j | 0 <= i < j < |SortedStrings(keys)| ::
              SortedStrings(keys)[i] != SortedStrings(keys)[j] && StringLeq(SortedStrings(keys)[i], SortedStrings(keys)[j])
  {
    hide StringLeq;
    assert forall k :: k in SortedStrings(keys) <==> k in Elements(SortedStrings(keys));
  }

  lemma Enclosed(open: string, text: string, close: string)
    ensures open + ("" + text + close) == open + text + close
  {
    assert "" + text == text;
  }

  lemma TextInWords(v: Json)
    requires v.Str?
    ensures Canonical(v) == StringText(v.s)
  {
  }
}
