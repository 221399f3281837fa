/** JSON values as Python holds them after `json.loads`, and the two equalities Python code uses on them. */
module JsonTree {
  /** The shortest decimal text of a float that does not end on `.0`, such as `-0.5`, `1e-07` or `1e+16`. */
  type FloatText = s: string | IsFloatText(s) witness "0.5"

  predicate IsFloatText(s: string) {
    s != "" && (forall c | c in s :: '0' <= c <= '9' || c in "-+.e") && (s[0] == '-' || '0' <= s[0] <= '9') &&
    ('.' in s || 'e' in s) && !(|s| >= 2 && s[|s| - 2..] == ".0")
  }

  /** The integral values whose float Python writes without an exponent. */
  type Integral = i: int | -10_000_000_000_000_000 < i < 10_000_000_000_000_000

  /** `Whole` is a float of such a value, written like `2.0`, and `Fraction` any other finite float. */
  datatype Json =
    | Null
    | Bool(b: bool)
    | Int(i: int)
    | Whole(w: Integral)
    | Fraction(repr: FloatText)
    | Str(s: string)
    | Arr(items: seq<Json>)
    | Obj(fields: Fields)

  type Fields = map<string, Json>

  /** `fields.get(key)`. */
  function Get(fields: Fields, key: string): Json {
    if key in fields then fields[key] else Null
  }

  /** `isinstance(v, str) and v`. */
  predicate IsText(v: Json) {
    v.Str? && v.s != ""
  }

  /** The value with booleans and integral floats read as the integers they equal. */
  function Norm(v: Json): Json {
    match v
    case Bool(b) => Int(if b then 1 else 0)
    case Whole(i) => Int(i)
    case Arr(items) => Arr(seq(|items|, i requires 0 <= i < |items| => Norm(items[i])))
    case Obj(fields) => Obj(map k | k in fields :: Norm(fields[k]))
    case _ => v
  }

  /** Python's `a == b`: `True == 1`, `1.0 == 1`, element by element in lists and dictionaries. */
  predicate PyEq(a: Json, b: Json) {
    Norm(a) == Norm(b)
  }

  /** Nothing in the value equals a value of another type. */
  predicate Plain(v: Json) {
    match v
    case Bool(_) => false
    case Whole(_) => false
    case Arr(items) => forall i | 0 <= i < |items| :: Plain(items[i])
    case Obj(fields) => forall k | k in fields :: Plain(fields[k])
    case _ => true
  }

  /** On values without booleans and integral floats, Python's equality is equality. */
  lemma {:induction false} PlainEquality(a: Json, b: Json)
    requires Plain(a) && Plain(b)
    ensures PyEq(a, b) <==> a == b
  {
    if PyEq(a, b) {
      match a
      case Arr(items) =>
        assert b.Arr?;
        NormItems(a, b);
        forall i | 0 <= i < |items| ensures items[i] == b.items[i] {
          PlainEquality(items[i], b.items[i]);
        }
        assert items == b.items;
      case Obj(fields) =>
        assert b.Obj?;
        NormFields(a, b);
        forall k | k in fields ensures fields[k] == b.fields[k] {
          PlainEquality(fields[k], b.fields[k]);
        }
        assert fields == b.fields;
      case _ =>
    }
  }

  lemma NormItems(a: Json, b: Json)
    requires a.Arr? && b.Arr? && PyEq(a, b)
    ensures |a.items| == |b.items| && forall i | 0 <= i < |a.items| :: PyEq(a.items[i], b.items[i])
  {
    assert |Norm(a).items| == |a.items| && |Norm(b).items| == |b.items|;
    forall i | 0 <= i < |a.items| ensures PyEq(a.items[i], b.items[i]) {
      assert Norm(a).items[i] == Norm(a.items[i]) && Norm(b).items[i] == Norm(b.items[i]);
    }
  }

  lemma NormFields(a: Json, b: Json)
    requires a.Obj? && b.Obj? && PyEq(a, b)
    ensures a.fields.Keys == b.fields.Keys && forall k | k in a.fields :: PyEq(a.fields[k], b.fields[k])
  {
    assert Norm(a).fields.Keys == a.fields.Keys && Norm(b).fields.Keys == b.fields.Keys;
    forall k | k in a.fields ensures PyEq(a.fields[k], b.fields[k]) {
      assert Norm(a).fields[k] == Norm(a.fields[k]) && Norm(b).fields[k] == Norm(b.fields[k]);
    }
  }

  /** Texts and integers are their own normal form, so Python's equality on them is equality. */
  lemma AtomEquality(a: Json, b: Json)
    requires (a.Str? || a.Int? || a.Null?) && (b.Str? || b.Int? || b.Null?)
    ensures PyEq(a, b) <==> a == b
  {
  }

  // ----- types -----

  datatype Kind = NoneType | Boolean | Integer | Float | Text | List | Dict

  /** `type(v)`. */
  function TypeOf(v: Json): Kind {
    match v
    case Null => NoneType
    case Bool(_) => Boolean
    case Int(_) => Integer
    case Whole(_) => Float
    case Fraction(_) => Float
    case Str(_) => Text
    case Arr(_) => List
    case Obj(_) => Dict
  }
}
