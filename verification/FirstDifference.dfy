/** `first_difference`: where two JSON trees first differ. */
module FirstDifference {
  import opened JsonTree
  import opened Lists
  import opened Sorting
  import opened Text

  datatype Step = Field(name: string) | Index(at: nat) | Length

  /** A path below the roots, kept structured where the source prints it. */
  type Path = seq<Step>

  function Difference(expected: Json, actual: Json, path: Path): Option<Path>
    decreases expected, 1, 0
  {
    if TypeOf(expected) != TypeOf(actual) then Some(path)
    else if expected.Obj? then
      DifferenceInFields(expected, actual, SortedStrings(expected.fields.Keys + actual.fields.Keys), path)
    else if expected.Arr? then
      if |expected.items| != |actual.items| then Some(path + [Length])
      else DifferenceInItems(expected, actual, 0, path)
    else if expected != actual then Some(path)
    else None
  }

  function DifferenceInFields(expected: Json, actual: Json, keys: seq<string>, path: Path): Option<Path>
    requires expected.Obj? && actual.Obj?
    decreases expected, 0, |keys|
  {
    if keys == [] then None
    else
      var key := keys[0];
      var child := path + [Field(key)];
      if key !in expected.fields || key !in actual.fields then Some(child)
      else
        var difference := Difference(expected.fields[key], actual.fields[key], child);
        if difference.Some? then difference else DifferenceInFields(expected, actual, keys[1..], path)
  }

  function DifferenceInItems(expected: Json, actual: Json, from: nat, path: Path): Option<Path>
    requires expected.Arr? && actual.Arr? && |expected.items| == |actual.items| && from <= |expected.items|
    decreases expected, 0, |expected.items| - from
  {
    if from == |expected.items| then None
    else
      var difference := Difference(expected.items[from], actual.items[from], path + [Index(from)]);
      if difference.Some? then difference else DifferenceInItems(expected, actual, from + 1, path)
  }

  /**
   * `path` leads to the first real difference: every step before the last exists in both
   * trees, all that precedes it in reading order is equal, and at its end a key is in one
   * tree only, two lists have different lengths, or two values differ in type or as scalars.
   */
  ghost predicate FirstDiffersAt(expected: Json, actual: Json, path: Path)
    decreases path
  {
    if path == [] then
      TypeOf(expected) != TypeOf(actual) || (!expected.Obj? && !expected.Arr? && expected != actual)
    else match path[0]
      case Field(key) =>
        expected.Obj? && actual.Obj? && EqualBefore(expected.fields, actual.fields, key) &&
        if key in expected.fields && key in actual.fields
        then FirstDiffersAt(expected.fields[key], actual.fields[key], path[1..])
        else path == [Field(key)] && (key in expected.fields || key in actual.fields)
      case Index(at) =>
        expected.Arr? && actual.Arr? && at < |expected.items| == |actual.items| &&
        expected.items[..at] == actual.items[..at] &&
        FirstDiffersAt(expected.items[at], actual.items[at], path[1..])
      case Length =>
        expected.Arr? && actual.Arr? && path == [Length] && |expected.items| != |actual.items|
  }

  ghost predicate EqualBefore(expected: Fields, actual: Fields, key: string) {
    forall k | k in expected.Keys + actual.Keys && StringLeq(k, key) && k != key :: EqualAt(expected, actual, k)
  }

  ghost predicate EqualAt(expected: Fields, actual: Fields, key: string) {
    key in expected && key in actual && expected[key] == actual[key]
  }

  /** The outcome of a comparison started at `path`. */
  ghost predicate Exact(expected: Json, actual: Json, path: Path, outcome: Option<Path>) {
    match outcome
    case None => expected == actual
    case Some(full) => path <= full && FirstDiffersAt(expected, actual, full[|path|..])
  }

  lemma {:induction false} DiffersIsUnequal(expected: Json, actual: Json, path: Path)
    requires FirstDiffersAt(expected, actual, path)
    ensures expected != actual
    decreases path
  {
    if path != [] {
      match path[0]
      case Field(key) =>
        if key in expected.fields && key in actual.fields {
          DiffersIsUnequal(expected.fields[key], actual.fields[key], path[1..]);
        }
      case Index(at) => DiffersIsUnequal(expected.items[at], actual.items[at], path[1..]);
      case Length =>
    }
  }

  lemma Below(path: Path, step: Step, full: Path)
    requires path + [step] <= full
    ensures path <= full && full[|path|..] == [step] + full[|path + [step]|..]
  {
    assert full[|path|] == (path + [step])[|path|];
  }

  /** No difference is reported exactly for equal trees; a reported one is the first real one. */
  lemma {:induction false} DifferenceExact(expected: Json, actual: Json, path: Path)
    ensures Exact(expected, actual, path, Difference(expected, actual, path))
    ensures Difference(expected, actual, path).None? <==> expected == actual
    decreases expected, 2, 0
  {
    hide FirstDiffersAt, SortedStrings;
    var outcome := Difference(expected, actual, path);
    DifferenceIsExact(expected, actual, path);
    if outcome.Some? {
      DiffersIsUnequal(expected, actual, outcome.value[|path|..]);
    }
  }

  lemma {:induction false} DifferenceIsExact(expected: Json, actual: Json, path: Path)
    ensures Exact(expected, actual, path, Difference(expected, actual, path))
    decreases expected, 1, 0
  {
    hide FirstDiffersAt, EqualBefore, Exact, SortedStrings, StringLeq, DifferenceInFields, DifferenceInItems;
    if TypeOf(expected) != TypeOf(actual) {
      DiffersHere(expected, actual, path);
    } else if expected.Obj? {
      var keys := SortedStrings(expected.fields.Keys + actual.fields.Keys);
      FieldsExact(expected, actual, keys, 0, path);
      assert keys[0..] == keys;
    } else if expected.Arr? {
      if |expected.items| == |actual.items| {
        ItemsExact(expected, actual, 0, path);
      } else {
        LengthDiffers(expected, actual, path);
      }
    } else if expected != actual {
      DiffersHere(expected, actual, path);
    } else {
      EqualIsExact(expected, actual, path);
    }
  }

  lemma EqualIsExact(expected: Json, actual: Json, path: Path)
    requires expected == actual
    ensures Exact(expected, actual, path, None)
  {
  }

  lemma DiffersHere(expected: Json, actual: Json, path: Path)
    requires TypeOf(expected) != TypeOf(actual) || (!expected.Obj? && !expected.Arr? && expected != actual)
    ensures Exact(expected, actual, path, Some(path))
  {
    assert path[|path|..] == [];
  }

  lemma LengthDiffers(expected: Json, actual: Json, path: Path)
    requires expected.Arr? && actual.Arr? && |expected.items| != |actual.items|
    ensures Exact(expected, actual, path, Some(path + [Length]))
  {
    assert (path + [Length])[|path|..] == [Length];
  }

  lemma {:induction false} FieldsExact(expected: Json, actual: Json, keys: seq<string>, from: nat, path: Path)
    requires expected.Obj? && actual.Obj? && from <= |keys|
    requires Sorted(StringLeq, keys) && Distinct(keys) && Elements(keys) == expected.fields.Keys + actual.fields.Keys
    requires forall i | 0 <= i < from :: EqualAt(expected.fields, actual.fields, keys[i])
    ensures Exact(expected, actual, path, DifferenceInFields(expected, actual, keys[from..], path))
    decreases expected, 0, |keys| - from
  {
    hide FirstDiffersAt, Difference, SortedStrings, EqualBefore, StringLeq, Sorted, Exact;
    if from == |keys| {
      AllFieldsEqual(expected.fields, actual.fields, keys);
      EqualIsExact(expected, actual, path);
      return;
    }
    var key := keys[from];
    assert key in Elements(keys);
    FirstUnequalKey(expected.fields, actual.fields, keys, from);
    assert keys[from..][0] == key && keys[from..][1..] == keys[from + 1..];
    if key in expected.fields && key in actual.fields {
      var difference := Difference(expected.fields[key], actual.fields[key], path + [Field(key)]);
      DifferenceExact(expected.fields[key], actual.fields[key], path + [Field(key)]);
      if difference.Some? {
        DiffersInField(expected, actual, key, path, difference.value);
      } else {
        FieldsExact(expected, actual, keys, from + 1, path);
      }
    } else {
      KeyDiffers(expected, actual, key, path);
    }
  }

  lemma AllFieldsEqual(expected: Fields, actual: Fields, keys: seq<string>)
    requires Elements(keys) == expected.Keys + actual.Keys
    requires forall i | 0 <= i < |keys| :: EqualAt(expected, actual, keys[i])
    ensures expected == actual
  {
    forall k | k in expected.Keys + actual.Keys ensures EqualAt(expected, actual, k) {
      assert k in Elements(keys);
    }
    assert expected.Keys == actual.Keys;
  }

  lemma FirstUnequalKey(expected: Fields, actual: Fields, keys: seq<string>, from: nat)
    requires from < |keys| && Elements(keys) == expected.Keys + actual.Keys
    requires Sorted(StringLeq, keys) && Distinct(keys)
    requires forall i | 0 <= i < from :: EqualAt(expected, actual, keys[i])
    ensures EqualBefore(expected, actual, keys[from])
  {
    hide StringLeq, EqualAt;
    var key := keys[from];
    forall k | k in expected.Keys + actual.Keys && StringLeq(k, key) && k != key ensures EqualAt(expected, actual, k) {
      assert k in Elements(keys);
      var i :| 0 <= i < |keys| && keys[i] == k;
      if i > from {
        StringLeqAntisymmetric(key, k);
      }
    }
  }

  lemma DiffersInField(expected: Json, actual: Json, key: string, path: Path, full: Path)
    requires expected.Obj? && actual.Obj? && EqualBefore(expected.fields, actual.fields, key)
    requires key in expected.fields && key in actual.fields
    requires Exact(expected.fields[key], actual.fields[key], path + [Field(key)], Some(full))
    ensures Exact(expected, actual, path, Some(full))
  {
    hide EqualBefore;
    Below(path, Field(key), full);
  }

  lemma KeyDiffers(expected: Json, actual: Json, key: string, path: Path)
    requires expected.Obj? && actual.Obj? && EqualBefore(expected.fields, actual.fields, key)
    requires (key in expected.fields) != (key in actual.fields)
    ensures Exact(expected, actual, path, Some(path + [Field(key)]))
  {
    hide EqualBefore;
    assert (path + [Field(key)])[|path|..] == [Field(key)];
  }

  lemma {:induction false} ItemsExact(expected: Json, actual: Json, from: nat, path: Path)
    requires expected.Arr? && actual.Arr? && |expected.items| == |actual.items| && from <= |expected.items|
    requires expected.items[..from] == actual.items[..from]
    ensures Exact(expected, actual, path, DifferenceInItems(expected, actual, from, path))
    decreases expected, 0, |expected.items| - from
  {
    hide FirstDiffersAt, Difference;
    if from == |expected.items| {
      assert expected.items[..from] == expected.items && actual.items[..from] == actual.items;
      return;
    }
    var difference := Difference(expected.items[from], actual.items[from], path + [Index(from)]);
    DifferenceExact(expected.items[from], actual.items[from], path + [Index(from)]);
    if difference.Some? {
      DiffersInItem(expected, actual, from, path, difference.value);
    } else {
      assert expected.items[..from + 1] == expected.items[..from] + [expected.items[from]];
      assert actual.items[..from + 1] == actual.items[..from] + [actual.items[from]];
      ItemsExact(expected, actual, from + 1, path);
    }
  }

  lemma DiffersInItem(expected: Json, actual: Json, at: nat, path: Path, full: Path)
    requires expected.Arr? && actual.Arr? && at < |expected.items| == |actual.items|
    requires expected.items[..at] == actual.items[..at]
    requires Exact(expected.items[at], actual.items[at], path + [Index(at)], Some(full))
    ensures Exact(expected, actual, path, Some(full))
  {
    Below(path, Index(at), full);
  }
}
