/** Orders and sorted lists: what Python's `sorted` returns on strings, on integers and by key. */
module Sorting {
  import opened Lists

  type Order<!T> = (T, T) -> bool

  /** Strings compare by code point, a proper prefix first. */
  predicate StringLeq(a: string, b: string) {
    a == "" || (b != "" && (a[0] < b[0] || (a[0] == b[0] && StringLeq(a[1..], b[1..]))))
  }

  lemma {:induction false} StringLeqTotal(a: string, b: string)
    ensures StringLeq(a, b) || StringLeq(b, a)
  {
    if a != "" && b != "" && a[0] == b[0] {
      StringLeqTotal(a[1..], b[1..]);
    }
  }

  lemma {:induction false} StringLeqAntisymmetric(a: string, b: string)
    requires StringLeq(a, b) && StringLeq(b, a)
    ensures a == b
  {
    if a != "" {
      StringLeqAntisymmetric(a[1..], b[1..]);
      assert a == [a[0]] + a[1..] && b == [b[0]] + b[1..];
    }
  }

  lemma {:induction false} StringLeqTransitive(a: string, b: string, c: string)
    requires StringLeq(a, b) && StringLeq(b, c)
    ensures StringLeq(a, c)
  {
    if a != "" && a[0] == b[0] == c[0] {
      StringLeqTransitive(a[1..], b[1..], c[1..]);
    }
  }

  ghost predicate Comparable<T(!new)>(leq: Order<T>, s: set<T>) {
    forall x, y | x in s && y in s :: leq(x, y) || leq(y, x)
  }

  ghost predicate Antisymmetric<T(!new)>(leq: Order<T>, s: set<T>) {
    forall x, y | x in s && y in s :: leq(x, y) && leq(y, x) ==> x == y
  }

  ghost predicate Transitive<T(!new)>(leq: Order<T>, s: set<T>) {
    forall x, y, z | x in s && y in s && z in s :: leq(x, y) && leq(y, z) ==> leq(x, z)
  }

  /** `leq` is a total order on the elements of `s`. */
  ghost predicate TotalOn<T(!new)>(leq: Order<T>, s: set<T>) {
    Comparable(leq, s) && Antisymmetric(leq, s) && Transitive(leq, s)
  }

  lemma StringsAreOrdered(s: set<string>)
    ensures TotalOn(StringLeq, s)
  {
    hide StringLeq;
    forall x, y | x in s && y in s ensures StringLeq(x, y) || StringLeq(y, x) {
      StringLeqTotal(x, y);
    }
    forall x, y | x in s && y in s && StringLeq(x, y) && StringLeq(y, x) ensures x == y {
      StringLeqAntisymmetric(x, y);
    }
    forall x, y, z | x in s && y in s && z in s && StringLeq(x, y) && StringLeq(y, z) ensures StringLeq(x, z) {
      StringLeqTransitive(x, y, z);
    }
  }

  ghost predicate Sorted<T(!new)>(leq: Order<T>, s: seq<T>) {
    forall i, j | 0 <= i < j < |s| :: leq(s[i], s[j])
  }

  lemma HeadIsElement<T>(s: seq<T>)
    ensures s != [] ==> s[0] in s
  {
  }

  lemma HeadLeast<T(!new)>(leq: Order<T>, s: seq<T>, x: T)
    requires Sorted(leq, s) && x in s
    ensures x == s[0] || leq(s[0], x)
  {
    var i :| 0 <= i < |s| && s[i] == x;
    if i != 0 {
      assert leq(s[0], s[i]);
    }
  }

  /** A sorted list without repeats is determined by its elements. */
  lemma {:induction false} SortedUnique<T(!new)>(leq: Order<T>, a: seq<T>, b: seq<T>)
    requires Antisymmetric(leq, Elements(a))
    requires Sorted(leq, a) && Distinct(a) && Sorted(leq, b) && Distinct(b) && Elements(a) == Elements(b)
    ensures a == b
    decreases |a|
  {
    assert forall x :: x in a <==> x in Elements(a);
    assert forall x :: x in b <==> x in Elements(b);
    if a == [] {
      HeadIsElement(b);
    } else {
      assert a[0] in b;
      HeadLeast(leq, b, a[0]);
      HeadLeast(leq, a, b[0]);
      TailElements(a);
      TailElements(b);
      SortedUnique(leq, a[1..], b[1..]);
      assert a == [a[0]] + a[1..] && b == [b[0]] + b[1..];
    }
  }

  // ----- sorted enumeration of a set -----

  predicate IsLeast<T(!new, ==)>(leq: Order<T>, m: T, s: set<T>) {
    m in s && forall x | x in s :: leq(m, x)
  }

  lemma {:induction false} Least<T(!new)>(leq: Order<T>, s: set<T>) returns (m: T)
    requires s != {} && TotalOn(leq, s)
    ensures IsLeast(leq, m, s)
    decreases |s|
  {
    var one :| one in s;
    var rest := s - {one};
    if rest == {} {
      assert s == {one};
      m := one;
    } else {
      TotalOnSubset(leq, rest, s);
      var least := Least(leq, rest);
      m := if leq(least, one) then least else one;
      LeastOfTwo(leq, one, least, rest, s, m);
    }
  }

  lemma TotalOnSubset<T(!new)>(leq: Order<T>, part: set<T>, s: set<T>)
    requires part <= s && TotalOn(leq, s)
    ensures TotalOn(leq, part)
  {
  }

  lemma LeastOfTwo<T(!new)>(leq: Order<T>, one: T, least: T, rest: set<T>, s: set<T>, m: T)
    requires one in s && rest == s - {one} && TotalOn(leq, s) && IsLeast(leq, least, rest)
    requires m == if leq(least, one) then least else one
    ensures IsLeast(leq, m, s)
  {
    hide Antisymmetric;
    forall x | x in s ensures leq(m, x) {
      assert leq(one, one) && (leq(least, one) || leq(one, least));
    }
  }

  lemma LeastExists<T(!new)>(leq: Order<T>, s: set<T>)
    requires s != {} && TotalOn(leq, s)
    ensures exists m :: IsLeast(leq, m, s)
    ensures forall m, n :: IsLeast(leq, m, s) && IsLeast(leq, n, s) ==> m == n
  {
    var m := Least(leq, s);
  }

  lemma Prepend<T(!new)>(leq: Order<T>, m: T, rest: seq<T>, s: set<T>)
    requires m in s && (forall x | x in s :: leq(m, x)) && Elements(rest) == s - {m}
    requires Sorted(leq, rest) && Distinct(rest)
    ensures Sorted(leq, [m] + rest) && Distinct([m] + rest) && Elements([m] + rest) == s
  {
    assert forall x :: x in rest <==> x in Elements(rest);
    assert forall x :: x in [m] + rest <==> x == m || x in rest;
    assert forall i | 0 <= i < |rest| :: rest[i] in Elements(rest);
  }

  /** `sorted(s)` for a set. */
  function SortedSet<T(!new, ==)>(leq: Order<T>, s: set<T>): (r: seq<T>)
    requires TotalOn(leq, s)
    ensures Sorted(leq, r) && Distinct(r) && Elements(r) == s && |r| == |s|
    decreases |s|
  {
    if s == {} then []
    else
      LeastExists(leq, s);
      var m :| IsLeast(leq, m, s);
      var rest := SortedSet(leq, s - {m});
      Prepend(leq, m, rest, s);
      [m] + rest
  }

  /** `sorted(s)` for a set of strings. */
  function SortedStrings(s: set<string>): (r: seq<string>)
    ensures Sorted(StringLeq, r) && Distinct(r) && Elements(r) == s && |r| == |s|
  {
    StringsAreOrdered(s);
    SortedSet(StringLeq, s)
  }

  // ----- sorting a list -----

  function Insert<T>(leq: Order<T>, x: T, s: seq<T>): (r: seq<T>)
    ensures multiset(r) == multiset{x} + multiset(s) && |r| == |s| + 1
  {
    if s == [] then [x]
    else
      assert s == [s[0]] + s[1..];
      if leq(x, s[0]) then [x] + s else [s[0]] + Insert(leq, x, s[1..])
  }

  /** A stable sort: an element goes before every later one that it does not exceed. */
  function Sort<T>(leq: Order<T>, s: seq<T>): (r: seq<T>)
    ensures multiset(r) == multiset(s) && |r| == |s|
  {
    if s == [] then []
    else
      assert s == [s[0]] + s[1..];
      Insert(leq, s[0], Sort(leq, s[1..]))
  }

  lemma SortedCons<T(!new)>(leq: Order<T>, x: T, s: seq<T>)
    requires Sorted(leq, s) && forall y | y in s :: leq(x, y)
    ensures Sorted(leq, [x] + s)
  {
    assert forall i | 0 <= i < |s| :: s[i] in s;
  }

  lemma {:induction false} InsertSorted<T(!new)>(leq: Order<T>, x: T, s: seq<T>)
    requires Sorted(leq, s) && Comparable(leq, Elements(s) + {x}) && Transitive(leq, Elements(s) + {x})
    ensures Sorted(leq, Insert(leq, x, s))
    decreases |s|
  {
    if s == [] {
    } else if leq(x, s[0]) {
      var all := Elements(s) + {x};
      assert x in all && s[0] in all;
      HeadBefore(leq, s);
      forall y | y in s ensures leq(x, y) {
        assert y in all;
      }
      SortedCons(leq, x, s);
    } else {
      var head, tail := s[0], s[1..];
      assert head in Elements(s) + {x} && x in Elements(s) + {x};
      assert forall y | y in tail :: y in s;
      assert Elements(tail) <= Elements(s);
      InsertSorted(leq, x, tail);
      InsertedElements(leq, x, tail);
      HeadBefore(leq, s);
      SortedCons(leq, head, Insert(leq, x, tail));
    }
  }

  lemma InsertedElements<T>(leq: Order<T>, x: T, s: seq<T>)
    ensures forall y | y in Insert(leq, x, s) :: y == x || y in s
  {
    forall y | y in Insert(leq, x, s) ensures y == x || y in s {
      assert y in multiset(Insert(leq, x, s));
    }
  }

  /** Every element of a sorted list follows its head; the head follows itself by totality. */
  lemma HeadBefore<T(!new)>(leq: Order<T>, s: seq<T>)
    requires s != [] && Sorted(leq, s) && Comparable(leq, Elements(s))
    ensures forall y | y in s :: leq(s[0], y)
  {
    assert s[0] in Elements(s);
    forall y | y in s ensures leq(s[0], y) {
      HeadLeast(leq, s, y);
    }
  }

  lemma {:induction false} SortSorts<T(!new)>(leq: Order<T>, s: seq<T>)
    requires Comparable(leq, Elements(s)) && Transitive(leq, Elements(s))
    ensures Sorted(leq, Sort(leq, s))
    decreases |s|
  {
    if s != [] {
      var tail := s[1..];
      assert s == [s[0]] + tail;
      assert Elements(s) == Elements(tail) + {s[0]};
      SortSorts(leq, tail);
      SameElements(Sort(leq, tail), tail);
      InsertSorted(leq, s[0], Sort(leq, tail));
    }
  }
}
