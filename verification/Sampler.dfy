/**
 * The viewer's RAM-bounded sample buffer: when full it keeps every other value,
 * in place, and doubles its stride.
 */
module Sampler {
  import opened Text

  // ----- the sampler as a value -----

  /** `trapped` stands for the division by zero a wrapped 32-bit stride leads to. */
  datatype State = State(values: seq<uint32>, stride: uint32, rawIndex: uint32, total: uint32,
                         approximate: bool, trapped: bool)

  const EMPTY := State([], 1, 0, 0, false, false)

  function EveryOther(s: seq<uint32>): (r: seq<uint32>)
    ensures |r| == (|s| + 1) / 2
    ensures forall k :: 0 <= k < |r| ==> r[k] == s[2 * k]
  {
    seq((|s| + 1) / 2, k requires 0 <= k < (|s| + 1) / 2 => s[2 * k])
  }

  /** Halves until there is room; two retained values are the least useful capacity. */
  function Compact(s: State, limit: nat): (r: State)
    requires limit >= 2
    ensures |r.values| < limit
    decreases |s.values|
  {
    if |s.values| < limit then s
    else Compact(s.(values := EveryOther(s.values), stride := s.stride * 2 % TWO_32, approximate := true), limit)
  }

  function Add(s: State, value: uint32, limit: nat): State
    requires limit >= 2
  {
    if s.trapped then s
    else
      var c := Compact(s, limit);
      if c.stride == 0 then c.(trapped := true)
      else
        c.(values := if c.rawIndex % c.stride == 0 then c.values + [value] else c.values,
           rawIndex := (c.rawIndex + 1) % TWO_32,
           total := (c.total + 1) % TWO_32)
  }

  function AddAll(s: State, raw: seq<uint32>, limit: nat): State
    requires limit >= 2
    decreases |raw|
  {
    if raw == [] then s else Add(AddAll(s, raw[..|raw| - 1], limit), raw[|raw| - 1], limit)
  }

  // ----- the sampler as the source keeps it -----

  class SampleBuffer {
    var data: array<uint32>
    var size: nat
    var stride: uint32
    var rawIndex: uint32
    var totalCount: uint32
    var approximate: bool
    var trapped: bool

    ghost predicate Valid()
      reads this
    {
      size <= data.Length && data.Length >= 2
    }

    ghost function View(): State
      reads this, data
      requires Valid()
    {
      State(data[..size], stride, rawIndex, totalCount, approximate, trapped)
    }

    /** Room for `max(2, budget / sizeof(uint32_t))` samples. */
    constructor (scratchBudgetBytes: nat)
      ensures Valid() && fresh(data)
      ensures data.Length == Limit(scratchBudgetBytes)
      ensures View() == EMPTY
    {
      data := new uint32[Limit(scratchBudgetBytes)](_ => 0);
      size, stride, rawIndex, totalCount := 0, 1, 0, 0;
      approximate, trapped := false, false;
      new;
      assert data[..size] == [];
    }

    /** Keeps the values at even positions, moving them down within the array. */
    method KeepEveryOther()
      requires Valid()
      modifies this`size, data
      ensures Valid()
      ensures data[..size] == EveryOther(old(data[..size]))
    {
      ghost var before := data[..size];
      var output, i := 0, 0;
      while i < size
        invariant Valid() && size == old(size)
        invariant i == 2 * output && output <= (size + 1) / 2
        invariant data[..output] == EveryOther(before)[..output]
        invariant forall k :: i <= k < size ==> data[k] == before[k]
      {
        assert EveryOther(before)[output] == before[i];
        data[output] := data[i];
        output, i := output + 1, i + 2;
      }
      size := output;
    }

    /** One parsed sample: the body of the source's sample branch. */
    method AddSample(value: uint32)
      requires Valid() && !trapped
      modifies this`size, this`stride, this`rawIndex, this`totalCount, this`approximate, this`trapped, data
      ensures Valid()
      ensures View() == Add(old(View()), value, data.Length)
    {
      while size >= data.Length
        invariant Valid() && !trapped && rawIndex == old(rawIndex) && totalCount == old(totalCount)
        invariant Compact(View(), data.Length) == Compact(old(View()), data.Length)
        decreases size
      {
        KeepEveryOther();
        stride := stride * 2 % TWO_32;
        approximate := true;
      }
      if stride == 0 {
        trapped := true;
        return;
      }
      if rawIndex % stride == 0 {
        data[size] := value;
        size := size + 1;
      }
      rawIndex := (rawIndex + 1) % TWO_32;
      totalCount := (totalCount + 1) % TWO_32;
    }
  }

  function Limit(scratchBudgetBytes: nat): (r: nat)
    ensures r >= 2
  {
    if scratchBudgetBytes / 4 < 2 then 2 else scratchBudgetBytes / 4
  }

  // ----- what the buffer holds -----

  predicate PowerOfTwo(n: nat) {
    n == 1 || (n > 0 && n % 2 == 0 && PowerOfTwo(n / 2))
  }

  function CeilDiv(n: nat, d: nat): nat
    requires d > 0
  {
    (n + d - 1) / d
  }

  /** Every `stride`-th raw sample, from the first. */
  ghost predicate IsStrided(values: seq<uint32>, raw: seq<uint32>, stride: nat) {
    stride > 0 && |values| == CeilDiv(|raw|, stride) &&
    forall k :: 0 <= k < |values| ==> k * stride < |raw| && values[k] == raw[k * stride]
  }

  lemma CeilBounds(n: nat, d: nat)
    requires d > 0
    ensures var q := CeilDiv(n, d); n <= q * d < n + d
  {
  }

  lemma CeilUnique(n: nat, d: nat, q: nat)
    requires d > 0 && n <= q * d < n + d
    ensures q == CeilDiv(n, d)
  {
    var c := CeilDiv(n, d);
    CeilBounds(n, d);
    if q < c {
      MulGrows(q + 1, c, d);
    } else if c < q {
      MulGrows(c + 1, q, d);
    }
  }

  lemma MulGrows(a: nat, b: nat, d: nat)
    requires a <= b
    ensures a * d <= b * d
  {
  }

  lemma MulStrict(a: nat, b: nat, d: nat)
    requires a * d < b * d
    ensures a < b
  {
  }

  /** Keeping every other value doubles the stride. */
  lemma HalveStrided(values: seq<uint32>, raw: seq<uint32>, stride: nat)
    requires IsStrided(values, raw, stride)
    ensures IsStrided(EveryOther(values), raw, 2 * stride)
  {
    CeilHalves(|raw|, stride);
    hide CeilDiv;
    forall k | 0 <= k < (|values| + 1) / 2
      ensures k * (2 * stride) < |raw| && EveryOther(values)[k] == raw[k * (2 * stride)]
    {
      assert k * (2 * stride) == (2 * k) * stride;
    }
  }

  lemma CeilHalves(n: nat, d: nat)
    requires d > 0
    ensures (CeilDiv(n, d) + 1) / 2 == CeilDiv(n, 2 * d)
  {
    var q := CeilDiv(n, d);
    var half := (q + 1) / 2;
    CeilBounds(n, d);
    assert half * (2 * d) == (2 * half) * d;
    assert 2 * half == q || 2 * half == q + 1;
    assert (q + 1) * d == q * d + d;
    CeilUnique(n, 2 * d, half);
  }

  lemma MultipleOf(q: nat, d: nat)
    requires d > 0
    ensures q * d % d == 0
  {
    var n := q * d;
    var e := n / d;
    assert n == e * d + n % d;
    if e < q {
      MulGrows(e + 1, q, d);
    }
    if q < e {
      MulGrows(q + 1, e, d);
    }
  }

  lemma Quotient(n: nat, d: nat)
    requires d > 0 && n % d == 0
    ensures n == (n / d) * d && CeilDiv(n, d) == n / d && CeilDiv(n + 1, d) == n / d + 1
  {
    var q := n / d;
    assert n == q * d;
    CeilUnique(n, d, q);
    assert (q + 1) * d == q * d + d;
    CeilUnique(n + 1, d, q + 1);
  }

  lemma NotMultiple(n: nat, d: nat)
    requires d > 0 && n % d != 0
    ensures CeilDiv(n + 1, d) == CeilDiv(n, d)
  {
    var q := CeilDiv(n, d);
    CeilBounds(n, d);
    MultipleOf(q, d);
    assert n != q * d;
    CeilUnique(n + 1, d, q);
  }

  lemma ExtendStrided(values: seq<uint32>, raw: seq<uint32>, stride: nat, value: uint32)
    requires IsStrided(values, raw, stride)
    ensures IsStrided(if |raw| % stride == 0 then values + [value] else values, raw + [value], stride)
  {
    if |raw| % stride == 0 {
      Quotient(|raw|, stride);
    } else {
      NotMultiple(|raw|, stride);
    }
  }

  /** The sampler after `raw`: every stride-th sample, at the least stride that fits the limit. */
  ghost predicate Holds(s: State, raw: seq<uint32>, limit: nat) {
    !s.trapped && PowerOfTwo(s.stride) && IsStrided(s.values, raw, s.stride) &&
    s.rawIndex == s.total == |raw| % TWO_32 && (s.approximate <==> s.stride > 1) &&
    (raw != [] ==> |raw| - 1 <= (limit - 1) * s.stride) &&
    (s.stride > 1 ==> (limit - 1) * (s.stride / 2) < |raw| - 1)
  }

  lemma FitsLimit(n: nat, stride: nat, limit: nat)
    requires stride > 0 && limit >= 2
    requires n > 0 ==> n - 1 <= (limit - 1) * stride
    ensures CeilDiv(n, stride) <= limit
    ensures CeilDiv(n, stride) == limit <==> (limit - 1) * stride < n
  {
    var q := CeilDiv(n, stride);
    CeilBounds(n, stride);
    assert (limit - 1) * stride == limit * stride - stride;
    if q >= limit + 1 {
      MulGrows(limit + 1, q, stride);
    }
    if q <= limit - 1 {
      MulGrows(q, limit - 1, stride);
    }
  }

  lemma DoubledStrideFits(n: nat, limit: nat, t: nat)
    requires limit >= 2 && t > 0
    requires n > 0 ==> n - 1 <= (limit - 1) * t
    requires (limit - 1) * t < n <= (limit - 1) * 0x8000_0000
    ensures t < 0x8000_0000 && n <= (limit - 1) * (2 * t)
  {
    MulCompare(limit - 1, t, 0x8000_0000);
    assert (limit - 1) * (2 * t) == (limit - 1) * t + (limit - 1) * t;
    MulGrows(1, limit - 1, t);
  }

  /** The state with room for one more sample. */
  ghost predicate HasRoom(c: State, raw: seq<uint32>, limit: nat) {
    !c.trapped && PowerOfTwo(c.stride) && IsStrided(c.values, raw, c.stride) &&
    c.rawIndex == c.total == |raw| % TWO_32 && (c.approximate <==> c.stride > 1) &&
    |raw| <= (limit - 1) * c.stride && (c.stride > 1 ==> (limit - 1) * (c.stride / 2) < |raw|)
  }

  /** Room is made exactly when the stride no longer fits, and one doubling is enough. */
  lemma CompactHolds(s: State, raw: seq<uint32>, limit: nat)
    requires limit >= 2 && |raw| <= (limit - 1) * 0x8000_0000
    requires Holds(s, raw, limit)
    ensures HasRoom(Compact(s, limit), raw, limit)
  {
    assert |s.values| == CeilDiv(|raw|, s.stride);
    FitsLimit(|raw|, s.stride, limit);
    hide CeilDiv, IsStrided, PowerOfTwo;
    if |s.values| == limit {
      CompactOnce(s, limit);
      DoublingMakesRoom(s, raw, limit);
    } else {
      assert Compact(s, limit) == s;
    }
  }

  lemma DoublingMakesRoom(s: State, raw: seq<uint32>, limit: nat)
    requires limit >= 2 && (limit - 1) * s.stride < |raw| <= (limit - 1) * 0x8000_0000
    requires Holds(s, raw, limit)
    ensures HasRoom(s.(values := EveryOther(s.values), stride := s.stride * 2 % TWO_32, approximate := true), raw, limit)
  {
    var t := s.stride;
    DoubledStrideFits(|raw|, limit, t);
    HalveStrided(s.values, raw, t);
    DoubledIsPower(t);
    hide IsStrided, PowerOfTwo;
    assert t * 2 % TWO_32 == 2 * t && 2 * t / 2 == t;
  }

  lemma CompactOnce(s: State, limit: nat)
    requires limit >= 2 && |s.values| == limit
    ensures Compact(s, limit) ==
            s.(values := EveryOther(s.values), stride := s.stride * 2 % TWO_32, approximate := true)
  {
    var d := s.(values := EveryOther(s.values), stride := s.stride * 2 % TWO_32, approximate := true);
    assert Compact(s, limit) == Compact(d, limit) == d;
  }

  lemma MulCompare(k: nat, a: nat, b: nat)
    requires k * a < k * b
    ensures a < b
  {
  }

  lemma StridePositive(values: seq<uint32>, raw: seq<uint32>, stride: nat)
    requires IsStrided(values, raw, stride)
    ensures stride > 0
  {
  }

  lemma AddHolds(s: State, raw: seq<uint32>, value: uint32, limit: nat)
    requires limit >= 2 && |raw| <= (limit - 1) * 0x8000_0000
    requires Holds(s, raw, limit)
    ensures Holds(Add(s, value, limit), raw + [value], limit)
  {
    hide IsStrided, Compact, PowerOfTwo;
    CompactHolds(s, raw, limit);
    var c := Compact(s, limit);
    StridePositive(c.values, raw, c.stride);
    WrapKeepsPhase(|raw|, c.stride);
    WrapNext(|raw|);
    ExtendStrided(c.values, raw, c.stride, value);
  }

  lemma WrapNext(n: nat)
    ensures (n + 1) % TWO_32 == (n % TWO_32 + 1) % TWO_32
  {
  }

  /** The 32-bit index wraps at a multiple of every stride, so it still tells which samples to keep. */
  lemma WrapKeepsPhase(n: nat, t: nat)
    requires PowerOfTwo(t) && 0 < t < TWO_32
    ensures n % TWO_32 % t == n % t
  {
    hide PowerOfTwo;
    var q, r := n / TWO_32, n % TWO_32;
    TwoToThe32();
    var k := PowerDivides(t, TWO_32);
    var e := r / t;
    assert n == q * (k * t) + e * t + r % t;
    assert q * (k * t) + e * t == (q * k + e) * t;
    ModUnique(n, t, q * k + e, r % t);
  }

  lemma {:induction false} PowerDivides(t: nat, p: nat) returns (k: nat)
    requires PowerOfTwo(t) && PowerOfTwo(p) && t <= p
    ensures p == k * t
    decreases t
  {
    if t == 1 {
      k := p;
    } else {
      k := PowerDivides(t / 2, p / 2);
      assert p == 2 * (k * (t / 2)) == k * t;
    }
  }

  lemma ModUnique(n: nat, d: nat, q: nat, r: nat)
    requires d > 0 && n == q * d + r && r < d
    ensures n % d == r
  {
    var e := n / d;
    assert n == e * d + n % d;
    if e < q {
      MulGrows(e + 1, q, d);
    }
    if q < e {
      MulGrows(q + 1, e, d);
    }
  }

  /** The raw sample counts a 32-bit stride can follow at this capacity. */
  predicate StrideFits(count: nat, limit: nat) {
    count == 0 || count - 1 <= (limit - 1) * 0x8000_0000
  }

  /** Refinement: the bounded buffer holds every stride-th raw sample. */
  lemma {:induction false} SamplerRefines(raw: seq<uint32>, limit: nat)
    requires limit >= 2 && StrideFits(|raw|, limit)
    ensures Holds(AddAll(EMPTY, raw, limit), raw, limit)
    decreases |raw|
  {
    if raw != [] {
      var front := raw[..|raw| - 1];
      SamplerRefines(front, limit);
      AddHolds(AddAll(EMPTY, front, limit), front, raw[|raw| - 1], limit);
      assert front + [raw[|raw| - 1]] == raw;
    } else {
      assert IsStrided([], raw, 1);
    }
  }

  /** The buffer never exceeds its limit, and once approximate is at least half full. */
  lemma SamplerSize(raw: seq<uint32>, limit: nat)
    requires limit >= 2 && StrideFits(|raw|, limit)
    ensures
      var s := AddAll(EMPTY, raw, limit);
      |s.values| <= limit && (s.approximate ==> limit <= 2 * |s.values|)
  {
    SamplerRefines(raw, limit);
    var s := AddAll(EMPTY, raw, limit);
    hide AddAll, PowerOfTwo;
    FitsLimit(|raw|, s.stride, limit);
    if s.approximate {
      PowerIsEven(s.stride);
      HalfFull(|raw|, s.stride / 2, limit);
    }
  }

  lemma PowerIsEven(t: nat)
    requires PowerOfTwo(t) && t > 1
    ensures t == 2 * (t / 2) && PowerOfTwo(t / 2)
  {
  }

  lemma HalfFull(n: nat, h: nat, limit: nat)
    requires limit >= 2 && h > 0 && (limit - 1) * h < n - 1
    ensures limit <= 2 * CeilDiv(n, 2 * h)
  {
    var q := CeilDiv(n, 2 * h);
    CeilBounds(n, 2 * h);
    assert q * (2 * h) == (2 * q) * h;
    MulStrict(limit - 1, 2 * q, h);
  }

  /** Past that count the doubled stride wraps to zero and the next test divides by it. */
  lemma WrappedStrideTraps(s: State, raw: seq<uint32>, value: uint32, limit: nat)
    requires limit >= 2 && |raw| - 1 == (limit - 1) * 0x8000_0000
    requires Holds(s, raw, limit)
    ensures Add(s, value, limit).trapped
  {
    hide IsStrided, PowerOfTwo, CeilDiv;
    var t := s.stride;
    LastStride(|raw|, t, limit);
    FitsLimit(|raw|, t, limit);
    StridedLength(s.values, raw, t);
    CompactOnce(s, limit);
  }

  lemma StridedLength(values: seq<uint32>, raw: seq<uint32>, stride: nat)
    requires IsStrided(values, raw, stride)
    ensures stride > 0 && |values| == CeilDiv(|raw|, stride)
  {
  }

  lemma LastStride(n: nat, t: nat, limit: nat)
    requires limit >= 2 && PowerOfTwo(t) && t < 0x1_0000_0000
    requires n - 1 == (limit - 1) * 0x8000_0000 && n - 1 <= (limit - 1) * t
    ensures t == 0x8000_0000
  {
    hide PowerOfTwo;
    LargestStride(t);
    if t < 0x8000_0000 {
      MulLess(limit - 1, t, 0x8000_0000);
    }
  }

  lemma LargestStride(t: nat)
    requires PowerOfTwo(t) && t < 0x1_0000_0000
    ensures t <= 0x8000_0000
  {
    hide PowerOfTwo;
    TwoToThe32();
    PowerStep(t, 0x1_0000_0000);
  }

  lemma TwoToThe32()
    ensures PowerOfTwo(0x1_0000_0000)
  {
    hide PowerOfTwo;
    Pow2Adds(4, 4);
    Pow2Adds(8, 8);
    Pow2Adds(16, 16);
    Pow2IsPower(32);
  }

  lemma MulLess(k: nat, a: nat, b: nat)
    requires 0 < k && a < b
    ensures k * a < k * b
  {
  }

  function Pow2(e: nat): nat {
    if e == 0 then 1 else 2 * Pow2(e - 1)
  }

  lemma {:induction false} Pow2Adds(a: nat, b: nat)
    ensures Pow2(a + b) == Pow2(a) * Pow2(b)
  {
    if a > 0 {
      Pow2Adds(a - 1, b);
    }
  }

  lemma {:induction false} Pow2IsPower(e: nat)
    ensures Pow2(e) > 0 && PowerOfTwo(Pow2(e))
  {
    if e > 0 {
      Pow2IsPower(e - 1);
      DoubledIsPower(Pow2(e - 1));
    }
  }

  lemma DoubledIsPower(t: nat)
    requires t > 0 && PowerOfTwo(t)
    ensures PowerOfTwo(2 * t)
  {
    assert 2 * t / 2 == t;
  }

  lemma {:induction false} PowerStep(t: nat, p: nat)
    requires PowerOfTwo(t) && PowerOfTwo(p) && t < p
    ensures 2 * t <= p
  {
    if t > 1 {
      PowerStep(t / 2, p / 2);
    }
  }

  lemma {:induction false} TrappedStays(raw: seq<uint32>, more: seq<uint32>, limit: nat)
    requires limit >= 2 && AddAll(EMPTY, raw, limit).trapped
    ensures AddAll(EMPTY, raw + more, limit).trapped
    decreases |more|
  {
    if more == [] {
      assert raw + more == raw;
    } else {
      var front := more[..|more| - 1];
      TrappedStays(raw, front, limit);
      assert (raw + more)[..|raw + more| - 1] == raw + front;
    }
  }

  /** The reader divides by zero exactly when the 32-bit stride cannot follow the sample count. */
  lemma TrapsExactly(raw: seq<uint32>, limit: nat)
    requires limit >= 2
    ensures AddAll(EMPTY, raw, limit).trapped <==> !StrideFits(|raw|, limit)
  {
    if StrideFits(|raw|, limit) {
      SamplerRefines(raw, limit);
    } else {
      var n := (limit - 1) * 0x8000_0000 + 1;
      var front := raw[..n];
      SamplerRefines(front, limit);
      WrappedStrideTraps(AddAll(EMPTY, front, limit), front, raw[n], limit);
      assert raw[..n + 1][..n] == front;
      TrappedStays(raw[..n + 1], raw[n + 1..], limit);
      assert raw[..n + 1] + raw[n + 1..] == raw;
    }
  }
}
