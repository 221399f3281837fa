/** The CRC-8 that closes every event frame. */
module EventChecksum {

  // ----- one byte -----

  function Xor(a: bv8, b: bv8): bv8 {
    a ^ b
  }

  /** Division step by x^8 + x^2 + x + 1. */
  function ShiftBit(c: bv8): bv8 {
    if c & 0x80 != 0 then Xor(c << 1, 0x07) else c << 1
  }

  function ShiftByte(c: bv8): bv8 {
    ShiftBit(ShiftBit(ShiftBit(ShiftBit(ShiftBit(ShiftBit(ShiftBit(ShiftBit(c))))))))
  }

  function Shifts(c: bv8, n: nat): bv8 {
    if n == 0 then c else ShiftBit(Shifts(c, n - 1))
  }

  lemma ShiftsEight(c: bv8)
    ensures Shifts(c, 8) == ShiftByte(c)
  {
    hide ShiftBit;
    assert Shifts(c, 1) == ShiftBit(Shifts(c, 0));
    assert Shifts(c, 2) == ShiftBit(ShiftBit(c));
    assert Shifts(c, 4) == ShiftBit(ShiftBit(Shifts(c, 2)));
    assert Shifts(c, 6) == ShiftBit(ShiftBit(Shifts(c, 4)));
  }

  /** The remainder after `bytes`, starting from `c`. */
  function Crc(c: bv8, bytes: seq<bv8>): bv8
    decreases |bytes|
  {
    if bytes == [] then c else Crc(ShiftByte(Xor(c, bytes[0])), bytes[1..])
  }

  function Checksum(bytes: seq<bv8>): bv8 {
    Crc(0, bytes)
  }

  method EventChecksum(bytes: seq<bv8>) returns (checksum: bv8)
    ensures checksum == Checksum(bytes)
  {
    hide ShiftBit, ShiftByte;
    checksum := 0;
    for i := 0 to |bytes|
      invariant Crc(checksum, bytes[i..]) == Checksum(bytes)
    {
      assert bytes[i..][0] == bytes[i] && bytes[i..][1..] == bytes[i + 1..];
      checksum := Xor(checksum, bytes[i]);
      ghost var start := checksum;
      for bit := 0 to 8
        invariant checksum == Shifts(start, bit)
      {
        checksum := ShiftBit(checksum);
      }
      ShiftsEight(start);
    }
  }

  // ----- linearity -----

  function XorAll(a: seq<bv8>, b: seq<bv8>): (r: seq<bv8>)
    requires |a| == |b|
    ensures |r| == |a| && forall i :: 0 <= i < |r| ==> r[i] == Xor(a[i], b[i])
  {
    seq(|a|, i requires 0 <= i < |a| => Xor(a[i], b[i]))
  }

  lemma XorLaws(a: bv8, b: bv8, x: bv8, y: bv8)
    ensures Xor(Xor(a, b), Xor(x, y)) == Xor(Xor(a, x), Xor(b, y))
  {
    hide Xor;
    XorAssociates(a, b, Xor(x, y));
    XorAssociates(b, x, y);
    XorCommutes(b, x);
    XorAssociates(x, b, y);
    XorAssociates(a, x, Xor(b, y));
  }

  lemma XorAssociates(a: bv8, b: bv8, c: bv8)
    ensures Xor(Xor(a, b), c) == Xor(a, Xor(b, c))
  {
  }

  lemma XorCommutes(a: bv8, b: bv8)
    ensures Xor(a, b) == Xor(b, a)
  {
  }

  lemma XorZero(a: bv8)
    ensures Xor(a, 0) == a && Xor(0, a) == a && Xor(a, a) == 0
  {
  }

  lemma XorDifferent(a: bv8, b: bv8)
    ensures Xor(a, b) == 0 <==> a == b
  {
  }

  lemma ShlXor(a: bv8, b: bv8)
    ensures Xor(a, b) << 1 == Xor(a << 1, b << 1)
  {
  }

  lemma TopXor(a: bv8, b: bv8)
    ensures Xor(a, b) & 0x80 != 0 <==> (a & 0x80 != 0) != (b & 0x80 != 0)
  {
  }

  function Top(c: bv8): bv8 {
    if c & 0x80 != 0 then 0x07 else 0
  }

  lemma ShiftBitTop(c: bv8)
    ensures ShiftBit(c) == Xor(c << 1, Top(c))
  {
    XorZero(c << 1);
  }

  lemma TopLinear(a: bv8, b: bv8)
    ensures Top(Xor(a, b)) == Xor(Top(a), Top(b))
  {
    TopXor(a, b);
    hide Xor;
    XorZero(0x07);
    XorZero(0);
  }

  lemma ShiftBitLinear(a: bv8, b: bv8)
    ensures ShiftBit(Xor(a, b)) == Xor(ShiftBit(a), ShiftBit(b))
  {
    hide ShiftBit, Xor, Top;
    ShiftBitTop(a);
    ShiftBitTop(b);
    ShiftBitTop(Xor(a, b));
    ShlXor(a, b);
    TopLinear(a, b);
    XorLaws(a << 1, b << 1, Top(a), Top(b));
  }

  lemma ShiftByteLinear(a: bv8, b: bv8)
    ensures ShiftByte(Xor(a, b)) == Xor(ShiftByte(a), ShiftByte(b))
  {
    hide ShiftBit, Xor;
    var a1, b1 := ShiftBit(a), ShiftBit(b);
    var a2, b2 := ShiftBit(a1), ShiftBit(b1);
    var a3, b3 := ShiftBit(a2), ShiftBit(b2);
    var a4, b4 := ShiftBit(a3), ShiftBit(b3);
    var a5, b5 := ShiftBit(a4), ShiftBit(b4);
    var a6, b6 := ShiftBit(a5), ShiftBit(b5);
    var a7, b7 := ShiftBit(a6), ShiftBit(b6);
    ShiftBitLinear(a, b);
    ShiftBitLinear(a1, b1);
    ShiftBitLinear(a2, b2);
    ShiftBitLinear(a3, b3);
    ShiftBitLinear(a4, b4);
    ShiftBitLinear(a5, b5);
    ShiftBitLinear(a6, b6);
    ShiftBitLinear(a7, b7);
  }

  lemma {:induction false} CrcLinear(c: bv8, d: bv8, a: seq<bv8>, b: seq<bv8>)
    requires |a| == |b|
    ensures Crc(Xor(c, d), XorAll(a, b)) == Xor(Crc(c, a), Crc(d, b))
    decreases |a|
  {
    hide ShiftByte, Xor;
    if a != [] {
      XorLaws(c, d, a[0], b[0]);
      ShiftByteLinear(Xor(c, a[0]), Xor(d, b[0]));
      assert XorAll(a, b)[1..] == XorAll(a[1..], b[1..]);
      CrcLinear(ShiftByte(Xor(c, a[0])), ShiftByte(Xor(d, b[0])), a[1..], b[1..]);
    }
  }

  /** The checksum of a byte-wise exclusive or is the exclusive or of the checksums. */
  lemma ChecksumLinear(a: seq<bv8>, b: seq<bv8>)
    requires |a| == |b|
    ensures Checksum(XorAll(a, b)) == Xor(Checksum(a), Checksum(b))
  {
    hide Xor;
    XorZero(0);
    CrcLinear(0, 0, a, b);
  }

  lemma {:induction false} CrcAppend(c: bv8, a: seq<bv8>, b: seq<bv8>)
    ensures Crc(c, a + b) == Crc(Crc(c, a), b)
    decreases |a|
  {
    hide ShiftByte, Xor;
    if a == [] {
      assert a + b == b;
    } else {
      assert (a + b)[0] == a[0] && (a + b)[1..] == a[1..] + b;
      CrcAppend(ShiftByte(Xor(c, a[0])), a[1..], b);
    }
  }

  lemma ShiftByteZero()
    ensures ShiftByte(0) == 0
  {
  }

  lemma ShiftBitKernel(a: bv8)
    ensures ShiftBit(a) == 0 ==> a == 0
  {
  }

  lemma ShiftByteKernel(a: bv8)
    ensures ShiftByte(a) == 0 ==> a == 0
  {
    hide ShiftBit;
    var a1 := ShiftBit(a);
    var a2 := ShiftBit(a1);
    var a3 := ShiftBit(a2);
    var a4 := ShiftBit(a3);
    var a5 := ShiftBit(a4);
    var a6 := ShiftBit(a5);
    var a7 := ShiftBit(a6);
    ShiftBitKernel(a7);
    ShiftBitKernel(a6);
    ShiftBitKernel(a5);
    ShiftBitKernel(a4);
    ShiftBitKernel(a3);
    ShiftBitKernel(a2);
    ShiftBitKernel(a1);
    ShiftBitKernel(a);
  }

  /** A frame: the message followed by its checksum. */
  function Seal(message: seq<bv8>): seq<bv8> {
    message + [Checksum(message)]
  }

  lemma CrcOne(c: bv8, b: bv8)
    ensures Crc(c, [b]) == ShiftByte(Xor(c, b))
  {
    assert [b][1..] == [];
  }

  /** A frame has residue zero exactly when its last byte is the checksum of the rest. */
  lemma ResidueZero(message: seq<bv8>, last: bv8)
    ensures Checksum(message + [last]) == 0 <==> last == Checksum(message)
  {
    hide ShiftByte, Xor;
    CrcAppend(0, message, [last]);
    CrcOne(Checksum(message), last);
    ShiftByteKernel(Xor(Checksum(message), last));
    ShiftByteZero();
    XorDifferent(Checksum(message), last);
  }

  // ----- parity -----

  function Fold4(b: bv8): bv8 {
    Xor(b, b >> 4)
  }

  function Fold2(b: bv8): bv8 {
    Xor(b, b >> 2)
  }

  function Fold1(b: bv8): bv8 {
    Xor(b, b >> 1)
  }

  /** Whether a byte has an odd number of one bits. */
  function Odd(b: bv8): bool {
    Fold1(Fold2(Fold4(b))) & 1 != 0
  }

  function OddAll(bytes: seq<bv8>): bool {
    if bytes == [] then false else Odd(bytes[0]) != OddAll(bytes[1..])
  }

  lemma Shr4Xor(a: bv8, b: bv8)
    ensures Xor(a, b) >> 4 == Xor(a >> 4, b >> 4)
  {
  }

  lemma Fold4Linear(a: bv8, b: bv8)
    ensures Fold4(Xor(a, b)) == Xor(Fold4(a), Fold4(b))
  {
    hide Xor;
    Shr4Xor(a, b);
    XorLaws(a, b, a >> 4, b >> 4);
  }

  lemma Shr2Xor(a: bv8, b: bv8)
    ensures Xor(a, b) >> 2 == Xor(a >> 2, b >> 2)
  {
  }

  lemma Fold2Linear(a: bv8, b: bv8)
    ensures Fold2(Xor(a, b)) == Xor(Fold2(a), Fold2(b))
  {
    hide Xor;
    Shr2Xor(a, b);
    XorLaws(a, b, a >> 2, b >> 2);
  }

  lemma Shr1Xor(a: bv8, b: bv8)
    ensures Xor(a, b) >> 1 == Xor(a >> 1, b >> 1)
  {
  }

  lemma Fold1Linear(a: bv8, b: bv8)
    ensures Fold1(Xor(a, b)) == Xor(Fold1(a), Fold1(b))
  {
    hide Xor;
    Shr1Xor(a, b);
    XorLaws(a, b, a >> 1, b >> 1);
  }

  lemma LowXor(a: bv8, b: bv8)
    ensures Xor(a, b) & 1 != 0 <==> (a & 1 != 0) != (b & 1 != 0)
  {
  }

  lemma OddXor(a: bv8, b: bv8)
    ensures Odd(Xor(a, b)) == (Odd(a) != Odd(b))
  {
    hide Fold4, Fold2, Fold1, Xor;
    var a4, b4 := Fold4(a), Fold4(b);
    var a2, b2 := Fold2(a4), Fold2(b4);
    Fold4Linear(a, b);
    Fold2Linear(a4, b4);
    Fold1Linear(a2, b2);
    LowXor(Fold1(a2), Fold1(b2));
  }

  lemma ShiftBitParity(a: bv8)
    ensures Odd(ShiftBit(a)) == Odd(a)
  {
  }

  lemma ShiftByteParity(a: bv8)
    ensures Odd(ShiftByte(a)) == Odd(a)
  {
    hide ShiftBit, Odd;
    var a1 := ShiftBit(a);
    var a2 := ShiftBit(a1);
    var a3 := ShiftBit(a2);
    var a4 := ShiftBit(a3);
    var a5 := ShiftBit(a4);
    var a6 := ShiftBit(a5);
    var a7 := ShiftBit(a6);
    ShiftBitParity(a);
    ShiftBitParity(a1);
    ShiftBitParity(a2);
    ShiftBitParity(a3);
    ShiftBitParity(a4);
    ShiftBitParity(a5);
    ShiftBitParity(a6);
    ShiftBitParity(a7);
  }

  lemma {:induction false} CrcParity(c: bv8, bytes: seq<bv8>)
    ensures Odd(Crc(c, bytes)) == (Odd(c) != OddAll(bytes))
    decreases |bytes|
  {
    hide ShiftByte, Odd, Xor;
    if bytes != [] {
      OddXor(c, bytes[0]);
      ShiftByteParity(Xor(c, bytes[0]));
      CrcParity(ShiftByte(Xor(c, bytes[0])), bytes[1..]);
    }
  }

  /** The checksum has the bit parity of the message. */
  lemma ChecksumParity(bytes: seq<bv8>)
    ensures Odd(Checksum(bytes)) == OddAll(bytes)
  {
    assert !Odd(0);
    hide Odd;
    CrcParity(0, bytes);
  }

  /** Any odd number of flipped bits anywhere in a sealed frame of any length is detected. */
  lemma OddErrorsDetected(message: seq<bv8>, error: seq<bv8>)
    requires |error| == |Seal(message)| && OddAll(error)
    ensures
      var received := XorAll(Seal(message), error);
      var n := |message|;
      received[n] != Checksum(received[..n])
  {
    var received := XorAll(Seal(message), error);
    ReceivedResidue(message, error);
    ChecksumParity(error);
    assert !Odd(0);
    hide Odd;
    assert Checksum(error) != 0;
  }

  lemma ReceivedResidue(message: seq<bv8>, error: seq<bv8>)
    requires |error| == |Seal(message)|
    ensures
      var received := XorAll(Seal(message), error);
      var n := |message|;
      received[n] == Checksum(received[..n]) <==> Checksum(error) == 0
  {
    hide Crc, Xor;
    var received := XorAll(Seal(message), error);
    var n := |message|;
    ChecksumLinear(Seal(message), error);
    ResidueZero(message, Checksum(message));
    XorZero(Checksum(error));
    assert received == received[..n] + [received[n]];
    ResidueZero(received[..n], received[n]);
  }

  predicate ZeroOutside(error: seq<bv8>, at: nat) {
    forall i :: 0 <= i < |error| && i != at ==> error[i] == 0
  }

  lemma {:induction false} CrcOfZeroes(c: bv8, bytes: seq<bv8>)
    requires forall i :: 0 <= i < |bytes| ==> bytes[i] == 0
    ensures Crc(c, bytes) == 0 <==> c == 0
    decreases |bytes|
  {
    hide ShiftByte, Xor;
    if bytes != [] {
      XorZero(c);
      ShiftByteKernel(c);
      ShiftByteZero();
      CrcOfZeroes(ShiftByte(c), bytes[1..]);
    }
  }

  /** Any change confined to a single byte of a sealed frame is detected. */
  lemma SingleByteErrorsDetected(message: seq<bv8>, error: seq<bv8>, at: nat)
    requires |error| == |Seal(message)| && at < |error| && error[at] != 0 && ZeroOutside(error, at)
    ensures
      var received := XorAll(Seal(message), error);
      var n := |message|;
      received[n] != Checksum(received[..n])
  {
    hide ShiftByte, Crc, Xor;
    ReceivedResidue(message, error);
    var rest := error[at + 1..];
    assert error == error[..at] + [error[at]] + rest;
    CrcAppend(0, error[..at] + [error[at]], rest);
    CrcAppend(0, error[..at], [error[at]]);
    CrcOfZeroes(0, error[..at]);
    CrcOne(0, error[at]);
    XorZero(error[at]);
    ShiftByteKernel(error[at]);
    CrcOfZeroes(ShiftByte(error[at]), rest);
  }
}
