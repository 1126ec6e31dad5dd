/** One lane of the vector: a signed 32-bit two's-complement integer, with the
    wrap-around of fixed-width arithmetic written out and its 32-bit pattern
    available as a digit sequence, least significant digit first. */
module Int32 {
  import opened Bits

  /** The number of distinct 32-bit patterns. */
  const Modulus: int := 0x1_0000_0000

  /** The lane type `int32` of the source. */
  newtype int32 = x: int | -0x8000_0000 <= x < 0x8000_0000

  /** x and y have the same 32-bit pattern. */
  predicate Congruent(x: int, y: int)
  {
    (x - y) % Modulus == 0
  }

  /** The int32 a fixed-width operation yields when the exact result is x:
      the one value of the lane type with x's low 32 bits. */
  function Wrap(x: int): (r: int32)
    ensures Congruent(r as int, x)
    ensures -0x8000_0000 <= x < 0x8000_0000 ==> r as int == x
  {
    ((x + 0x8000_0000) % Modulus - 0x8000_0000) as int32
  }

  /** Two lane values with the same 32-bit pattern are the same value. */
  lemma CongruentEqual(a: int32, b: int32)
    requires Congruent(a as int, b as int)
    ensures a == b
  {
  }

  /** Two lane values with the pattern of the same exact result are equal. */
  lemma CongruentToSame(a: int32, b: int32, t: int)
    requires Congruent(a as int, t) && Congruent(b as int, t)
    ensures a == b
  {
    assert Congruent(a as int, b as int);
  }

  /** The bit pattern of x read as an unsigned number: the lane as the
      source's `uint32x4_t` view of the register sees it. */
  function Unsigned(x: int32): (u: nat)
    ensures u < Modulus && Congruent(u, x as int)
  {
    if x < 0 then x as int + Modulus else x as int
  }

  /** The 32 bits of x, least significant first; bit 31 is the sign. */
  function BitsOf(x: int32): (s: seq<bool>)
    ensures |s| == 32
  {
    ToBits(Unsigned(x), 32)
  }

  /** The lane value whose 32 bits are s. */
  function OfBits(s: seq<bool>): (x: int32)
    requires |s| == 32
    ensures BitsOf(x) == s
  {
    Pow2Of32();
    ToFromBits(s);
    Wrap(FromBits(s))
  }

  lemma OfBitsOf(x: int32)
    ensures OfBits(BitsOf(x)) == x
  {
    Pow2Of32();
    FromToBits(Unsigned(x), 32);
  }

  /** A lane value is determined by its bits. */
  lemma BitsOfInjective(x: int32, y: int32)
    requires BitsOf(x) == BitsOf(y)
    ensures x == y
  {
    OfBitsOf(x);
    OfBitsOf(y);
  }

  /** -1 has every bit set and 0 none, and no other value is either. */
  lemma {:induction false} MaskLaneBits(x: int32)
    ensures AllSet(BitsOf(x)) <==> x == -1
    ensures NoneSet(BitsOf(x)) <==> x == 0
  {
    Pow2Of32();
    ToBitsAllOnes(32);
    ToBitsZero(32);
    var ones, zeros := BitsOf(-1), BitsOf(0);
    if AllSet(BitsOf(x)) {
      assert BitsOf(x) == ones;
      BitsOfInjective(x, -1);
    }
    if NoneSet(BitsOf(x)) {
      assert BitsOf(x) == zeros;
      BitsOfInjective(x, 0);
    }
  }

  /** The lane a comparison writes: all ones (-1) for true, all zeros for false. */
  function Mask(b: bool): (m: int32)
    ensures m == -1 || m == 0
    ensures m == -1 <==> b
    ensures AllSet(BitsOf(m)) <==> b
    ensures NoneSet(BitsOf(m)) <==> !b
  {
    var m: int32 := if b then -1 else 0;
    MaskLaneBits(m);
    m
  }

  /** Bitwise and, or, exclusive or and complement of one lane. */
  function And(a: int32, b: int32): (r: int32)
    ensures BitsOf(r) == AndBits(BitsOf(a), BitsOf(b))
  {
    OfBits(AndBits(BitsOf(a), BitsOf(b)))
  }

  function Or(a: int32, b: int32): (r: int32)
    ensures BitsOf(r) == OrBits(BitsOf(a), BitsOf(b))
  {
    OfBits(OrBits(BitsOf(a), BitsOf(b)))
  }

  function Xor(a: int32, b: int32): (r: int32)
    ensures BitsOf(r) == XorBits(BitsOf(a), BitsOf(b))
  {
    OfBits(XorBits(BitsOf(a), BitsOf(b)))
  }

  function Not(a: int32): (r: int32)
    ensures BitsOf(r) == NotBits(BitsOf(a))
    ensures r as int == -1 - a as int
  {
    Pow2Of32();
    FromBitsNot(BitsOf(a));
    FromToBits(Unsigned(a), 32);
    var r := OfBits(NotBits(BitsOf(a)));
    CongruentEqual(r, (-1 - a as int) as int32);
    r
  }

  lemma CongruentTransitive(x: int, y: int, z: int)
    requires Congruent(x, y) && Congruent(y, z)
    ensures Congruent(x, z)
  {
  }

  /** Multiplying two values with the same pattern by p gives values with
      the same pattern. */
  lemma CongruentScale(u: int, a: int, p: int)
    requires u == a || u == a + Modulus
    ensures Congruent(u * p, a * p)
  {
    if u != a {
      assert u * p == a * p + Modulus * p;
    }
  }

  /** The low 32 digits of v have v's 32-bit pattern. */
  lemma LowBitsCongruent(v: nat)
    ensures Congruent(FromBits(ToBits(v, 32)), v)
  {
    Pow2Of32();
    var h := ToBitsRemainder(v, 32);
    assert v == FromBits(ToBits(v, 32)) + Modulus * h;
  }

  /** Shifting the bits of a lane left is multiplying it by 2^n modulo 2^32. */
  lemma ShiftLeftWraps(a: int32, n: nat)
    requires n < 32
    ensures Congruent(OfBits(ShiftBitsLeft(BitsOf(a), n)) as int, a as int * Pow2(n))
  {
    var u, p := Unsigned(a), Pow2(n);
    MulMonotone(0, u, p);
    var v: nat := u * p;
    ShiftToBits(u, 32, n);
    var s := ToBits(v, 32);
    assert ShiftBitsLeft(BitsOf(a), n) == s;
    assert Congruent(OfBits(s) as int, FromBits(s));
    LowBitsCongruent(v);
    CongruentScale(u, a as int, p);
    CongruentTransitive(OfBits(s) as int, FromBits(s), v);
    CongruentTransitive(OfBits(s) as int, v, a as int * p);
  }

  /** The source's lane shift left by a count below 32 (`vshlq_s32` with a
      uniform count). */
  function ShiftLeft(a: int32, n: nat): (r: int32)
    requires n < 32
    ensures BitsOf(r) == ShiftBitsLeft(BitsOf(a), n)
    ensures Congruent(r as int, a as int * Pow2(n))
  {
    ShiftLeftWraps(a, n);
    OfBits(ShiftBitsLeft(BitsOf(a), n))
  }

  /** Multiplying by a non-negative factor keeps the order. */
  lemma MulMonotone(x: int, y: int, p: int)
    requires x <= y && p >= 0
    ensures x * p <= y * p
  {
  }

  /** Euclidean division by a positive divisor rounds towards minus infinity
      and never moves a value further from zero. */
  lemma FloorDivision(a: int, p: int)
    requires p >= 1
    ensures (a / p) * p <= a < (a / p) * p + p
    ensures a >= 0 ==> 0 <= a / p <= a
    ensures a < 0 ==> a <= a / p < 0
  {
    var q, m := a / p, a % p;
    assert a == q * p + m && 0 <= m < p;
    if q < 0 {
      MulMonotone(q, -1, p);
      MulMonotone(1, -q, p - 1);
    } else {
      MulMonotone(1, p, q);
    }
  }

  /** The source's `int32 >> n` for 0 <= n < 32: an arithmetic shift, which
      divides by 2^n rounding towards minus infinity. */
  function ShiftRight(a: int32, n: nat): (r: int32)
    requires n < 32
    ensures r as int * Pow2(n) <= a as int < r as int * Pow2(n) + Pow2(n)
    ensures r < 0 <==> a < 0
  {
    FloorDivision(a as int, Pow2(n));
    (a as int / Pow2(n)) as int32
  }

  /** Complementing before or after an arithmetic shift gives the same lane. */
  lemma ShiftRightNot(a: int32, n: nat)
    requires n < 32
    ensures ShiftRight(Not(a), n) == Not(ShiftRight(a, n))
  {
    var p := Pow2(n);
    var q, m := a as int / p, a as int % p;
    assert a as int == p * q + m && 0 <= m < p;
    assert -1 - a as int == p * (-1 - q) + (p - 1 - m);
    DivUnique(-1 - a as int, p, -1 - q, p - 1 - m);
  }

  lemma ShiftRightBitsNonnegative(a: int32, n: nat, k: nat)
    requires a >= 0 && n < 32 && k < 32
    ensures BitsOf(ShiftRight(a, n))[k] == BitsOf(a)[if k + n < 32 then k + n else 31]
  {
    Pow2Of32();
    var u: nat := a as int;
    var r := ShiftRight(a, n);
    ToBitsDivide(u, 32, n, r as int);
    assert BitsOf(r)[k] == ToBits(u, 32 + n)[k + n];
    if k + n < 32 {
      ToBitsTake(u, 32 + n, 32);
      assert ToBits(u, 32 + n)[k + n] == ToBits(u, 32)[k + n];
    } else {
      assert Pow2(31) == 0x8000_0000;
      ToBitsHighClear(u, 32 + n, 31, k + n);
      ToBitsHighClear(u, 32, 31, 31);
    }
  }

  /** The arithmetic shift at the level of bits: bit k of a >> n is bit k + n
      of a, and the sign bit is copied into the n top bits. */
  lemma ShiftRightBits(a: int32, n: nat)
    requires n < 32
    ensures forall k :: 0 <= k < 32 ==>
      BitsOf(ShiftRight(a, n))[k] == BitsOf(a)[if k + n < 32 then k + n else 31]
  {
    forall k | 0 <= k < 32
      ensures BitsOf(ShiftRight(a, n))[k] == BitsOf(a)[if k + n < 32 then k + n else 31]
    {
      if a >= 0 {
        ShiftRightBitsNonnegative(a, n, k);
      } else {
        ShiftRightNot(a, n);
        ShiftRightBitsNonnegative(Not(a), n, k);
      }
    }
  }

  /** The signed minimum and maximum of two lanes (`vminq_s32`, `vmaxq_s32`). */
  function Min(a: int32, b: int32): (r: int32)
    ensures r <= a && r <= b && (r == a || r == b)
  {
    if a < b then a else b
  }

  function Max(a: int32, b: int32): (r: int32)
    ensures r >= a && r >= b && (r == a || r == b)
  {
    if a < b then b else a
  }
}
