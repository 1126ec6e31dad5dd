/** The four-lane signed 32-bit vector `simd4i`: the register value, the free
    operators over it, and the class whose load, assignment and compound
    operators overwrite the register in place. */
module Simd {
  import opened Bits
  import Int32

  type int32 = Int32.int32

  /** The 128-bit register (`int32x4_t`) as four int32 lanes, lane 0 first,
      in the order load and store use. */
  datatype Int32x4 = Int32x4(r0: int32, r1: int32, r2: int32, r3: int32)
  {
    /** Lane i. */
    function Lane(i: nat): int32
      requires i < 4
    {
      if i == 0 then r0 else if i == 1 then r1 else if i == 2 then r2 else r3
    }

    /** The lanes in the memory order `store` writes them. */
    function ToSeq(): (s: seq<int32>)
      ensures |s| == 4 && forall i: nat | i < 4 :: s[i] == Lane(i)
    {
      [r0, r1, r2, r3]
    }
  }

  /** The register `load` makes of four consecutive elements; storing it
      writes them back unchanged. */
  function FromSeq(s: seq<int32>): (v: Int32x4)
    requires |s| == 4
    ensures v.ToSeq() == s
    ensures forall i: nat | i < 4 :: v.Lane(i) == s[i]
  {
    Int32x4(s[0], s[1], s[2], s[3])
  }

  /** Registers with the same four lanes are the same register. */
  lemma LanesEqual(a: Int32x4, b: Int32x4)
    requires forall i: nat | i < 4 :: a.Lane(i) == b.Lane(i)
    ensures a == b
  {
    assert a.Lane(0) == b.Lane(0) && a.Lane(1) == b.Lane(1);
    assert a.Lane(2) == b.Lane(2) && a.Lane(3) == b.Lane(3);
  }

  /** f in every lane (`vdupq_n_s32`). */
  function Broadcast(f: int32): (v: Int32x4)
    ensures forall i: nat | i < 4 :: v.Lane(i) == f
  {
    Int32x4(f, f, f, f)
  }

  // ---------------------------------------------------------------------
  // Arithmetic (`vaddq_s32`, `vsubq_s32`, `vmulq_s32`): lanewise, modulo 2^32.

  function Add(a: Int32x4, b: Int32x4): (r: Int32x4)
    ensures forall i: nat | i < 4 :: Int32.Congruent(r.Lane(i) as int, a.Lane(i) as int + b.Lane(i) as int)
  {
    Int32x4(Int32.Wrap(a.r0 as int + b.r0 as int), Int32.Wrap(a.r1 as int + b.r1 as int),
            Int32.Wrap(a.r2 as int + b.r2 as int), Int32.Wrap(a.r3 as int + b.r3 as int))
  }

  function Sub(a: Int32x4, b: Int32x4): (r: Int32x4)
    ensures forall i: nat | i < 4 :: Int32.Congruent(r.Lane(i) as int, a.Lane(i) as int - b.Lane(i) as int)
  {
    Int32x4(Int32.Wrap(a.r0 as int - b.r0 as int), Int32.Wrap(a.r1 as int - b.r1 as int),
            Int32.Wrap(a.r2 as int - b.r2 as int), Int32.Wrap(a.r3 as int - b.r3 as int))
  }

  function Mul(a: Int32x4, b: Int32x4): (r: Int32x4)
    ensures forall i: nat | i < 4 :: Int32.Congruent(r.Lane(i) as int, a.Lane(i) as int * b.Lane(i) as int)
  {
    Int32x4(Int32.Wrap(a.r0 as int * b.r0 as int), Int32.Wrap(a.r1 as int * b.r1 as int),
            Int32.Wrap(a.r2 as int * b.r2 as int), Int32.Wrap(a.r3 as int * b.r3 as int))
  }

  // ---------------------------------------------------------------------
  // Bitwise (`vandq_s32`, `vorrq_s32`, `veorq_s32`, `vmvnq_s32`): every bit
  // of every lane on its own.

  function And(a: Int32x4, b: Int32x4): (r: Int32x4)
    ensures forall i: nat, k | i < 4 && 0 <= k < 32 ::
      Int32.BitsOf(r.Lane(i))[k] == (Int32.BitsOf(a.Lane(i))[k] && Int32.BitsOf(b.Lane(i))[k])
  {
    Int32x4(Int32.And(a.r0, b.r0), Int32.And(a.r1, b.r1),
            Int32.And(a.r2, b.r2), Int32.And(a.r3, b.r3))
  }

  function Or(a: Int32x4, b: Int32x4): (r: Int32x4)
    ensures forall i: nat, k | i < 4 && 0 <= k < 32 ::
      Int32.BitsOf(r.Lane(i))[k] == (Int32.BitsOf(a.Lane(i))[k] || Int32.BitsOf(b.Lane(i))[k])
  {
    Int32x4(Int32.Or(a.r0, b.r0), Int32.Or(a.r1, b.r1), Int32.Or(a.r2, b.r2), Int32.Or(a.r3, b.r3))
  }

  function Xor(a: Int32x4, b: Int32x4): (r: Int32x4)
    ensures forall i: nat, k | i < 4 && 0 <= k < 32 ::
      Int32.BitsOf(r.Lane(i))[k] == (Int32.BitsOf(a.Lane(i))[k] != Int32.BitsOf(b.Lane(i))[k])
  {
    Int32x4(Int32.Xor(a.r0, b.r0), Int32.Xor(a.r1, b.r1),
            Int32.Xor(a.r2, b.r2), Int32.Xor(a.r3, b.r3))
  }

  /** Complement; in two's complement this is -1 - lane. */
  function Not(v: Int32x4): (r: Int32x4)
    ensures forall i: nat, k | i < 4 && 0 <= k < 32 :: Int32.BitsOf(r.Lane(i))[k] == !Int32.BitsOf(v.Lane(i))[k]
    ensures forall i: nat | i < 4 :: r.Lane(i) as int == -1 - v.Lane(i) as int
  {
    Int32x4(Int32.Not(v.r0), Int32.Not(v.r1), Int32.Not(v.r2), Int32.Not(v.r3))
  }

  // ---------------------------------------------------------------------
  // Shifts by a count 0 <= n < 32, the same for every lane.

  /** `vshlq_s32(v, simd4i(n))`: bits move up n places, zeros come in, and
      the lane is multiplied by 2^n modulo 2^32. */
  function ShiftLeft(v: Int32x4, n: int): (r: Int32x4)
    requires 0 <= n < 32
    ensures forall i: nat, k | i < 4 && 0 <= k < 32 ::
      Int32.BitsOf(r.Lane(i))[k] == (k >= n && Int32.BitsOf(v.Lane(i))[k - n])
    ensures forall i: nat | i < 4 :: Int32.Congruent(r.Lane(i) as int, v.Lane(i) as int * Pow2(n))
  {
    Int32x4(Int32.ShiftLeft(v.r0, n), Int32.ShiftLeft(v.r1, n),
            Int32.ShiftLeft(v.r2, n), Int32.ShiftLeft(v.r3, n))
  }

  /** `lane >> n` on every lane: an arithmetic shift, the lane divided by 2^n
      rounding down, its sign kept and its sign bit copied into the top n bits. */
  function ShiftRight(v: Int32x4, n: int): (r: Int32x4)
    requires 0 <= n < 32
    ensures forall i: nat | i < 4 ::
      r.Lane(i) as int * Pow2(n) <= v.Lane(i) as int < r.Lane(i) as int * Pow2(n) + Pow2(n)
    ensures forall i: nat | i < 4 :: r.Lane(i) < 0 <==> v.Lane(i) < 0
    ensures forall i: nat, k | i < 4 && 0 <= k < 32 ::
      Int32.BitsOf(r.Lane(i))[k] == Int32.BitsOf(v.Lane(i))[if k + n < 32 then k + n else 31]
  {
    Int32.ShiftRightBits(v.r0, n);
    Int32.ShiftRightBits(v.r1, n);
    Int32.ShiftRightBits(v.r2, n);
    Int32.ShiftRightBits(v.r3, n);
    Int32x4(Int32.ShiftRight(v.r0, n), Int32.ShiftRight(v.r1, n),
            Int32.ShiftRight(v.r2, n), Int32.ShiftRight(v.r3, n))
  }

  // ---------------------------------------------------------------------
  // Comparisons: a mask, every lane all ones (-1) or all zeros.

  predicate IsMask(m: Int32x4)
  {
    forall i: nat | i < 4 :: m.Lane(i) == -1 || m.Lane(i) == 0
  }

  /** `vceqq_s32`. */
  function Eq(a: Int32x4, b: Int32x4): (m: Int32x4)
    ensures IsMask(m)
    ensures forall i: nat | i < 4 :: m.Lane(i) == -1 <==> a.Lane(i) == b.Lane(i)
  {
    Int32x4(Int32.Mask(a.r0 == b.r0), Int32.Mask(a.r1 == b.r1),
            Int32.Mask(a.r2 == b.r2), Int32.Mask(a.r3 == b.r3))
  }

  /** `a != b` is the complement of `a == b`. */
  function Ne(a: Int32x4, b: Int32x4): (m: Int32x4)
    ensures IsMask(m)
    ensures forall i: nat | i < 4 :: m.Lane(i) == -1 <==> a.Lane(i) != b.Lane(i)
  {
    NotMask(Eq(a, b));
    Not(Eq(a, b))
  }

  /** The complement of a mask is the mask with true and false exchanged. */
  lemma NotMask(m: Int32x4)
    requires IsMask(m)
    ensures IsMask(Not(m))
    ensures forall i: nat | i < 4 :: Not(m).Lane(i) == -1 <==> m.Lane(i) == 0
  {
    forall i: nat | i < 4
      ensures Not(m).Lane(i) == -1 <==> m.Lane(i) == 0
      ensures Not(m).Lane(i) == -1 || Not(m).Lane(i) == 0
    {
      assert Not(m).Lane(i) as int == -1 - m.Lane(i) as int;
    }
  }

  /** `vcltq_s32`: signed less-than. */
  function Lt(a: Int32x4, b: Int32x4): (m: Int32x4)
    ensures IsMask(m)
    ensures forall i: nat | i < 4 :: m.Lane(i) == -1 <==> a.Lane(i) < b.Lane(i)
  {
    Int32x4(Int32.Mask(a.r0 < b.r0), Int32.Mask(a.r1 < b.r1),
            Int32.Mask(a.r2 < b.r2), Int32.Mask(a.r3 < b.r3))
  }

  /** `a > b` is `b < a`. */
  function Gt(a: Int32x4, b: Int32x4): (m: Int32x4)
    ensures IsMask(m)
    ensures forall i: nat | i < 4 :: m.Lane(i) == -1 <==> a.Lane(i) > b.Lane(i)
  {
    Lt(b, a)
  }

  /** `vcleq_s32`: signed less-or-equal. */
  function Le(a: Int32x4, b: Int32x4): (m: Int32x4)
    ensures IsMask(m)
    ensures forall i: nat | i < 4 :: m.Lane(i) == -1 <==> a.Lane(i) <= b.Lane(i)
  {
    Int32x4(Int32.Mask(a.r0 <= b.r0), Int32.Mask(a.r1 <= b.r1),
            Int32.Mask(a.r2 <= b.r2), Int32.Mask(a.r3 <= b.r3))
  }

  /** `a >= b` is `b <= a`. */
  function Ge(a: Int32x4, b: Int32x4): (m: Int32x4)
    ensures IsMask(m)
    ensures forall i: nat | i < 4 :: m.Lane(i) == -1 <==> a.Lane(i) >= b.Lane(i)
  {
    Le(b, a)
  }

  // ---------------------------------------------------------------------
  // Minimum, maximum, horizontal sum, blend.

  /** `vminq_s32`. */
  function Min(a: Int32x4, b: Int32x4): (r: Int32x4)
    ensures forall i: nat | i < 4 ::
      r.Lane(i) <= a.Lane(i) && r.Lane(i) <= b.Lane(i) && (r.Lane(i) == a.Lane(i) || r.Lane(i) == b.Lane(i))
  {
    Int32x4(Int32.Min(a.r0, b.r0), Int32.Min(a.r1, b.r1),
            Int32.Min(a.r2, b.r2), Int32.Min(a.r3, b.r3))
  }

  /** `vmaxq_s32`. */
  function Max(a: Int32x4, b: Int32x4): (r: Int32x4)
    ensures forall i: nat | i < 4 ::
      r.Lane(i) >= a.Lane(i) && r.Lane(i) >= b.Lane(i) && (r.Lane(i) == a.Lane(i) || r.Lane(i) == b.Lane(i))
  {
    Int32x4(Int32.Max(a.r0, b.r0), Int32.Max(a.r1, b.r1),
            Int32.Max(a.r2, b.r2), Int32.Max(a.r3, b.r3))
  }

  /** The sum of the four lanes modulo 2^32, computed pairwise: the high half
      (lanes 2, 3) plus the low half (lanes 0, 1), then the two lanes of that
      added together. */
  function Sum(v: Int32x4): (s: int32)
    ensures Int32.Congruent(s as int, v.r0 as int + v.r1 as int + v.r2 as int + v.r3 as int)
  {
    var high, low := (v.r2, v.r3), (v.r0, v.r1);
    var pair := (Int32.Wrap(high.0 as int + low.0 as int), Int32.Wrap(high.1 as int + low.1 as int));
    var s := Int32.Wrap(pair.0 as int + pair.1 as int);
    CongruentSum(s as int, pair.0 as int, pair.1 as int, v.r2 as int + v.r0 as int, v.r3 as int + v.r1 as int);
    s
  }

  lemma CongruentSum(s: int, p: int, q: int, x: int, y: int)
    requires Int32.Congruent(s, p + q) && Int32.Congruent(p, x) && Int32.Congruent(q, y)
    ensures Int32.Congruent(s, x + y)
  {
  }

  /** `vbslq_s32(c, a, b)`, "c ? a : b" bit by bit: each bit comes from a
      where c's bit is set and from b where it is clear. */
  function Select(c: Int32x4, a: Int32x4, b: Int32x4): (r: Int32x4)
    ensures forall i: nat, k | i < 4 && 0 <= k < 32 ::
      Int32.BitsOf(r.Lane(i))[k] == if Int32.BitsOf(c.Lane(i))[k] then Int32.BitsOf(a.Lane(i))[k] else Int32.BitsOf(b.Lane(i))[k]
  {
    Or(And(c, a), And(Not(c), b))
  }

  // ---------------------------------------------------------------------

  /** A `simd4i` object: the register `x`, overwritten by load, assignment
      and the compound operators. */
  class Simd4i {
    var x: Int32x4

    /** `simd4i(int32 f)`. */
    constructor FromScalar(f: int32)
      ensures x == Broadcast(f)
    {
      x := Broadcast(f);
    }

    /** `simd4i(r0, r1, r2, r3)`: the lanes in that order. */
    constructor (r0: int32, r1: int32, r2: int32, r3: int32)
      ensures x == Int32x4(r0, r1, r2, r3)
    {
      x := Int32x4(r0, r1, r2, r3);
    }

    /** `simd4i(const int32x4_t&)`. */
    constructor FromRegister(v: Int32x4)
      ensures x == v
    {
      x := v;
    }

    /** `operator=(const int32x4_t&)`. */
    method Assign(v: Int32x4)
      modifies this
      ensures x == v
    {
      x := v;
    }

    /** `operator uint32x4_t`: the same 128 bits, each lane read unsigned. */
    function AsUnsigned(): (u: seq<nat>)
      reads this
      ensures |u| == 4
      ensures forall i: nat | i < 4 :: u[i] < Int32.Modulus && ToBits(u[i], 32) == Int32.BitsOf(x.Lane(i))
    {
      [Int32.Unsigned(x.r0), Int32.Unsigned(x.r1), Int32.Unsigned(x.r2), Int32.Unsigned(x.r3)]
    }

    /** `load_aligned` and `load`: the four elements from a[off] on. */
    method LoadAligned(a: array<int32>, off: nat)
      requires off + 4 <= a.Length
      modifies this
      ensures x == FromSeq(a[off..off + 4])
    {
      x := Int32x4(a[off], a[off + 1], a[off + 2], a[off + 3]);
    }

    method Load(a: array<int32>, off: nat)
      requires off + 4 <= a.Length
      modifies this
      ensures x == FromSeq(a[off..off + 4])
    {
      x := Int32x4(a[off], a[off + 1], a[off + 2], a[off + 3]);
    }

    /** `store_aligned` and `store`: the lanes into a[off..off + 4] in order,
        every other element of a left as it was. */
    method StoreAligned(a: array<int32>, off: nat)
      requires off + 4 <= a.Length
      modifies a
      ensures a[off..off + 4] == x.ToSeq()
      ensures forall j | 0 <= j < a.Length && !(off <= j < off + 4) :: a[j] == old(a[j])
    {
      a[off] := x.r0;
      a[off + 1] := x.r1;
      a[off + 2] := x.r2;
      a[off + 3] := x.r3;
    }

    method Store(a: array<int32>, off: nat)
      requires off + 4 <= a.Length
      modifies a
      ensures a[off..off + 4] == x.ToSeq()
      ensures forall j | 0 <= j < a.Length && !(off <= j < off + 4) :: a[j] == old(a[j])
    {
      a[off] := x.r0;
      a[off + 1] := x.r1;
      a[off + 2] := x.r2;
      a[off + 3] := x.r3;
    }

    /** `size()`: the number of lanes. */
    function Size(): (n: nat)
      ensures n == 4
    {
      4
    }

    /** `operator[]`: stores the register to a local array and reads element
        idx; an index past 3 is the caller's error. */
    method Index(idx: nat) returns (r: int32)
      requires idx < 4
      ensures r == x.Lane(idx)
    {
      var temp := new int32[4];
      Store(temp, 0);
      r := temp[idx];
    }

    /** The compound operators: lhs op= rhs leaves lhs equal to lhs op rhs
        and returns that value. */
    method AddAssign(rhs: Int32x4) returns (r: Int32x4)
      modifies this
      ensures x == Add(old(x), rhs) && r == x
    {
      x := Add(x, rhs);
      r := x;
    }

    method SubAssign(rhs: Int32x4) returns (r: Int32x4)
      modifies this
      ensures x == Sub(old(x), rhs) && r == x
    {
      x := Sub(x, rhs);
      r := x;
    }

    method MulAssign(rhs: Int32x4) returns (r: Int32x4)
      modifies this
      ensures x == Mul(old(x), rhs) && r == x
    {
      x := Mul(x, rhs);
      r := x;
    }

    method AndAssign(rhs: Int32x4) returns (r: Int32x4)
      modifies this
      ensures x == And(old(x), rhs) && r == x
    {
      x := And(x, rhs);
      r := x;
    }

    method OrAssign(rhs: Int32x4) returns (r: Int32x4)
      modifies this
      ensures x == Or(old(x), rhs) && r == x
    {
      x := Or(x, rhs);
      r := x;
    }

    method XorAssign(rhs: Int32x4) returns (r: Int32x4)
      modifies this
      ensures x == Xor(old(x), rhs) && r == x
    {
      x := Xor(x, rhs);
      r := x;
    }

    method ShiftLeftAssign(n: int) returns (r: Int32x4)
      requires 0 <= n < 32
      modifies this
      ensures x == ShiftLeft(old(x), n) && r == x
    {
      x := ShiftLeft(x, n);
      r := x;
    }

    method ShiftRightAssign(n: int) returns (r: Int32x4)
      requires 0 <= n < 32
      modifies this
      ensures x == ShiftRight(old(x), n) && r == x
    {
      r := ShiftRightLanes(this, n);
      x := r;
    }
  }

  /** `operator>>`: stores the lanes to a local array, shifts each element as
      a scalar int32 and builds a new register from the four results. */
  method ShiftRightLanes(lhs: Simd4i, n: int) returns (r: Int32x4)
    requires 0 <= n < 32
    ensures r == ShiftRight(lhs.x, n)
  {
    var lanes := new int32[4];
    lhs.Store(lanes, 0);
    r := Int32x4(Int32.ShiftRight(lanes[0], n), Int32.ShiftRight(lanes[1], n),
                 Int32.ShiftRight(lanes[2], n), Int32.ShiftRight(lanes[3], n));
  }
}
