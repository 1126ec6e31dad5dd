/** How the `simd4i` operators relate to one another: the derived
    comparisons, masks and blends, and the inverse and reference forms of the
    arithmetic. */
module SimdLaws {
  import opened Bits
  import Int32
  import opened Simd

  // ---------------------------------------------------------------------
  // Complement and the derived comparisons.

  /** `~~v == v`. */
  lemma NotInvolutive(v: Int32x4)
    ensures Not(Not(v)) == v
  {
    forall i: nat | i < 4
      ensures Not(Not(v)).Lane(i) == v.Lane(i)
    {
      assert Not(Not(v)).Lane(i) as int == -1 - Not(v).Lane(i) as int;
    }
    LanesEqual(Not(Not(v)), v);
  }

  /** Complementing is exclusive or with all ones. */
  lemma NotIsXorAllOnes(v: Int32x4)
    ensures Not(v) == Xor(v, Broadcast(-1))
  {
    forall i: nat | i < 4
      ensures Not(v).Lane(i) == Xor(v, Broadcast(-1)).Lane(i)
    {
      Int32.MaskLaneBits(-1);
      var lhs, rhs := Int32.BitsOf(Not(v).Lane(i)), Int32.BitsOf(Xor(v, Broadcast(-1)).Lane(i));
      assert forall k | 0 <= k < 32 :: lhs[k] == rhs[k];
      assert lhs == rhs;
      Int32.BitsOfInjective(Not(v).Lane(i), Xor(v, Broadcast(-1)).Lane(i));
    }
    LanesEqual(Not(v), Xor(v, Broadcast(-1)));
  }

  /** Exclusive or with the same value twice gives the value back. */
  lemma XorInvolutive(a: Int32x4, b: Int32x4)
    ensures Xor(Xor(a, b), b) == a
  {
    var r := Xor(Xor(a, b), b);
    forall i: nat | i < 4
      ensures r.Lane(i) == a.Lane(i)
    {
      assert Int32.BitsOf(r.Lane(i)) == Int32.BitsOf(a.Lane(i));
      Int32.BitsOfInjective(r.Lane(i), a.Lane(i));
    }
    LanesEqual(r, a);
  }

  /** De Morgan: `~(a & b) == ~a | ~b`. */
  lemma NotAndIsOrNot(a: Int32x4, b: Int32x4)
    ensures Not(And(a, b)) == Or(Not(a), Not(b))
  {
    var l, r := Not(And(a, b)), Or(Not(a), Not(b));
    forall i: nat | i < 4
      ensures l.Lane(i) == r.Lane(i)
    {
      assert Int32.BitsOf(l.Lane(i)) == Int32.BitsOf(r.Lane(i));
      Int32.BitsOfInjective(l.Lane(i), r.Lane(i));
    }
    LanesEqual(l, r);
  }

  /** `v == v` is all true and `v != v` all false. */
  lemma EqReflexive(v: Int32x4)
    ensures Eq(v, v) == Broadcast(-1)
    ensures Ne(v, v) == Broadcast(0)
  {
    LanesEqual(Eq(v, v), Broadcast(-1));
    LanesEqual(Ne(v, v), Broadcast(0));
  }

  /** `a >= b` is the complement of `a < b`: in every lane exactly one of them
      is true. */
  lemma GeIsNotLt(a: Int32x4, b: Int32x4)
    ensures Ge(a, b) == Not(Lt(a, b))
    ensures forall i: nat | i < 4 :: (Lt(a, b).Lane(i) == -1) != (Ge(a, b).Lane(i) == -1)
  {
    NotMask(Lt(a, b));
    LanesEqual(Ge(a, b), Not(Lt(a, b)));
  }

  /** `a > b` is the complement of `a <= b`. */
  lemma GtIsNotLe(a: Int32x4, b: Int32x4)
    ensures Gt(a, b) == Not(Le(a, b))
    ensures forall i: nat | i < 4 :: (Le(a, b).Lane(i) == -1) != (Gt(a, b).Lane(i) == -1)
  {
    NotMask(Le(a, b));
    LanesEqual(Gt(a, b), Not(Le(a, b)));
  }

  /** Lane i of the or of two masks is true exactly where either is. */
  lemma OrMaskLane(p: Int32x4, q: Int32x4, i: nat)
    requires IsMask(p) && IsMask(q) && i < 4
    ensures Or(p, q).Lane(i) == Int32.Mask(p.Lane(i) == -1 || q.Lane(i) == -1)
  {
    var x := Or(p, q).Lane(i);
    Int32.MaskLaneBits(p.Lane(i));
    Int32.MaskLaneBits(q.Lane(i));
    if p.Lane(i) == -1 || q.Lane(i) == -1 {
      assert Bits.AllSet(Int32.BitsOf(x));
    } else {
      assert Bits.NoneSet(Int32.BitsOf(x));
    }
    Int32.MaskLaneBits(x);
  }

  /** `a <= b` is `(a < b) | (a == b)`. */
  lemma LeIsLtOrEq(a: Int32x4, b: Int32x4)
    ensures Le(a, b) == Or(Lt(a, b), Eq(a, b))
  {
    var lt, eq := Lt(a, b), Eq(a, b);
    forall i: nat | i < 4
      ensures Le(a, b).Lane(i) == Or(lt, eq).Lane(i)
    {
      OrMaskLane(lt, eq, i);
    }
    LanesEqual(Le(a, b), Or(lt, eq));
  }

  // ---------------------------------------------------------------------
  // Blending.

  /** Lane i of a blend under a mask: all ones picks a's lane, zero b's. */
  lemma SelectMaskLane(c: Int32x4, a: Int32x4, b: Int32x4, i: nat)
    requires i < 4 && (c.Lane(i) == -1 || c.Lane(i) == 0)
    ensures Select(c, a, b).Lane(i) == if c.Lane(i) == -1 then a.Lane(i) else b.Lane(i)
  {
    var r := Select(c, a, b).Lane(i);
    var pick := if c.Lane(i) == -1 then a.Lane(i) else b.Lane(i);
    Int32.MaskLaneBits(c.Lane(i));
    assert forall k | 0 <= k < 32 :: Int32.BitsOf(r)[k] == Int32.BitsOf(pick)[k];
    assert Int32.BitsOf(r) == Int32.BitsOf(pick);
    Int32.BitsOfInjective(r, pick);
  }

  /** With a mask, `select` picks a's lane where the mask is true and b's
      where it is false. */
  lemma SelectByMask(c: Int32x4, a: Int32x4, b: Int32x4)
    requires IsMask(c)
    ensures forall i: nat | i < 4 ::
      Select(c, a, b).Lane(i) == if c.Lane(i) == -1 then a.Lane(i) else b.Lane(i)
  {
    forall i: nat | i < 4
      ensures Select(c, a, b).Lane(i) == if c.Lane(i) == -1 then a.Lane(i) else b.Lane(i)
    {
      SelectMaskLane(c, a, b, i);
    }
  }

  /** Blending a value with itself gives that value, whatever the control. */
  lemma SelectSame(c: Int32x4, a: Int32x4)
    ensures Select(c, a, a) == a
  {
    var r := Select(c, a, a);
    forall i: nat | i < 4
      ensures r.Lane(i) == a.Lane(i)
    {
      assert Int32.BitsOf(r.Lane(i)) == Int32.BitsOf(a.Lane(i));
      Int32.BitsOfInjective(r.Lane(i), a.Lane(i));
    }
    LanesEqual(r, a);
  }

  /** `select(a < b, a, b)` is `min(a, b)`. */
  lemma SelectLtIsMin(a: Int32x4, b: Int32x4)
    ensures Select(Lt(a, b), a, b) == Min(a, b)
  {
    SelectByMask(Lt(a, b), a, b);
    LanesEqual(Select(Lt(a, b), a, b), Min(a, b));
  }

  /** `select(a < b, b, a)` is `max(a, b)`. */
  lemma SelectLtIsMax(a: Int32x4, b: Int32x4)
    ensures Select(Lt(a, b), b, a) == Max(a, b)
  {
    SelectByMask(Lt(a, b), b, a);
    LanesEqual(Select(Lt(a, b), b, a), Max(a, b));
  }

  // ---------------------------------------------------------------------
  // Arithmetic.

  /** Subtraction undoes addition, wrap-around included. */
  lemma AddSubInverse(a: Int32x4, b: Int32x4)
    ensures Sub(Add(a, b), b) == a
  {
    var s := Add(a, b);
    forall i: nat | i < 4
      ensures Sub(s, b).Lane(i) == a.Lane(i)
    {
      Int32.CongruentTransitive(Sub(s, b).Lane(i) as int, s.Lane(i) as int - b.Lane(i) as int, a.Lane(i) as int);
      Int32.CongruentEqual(Sub(s, b).Lane(i), a.Lane(i));
    }
    LanesEqual(Sub(s, b), a);
  }

  lemma CongruentFactor(v: int, w: int, p: int)
    requires Int32.Congruent(w, p)
    ensures Int32.Congruent(v * w, v * p)
  {
    var k := (w - p) / Int32.Modulus;
    assert w - p == Int32.Modulus * k;
    assert v * w - v * p == Int32.Modulus * (v * k);
  }

  /** `v << n` is `v * (1 << n)`, both modulo 2^32. */
  lemma ShiftLeftIsMul(v: Int32x4, n: int)
    requires 0 <= n < 32
    ensures ShiftLeft(v, n) == Mul(v, Broadcast(Int32.Wrap(Pow2(n))))
  {
    var w := Int32.Wrap(Pow2(n));
    var l, r := ShiftLeft(v, n), Mul(v, Broadcast(w));
    forall i: nat | i < 4
      ensures l.Lane(i) == r.Lane(i)
    {
      var x := v.Lane(i) as int;
      CongruentFactor(x, w as int, Pow2(n));
      Int32.CongruentTransitive(r.Lane(i) as int, x * w as int, x * Pow2(n));
      Int32.CongruentToSame(l.Lane(i), r.Lane(i), x * Pow2(n));
    }
    LanesEqual(l, r);
  }

  /** Complementing before or after `>>` gives the same register. */
  lemma ShiftRightNot(v: Int32x4, n: int)
    requires 0 <= n < 32
    ensures ShiftRight(Not(v), n) == Not(ShiftRight(v, n))
  {
    Int32.ShiftRightNot(v.r0, n);
    Int32.ShiftRightNot(v.r1, n);
    Int32.ShiftRightNot(v.r2, n);
    Int32.ShiftRightNot(v.r3, n);
  }

  /** `min(a, b) + max(a, b) == a + b`: the two pick the lanes between them. */
  lemma MinPlusMax(a: Int32x4, b: Int32x4)
    ensures Add(Min(a, b), Max(a, b)) == Add(a, b)
  {
    var l, r := Add(Min(a, b), Max(a, b)), Add(a, b);
    forall i: nat | i < 4
      ensures l.Lane(i) == r.Lane(i)
    {
      var s := a.Lane(i) as int + b.Lane(i) as int;
      assert Min(a, b).Lane(i) as int + Max(a, b).Lane(i) as int == s;
      Int32.CongruentToSame(l.Lane(i), r.Lane(i), s);
    }
    LanesEqual(l, r);
  }

  /** The lanes 1, 2, 3, 4 sum to 10. */
  lemma SumOfOneToFour()
    ensures Sum(Int32x4(1, 2, 3, 4)) == 10
  {
    Int32.CongruentEqual(Sum(Int32x4(1, 2, 3, 4)), 10);
  }

  /** -8 >> 1 is -4: the shift keeps the sign. */
  lemma ShiftRightKeepsSign()
    ensures ShiftRight(Int32x4(-8, 0, 0, 0), 1).r0 == -4
  {
  }

  // ---------------------------------------------------------------------
  // Clients of the class.

  /** Constructing from four values and reading every lane back with
      `operator[]` gives the four values in order. */
  method ConstructThenIndex(r0: Int32.int32, r1: Int32.int32, r2: Int32.int32, r3: Int32.int32)
    returns (l0: Int32.int32, l1: Int32.int32, l2: Int32.int32, l3: Int32.int32)
    ensures l0 == r0 && l1 == r1 && l2 == r2 && l3 == r3
  {
    var v := new Simd4i(r0, r1, r2, r3);
    l0 := v.Index(0);
    l1 := v.Index(1);
    l2 := v.Index(2);
    l3 := v.Index(3);
  }

  /** `load(p)` followed by `store(q)` copies p's four elements to q and
      leaves the rest of q alone. */
  method LoadThenStore(v: Simd4i, p: array<Int32.int32>, i: nat, q: array<Int32.int32>, j: nat)
    requires i + 4 <= p.Length && j + 4 <= q.Length
    modifies v, q
    ensures q[j..j + 4] == old(p[i..i + 4])
    ensures forall k | 0 <= k < q.Length && !(j <= k < j + 4) :: q[k] == old(q[k])
  {
    v.Load(p, i);
    v.Store(q, j);
  }

  /** `store(p)` followed by `load(p)` gives the loading object the register
      the storing object had. */
  method StoreThenLoad(v: Simd4i, w: Simd4i, p: array<Int32.int32>, i: nat)
    requires i + 4 <= p.Length
    modifies w, p
    ensures w.x == old(v.x)
  {
    v.Store(p, i);
    w.Load(p, i);
    LanesEqual(w.x, old(v.x));
  }
}
