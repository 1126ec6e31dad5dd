# simd4i: dlib's four-lane signed 32-bit integer vector

`dlib::simd4i` (ARM NEON flavour) wraps one 128-bit register holding four
signed 32-bit lanes. It can be built from one value (copied into every lane),
from four values, or from a raw register. It loads from and stores to a
caller's buffer of `int32`. It reads single lanes, and provides lanewise
arithmetic (`+ - *`, wrapping modulo 2^32), bitwise logic (`& | ^ ~`), shifts
by a uniform count, comparisons that yield all-ones / all-zeros masks,
`min`/`max`, a pairwise horizontal `sum`, and a bitwise blend `select`.

The model has four modules:

- `Bits` (bits.dfy): binary digits of a natural number, least significant
  first (`ToBits`/`FromBits` and their round trips), and the digit-wise
  operations a register performs (not, and, or, xor, shift left).
- `Int32` (int32.dfy): one lane. `int32` is the range newtype
  -2^31 .. 2^31-1. `Wrap` gives the lane a fixed-width operation yields for
  an exact result. `BitsOf` is the lane's 32-bit two's-complement pattern.
  The lane operations are stated on those bits (and/or/xor/not, `<<`) or on
  the integers (`>>` as floor division by 2^n, min, max).
- `Simd` (simd4i.dfy): the register value `Int32x4`, the free operators as
  pure functions over it, and the class `Simd4i`. Its field `x` is the
  register. Loading, `operator=` and the compound operators overwrite it.
  Storing writes the caller's `array<int32>`. `operator[]` and `operator>>`
  go through a local array filled by `store`, as the source does.
- `SimdLaws` (simd4i_laws.dfy): how the operators relate. It covers the
  derived comparisons, mask shape, `select` against `min`/`max`, inverses
  (`~~v`, `(a+b)-b`, `(a^b)^b`), `<<` as a multiplication, `>>` commuting
  with `~`, and load/store round trips.

Every lane operation is exact. No lane result is left unspecified, and
wrap-around is written out as reduction modulo 2^32 into the signed range.

## Model

| member | source | states |
|---|---|---|
| Simd.Broadcast | dlib/android/include/dlib/simd/simd4i.h:18 | every lane of the result is the given value |
| Simd.Simd4i.FromScalar | dlib/android/include/dlib/simd/simd4i.h:18 | the broadcast constructor puts f in all four lanes |
| Simd.Simd4i.constructor | dlib/android/include/dlib/simd/simd4i.h:19-23 | the four-value constructor puts r0..r3 in lanes 0..3 in that order |
| Simd.Simd4i.FromRegister | dlib/android/include/dlib/simd/simd4i.h:24 | construction from a register keeps the register as it is |
| Simd.Simd4i.Assign | dlib/android/include/dlib/simd/simd4i.h:26-30 | assignment from a register replaces the field with it |
| Simd.Simd4i.AsUnsigned | dlib/android/include/dlib/simd/simd4i.h:33 | the unsigned view has four lanes, each below 2^32, each with the same 32 bits as the signed lane |
| Int32.Unsigned | dlib/android/include/dlib/simd/simd4i.h:33 | a lane read unsigned is below 2^32 and has the lane's bit pattern |
| Simd.FromSeq | dlib/android/include/dlib/simd/simd4i.h:35-37 | the register loaded from four elements has them as lanes 0..3, and storing it gives them back |
| Simd.Simd4i.LoadAligned | dlib/android/include/dlib/simd/simd4i.h:35 | the field becomes the four elements from the offset on, in order |
| Simd.Simd4i.Load | dlib/android/include/dlib/simd/simd4i.h:37 | the same contract as the aligned load |
| Simd.Simd4i.StoreAligned | dlib/android/include/dlib/simd/simd4i.h:36 | the four lanes are written in order from the offset on, and every other element is unchanged |
| Simd.Simd4i.Store | dlib/android/include/dlib/simd/simd4i.h:38 | the same contract as the aligned store |
| Simd.Simd4i.Size | dlib/android/include/dlib/simd/simd4i.h:40 | `size()` is always 4 |
| Simd.Simd4i.Index | dlib/android/include/dlib/simd/simd4i.h:41-46 | reading index idx < 4 through the stored copy gives lane idx |
| Int32.Wrap | dlib/android/include/dlib/simd/simd4i.h:64-87 | the wrapped lane has the exact result's 32-bit pattern, and equals the exact result when that fits |
| Simd.Add | dlib/android/include/dlib/simd/simd4i.h:64-67 | each lane is the sum of the lanes modulo 2^32 |
| Simd.Simd4i.AddAssign | dlib/android/include/dlib/simd/simd4i.h:68-69 | `+=` leaves lhs equal to lhs + rhs and returns that value |
| Simd.Sub | dlib/android/include/dlib/simd/simd4i.h:73-76 | each lane is the difference of the lanes modulo 2^32 |
| Simd.Simd4i.SubAssign | dlib/android/include/dlib/simd/simd4i.h:77-78 | `-=` leaves lhs equal to lhs - rhs and returns it |
| Simd.Mul | dlib/android/include/dlib/simd/simd4i.h:82-85 | each lane is the product of the lanes modulo 2^32 |
| Simd.Simd4i.MulAssign | dlib/android/include/dlib/simd/simd4i.h:86-87 | `*=` leaves lhs equal to lhs * rhs and returns it |
| Int32.And | dlib/android/include/dlib/simd/simd4i.h:93 | a lane's bits are the and of the operands' bits |
| Simd.And | dlib/android/include/dlib/simd/simd4i.h:91-94 | bit k of lane i is set exactly when it is set in both operands |
| Simd.Simd4i.AndAssign | dlib/android/include/dlib/simd/simd4i.h:95-96 | `&=` leaves lhs equal to lhs & rhs and returns it |
| Int32.Or | dlib/android/include/dlib/simd/simd4i.h:102 | a lane's bits are the or of the operands' bits |
| Simd.Or | dlib/android/include/dlib/simd/simd4i.h:100-103 | bit k of lane i is set exactly when it is set in either operand |
| Simd.Simd4i.OrAssign | dlib/android/include/dlib/simd/simd4i.h:104-105 | the or-assignment leaves lhs equal to the or of lhs and rhs and returns it |
| Int32.Xor | dlib/android/include/dlib/simd/simd4i.h:111 | a lane's bits are the exclusive or of the operands' bits |
| Simd.Xor | dlib/android/include/dlib/simd/simd4i.h:109-112 | bit k of lane i is set exactly when the operands' bits differ |
| Simd.Simd4i.XorAssign | dlib/android/include/dlib/simd/simd4i.h:113-114 | `^=` leaves lhs equal to lhs ^ rhs and returns it |
| Int32.Not | dlib/android/include/dlib/simd/simd4i.h:120 | every bit of the lane is flipped, and the lane is -1 - a |
| Simd.Not | dlib/android/include/dlib/simd/simd4i.h:118-121 | every bit of every lane is flipped; each lane is -1 - lane |
| SimdLaws.NotInvolutive | dlib/android/include/dlib/simd/simd4i.h:118-121 | `~~v == v` |
| SimdLaws.NotIsXorAllOnes | dlib/android/include/dlib/simd/simd4i.h:109-121 | `~v == v ^ simd4i(-1)` |
| SimdLaws.XorInvolutive | dlib/android/include/dlib/simd/simd4i.h:109-112 | `(a ^ b) ^ b == a` |
| SimdLaws.NotAndIsOrNot | dlib/android/include/dlib/simd/simd4i.h:91-121 | the complement of an and is the or of the complements (De Morgan) |
| Int32.ShiftLeft | dlib/android/include/dlib/simd/simd4i.h:127 | the lane's bits move up n places with zeros coming in, and the lane is a * 2^n modulo 2^32 |
| Simd.ShiftLeft | dlib/android/include/dlib/simd/simd4i.h:125-128 | for 0 <= n < 32, every lane is shifted left by n bits, i.e. multiplied by 2^n modulo 2^32 |
| Simd.Simd4i.ShiftLeftAssign | dlib/android/include/dlib/simd/simd4i.h:129-130 | `<<=` leaves lhs equal to lhs << n and returns it |
| SimdLaws.ShiftLeftIsMul | dlib/android/include/dlib/simd/simd4i.h:82-128 | `v << n == v * simd4i(1 << n)` for 0 <= n < 32 |
| Int32.ShiftRight | dlib/android/include/dlib/simd/simd4i.h:137-140 | `lane >> n` is the floor of lane / 2^n and has the lane's sign |
| Int32.ShiftRightBits | dlib/android/include/dlib/simd/simd4i.h:137-140 | bit k of `a >> n` is bit k+n of a, and the sign bit fills the top n bits |
| Int32.ShiftRightNot | dlib/android/include/dlib/simd/simd4i.h:137-140 | `(~a) >> n == ~(a >> n)` on one lane |
| Simd.ShiftRight | dlib/android/include/dlib/simd/simd4i.h:134-141 | every lane is floor-divided by 2^n, keeps its sign, and has its sign bit copied into the top n bits |
| Simd.ShiftRightLanes | dlib/android/include/dlib/simd/simd4i.h:134-141 | storing the lanes, shifting each element and rebuilding the register gives `ShiftRight` of the register |
| Simd.Simd4i.ShiftRightAssign | dlib/android/include/dlib/simd/simd4i.h:142-143 | `>>=` leaves lhs equal to lhs >> n and returns it |
| SimdLaws.ShiftRightNot | dlib/android/include/dlib/simd/simd4i.h:118-141 | `(~v) >> n == ~(v >> n)` |
| SimdLaws.ShiftRightKeepsSign | dlib/android/include/dlib/simd/simd4i.h:134-141 | -8 >> 1 is -4 |
| Int32.MaskLaneBits | dlib/android/include/dlib/simd/simd4i.h:149 | a lane has all bits set exactly when it is -1, and none exactly when it is 0 |
| Int32.Mask | dlib/android/include/dlib/simd/simd4i.h:149 | a comparison lane is -1 (all bits set) when the comparison holds and 0 (no bit set) otherwise |
| Simd.Eq | dlib/android/include/dlib/simd/simd4i.h:147-150 | the result is a mask whose lane i is -1 exactly when a and b agree in lane i |
| Simd.Ne | dlib/android/include/dlib/simd/simd4i.h:154-157 | the result is a mask whose lane i is -1 exactly when the lanes differ |
| Simd.NotMask | dlib/android/include/dlib/simd/simd4i.h:154-157 | the complement of a mask is a mask with -1 and 0 exchanged in every lane |
| SimdLaws.EqReflexive | dlib/android/include/dlib/simd/simd4i.h:147-157 | `v == v` is all -1 and `v != v` all 0 |
| Simd.Lt | dlib/android/include/dlib/simd/simd4i.h:161-164 | a mask whose lane i is -1 exactly when a's lane is less than b's (signed) |
| Simd.Gt | dlib/android/include/dlib/simd/simd4i.h:168-171 | a mask whose lane i is -1 exactly when a's lane is greater than b's |
| Simd.Le | dlib/android/include/dlib/simd/simd4i.h:175-178 | a mask whose lane i is -1 exactly when a's lane is at most b's |
| Simd.Ge | dlib/android/include/dlib/simd/simd4i.h:182-185 | a mask whose lane i is -1 exactly when a's lane is at least b's |
| SimdLaws.GeIsNotLt | dlib/android/include/dlib/simd/simd4i.h:161-185 | `a >= b == ~(a < b)`; in every lane exactly one of them is -1 |
| SimdLaws.GtIsNotLe | dlib/android/include/dlib/simd/simd4i.h:168-178 | `a > b == ~(a <= b)`; in every lane exactly one of them is -1 |
| SimdLaws.OrMaskLane | dlib/android/include/dlib/simd/simd4i.h:100-103 | or-ing two masks gives -1 in a lane exactly where either mask is -1 |
| SimdLaws.LeIsLtOrEq | dlib/android/include/dlib/simd/simd4i.h:147-178 | `a <= b` is the or of `a < b` and `a == b` |
| Int32.Min | dlib/android/include/dlib/simd/simd4i.h:191 | the lane minimum is at most both lanes and is one of them |
| Int32.Max | dlib/android/include/dlib/simd/simd4i.h:198 | the lane maximum is at least both lanes and is one of them |
| Simd.Min | dlib/android/include/dlib/simd/simd4i.h:189-192 | each lane is at most both operands' lanes and equal to one of them |
| Simd.Max | dlib/android/include/dlib/simd/simd4i.h:196-199 | each lane is at least both operands' lanes and equal to one of them |
| SimdLaws.MinPlusMax | dlib/android/include/dlib/simd/simd4i.h:189-199 | `min(a, b) + max(a, b) == a + b` |
| Simd.Sum | dlib/android/include/dlib/simd/simd4i.h:203-207 | the high-plus-low pairwise sum equals r0 + r1 + r2 + r3 modulo 2^32 |
| SimdLaws.SumOfOneToFour | dlib/android/include/dlib/simd/simd4i.h:203-207 | the lanes 1, 2, 3, 4 sum to 10 |
| Simd.Select | dlib/android/include/dlib/simd/simd4i.h:211-215 | bit k of lane i comes from a where the control bit is set and from b where it is clear |
| SimdLaws.SelectMaskLane | dlib/android/include/dlib/simd/simd4i.h:211-215 | under a mask lane of -1 the blend gives a's lane, under 0 b's lane |
| SimdLaws.SelectByMask | dlib/android/include/dlib/simd/simd4i.h:211-215 | with a mask, `select` picks a's lane where the mask is -1 and b's where it is 0 |
| SimdLaws.SelectSame | dlib/android/include/dlib/simd/simd4i.h:211-215 | `select(c, a, a) == a` for every control |
| SimdLaws.SelectLtIsMin | dlib/android/include/dlib/simd/simd4i.h:161-215 | `select(a < b, a, b) == min(a, b)` |
| SimdLaws.SelectLtIsMax | dlib/android/include/dlib/simd/simd4i.h:161-215 | `select(a < b, b, a) == max(a, b)` |
| SimdLaws.AddSubInverse | dlib/android/include/dlib/simd/simd4i.h:64-76 | `(a + b) - b == a`, wrap-around included |
| SimdLaws.ConstructThenIndex | dlib/android/include/dlib/simd/simd4i.h:19-46 | `simd4i(r0, r1, r2, r3)[i]` is ri for i in 0..3 |
| SimdLaws.LoadThenStore | dlib/android/include/dlib/simd/simd4i.h:35-38 | `load(p)` then `store(q)` copies p's four elements to q and leaves the rest of q alone |
| SimdLaws.StoreThenLoad | dlib/android/include/dlib/simd/simd4i.h:35-38 | `store(p)` then `load(p)` gives the loading object the stored register |

## Left out

- `operator<<` to `std::ostream` (simd4i.h:54-60) is stream I/O and is not modelled.
- The default constructor (simd4i.h:17) leaves the lanes unspecified. It fixes no lane value, so there is nothing to state about it, and it is not modelled.
- The conversions to and from `int32x4_t` (simd4i.h:24, 26-30, 32) treat the register as the value itself. The `uint32x4_t` view (simd4i.h:33) is the unsigned reading of each lane's bits.
- Alignment: `load_aligned`/`store_aligned` require a 16-byte aligned pointer. The model has no addresses. A buffer is an array plus an offset, and the aligned and unaligned variants share one contract.
- Simd.ShiftLeft: counts outside 0..31 are defined by the hardware (`vshlq_s32` reads the signed low byte of each count lane, so `v << -1` is `v >> 1` and a count of 32 or more gives 0), but they are not modelled; the precondition 0 <= n < 32 excludes them.
- Simd.ShiftRight: a C++ `>>` by a negative count or by 32 or more is undefined behaviour. The count is a precondition 0 <= n < 32. For negative lanes it is an arithmetic shift, as the compilers dlib targets implement it.
- Simd.Simd4i.Index: an index of 4 or more reads outside the local array. That is the caller's error, so it is a precondition.
- The float vector `simd4f` (simd4f.h) and the application glue (mainwindow.cpp) are not part of this model. The float comparisons reuse this type's mask and `~`, which are modelled here.
- The compound operators take the right-hand side as a register value, not as a second `simd4i` object. Only the left-hand object is updated in place.
- Simd.Simd4i.Assign and the compound operators: the source returns `simd4i&`, a reference to the left-hand object. The model returns nothing from `Assign`, and the compound methods return the new register value. A chained `(a += b) += c` is modelled as two calls in a row on the same object.
