/** Binary digits of natural numbers, least significant digit first, and the
    bitwise operations of a fixed-width register stated digit by digit. */
module Bits {

  /** 2 raised to the power n. */
  function Pow2(n: nat): (r: nat)
    ensures r >= 1
  {
    if n == 0 then 1 else 2 * Pow2(n - 1)
  }

  lemma {:induction false} Pow2Add(a: nat, b: nat)
    ensures Pow2(a + b) == Pow2(a) * Pow2(b)
  {
    if a > 0 {
      Pow2Add(a - 1, b);
    }
  }

  lemma Pow2Of32()
    ensures Pow2(32) == 0x1_0000_0000
  {
    assert Pow2(2) == 4;
    assert Pow2(4) == 16 by { Pow2Add(2, 2); }
    assert Pow2(8) == 256 by { Pow2Add(4, 4); }
    assert Pow2(16) == 0x1_0000 by { Pow2Add(8, 8); }
    Pow2Add(16, 16);
  }

  /** The w low-order binary digits of u, least significant first. */
  function ToBits(u: nat, w: nat): (s: seq<bool>)
    ensures |s| == w
  {
    if w == 0 then [] else [u % 2 == 1] + ToBits(u / 2, w - 1)
  }

  /** The number whose binary digits, least significant first, are s. */
  function FromBits(s: seq<bool>): (u: nat)
    ensures u < Pow2(|s|)
  {
    if s == [] then 0 else (if s[0] then 1 else 0) + 2 * FromBits(s[1..])
  }

  /** Every number below 2^w is given back by its w digits. */
  lemma {:induction false} FromToBits(u: nat, w: nat)
    requires u < Pow2(w)
    ensures FromBits(ToBits(u, w)) == u
  {
    if w > 0 {
      FromToBits(u / 2, w - 1);
      assert ToBits(u, w)[1..] == ToBits(u / 2, w - 1);
    }
  }

  /** Every digit sequence is the digit sequence of its value. */
  lemma {:induction false} ToFromBits(s: seq<bool>)
    ensures ToBits(FromBits(s), |s|) == s
  {
    if s != [] {
      ToFromBits(s[1..]);
      assert s == [s[0]] + s[1..];
    }
  }

  /** The first v of the w digits of u are the v digits of u. */
  lemma {:induction false} ToBitsTake(u: nat, w: nat, v: nat)
    requires v <= w
    ensures ToBits(u, w)[..v] == ToBits(u, v)
  {
    if v > 0 {
      ToBitsTake(u / 2, w - 1, v - 1);
      assert ToBits(u, w)[..v] == [u % 2 == 1] + ToBits(u / 2, w - 1)[..v - 1];
    }
  }

  /** Digit k of u, for k at or above j, is clear when u < 2^j. */
  lemma {:induction false} ToBitsHighClear(u: nat, w: nat, j: nat, k: nat)
    requires u < Pow2(j) && j <= k < w
    ensures !ToBits(u, w)[k]
  {
    if j == 0 {
      ToBitsZero(w);
    } else {
      ToBitsHighClear(u / 2, w - 1, j - 1, k - 1);
      assert ToBits(u, w)[k] == ToBits(u / 2, w - 1)[k - 1];
    }
  }

  /** Quotient and remainder are the only q, r with u == d * q + r, 0 <= r < d. */
  lemma DivUnique(u: int, d: int, q: int, r: int)
    requires d >= 1 && u == d * q + r && 0 <= r < d
    ensures u / d == q
  {
    var q', r' := u / d, u % d;
    assert d * (q - q') == r' - r;
    if q > q' {
      assert d * (q - q') >= d by { MulAtLeast(q - q', d); }
    } else if q < q' {
      assert d * (q' - q) >= d by { MulAtLeast(q' - q, d); }
    }
  }

  lemma MulAtLeast(x: int, d: int)
    requires x >= 1 && d >= 1
    ensures d * x >= d
  {
  }

  /** Halving and then dividing by 2^n is dividing by 2^(n+1). */
  lemma HalfThenDivide(u: nat, n: nat)
    ensures (u / 2) / Pow2(n) == u / Pow2(n + 1)
  {
    var p := Pow2(n);
    var q, m := (u / 2) / p, (u / 2) % p;
    assert u / 2 == p * q + m;
    assert u == (2 * p) * q + (2 * m + u % 2);
    DivUnique(u, 2 * p, q, 2 * m + u % 2);
  }

  /** Dividing by 2^n drops the n lowest digits: q is u / 2^n. */
  lemma {:induction false} ToBitsDivide(u: nat, w: nat, n: nat, q: nat)
    requires q == u / Pow2(n)
    ensures ToBits(q, w) == ToBits(u, w + n)[n..]
  {
    if n > 0 {
      HalfThenDivide(u, n - 1);
      ToBitsDivide(u / 2, w, n - 1, q);
      assert ToBits(u, w + n)[n..] == ToBits(u / 2, w + n - 1)[n - 1..];
    }
  }

  /** Every digit of s is set, or none is. */
  predicate AllSet(s: seq<bool>) { forall k :: 0 <= k < |s| ==> s[k] }
  predicate NoneSet(s: seq<bool>) { forall k :: 0 <= k < |s| ==> !s[k] }

  /** Zero has no digit set; 2^w - 1 has all its w digits set. */
  lemma {:induction false} ToBitsZero(w: nat)
    ensures NoneSet(ToBits(0, w))
  {
    if w > 0 {
      ToBitsZero(w - 1);
      assert ToBits(0, w) == [false] + ToBits(0, w - 1);
    }
  }

  lemma {:induction false} ToBitsAllOnes(w: nat)
    ensures AllSet(ToBits(Pow2(w) - 1, w))
  {
    if w > 0 {
      ToBitsAllOnes(w - 1);
      var u := Pow2(w) - 1;
      assert u / 2 == Pow2(w - 1) - 1 && u % 2 == 1;
      assert ToBits(u, w) == [true] + ToBits(Pow2(w - 1) - 1, w - 1);
    }
  }

  /** Lanewise logic on digit sequences of equal width. */
  function NotBits(s: seq<bool>): (r: seq<bool>)
    ensures |r| == |s| && forall k :: 0 <= k < |s| ==> r[k] == !s[k]
  {
    seq(|s|, k requires 0 <= k < |s| => !s[k])
  }

  function AndBits(s: seq<bool>, t: seq<bool>): (r: seq<bool>)
    requires |s| == |t|
    ensures |r| == |s| && forall k :: 0 <= k < |s| ==> r[k] == (s[k] && t[k])
  {
    seq(|s|, k requires 0 <= k < |s| => s[k] && t[k])
  }

  function OrBits(s: seq<bool>, t: seq<bool>): (r: seq<bool>)
    requires |s| == |t|
    ensures |r| == |s| && forall k :: 0 <= k < |s| ==> r[k] == (s[k] || t[k])
  {
    seq(|s|, k requires 0 <= k < |s| => s[k] || t[k])
  }

  function XorBits(s: seq<bool>, t: seq<bool>): (r: seq<bool>)
    requires |s| == |t|
    ensures |r| == |s| && forall k :: 0 <= k < |s| ==> r[k] == (s[k] != t[k])
  {
    seq(|s|, k requires 0 <= k < |s| => s[k] != t[k])
  }

  /** The digits moved n places towards the most significant end; zeros come
      in at the bottom and the digits pushed past the top are lost. */
  function ShiftBitsLeft(s: seq<bool>, n: nat): (r: seq<bool>)
    ensures |r| == |s|
    ensures forall k :: 0 <= k < |s| ==> r[k] == (k >= n && s[k - n])
  {
    seq(|s|, k requires 0 <= k < |s| => k >= n && s[k - n])
  }

  /** Complementing every digit subtracts the value from 2^w - 1. */
  lemma {:induction false} FromBitsNot(s: seq<bool>)
    ensures FromBits(NotBits(s)) == Pow2(|s|) - 1 - FromBits(s)
  {
    if s != [] {
      FromBitsNot(s[1..]);
      assert NotBits(s)[1..] == NotBits(s[1..]);
    }
  }

  /** Shifting the digits of u left by n gives the digits of u * 2^n. */
  lemma {:induction false} ShiftToBits(u: nat, w: nat, n: nat)
    requires n <= w
    ensures ShiftBitsLeft(ToBits(u, w), n) == ToBits(u * Pow2(n), w)
  {
    if n == 0 {
      assert ShiftBitsLeft(ToBits(u, w), 0) == ToBits(u, w);
    } else {
      ShiftToBits(u, w - 1, n - 1);
      ToBitsTake(u, w, w - 1);
      var v := u * Pow2(n - 1);
      assert u * Pow2(n) == 2 * v;
      var lhs := ShiftBitsLeft(ToBits(u, w), n);
      var rhs := ToBits(2 * v, w);
      assert rhs == [false] + ToBits(v, w - 1);
      forall k | 0 <= k < w
        ensures lhs[k] == rhs[k]
      {
        if k > 0 {
          assert rhs[k] == ShiftBitsLeft(ToBits(u, w - 1), n - 1)[k - 1];
        }
      }
    }
  }

  /** u is its low w digits plus a multiple of 2^w. */
  lemma {:induction false} ToBitsRemainder(u: nat, w: nat) returns (h: nat)
    ensures u == FromBits(ToBits(u, w)) + Pow2(w) * h
  {
    if w == 0 {
      h := u;
    } else {
      var h' := ToBitsRemainder(u / 2, w - 1);
      assert ToBits(u, w)[1..] == ToBits(u / 2, w - 1);
      h := h';
      calc {
        u;
        u % 2 + 2 * (u / 2);
        u % 2 + 2 * (FromBits(ToBits(u / 2, w - 1)) + Pow2(w - 1) * h');
        FromBits(ToBits(u, w)) + 2 * (Pow2(w - 1) * h');
      }
    }
  }
}
