/** Bytes as bounded integers, powers of two and the bit operations the decoders use.
    `|` and `^` are defined bit by bit on naturals; a mask with a low-bit pattern
    (`x & 0x3f`, `x & 1`) is written as the remainder it computes. */
module Bytes {

  type byte = x: int | 0 <= x < 256
  type bit = x: int | 0 <= x < 2

  function Pow2(n: nat): (r: nat)
    ensures r >= 1
  {
    if n == 0 then 1 else 2 * Pow2(n - 1)
  }

  lemma Pow2Eight()
    ensures Pow2(8) == 256
  {
    assert Pow2(2) == 4;
    assert Pow2(4) == 4 * Pow2(2);
    assert Pow2(8) == 16 * Pow2(4);
  }

  lemma {:induction false} Pow2Monotone(m: nat, n: nat)
    requires m <= n
    ensures Pow2(m) <= Pow2(n)
    decreases n
  {
    if m < n {
      Pow2Monotone(m, n - 1);
    }
  }

  /** `a << k` on unbounded naturals. */
  function Shl(a: nat, k: nat): nat
  {
    if k == 0 then a else 2 * Shl(a, k - 1)
  }

  lemma {:induction false} ShlIsProduct(a: nat, k: nat)
    ensures Shl(a, k) == a * Pow2(k)
  {
    if k > 0 {
      ShlIsProduct(a, k - 1);
      assert a * Pow2(k) == 2 * (a * Pow2(k - 1));
    }
  }

  /** OR-ing a value below `2^k` into `m << k` is addition. */
  lemma OrShl(m: nat, k: nat, b: nat)
    requires b < Pow2(k)
    ensures Or(Shl(m, k), b) == Shl(m, k) + b
  {
    ShlIsProduct(m, k);
    OrDisjoint(m, k, b);
  }

  /** Bit `j` of `x`, that is `(x >> j) & 1`. */
  function Bit(x: nat, j: nat): bit
  {
    if j == 0 then x % 2 else Bit(x / 2, j - 1)
  }

  /** `a | b` */
  function Or(a: nat, b: nat): nat
    decreases a + b
  {
    if a == 0 && b == 0 then 0
    else 2 * Or(a / 2, b / 2) + (if a % 2 == 1 || b % 2 == 1 then 1 else 0)
  }

  /** `a ^ b` */
  function Xor(a: nat, b: nat): nat
    decreases a + b
  {
    if a == 0 && b == 0 then 0
    else 2 * Xor(a / 2, b / 2) + (a % 2 + b % 2) % 2
  }

  lemma {:induction false} OrZero(a: nat)
    ensures Or(a, 0) == a && Or(0, a) == a
  {
    if a != 0 {
      OrZero(a / 2);
    }
  }

  /** OR-ing a value below `2^k` into a multiple of `2^k` is addition: the two
      occupy disjoint bits. */
  lemma {:induction false} OrDisjoint(m: nat, k: nat, b: nat)
    requires b < Pow2(k)
    ensures Or(m * Pow2(k), b) == m * Pow2(k) + b
    ensures Or(b, m * Pow2(k)) == m * Pow2(k) + b
  {
    if k == 0 {
      OrZero(m);
    } else {
      var x := m * Pow2(k - 1);
      assert m * Pow2(k) == 2 * x;
      OrDisjoint(m, k - 1, b / 2);
      if 2 * x + b != 0 {
        assert Or(2 * x, b) == 2 * Or(x, b / 2) + b % 2;
        assert Or(b, 2 * x) == 2 * Or(b / 2, x) + b % 2;
      }
    }
  }

  lemma {:induction false} OrBound(a: nat, b: nat, k: nat)
    requires a < Pow2(k) && b < Pow2(k)
    ensures Or(a, b) < Pow2(k)
    decreases k
  {
    if a + b != 0 {
      assert k > 0;
      OrBound(a / 2, b / 2, k - 1);
    }
  }

  lemma {:induction false} XorBound(a: nat, b: nat, k: nat)
    requires a < Pow2(k) && b < Pow2(k)
    ensures Xor(a, b) < Pow2(k)
    decreases k
  {
    if a + b != 0 {
      assert k > 0;
      XorBound(a / 2, b / 2, k - 1);
    }
  }

  lemma {:induction false} XorComm(a: nat, b: nat)
    ensures Xor(a, b) == Xor(b, a)
    decreases a + b
  {
    if a + b != 0 {
      XorComm(a / 2, b / 2);
    }
  }

  lemma {:induction false} XorZero(a: nat)
    ensures Xor(a, 0) == a
  {
    if a != 0 {
      XorZero(a / 2);
    }
  }

  lemma {:induction false} XorCancel(a: nat, b: nat)
    ensures Xor(Xor(a, b), b) == a
    decreases a + b
  {
    if b == 0 {
      XorZero(a);
      XorZero(Xor(a, 0));
    } else {
      XorCancel(a / 2, b / 2);
      var c := Xor(a, b);
      var h := Xor(a / 2, b / 2);
      XorStep(a, b);
      assert c / 2 == h && c % 2 == (a % 2 + b % 2) % 2;
      XorStep(c, b);
      assert Xor(c / 2, b / 2) == a / 2;
      ParityCancel(a % 2, b % 2);
    }
  }

  lemma ParityCancel(x: nat, y: nat)
    requires x < 2 && y < 2
    ensures ((x + y) % 2 + y) % 2 == x
  {
  }

  /** One digit of `a ^ b`, when either is non-zero. */
  lemma XorStep(a: nat, b: nat)
    requires a + b != 0
    ensures Xor(a, b) == 2 * Xor(a / 2, b / 2) + (a % 2 + b % 2) % 2
  {
  }

  /** XOR with a fixed value is injective in either argument. */
  lemma XorInjective(a: nat, x: nat, y: nat)
    requires x != y
    ensures Xor(a, x) != Xor(a, y) && Xor(x, a) != Xor(y, a)
  {
    XorCancel(x, a);
    XorCancel(y, a);
    XorComm(a, x);
    XorComm(a, y);
  }

  /** `t ^ 2^k` flips bit `k` of a value below `2^(k+1)`. */
  lemma {:induction false} XorTopBit(t: nat, k: nat)
    requires t < 2 * Pow2(k)
    ensures Xor(t, Pow2(k)) == if t >= Pow2(k) then t - Pow2(k) else t + Pow2(k)
  {
    if k == 0 {
      assert Xor(0, 0) == 0;
      assert Xor(t, 1) == 2 * Xor(t / 2, 0) + (t % 2 + 1) % 2;
    } else {
      var p := Pow2(k);
      var q := Pow2(k - 1);
      assert p == 2 * q && p / 2 == q && p % 2 == 0;
      XorStep(t, p);
      XorTopBit(t / 2, k - 1);
      assert (t >= p) == (t / 2 >= q);
    }
  }

  function Reverse<T>(s: seq<T>): (r: seq<T>)
    ensures |r| == |s|
    ensures forall i :: 0 <= i < |s| ==> r[i] == s[|s| - 1 - i]
  {
    if s == [] then [] else Reverse(s[1..]) + [s[0]]
  }

  lemma ReverseReverse<T>(s: seq<T>)
    ensures Reverse(Reverse(s)) == s
  {
    assert forall i :: 0 <= i < |s| ==> Reverse(Reverse(s))[i] == s[i];
  }

  lemma ReverseAppend<T>(s: seq<T>, t: seq<T>)
    ensures Reverse(s + t) == Reverse(t) + Reverse(s)
  {
    assert forall i :: 0 <= i < |s + t| ==> Reverse(s + t)[i] == (Reverse(t) + Reverse(s))[i];
  }
}
