/**
 * Fixed-width bit vectors, the representation behind the library's
 * `NVUINTW(n)`, `sc_lv<n>` and `sc_uint<n>` values.
 *
 * A value of width n is a sequence of n booleans, least significant bit
 * first: bit k of the hardware value is `b[k]`.  `ToNat` and `FromNat`
 * connect the bit view with the unsigned integer view.
 */
module Bits {
  type Bits = seq<bool>

  function Pow2(n: nat): (r: nat)
    ensures r >= 1
  {
    if n == 0 then 1 else 2 * Pow2(n - 1)
  }

  /** Unsigned value of a bit vector. */
  function ToNat(b: Bits): (r: nat)
    ensures r < Pow2(|b|)
  {
    if |b| == 0 then 0 else (if b[0] then 1 else 0) + 2 * ToNat(b[1..])
  }

  /** The low `w` bits of `x`: the truncating conversion to a `w`-bit type. */
  function FromNat(x: nat, w: nat): (r: Bits)
    ensures |r| == w
  {
    if w == 0 then [] else [x % 2 == 1] + FromNat(x / 2, w - 1)
  }

  /** The all-zero vector of width n. */
  function Zeros(n: nat): (r: Bits)
    ensures |r| == n && forall k :: 0 <= k < n ==> !r[k]
  {
    seq(n, k => false)
  }

  /** The all-ones vector of width n (`~0`). */
  function Ones(n: nat): (r: Bits)
    ensures |r| == n && forall k :: 0 <= k < n ==> r[k]
  {
    seq(n, k => true)
  }

  predicate IsZero(b: Bits) {
    forall k :: 0 <= k < |b| ==> !b[k]
  }

  /** Bitwise OR of two vectors of the same width. */
  function Or(a: Bits, b: Bits): (r: Bits)
    requires |a| == |b|
    ensures |r| == |a| && forall k :: 0 <= k < |a| ==> r[k] == (a[k] || b[k])
  {
    seq(|a|, k requires 0 <= k < |a| => a[k] || b[k])
  }

  /** Bitwise AND of two vectors of the same width. */
  function And(a: Bits, b: Bits): (r: Bits)
    requires |a| == |b|
    ensures |r| == |a| && forall k :: 0 <= k < |a| ==> r[k] == (a[k] && b[k])
  {
    seq(|a|, k requires 0 <= k < |a| => a[k] && b[k])
  }

  /** The one-hot vector of width n with bit k set. */
  function OneHot(n: nat, k: nat): (r: Bits)
    ensures |r| == n && forall j :: 0 <= j < n ==> r[j] == (j == k)
  {
    seq(n, j => j == k)
  }

  /** Bit i of the unsigned integer x. */
  predicate BitOf(x: nat, i: nat) {
    (x / Pow2(i)) % 2 == 1
  }

  /** Bitwise OR of two unsigned integers, as C++ `|` computes it. */
  function NatOr(a: nat, b: nat): nat
    decreases a + b
  {
    if a == 0 then b
    else if b == 0 then a
    else 2 * NatOr(a / 2, b / 2) + (if a % 2 == 1 || b % 2 == 1 then 1 else 0)
  }

  // ---------------------------------------------------------------------
  // Arithmetic facts
  // ---------------------------------------------------------------------

  lemma {:induction false} MulMonotone(x: int, y: int, d: nat)
    requires x <= y
    ensures x * d <= y * d
    decreases y - x
  {
    if x < y {
      MulMonotone(x + 1, y, d);
      assert (x + 1) * d == x * d + d;
    }
  }

  lemma DoubleMul(p: int, t: int)
    ensures 2 * (p * t) == (2 * p) * t
  {
  }

  lemma DivModUnique(a: int, d: int, q: int, r: int)
    requires d > 0 && 0 <= r < d && a == q * d + r
    ensures a / d == q && a % d == r
  {
    var q0, r0 := a / d, a % d;
    assert a == q0 * d + r0;
    if q > q0 {
      MulMonotone(q0 + 1, q, d);
    } else if q < q0 {
      MulMonotone(q + 1, q0, d);
    }
  }

  lemma {:induction false} Pow2Add(a: nat, b: nat)
    ensures Pow2(a + b) == Pow2(a) * Pow2(b)
  {
    if a > 0 {
      Pow2Add(a - 1, b);
      assert Pow2(a + b) == 2 * Pow2(a - 1 + b);
    }
  }

  /** The powers of two the library's widths are built from. */
  lemma Pow2Values()
    ensures Pow2(4) == 16 && Pow2(8) == 256 && Pow2(16) == 65536
    ensures Pow2(20) == 1048576 && Pow2(32) == 0x1_0000_0000
  {
    assert Pow2(1) == 2;
    assert Pow2(2) == 4;
    assert Pow2(3) == 8;
    assert Pow2(4) == 16;
    Pow2Add(4, 4);
    Pow2Add(8, 8);
    Pow2Add(16, 16);
    Pow2Add(16, 4);
  }

  lemma {:induction false} Pow2Monotone(a: nat, b: nat)
    requires a <= b
    ensures Pow2(a) <= Pow2(b)
  {
    if a < b {
      Pow2Monotone(a, b - 1);
    }
  }

  lemma Pow2Strict(a: nat, b: nat)
    requires a < b
    ensures 2 * Pow2(a) <= Pow2(b)
  {
    Pow2Monotone(a + 1, b);
  }

  /** Halving commutes with division by a power of two. */
  lemma DivPow2Succ(x: nat, n: nat)
    ensures x / Pow2(n + 1) == (x / 2) / Pow2(n)
    ensures x % Pow2(n + 1) == x % 2 + 2 * ((x / 2) % Pow2(n))
  {
    var p := Pow2(n);
    var q, r := (x / 2) / p, (x / 2) % p;
    assert x / 2 == q * p + r;
    assert x == q * (2 * p) + (2 * r + x % 2);
    DivModUnique(x, 2 * p, q, 2 * r + x % 2);
  }

  // ---------------------------------------------------------------------
  // The bit view and the integer view agree
  // ---------------------------------------------------------------------

  lemma {:induction false} ToNatFromNat(x: nat, w: nat)
    ensures ToNat(FromNat(x, w)) == x % Pow2(w)
  {
    if w > 0 {
      var b := FromNat(x, w);
      assert b[1..] == FromNat(x / 2, w - 1);
      ToNatFromNat(x / 2, w - 1);
      DivPow2Succ(x, w - 1);
    }
  }

  /** A value that fits in w bits survives the truncating conversion. */
  lemma FromNatFits(x: nat, w: nat)
    requires x < Pow2(w)
    ensures ToNat(FromNat(x, w)) == x
  {
    ToNatFromNat(x, w);
    DivModUnique(x, Pow2(w), 0, x);
  }

  lemma {:induction false} FromNatToNat(b: Bits)
    ensures FromNat(ToNat(b), |b|) == b
  {
    if |b| > 0 {
      var x := ToNat(b);
      assert x % 2 == (if b[0] then 1 else 0);
      assert x / 2 == ToNat(b[1..]);
      FromNatToNat(b[1..]);
    }
  }

  lemma {:induction false} FromNatBit(x: nat, w: nat, i: nat)
    requires i < w
    ensures FromNat(x, w)[i] == BitOf(x, i)
  {
    if i > 0 {
      FromNatBit(x / 2, w - 1, i - 1);
      DivPow2Succ(x, i - 1);
    }
  }

  lemma {:induction false} ToNatAppend(a: Bits, b: Bits)
    ensures ToNat(a + b) == ToNat(a) + Pow2(|a|) * ToNat(b)
  {
    if |a| > 0 {
      var bit := if a[0] then 1 else 0;
      var p, t := Pow2(|a| - 1), ToNat(b);
      assert (a + b)[1..] == a[1..] + b;
      assert (a + b)[0] == a[0];
      ToNatAppend(a[1..], b);
      DoubleMul(p, t);
      calc {
        ToNat(a + b);
        bit + 2 * ToNat(a[1..] + b);
        bit + 2 * (ToNat(a[1..]) + p * t);
        (bit + 2 * ToNat(a[1..])) + (2 * p) * t;
        ToNat(a) + Pow2(|a|) * t;
      }
    } else {
      assert a + b == b;
    }
  }

  lemma {:induction false} ToNatPrefix(b: Bits, n: nat)
    requires n <= |b|
    ensures ToNat(b[..n]) == ToNat(b) % Pow2(n)
    ensures ToNat(b[n..]) == ToNat(b) / Pow2(n)
  {
    if n > 0 {
      var bit := if b[0] then 1 else 0;
      var x, t := ToNat(b), ToNat(b[1..]);
      assert x == t * 2 + bit;
      DivModUnique(x, 2, t, bit);
      var lo := b[..n];
      assert lo[1..] == b[1..][..n - 1];
      assert b[n..] == b[1..][n - 1..];
      ToNatPrefix(b[1..], n - 1);
      DivPow2Succ(x, n - 1);
      assert ToNat(lo) == bit + 2 * ToNat(lo[1..]);
    } else {
      assert b[..0] == [] && b[0..] == b;
    }
  }

  lemma {:induction false} ToNatZero(b: Bits)
    ensures ToNat(b) == 0 <==> IsZero(b)
  {
    if |b| > 0 {
      ToNatZero(b[1..]);
      if IsZero(b[1..]) && !b[0] {
        assert IsZero(b) by {
          forall k | 0 <= k < |b| ensures !b[k] {
            if k > 0 { assert b[k] == b[1..][k - 1]; }
          }
        }
      }
    }
  }

  lemma ToNatZeros(n: nat)
    ensures ToNat(Zeros(n)) == 0
  {
    ToNatZero(Zeros(n));
  }

  /** OR-ing a power of two into a smaller number adds it. */
  lemma {:induction false} NatOrPow2(a: nat, k: nat)
    requires a < Pow2(k)
    ensures NatOr(a, Pow2(k)) == a + Pow2(k)
  {
    if a != 0 && k > 0 {
      NatOrPow2(a / 2, k - 1);
    }
  }

  /** A prefix one longer is the prefix with the next element appended. */
  lemma PrefixSnoc<T>(s: seq<T>, i: nat)
    requires i < |s|
    ensures s[..i + 1] == s[..i] + [s[i]]
  {
  }
}
