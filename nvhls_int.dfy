/**
 * Integer and bit utilities of `nvhls_int.h`: the compile-time log2 family
 * (`nbits`, `log2_floor`, `log2_ceil`, `index_width`, `next_pow2`), bit
 * slicing (`get_slc`, `set_slc`), the leading-one and leading-zero
 * detectors and the sign-preserving shifts.  Template constants become
 * ordinary parameters; a template that would not compile becomes a
 * precondition.
 */
module NvhlsInt {
  import opened Bits

  /** Values of C++ `unsigned int` lie below this bound. */
  const UINT_LIMIT: nat := 0x1_0000_0000

  // ---------------------------------------------------------------------
  // nbits / log2_floor / log2_ceil / index_width
  // ---------------------------------------------------------------------

  /** Reference definition: the number of bits needed to write x (0 for 0). */
  function BitLength(x: nat): (r: nat)
    ensures x == 0 <==> r == 0
    ensures x < Pow2(r)
    ensures x > 0 ==> Pow2(r - 1) <= x
  {
    if x == 0 then 0 else 1 + BitLength(x / 2)
  }

  /** `s_N<N>::s_X<X>::nbits`: the binary-search recursion behind `nbits`. */
  function SN(n: nat, x: nat): nat
    decreases n
  {
    if n == 0 then (if x != 0 then 1 else 0)
    else if x == 0 then 0
    else if x / Pow2(n) != 0 then n + SN(n / 2, x / Pow2(n))
    else SN(n / 2, x)
  }

  lemma {:induction false} BitLengthShift(x: nat, n: nat)
    requires Pow2(n) <= x
    ensures BitLength(x) == n + BitLength(x / Pow2(n))
  {
    if n > 0 {
      DivPow2Succ(x, n - 1);
      BitLengthShift(x / 2, n - 1);
    }
  }

  lemma DivBound(x: nat, a: nat, b: nat)
    requires a > 0 && x < a * b
    ensures x / a < b
  {
    if x / a >= b {
      MulMonotone(b, x / a, a);
    }
  }

  lemma DivNonZero(x: nat, d: nat)
    requires d > 0 && x / d != 0
    ensures d <= x
  {
    if x < d {
      DivModUnique(x, d, 0, x);
    }
  }

  /** The upper half of a 2n-bit number fits in n bits. */
  lemma UpperHalfBound(n: nat, x: nat)
    requires x < Pow2(n + n)
    ensures x / Pow2(n) < Pow2(n)
  {
    Pow2Add(n, n);
    DivBound(x, Pow2(n), Pow2(n));
  }

  /** The recursion of `s_N` started at `N = 2^k` is exact below `2^(2N)`. */
  lemma {:induction false} SNIsBitLength(k: nat, n: nat, x: nat)
    requires n == Pow2(k) && x < Pow2(n + n)
    ensures SN(n, x) == BitLength(x)
    decreases k, 1
  {
    if x != 0 {
      if x / Pow2(n) != 0 {
        SNUpperHalf(k, n, x);
      } else {
        SNLowerHalf(k, n, x);
      }
    }
  }

  /** The upper half is not zero: `s_N` adds N and goes on with the upper half. */
  lemma {:induction false} SNUpperHalf(k: nat, n: nat, x: nat)
    requires n == Pow2(k) && x < Pow2(n + n) && x / Pow2(n) != 0
    ensures SN(n, x) == BitLength(x)
    decreases k, 0
  {
    var h := x / Pow2(n);
    UpperHalfFacts(n, x);
    assert SN(n, x) == n + SN(n / 2, h);
    if k > 0 {
      HalfPow2(k, n);
      SNIsBitLength(k - 1, n / 2, h);
    } else {
      assert n == 1 && h == 1;
    }
  }

  /** A number whose upper half is not zero: its bit length is n more than the upper half's. */
  lemma UpperHalfFacts(n: nat, x: nat)
    requires x < Pow2(n + n) && x / Pow2(n) != 0
    ensures 0 < x / Pow2(n) < Pow2(n)
    ensures BitLength(x) == n + BitLength(x / Pow2(n))
  {
    DivNonZero(x, Pow2(n));
    BitLengthShift(x, n);
    UpperHalfBound(n, x);
  }

  /** The upper half is zero: `s_N` goes on with the lower half. */
  lemma {:induction false} SNLowerHalf(k: nat, n: nat, x: nat)
    requires n == Pow2(k) && x < Pow2(n + n) && x != 0 && x / Pow2(n) == 0
    ensures SN(n, x) == BitLength(x)
    decreases k, 0
  {
    assert SN(n, x) == SN(n / 2, x);
    DivZeroBound(x, Pow2(n));
    if k > 0 {
      HalfPow2(k, n);
      SNIsBitLength(k - 1, n / 2, x);
    } else {
      assert x == 1;
    }
  }

  lemma HalfPow2(k: nat, n: nat)
    requires k > 0 && n == Pow2(k)
    ensures n / 2 == Pow2(k - 1) && n / 2 + n / 2 == n
  {
  }

  lemma DivZeroBound(x: nat, d: nat)
    requires d > 0 && x / d == 0
    ensures x < d
  {
    DivModUnique(x, d, 0, x % d);
  }

  lemma {:induction false} BitLengthBound(x: nat, n: nat)
    requires x < Pow2(n)
    ensures BitLength(x) <= n
  {
    if x > 0 && n > 0 {
      BitLengthBound(x / 2, n - 1);
    }
  }

  /** `nbits<X>::val` for a 32-bit unsigned X: its bit length, 0 for 0. */
  function NBits(x: nat): (r: nat)
    requires x < UINT_LIMIT
    ensures r == BitLength(x)
    ensures r <= 32
  {
    Pow2Values();
    SNIsBitLength(4, 16, x);
    BitLengthBound(x, 32);
    SN(16, x)
  }

  /** `log2_floor<X>::val = nbits<X>::val - 1` (X = 0 does not compile); `NBits` is `BitLength`. */
  function Log2Floor(x: nat): (r: nat)
    requires 0 < x < UINT_LIMIT
    ensures Pow2(r) <= x < 2 * Pow2(r)
    ensures r < 32
  {
    var b := BitLength(x);
    BitLengthBracket(x);
    b - 1
  }

  lemma BitLengthBracket(x: nat)
    requires 0 < x < UINT_LIMIT
    ensures 1 <= BitLength(x) <= 32
    ensures Pow2(BitLength(x) - 1) <= x < 2 * Pow2(BitLength(x) - 1)
  {
    var b := BitLength(x);
    Pow2Values();
    BitLengthBound(x, 32);
    assert Pow2(b) == 2 * Pow2(b - 1);
  }

  /** `log2_ceil<X>::val` (X = 0 does not compile). */
  function Log2Ceil(x: nat): (r: nat)
    requires 0 < x < UINT_LIMIT
    ensures x <= Pow2(r)
    ensures r > 0 ==> Pow2(r - 1) < x
    ensures r == Log2Floor(x) <==> x == Pow2(Log2Floor(x))
  {
    var lf := Log2Floor(x);
    assert Pow2(lf + 1) == 2 * Pow2(lf);
    if x == Pow2(lf) then lf else lf + 1
  }

  /** `index_width<X>::val`: bits needed to index X entries, at least 1. */
  function IndexWidth(x: nat): (r: nat)
    requires 0 < x < UINT_LIMIT
    ensures r >= 1 && x <= Pow2(r)
    ensures x >= 2 ==> Pow2(r - 1) < x
  {
    if x == 1 then 1 else Log2Ceil(x)
  }

  /** Two exponents whose power-of-two brackets both hold x are equal. */
  lemma Pow2BracketUnique(x: nat, r: nat, k: nat)
    requires r >= 1 && k >= 1
    requires Pow2(r - 1) < x <= Pow2(r) && Pow2(k - 1) < x <= Pow2(k)
    ensures r == k
  {
    if r < k {
      Pow2Monotone(r, k - 1);
    } else if r > k {
      Pow2Monotone(k, r - 1);
    }
  }

  /** The bracket of `log2_ceil`, stated about a name for its value. */
  lemma Log2CeilBracket(x: nat, r: nat)
    requires 0 < x < UINT_LIMIT && r == Log2Ceil(x)
    ensures x <= Pow2(r) && (r >= 1 ==> Pow2(r - 1) < x)
    ensures x > 1 ==> r >= 1
  {
  }

  /** `log2_ceil` is the unique k with 2^(k-1) < x <= 2^k. */
  lemma Log2CeilUnique(x: nat, k: nat)
    requires 0 < x < UINT_LIMIT && k >= 1 && Pow2(k - 1) < x <= Pow2(k)
    ensures Log2Ceil(x) == k
  {
    var r := Log2Ceil(x);
    Log2CeilBracket(x, r);
    Pow2BracketUnique(x, r, k);
  }

  /**
   * The rungs 2^k, 2^(k+1), ..., 65536 of the `next_pow2` ladder, climbed
   * from rung k: the exponent of the first rung not below n, or 20 (the
   * 1048576 fall-back) when n is above every rung.
   */
  function NextPow2Rung(n: int, k: nat): (e: nat)
    requires 1 <= k <= 16 && n > Pow2(k - 1)
    ensures e == 20 || (k <= e <= 16 && Pow2(e - 1) < n <= Pow2(e))
    ensures e == 20 <==> n > Pow2(16)
    decreases 16 - k
  {
    if n <= Pow2(k) then
      Pow2Monotone(k, 16);
      k
    else if k == 16 then 20
    else NextPow2Rung(n, k + 1)
  }

  /** The exponent of `next_pow2<n>::val`. */
  function NextPow2Exp(n: int): (e: nat)
    ensures n <= 1 ==> e == 0
    ensures 1 < n <= 65536 ==> 1 <= e <= 16 && Pow2(e - 1) < n <= Pow2(e)
    ensures n > 65536 ==> e == 20
  {
    Pow2Values();
    if n <= 1 then 0 else NextPow2Rung(n, 1)
  }

  /** `next_pow2<n>::val`. */
  function NextPow2(n: int): (r: nat)
    ensures r == Pow2(NextPow2Exp(n))
    ensures n <= 1 ==> r == 1
    ensures 1 <= n <= 65536 ==> n <= r < 2 * n
    ensures n > 65536 ==> r == 1048576
  {
    Pow2Values();
    Pow2(NextPow2Exp(n))
  }

  /** In its exact range `next_pow2` is 2^log2_ceil. */
  lemma NextPow2IsLog2Ceil(n: int)
    requires 1 < n <= 65536
    ensures n < UINT_LIMIT && NextPow2(n) == Pow2(Log2Ceil(n))
  {
    Pow2Values();
    Log2CeilUnique(n, NextPow2Exp(n));
  }

  // ---------------------------------------------------------------------
  // get_slc / set_slc
  // ---------------------------------------------------------------------

  /** `get_slc<W>(X, i)`: bits [i, i+W-1] of X, as a W-bit value. */
  function GetSlc(x: Bits, i: nat, w: nat): (r: Bits)
    requires i + w <= |x|
    ensures |r| == w
  {
    x[i..i + w]
  }

  /** Bit k of the slice is bit i+k of X. */
  lemma GetSlcBit(x: Bits, i: nat, w: nat, k: nat)
    requires i + w <= |x| && k < w
    ensures GetSlc(x, i, w)[k] == x[i + k]
  {
  }

  /** The value of a slice is the shifted-and-masked value of the source. */
  lemma GetSlcValue(x: Bits, i: nat, w: nat)
    requires i + w <= |x|
    ensures ToNat(GetSlc(x, i, w)) == (ToNat(x) / Pow2(i)) % Pow2(w)
  {
    var tail := x[i..];
    assert GetSlc(x, i, w) == tail[..w];
    ToNatPrefix(x, i);
    ToNatPrefix(tail, w);
  }

  /** `set_slc(X, Y, i)`: X with bits [i, i+|Y|-1] replaced by Y. */
  function SetSlc(x: Bits, y: Bits, i: nat): (r: Bits)
    requires i + |y| <= |x|
    ensures |r| == |x|
    ensures GetSlc(r, i, |y|) == y
    ensures forall k :: 0 <= k < |x| && !(i <= k < i + |y|) ==> r[k] == x[k]
  {
    x[..i] + y + x[i + |y|..]
  }

  /** Writing back a slice just read leaves the vector unchanged. */
  lemma SetSlcGetSlc(x: Bits, i: nat, w: nat)
    requires i + w <= |x|
    ensures SetSlc(x, GetSlc(x, i, w), i) == x
  {
    var r := SetSlc(x, GetSlc(x, i, w), i);
    forall k | 0 <= k < |x| ensures r[k] == x[k] {
      if i <= k < i + w { assert r[k] == GetSlc(r, i, w)[k - i]; }
    }
  }

  /**
   * `get_slc(X, i, j)` with a run-time range: bits [j, i] of X, returned in
   * X's own width, so the bits above the slice are zero.
   */
  function GetSlcRange(x: Bits, hi: nat, lo: nat): (r: Bits)
    requires lo <= hi < |x|
    ensures |r| == |x|
    ensures ToNat(r) == (ToNat(x) / Pow2(lo)) % Pow2(hi - lo + 1)
  {
    var s := GetSlc(x, lo, hi - lo + 1);
    GetSlcValue(x, lo, hi - lo + 1);
    ToNatAppend(s, Zeros(|x| - |s|));
    ToNatZeros(|x| - |s|);
    s + Zeros(|x| - |s|)
  }

  // ---------------------------------------------------------------------
  // leading_ones / lzd
  // ---------------------------------------------------------------------

  lemma NatOrNextPow2(a: nat, n: int)
    requires a < NextPow2(n)
    ensures NatOr(a, NextPow2(n)) == a + NextPow2(n)
  {
    NatOrPow2(a, NextPow2Exp(n));
  }

  /** The split point P2 of `leading_ones` lies strictly inside X and halves it. */
  lemma SplitPoint(w1: nat)
    requires 2 <= w1 <= 131072
    ensures 1 <= NextPow2((w1 + 1) / 2) < w1 <= 2 * NextPow2((w1 + 1) / 2)
  {
    var h := (w1 + 1) / 2;
    var e := NextPow2Exp(h);
  }

  /**
   * `leading_ones<W1>(X)`: splits X at the power of two P2, searches the
   * upper part first and ORs P2 into an index found there.  W1 is bounded
   * so that `next_pow2` is exact.
   */
  function LeadingOnes(x: Bits): nat
    requires 1 <= |x| <= 131072
    decreases |x|
  {
    if |x| == 1 then
      0
    else
      var p2 := NextPow2((|x| + 1) / 2);
      SplitPoint(|x|);
      // P2 < W1 here, so the upper slice has width Wu = W1 - P2
      if ToNat(GetSlc(x, p2, |x| - p2)) != 0 then NatOr(LeadingOnes(GetSlc(x, p2, |x| - p2)), p2)
      else LeadingOnes(GetSlc(x, 0, p2))
  }

  /** The number of leading zero bits of b (|b| when b is zero). */
  function CountLeadingZeros(b: Bits): (r: nat)
    ensures r <= |b|
  {
    if |b| == 0 || b[|b| - 1] then 0 else 1 + CountLeadingZeros(b[..|b| - 1])
  }

  /**
   * The bits above position |b|-1-CountLeadingZeros(b) are clear, the bit at
   * that position is set, and the count is the whole width exactly for zero.
   */
  lemma {:induction false} ClzSpec(b: Bits)
    ensures forall k :: |b| - CountLeadingZeros(b) <= k < |b| ==> !b[k]
    ensures CountLeadingZeros(b) < |b| ==> b[|b| - 1 - CountLeadingZeros(b)]
    ensures CountLeadingZeros(b) == |b| <==> ToNat(b) == 0
  {
    ToNatZero(b);
    if |b| > 0 && !b[|b| - 1] {
      var c := b[..|b| - 1];
      ClzSpec(c);
      ToNatZero(c);
      forall k | |b| - CountLeadingZeros(b) <= k < |b| ensures !b[k] {
        if k < |b| - 1 { assert b[k] == c[k]; }
      }
      if IsZero(c) {
        forall k | 0 <= k < |b| ensures !b[k] {
          if k < |b| - 1 { assert b[k] == c[k]; }
        }
      }
    }
  }

  /** The leading-zero count is fixed by the position of the top set bit. */
  lemma {:induction false} LeadingZerosAt(x: Bits, m: nat)
    requires m < |x| && x[m] && forall k :: m < k < |x| ==> !x[k]
    ensures CountLeadingZeros(x) == |x| - 1 - m
    decreases |x|
  {
    if m < |x| - 1 {
      LeadingZerosAt(x[..|x| - 1], m);
    }
  }

  /** A set bit above P2 leaves the leading-zero count to the upper slice. */
  lemma ClzUpper(x: Bits, p2: nat, upper: Bits)
    requires p2 < |x| && upper == GetSlc(x, p2, |x| - p2)
    requires ToNat(upper) != 0
    ensures ToNat(x) != 0 && CountLeadingZeros(x) == CountLeadingZeros(upper)
  {
    ClzSpec(upper);
    var m := |upper| - 1 - CountLeadingZeros(upper);
    forall k | m + p2 < k < |x| ensures !x[k] { assert x[k] == upper[k - p2]; }
    assert x[m + p2] == upper[m];
    LeadingZerosAt(x, m + p2);
    ClzSpec(x);
  }

  /** With the slice above P2 clear, X has the set bits of its lower slice. */
  lemma ClzLower(x: Bits, p2: nat, upper: Bits, lower: Bits)
    requires p2 < |x| && upper == GetSlc(x, p2, |x| - p2) && lower == GetSlc(x, 0, p2)
    requires ToNat(upper) == 0
    ensures ToNat(x) == 0 <==> ToNat(lower) == 0
    ensures ToNat(x) != 0 ==> CountLeadingZeros(x) == |x| - p2 + CountLeadingZeros(lower)
  {
    assert x == lower + upper;
    ToNatAppend(lower, upper);
    if ToNat(lower) != 0 {
      ClzSpec(lower);
      ToNatZero(upper);
      var m := p2 - 1 - CountLeadingZeros(lower);
      forall k | m < k < |x| ensures !x[k] {
        if k < p2 { assert x[k] == lower[k]; } else { assert x[k] == upper[k - p2]; }
      }
      assert x[m] == lower[m];
      LeadingZerosAt(x, m);
    }
  }

  /**
   * `leading_ones` agrees with the leading-zero count: for a nonzero X the
   * index it returns and the number of zero bits above that index add up to
   * W1 - 1, and it returns 0 for zero.
   */
  lemma {:induction false} LeadingOnesClz(x: Bits)
    requires 1 <= |x| <= 131072
    ensures ToNat(x) != 0 ==> LeadingOnes(x) + CountLeadingZeros(x) == |x| - 1
    ensures ToNat(x) == 0 ==> LeadingOnes(x) == 0
    decreases |x|, 1
  {
    if |x| > 1 {
      var p2 := NextPow2((|x| + 1) / 2);
      SplitPoint(|x|);
      if ToNat(GetSlc(x, p2, |x| - p2)) != 0 {
        LeadingOnesUpper(x, p2);
      } else {
        LeadingOnesLower(x, p2);
      }
    } else {
      ClzSpec(x);
    }
  }

  /** `leading_ones` when the slice above P2 has a set bit. */
  lemma {:induction false} LeadingOnesUpper(x: Bits, p2: nat)
    requires 2 <= |x| <= 131072 && p2 == NextPow2((|x| + 1) / 2)
    requires 1 <= p2 < |x| <= 2 * p2
    requires ToNat(GetSlc(x, p2, |x| - p2)) != 0
    ensures ToNat(x) != 0 && LeadingOnes(x) + CountLeadingZeros(x) == |x| - 1
    decreases |x|, 0
  {
    var upper := GetSlc(x, p2, |x| - p2);
    var idxu := LeadingOnes(upper);
    assert LeadingOnes(x) == NatOr(idxu, p2);
    LeadingOnesClz(upper);
    NatOrNextPow2(idxu, (|x| + 1) / 2);
    ClzUpper(x, p2, upper);
  }

  /** `leading_ones` when the slice above P2 is zero. */
  lemma {:induction false} LeadingOnesLower(x: Bits, p2: nat)
    requires 2 <= |x| <= 131072 && p2 == NextPow2((|x| + 1) / 2)
    requires 1 <= p2 < |x| <= 2 * p2
    requires ToNat(GetSlc(x, p2, |x| - p2)) == 0
    ensures ToNat(x) != 0 ==> LeadingOnes(x) + CountLeadingZeros(x) == |x| - 1
    ensures ToNat(x) == 0 ==> LeadingOnes(x) == 0
    decreases |x|, 0
  {
    var upper := GetSlc(x, p2, |x| - p2);
    var lower := GetSlc(x, 0, p2);
    assert LeadingOnes(x) == LeadingOnes(lower);
    LeadingOnesClz(lower);
    ClzLower(x, p2, upper, lower);
  }

  /** `leading_ones` finds the most significant set bit, and 0 for zero. */
  lemma LeadingOnesMsb(x: Bits)
    requires 1 <= |x| <= 131072
    ensures LeadingOnes(x) < |x|
    ensures ToNat(x) != 0 ==> x[LeadingOnes(x)] && forall k :: LeadingOnes(x) < k < |x| ==> !x[k]
    ensures ToNat(x) == 0 ==> LeadingOnes(x) == 0
  {
    LeadingOnesClz(x);
    ClzSpec(x);
  }

  /** Conversion of an `int` to `unsigned int`: reduction modulo 2^32. */
  function ToUnsigned(v: int): (r: nat)
    ensures r < UINT_LIMIT
    ensures 0 <= v < UINT_LIMIT ==> r == v
    ensures v == -1 ==> r == UINT_LIMIT - 1
  {
    v % UINT_LIMIT
  }

  /**
   * `lzd(X)` for a W-bit X: W-1-leading_ones(X) when unsigned, and
   * W-2-leading_ones(X) as an `unsigned int` when signed.
   */
  function Lzd(x: Bits, signed: bool): (r: nat)
    requires 1 <= |x| <= 131072
    ensures !signed && ToNat(x) != 0 ==> r == CountLeadingZeros(x)
    ensures !signed && ToNat(x) == 0 ==> r == |x| - 1
    ensures signed && x[|x| - 1] ==> r == UINT_LIMIT - 1
    ensures signed && |x| >= 2 && !x[|x| - 1] && ToNat(x) != 0 ==> r == CountLeadingZeros(x) - 1
  {
    var l := LeadingOnes(x);
    LeadingOnesClz(x);
    ClzSpec(x);
    if signed then ToUnsigned(|x| - 2 - l) else |x| - 1 - l
  }

  // ---------------------------------------------------------------------
  // left_shift / right_shift
  // ---------------------------------------------------------------------

  /** Logical left shift within the width of b. */
  function Shl(b: Bits, s: nat): (r: Bits)
    ensures |r| == |b| && forall k :: 0 <= k < |b| ==> r[k] == (k >= s && b[k - s])
  {
    seq(|b|, k requires 0 <= k < |b| => k >= s && b[k - s])
  }

  /** Logical right shift within the width of b. */
  function Shr(b: Bits, s: nat): (r: Bits)
    ensures |r| == |b| && forall k :: 0 <= k < |b| ==> r[k] == (k + s < |b| && b[k + s])
  {
    seq(|b|, k requires 0 <= k < |b| => k + s < |b| && b[k + s])
  }

  /** A truncated left shift multiplies the kept low bits by 2^s. */
  lemma ShlValue(b: Bits, s: nat)
    requires s <= |b|
    ensures ToNat(Shl(b, s)) == Pow2(s) * (ToNat(b) % Pow2(|b| - s))
  {
    assert Shl(b, s) == Zeros(s) + b[..|b| - s];
    ToNatAppend(Zeros(s), b[..|b| - s]);
    ToNatZeros(s);
    ToNatPrefix(b, |b| - s);
  }

  /** A right shift divides by 2^s. */
  lemma ShrValue(b: Bits, s: nat)
    requires s <= |b|
    ensures ToNat(Shr(b, s)) == ToNat(b) / Pow2(s)
  {
    assert Shr(b, s) == b[s..] + Zeros(s);
    ToNatAppend(b[s..], Zeros(s));
    ToNatZeros(s);
    ToNatPrefix(b, s);
  }

  /** `mag <<= shift` for a positive shift, `mag >>= -shift` otherwise. */
  function ShiftBy(mag: Bits, shift: int): (r: Bits)
    ensures |r| == |mag|
  {
    if shift > 0 then Shl(mag, shift) else Shr(mag, -shift)
  }

  /** `mag >>= shift` for a positive shift, `mag <<= -shift` otherwise. */
  function ShiftBackBy(mag: Bits, shift: int): (r: Bits)
    ensures |r| == |mag|
  {
    if shift > 0 then Shr(mag, shift) else Shl(mag, -shift)
  }

  /**
   * `left_shift(X, shift)`.  Signed: the W-1 magnitude bits, widened to W
   * bits, are shifted and the sign bit of X is put back on top.  Unsigned:
   * the W-bit value is shifted.  A negative shift shifts right.
   */
  function LeftShift(x: Bits, shift: int, signed: bool): (r: Bits)
    requires |x| >= 1 && (signed ==> |x| >= 2)
    ensures |r| == |x|
    ensures signed ==> r[|x| - 1] == x[|x| - 1] && r[..|x| - 1] == ShiftBy(x[..|x| - 1], shift)
    ensures !signed ==> r == ShiftBy(x, shift)
  {
    var w := |x|;
    if signed then
      var mag := ShiftBy(x[..w - 1] + [false], shift);
      var out := mag[..w - 1] + [x[w - 1]];
      assert out[..w - 1] == mag[..w - 1];
      out
    else
      ShiftBy(x, shift)
  }

  /** `right_shift(X, shift)`: as `LeftShift` with the directions swapped. */
  function RightShift(x: Bits, shift: int, signed: bool): (r: Bits)
    requires |x| >= 1 && (signed ==> |x| >= 2)
    ensures |r| == |x|
    ensures signed ==> r[|x| - 1] == x[|x| - 1] && r[..|x| - 1] == ShiftBackBy(x[..|x| - 1], shift)
    ensures !signed ==> r == ShiftBackBy(x, shift)
  {
    var w := |x|;
    if signed then
      var mag := ShiftBackBy(x[..w - 1] + [false], shift);
      var out := mag[..w - 1] + [x[w - 1]];
      assert out[..w - 1] == mag[..w - 1];
      out
    else
      ShiftBackBy(x, shift)
  }
}
