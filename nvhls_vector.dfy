/**
 * `nv_scvector` and the vector operations of `nvhls_vector.h`.
 *
 * A vector holds `VectorLength` elements of an unsigned `type_width`-bit
 * type.  Its raw form is the `width = type_width * VectorLength`-bit vector
 * with element i at bits [i*type_width, (i+1)*type_width).  The arithmetic
 * operations compute in full precision and truncate on assignment to the
 * unsigned output type, so every result is taken modulo 2 to the power of
 * the output width; an accumulator is truncated after every addition.
 */
module NvhlsVector {
  import opened Bits
  import opened NvhlsInt
  import Marshaller

  // ---------------------------------------------------------------------
  // Raw bits
  // ---------------------------------------------------------------------

  /** Every element fits the element type. */
  predicate Fits(xs: seq<nat>, w: nat) {
    forall i :: 0 <= i < |xs| ==> xs[i] < Pow2(w)
  }

  /** The raw form of a list of elements: element 0 lowest, each next one above. */
  function RawOf(xs: seq<nat>, tw: nat): (r: Bits)
    ensures |r| == |xs| * tw
  {
    if |xs| == 0 then []
    else
      var n := |xs| - 1;
      assert (n + 1) * tw == n * tw + tw;
      RawOf(xs[..n], tw) + FromNat(xs[n], tw)
  }

  lemma LaneBound(i: nat, n: nat, tw: nat)
    requires i < n
    ensures i * tw + tw <= n * tw
  {
    MulMonotone(i + 1, n, tw);
  }

  /** Element i of a raw vector of n elements. */
  function Lane(raw: Bits, tw: nat, n: nat, i: nat): (r: Bits)
    requires |raw| == n * tw && i < n
    ensures |r| == tw
  {
    LaneBound(i, n, tw);
    GetSlc(raw, i * tw, tw)
  }

  /** The elements read back from a raw vector. */
  function VectorOf(raw: Bits, tw: nat, n: nat): (r: seq<nat>)
    requires |raw| == n * tw
    ensures |r| == n && Fits(r, tw)
    ensures forall i :: 0 <= i < n ==> r[i] == ToNat(Lane(raw, tw, n, i))
  {
    seq(n, i requires 0 <= i < n => ToNat(Lane(raw, tw, n, i)))
  }

  /** Element i sits at bits [i*type_width, (i+1)*type_width) of the raw form. */
  lemma {:induction false} RawLayout(xs: seq<nat>, tw: nat, i: nat)
    requires i < |xs|
    ensures Lane(RawOf(xs, tw), tw, |xs|, i) == FromNat(xs[i], tw)
  {
    var n := |xs| - 1;
    var front, last := RawOf(xs[..n], tw), FromNat(xs[n], tw);
    assert RawOf(xs, tw) == front + last;
    if i < n {
      RawLayout(xs[..n], tw, i);
      LaneOfFront(front, last, tw, n, i);
    } else {
      LaneOfLast(front, last, tw, n);
    }
  }

  /** Appending a lane keeps the earlier lanes. */
  lemma LaneOfFront(front: Bits, last: Bits, tw: nat, n: nat, i: nat)
    requires |front| == n * tw && |last| == tw && i < n
    ensures Lane(front + last, tw, n + 1, i) == Lane(front, tw, n, i)
  {
    LaneBound(i, n, tw);
    assert (front + last)[i * tw..i * tw + tw] == front[i * tw..i * tw + tw];
  }

  /** The appended lane is the last one. */
  lemma LaneOfLast(front: Bits, last: Bits, tw: nat, n: nat)
    requires |front| == n * tw && |last| == tw
    ensures Lane(front + last, tw, n + 1, n) == last
  {
    assert (front + last)[n * tw..n * tw + tw] == last;
  }

  /** The vector after `to_rawbits` has packed elements 0 .. i-1: zeros above them. */
  function Packed(xs: seq<nat>, tw: nat, i: nat): (r: Bits)
    requires i <= |xs|
    ensures |r| == |xs| * tw
  {
    assert i * tw + (|xs| - i) * tw == |xs| * tw;
    RawOf(xs[..i], tw) + Zeros((|xs| - i) * tw)
  }

  /** One step of `to_rawbits`: `set_slc` of element i over the zeros above the packed prefix. */
  lemma PackStep(xs: seq<nat>, tw: nat, i: nat)
    requires i < |xs|
    ensures i * tw + tw <= |xs| * tw
    ensures SetSlc(Packed(xs, tw, i), FromNat(xs[i], tw), i * tw) == Packed(xs, tw, i + 1)
  {
    var n := |xs|;
    LaneBound(i, n, tw);
    assert (n - i) * tw == tw + (n - i - 1) * tw;
    assert xs[..i + 1][..i] == xs[..i];
    var front, rest := RawOf(xs[..i], tw), Zeros((n - i - 1) * tw);
    var x := front + Zeros(tw) + rest;
    assert Zeros((n - i) * tw) == Zeros(tw) + rest;
    assert x[..i * tw] == front;
    assert x[i * tw + tw..] == rest;
  }

  /** Nothing packed is the zero vector; everything packed is the raw form. */
  lemma PackedEnds(xs: seq<nat>, tw: nat)
    ensures Packed(xs, tw, 0) == Zeros(|xs| * tw)
    ensures Packed(xs, tw, |xs|) == RawOf(xs, tw)
  {
    assert xs[..0] == [] && xs[..|xs|] == xs;
  }

  /** The loop of `to_rawbits`: `set_slc` element i at bit i*type_width of a zero vector. */
  method Pack(xs: seq<nat>, tw: nat) returns (rawbits: Bits)
    ensures rawbits == RawOf(xs, tw)
  {
    PackedEnds(xs, tw);
    rawbits := Zeros(|xs| * tw);
    for i := 0 to |xs|
      invariant rawbits == Packed(xs, tw, i)
    {
      PackStep(xs, tw, i);
      rawbits := SetSlc(rawbits, FromNat(xs[i], tw), i * tw);
    }
  }

  /** Reading back the raw form gives the elements: `to_vector(to_rawbits())`. */
  lemma RawRoundTrip(xs: seq<nat>, tw: nat)
    requires Fits(xs, tw)
    ensures VectorOf(RawOf(xs, tw), tw, |xs|) == xs
  {
    var r := VectorOf(RawOf(xs, tw), tw, |xs|);
    forall i | 0 <= i < |xs| ensures r[i] == xs[i] {
      RawLayout(xs, tw, i);
      FromNatFits(xs[i], tw);
    }
  }

  /** Packing the elements read from a raw vector gives it back: `to_rawbits(to_vector(r))`. */
  lemma {:induction false} VectorRoundTrip(raw: Bits, tw: nat, n: nat)
    requires |raw| == n * tw
    ensures RawOf(VectorOf(raw, tw, n), tw) == raw
    decreases n
  {
    if n > 0 {
      var k := RepackStep(raw, tw, n);
      VectorRoundTrip(raw[..k], tw, n - 1);
      SplitAt(raw, k);
    }
  }

  lemma SplitAt(raw: Bits, k: nat)
    requires k <= |raw|
    ensures raw[..k] + raw[k..] == raw
  {
  }

  /** Repacking the elements of a raw vector: the first n-1 repacked, then the last lane as it was. */
  lemma RepackStep(raw: Bits, tw: nat, n: nat) returns (k: nat)
    requires |raw| == n * tw && n > 0
    ensures k == (n - 1) * tw <= |raw|
    ensures RawOf(VectorOf(raw, tw, n), tw) == RawOf(VectorOf(raw[..k], tw, n - 1), tw) + raw[k..]
  {
    var m := n - 1;
    k := m * tw;
    RawOfSnoc(VectorOf(raw, tw, n), tw);
    VectorOfPrefix(raw, tw, n);
    LastLane(raw, tw, n);
  }

  lemma RawOfSnoc(ys: seq<nat>, tw: nat)
    requires |ys| > 0
    ensures RawOf(ys, tw) == RawOf(ys[..|ys| - 1], tw) + FromNat(ys[|ys| - 1], tw)
  {
  }

  lemma VectorOfPrefix(raw: Bits, tw: nat, n: nat)
    requires |raw| == n * tw && n > 0
    ensures (n - 1) * tw <= |raw|
    ensures VectorOf(raw, tw, n)[..n - 1] == VectorOf(raw[..(n - 1) * tw], tw, n - 1)
  {
    var m := n - 1;
    assert m * tw + tw == n * tw;
    var front := raw[..m * tw];
    forall i | 0 <= i < m ensures VectorOf(raw, tw, n)[i] == VectorOf(front, tw, m)[i] {
      LaneOfPrefix(raw, tw, n, i);
    }
  }

  lemma LaneOfPrefix(raw: Bits, tw: nat, n: nat, i: nat)
    requires |raw| == n * tw && i + 1 < n
    ensures (n - 1) * tw <= |raw|
    ensures Lane(raw, tw, n, i) == Lane(raw[..(n - 1) * tw], tw, n - 1, i)
  {
    assert (n - 1) * tw + tw == n * tw;
    LaneBound(i, n - 1, tw);
    var front := raw[..(n - 1) * tw];
    assert front[i * tw..i * tw + tw] == raw[i * tw..i * tw + tw];
  }

  lemma LastLane(raw: Bits, tw: nat, n: nat)
    requires |raw| == n * tw && n > 0
    ensures (n - 1) * tw <= |raw|
    ensures FromNat(VectorOf(raw, tw, n)[n - 1], tw) == raw[(n - 1) * tw..]
  {
    var m := n - 1;
    assert m * tw + tw == n * tw;
    assert Lane(raw, tw, n, m) == raw[m * tw..];
    FromNatToNat(raw[m * tw..]);
  }

  /** The element images, as the fields that `Marshall` names in order. */
  function Images(xs: seq<nat>, tw: nat): (r: seq<Bits>)
    ensures |r| == |xs| && forall i :: 0 <= i < |xs| ==> r[i] == FromNat(xs[i], tw)
  {
    seq(|xs|, i requires 0 <= i < |xs| => FromNat(xs[i], tw))
  }

  /** `Marshall` of a vector produces its raw form: the fields are the elements in order. */
  lemma {:induction false} MarshallIsRawbits(xs: seq<nat>, tw: nat)
    ensures Marshaller.Flatten(Images(xs, tw)) == RawOf(xs, tw)
  {
    if |xs| > 0 {
      var n := |xs| - 1;
      assert Images(xs, tw)[..n] == Images(xs[..n], tw);
      MarshallIsRawbits(xs[..n], tw);
    }
  }

  // ---------------------------------------------------------------------
  // nv_scvector
  // ---------------------------------------------------------------------

  /** `nv_scvector<Type, VectorLength>`: the element array `data`. */
  class NvScVector {
    const length: nat
    const typeWidth: nat
    const data: array<nat>

    predicate Valid()
      reads this, data
    {
      data.Length == length && Fits(data[..], typeWidth)
    }

    /** `width`: the raw width. */
    function Width(): nat {
      typeWidth * length
    }

    /** `nv_scvector()`: elements are left at their default value, 0 here. */
    constructor (typeWidth: nat, length: nat)
      ensures Valid() && this.typeWidth == typeWidth && this.length == length && fresh(data)
    {
      this.typeWidth := typeWidth;
      this.length := length;
      data := new nat[length](i => 0);
    }

    /** `nv_scvector(const Type newdata[VectorLength])`: copy every element. */
    constructor FromArray(typeWidth: nat, newdata: seq<nat>)
      requires Fits(newdata, typeWidth)
      ensures Valid() && this.typeWidth == typeWidth && length == |newdata| && fresh(data)
      ensures data[..] == newdata
    {
      this.typeWidth := typeWidth;
      length := |newdata|;
      var d := new nat[|newdata|];
      for i := 0 to |newdata|
        invariant forall j :: 0 <= j < i ==> d[j] == newdata[j]
      {
        d[i] := newdata[i];
      }
      data := d;
    }

    /** `nv_scvector(const NVUINTW(width)& rawbits)`: slice every element out of the raw bits. */
    constructor FromRaw(typeWidth: nat, length: nat, rawbits: Bits)
      requires |rawbits| == length * typeWidth
      ensures Valid() && this.typeWidth == typeWidth && this.length == length && fresh(data)
      ensures data[..] == VectorOf(rawbits, typeWidth, length)
    {
      this.typeWidth := typeWidth;
      this.length := length;
      var d := new nat[length];
      Unpack(rawbits, typeWidth, length, d);
      data := d;
    }

    /**
     * `nv_scvector(const int& rawbits)`: the integer is first converted to
     * `NVUINTW(width)`, keeping its low bits in two's complement.
     */
    constructor FromInt(typeWidth: nat, length: nat, rawbits: int)
      ensures Valid() && this.typeWidth == typeWidth && this.length == length && fresh(data)
      ensures data[..] == VectorOf(FromNat(rawbits % Pow2(length * typeWidth), length * typeWidth), typeWidth, length)
    {
      this.typeWidth := typeWidth;
      this.length := length;
      var d := new nat[length];
      Unpack(FromNat(rawbits % Pow2(length * typeWidth), length * typeWidth), typeWidth, length, d);
      data := d;
    }

    /** `operator=(that)`: copy every element of that. */
    method Assign(that: NvScVector)
      requires Valid() && that.Valid() && that.length == length && that.typeWidth == typeWidth
      modifies data
      ensures Valid() && data[..] == old(that.data[..])
    {
      ghost var src := that.data[..];
      for i := 0 to length
        invariant forall j :: 0 <= j < i ==> data[j] == src[j]
        invariant forall j :: i <= j < length ==> that.data[j] == src[j]
      {
        data[i] := that.data[i];
      }
      assert data[..] == src;
    }

    /** `copy(out)`: copy every element into out. */
    method CopyTo(out: NvScVector)
      requires Valid() && out.Valid() && out.length == length && out.typeWidth == typeWidth
      modifies out.data
      ensures out.Valid() && out.data[..] == old(data[..])
    {
      out.Assign(this);
    }

    /** `to_rawbits()`: `set_slc` every element into a zero vector of the raw width. */
    method ToRawbits() returns (rawbits: Bits)
      requires Valid()
      ensures rawbits == RawOf(data[..], typeWidth)
      ensures VectorOf(rawbits, typeWidth, length) == data[..]
    {
      rawbits := Pack(data[..], typeWidth);
      RawRoundTrip(data[..], typeWidth);
    }

    /** `to_vector(rawbits)`: slice every element out of the raw bits. */
    method ToVector(rawbits: Bits)
      requires Valid() && |rawbits| == length * typeWidth
      modifies data
      ensures Valid() && data[..] == VectorOf(rawbits, typeWidth, length)
      ensures RawOf(data[..], typeWidth) == rawbits
    {
      Unpack(rawbits, typeWidth, length, data);
      VectorRoundTrip(rawbits, typeWidth, length);
    }
  }

  /** The element loop of the raw-bits constructors and `to_vector`. */
  method Unpack(rawbits: Bits, tw: nat, n: nat, d: array<nat>)
    requires |rawbits| == n * tw && d.Length == n
    modifies d
    ensures d[..] == VectorOf(rawbits, tw, n)
  {
    for i := 0 to n
      invariant forall j :: 0 <= j < i ==> d[j] == VectorOf(rawbits, tw, n)[j]
    {
      d[i] := ToNat(Lane(rawbits, tw, n, i));
    }
  }

  /** `operator==`: AND together the element comparisons. */
  method Equal(lhs: NvScVector, rhs: NvScVector) returns (isEqual: bool)
    requires lhs.Valid() && rhs.Valid() && lhs.length == rhs.length
    ensures isEqual <==> lhs.data[..] == rhs.data[..]
  {
    isEqual := true;
    for i := 0 to lhs.length
      invariant isEqual <==> lhs.data[..i] == rhs.data[..i]
    {
      assert lhs.data[..i + 1] == lhs.data[..i] + [lhs.data[i]];
      assert rhs.data[..i + 1] == rhs.data[..i] + [rhs.data[i]];
      isEqual := isEqual && lhs.data[i] == rhs.data[i];
    }
    assert lhs.data[..lhs.length] == lhs.data[..] && rhs.data[..lhs.length] == rhs.data[..];
  }

  // ---------------------------------------------------------------------
  // Element-wise operations
  // ---------------------------------------------------------------------

  /** The element operations. */
  datatype Op = Mul | Add | Sub

  /** One output element, truncated to the output width w. */
  function Apply(op: Op, a: nat, b: nat, w: nat): (r: nat)
    ensures r < Pow2(w)
  {
    match op
    case Mul => (a * b) % Pow2(w)
    case Add => (a + b) % Pow2(w)
    case Sub => (a as int - b as int) % Pow2(w)
  }

  /** The output of an element-wise operation. */
  function Elementwise(op: Op, in1: seq<nat>, in2: seq<nat>, w: nat): (r: seq<nat>)
    requires |in1| == |in2|
    ensures |r| == |in1| && Fits(r, w)
    ensures forall i :: 0 <= i < |in1| ==> r[i] == Apply(op, in1[i], in2[i], w)
  {
    seq(|in1|, i requires 0 <= i < |in1| => Apply(op, in1[i], in2[i], w))
  }

  /**
   * `vector_mul` / `vector_add` / `vector_sub`: `out[i] = in1[i] op in2[i]`.
   * The inputs are passed by value; both settings of `Unroll` run the same
   * loop, so the result does not depend on it.
   */
  method VectorOp(op: Op, in1: seq<nat>, in2: seq<nat>, out: NvScVector, unroll: bool)
    requires out.Valid() && |in1| == |in2| == out.length
    modifies out.data
    ensures out.Valid() && out.data[..] == Elementwise(op, in1, in2, out.typeWidth)
  {
    if unroll {
      for i := 0 to out.length
        invariant forall j :: 0 <= j < i ==> out.data[j] == Apply(op, in1[j], in2[j], out.typeWidth)
      {
        out.data[i] := Apply(op, in1[i], in2[i], out.typeWidth);
      }
    } else {
      for i := 0 to out.length
        invariant forall j :: 0 <= j < i ==> out.data[j] == Apply(op, in1[j], in2[j], out.typeWidth)
      {
        out.data[i] := Apply(op, in1[i], in2[i], out.typeWidth);
      }
    }
  }

  /** `vector_mac`: `out[i] = in1[i] * in2[i] + in3[i]`. */
  method VectorMac(in1: seq<nat>, in2: seq<nat>, in3: seq<nat>, out: NvScVector, unroll: bool)
    requires out.Valid() && |in1| == |in2| == |in3| == out.length
    modifies out.data
    ensures out.Valid()
    ensures forall i :: 0 <= i < out.length ==> out.data[i] == (in1[i] * in2[i] + in3[i]) % Pow2(out.typeWidth)
  {
    var m := Pow2(out.typeWidth);
    if unroll {
      for i := 0 to out.length
        invariant forall j :: 0 <= j < i ==> out.data[j] == (in1[j] * in2[j] + in3[j]) % m
        invariant Fits(out.data[..], out.typeWidth)
      {
        out.data[i] := (in1[i] * in2[i] + in3[i]) % m;
      }
    } else {
      for i := 0 to out.length
        invariant forall j :: 0 <= j < i ==> out.data[j] == (in1[j] * in2[j] + in3[j]) % m
        invariant Fits(out.data[..], out.typeWidth)
      {
        out.data[i] := (in1[i] * in2[i] + in3[i]) % m;
      }
    }
  }

  lemma ModAddLeft(a: int, b: int, m: nat)
    requires m > 0
    ensures (a % m + b) % m == (a + b) % m
  {
    var q := a / m;
    assert a == q * m + a % m;
    assert a + b == (a % m + b) + q * m;
    ModMultiple(a % m + b, q, m);
  }

  lemma ModMultiple(x: int, q: int, m: nat)
    requires m > 0
    ensures (x + q * m) % m == x % m
  {
    var r := x % m;
    assert x == (x / m) * m + r;
    assert x + q * m == (x / m + q) * m + r;
    DivModUnique(x + q * m, m, x / m + q, r);
  }

  /**
   * A multiply-accumulate equals an add applied to the product computed at
   * the same output width: `vector_mac(a, b, c)` is
   * `vector_add(vector_mul(a, b), c)`.
   */
  lemma MacIsMulThenAdd(in1: seq<nat>, in2: seq<nat>, in3: seq<nat>, w: nat)
    requires |in1| == |in2| == |in3|
    ensures forall i :: 0 <= i < |in1| ==>
      (in1[i] * in2[i] + in3[i]) % Pow2(w) == Elementwise(Add, Elementwise(Mul, in1, in2, w), in3, w)[i]
  {
    forall i | 0 <= i < |in1|
      ensures (in1[i] * in2[i] + in3[i]) % Pow2(w) == Elementwise(Add, Elementwise(Mul, in1, in2, w), in3, w)[i]
    {
      ModAddLeft(in1[i] * in2[i], in3[i], Pow2(w));
    }
  }

  /** Subtraction undoes addition at the same width. */
  lemma SubUndoesAdd(in1: seq<nat>, in2: seq<nat>, w: nat)
    requires |in1| == |in2| && Fits(in1, w)
    ensures Elementwise(Sub, Elementwise(Add, in1, in2, w), in2, w) == in1
  {
    var s := Elementwise(Add, in1, in2, w);
    var d := Elementwise(Sub, s, in2, w);
    forall i | 0 <= i < |in1| ensures d[i] == in1[i] {
      var m := Pow2(w);
      ModAddLeft(in1[i] + in2[i], -(in2[i] as int), m);
      DivModUnique(in1[i], m, 0, in1[i]);
    }
  }

  // ---------------------------------------------------------------------
  // Reductions
  // ---------------------------------------------------------------------

  /** The sum of the elements. */
  function SumOf(xs: seq<nat>): nat {
    if |xs| == 0 then 0 else SumOf(xs[..|xs| - 1]) + xs[|xs| - 1]
  }

  /** The sum of the pairwise products. */
  function Dot(a: seq<nat>, b: seq<nat>): nat
    requires |a| == |b|
  {
    if |a| == 0 then 0 else Dot(a[..|a| - 1], b[..|b| - 1]) + a[|a| - 1] * b[|b| - 1]
  }

  /**
   * `reduction(in, out)`: a truncating accumulator adds the elements one by
   * one; a one-element vector is copied.  Either way the result is the sum
   * modulo 2 to the power of the output width.
   */
  method Reduction(input: seq<nat>, w: nat, useReduceTree: bool) returns (out: nat)
    requires |input| >= 1
    ensures out == SumOf(input) % Pow2(w)
    ensures |input| == 1 ==> out == input[0] % Pow2(w)
  {
    var m := Pow2(w);
    var sum := 0;
    if |input| > 1 {
      assert input[..0] == [];
      DivModUnique(0, m, 0, 0);
      for i := 0 to |input|
        invariant sum == SumOf(input[..i]) % m
      {
        SumStep(input, i, m);
        sum := (sum + input[i]) % m;
      }
      assert input[..|input|] == input;
    } else {
      SumStep(input, 0, m);
      assert input[..1] == input;
      sum := input[0] % m;
    }
    out := sum;
  }

  lemma SumStep(xs: seq<nat>, i: nat, m: nat)
    requires i < |xs| && m > 0
    ensures (SumOf(xs[..i]) % m + xs[i]) % m == SumOf(xs[..i + 1]) % m
    ensures i == 0 ==> SumOf(xs[..1]) == xs[0]
  {
    assert xs[..i + 1][..i] == xs[..i];
    ModAddLeft(SumOf(xs[..i]), xs[i], m);
  }

  lemma DotStep(a: seq<nat>, b: seq<nat>, c: int, i: nat, m: nat)
    requires |a| == |b| && i < |a| && m > 0
    ensures ((c + Dot(a[..i], b[..i])) % m + a[i] * b[i]) % m == (c + Dot(a[..i + 1], b[..i + 1])) % m
    ensures i == 0 ==> Dot(a[..1], b[..1]) == a[0] * b[0]
  {
    assert a[..i + 1][..i] == a[..i] && b[..i + 1][..i] == b[..i];
    ModAddLeft(c + Dot(a[..i], b[..i]), a[i] * b[i], m);
  }

  /** `dp(in1, in2, out)`: the truncating sum of the pairwise products. */
  method DotProduct(in1: seq<nat>, in2: seq<nat>, w: nat, useReduceTree: bool) returns (out: nat)
    requires |in1| == |in2| >= 1
    ensures out == Dot(in1, in2) % Pow2(w)
  {
    var m := Pow2(w);
    var sum := 0;
    if |in1| > 1 {
      assert in1[..0] == [] && in2[..0] == [];
      DivModUnique(0, m, 0, 0);
      for i := 0 to |in1|
        invariant sum == (0 + Dot(in1[..i], in2[..i])) % m
      {
        DotStep(in1, in2, 0, i, m);
        sum := (sum + in1[i] * in2[i]) % m;
      }
      assert in1[..|in1|] == in1 && in2[..|in2|] == in2;
    } else {
      DotStep(in1, in2, 0, 0, m);
      assert in1[..1] == in1 && in2[..1] == in2;
      sum := (in1[0] * in2[0]) % m;
    }
    out := sum;
  }

  /** `dpacc(in1, in2, in3, out)`: the accumulator starts at in3. */
  method DotProductAcc(in1: seq<nat>, in2: seq<nat>, in3: nat, w: nat, useReduceTree: bool) returns (out: nat)
    requires |in1| == |in2|
    ensures out == (in3 + Dot(in1, in2)) % Pow2(w)
  {
    var m := Pow2(w);
    var sum := in3 % m;
    assert in1[..0] == [] && in2[..0] == [];
    for i := 0 to |in1|
      invariant sum == (in3 + Dot(in1[..i], in2[..i])) % m
    {
      DotStep(in1, in2, in3, i, m);
      sum := (sum + in1[i] * in2[i]) % m;
    }
    assert in1[..|in1|] == in1 && in2[..|in2|] == in2;
    out := sum;
  }

  /** `dpacc` is in3 plus the result of `dp` at the same width. */
  lemma DpaccIsDpPlusAcc(in1: seq<nat>, in2: seq<nat>, in3: nat, w: nat)
    requires |in1| == |in2|
    ensures (in3 + Dot(in1, in2)) % Pow2(w) == (in3 + Dot(in1, in2) % Pow2(w)) % Pow2(w)
  {
    ModAddLeft(Dot(in1, in2), in3, Pow2(w));
  }

  /**
   * `dp` is the `reduction` of the `vector_mul` output when the product type
   * is wide enough to hold every product.
   */
  lemma {:induction false} DpIsReductionOfMul(in1: seq<nat>, in2: seq<nat>, mw: nat)
    requires |in1| == |in2|
    requires forall i :: 0 <= i < |in1| ==> in1[i] * in2[i] < Pow2(mw)
    ensures SumOf(Elementwise(Mul, in1, in2, mw)) == Dot(in1, in2)
  {
    if |in1| > 0 {
      var n := |in1| - 1;
      var e := Elementwise(Mul, in1, in2, mw);
      ElementwisePrefix(Mul, in1, in2, mw, n);
      DpIsReductionOfMul(in1[..n], in2[..n], mw);
      MulApply(in1[n], in2[n], mw);
      assert e[n] == in1[n] * in2[n];
      assert SumOf(e) == SumOf(e[..n]) + e[n];
    }
  }

  /** A product that fits the output is not truncated. */
  lemma MulApply(a: nat, b: nat, w: nat)
    requires a * b < Pow2(w)
    ensures Apply(Mul, a, b, w) == a * b
  {
    var p: nat := a * b;
    DivModUnique(p, Pow2(w), 0, p);
  }

  lemma ElementwisePrefix(op: Op, in1: seq<nat>, in2: seq<nat>, w: nat, n: nat)
    requires |in1| == |in2| && n <= |in1|
    ensures Elementwise(op, in1, in2, w)[..n] == Elementwise(op, in1[..n], in2[..n], w)
  {
  }
}
