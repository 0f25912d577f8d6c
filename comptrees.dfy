/**
 * The compile-time comparison trees of `comptrees.h`: `Minmax::minmax`,
 * `Concat::concat` and `PriEnc::val`.  Each template recursion on `Width`
 * (or `NumElements`) becomes a recursion on an explicit width argument.
 */
module Comptrees {
  import opened Bits
  import opened NvhlsInt
  import opened Marshaller

  // ---------------------------------------------------------------------
  // Minmax
  // ---------------------------------------------------------------------

  /** Element i of a packed array: bits [i*w, (i+1)*w) as an unsigned value. */
  function ElementAt(inputs: Bits, w: nat, i: nat): (r: nat)
    requires w > 0 && i < TotalElems(inputs, w)
    ensures r < Pow2(w)
  {
    ElementFits(inputs, w, i);
    ToNat(GetSlc(inputs, i * w, w))
  }

  /** `TotalElems`: how many whole elements the packed array holds. */
  function TotalElems(inputs: Bits, w: nat): nat
    requires w > 0
  {
    |inputs| / w
  }

  lemma ElementFits(inputs: Bits, w: nat, i: nat)
    requires w > 0 && i < TotalElems(inputs, w)
    ensures (i + 1) * w <= |inputs|
  {
    var n := TotalElems(inputs, w);
    MulMonotone(i + 1, n, w);
  }

  /** The unpacked elements: `temp[i] = inputs.range((i+1)*ElemWidth - 1, i*ElemWidth)`. */
  function Elements(inputs: Bits, w: nat): (r: seq<nat>)
    requires w > 0
    ensures |r| == TotalElems(inputs, w)
    ensures forall i :: 0 <= i < |r| ==> r[i] == ElementAt(inputs, w, i)
  {
    seq(TotalElems(inputs, w), i requires 0 <= i < TotalElems(inputs, w) => ElementAt(inputs, w, i))
  }

  /** The unrolled loop that fills `temp`. */
  method UnpackElements(inputs: Bits, w: nat) returns (temp: array<nat>)
    requires w > 0
    ensures fresh(temp) && temp[..] == Elements(inputs, w)
  {
    var total := |inputs| / w;
    temp := new nat[total];
    for i := 0 to total
      invariant forall j :: 0 <= j < i ==> temp[j] == Elements(inputs, w)[j]
    {
      ElementFits(inputs, w, i);
      temp[i] := ToNat(inputs[i * w..(i + 1) * w]);
    }
  }

  /** Widths of a comparison tree: 1, 2, 4, ... */
  predicate IsPow2(n: nat) {
    n == 1 || (n >= 2 && n % 2 == 0 && IsPow2(n / 2))
  }

  /** The element at i wins the comparison against the one at j. */
  predicate Better(temp: seq<nat>, isMax: bool, i: nat, j: nat)
    requires i < |temp| && j < |temp|
  {
    if isMax then temp[i] > temp[j] else temp[i] < temp[j]
  }

  /** temp[r] is a largest (isMax) or smallest element of temp[start..end]. */
  predicate Extreme(temp: seq<nat>, isMax: bool, start: nat, end: nat, r: nat)
    requires r < |temp| && end < |temp|
  {
    forall j :: start <= j <= end ==> if isMax then temp[j] <= temp[r] else temp[r] <= temp[j]
  }

  /**
   * `Minmax<ArrT, ElemT, IdxT, is_max, Width>::minmax(inputs, start, end)` on
   * the unpacked elements.  Width is a power of two and [start, end] holds
   * exactly Width elements.  Width 1 returns start; Width 2 compares start
   * with end and keeps end unless start is strictly better; a wider tree
   * compares the winners of its two halves and keeps the lower half's unless
   * the upper half's is strictly better.
   */
  function Minmax(temp: seq<nat>, isMax: bool, width: nat, start: nat, end: nat): (r: nat)
    requires IsPow2(width) && start + width - 1 == end < |temp|
    ensures start <= r <= end
    ensures Extreme(temp, isMax, start, end, r)
    decreases width
  {
    if width == 1 then
      start
    else if width == 2 then
      if Better(temp, isMax, start, end) then start else end
    else
      var mid := (start + end) / 2;
      assert mid == start + width / 2 - 1 by { HalfWidth(width, start, end); }
      var upper := Minmax(temp, isMax, width / 2, mid + 1, end);
      var lower := Minmax(temp, isMax, width / 2, start, mid);
      if Better(temp, isMax, upper, lower) then upper else lower
  }

  lemma HalfWidth(width: nat, start: nat, end: nat)
    requires width >= 2 && width % 2 == 0 && start + width - 1 == end
    ensures (start + end) / 2 == start + width / 2 - 1
  {
    var h := width / 2;
    assert start + end == 2 * (start + h - 1) + 1;
  }

  /** `minmax` over the packed input vector. */
  function MinmaxOf(inputs: Bits, w: nat, isMax: bool, width: nat, start: nat, end: nat): (r: nat)
    requires w > 0 && IsPow2(width) && start + width - 1 == end < TotalElems(inputs, w)
    ensures start <= r <= end && Extreme(Elements(inputs, w), isMax, start, end, r)
  {
    Minmax(Elements(inputs, w), isMax, width, start, end)
  }

  /** A Width-2 tree compares only start and end and returns one of them. */
  lemma MinmaxTwo(temp: seq<nat>, isMax: bool, start: nat)
    requires start + 1 < |temp|
    ensures Minmax(temp, isMax, 2, start, start + 1) in {start, start + 1}
    ensures Minmax(temp, isMax, 2, start, start + 1) ==
      (if Better(temp, isMax, start, start + 1) then start else start + 1)
  {
    assert IsPow2(2) by { assert IsPow2(1); }
  }

  // ---------------------------------------------------------------------
  // Concat
  // ---------------------------------------------------------------------

  /**
   * `Concat<BaseTemplate, ElemW, NumElements>::concat(components, start,
   * end)`: `(rest, components[start])`, with the rest concatenated the same
   * way.  The SystemC concatenation `(hi, lo)` puts lo in the low bits.
   */
  function Concat(components: seq<Bits>, n: nat, start: nat, end: nat): (r: Bits)
    requires n >= 1 && start + n - 1 == end < |components|
    ensures r == Flatten(components[start..end + 1])
    decreases n
  {
    if n == 1 then
      Flatten1(components[start]);
      assert components[start..end + 1] == [components[start]];
      components[start]
    else if n == 2 then
      Flatten2(components[start], components[end]);
      assert components[start..end + 1] == [components[start], components[end]];
      components[start] + components[end]
    else
      var rest := Concat(components, n - 1, start + 1, end);
      FlattenCons(components[start], components[start + 1..end + 1]);
      assert components[start + 1..end + 1] == components[start + 1..end + 1];
      assert components[start..end + 1] == [components[start]] + components[start + 1..end + 1];
      components[start] + rest
  }

  /**
   * Component start + k of the concatenation sits at bits [k*ElemW,
   * (k+1)*ElemW): components[start] in the lowest bits, each later one
   * directly above the one before.
   */
  lemma ConcatLayout(components: seq<Bits>, n: nat, start: nat, elemW: nat, k: nat)
    requires n >= 1 && start + n <= |components| && k < n
    requires forall i :: 0 <= i < |components| ==> |components[i]| == elemW
    ensures |Concat(components, n, start, start + n - 1)| == n * elemW
    ensures k * elemW + elemW <= n * elemW
    ensures GetSlc(Concat(components, n, start, start + n - 1), k * elemW, elemW) == components[start + k]
  {
    var cs := components[start..start + n];
    UniformSizes(cs, elemW, k);
    assert cs[k] == components[start + k];
    FieldPlacement(cs, k);
  }

  /** With every component elemW wide, component k starts at k*elemW and the whole is n*elemW wide. */
  lemma UniformSizes(cs: seq<Bits>, elemW: nat, k: nat)
    requires k < |cs| && forall i :: 0 <= i < |cs| ==> |cs[i]| == elemW
    ensures |Flatten(cs)| == |cs| * elemW
    ensures Offset(Widths(cs), k) == k * elemW
    ensures k * elemW + elemW <= |cs| * elemW
  {
    SumUniform(Widths(cs), elemW);
    UniformOffset(cs, elemW, k);
    StrideBound(k, |cs|, elemW);
  }

  lemma UniformOffset(cs: seq<Bits>, elemW: nat, k: nat)
    requires k < |cs| && forall i :: 0 <= i < |cs| ==> |cs[i]| == elemW
    ensures Offset(Widths(cs), k) == k * elemW
  {
    SumUniform(Widths(cs)[..k], elemW);
  }

  lemma StrideBound(k: nat, n: nat, d: nat)
    requires k < n
    ensures k * d + d <= n * d
  {
    MulMonotone(k + 1, n, d);
    assert (k + 1) * d == k * d + d;
  }

  // ---------------------------------------------------------------------
  // PriEnc
  // ---------------------------------------------------------------------

  /**
   * `PriEnc<VecT, ValT, IdxT, Width>::val(inputs, comp_value, start, end)`:
   * the first position in [start, end] (end == start + Width - 1) whose bit
   * equals comp_value, or -1.  Width 1 tests only end.
   */
  function PriEnc(inputs: Bits, comp: bool, width: nat, start: nat, end: nat): (r: int)
    requires width >= 1 && start + width - 1 == end < |inputs|
    ensures r == -1 <==> forall j :: start <= j <= end ==> inputs[j] != comp
    ensures r != -1 ==> start <= r <= end && inputs[r] == comp && (forall j :: start <= j < r ==> inputs[j] != comp)
    decreases width
  {
    if width == 1 then
      if inputs[end] == comp then end else -1
    else if inputs[start] == comp then
      start
    else if start == end then
      -1
    else
      PriEnc(inputs, comp, width - 1, start + 1, start + width - 1)
  }

  /** `PriEnc<..., Width>::val(inputs, comp_value)`: search positions 0 .. Width-1. */
  function PriEncVal(inputs: Bits, comp: bool, width: nat): (r: int)
    requires 1 <= width <= |inputs|
    ensures -1 <= r < width
    ensures r == -1 <==> forall j :: 0 <= j < width ==> inputs[j] != comp
    ensures r >= 0 ==> inputs[r] == comp && forall j :: 0 <= j < r ==> inputs[j] != comp
  {
    if width == 1 then
      if inputs[0] == comp then 0 else -1
    else
      PriEnc(inputs, comp, width, 0, width - 1)
  }
}
