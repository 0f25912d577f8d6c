/**
 * The arbiters of `Arbiter.h`.
 *
 * A request vector `valid` has one bit per requester; a grant is a one-hot
 * vector of the same width, or zero when nothing is valid.
 *
 * The round-robin arbiter keeps a mask `next`.  From reset on, `next` is
 * always a prefix mask {i : i < p} for a pointer 1 <= p <= N: `next[0]` is
 * never cleared.  A pick grants the highest valid requester below p, or,
 * when there is none, the highest valid requester overall; p then becomes
 * the granted index (N when requester 0 was granted).  The method `Pick`
 * follows the library's computation on the doubled ("unrolled") vectors
 * and is proved to grant `RRChoice`; `RRChoice` in turn is proved to agree
 * with the rotate-right reference arbiter of the unit test on every
 * sequence of requests.
 */
module Arbiter {
  import opened Wrappers
  import opened Bits
  import opened NvhlsInt

  // ---------------------------------------------------------------------
  // Round-robin specification
  // ---------------------------------------------------------------------

  /** The mask {i : i < p} of width n. */
  function PrefixMask(n: nat, p: nat): (r: Bits)
    ensures |r| == n && forall i :: 0 <= i < n ==> r[i] == (i < p)
  {
    seq(n, i => i < p)
  }

  lemma OnesIsFullMask(n: nat)
    ensures Ones(n) == PrefixMask(n, n)
  {
  }

  /** The highest valid requester below p. */
  function HighestBelow(valid: Bits, p: nat): (r: Option<nat>)
    requires p <= |valid|
    ensures r.Some? ==> r.value < p && valid[r.value] && forall j :: r.value < j < p ==> !valid[j]
    ensures r.None? ==> forall j :: 0 <= j < p ==> !valid[j]
  {
    if p == 0 then None
    else if valid[p - 1] then Some(p - 1)
    else HighestBelow(valid, p - 1)
  }

  /**
   * The round-robin grant for pointer p: the highest valid requester below
   * p, or else the highest valid requester.
   */
  function RRChoice(valid: Bits, p: nat): (k: nat)
    requires p <= |valid| && !IsZero(valid)
    ensures k < |valid| && valid[k]
    ensures k < p ==> forall j :: k < j < p ==> !valid[j]
    ensures k >= p ==> (forall j :: 0 <= j < p ==> !valid[j]) && forall j :: k < j < |valid| ==> !valid[j]
  {
    match HighestBelow(valid, p)
    case Some(k) => k
    case None =>
      var top := HighestBelow(valid, |valid|);
      assert top.Some?;
      top.value
  }

  /** The pointer after granting k: k itself, or n when requester 0 was granted. */
  function NextPtr(k: nat, n: nat): nat {
    if k == 0 then n else k
  }

  // ---------------------------------------------------------------------
  // The rotate-right reference arbiter of the unit test
  // ---------------------------------------------------------------------

  /** `rotate_right` of a one-hot mask with bit q set: the bit moves to q - 1, bit 0 to n - 1. */
  function RotateRight(q: nat, n: nat): nat
    requires 1 <= n
  {
    if q == 0 then n - 1 else q - 1
  }

  /**
   * The reference search: rotate the one-hot iterator right and test it
   * against valid, at most `steps` times.
   */
  function RefSearch(valid: Bits, q: nat, steps: nat): (r: Option<nat>)
    requires 1 <= |valid| && q <= |valid|
    ensures r.Some? ==> r.value < |valid| && valid[r.value]
    decreases steps
  {
    if steps == 0 then None
    else
      var c := RotateRight(q, |valid|);
      if valid[c] then Some(c) else RefSearch(valid, c, steps - 1)
  }

  /** The reference's iterator position q as a pointer. */
  function PtrOf(q: nat, n: nat): nat {
    if q == 0 then n else q
  }

  /** From q, the reference finds the highest valid requester below q. */
  lemma {:induction false} RefSearchBelow(valid: Bits, q: nat, s: nat, k: nat)
    requires 1 <= q <= |valid| && HighestBelow(valid, q) == Some(k) && s >= q - k
    ensures RefSearch(valid, q, s) == Some(k)
    decreases q
  {
    if !valid[q - 1] {
      assert HighestBelow(valid, q - 1) == Some(k);
      RefSearchBelow(valid, q - 1, s - 1, k);
    }
  }

  /** With nothing valid below q, the reference wraps round to the top after q steps. */
  lemma {:induction false} RefSearchWrap(valid: Bits, q: nat, s: nat)
    requires 1 <= q <= |valid| && HighestBelow(valid, q).None? && s >= q
    ensures RefSearch(valid, q, s) == RefSearch(valid, 0, s - q)
    decreases q
  {
    assert !valid[q - 1];
    if q > 1 {
      assert HighestBelow(valid, q - 1).None?;
      RefSearchWrap(valid, q - 1, s - 1);
    }
  }

  /** The round-robin choice is the reference arbiter's choice. */
  lemma RRChoiceIsReference(valid: Bits, q: nat)
    requires 1 <= |valid| && q < |valid| && !IsZero(valid)
    ensures RefSearch(valid, q, |valid| + 1) == Some(RRChoice(valid, PtrOf(q, |valid|)))
  {
    var n := |valid|;
    var top := HighestBelow(valid, n);
    assert top.Some?;
    if q == 0 {
      RefSearchBelow(valid, n, n + 1, top.value);
    } else {
      match HighestBelow(valid, q)
      case Some(k) =>
        RefSearchBelow(valid, q, n + 1, k);
      case None =>
        RefSearchWrap(valid, q, n + 1);
        assert RefSearch(valid, 0, n + 1 - q) == RefSearch(valid, n, n + 1 - q);
        RefSearchBelow(valid, n, n + 1 - q, top.value);
    }
  }

  predicate Widths(masks: seq<Bits>, n: nat) {
    forall i :: 0 <= i < |masks| ==> |masks[i]| == n
  }

  /** The grants of the round-robin arbiter from pointer p on a sequence of request vectors. */
  function RRGrants(masks: seq<Bits>, n: nat, p: nat): (gs: seq<Bits>)
    requires Widths(masks, n) && p <= n
    ensures |gs| == |masks|
  {
    if |masks| == 0 then []
    else if IsZero(masks[0]) then [Zeros(n)] + RRGrants(masks[1..], n, p)
    else
      var k := RRChoice(masks[0], p);
      [OneHot(n, k)] + RRGrants(masks[1..], n, NextPtr(k, n))
  }

  /** The grants of the reference arbiter whose iterator sits at bit q. */
  function RefGrants(masks: seq<Bits>, n: nat, q: nat): (gs: seq<Bits>)
    requires Widths(masks, n) && 1 <= n && q < n
    ensures |gs| == |masks|
  {
    if |masks| == 0 then []
    else if IsZero(masks[0]) then [Zeros(n)] + RefGrants(masks[1..], n, q)
    else
      match RefSearch(masks[0], q, n + 1)
      case Some(c) => [OneHot(n, c)] + RefGrants(masks[1..], n, c)
      case None => [Zeros(n)] + RefGrants(masks[1..], n, q)
  }

  /**
   * On every sequence of request vectors the round-robin arbiter, started
   * from reset (p = n), grants exactly what the reference (started at bit
   * 0) grants.
   */
  lemma {:induction false} GrantsMatchReference(masks: seq<Bits>, n: nat, q: nat)
    requires Widths(masks, n) && 1 <= n && q < n
    ensures RRGrants(masks, n, PtrOf(q, n)) == RefGrants(masks, n, q)
  {
    if |masks| > 0 {
      var v := masks[0];
      if IsZero(v) {
        GrantsMatchReference(masks[1..], n, q);
      } else {
        RRChoiceIsReference(v, q);
        var k := RRChoice(v, PtrOf(q, n));
        assert PtrOf(k, n) == NextPtr(k, n);
        GrantsMatchReference(masks[1..], n, k);
      }
    }
  }

  // ---------------------------------------------------------------------
  // The unrolled vectors of `pick`
  // ---------------------------------------------------------------------

  lemma SetSlcBit(x: Bits, y: Bits, i: nat, k: nat)
    requires i + |y| <= |x| && k < |x|
    ensures SetSlc(x, y, i)[k] == if i <= k < i + |y| then y[k - i] else x[k]
  {
    if i <= k < i + |y| {
      GetSlcBit(SetSlc(x, y, i), i, |y|, k - i);
    }
  }

  /** Unrolled valid: bits 1..n-1 of valid at the bottom, the whole of valid above them. */
  function UnrolledValid(valid: Bits): (uv: Bits)
    requires 2 <= |valid|
    ensures |uv| == 2 * |valid| - 1
  {
    var n := |valid|;
    var z := Zeros(2 * n - 1);
    Or(SetSlc(z, GetSlc(valid, 1, n - 1), 0), SetSlc(z, valid, n - 1))
  }

  lemma UnrolledValidAt(valid: Bits, u: nat)
    requires 2 <= |valid| && u < 2 * |valid| - 1
    ensures UnrolledValid(valid)[u] == if u < |valid| - 1 then valid[u + 1] else valid[u - (|valid| - 1)]
  {
    if u < |valid| - 1 {
      UnrolledValidLow(valid, u);
    } else {
      UnrolledValidHigh(valid, u);
    }
  }

  lemma UnrolledValidLow(valid: Bits, u: nat)
    requires 2 <= |valid| && u < |valid| - 1
    ensures UnrolledValid(valid)[u] == valid[u + 1]
  {
    var n := |valid|;
    var z := Zeros(2 * n - 1);
    var low := GetSlc(valid, 1, n - 1);
    SetSlcBit(z, low, 0, u);
    SetSlcBit(z, valid, n - 1, u);
    GetSlcBit(valid, 1, n - 1, u);
  }

  lemma UnrolledValidHigh(valid: Bits, u: nat)
    requires 2 <= |valid| && |valid| - 1 <= u < 2 * |valid| - 1
    ensures UnrolledValid(valid)[u] == valid[u - (|valid| - 1)]
  {
    var n := |valid|;
    var z := Zeros(2 * n - 1);
    SetSlcBit(z, GetSlc(valid, 1, n - 1), 0, u);
    SetSlcBit(z, valid, n - 1, u);
  }

  /** Unrolled next: ones at the bottom, next above them. */
  function UnrolledNext(next: Bits): (un: Bits)
    requires 2 <= |next|
    ensures |un| == 2 * |next| - 1
  {
    var n := |next|;
    var z := Zeros(2 * n - 1);
    Or(SetSlc(z, next, n - 1), SetSlc(z, Ones(n - 1), 0))
  }

  lemma UnrolledNextAt(next: Bits, u: nat)
    requires 2 <= |next| && u < 2 * |next| - 1
    ensures UnrolledNext(next)[u] == if u < |next| - 1 then true else next[u - (|next| - 1)]
  {
    if u < |next| - 1 {
      UnrolledNextLow(next, u);
    } else {
      UnrolledNextHigh(next, u);
    }
  }

  lemma UnrolledNextLow(next: Bits, u: nat)
    requires 2 <= |next| && u < |next| - 1
    ensures UnrolledNext(next)[u]
  {
    var n := |next|;
    SetSlcBit(Zeros(2 * n - 1), Ones(n - 1), 0, u);
  }

  lemma UnrolledNextHigh(next: Bits, u: nat)
    requires 2 <= |next| && |next| - 1 <= u < 2 * |next| - 1
    ensures UnrolledNext(next)[u] == next[u - (|next| - 1)]
  {
    var n := |next|;
    var z := Zeros(2 * n - 1);
    SetSlcBit(z, next, n - 1, u);
    SetSlcBit(z, Ones(n - 1), 0, u);
  }

  /** The priority vector: unrolled valid requesters that the unrolled mask lets through. */
  function Priority(valid: Bits, next: Bits): (r: Bits)
    requires 2 <= |valid| == |next|
    ensures |r| == 2 * |valid| - 1
  {
    And(UnrolledNext(next), UnrolledValid(valid))
  }

  lemma PriorityAt(valid: Bits, p: nat, u: nat)
    requires 2 <= |valid| && p <= |valid| && u < 2 * |valid| - 1
    ensures Priority(valid, PrefixMask(|valid|, p))[u] ==
      if u < |valid| - 1 then valid[u + 1] else u - (|valid| - 1) < p && valid[u - (|valid| - 1)]
  {
    UnrolledNextAt(PrefixMask(|valid|, p), u);
    UnrolledValidAt(valid, u);
  }

  /**
   * The index of the top set bit of the priority vector: the granted
   * requester k, in the upper copy when it lies below the pointer and in the
   * lower copy (shifted down by one) otherwise.
   */
  function TopIndex(valid: Bits, p: nat): (u: nat)
    requires 2 <= |valid| && 1 <= p <= |valid| && !IsZero(valid)
  {
    var k := RRChoice(valid, p);
    if k < p then |valid| - 1 + k else k - 1
  }

  lemma PriorityTop(valid: Bits, p: nat)
    requires 2 <= |valid| && 1 <= p <= |valid| && !IsZero(valid)
    ensures TopIndex(valid, p) < 2 * |valid| - 1
    ensures Priority(valid, PrefixMask(|valid|, p))[TopIndex(valid, p)]
    ensures forall u :: TopIndex(valid, p) < u < 2 * |valid| - 1 ==> !Priority(valid, PrefixMask(|valid|, p))[u]
  {
    var n, k, top := |valid|, RRChoice(valid, p), TopIndex(valid, p);
    var pr := Priority(valid, PrefixMask(n, p));
    PriorityAt(valid, p, top);
    if k < p {
      assert top - (n - 1) == k;
    } else {
      assert top + 1 == k;
    }
    assert pr[top];
    forall u | top < u < 2 * n - 1
      ensures !pr[u]
    {
      PriorityAt(valid, p, u);
      if u >= n - 1 {
        var j := u - (n - 1);
        if k < p {
          assert k < j;
        }
        assert !(j < p && valid[j]);
      } else {
        assert k < u + 1;
        assert !valid[u + 1];
      }
    }
  }

  /** The first set index of the priority vector is `TopIndex`. */
  lemma FirstIsTop(valid: Bits, p: nat)
    requires 2 <= |valid| <= 65536 && 1 <= p <= |valid| && !IsZero(valid)
    ensures !IsZero(Priority(valid, PrefixMask(|valid|, p)))
    ensures LeadingOnes(Priority(valid, PrefixMask(|valid|, p))) == TopIndex(valid, p)
  {
    var pr := Priority(valid, PrefixMask(|valid|, p));
    PriorityTop(valid, p);
    LeadingOnesMsb(pr);
    ToNatZero(pr);
  }

  /** The grant computed from the index of the first set priority bit. */
  function GrantOf(first: nat, n: nat): (choice: Bits)
    requires 2 <= n && first < 2 * n - 1
    ensures |choice| == n
  {
    var unrolledChoice := Zeros(2 * n - 1)[first := true];
    var choiceTemp := Zeros(n)[0 := unrolledChoice[n - 1]];
    var temp2 := Or(GetSlc(unrolledChoice, n, n - 1), GetSlc(unrolledChoice, 0, n - 1));
    SetSlc(choiceTemp, temp2, 1)
  }

  lemma GrantOfAt(first: nat, n: nat, i: nat)
    requires 2 <= n && first < 2 * n - 1 && i < n
    ensures GrantOf(first, n)[i] == if i == 0 then first == n - 1 else first == n + i - 1 || first == i - 1
  {
    var unrolledChoice := Zeros(2 * n - 1)[first := true];
    var choiceTemp := Zeros(n)[0 := unrolledChoice[n - 1]];
    var temp2 := Or(GetSlc(unrolledChoice, n, n - 1), GetSlc(unrolledChoice, 0, n - 1));
    SetSlcBit(choiceTemp, temp2, 1, i);
    if i > 0 {
      GetSlcBit(unrolledChoice, n, n - 1, i - 1);
      GetSlcBit(unrolledChoice, 0, n - 1, i - 1);
    }
  }

  /** The grant built from the top priority index is one-hot at the granted requester. */
  lemma GrantIsChoice(valid: Bits, p: nat)
    requires 2 <= |valid| && 1 <= p <= |valid| && !IsZero(valid)
    ensures TopIndex(valid, p) < 2 * |valid| - 1
    ensures GrantOf(TopIndex(valid, p), |valid|) == OneHot(|valid|, RRChoice(valid, p))
    ensures TopIndex(valid, p) == |valid| - 1 <==> RRChoice(valid, p) == 0
  {
    var n, k, first := |valid|, RRChoice(valid, p), TopIndex(valid, p);
    forall i | 0 <= i < n ensures GrantOf(first, n)[i] == (i == k) {
      GrantOfAt(first, n, i);
    }
  }

  /** What `pick` computes from the priority vector when next holds the bits below p. */
  lemma PickGrant(valid: Bits, p: nat)
    requires 2 <= |valid| <= 65536 && 1 <= p <= |valid| && !IsZero(valid)
    ensures !IsZero(Priority(valid, PrefixMask(|valid|, p)))
    ensures LeadingOnes(Priority(valid, PrefixMask(|valid|, p))) < 2 * |valid| - 1
    ensures GrantOf(LeadingOnes(Priority(valid, PrefixMask(|valid|, p))), |valid|) == OneHot(|valid|, RRChoice(valid, p))
    ensures LeadingOnes(Priority(valid, PrefixMask(|valid|, p))) == |valid| - 1 <==> RRChoice(valid, p) == 0
  {
    FirstIsTop(valid, p);
    GrantIsChoice(valid, p);
  }

  // ---------------------------------------------------------------------
  // Arbiter<N, Roundrobin>
  // ---------------------------------------------------------------------

  class RoundRobinArbiter {
    const size: nat
    var next: Bits
    ghost var ptr: nat

    ghost predicate Valid()
      reads this
    {
      1 <= size <= 65536 && 1 <= ptr <= size && next == PrefixMask(size, ptr)
    }

    /**
     * Arbiter(): reset. A one-requester arbiter is the stateless
     * `Arbiter<1>` specialisation; its next mask stays all ones.
     */
    constructor (size: nat)
      requires 1 <= size <= 65536
      ensures Valid() && this.size == size && next == Ones(size) && ptr == size
    {
      this.size := size;
      next := Ones(size);
      ptr := size;
      OnesIsFullMask(size);
    }

    /** `reset()`: next becomes all ones. */
    method Reset()
      requires Valid()
      modifies this
      ensures Valid() && next == Ones(size) && ptr == size
    {
      next := Ones(size);
      ptr := size;
      OnesIsFullMask(size);
    }

    /**
     * The loop of `pick` that rebuilds next after granting k >= 1: bit i is
     * set when some granted bit lies above i, so next becomes {i : i < k}.
     * Bit 0 is left as it is (always set).
     */
    method RebuildNext(choice: Bits, ghost k: nat)
      requires 2 <= size && |next| == size && next[0]
      requires 1 <= k < size && choice == OneHot(size, k)
      modifies this
      ensures next == PrefixMask(size, k)
    {
      var n := size;
      next := next[n - 1 := false];
      var i := n - 2;
      while i > 0
        invariant 0 <= i <= n - 2 && |next| == n && next[0]
        invariant forall j :: i < j < n ==> next[j] == (j < k)
      {
        next := next[i := next[i + 1] || choice[i + 1]];
        i := i - 1;
      }
      assert forall j :: 0 <= j < n ==> next[j] == (j < k);
    }

    /** `pick(valid)`. */
    method Pick(valid: Bits) returns (choice: Bits)
      requires Valid() && |valid| == size
      modifies this
      ensures Valid()
      ensures IsZero(valid) ==> choice == Zeros(size) && next == old(next) && ptr == old(ptr)
      ensures !IsZero(valid) ==>
        choice == OneHot(size, RRChoice(valid, old(ptr))) && ptr == NextPtr(RRChoice(valid, old(ptr)), size)
    {
      var n := size;
      if IsZero(valid) {
        return Zeros(n);
      }
      if n == 1 {
        return PickOne(valid);
      }
      var priority := Priority(valid, next);
      ghost var k := RRChoice(valid, ptr);
      PickGrant(valid, ptr);
      choice := Zeros(n);
      if !IsZero(priority) {
        var first := LeadingOnes(priority);
        choice := GrantOf(first, n);
        if first != n - 1 {
          RebuildNext(choice, k);
          ptr := k;
        } else {
          next := Ones(n);
          ptr := n;
          OnesIsFullMask(n);
        }
      } else {
        assert false;
      }
    }
  }

  // ---------------------------------------------------------------------
  // Arbiter<1, Roundrobin> and Arbiter<N, Static>
  // ---------------------------------------------------------------------

  /** `Arbiter<1>::pick`: the valid bit passed through. */
  function PickOne(valid: Bits): (r: Bits)
    requires |valid| == 1
    ensures |r| == 1 && (r[0] <==> valid[0])
    ensures IsZero(valid) ==> r == Zeros(1)
    ensures !IsZero(valid) ==> r == OneHot(1, 0)
  {
    if ToNat(valid) != 0 then [true] else [false]
  }

  /** `Arbiter<N, Static>::pick`: the highest valid requester wins; no state. */
  function PickStatic(valid: Bits): (r: Bits)
    requires 1 <= |valid| <= 131072
    ensures |r| == |valid|
    ensures IsZero(valid) ==> r == Zeros(|valid|)
    ensures !IsZero(valid) ==>
      exists k :: 0 <= k < |valid| && r == OneHot(|valid|, k) && valid[k] && forall j :: k < j < |valid| ==> !valid[j]
  {
    ToNatZero(valid);
    if ToNat(valid) != 0 then
      var first := LeadingOnes(valid);
      LeadingOnesMsb(valid);
      Zeros(|valid|)[first := true]
    else
      Zeros(|valid|)
  }
}
