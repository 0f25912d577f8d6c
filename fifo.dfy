/**
 * The banked circular FIFO of `fifo.h`.
 *
 * Each of `numBanks` banks is an independent queue of at most `len`
 * entries kept in a row of `body`, with a read pointer `head`, a write
 * pointer `tail` and a flag telling whether the last action on the bank was
 * a push (which tells a full bank from an empty one when the pointers
 * meet).  The ghost field `contents` is the queue each bank holds, oldest
 * first, and the ghost counters `pushes`/`pops` count the operations since
 * the last reset; `Valid()` ties the pointers and the body to them.
 *
 * The specialisation for one entry per bank is the class `OneEntryFifo`,
 * specified by the same queue contents.
 */
module Fifo {

  /** `ModIncr`: the pointer after `x` in a ring of `len` slots. */
  function ModIncr(x: nat, len: nat): (r: nat)
    ensures x < len ==> r < len && r == (x + 1) % len
  {
    RingStep(x, len);
    if x == len - 1 then 0 else x + 1
  }

  lemma RingStep(x: nat, len: nat)
    ensures x < len ==> (x + 1) % len == if x == len - 1 then 0 else x + 1
  {
    if x < len {
      ModSmall(x, 1, len);
    }
  }

  /** The slot holding entry k of a queue whose oldest entry is at h. */
  function Slot(h: nat, k: nat, len: nat): (r: nat)
    requires len > 0
    ensures r < len
  {
    (h + k) % len
  }

  lemma ModSplit(p: nat, c: nat, len: nat)
    requires len > 0
    ensures (p + c) % len == (p % len + c) % len
  {
    var q, h := p / len, p % len;
    var q2, r := (h + c) / len, (h + c) % len;
    assert p + c == (q + q2) * len + r;
    DivMod(p + c, len, q + q2, r);
  }

  lemma DivMod(a: nat, d: nat, q: nat, r: nat)
    requires d > 0 && r < d && a == q * d + r
    ensures a % d == r
  {
    var q0, r0 := a / d, a % d;
    if q0 < q {
      assert (q0 + 1) * d <= q * d by { MulLe(q0 + 1, q, d); }
    } else if q < q0 {
      assert (q + 1) * d <= q0 * d by { MulLe(q + 1, q0, d); }
    }
  }

  lemma MulLe(x: nat, y: nat, d: nat)
    requires x <= y
    ensures x * d <= y * d
  {
  }

  /** Small sums wrap at most once. */
  lemma ModSmall(h: nat, c: nat, len: nat)
    requires h < len && c <= len
    ensures (h + c) % len == if h + c < len then h + c else h + c - len
  {
    if h + c < len {
      DivMod(h + c, len, 0, h + c);
    } else {
      DivMod(h + c, len, 1, h + c - len);
    }
  }

  /** With c entries after p pops, the tail is the slot of entry c, and a push moves it to (p + c + 1) mod len. */
  lemma PushPointers(p: nat, c: nat, len: nat)
    requires len > 0
    ensures Slot(p % len, c, len) == (p + c) % len
    ensures ModIncr((p + c) % len, len) == (p + c + 1) % len
  {
    ModSplit(p, c, len);
    ModSplit(p + c, 1, len);
  }

  /** Moving the oldest entry forward by one shifts every slot index by one. */
  lemma SlotShift(h: nat, k: nat, len: nat)
    requires h < len
    ensures Slot(ModIncr(h, len), k, len) == Slot(h, k + 1, len)
  {
    ModSplit(h + 1, k, len);
  }

  /** The first `len` entries of a queue sit in distinct slots. */
  lemma SlotDistinct(h: nat, k: nat, n: nat, len: nat)
    requires h < len && k < n < len
    ensures Slot(h, k, len) != Slot(h, n, len)
  {
    ModSmall(h, k, len);
    ModSmall(h, n, len);
  }

  /**
   * The filled count the library computes from the pointers and the flag:
   * 0 when empty, `len` when full, else the distance from head to tail
   * around the ring.
   */
  function FilledCount(h: nat, t: nat, lastPush: bool, len: nat): nat
    requires h < len && t < len
  {
    if t == h && !lastPush then 0
    else if t == h && lastPush then len
    else if h < t then t - h
    else len - h + t
  }

  /**
   * The count computed from the pointers is the queue length: with c
   * entries starting at h, the tail is (h + c) mod len, and the flag
   * tells c = 0 from c = len.
   */
  lemma FilledCountIsLength(h: nat, c: nat, lastPush: bool, len: nat)
    requires h < len && c <= len
    requires lastPush ==> c > 0
    requires !lastPush ==> c < len
    ensures FilledCount(h, Slot(h, c, len), lastPush, len) == c
  {
    ModSmall(h, c, len);
  }

  class Fifo<T> {
    const len: nat
    const numBanks: nat
    const head: array<nat>
    const tail: array<nat>
    const lastPush: array<bool>
    /** body[b, s]: slot s of bank b (the `fifo_body` memory). */
    const body: array2<T>

    ghost var contents: seq<seq<T>>
    ghost var pushes: seq<nat>
    ghost var pops: seq<nat>

    ghost predicate Shape()
      reads this
    {
      head.Length == numBanks && tail.Length == numBanks && lastPush.Length == numBanks
      && body.Length0 == numBanks && body.Length1 == len && head != tail
      && |contents| == numBanks && |pushes| == numBanks && |pops| == numBanks
    }

    /** Bank b holds `contents[b]` in the slots from its head on. */
    ghost predicate BankValid(b: nat)
      requires Shape() && len > 0 && b < numBanks
      reads this, head, tail, lastPush, body
    {
      var c := contents[b];
      |c| <= len && pushes[b] == pops[b] + |c|
      && head[b] == pops[b] % len && tail[b] == pushes[b] % len
      && (lastPush[b] ==> |c| > 0) && (!lastPush[b] ==> |c| < len)
      && forall k :: 0 <= k < |c| ==> c[k] == body[b, Slot(head[b], k, len)]
    }

    ghost predicate Valid()
      reads this, head, tail, lastPush, body
    {
      len > 0 && Shape() && forall b :: 0 <= b < numBanks ==> BankValid(b)
    }

    /** FIFO(): every bank empty; `init` fills the storage. */
    constructor (len: nat, numBanks: nat, init: T)
      requires len > 0
      ensures Valid() && fresh(head) && fresh(tail) && fresh(lastPush) && fresh(body)
      ensures this.len == len && this.numBanks == numBanks
      ensures contents == seq(numBanks, b => []) && pushes == seq(numBanks, b => 0) && pops == pushes
      ensures forall b :: 0 <= b < numBanks ==> head[b] == 0 && tail[b] == 0 && !lastPush[b]
    {
      this.len := len;
      this.numBanks := numBanks;
      head := new nat[numBanks](b => 0);
      tail := new nat[numBanks](b => 0);
      lastPush := new bool[numBanks](b => false);
      body := new T[numBanks, len]((b, s) => init);
      contents := seq(numBanks, b => []);
      pushes := seq(numBanks, b => 0);
      pops := seq(numBanks, b => 0);
    }

    /** `isEmpty(bidx)`. */
    function IsEmpty(b: nat): (r: bool)
      requires Valid() && b < numBanks
      reads this, head, tail, lastPush, body
      ensures r <==> |contents[b]| == 0
    {
      assert BankValid(b);
      ModSmall(head[b], |contents[b]|, len);
      ModSplit(pops[b], |contents[b]|, len);
      tail[b] == head[b] && !lastPush[b]
    }

    /** `isFull(bidx)`. */
    function IsFull(b: nat): (r: bool)
      requires Valid() && b < numBanks
      reads this, head, tail, lastPush, body
      ensures r <==> |contents[b]| == len
    {
      assert BankValid(b);
      ModSmall(head[b], |contents[b]|, len);
      ModSplit(pops[b], |contents[b]|, len);
      tail[b] == head[b] && lastPush[b]
    }

    /** `NumFilled(bidx)`. */
    function NumFilled(b: nat): (r: nat)
      requires Valid() && b < numBanks
      reads this, head, tail, lastPush, body
      ensures r == |contents[b]| <= len
    {
      assert BankValid(b);
      ModSplit(pops[b], |contents[b]|, len);
      FilledCountIsLength(head[b], |contents[b]|, lastPush[b], len);
      FilledCount(head[b], tail[b], lastPush[b], len)
    }

    /** `NumAvailable(bidx)`. */
    function NumAvailable(b: nat): (r: nat)
      requires Valid() && b < numBanks
      reads this, head, tail, lastPush, body
      ensures r == len - |contents[b]| && r + NumFilled(b) == len
    {
      len - NumFilled(b)
    }

    /** `get_head(bidx)`: the number of pops since reset, modulo the length. */
    function GetHead(b: nat): (r: nat)
      requires Valid() && b < numBanks
      reads this, head, tail, lastPush, body
      ensures r == pops[b] % len
    {
      assert BankValid(b);
      head[b]
    }

    /** `get_tail(bidx)`: the number of pushes since reset, modulo the length. */
    function GetTail(b: nat): (r: nat)
      requires Valid() && b < numBanks
      reads this, head, tail, lastPush, body
      ensures r == pushes[b] % len
    {
      assert BankValid(b);
      tail[b]
    }

    /** `peek(bidx)`: the oldest entry, state unchanged. */
    function Peek(b: nat): (r: T)
      requires Valid() && b < numBanks && !IsEmpty(b)
      reads this, head, tail, lastPush, body
      ensures r == contents[b][0]
    {
      HeadEntry(b);
      body[b, head[b]]
    }

    lemma HeadEntry(b: nat)
      requires Valid() && b < numBanks && |contents[b]| > 0
      ensures head[b] < len && body[b, head[b]] == contents[b][0]
    {
      assert BankValid(b);
      ModSmall(head[b], 0, len);
      assert body[b, Slot(head[b], 0, len)] == contents[b][0];
    }

    /** `push(wr_data, bidx)`: pushing onto a full bank is an assertion failure. */
    method Push(v: T, b: nat)
      requires Valid() && b < numBanks && !IsFull(b)
      modifies this, tail, lastPush, body
      ensures Valid()
      ensures contents == old(contents)[b := old(contents[b]) + [v]]
      ensures pushes == old(pushes)[b := old(pushes[b]) + 1] && pops == old(pops)
      ensures tail[b] == ModIncr(old(tail[b]), len) && lastPush[b]
      ensures forall c :: 0 <= c < numBanks && c != b ==>
        tail[c] == old(tail[c]) && lastPush[c] == old(lastPush[c])
    {
      assert BankValid(b);
      var t := tail[b];
      ghost var c0 := contents[b];
      PushPointers(pops[b], |c0|, len);
      body[b, t] := v;
      tail[b] := ModIncr(t, len);
      lastPush[b] := true;
      contents := contents[b := c0 + [v]];
      pushes := pushes[b := pushes[b] + 1];
      forall k | 0 <= k < |c0| ensures c0[k] == body[b, Slot(head[b], k, len)] {
        SlotDistinct(head[b], k, |c0|, len);
      }
      assert BankValid(b);
      forall c | 0 <= c < numBanks && c != b ensures BankValid(c) {
        assert old(BankValid(c));
      }
    }

    /** Advance the head of a nonempty bank. */
    method Advance(b: nat)
      requires Valid() && b < numBanks && !IsEmpty(b)
      modifies this, head, lastPush
      ensures Valid()
      ensures contents == old(contents)[b := old(contents[b])[1..]]
      ensures pops == old(pops)[b := old(pops[b]) + 1] && pushes == old(pushes)
      ensures head[b] == ModIncr(old(head[b]), len) && !lastPush[b]
      ensures forall c :: 0 <= c < numBanks && c != b ==>
        head[c] == old(head[c]) && lastPush[c] == old(lastPush[c])
    {
      assert BankValid(b);
      ghost var c0 := contents[b];
      var h := head[b];
      head[b] := ModIncr(h, len);
      lastPush[b] := false;
      contents := contents[b := c0[1..]];
      pops := pops[b := pops[b] + 1];
      ModSplit(pops[b] - 1, 1, len);
      forall k | 0 <= k < |c0| - 1 ensures c0[1..][k] == body[b, Slot(head[b], k, len)] {
        SlotShift(h, k, len);
      }
      assert BankValid(b);
      forall c | 0 <= c < numBanks && c != b ensures BankValid(c) {
        assert old(BankValid(c));
      }
    }

    /** `pop(bidx)`: popping an empty bank is an assertion failure. */
    method Pop(b: nat) returns (v: T)
      requires Valid() && b < numBanks && !IsEmpty(b)
      modifies this, head, lastPush
      ensures Valid()
      ensures v == old(contents[b][0])
      ensures contents == old(contents)[b := old(contents[b])[1..]]
      ensures pops == old(pops)[b := old(pops[b]) + 1] && pushes == old(pushes)
      ensures head[b] == ModIncr(old(head[b]), len) && !lastPush[b]
      ensures forall c :: 0 <= c < numBanks && c != b ==>
        head[c] == old(head[c]) && lastPush[c] == old(lastPush[c])
    {
      v := Peek(b);
      Advance(b);
    }

    /** `incrHead(bidx)`: drop the oldest entry without reading it. */
    method IncrHead(b: nat)
      requires Valid() && b < numBanks && !IsEmpty(b)
      modifies this, head, lastPush
      ensures Valid()
      ensures contents == old(contents)[b := old(contents[b])[1..]]
      ensures pops == old(pops)[b := old(pops[b]) + 1] && pushes == old(pushes)
      ensures head[b] == ModIncr(old(head[b]), len) && !lastPush[b]
      ensures forall c :: 0 <= c < numBanks && c != b ==>
        head[c] == old(head[c]) && lastPush[c] == old(lastPush[c])
    {
      Advance(b);
    }

    /** `reset()`: every bank empty, pointers at 0. */
    method Reset()
      requires Valid()
      modifies this, head, tail, lastPush
      ensures Valid()
      ensures contents == seq(numBanks, b => []) && pushes == seq(numBanks, b => 0) && pops == pushes
      ensures forall b :: 0 <= b < numBanks ==> head[b] == 0 && tail[b] == 0 && !lastPush[b]
    {
      for i := 0 to numBanks
        invariant forall b :: 0 <= b < i ==> head[b] == 0 && tail[b] == 0 && !lastPush[b]
      {
        head[i] := 0;
        tail[i] := 0;
        lastPush[i] := false;
      }
      contents := seq(numBanks, b => []);
      pushes := seq(numBanks, b => 0);
      pops := pushes;
      assert forall b :: 0 <= b < numBanks ==> BankValid(b);
    }
  }

  /**
   * `FIFO<T, 1, N>` (and `FIFO<T, 1, 1>`): one data register and one valid
   * bit per bank.
   */
  class OneEntryFifo<T> {
    const numBanks: nat
    const data: array<T>
    const valid: array<bool>

    ghost var contents: seq<seq<T>>

    ghost predicate Valid()
      reads this, data, valid
    {
      data as object != valid && data.Length == numBanks && valid.Length == numBanks && |contents| == numBanks
      && forall b :: 0 <= b < numBanks ==> contents[b] == if valid[b] then [data[b]] else []
    }

    constructor (numBanks: nat, init: T)
      ensures Valid() && fresh(data) && fresh(valid) && this.numBanks == numBanks
      ensures contents == seq(numBanks, b => [])
    {
      this.numBanks := numBanks;
      data := new T[numBanks](b => init);
      valid := new bool[numBanks](b => false);
      contents := seq(numBanks, b => []);
    }

    function IsEmpty(b: nat): (r: bool)
      requires Valid() && b < numBanks
      reads this, data, valid
      ensures r <==> |contents[b]| == 0
      ensures r == !valid[b]
    {
      !valid[b]
    }

    function IsFull(b: nat): (r: bool)
      requires Valid() && b < numBanks
      reads this, data, valid
      ensures r <==> |contents[b]| == 1
      ensures r == valid[b]
    {
      valid[b]
    }

    /** `NumFilled`, taken per bank: the valid bit as a number. */
    function NumFilled(b: nat): (r: nat)
      requires Valid() && b < numBanks
      reads this, data, valid
      ensures r == |contents[b]| <= 1
    {
      if valid[b] then 1 else 0
    }

    /** `NumAvailable`, taken per bank: the negated valid bit as a number. */
    function NumAvailable(b: nat): (r: nat)
      requires Valid() && b < numBanks
      reads this, data, valid
      ensures r == 1 - |contents[b]| && r + NumFilled(b) == 1
    {
      if valid[b] then 0 else 1
    }

    function Peek(b: nat): (r: T)
      requires Valid() && b < numBanks && !IsEmpty(b)
      reads this, data, valid
      ensures r == contents[b][0]
    {
      data[b]
    }

    method Push(v: T, b: nat)
      requires Valid() && b < numBanks && !IsFull(b)
      modifies this, data, valid
      ensures Valid() && valid[b]
      ensures contents == old(contents)[b := old(contents[b]) + [v]]
    {
      assert contents[b] == [];
      data[b] := v;
      valid[b] := true;
      contents := contents[b := [v]];
      assert old(contents[b]) + [v] == [v];
    }

    method IncrHead(b: nat)
      requires Valid() && b < numBanks && !IsEmpty(b)
      modifies this, valid
      ensures Valid() && !valid[b]
      ensures contents == old(contents)[b := old(contents[b])[1..]]
    {
      assert contents[b] == [data[b]];
      valid[b] := false;
      contents := contents[b := []];
      assert old(contents[b])[1..] == [];
    }

    method Pop(b: nat) returns (v: T)
      requires Valid() && b < numBanks && !IsEmpty(b)
      modifies this, valid
      ensures Valid() && !valid[b]
      ensures v == old(contents[b][0])
      ensures contents == old(contents)[b := old(contents[b])[1..]]
    {
      IncrHead(b);
      v := data[b];
    }

    method Reset()
      requires Valid()
      modifies this, valid
      ensures Valid() && contents == seq(numBanks, b => [])
      ensures forall b :: 0 <= b < numBanks ==> !valid[b]
    {
      for i := 0 to numBanks
        invariant forall b :: 0 <= b < i ==> !valid[b]
      {
        valid[i] := false;
      }
      contents := seq(numBanks, b => []);
    }
  }
}
