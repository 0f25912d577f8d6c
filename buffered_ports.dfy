/**
 * The buffered ports and channels of `nvhls_connections_buffered_ports.h`.
 *
 * `InBuffered` and `OutBuffered` are channel ports with a private FIFO:
 * `TransferNB` moves one message between the FIFO and the channel when both
 * sides allow it.  `Bypass`, `Buffer` and `BypassBuffered` are clocked
 * channels: their combinational processes (`EnqRdy`, `DeqVal`, `DeqMsg`,
 * `HeadNext`, `TailNext`, `FullNext`, `WriteEn`, `BypassMux`) are pure
 * functions of the registers and the port signals, and `Seq` resets the
 * registers and then updates them once per clock cycle.
 *
 * Each channel is specified by the queue of messages it holds.  A cycle
 * `accepts` the incoming message when `enq.val && enq.rdy` and `delivers`
 * the outgoing one when `deq.val && deq.rdy`; the lemmas show that every
 * channel delivers exactly the messages it accepted, in order.
 */
module BufferedPorts {
  import opened Bits
  import opened Wrappers
  import opened Fifo

  // ---------------------------------------------------------------------
  // Handshake traces
  // ---------------------------------------------------------------------

  /** The messages of the cycles whose handshake completed (`val && rdy`), in order. */
  function Fired<T>(val: seq<bool>, rdy: seq<bool>, msg: seq<T>): (f: seq<T>)
    requires |val| == |rdy| == |msg|
    ensures |f| <= |msg|
  {
    if |msg| == 0 then []
    else
      var i := |msg| - 1;
      Fired(val[..i], rdy[..i], msg[..i]) + (if val[i] && rdy[i] then [msg[i]] else [])
  }

  /** Appending one cycle appends its message exactly when its handshake completed. */
  lemma FiredSnoc<T>(val: seq<bool>, rdy: seq<bool>, msg: seq<T>, v: bool, r: bool, m: T)
    requires |val| == |rdy| == |msg|
    ensures Fired(val + [v], rdy + [r], msg + [m]) == Fired(val, rdy, msg) + (if v && r then [m] else [])
  {
    assert (val + [v])[..|msg|] == val;
    assert (rdy + [r])[..|msg|] == rdy;
    assert (msg + [m])[..|msg|] == msg;
  }

  /**
   * One cycle of a channel that held `before`: the accepted message joins
   * the queue, a delivery hands out its oldest message, and `after` is what
   * remains.
   */
  ghost predicate ChannelStep<T>(before: seq<T>, after: seq<T>, accepted: bool, m: T, delivered: bool, out: T) {
    var q := before + (if accepted then [m] else []);
    (delivered ==> |q| > 0 && out == q[0]) && after == if delivered then q[1..] else q
  }

  /**
   * Channel cycles keep the trace invariant: what was accepted equals what
   * was delivered followed by what is held.
   */
  lemma ChannelTrace<T>(ev: seq<bool>, er: seq<bool>, em: seq<T>, dv: seq<bool>, dr: seq<bool>, dm: seq<T>,
                        before: seq<T>, after: seq<T>, v: bool, r: bool, m: T, dval: bool, drdy: bool, out: T)
    requires |ev| == |er| == |em| && |dv| == |dr| == |dm|
    requires Fired(ev, er, em) == Fired(dv, dr, dm) + before
    requires ChannelStep(before, after, v && r, m, dval && drdy, out)
    ensures Fired(ev + [v], er + [r], em + [m]) == Fired(dv + [dval], dr + [drdy], dm + [out]) + after
  {
    FiredSnoc(ev, er, em, v, r, m);
    FiredSnoc(dv, dr, dm, dval, drdy, out);
    HeldStep(Fired(ev, er, em), Fired(dv, dr, dm), before, after, v && r, m, dval && drdy, out);
  }

  lemma HeldStep<T>(a: seq<T>, b: seq<T>, before: seq<T>, after: seq<T>, accepted: bool, m: T, delivered: bool, out: T)
    requires a == b + before
    requires ChannelStep(before, after, accepted, m, delivered, out)
    ensures a + (if accepted then [m] else []) == b + (if delivered then [out] else []) + after
  {
    var q := before + (if accepted then [m] else []);
    assert a + (if accepted then [m] else []) == b + q;
    if delivered {
      assert q == [out] + after;
    }
  }

  // ---------------------------------------------------------------------
  // The ring of Buffer and BypassBuffered
  // ---------------------------------------------------------------------

  /** The `full`, `head` and `tail` registers. */
  datatype Ring = Ring(full: bool, head: nat, tail: nat)

  /** Pointers inside the `NumEntries` slots; a full ring has head == tail. */
  predicate RingOk(r: Ring, n: nat) {
    n > 0 && r.head < n && r.tail < n && (r.full ==> r.head == r.tail)
  }

  /** How many messages the ring holds: the distance from tail to head, or n when full. */
  function Count(r: Ring, n: nat): (c: nat)
    requires RingOk(r, n)
    ensures c <= n && (c == n <==> r.full)
  {
    FilledCount(r.tail, r.head, r.full, n)
  }

  /** The queue a ring holds, oldest first: the slots from `tail` on. */
  function Queue<T>(r: Ring, buf: seq<T>, n: nat): (q: seq<T>)
    requires RingOk(r, n) && |buf| == n
    ensures |q| == Count(r, n)
    ensures forall k :: 0 <= k < |q| ==> q[k] == buf[Slot(r.tail, k, n)]
  {
    seq(Count(r, n), k requires 0 <= k < Count(r, n) => buf[Slot(r.tail, k, n)])
  }

  /** `empty = !full && head == tail`: the ring holds no message. */
  function Empty(r: Ring, n: nat): (e: bool)
    requires RingOk(r, n)
    ensures e <==> Count(r, n) == 0
  {
    !r.full && r.head == r.tail
  }

  /** `head` is the slot after the newest message: tail + Count, around the ring. */
  lemma HeadAfterQueue(r: Ring, n: nat)
    requires RingOk(r, n)
    ensures r.head == Slot(r.tail, Count(r, n), n)
  {
    var c := Count(r, n);
    if r.head == r.tail {
      ModSmall(r.tail, c, n);
    } else if r.tail < r.head {
      ModSmall(r.tail, r.head - r.tail, n);
    } else {
      ModSmall(r.tail, n - r.tail + r.head, n);
    }
  }

  /** `EnqRdy` of all three channels: `enq.rdy = !full`. */
  function EnqRdy(full: bool): (rdy: bool)
    ensures rdy != full
  {
    !full
  }

  /** `do_deq` of `TailNext`/`FullNext`: a message leaves iff `deq.rdy` and the ring is not empty. */
  function DoDeq(r: Ring, n: nat, deqRdy: bool): (d: bool)
    requires RingOk(r, n)
    ensures d <==> deqRdy && Count(r, n) > 0
  {
    deqRdy && !Empty(r, n)
  }

  /** `HeadNext`: head advances to the next slot modulo NumEntries exactly when a message is written. */
  function HeadNext(r: Ring, n: nat, doEnq: bool): (h: nat)
    requires RingOk(r, n)
    ensures h < n && h == if doEnq then (r.head + 1) % n else r.head
  {
    if doEnq then ModIncr(r.head, n) else r.head
  }

  /** `TailNext`: tail advances to the next slot modulo NumEntries exactly when a message leaves. */
  function TailNext(r: Ring, n: nat, doDeq: bool): (t: nat)
    requires RingOk(r, n)
    ensures t < n && t == if doDeq then (r.tail + 1) % n else r.tail
  {
    if doDeq then ModIncr(r.tail, n) else r.tail
  }

  /**
   * `FullNext`: set by a write without a read that makes `head_inc` reach
   * the tail, cleared by a read while full, otherwise kept.
   */
  function FullNext(r: Ring, n: nat, doEnq: bool, doDeq: bool): (f: bool)
    requires RingOk(r, n)
    ensures doEnq && !doDeq && ModIncr(r.head, n) == r.tail ==> f
    ensures doDeq && r.full ==> !f
    ensures !(doEnq && !doDeq && ModIncr(r.head, n) == r.tail) && !(doDeq && r.full) ==> f == r.full
  {
    if doEnq && !doDeq && ModIncr(r.head, n) == r.tail then true
    else if doDeq && r.full then false
    else r.full
  }

  /** The registers `Seq` latches from `full_next`, `head_next` and `tail_next`. */
  function RingNext(r: Ring, n: nat, doEnq: bool, doDeq: bool): Ring
    requires RingOk(r, n)
  {
    Ring(FullNext(r, n, doEnq, doDeq), HeadNext(r, n, doEnq), TailNext(r, n, doDeq))
  }

  /** The slot write of `Seq`: the message goes to slot `head` when it is enqueued. */
  function Store<T>(buf: seq<T>, r: Ring, doEnq: bool, m: T): (b: seq<T>)
    requires r.head < |buf|
    ensures |b| == |buf| && (doEnq ==> b[r.head] == m)
    ensures forall i :: 0 <= i < |buf| && (i != r.head || !doEnq) ==> b[i] == buf[i]
  {
    if doEnq then buf[r.head := m] else buf
  }

  /**
   * The ring is a FIFO queue: a cycle that reads removes the oldest message,
   * one that writes appends the new message, and the registers stay
   * consistent.  The callers' `do_enq` never fires when full and `do_deq`
   * never when empty.
   */
  lemma RingQueueStep<T>(r: Ring, buf: seq<T>, n: nat, doEnq: bool, doDeq: bool, m: T)
    requires RingOk(r, n) && |buf| == n
    requires doEnq ==> !r.full
    requires doDeq ==> !Empty(r, n)
    ensures RingOk(RingNext(r, n, doEnq, doDeq), n)
    ensures Queue(RingNext(r, n, doEnq, doDeq), Store(buf, r, doEnq, m), n)
         == (if doDeq then Queue(r, buf, n)[1..] else Queue(r, buf, n)) + (if doEnq then [m] else [])
  {
    var c := Count(r, n);
    var q := Queue(r, buf, n);
    var d := if doDeq then 1 else 0;
    var r' := RingNext(r, n, doEnq, doDeq);
    var buf' := Store(buf, r, doEnq, m);
    RingNextCount(r, n, doEnq, doDeq);
    HeadAfterQueue(r, n);
    var want := (if doDeq then q[1..] else q) + (if doEnq then [m] else []);
    var got := Queue(r', buf', n);
    forall k | 0 <= k < |got| ensures got[k] == want[k] {
      TailShift(r, n, doDeq, k);
      if k + d < c && doEnq {
        SlotDistinct(r.tail, k + d, c, n);
      }
    }
  }

  /** After a cycle the registers are consistent and the count moves by the write and the read. */
  lemma RingNextCount(r: Ring, n: nat, doEnq: bool, doDeq: bool)
    requires RingOk(r, n)
    requires doEnq ==> !r.full
    requires doDeq ==> !Empty(r, n)
    ensures RingOk(RingNext(r, n, doEnq, doDeq), n)
    ensures Count(RingNext(r, n, doEnq, doDeq), n) == Count(r, n) - (if doDeq then 1 else 0) + (if doEnq then 1 else 0)
  {
    var c := Count(r, n);
    var d := if doDeq then 1 else 0;
    var e := if doEnq then 1 else 0;
    var c' := c - d + e;
    var r' := RingNext(r, n, doEnq, doDeq);
    HeadAfterQueue(r, n);
    ModSmall(r.tail, 0, n);
    ModSmall(r.head, 0, n);
    assert r'.tail == (r.tail + d) % n;
    if doEnq {
      ModSplit(r.tail + c, 1, n);
      assert r'.head == (r.tail + c + 1) % n;
    } else {
      assert r'.head == (r.tail + c) % n;
    }
    ModSplit(r.tail + d, c', n);
    assert r'.head == Slot(r'.tail, c', n);
    if doEnq && !doDeq {
      ModSmall(r.tail, c + 1, n);
    }
    assert r'.full <==> c' == n;
    if r'.full {
      ModSmall(r'.tail, n, n);
    }
    FilledCountIsLength(r'.tail, c', r'.full, n);
  }

  /** Entry k after a cycle sits where entry k + 1 sat when the cycle read, else where entry k sat. */
  lemma TailShift(r: Ring, n: nat, doDeq: bool, k: nat)
    requires RingOk(r, n)
    ensures Slot(TailNext(r, n, doDeq), k, n) == Slot(r.tail, k + (if doDeq then 1 else 0), n)
  {
    ModSmall(r.tail, 0, n);
    ModSplit(r.tail + (if doDeq then 1 else 0), k, n);
  }

  // ---------------------------------------------------------------------
  // Buffer
  // ---------------------------------------------------------------------

  /** `do_enq` of `Buffer`: a message is written iff `enq.val && !full`. */
  function BufferDoEnq(r: Ring, enqVal: bool): (w: bool)
    ensures w <==> enqVal && EnqRdy(r.full)
  {
    enqVal && !r.full
  }

  /** `Buffer::DeqVal`: `deq.val = !empty`, i.e. the buffer holds a message. */
  function BufferDeqVal(r: Ring, n: nat): (v: bool)
    requires RingOk(r, n)
    ensures v <==> Count(r, n) > 0
  {
    !Empty(r, n)
  }

  /** `Buffer::DeqMsg`: the message at `tail` (0 in simulation when nothing is offered). */
  function BufferDeqMsg<T>(r: Ring, buf: seq<T>, n: nat, zero: T): (m: T)
    requires RingOk(r, n) && |buf| == n
    ensures Count(r, n) > 0 ==> m == Queue(r, buf, n)[0]
    ensures Count(r, n) == 0 ==> m == zero
  {
    ModSmall(r.tail, 0, n);
    if !Empty(r, n) then buf[r.tail] else zero
  }

  /**
   * One `Buffer` cycle: `deq.val` iff the buffer holds a message, `deq.msg`
   * is the oldest, and the new queue drops it when delivered and appends
   * the incoming message when accepted.  There is no bypass: a message
   * accepted into an empty buffer is offered from the next cycle on.
   */
  lemma BufferStep<T>(r: Ring, buf: seq<T>, n: nat, enqVal: bool, enqMsg: T, deqRdy: bool, zero: T)
    requires RingOk(r, n) && |buf| == n
    ensures var q := Queue(r, buf, n);
      var deqVal := BufferDeqVal(r, n);
      var r' := RingNext(r, n, BufferDoEnq(r, enqVal), DoDeq(r, n, deqRdy));
      && (deqVal <==> |q| > 0)
      && (deqVal ==> BufferDeqMsg(r, buf, n, zero) == q[0])
      && RingOk(r', n)
      && Queue(r', Store(buf, r, BufferDoEnq(r, enqVal), enqMsg), n)
         == (if deqVal && deqRdy then q[1..] else q) + (if enqVal && EnqRdy(r.full) then [enqMsg] else [])
  {
    RingQueueStep(r, buf, n, BufferDoEnq(r, enqVal), DoDeq(r, n, deqRdy), enqMsg);
  }

  // ---------------------------------------------------------------------
  // BypassBuffered
  // ---------------------------------------------------------------------

  /** `do_enq` of `BypassBuffered`: as in `Buffer`, except a message that bypasses an empty buffer is not stored. */
  function BypassDoEnq(r: Ring, n: nat, enqVal: bool, deqRdy: bool): (w: bool)
    requires RingOk(r, n)
    ensures w <==> enqVal && EnqRdy(r.full) && !(Count(r, n) == 0 && deqRdy)
  {
    enqVal && !r.full && !(Empty(r, n) && deqRdy)
  }

  /** `BypassBuffered::DeqVal`: a message is offered when one is stored or one arrives. */
  function BypassDeqVal(r: Ring, n: nat, enqVal: bool): (v: bool)
    requires RingOk(r, n)
    ensures v <==> Count(r, n) > 0 || enqVal
  {
    !Empty(r, n) || enqVal
  }

  /** `BypassBuffered::DeqMsg`: the oldest stored message, else the incoming one (0 when nothing is offered). */
  function BypassDeqMsg<T>(r: Ring, buf: seq<T>, n: nat, enqVal: bool, enqMsg: T, zero: T): (m: T)
    requires RingOk(r, n) && |buf| == n
    ensures Count(r, n) > 0 ==> m == Queue(r, buf, n)[0]
    ensures Count(r, n) == 0 ==> m == if enqVal then enqMsg else zero
  {
    ModSmall(r.tail, 0, n);
    if !Empty(r, n) || enqVal then
      if !Empty(r, n) then buf[r.tail] else enqMsg
    else zero
  }

  /**
   * One `BypassBuffered` cycle: the incoming message joins the queue
   * before the output is chosen, so `deq.val` iff that queue is nonempty,
   * `deq.msg` is its oldest message, and the stored queue is what remains
   * after a delivery.
   */
  lemma BypassBufferedStep<T>(r: Ring, buf: seq<T>, n: nat, enqVal: bool, enqMsg: T, deqRdy: bool, zero: T)
    requires RingOk(r, n) && |buf| == n
    ensures var q := Queue(r, buf, n) + (if enqVal && EnqRdy(r.full) then [enqMsg] else []);
      var deqVal := BypassDeqVal(r, n, enqVal);
      var r' := RingNext(r, n, BypassDoEnq(r, n, enqVal, deqRdy), DoDeq(r, n, deqRdy));
      && (deqVal <==> |q| > 0)
      && (deqVal ==> BypassDeqMsg(r, buf, n, enqVal, enqMsg, zero) == q[0])
      && RingOk(r', n)
      && Queue(r', Store(buf, r, BypassDoEnq(r, n, enqVal, deqRdy), enqMsg), n)
         == if deqVal && deqRdy then q[1..] else q
  {
    var doEnq := BypassDoEnq(r, n, enqVal, deqRdy);
    RingQueueStep(r, buf, n, doEnq, DoDeq(r, n, deqRdy), enqMsg);
    var q0 := Queue(r, buf, n);
    if |q0| > 0 {
      assert (q0 + [enqMsg])[1..] == q0[1..] + [enqMsg];
    }
  }

  /**
   * The bypass path: with the buffer empty, `deq.rdy` and an incoming
   * message, that message is offered on `deq.msg` in the same cycle and
   * neither the registers nor the slots change.
   */
  lemma BypassBufferedPassThrough<T>(r: Ring, buf: seq<T>, n: nat, enqMsg: T, zero: T)
    requires RingOk(r, n) && |buf| == n && Empty(r, n)
    ensures BypassDeqVal(r, n, true) && BypassDeqMsg(r, buf, n, true, enqMsg, zero) == enqMsg
    ensures !BypassDoEnq(r, n, true, true) && !DoDeq(r, n, true)
    ensures RingNext(r, n, false, false) == r
    ensures Store(buf, r, false, enqMsg) == buf
  {
    ModSmall(r.tail, 0, n);
  }

  // ---------------------------------------------------------------------
  // Bypass
  // ---------------------------------------------------------------------

  /** `WriteEn`: the state register takes `enq.msg` when it arrives, is not taken, and the state is empty. */
  function WriteEn(enqVal: bool, deqRdy: bool, full: bool): (w: bool)
    ensures w ==> enqVal && !full
  {
    enqVal && !deqRdy && !full
  }

  /** `Bypass::DeqVal`: a message is offered when one is stored or one arrives. */
  function BypassOneDeqVal(full: bool, enqVal: bool): (v: bool)
    ensures v <==> full || enqVal
  {
    full || (!full && enqVal)
  }

  /** `BypassMux`: the stored message when full, else the incoming one. */
  function BypassMux<T>(full: bool, state: T, enqMsg: T): (m: T)
    ensures full ==> m == state
    ensures !full ==> m == enqMsg
  {
    if full then state else enqMsg
  }

  /** The full update of `Bypass::Seq`: cleared by `deq.rdy`, set by an untaken arrival into an empty register. */
  function BypassFullNext(full: bool, enqVal: bool, deqRdy: bool): (f: bool)
    ensures deqRdy ==> !f
    ensures !deqRdy && enqVal && !full ==> f
    ensures !deqRdy && !(enqVal && !full) ==> f == full
  {
    if deqRdy then false
    else if enqVal && !deqRdy && !full then true
    else full
  }

  /** The message a `Bypass` holds: the state register when full. */
  function BypassQueue<T>(full: bool, state: T): (q: seq<T>)
    ensures |q| <= 1 && (|q| == 1 <==> full)
    ensures full ==> q[0] == state
  {
    if full then [state] else []
  }

  /**
   * One `Bypass` cycle: the incoming message joins the (at most one)
   * stored message, `deq.val` iff that queue is nonempty, `deq.msg` is its
   * oldest message, and the new state holds what was not delivered.
   */
  lemma BypassStep<T>(full: bool, state: T, enqVal: bool, enqMsg: T, deqRdy: bool)
    ensures var q := BypassQueue(full, state) + (if enqVal && EnqRdy(full) then [enqMsg] else []);
      var deqVal := BypassOneDeqVal(full, enqVal);
      var state' := if WriteEn(enqVal, deqRdy, full) then enqMsg else state;
      && (deqVal <==> |q| > 0)
      && (deqVal ==> BypassMux(full, state, enqMsg) == q[0])
      && BypassQueue(BypassFullNext(full, enqVal, deqRdy), state') == if deqVal && deqRdy then q[1..] else q
  {
  }

  // ---------------------------------------------------------------------
  // The clocked channels
  // ---------------------------------------------------------------------

  /** `Buffer<Message, NumEntries>`: the registers of `Seq` and the slot array `buffer`. */
  class Buffer<T> {
    const n: nat
    const buffer: array<T>
    var full: bool
    var head: nat
    var tail: nat

    function Regs(): Ring
      reads this
    {
      Ring(full, head, tail)
    }

    ghost predicate Valid()
      reads this
    {
      buffer.Length == n && RingOk(Regs(), n)
    }

    /** The messages the buffer holds, oldest first. */
    ghost function Contents(): seq<T>
      requires Valid()
      reads this, buffer
    {
      Queue(Regs(), buffer[..], n)
    }

    /** `Init`: NumEntries slots and the reset register values. */
    constructor (n: nat, zero: T)
      requires n > 0
      ensures Valid() && this.n == n && fresh(buffer)
      ensures Regs() == Ring(false, 0, 0) && Contents() == []
    {
      this.n := n;
      buffer := new T[n](i => zero);
      full, head, tail := false, 0, 0;
    }

    /** The reset block of `Seq`: registers cleared and every slot reset. */
    method Reset(zero: T)
      requires Valid()
      modifies this, buffer
      ensures Valid() && Regs() == Ring(false, 0, 0) && Contents() == []
      ensures buffer[..] == seq(n, i => zero)
    {
      full, head, tail := false, 0, 0;
      for i := 0 to n
        invariant Valid() && Regs() == Ring(false, 0, 0)
        invariant forall j :: 0 <= j < i ==> buffer[j] == zero
      {
        buffer[i] := zero;
      }
    }

    /**
     * One clock cycle: the combinational outputs from the current
     * registers, then one pass of the `while` loop of `Seq`.
     */
    method Cycle(enqVal: bool, enqMsg: T, deqRdy: bool, zero: T) returns (enqRdy: bool, deqVal: bool, deqMsg: T)
      requires Valid()
      modifies this, buffer
      ensures Valid()
      ensures enqRdy == EnqRdy(old(full)) && deqVal == BufferDeqVal(old(Regs()), n)
      ensures deqMsg == BufferDeqMsg(old(Regs()), old(buffer[..]), n, zero)
      ensures Regs() == RingNext(old(Regs()), n, BufferDoEnq(old(Regs()), enqVal), DoDeq(old(Regs()), n, deqRdy))
      ensures buffer[..] == Store(old(buffer[..]), old(Regs()), BufferDoEnq(old(Regs()), enqVal), enqMsg)
      ensures deqVal <==> |old(Contents())| > 0
      ensures deqVal ==> deqMsg == old(Contents())[0]
      ensures Contents() == (if deqVal && deqRdy then old(Contents())[1..] else old(Contents()))
                          + (if enqVal && enqRdy then [enqMsg] else [])
      ensures ChannelStep(old(Contents()), Contents(), enqVal && enqRdy, enqMsg, deqVal && deqRdy, deqMsg)
    {
      var r := Regs();
      BufferStep(r, buffer[..], n, enqVal, enqMsg, deqRdy, zero);
      enqRdy := EnqRdy(full);
      deqVal := BufferDeqVal(r, n);
      deqMsg := BufferDeqMsg(r, buffer[..], n, zero);
      var doEnq := BufferDoEnq(r, enqVal);
      var doDeq := DoDeq(r, n, deqRdy);
      head := HeadNext(r, n, doEnq);
      tail := TailNext(r, n, doDeq);
      full := FullNext(r, n, doEnq, doDeq);
      if enqVal && !r.full {
        buffer[r.head] := enqMsg;
      }
    }

    /** One cycle of `Seq`, stated as the extension of a trace by that cycle's handshakes. */
    method TracedCycle(enqVal: bool, enqMsg: T, deqRdy: bool, zero: T,
                       ghost ev: seq<bool>, ghost er: seq<bool>, ghost em: seq<T>,
                       ghost dv: seq<bool>, ghost dr: seq<bool>, ghost dm: seq<T>)
      returns (enqRdy: bool, deqVal: bool, deqMsg: T)
      requires Valid() && |ev| == |er| == |em| && |dv| == |dr| == |dm|
      requires Fired(ev, er, em) == Fired(dv, dr, dm) + Contents()
      modifies this, buffer
      ensures Valid()
      ensures Fired(ev + [enqVal], er + [enqRdy], em + [enqMsg]) == Fired(dv + [deqVal], dr + [deqRdy], dm + [deqMsg]) + Contents()
    {
      ghost var c0 := Contents();
      enqRdy, deqVal, deqMsg := Cycle(enqVal, enqMsg, deqRdy, zero);
      ChannelTrace(ev, er, em, dv, dr, dm, c0, Contents(), enqVal, enqRdy, enqMsg, deqVal, deqRdy, deqMsg);
    }

    /**
     * `Seq` over a finite run of cycles: reset, then one cycle per input.
     * The messages delivered, followed by what is still stored, are exactly
     * the messages accepted, in order.
     */
    method Seq(enqVal: seq<bool>, enqMsg: seq<T>, deqRdy: seq<bool>, zero: T)
      returns (enqRdy: seq<bool>, deqVal: seq<bool>, deqMsg: seq<T>)
      requires Valid() && |enqVal| == |enqMsg| == |deqRdy|
      modifies this, buffer
      ensures Valid() && |enqRdy| == |deqVal| == |deqMsg| == |enqVal|
      ensures Fired(enqVal, enqRdy, enqMsg) == Fired(deqVal, deqRdy, deqMsg) + Contents()
    {
      Reset(zero);
      enqRdy, deqVal, deqMsg := [], [], [];
      for i := 0 to |enqVal|
        invariant Valid() && |enqRdy| == |deqVal| == |deqMsg| == i
        invariant Fired(enqVal[..i], enqRdy, enqMsg[..i]) == Fired(deqVal, deqRdy[..i], deqMsg) + Contents()
      {
        var er, dv, dm := TracedCycle(enqVal[i], enqMsg[i], deqRdy[i], zero,
                                      enqVal[..i], enqRdy, enqMsg[..i], deqVal, deqRdy[..i], deqMsg);
        PrefixSnoc(enqVal, i);
        PrefixSnoc(enqMsg, i);
        PrefixSnoc(deqRdy, i);
        enqRdy, deqVal, deqMsg := enqRdy + [er], deqVal + [dv], deqMsg + [dm];
      }
      assert enqVal[..|enqVal|] == enqVal && enqMsg[..|enqVal|] == enqMsg && deqRdy[..|enqVal|] == deqRdy;
    }
  }

  /** `BypassBuffered<Message, NumEntries>`: the registers of `Seq` and the slot array `buffer`. */
  class BypassBuffered<T> {
    const n: nat
    const buffer: array<T>
    var full: bool
    var head: nat
    var tail: nat

    function Regs(): Ring
      reads this
    {
      Ring(full, head, tail)
    }

    ghost predicate Valid()
      reads this
    {
      buffer.Length == n && RingOk(Regs(), n)
    }

    /** The messages the buffer holds, oldest first. */
    ghost function Contents(): seq<T>
      requires Valid()
      reads this, buffer
    {
      Queue(Regs(), buffer[..], n)
    }

    /** `Init`: NumEntries slots and the reset register values. */
    constructor (n: nat, zero: T)
      requires n > 0
      ensures Valid() && this.n == n && fresh(buffer)
      ensures Regs() == Ring(false, 0, 0) && Contents() == []
    {
      this.n := n;
      buffer := new T[n](i => zero);
      full, head, tail := false, 0, 0;
    }

    /** The reset block of `Seq`: registers cleared and every slot reset. */
    method Reset(zero: T)
      requires Valid()
      modifies this, buffer
      ensures Valid() && Regs() == Ring(false, 0, 0) && Contents() == []
      ensures buffer[..] == seq(n, i => zero)
    {
      full, head, tail := false, 0, 0;
      for i := 0 to n
        invariant Valid() && Regs() == Ring(false, 0, 0)
        invariant forall j :: 0 <= j < i ==> buffer[j] == zero
      {
        buffer[i] := zero;
      }
    }

    /**
     * One clock cycle: the combinational outputs from the current
     * registers, then one pass of the `while` loop of `Seq`.
     */
    method Cycle(enqVal: bool, enqMsg: T, deqRdy: bool, zero: T) returns (enqRdy: bool, deqVal: bool, deqMsg: T)
      requires Valid()
      modifies this, buffer
      ensures Valid()
      ensures enqRdy == EnqRdy(old(full)) && deqVal == BypassDeqVal(old(Regs()), n, enqVal)
      ensures deqMsg == BypassDeqMsg(old(Regs()), old(buffer[..]), n, enqVal, enqMsg, zero)
      ensures Regs() == RingNext(old(Regs()), n, BypassDoEnq(old(Regs()), n, enqVal, deqRdy), DoDeq(old(Regs()), n, deqRdy))
      ensures buffer[..] == Store(old(buffer[..]), old(Regs()), BypassDoEnq(old(Regs()), n, enqVal, deqRdy), enqMsg)
      ensures deqVal <==> |old(Contents())| > 0 || (enqVal && enqRdy)
      ensures ChannelStep(old(Contents()), Contents(), enqVal && enqRdy, enqMsg, deqVal && deqRdy, deqMsg)
    {
      var r := Regs();
      BypassBufferedStep(r, buffer[..], n, enqVal, enqMsg, deqRdy, zero);
      enqRdy := EnqRdy(full);
      deqVal := BypassDeqVal(r, n, enqVal);
      deqMsg := BypassDeqMsg(r, buffer[..], n, enqVal, enqMsg, zero);
      var doEnq := BypassDoEnq(r, n, enqVal, deqRdy);
      var doDeq := DoDeq(r, n, deqRdy);
      head := HeadNext(r, n, doEnq);
      tail := TailNext(r, n, doDeq);
      full := FullNext(r, n, doEnq, doDeq);
      if doEnq {
        buffer[r.head] := enqMsg;
      }
    }

    /** One cycle of `Seq`, stated as the extension of a trace by that cycle's handshakes. */
    method TracedCycle(enqVal: bool, enqMsg: T, deqRdy: bool, zero: T,
                       ghost ev: seq<bool>, ghost er: seq<bool>, ghost em: seq<T>,
                       ghost dv: seq<bool>, ghost dr: seq<bool>, ghost dm: seq<T>)
      returns (enqRdy: bool, deqVal: bool, deqMsg: T)
      requires Valid() && |ev| == |er| == |em| && |dv| == |dr| == |dm|
      requires Fired(ev, er, em) == Fired(dv, dr, dm) + Contents()
      modifies this, buffer
      ensures Valid()
      ensures Fired(ev + [enqVal], er + [enqRdy], em + [enqMsg]) == Fired(dv + [deqVal], dr + [deqRdy], dm + [deqMsg]) + Contents()
    {
      ghost var c0 := Contents();
      enqRdy, deqVal, deqMsg := Cycle(enqVal, enqMsg, deqRdy, zero);
      ChannelTrace(ev, er, em, dv, dr, dm, c0, Contents(), enqVal, enqRdy, enqMsg, deqVal, deqRdy, deqMsg);
    }

    /**
     * `Seq` over a finite run of cycles: reset, then one cycle per input.
     * The messages delivered, followed by what is still stored, are exactly
     * the messages accepted, in order.
     */
    method Seq(enqVal: seq<bool>, enqMsg: seq<T>, deqRdy: seq<bool>, zero: T)
      returns (enqRdy: seq<bool>, deqVal: seq<bool>, deqMsg: seq<T>)
      requires Valid() && |enqVal| == |enqMsg| == |deqRdy|
      modifies this, buffer
      ensures Valid() && |enqRdy| == |deqVal| == |deqMsg| == |enqVal|
      ensures Fired(enqVal, enqRdy, enqMsg) == Fired(deqVal, deqRdy, deqMsg) + Contents()
    {
      Reset(zero);
      enqRdy, deqVal, deqMsg := [], [], [];
      for i := 0 to |enqVal|
        invariant Valid() && |enqRdy| == |deqVal| == |deqMsg| == i
        invariant Fired(enqVal[..i], enqRdy, enqMsg[..i]) == Fired(deqVal, deqRdy[..i], deqMsg) + Contents()
      {
        var er, dv, dm := TracedCycle(enqVal[i], enqMsg[i], deqRdy[i], zero,
                                      enqVal[..i], enqRdy, enqMsg[..i], deqVal, deqRdy[..i], deqMsg);
        PrefixSnoc(enqVal, i);
        PrefixSnoc(enqMsg, i);
        PrefixSnoc(deqRdy, i);
        enqRdy, deqVal, deqMsg := enqRdy + [er], deqVal + [dv], deqMsg + [dm];
      }
      assert enqVal[..|enqVal|] == enqVal && enqMsg[..|enqVal|] == enqMsg && deqRdy[..|enqVal|] == deqRdy;
    }
  }

  /** `Bypass<Message>`: the `full` register and the `state` register. */
  class Bypass<T> {
    var full: bool
    var state: T

    /** The message the bypass holds. */
    function Contents(): (q: seq<T>)
      reads this
      ensures |q| <= 1
    {
      BypassQueue(full, state)
    }

    /** `Init` with the reset register values. */
    constructor (zero: T)
      ensures !full && state == zero && Contents() == []
    {
      full, state := false, zero;
    }

    /**
     * One clock cycle: the combinational outputs from the current
     * registers, then one pass of the `while` loop of `Seq`.
     */
    method Cycle(enqVal: bool, enqMsg: T, deqRdy: bool) returns (enqRdy: bool, deqVal: bool, deqMsg: T)
      modifies this
      ensures enqRdy == EnqRdy(old(full)) && deqVal == BypassOneDeqVal(old(full), enqVal)
      ensures deqMsg == BypassMux(old(full), old(state), enqMsg)
      ensures full == BypassFullNext(old(full), enqVal, deqRdy)
      ensures state == if WriteEn(enqVal, deqRdy, old(full)) then enqMsg else old(state)
      ensures deqVal <==> |old(Contents())| > 0 || (enqVal && enqRdy)
      ensures ChannelStep(old(Contents()), Contents(), enqVal && enqRdy, enqMsg, deqVal && deqRdy, deqMsg)
    {
      BypassStep(full, state, enqVal, enqMsg, deqRdy);
      enqRdy := EnqRdy(full);
      deqVal := BypassOneDeqVal(full, enqVal);
      deqMsg := BypassMux(full, state, enqMsg);
      var wen := WriteEn(enqVal, deqRdy, full);
      full := BypassFullNext(full, enqVal, deqRdy);
      if wen {
        state := enqMsg;
      }
    }

    /**
     * `Seq` over a finite run of cycles: reset, then one cycle per input.
     * The messages delivered, followed by what is still stored, are exactly
     * the messages accepted, in order.
     */
    method Seq(enqVal: seq<bool>, enqMsg: seq<T>, deqRdy: seq<bool>, zero: T)
      returns (enqRdy: seq<bool>, deqVal: seq<bool>, deqMsg: seq<T>)
      requires |enqVal| == |enqMsg| == |deqRdy|
      modifies this
      ensures |enqRdy| == |deqVal| == |deqMsg| == |enqVal|
      ensures Fired(enqVal, enqRdy, enqMsg) == Fired(deqVal, deqRdy, deqMsg) + Contents()
    {
      full, state := false, zero;
      enqRdy, deqVal, deqMsg := [], [], [];
      for i := 0 to |enqVal|
        invariant |enqRdy| == |deqVal| == |deqMsg| == i
        invariant Fired(enqVal[..i], enqRdy, enqMsg[..i]) == Fired(deqVal, deqRdy[..i], deqMsg) + Contents()
      {
        ghost var c0 := Contents();
        var er, dv, dm := Cycle(enqVal[i], enqMsg[i], deqRdy[i]);
        ChannelTrace(enqVal[..i], enqRdy, enqMsg[..i], deqVal, deqRdy[..i], deqMsg,
                     c0, Contents(), enqVal[i], er, enqMsg[i], dv, deqRdy[i], dm);
        PrefixSnoc(enqVal, i);
        PrefixSnoc(enqMsg, i);
        PrefixSnoc(deqRdy, i);
        enqRdy, deqVal, deqMsg := enqRdy + [er], deqVal + [dv], deqMsg + [dm];
      }
      assert enqVal[..|enqVal|] == enqVal && enqMsg[..|enqVal|] == enqMsg && deqRdy[..|enqVal|] == deqRdy;
    }
  }

  // ---------------------------------------------------------------------
  // InBuffered / OutBuffered
  // ---------------------------------------------------------------------

  /**
   * `InBuffered<Message, BufferSize>`: an input port with a private FIFO.
   * `channel` holds the messages the sender has offered and the port has
   * not yet taken, oldest first; `PopNB` takes the first of them.
   */
  class InBuffered<T> {
    const fifo: Fifo<T>
    var channel: seq<T>

    ghost predicate Valid()
      reads this, fifo, fifo.head, fifo.tail, fifo.lastPush, fifo.body
    {
      fifo.Valid() && fifo.numBanks == 1
    }

    /** The messages in the port's FIFO, oldest first. */
    ghost function Contents(): seq<T>
      requires Valid()
      reads this, fifo, fifo.head, fifo.tail, fifo.lastPush, fifo.body
    {
      fifo.contents[0]
    }

    constructor (bufferSize: nat, init: T, channel: seq<T>)
      requires bufferSize > 0
      ensures Valid() && fresh(fifo) && fresh(fifo.head) && fresh(fifo.tail) && fresh(fifo.lastPush) && fresh(fifo.body)
      ensures fifo.len == bufferSize && Contents() == [] && this.channel == channel
    {
      fifo := new Fifo(bufferSize, 1, init);
      this.channel := channel;
    }

    /** `Reset`: the FIFO is emptied. */
    method Reset()
      requires Valid()
      modifies fifo, fifo.head, fifo.tail, fifo.lastPush
      ensures Valid() && Contents() == []
    {
      fifo.Reset();
    }

    /** `Empty`. */
    function Empty(): (e: bool)
      requires Valid()
      reads this, fifo, fifo.head, fifo.tail, fifo.lastPush, fifo.body
      ensures e <==> Contents() == []
    {
      fifo.IsEmpty(0)
    }

    /** `Peek`: the oldest buffered message. */
    function Peek(): (m: T)
      requires Valid() && !Empty()
      reads this, fifo, fifo.head, fifo.tail, fifo.lastPush, fifo.body
      ensures m == Contents()[0]
    {
      fifo.Peek(0)
    }

    /** `Pop`: remove and return the oldest buffered message. */
    method Pop() returns (m: T)
      requires Valid() && !Empty()
      modifies fifo, fifo.head, fifo.lastPush
      ensures Valid() && m == old(Contents())[0] && Contents() == old(Contents())[1..]
    {
      m := fifo.Pop(0);
    }

    /** `IncrHead`: drop the oldest buffered message. */
    method IncrHead()
      requires Valid() && !Empty()
      modifies fifo, fifo.head, fifo.lastPush
      ensures Valid() && Contents() == old(Contents())[1..]
    {
      fifo.IncrHead(0);
    }

    /** The channel's `PopNB`: the first offered message, if any. */
    method PopNB() returns (m: Option<T>)
      modifies this
      ensures |old(channel)| == 0 ==> m == None && channel == old(channel)
      ensures |old(channel)| > 0 ==> m == Some(old(channel)[0]) && channel == old(channel)[1..]
    {
      if |channel| > 0 {
        m := Some(channel[0]);
        channel := channel[1..];
      } else {
        m := None;
      }
    }

    /**
     * `TransferNB`: when the FIFO has room, take one offered message from
     * the channel into it.  Nothing is lost or reordered: the FIFO followed
     * by the channel holds the same messages as before.
     */
    method TransferNB()
      requires Valid()
      modifies this, fifo, fifo.tail, fifo.lastPush, fifo.body
      ensures Valid()
      ensures |old(Contents())| < fifo.len && |old(channel)| > 0 ==>
        Contents() == old(Contents()) + [old(channel)[0]] && channel == old(channel)[1..]
      ensures !(|old(Contents())| < fifo.len && |old(channel)| > 0) ==>
        Contents() == old(Contents()) && channel == old(channel)
      ensures Contents() + channel == old(Contents()) + old(channel)
    {
      assert fifo.NumFilled(0) <= fifo.len;
      if !fifo.IsFull(0) {
        var msg := PopNB();
        if msg.Some? {
          fifo.Push(msg.value, 0);
          assert old(channel) == [msg.value] + channel;
        }
      }
    }
  }

  /**
   * `OutBuffered<Message, BufferSize>`: an output port with a private FIFO.
   * `sent` holds the messages the channel has taken from the port, oldest
   * first; `PushNB` succeeds when the receiver is ready.
   */
  class OutBuffered<T> {
    const fifo: Fifo<T>
    var sent: seq<T>

    ghost predicate Valid()
      reads this, fifo, fifo.head, fifo.tail, fifo.lastPush, fifo.body
    {
      fifo.Valid() && fifo.numBanks == 1
    }

    /** The messages in the port's FIFO, oldest first. */
    ghost function Contents(): seq<T>
      requires Valid()
      reads this, fifo, fifo.head, fifo.tail, fifo.lastPush, fifo.body
    {
      fifo.contents[0]
    }

    constructor (bufferSize: nat, init: T)
      requires bufferSize > 0
      ensures Valid() && fresh(fifo) && fresh(fifo.head) && fresh(fifo.tail) && fresh(fifo.lastPush) && fresh(fifo.body)
      ensures fifo.len == bufferSize && Contents() == [] && sent == []
    {
      fifo := new Fifo(bufferSize, 1, init);
      sent := [];
    }

    /** `Reset`: the FIFO is emptied. */
    method Reset()
      requires Valid()
      modifies fifo, fifo.head, fifo.tail, fifo.lastPush
      ensures Valid() && Contents() == []
    {
      fifo.Reset();
    }

    /** `Full`. */
    function Full(): (f: bool)
      requires Valid()
      reads this, fifo, fifo.head, fifo.tail, fifo.lastPush, fifo.body
      ensures f <==> |Contents()| == fifo.len
    {
      fifo.IsFull(0)
    }

    /** `Empty`. */
    function Empty(): (e: bool)
      requires Valid()
      reads this, fifo, fifo.head, fifo.tail, fifo.lastPush, fifo.body
      ensures e <==> Contents() == []
    {
      fifo.IsEmpty(0)
    }

    /** `NumAvailable`: the free FIFO entries. */
    function NumAvailable(): (k: nat)
      requires Valid()
      reads this, fifo, fifo.head, fifo.tail, fifo.lastPush, fifo.body
      ensures k == fifo.len - |Contents()|
    {
      fifo.NumAvailable(0)
    }

    /** `Push`: buffer a message for sending. */
    method Push(m: T)
      requires Valid() && !Full()
      modifies fifo, fifo.tail, fifo.lastPush, fifo.body
      ensures Valid() && Contents() == old(Contents()) + [m]
    {
      fifo.Push(m, 0);
    }

    /** The channel's `PushNB`: the message is taken iff the receiver is ready. */
    method PushNB(m: T, ready: bool) returns (ok: bool)
      modifies this
      ensures ok == ready
      ensures sent == if ready then old(sent) + [m] else old(sent)
    {
      ok := ready;
      if ready {
        sent := sent + [m];
      }
    }

    /**
     * `TransferNB`: offer the oldest buffered message and drop it from the
     * FIFO only when the channel took it.  Nothing is lost or reordered:
     * what was sent followed by the FIFO is the same as before.
     */
    method TransferNB(ready: bool)
      requires Valid()
      modifies this, fifo, fifo.head, fifo.lastPush
      ensures Valid()
      ensures |old(Contents())| > 0 && ready ==>
        sent == old(sent) + [old(Contents())[0]] && Contents() == old(Contents())[1..]
      ensures !(|old(Contents())| > 0 && ready) ==> sent == old(sent) && Contents() == old(Contents())
      ensures sent + Contents() == old(sent) + old(Contents())
    {
      if !fifo.IsEmpty(0) {
        var msg := fifo.Peek(0);
        var ok := PushNB(msg, ready);
        if ok {
          var _ := fifo.Pop(0);
          assert old(Contents()) == [msg] + Contents();
        }
      }
    }
  }
}
