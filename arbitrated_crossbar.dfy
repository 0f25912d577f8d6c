/**
 * `ArbitratedCrossbar` of `arbitrated_crossbar.h`: a crossbar in which every
 * input names the output it wants, one round-robin arbiter per output picks
 * among the inputs asking for it, and optional FIFOs queue the inputs and the
 * outputs.
 *
 * One call of `run` accepts new inputs into the input queues, lets every
 * ready output grant one of the inputs whose queue head asks for it, moves
 * each granted head to the output, and pops the consumed input queues.
 */
module ArbitratedCrossbar {
  import opened Wrappers
  import opened Bits
  import opened Fifo
  import opened Arbiter
  import opened OneHotToBin
  import opened NvhlsInt

  /** `DataDest`: what an input queue holds, the data and the output it is for. */
  datatype DataDest<T> = DataDest(data: T, dest: nat)

  // ---------------------------------------------------------------------
  // The crossbar step as a function of its inputs and the arbiters' state
  // ---------------------------------------------------------------------

  /**
   * Column out of the request matrix: input i asks for out when it is valid
   * and its dest is out.  A dest of NumOutputs or more is shifted out of
   * the request row and asks for nothing.
   */
  function Requests<T>(inputData: seq<DataDest<T>>, inputValid: seq<bool>, out: nat): (r: Bits)
    requires |inputValid| == |inputData|
  {
    seq(|inputData|, i requires 0 <= i < |inputData| => inputValid[i] && inputData[i].dest == out)
  }

  /**
   * The input output out grants when its arbiter's pointer is ptr: none when
   * the output is not ready or nobody asks, else the round-robin choice.
   */
  function Grant(requests: Bits, ptr: nat, ready: bool): (g: Option<nat>)
    requires ptr <= |requests|
    ensures g.Some? ==> g.value < |requests| && requests[g.value]
    ensures g.None? <==> !ready || IsZero(requests)
  {
    if ready && !IsZero(requests) then Some(RRChoice(requests, ptr)) else None
  }

  /** Arbiter pointers every one of which is in range for n inputs. */
  predicate PtrsOk(ptrs: seq<nat>, n: nat) {
    forall o :: 0 <= o < |ptrs| ==> 1 <= ptrs[o] <= n
  }

  /** The grants of all outputs. */
  function Grants<T>(inputData: seq<DataDest<T>>, inputValid: seq<bool>, outputReady: seq<bool>, ptrs: seq<nat>)
    : (g: seq<Option<nat>>)
    requires |inputValid| == |inputData| && |ptrs| == |outputReady| && PtrsOk(ptrs, |inputData|)
    ensures |g| == |ptrs|
  {
    seq(|ptrs|, o requires 0 <= o < |ptrs| =>
      Grant(Requests(inputData, inputValid, o), ptrs[o], outputReady[o]))
  }

  /** Some output below m granted input i. */
  predicate GrantedBy(g: seq<Option<nat>>, i: nat, m: nat)
    requires m <= |g|
  {
    exists o :: 0 <= o < m && g[o] == Some(i)
  }

  /** The pointer of an arbiter after it granted g (unchanged when it granted nobody). */
  function NewPtr(g: Option<nat>, ptr: nat, n: nat): nat {
    match g
    case Some(k) => NextPtr(k, n)
    case None => ptr
  }

  /**
   * An output grants only an input that is valid and asks for it, and only
   * when it is ready.
   */
  lemma GrantRequested<T>(inputData: seq<DataDest<T>>, inputValid: seq<bool>, outputReady: seq<bool>,
                          ptrs: seq<nat>, out: nat, i: nat)
    requires |inputValid| == |inputData| && |ptrs| == |outputReady| && PtrsOk(ptrs, |inputData|)
    requires out < |ptrs| && Grants(inputData, inputValid, outputReady, ptrs)[out] == Some(i)
    ensures i < |inputData| && inputValid[i] && inputData[i].dest == out && outputReady[out]
  {
    var r := Requests(inputData, inputValid, out);
    assert Grant(r, ptrs[out], outputReady[out]) == Some(i);
    assert r[i];
  }

  /** An input is granted by at most one output per call. */
  lemma GrantedOnce<T>(inputData: seq<DataDest<T>>, inputValid: seq<bool>, outputReady: seq<bool>,
                       ptrs: seq<nat>, o1: nat, o2: nat, i: nat)
    requires |inputValid| == |inputData| && |ptrs| == |outputReady| && PtrsOk(ptrs, |inputData|)
    requires o1 < |ptrs| && o2 < |ptrs|
    requires Grants(inputData, inputValid, outputReady, ptrs)[o1] == Some(i)
    requires Grants(inputData, inputValid, outputReady, ptrs)[o2] == Some(i)
    ensures o1 == o2
  {
    GrantRequested(inputData, inputValid, outputReady, ptrs, o1, i);
    GrantRequested(inputData, inputValid, outputReady, ptrs, o2, i);
  }

  /** A ready output that some valid input asks for grants one of them. */
  lemma GrantWhenRequested<T>(inputData: seq<DataDest<T>>, inputValid: seq<bool>, outputReady: seq<bool>,
                              ptrs: seq<nat>, out: nat, i: nat)
    requires |inputValid| == |inputData| && |ptrs| == |outputReady| && PtrsOk(ptrs, |inputData|)
    requires out < |ptrs| && outputReady[out] && i < |inputData| && inputValid[i] && inputData[i].dest == out
    ensures Grants(inputData, inputValid, outputReady, ptrs)[out].Some?
  {
    var r := Requests(inputData, inputValid, out);
    assert r[i];
  }

  /** An input is consumed only when it was valid: a consumed input queue is never empty. */
  lemma ConsumedValid<T>(inputData: seq<DataDest<T>>, inputValid: seq<bool>, outputReady: seq<bool>, ptrs: seq<nat>)
    requires |inputValid| == |inputData| && |ptrs| == |outputReady| && PtrsOk(ptrs, |inputData|)
    ensures forall i :: (0 <= i < |inputData| && Consumed(Grants(inputData, inputValid, outputReady, ptrs), |inputData|)[i]
                         ==> inputValid[i])
  {
    var g := Grants(inputData, inputValid, outputReady, ptrs);
    forall i | 0 <= i < |inputData| && Consumed(g, |inputData|)[i] ensures inputValid[i] {
      var o :| 0 <= o < |g| && g[o] == Some(i);
      GrantRequested(inputData, inputValid, outputReady, ptrs, o, i);
    }
  }

  /**
   * What `xbar` has done after handling the outputs below out: their arbiter
   * pointers, valid bits, data and source entries follow the grants g, the
   * other outputs are untouched, and `consumed` marks the inputs they granted.
   */
  ghost predicate XbarDone<T>(out: nat, g: seq<Option<nat>>, p0: seq<nat>, inputData: seq<DataDest<T>>, n: nat,
                              ptrs: seq<nat>, valid: seq<bool>, data: seq<T>, src: seq<nat>,
                              data0: seq<T>, src0: seq<nat>, consumed: seq<bool>) {
    out <= |g| && |p0| == |ptrs| == |valid| == |data| == |src| == |data0| == |src0| == |g| && |consumed| == n
    && (forall o :: 0 <= o < out ==> ptrs[o] == NewPtr(g[o], p0[o], n) && valid[o] == g[o].Some?)
    && (forall o :: out <= o < |g| ==> ptrs[o] == p0[o])
    && (forall o :: 0 <= o < out && g[o].Some? ==>
          g[o].value < |inputData| && data[o] == inputData[g[o].value].data && src[o] == g[o].value)
    && (forall o :: 0 <= o < |g| && (out <= o || g[o].None?) ==> data[o] == data0[o] && src[o] == src0[o])
    && (forall i :: 0 <= i < n ==> (consumed[i] <==> GrantedBy(g, i, out)))
  }

  /** Handling output out extends `XbarDone` to the outputs below out + 1. */
  lemma XbarStep<T>(out: nat, g: seq<Option<nat>>, p0: seq<nat>, inputData: seq<DataDest<T>>, n: nat,
                    ptrs: seq<nat>, valid: seq<bool>, data: seq<T>, src: seq<nat>,
                    data0: seq<T>, src0: seq<nat>, consumed: seq<bool>,
                    ptrs': seq<nat>, valid': seq<bool>, data': seq<T>, src': seq<nat>, consumed': seq<bool>)
    requires XbarDone(out, g, p0, inputData, n, ptrs, valid, data, src, data0, src0, consumed) && out < |g|
    requires g[out].Some? ==> g[out].value < |inputData|
    requires ptrs' == ptrs[out := NewPtr(g[out], p0[out], n)]
    requires |consumed'| == n && forall i :: 0 <= i < n ==> consumed'[i] == (consumed[i] || g[out] == Some(i))
    requires g[out].Some? ==>
      valid' == valid[out := true] && data' == data[out := inputData[g[out].value].data] && src' == src[out := g[out].value]
    requires g[out].None? ==> valid' == valid[out := false] && data' == data && src' == src
    ensures XbarDone(out + 1, g, p0, inputData, n, ptrs', valid', data', src', data0, src0, consumed')
  {
    forall i | 0 <= i < n ensures consumed'[i] <==> GrantedBy(g, i, out + 1) {
      if consumed'[i] && !consumed[i] {
        assert g[out] == Some(i);
      }
    }
  }

  // ---------------------------------------------------------------------
  // One call of `run` on the abstract state: queue contents and pointers
  // ---------------------------------------------------------------------

  /**
   * The length of a queue `FIFO<_, Len, _>`.  `FIFO<_, 0, _>` stores nothing
   * and `run` never touches it; the model gives it one slot that stays unused.
   */
  function QueueLen(len: nat): (r: nat)
    ensures r >= 1 && (len > 0 ==> r == len)
  {
    if len > 0 then len else 1
  }

  /** Input stage with input queues: a valid input joins its queue when that queue is not full. */
  function Accept<T>(inq: seq<seq<DataDest<T>>>, len: nat, dataIn: seq<T>, destIn: seq<nat>, validIn: seq<bool>)
    : (r: seq<seq<DataDest<T>>>)
    requires |dataIn| == |inq| && |destIn| == |inq| && |validIn| == |inq|
    ensures |r| == |inq|
  {
    seq(|inq|, i requires 0 <= i < |inq| =>
      if |inq[i]| < len && validIn[i] then inq[i] + [DataDest(dataIn[i], destIn[i])] else inq[i])
  }

  /** One lane of the input stage: the lanes before i hold their accepted queues, the rest their old ones. */
  lemma AcceptLane<T>(q0: seq<seq<DataDest<T>>>, len: nat, dataIn: seq<T>, destIn: seq<nat>, validIn: seq<bool>,
                      i: nat, zero: T)
    requires |dataIn| == |q0| && |destIn| == |q0| && |validIn| == |q0| && i < |q0|
    ensures var q1 := Accept(q0, len, dataIn, destIn, validIn);
      var c' := if |q0[i]| < len && validIn[i] then q0[i] + [DataDest(dataIn[i], destIn[i])] else q0[i];
      && (q1[..i] + q0[i..])[i := c'] == q1[..i + 1] + q0[i + 1..]
      && (q1[..i] + q0[i..])[i] == q0[i]
      && Heads(q1, zero)[..i + 1] == Heads(q1, zero)[..i] + [if |c'| > 0 then c'[0] else DataDest(zero, 0)]
      && NonEmpty(q1)[..i + 1] == NonEmpty(q1)[..i] + [|c'| > 0]
      && ReadyIn(q0, len, validIn)[i] == (|q0[i]| < len || !validIn[i])
  {
    var q1 := Accept(q0, len, dataIn, destIn, validIn);
    assert (q1[..i] + q0[i..])[i := q1[i]] == q1[..i + 1] + q0[i + 1..];
    PrefixSnoc(Heads(q1, zero), i);
    PrefixSnoc(NonEmpty(q1), i);
  }

  /** Setting entry i of a sequence whose first i entries agree with r extends the agreement by one. */
  lemma SetPrefix<U>(a: seq<U>, r: seq<U>, i: nat, x: U)
    requires i < |a| == |r| && a[..i] == r[..i] && r[i] == x
    ensures a[i := x][..i + 1] == r[..i + 1]
  {
    assert a[i := x][..i + 1] == a[..i] + [x];
    PrefixSnoc(r, i);
  }

  /** The input queues after the input stage: `Accept` with queues, unchanged without them. */
  function Accepted<T>(lenIn: nat, inq: seq<seq<DataDest<T>>>, dataIn: seq<T>, destIn: seq<nat>, validIn: seq<bool>)
    : (r: seq<seq<DataDest<T>>>)
    requires |dataIn| == |inq| && |destIn| == |inq| && |validIn| == |inq|
    ensures |r| == |inq|
  {
    if lenIn > 0 then Accept(inq, lenIn, dataIn, destIn, validIn) else inq
  }

  /** `ready` with input queues: the queue has room, or there is nothing to accept. */
  function ReadyIn<T>(inq: seq<seq<DataDest<T>>>, len: nat, validIn: seq<bool>): (r: seq<bool>)
    requires |validIn| == |inq|
    ensures |r| == |inq|
  {
    seq(|inq|, i requires 0 <= i < |inq| => |inq[i]| < len || !validIn[i])
  }

  /** The queue heads the crossbar sees; an empty queue shows the all-zero `DataDest`. */
  function Heads<T>(q: seq<seq<DataDest<T>>>, zero: T): (r: seq<DataDest<T>>)
    ensures |r| == |q|
  {
    seq(|q|, i requires 0 <= i < |q| => if |q[i]| > 0 then q[i][0] else DataDest(zero, 0))
  }

  /** Which queues are not empty. */
  function NonEmpty<U>(q: seq<seq<U>>): (r: seq<bool>)
    ensures |r| == |q|
  {
    seq(|q|, i requires 0 <= i < |q| => |q[i]| > 0)
  }

  /** `output_ready`: with output queues an output is ready when its queue has room. */
  function OutputReady<T>(outq: seq<seq<T>>, len: nat): (r: seq<bool>)
    ensures |r| == |outq|
  {
    seq(|outq|, o requires 0 <= o < |outq| => len == 0 || |outq[o]| < len)
  }

  /** `input_consumed`: the inputs some output granted. */
  function Consumed(g: seq<Option<nat>>, n: nat): (r: seq<bool>)
    ensures |r| == n
  {
    seq(n, i requires 0 <= i => GrantedBy(g, i, |g|))
  }

  /** Dropping the head of every consumed queue. */
  function Consume<U>(q: seq<seq<U>>, consumed: seq<bool>): (r: seq<seq<U>>)
    requires |consumed| == |q|
    ensures |r| == |q|
  {
    seq(|q|, i requires 0 <= i < |q| => if consumed[i] && |q[i]| > 0 then q[i][1..] else q[i])
  }

  /** The data each output forwards: the granted input's data, else what the output held before. */
  function Forward<T>(g: seq<Option<nat>>, inputData: seq<DataDest<T>>, old_: seq<T>): (r: seq<T>)
    requires |old_| == |g|
    ensures |r| == |g|
  {
    seq(|g|, o requires 0 <= o < |g| =>
      if g[o].Some? && g[o].value < |inputData| then inputData[g[o].value].data else old_[o])
  }

  /** Whether each output forwards something. */
  function Forwarded(g: seq<Option<nat>>): (r: seq<bool>)
    ensures |r| == |g|
  {
    seq(|g|, o requires 0 <= o < |g| => g[o].Some?)
  }

  /** Output stage with output queues: every forwarded datum joins its output queue. */
  function Enqueue<T>(outq: seq<seq<T>>, valid: seq<bool>, data: seq<T>): (r: seq<seq<T>>)
    requires |valid| == |outq| && |data| == |outq|
    ensures |r| == |outq|
  {
    seq(|outq|, o requires 0 <= o < |outq| => if valid[o] then outq[o] + [data[o]] else outq[o])
  }

  /** `data_out` with output queues: the head of each nonempty queue, else the caller's old value. */
  function HeadsOr<T>(outq: seq<seq<T>>, old_: seq<T>): (r: seq<T>)
    requires |old_| == |outq|
    ensures |r| == |outq|
  {
    seq(|outq|, o requires 0 <= o < |outq| => if |outq[o]| > 0 then outq[o][0] else old_[o])
  }

  /** The outputs' `source` entries: the granted input, else the caller's old value. */
  function Sources(g: seq<Option<nat>>, old_: seq<nat>): (r: seq<nat>)
    requires |old_| == |g|
    ensures |r| == |g|
  {
    seq(|g|, o requires 0 <= o < |g| => if g[o].Some? then g[o].value else old_[o])
  }

  /** The arbiter pointers after the grants g. */
  function NewPtrs(g: seq<Option<nat>>, ptrs: seq<nat>, n: nat): (r: seq<nat>)
    requires |ptrs| == |g|
    ensures |r| == |g|
  {
    seq(|g|, o requires 0 <= o < |g| => NewPtr(g[o], ptrs[o], n))
  }

  /** The state `run` leaves and what it reports. */
  datatype Step<T> = Step(inq: seq<seq<DataDest<T>>>, outq: seq<seq<T>>, ptrs: seq<nat>,
                          dataOut: seq<T>, validOut: seq<bool>, ready: seq<bool>, source: seq<nat>)

  /** What the crossbar sees of its inputs: the queue heads, or the inputs themselves without queues. */
  function InputView<T>(lenIn: nat, inq1: seq<seq<DataDest<T>>>, dataIn: seq<T>, destIn: seq<nat>, validIn: seq<bool>,
                        zero: T): (r: (seq<DataDest<T>>, seq<bool>))
    requires |inq1| == |dataIn| == |destIn| == |validIn|
    ensures |r.0| == |r.1| == |inq1|
  {
    if lenIn > 0 then (Heads(inq1, zero), NonEmpty(inq1))
    else (Direct(dataIn, destIn), validIn)
  }

  /** Without input queues the crossbar sees the inputs themselves. */
  function Direct<T>(dataIn: seq<T>, destIn: seq<nat>): (r: seq<DataDest<T>>)
    requires |destIn| == |dataIn|
    ensures |r| == |dataIn|
  {
    seq(|dataIn|, i requires 0 <= i < |dataIn| => DataDest(dataIn[i], destIn[i]))
  }

  /** n copies of v. */
  function Repeat<U>(n: nat, v: U): (r: seq<U>)
    ensures |r| == n && forall o :: 0 <= o < n ==> r[o] == v
  {
    seq(n, o => v)
  }

  /** The shape of the arguments of one `run` call. */
  predicate RunArgs<T>(n: nat, inq: seq<seq<DataDest<T>>>, outq: seq<seq<T>>, ptrs: seq<nat>,
                       dataIn: seq<T>, destIn: seq<nat>, validIn: seq<bool>, dataOut0: seq<T>, source0: seq<nat>) {
    |inq| == n && |dataIn| == n && |destIn| == n && |validIn| == n
    && |ptrs| == |outq| && PtrsOk(ptrs, n) && |dataOut0| == |outq| && |source0| == |outq|
  }

  /**
   * `run(data_in, dest_in, valid_in, data_out, valid_out, ready, source)` on
   * the abstract state: the input queues inq, output queues outq and arbiter
   * pointers ptrs, with `data_out` and `source` holding dataOut0 and source0
   * before the call.
   */
  function RunStep<T>(lenIn: nat, lenOut: nat, n: nat, inq: seq<seq<DataDest<T>>>, outq: seq<seq<T>>, ptrs: seq<nat>,
                      dataIn: seq<T>, destIn: seq<nat>, validIn: seq<bool>, dataOut0: seq<T>, source0: seq<nat>,
                      zero: T): (r: Step<T>)
    requires RunArgs(n, inq, outq, ptrs, dataIn, destIn, validIn, dataOut0, source0)
  {
    var inq1 := Accepted(lenIn, inq, dataIn, destIn, validIn);
    var view := InputView(lenIn, inq1, dataIn, destIn, validIn, zero);
    var g := Grants(view.0, view.1, OutputReady(outq, lenOut), ptrs);
    var consumed := Consumed(g, n);
    var outputData := Forward(g, view.0, seq(|outq|, o => zero));
    var outq1 := if lenOut > 0 then Enqueue(outq, Forwarded(g), outputData) else outq;
    Step(if lenIn > 0 then Consume(inq1, consumed) else inq,
         outq1,
         NewPtrs(g, ptrs, n),
         if lenOut > 0 then HeadsOr(outq1, dataOut0) else outputData,
         if lenOut > 0 then NonEmpty(outq1) else Forwarded(g),
         if lenIn > 0 then ReadyIn(inq, lenIn, validIn) else consumed,
         Sources(g, source0))
  }

  /**
   * With input queues, a valid input joins its queue exactly when `ready`
   * reports it, and an input that is not valid is always reported ready.
   */
  lemma AcceptIffReady<T>(inq: seq<seq<DataDest<T>>>, len: nat, dataIn: seq<T>, destIn: seq<nat>, validIn: seq<bool>,
                          i: nat)
    requires |dataIn| == |inq| && |destIn| == |inq| && |validIn| == |inq| && i < |inq|
    ensures validIn[i] && ReadyIn(inq, len, validIn)[i] ==>
      Accept(inq, len, dataIn, destIn, validIn)[i] == inq[i] + [DataDest(dataIn[i], destIn[i])]
    ensures !(validIn[i] && ReadyIn(inq, len, validIn)[i]) ==> Accept(inq, len, dataIn, destIn, validIn)[i] == inq[i]
    ensures !validIn[i] ==> ReadyIn(inq, len, validIn)[i]
  {
  }

  /**
   * With input and output queues, one call of `run` moves an input queue's
   * head at most once, and only to the output queue its dest names: every
   * input queue either keeps its contents or loses its head, which is then
   * appended to the queue of its destination, whose `source` names the input.
   */
  lemma RunMovesHeads<T>(lenIn: nat, lenOut: nat, n: nat, inq: seq<seq<DataDest<T>>>, outq: seq<seq<T>>, ptrs: seq<nat>,
                         dataIn: seq<T>, destIn: seq<nat>, validIn: seq<bool>, dataOut0: seq<T>, source0: seq<nat>,
                         zero: T, i: nat)
    requires RunArgs(n, inq, outq, ptrs, dataIn, destIn, validIn, dataOut0, source0) && lenIn > 0 && lenOut > 0 && i < n
    ensures var inq1 := Accepted(lenIn, inq, dataIn, destIn, validIn);
      var r := RunStep(lenIn, lenOut, n, inq, outq, ptrs, dataIn, destIn, validIn, dataOut0, source0, zero);
      || r.inq[i] == inq1[i]
      || (&& |inq1[i]| > 0 && r.inq[i] == inq1[i][1..] && inq1[i][0].dest < |outq|
          && r.outq[inq1[i][0].dest] == outq[inq1[i][0].dest] + [inq1[i][0].data]
          && r.source[inq1[i][0].dest] == i)
  {
    var inq1 := Accepted(lenIn, inq, dataIn, destIn, validIn);
    var view := InputView(lenIn, inq1, dataIn, destIn, validIn, zero);
    var ready := OutputReady(outq, lenOut);
    var g := Grants(view.0, view.1, ready, ptrs);
    if GrantedBy(g, i, |g|) {
      var o :| 0 <= o < |g| && g[o] == Some(i);
      GrantRequested(view.0, view.1, ready, ptrs, o, i);
    }
  }

  /**
   * With input and output queues, every output queue either keeps its
   * contents or gains exactly one entry: the head of the input queue its
   * `source` names, whose dest is this output and which that queue loses.
   */
  lemma RunFillsOutputs<T>(lenIn: nat, lenOut: nat, n: nat, inq: seq<seq<DataDest<T>>>, outq: seq<seq<T>>,
                           ptrs: seq<nat>, dataIn: seq<T>, destIn: seq<nat>, validIn: seq<bool>, dataOut0: seq<T>,
                           source0: seq<nat>, zero: T, o: nat)
    requires RunArgs(n, inq, outq, ptrs, dataIn, destIn, validIn, dataOut0, source0) && lenIn > 0 && lenOut > 0
    requires o < |outq|
    ensures var inq1 := Accepted(lenIn, inq, dataIn, destIn, validIn);
      var r := RunStep(lenIn, lenOut, n, inq, outq, ptrs, dataIn, destIn, validIn, dataOut0, source0, zero);
      || (r.outq[o] == outq[o] && r.source[o] == source0[o])
      || (&& r.source[o] < n && |inq1[r.source[o]]| > 0 && inq1[r.source[o]][0].dest == o
          && r.outq[o] == outq[o] + [inq1[r.source[o]][0].data]
          && r.inq[r.source[o]] == inq1[r.source[o]][1..])
  {
    var inq1 := Accepted(lenIn, inq, dataIn, destIn, validIn);
    var view := InputView(lenIn, inq1, dataIn, destIn, validIn, zero);
    var ready := OutputReady(outq, lenOut);
    var g := Grants(view.0, view.1, ready, ptrs);
    if g[o].Some? {
      var s := g[o].value;
      GrantRequested(view.0, view.1, ready, ptrs, o, s);
      assert GrantedBy(g, s, |g|);
    }
  }

  /**
   * Without queues on either side `run` is a pure arbitrated crossbar: an
   * input is reported ready exactly when some output took it; a valid output
   * carries the data of its source, which is a valid input naming it; an
   * invalid output carries zero and keeps its source entry.
   */
  lemma RunWithoutQueues<T>(n: nat, inq: seq<seq<DataDest<T>>>, outq: seq<seq<T>>, ptrs: seq<nat>,
                            dataIn: seq<T>, destIn: seq<nat>, validIn: seq<bool>, dataOut0: seq<T>, source0: seq<nat>,
                            zero: T)
    requires RunArgs(n, inq, outq, ptrs, dataIn, destIn, validIn, dataOut0, source0)
    ensures var r := RunStep(0, 0, n, inq, outq, ptrs, dataIn, destIn, validIn, dataOut0, source0, zero);
      && r.inq == inq && r.outq == outq
      && (forall i :: 0 <= i < n ==>
            (r.ready[i] <==> exists o :: 0 <= o < |outq| && r.validOut[o] && r.source[o] == i))
      && (forall o :: 0 <= o < |outq| && r.validOut[o] ==>
            r.source[o] < n && validIn[r.source[o]] && destIn[r.source[o]] == o && r.dataOut[o] == dataIn[r.source[o]])
      && (forall o :: 0 <= o < |outq| && !r.validOut[o] ==> r.dataOut[o] == zero && r.source[o] == source0[o])
  {
    var view := InputView(0, inq, dataIn, destIn, validIn, zero);
    var ready := OutputReady(outq, 0);
    var g := Grants(view.0, view.1, ready, ptrs);
    var r := RunStep(0, 0, n, inq, outq, ptrs, dataIn, destIn, validIn, dataOut0, source0, zero);
    forall i | 0 <= i < n
      ensures r.ready[i] <==> exists o :: 0 <= o < |outq| && r.validOut[o] && r.source[o] == i
    {
      if r.ready[i] {
        var o :| 0 <= o < |g| && g[o] == Some(i);
        assert r.validOut[o] && r.source[o] == i;
      }
      if exists o :: 0 <= o < |outq| && r.validOut[o] && r.source[o] == i {
        var o :| 0 <= o < |outq| && r.validOut[o] && r.source[o] == i;
        assert g[o] == Some(i);
      }
    }
    forall o | 0 <= o < |outq| && r.validOut[o]
      ensures r.source[o] < n && validIn[r.source[o]] && destIn[r.source[o]] == o && r.dataOut[o] == dataIn[r.source[o]]
    {
      GrantRequested(view.0, view.1, ready, ptrs, o, g[o].value);
    }
  }

  /**
   * `isInputEmpty` and its siblings check the index with `index <= NumInputs`
   * (`<= NumOutputs`), one more than the number of banks.  With three inputs
   * an `InputIdx` is two bits wide, so index 3 can be passed: it passes the
   * check and names no bank of the queues.
   */
  predicate StatusGuardAsWritten(index: nat, n: nat) {
    index <= n
  }

  lemma StatusGuardAdmitsMissingBank()
    ensures 3 < Pow2(IndexWidth(3)) && StatusGuardAsWritten(3, 3) && !(3 < 3)
  {
    assert Pow2(1) == 2 && Pow2(2) == 4;
    Pow2BracketUnique(3, IndexWidth(3), 2);
  }

  // ---------------------------------------------------------------------
  // ArbitratedCrossbar<DataType, NumInputs, NumOutputs, LenInputBuffer, LenOutputBuffer>
  // ---------------------------------------------------------------------

  class ArbitratedCrossbar<T> {
    const numInputs: nat
    const numOutputs: nat
    /** `log2_inputs`: `index_width<NumInputs>`, the width of an input index. */
    const log2Inputs: nat
    /** `LenInputBuffer`, `LenOutputBuffer`: 0 means no queue on that side. */
    const lenInputBuffer: nat
    const lenOutputBuffer: nat
    /** `input_queues`: one bank per input holding `DataDest` entries. */
    const inputQueues: Fifo<DataDest<T>>
    /** `output_queues`: one bank per output. */
    const outputQueues: Fifo<T>
    /** `arbiters[NumOutputs]`: one round-robin arbiter over the inputs per output. */
    const arbiters: seq<RoundRobinArbiter>

    /** The arbiters are distinct objects, each valid and as wide as the inputs. */
    ghost predicate ArbitersValid()
      reads this, arbiters
    {
      1 <= numInputs <= 65536 && log2Inputs == IndexWidth(numInputs) && |arbiters| == numOutputs
      && (forall o :: 0 <= o < numOutputs ==> arbiters[o].Valid() && arbiters[o].size == numInputs)
      && (forall o, p :: 0 <= o < p < numOutputs ==> arbiters[o] != arbiters[p])
    }

    /** Both queues valid, banked per input and per output, and sharing no storage. */
    ghost predicate QueuesValid()
      reads this, inputQueues, inputQueues.head, inputQueues.tail, inputQueues.lastPush, inputQueues.body
      reads outputQueues, outputQueues.head, outputQueues.tail, outputQueues.lastPush, outputQueues.body
    {
      inputQueues.Valid() && inputQueues.numBanks == numInputs && inputQueues.len == QueueLen(lenInputBuffer)
      && outputQueues.Valid() && outputQueues.numBanks == numOutputs && outputQueues.len == QueueLen(lenOutputBuffer)
      && {inputQueues as object, inputQueues.head, inputQueues.tail, inputQueues.lastPush, inputQueues.body}
         !! {outputQueues as object, outputQueues.head, outputQueues.tail, outputQueues.lastPush, outputQueues.body}
    }

    ghost predicate Valid()
      reads this, arbiters
      reads inputQueues, inputQueues.head, inputQueues.tail, inputQueues.lastPush, inputQueues.body
      reads outputQueues, outputQueues.head, outputQueues.tail, outputQueues.lastPush, outputQueues.body
    {
      ArbitersValid() && QueuesValid()
      && forall o :: 0 <= o < numOutputs ==> arbiters[o] !in QueueRepr()
    }

    /** The arbiters' pointers. */
    ghost function Ptrs(): (r: seq<nat>)
      requires ArbitersValid()
      reads this, arbiters
      ensures |r| == numOutputs && PtrsOk(r, numInputs)
    {
      seq(numOutputs, o requires 0 <= o < numOutputs reads arbiters => arbiters[o].ptr)
    }

    /** The per-input OR of the grant bits of one output into `input_consumed`. */
    static method MergeGrant(consumed: seq<bool>, grant: Bits) returns (r: seq<bool>)
      requires |grant| == |consumed|
      ensures |r| == |consumed| && forall i :: 0 <= i < |r| ==> r[i] == (consumed[i] || grant[i])
    {
      r := consumed;
      for i := 0 to |consumed|
        invariant |r| == |consumed|
        invariant forall j :: 0 <= j < |r| ==> r[j] == (consumed[j] || (j < i && grant[j]))
      {
        r := r[i := r[i] || grant[i]];
      }
    }

    /**
     * `xbar(input_data, input_valid, input_consumed, data_out, valid_out,
     * output_ready, source)`: every ready output runs its arbiter on the
     * requests for it and forwards the granted input; an output that grants
     * nobody keeps its data and source entries and is invalid.
     */
    method Xbar(inputData: seq<DataDest<T>>, inputValid: seq<bool>, outputReady: seq<bool>,
                dataOut: array<T>, validOut: array<bool>, source: array<nat>) returns (inputConsumed: seq<bool>)
      requires ArbitersValid()
      requires |inputData| == |inputValid| == numInputs && |outputReady| == numOutputs
      requires dataOut.Length == numOutputs && validOut.Length == numOutputs && source.Length == numOutputs
      requires dataOut as object != validOut && dataOut as object != source
      modifies arbiters, dataOut, validOut, source
      ensures ArbitersValid()
      ensures var g := Grants(inputData, inputValid, outputReady, old(Ptrs()));
        && Ptrs() == NewPtrs(g, old(Ptrs()), numInputs)
        && validOut[..] == Forwarded(g)
        && dataOut[..] == Forward(g, inputData, old(dataOut[..]))
        && source[..] == Sources(g, old(source[..]))
        && inputConsumed == Consumed(g, numInputs)
    {
      ghost var p0 := Ptrs();
      ghost var g := Grants(inputData, inputValid, outputReady, p0);
      ghost var data0, src0 := dataOut[..], source[..];
      inputConsumed := seq(numInputs, i => false);
      for out := 0 to numOutputs
        invariant ArbitersValid()
        invariant XbarDone(out, g, p0, inputData, numInputs, Ptrs(), validOut[..], dataOut[..], source[..],
                           data0, src0, inputConsumed)
      {
        inputConsumed := XbarLane(out, inputData, inputValid, outputReady, dataOut, validOut, source,
                                  inputConsumed, g, p0, data0, src0);
      }
    }

    /** One iteration of the output loop of `xbar`: output out arbitrates and forwards. */
    method XbarLane(out: nat, inputData: seq<DataDest<T>>, inputValid: seq<bool>, outputReady: seq<bool>,
                    dataOut: array<T>, validOut: array<bool>, source: array<nat>, inputConsumed: seq<bool>,
                    ghost g: seq<Option<nat>>, ghost p0: seq<nat>, ghost data0: seq<T>, ghost src0: seq<nat>)
      returns (consumed: seq<bool>)
      requires ArbitersValid() && out < numOutputs
      requires |inputData| == |inputValid| == numInputs && |outputReady| == numOutputs
      requires dataOut.Length == numOutputs && validOut.Length == numOutputs && source.Length == numOutputs
      requires dataOut as object != validOut && dataOut as object != source
      requires |p0| == numOutputs && PtrsOk(p0, numInputs) && g == Grants(inputData, inputValid, outputReady, p0)
      requires XbarDone(out, g, p0, inputData, numInputs, Ptrs(), validOut[..], dataOut[..], source[..],
                        data0, src0, inputConsumed)
      modifies arbiters[out], dataOut, validOut, source
      ensures ArbitersValid()
      ensures XbarDone(out + 1, g, p0, inputData, numInputs, Ptrs(), validOut[..], dataOut[..], source[..],
                       data0, src0, consumed)
    {
      ghost var ps, vs, ds, ss := Ptrs(), validOut[..], dataOut[..], source[..];
      var oneHotGrant, sourceLocal := ArbitrateLane(out, inputData, inputValid, outputReady[out]);
      assert g[out] == Grant(Requests(inputData, inputValid, out), p0[out], outputReady[out]);
      ghost var ps' := Ptrs();
      assert ps' == ps[out := NewPtr(g[out], p0[out], numInputs)];
      consumed := MergeGrant(inputConsumed, oneHotGrant);
      var granted := !IsZero(oneHotGrant) && outputReady[out];
      WriteLane(out, granted, if granted then inputData[sourceLocal].data else dataOut[out], sourceLocal,
                dataOut, validOut, source);
      assert Ptrs() == ps';
      XbarStep(out, g, p0, inputData, numInputs, ps, vs, ds, ss, data0, src0, inputConsumed,
               Ptrs(), validOut[..], dataOut[..], source[..], consumed);
    }

    /**
     * The writes of one output lane of `xbar`: the lane is invalid unless it
     * granted, in which case it takes the data and the source index.
     */
    static method WriteLane<U>(out: nat, granted: bool, data: U, src: nat,
                               dataOut: array<U>, validOut: array<bool>, source: array<nat>)
      requires out < dataOut.Length && out < validOut.Length && out < source.Length
      requires dataOut as object != validOut && dataOut as object != source
      modifies dataOut, validOut, source
      ensures validOut[..] == old(validOut[..])[out := granted]
      ensures granted ==> dataOut[..] == old(dataOut[..])[out := data] && source[..] == old(source[..])[out := src]
      ensures !granted ==> dataOut[..] == old(dataOut[..]) && source[..] == old(source[..])
    {
      validOut[out] := false;
      if granted {
        dataOut[out] := data;
        validOut[out] := true;
        source[out] := src;
      }
    }

    /**
     * The arbitration of one output lane of `xbar`: a ready output runs its
     * arbiter and converts the one-hot grant to a binary input index; an
     * output that is not ready grants nothing.
     */
    method ArbitrateLane(out: nat, inputData: seq<DataDest<T>>, inputValid: seq<bool>, ready: bool)
      returns (oneHotGrant: Bits, sourceLocal: nat)
      requires ArbitersValid() && out < numOutputs && |inputData| == |inputValid| == numInputs
      modifies arbiters[out]
      ensures ArbitersValid()
      ensures var gg := Grant(Requests(inputData, inputValid, out), old(arbiters[out].ptr), ready);
        Ptrs() == old(Ptrs())[out := NewPtr(gg, old(arbiters[out].ptr), numInputs)]
      ensures var gg := Grant(Requests(inputData, inputValid, out), old(arbiters[out].ptr), ready);
        && arbiters[out].ptr == NewPtr(gg, old(arbiters[out].ptr), numInputs)
        && |oneHotGrant| == numInputs
        && (forall i :: 0 <= i < numInputs ==> (oneHotGrant[i] <==> gg == Some(i)))
        && (!IsZero(oneHotGrant) && ready <==> gg.Some?)
        && (gg.Some? ==> sourceLocal == gg.value)
    {
      var requests := Requests(inputData, inputValid, out);
      ghost var p := arbiters[out].ptr;
      oneHotGrant := Zeros(numInputs);
      sourceLocal := 0;
      if ready {
        oneHotGrant := PickAt(out, requests);
        var bin := OneHotToBinary(oneHotGrant, log2Inputs);
        sourceLocal := ToNat(bin);
        if !IsZero(requests) {
          var k := RRChoice(requests, p);
          OneHotValue(numInputs, k, log2Inputs);
          assert oneHotGrant[k];
        }
      }
    }

    /** Runs arbiter out on the requests for it; the other arbiters are untouched. */
    method PickAt(out: nat, requests: Bits) returns (grant: Bits)
      requires ArbitersValid() && out < numOutputs && |requests| == numInputs
      modifies arbiters[out]
      ensures ArbitersValid()
      ensures forall o :: 0 <= o < numOutputs && o != out ==> arbiters[o].ptr == old(arbiters[o].ptr)
      ensures grant == (if IsZero(requests) then Zeros(numInputs) else OneHot(numInputs, RRChoice(requests, old(arbiters[out].ptr))))
      ensures arbiters[out].ptr == NewPtr(Grant(requests, old(arbiters[out].ptr), true), old(arbiters[out].ptr), numInputs)
    {
      grant := arbiters[out].Pick(requests);
    }

    /** Every object the queues are made of. */
    ghost function QueueRepr(): (r: set<object>)
      ensures inputQueues in r && outputQueues in r
    {
      {inputQueues as object, inputQueues.head, inputQueues.tail, inputQueues.lastPush, inputQueues.body,
       outputQueues, outputQueues.head, outputQueues.tail, outputQueues.lastPush, outputQueues.body}
    }

    /** Every object the crossbar is made of: itself, its queues and its arbiters. */
    ghost function Repr(): (r: set<object>)
      ensures QueueRepr() <= r && forall o :: 0 <= o < |arbiters| ==> arbiters[o] in r
    {
      {this as object} + QueueRepr() + set o | 0 <= o < |arbiters| :: arbiters[o] as object
    }

    /**
     * `ArbitratedCrossbar()`: builds the queues and arbiters and resets them,
     * so that every queue is empty and every arbiter pointer is at NumInputs.
     */
    constructor (numInputs: nat, numOutputs: nat, lenInputBuffer: nat, lenOutputBuffer: nat, zero: T)
      requires 1 <= numInputs <= 65536
      ensures Valid()
      ensures this.numInputs == numInputs && this.numOutputs == numOutputs
      ensures this.lenInputBuffer == lenInputBuffer && this.lenOutputBuffer == lenOutputBuffer
      ensures inputQueues.contents == Repeat(numInputs, []) && outputQueues.contents == Repeat(numOutputs, [])
      ensures Ptrs() == Repeat(numOutputs, numInputs)
      ensures fresh(Repr() - {this})
    {
      this.numInputs := numInputs;
      this.numOutputs := numOutputs;
      log2Inputs := IndexWidth(numInputs);
      this.lenInputBuffer := lenInputBuffer;
      this.lenOutputBuffer := lenOutputBuffer;
      var iq, oq := NewQueues(numInputs, numOutputs, QueueLen(lenInputBuffer), QueueLen(lenOutputBuffer), zero);
      var arbs := NewArbiters(numInputs, numOutputs,
        {iq as object, iq.head, iq.tail, iq.lastPush, iq.body, oq, oq.head, oq.tail, oq.lastPush, oq.body});
      inputQueues, outputQueues, arbiters := iq, oq, arbs;
      new;
    }

    /** Fresh input and output queues, every bank empty, sharing no storage. */
    static method NewQueues(numInputs: nat, numOutputs: nat, lenIn: nat, lenOut: nat, zero: T)
      returns (iq: Fifo<DataDest<T>>, oq: Fifo<T>)
      requires lenIn > 0 && lenOut > 0
      ensures fresh(iq) && fresh(iq.head) && fresh(iq.tail) && fresh(iq.lastPush) && fresh(iq.body)
      ensures fresh(oq) && fresh(oq.head) && fresh(oq.tail) && fresh(oq.lastPush) && fresh(oq.body)
      ensures iq.Valid() && iq.numBanks == numInputs && iq.len == lenIn && iq.contents == Repeat(numInputs, [])
      ensures oq.Valid() && oq.numBanks == numOutputs && oq.len == lenOut && oq.contents == Repeat(numOutputs, [])
      ensures {iq as object, iq.head, iq.tail, iq.lastPush, iq.body} !! {oq as object, oq.head, oq.tail, oq.lastPush, oq.body}
    {
      iq := new Fifo<DataDest<T>>(lenIn, numInputs, DataDest(zero, 0));
      oq := new Fifo<T>(lenOut, numOutputs, zero);
      assert iq.contents == Repeat(numInputs, []) && oq.contents == Repeat(numOutputs, []);
    }

    /** Fresh arbiters, one per output, each reset. */
    static method NewArbiters(numInputs: nat, numOutputs: nat, ghost avoid: set<object>) returns (arbs: seq<RoundRobinArbiter>)
      requires 1 <= numInputs <= 65536
      ensures |arbs| == numOutputs && forall k :: 0 <= k < numOutputs ==> arbs[k] !in avoid
      ensures forall k :: 0 <= k < numOutputs ==>
        fresh(arbs[k]) && arbs[k].Valid() && arbs[k].size == numInputs && arbs[k].ptr == numInputs
      ensures forall k, l :: 0 <= k < l < numOutputs ==> arbs[k] != arbs[l]
    {
      arbs := [];
      for o := 0 to numOutputs
        invariant |arbs| == o && forall k :: 0 <= k < o ==> arbs[k] !in avoid
        invariant forall k :: 0 <= k < o ==>
          fresh(arbs[k]) && arbs[k].Valid() && arbs[k].size == numInputs && arbs[k].ptr == numInputs
        invariant forall k, l :: 0 <= k < l < o ==> arbs[k] != arbs[l]
      {
        var a := new RoundRobinArbiter(numInputs);
        arbs := arbs + [a];
      }
    }

    /** `reset()`: empties every queue and resets every arbiter. */
    method Reset()
      requires Valid()
      modifies arbiters, inputQueues, inputQueues.head, inputQueues.tail, inputQueues.lastPush
      modifies outputQueues, outputQueues.head, outputQueues.tail, outputQueues.lastPush
      ensures Valid()
      ensures inputQueues.contents == Repeat(numInputs, []) && outputQueues.contents == Repeat(numOutputs, [])
      ensures Ptrs() == Repeat(numOutputs, numInputs)
    {
      for i := 0 to numInputs
        invariant QueuesValid() && ArbitersValid() && Ptrs() == old(Ptrs())
        invariant i > 0 ==> inputQueues.contents == seq(numInputs, i => [])
      {
        inputQueues.Reset();
      }
      for out := 0 to numOutputs
        invariant QueuesValid() && ArbitersValid()
        invariant inputQueues.contents == seq(numInputs, i => [])
        invariant out > 0 ==> outputQueues.contents == seq(numOutputs, o => [])
        invariant forall o :: 0 <= o < out ==> arbiters[o].ptr == numInputs
      {
        ResetLane(out);
      }
      assert inputQueues.contents == Repeat(numInputs, []) && outputQueues.contents == Repeat(numOutputs, []);
    }

    /** One iteration of the output loop of `reset`: output queues and arbiter out reset. */
    method ResetLane(out: nat)
      requires QueuesValid() && ArbitersValid() && out < numOutputs
      modifies arbiters[out], outputQueues, outputQueues.head, outputQueues.tail, outputQueues.lastPush
      ensures QueuesValid() && ArbitersValid()
      ensures outputQueues.contents == seq(numOutputs, o => []) && inputQueues.contents == old(inputQueues.contents)
      ensures arbiters[out].ptr == numInputs
      ensures forall o :: 0 <= o < numOutputs && o != out ==> arbiters[o].ptr == old(arbiters[o].ptr)
    {
      outputQueues.Reset();
      ResetArbiter(out);
    }

    /** Resets arbiter out; the other arbiters are untouched. */
    method ResetArbiter(out: nat)
      requires ArbitersValid() && out < numOutputs
      modifies arbiters[out]
      ensures ArbitersValid() && arbiters[out].ptr == numInputs
      ensures forall o :: 0 <= o < numOutputs && o != out ==> arbiters[o].ptr == old(arbiters[o].ptr)
    {
      arbiters[out].Reset();
    }

    /** `isInputEmpty(index)`. */
    function IsInputEmpty(index: nat): (r: bool)
      requires QueuesValid() && index < numInputs
      reads this, inputQueues, inputQueues.head, inputQueues.tail, inputQueues.lastPush, inputQueues.body
      reads outputQueues, outputQueues.head, outputQueues.tail, outputQueues.lastPush, outputQueues.body
      ensures r <==> |inputQueues.contents[index]| == 0
    {
      inputQueues.IsEmpty(index)
    }

    /** `isOutputEmpty(index)`. */
    function IsOutputEmpty(index: nat): (r: bool)
      requires QueuesValid() && index < numOutputs
      reads this, inputQueues, inputQueues.head, inputQueues.tail, inputQueues.lastPush, inputQueues.body
      reads outputQueues, outputQueues.head, outputQueues.tail, outputQueues.lastPush, outputQueues.body
      ensures r <==> |outputQueues.contents[index]| == 0
    {
      outputQueues.IsEmpty(index)
    }

    /** `isInputFull(index)`. */
    function IsInputFull(index: nat): (r: bool)
      requires QueuesValid() && index < numInputs
      reads this, inputQueues, inputQueues.head, inputQueues.tail, inputQueues.lastPush, inputQueues.body
      reads outputQueues, outputQueues.head, outputQueues.tail, outputQueues.lastPush, outputQueues.body
      ensures r <==> |inputQueues.contents[index]| == QueueLen(lenInputBuffer)
      ensures |inputQueues.contents[index]| <= QueueLen(lenInputBuffer)
    {
      assert inputQueues.BankValid(index);
      inputQueues.IsFull(index)
    }

    /** `isOutputFull(index)`. */
    function IsOutputFull(index: nat): (r: bool)
      requires QueuesValid() && index < numOutputs
      reads this, inputQueues, inputQueues.head, inputQueues.tail, inputQueues.lastPush, inputQueues.body
      reads outputQueues, outputQueues.head, outputQueues.tail, outputQueues.lastPush, outputQueues.body
      ensures r <==> |outputQueues.contents[index]| == QueueLen(lenOutputBuffer)
      ensures |outputQueues.contents[index]| <= QueueLen(lenOutputBuffer)
    {
      assert outputQueues.BankValid(index);
      outputQueues.IsFull(index)
    }

    /** `push(data, dest, src)`: data for output dest joins the queue of input src. */
    method Push(data: T, dest: nat, src: nat)
      requires QueuesValid() && lenInputBuffer > 0 && src < numInputs
      requires |inputQueues.contents[src]| < lenInputBuffer
      modifies inputQueues, inputQueues.tail, inputQueues.lastPush, inputQueues.body
      ensures QueuesValid()
      ensures inputQueues.contents == old(inputQueues.contents)[src := old(inputQueues.contents[src]) + [DataDest(data, dest)]]
      ensures outputQueues.contents == old(outputQueues.contents)
    {
      inputQueues.Push(DataDest(data, dest), src);
    }

    /** `peek(index)`: the head of output queue index. */
    function Peek(index: nat): (r: T)
      requires QueuesValid() && lenOutputBuffer > 0 && index < numOutputs && |outputQueues.contents[index]| > 0
      reads this, inputQueues, inputQueues.head, inputQueues.tail, inputQueues.lastPush, inputQueues.body
      reads outputQueues, outputQueues.head, outputQueues.tail, outputQueues.lastPush, outputQueues.body
      ensures r == outputQueues.contents[index][0]
    {
      outputQueues.Peek(index)
    }

    /** `pop(index)`: removes and returns the head of output queue index. */
    method Pop(index: nat) returns (r: T)
      requires QueuesValid() && lenOutputBuffer > 0 && index < numOutputs && |outputQueues.contents[index]| > 0
      modifies outputQueues, outputQueues.head, outputQueues.lastPush
      ensures QueuesValid()
      ensures r == old(outputQueues.contents[index][0])
      ensures outputQueues.contents == old(outputQueues.contents)[index := old(outputQueues.contents[index])[1..]]
      ensures inputQueues.contents == old(inputQueues.contents)
    {
      r := outputQueues.Pop(index);
    }

    /** `isAllInputEmpty()`: the AND of `isInputEmpty` over the inputs. */
    method IsAllInputEmpty() returns (r: bool)
      requires QueuesValid()
      ensures r <==> forall i :: 0 <= i < numInputs ==> |inputQueues.contents[i]| == 0
    {
      r := true;
      for i := 0 to numInputs
        invariant r <==> forall j :: 0 <= j < i ==> |inputQueues.contents[j]| == 0
      {
        r := r && IsInputEmpty(i);
      }
    }

    /** `isAllOutputEmpty()`: the AND of `isOutputEmpty` over the outputs. */
    method IsAllOutputEmpty() returns (r: bool)
      requires QueuesValid()
      ensures r <==> forall o :: 0 <= o < numOutputs ==> |outputQueues.contents[o]| == 0
    {
      r := true;
      for o := 0 to numOutputs
        invariant r <==> forall j :: 0 <= j < o ==> |outputQueues.contents[j]| == 0
      {
        r := r && IsOutputEmpty(o);
      }
    }

    /** `isAllInputReady()`: no input queue is full. */
    method IsAllInputReady() returns (r: bool)
      requires QueuesValid()
      ensures r <==> forall i :: 0 <= i < numInputs ==> |inputQueues.contents[i]| < QueueLen(lenInputBuffer)
    {
      r := true;
      for i := 0 to numInputs
        invariant r <==> forall j :: 0 <= j < i ==> |inputQueues.contents[j]| < QueueLen(lenInputBuffer)
      {
        r := r && !IsInputFull(i);
      }
    }

    /** `pop_all_lanes(valid_out)`: pops every output queue whose valid bit is set. */
    method PopAllLanes(validOut: seq<bool>)
      requires QueuesValid() && lenOutputBuffer > 0 && |validOut| == numOutputs
      requires forall o :: 0 <= o < numOutputs && validOut[o] ==> |outputQueues.contents[o]| > 0
      modifies outputQueues, outputQueues.head, outputQueues.lastPush
      ensures QueuesValid()
      ensures outputQueues.contents == Consume(old(outputQueues.contents), validOut)
      ensures inputQueues.contents == old(inputQueues.contents)
    {
      ghost var q0 := outputQueues.contents;
      for o := 0 to numOutputs
        invariant QueuesValid()
        invariant |outputQueues.contents| == numOutputs
        invariant forall j :: 0 <= j < o ==> outputQueues.contents[j] == Consume(q0, validOut)[j]
        invariant forall j :: o <= j < numOutputs ==> outputQueues.contents[j] == q0[j]
        invariant inputQueues.contents == old(inputQueues.contents)
      {
        if validOut[o] {
          var _ := outputQueues.Pop(o);
        }
      }
    }

    /** One iteration of the input loop of `run` with input queues: lane i accepts and shows its head. */
    method InputLane(i: nat, data: T, dest: nat, valid: bool, ready: array<bool>, zero: T)
      returns (d: DataDest<T>, v: bool)
      requires QueuesValid() && lenInputBuffer > 0 && i < numInputs && i < ready.Length && ready !in QueueRepr()
      modifies inputQueues, inputQueues.tail, inputQueues.lastPush, inputQueues.body, ready
      ensures QueuesValid()
      ensures var c := old(inputQueues.contents[i]);
        var c' := if |c| < lenInputBuffer && valid then c + [DataDest(data, dest)] else c;
        && inputQueues.contents == old(inputQueues.contents)[i := c']
        && ready[..] == old(ready[..])[i := |c| < lenInputBuffer || !valid]
        && v == (|c'| > 0) && d == (if |c'| > 0 then c'[0] else DataDest(zero, 0))
      ensures outputQueues.contents == old(outputQueues.contents)
    {
      var full := IsInputFull(i);
      ready[i] := !full || !valid;
      if !full && valid {
        Push(data, dest, i);
      }
      v := !IsInputEmpty(i);
      d := DataDest(zero, 0);
      if v {
        d := inputQueues.Peek(i);
      }
    }

    /**
     * The input stage of `run` with input queues: every valid input whose
     * queue has room joins it, `ready` says whether it could, and the
     * crossbar sees the queue heads.
     */
    method InputStage(dataIn: seq<T>, destIn: seq<nat>, validIn: seq<bool>, ready: array<bool>, zero: T)
      returns (inputData: seq<DataDest<T>>, inputValid: seq<bool>)
      requires QueuesValid() && lenInputBuffer > 0
      requires |dataIn| == numInputs && |destIn| == numInputs && |validIn| == numInputs && ready.Length == numInputs
      requires ready !in QueueRepr()
      modifies inputQueues, inputQueues.tail, inputQueues.lastPush, inputQueues.body, ready
      ensures QueuesValid()
      ensures inputQueues.contents == Accept(old(inputQueues.contents), lenInputBuffer, dataIn, destIn, validIn)
      ensures outputQueues.contents == old(outputQueues.contents)
      ensures ready[..] == ReadyIn(old(inputQueues.contents), lenInputBuffer, validIn)
      ensures inputData == Heads(inputQueues.contents, zero) && inputValid == NonEmpty(inputQueues.contents)
    {
      ghost var q0 := inputQueues.contents;
      ghost var q1 := Accept(q0, lenInputBuffer, dataIn, destIn, validIn);
      ghost var rdy := ReadyIn(q0, lenInputBuffer, validIn);
      inputData, inputValid := [], [];
      assert q1[..0] + q0[0..] == q0;
      for i := 0 to numInputs
        invariant QueuesValid()
        invariant outputQueues.contents == old(outputQueues.contents)
        invariant inputQueues.contents == q1[..i] + q0[i..]
        invariant ready.Length == numInputs && ready[..i] == rdy[..i]
        invariant inputData == Heads(q1, zero)[..i] && inputValid == NonEmpty(q1)[..i]
      {
        ghost var r0 := ready[..];
        AcceptLane(q0, lenInputBuffer, dataIn, destIn, validIn, i, zero);
        var d, v := InputLane(i, dataIn[i], destIn[i], validIn[i], ready, zero);
        SetPrefix(r0, rdy, i, rdy[i]);
        inputData, inputValid := inputData + [d], inputValid + [v];
      }
      assert q1[..numInputs] + q0[numInputs..] == q1;
      assert ready[..numInputs] == ready[..] && rdy[..numInputs] == rdy;
      assert Heads(q1, zero)[..numInputs] == Heads(q1, zero) && NonEmpty(q1)[..numInputs] == NonEmpty(q1);
    }

    /** `output_ready`: an output is ready when its queue is not full, always without output queues. */
    method OutputReadyStage() returns (outputReady: seq<bool>)
      requires QueuesValid()
      ensures outputReady == OutputReady(outputQueues.contents, lenOutputBuffer)
    {
      outputReady := [];
      if lenOutputBuffer > 0 {
        for out := 0 to numOutputs
          invariant |outputReady| == out
          invariant forall o :: 0 <= o < out ==> outputReady[o] == OutputReady(outputQueues.contents, lenOutputBuffer)[o]
        {
          outputReady := outputReady + [!IsOutputFull(out)];
        }
      } else {
        for out := 0 to numOutputs
          invariant |outputReady| == out && forall o :: 0 <= o < out ==> outputReady[o]
        {
          outputReady := outputReady + [true];
        }
      }
    }

    /** The `incrHead` loop of `run`: every consumed input queue drops its head, once. */
    method ConsumeInputs(consumed: seq<bool>)
      requires QueuesValid() && |consumed| == numInputs
      requires forall i :: 0 <= i < numInputs && consumed[i] ==> |inputQueues.contents[i]| > 0
      modifies inputQueues, inputQueues.head, inputQueues.lastPush
      ensures QueuesValid()
      ensures inputQueues.contents == Consume(old(inputQueues.contents), consumed)
      ensures outputQueues.contents == old(outputQueues.contents)
    {
      ghost var q0 := inputQueues.contents;
      for i := 0 to numInputs
        invariant QueuesValid()
        invariant outputQueues.contents == old(outputQueues.contents)
        invariant |inputQueues.contents| == numInputs
        invariant forall j :: 0 <= j < numInputs ==>
          inputQueues.contents[j] == if j < i then Consume(q0, consumed)[j] else q0[j]
      {
        if consumed[i] {
          inputQueues.IncrHead(i);
        }
      }
    }

    /** One iteration of the output loop of `run` with output queues. */
    method OutputLane(out: nat, data: T, valid: bool, dataOut: array<T>, validOut: array<bool>)
      requires QueuesValid() && lenOutputBuffer > 0 && out < numOutputs && out < dataOut.Length && out < validOut.Length
      requires valid ==> |outputQueues.contents[out]| < lenOutputBuffer
      requires dataOut !in QueueRepr() && validOut !in QueueRepr() && dataOut as object != validOut
      modifies outputQueues, outputQueues.tail, outputQueues.lastPush, outputQueues.body, dataOut, validOut
      ensures QueuesValid()
      ensures var c := old(outputQueues.contents[out]);
        var c' := if valid then c + [data] else c;
        && outputQueues.contents == old(outputQueues.contents)[out := c']
        && validOut[..] == old(validOut[..])[out := |c'| > 0]
        && dataOut[..] == old(dataOut[..])[out := if |c'| > 0 then c'[0] else old(dataOut[out])]
      ensures inputQueues.contents == old(inputQueues.contents)
    {
      if valid {
        outputQueues.Push(data, out);
      }
      validOut[out] := !IsOutputEmpty(out);
      if !IsOutputEmpty(out) {
        dataOut[out] := Peek(out);
      }
    }

    /**
     * The output stage of `run` with output queues: every forwarded datum
     * joins its output queue, and each output shows the head of its queue.
     */
    method OutputStage(outputData: seq<T>, outputValid: seq<bool>, dataOut: array<T>, validOut: array<bool>)
      requires QueuesValid() && lenOutputBuffer > 0
      requires |outputData| == numOutputs && |outputValid| == numOutputs
      requires dataOut.Length == numOutputs && validOut.Length == numOutputs
      requires forall o :: 0 <= o < numOutputs && outputValid[o] ==> |outputQueues.contents[o]| < lenOutputBuffer
      requires dataOut !in QueueRepr() && validOut !in QueueRepr() && dataOut as object != validOut
      modifies outputQueues, outputQueues.tail, outputQueues.lastPush, outputQueues.body, dataOut, validOut
      ensures QueuesValid()
      ensures outputQueues.contents == Enqueue(old(outputQueues.contents), outputValid, outputData)
      ensures validOut[..] == NonEmpty(outputQueues.contents)
      ensures dataOut[..] == HeadsOr(outputQueues.contents, old(dataOut[..]))
      ensures inputQueues.contents == old(inputQueues.contents)
    {
      ghost var q0, d0 := outputQueues.contents, dataOut[..];
      ghost var q1 := Enqueue(q0, outputValid, outputData);
      for out := 0 to numOutputs
        invariant QueuesValid()
        invariant inputQueues.contents == old(inputQueues.contents)
        invariant |outputQueues.contents| == numOutputs
        invariant forall o :: 0 <= o < numOutputs ==> outputQueues.contents[o] == if o < out then q1[o] else q0[o]
        invariant forall o :: 0 <= o < out ==> validOut[o] == NonEmpty(q1)[o] && dataOut[o] == HeadsOr(q1, d0)[o]
        invariant forall o :: out <= o < numOutputs ==> dataOut[o] == d0[o]
      {
        OutputLane(out, outputData[out], outputValid[out], dataOut, validOut);
      }
      assert outputQueues.contents == q1;
    }

    /** A fresh array of n copies of v: the local `output_data` and `output_valid` of `run`. */
    static method Filled<U>(n: nat, v: U) returns (a: array<U>)
      ensures fresh(a) && a[..] == seq(n, o => v)
    {
      a := new U[n](o => v);
      assert a[..] == seq(n, o => v);
    }

    /** The element-by-element copy loops of `run`. */
    static method Copy<U>(src: seq<U>, dst: array<U>)
      requires dst.Length == |src|
      modifies dst
      ensures dst[..] == src
    {
      for i := 0 to |src|
        invariant forall j :: 0 <= j < i ==> dst[j] == src[j]
      {
        dst[i] := src[i];
      }
    }

    /** The input stage of `run`: `InputStage` with input queues, else the inputs themselves. */
    method Inputs(dataIn: seq<T>, destIn: seq<nat>, validIn: seq<bool>, ready: array<bool>, zero: T)
      returns (inputData: seq<DataDest<T>>, inputValid: seq<bool>)
      requires Valid()
      requires |dataIn| == numInputs && |destIn| == numInputs && |validIn| == numInputs && ready.Length == numInputs
      requires ready !in QueueRepr()
      modifies inputQueues, inputQueues.tail, inputQueues.lastPush, inputQueues.body, ready
      ensures Valid() && Ptrs() == old(Ptrs())
      ensures inputQueues.contents == Accepted(lenInputBuffer, old(inputQueues.contents), dataIn, destIn, validIn)
      ensures outputQueues.contents == old(outputQueues.contents)
      ensures ready[..] == if lenInputBuffer > 0 then ReadyIn(old(inputQueues.contents), lenInputBuffer, validIn) else old(ready[..])
      ensures (inputData, inputValid) == InputView(lenInputBuffer, inputQueues.contents, dataIn, destIn, validIn, zero)
    {
      if lenInputBuffer > 0 {
        inputData, inputValid := InputStage(dataIn, destIn, validIn, ready, zero);
      } else {
        inputData, inputValid := Direct(dataIn, destIn), validIn;
      }
    }

    /** `output_ready` and `xbar` of `run`: the grants of all outputs on what the inputs show. */
    method Cross(inputData: seq<DataDest<T>>, inputValid: seq<bool>, source: array<nat>, zero: T)
      returns (outputData: seq<T>, outputValid: seq<bool>, consumed: seq<bool>)
      requires Valid() && |inputData| == numInputs && |inputValid| == numInputs
      requires source.Length == numOutputs && source !in QueueRepr()
      modifies arbiters, source
      ensures Valid()
      ensures var g := Grants(inputData, inputValid, OutputReady(outputQueues.contents, lenOutputBuffer), old(Ptrs()));
        && Ptrs() == NewPtrs(g, old(Ptrs()), numInputs)
        && outputValid == Forwarded(g)
        && outputData == Forward(g, inputData, seq(numOutputs, o => zero))
        && source[..] == Sources(g, old(source[..]))
        && consumed == Consumed(g, numInputs)
      ensures inputQueues.contents == old(inputQueues.contents) && outputQueues.contents == old(outputQueues.contents)
    {
      var outputReady := OutputReadyStage();
      outputData, outputValid, consumed := XbarFresh(inputData, inputValid, outputReady, source, zero);
    }

    /** `xbar` on the zero-initialised `output_data` of `run`. */
    method XbarFresh(inputData: seq<DataDest<T>>, inputValid: seq<bool>, outputReady: seq<bool>, source: array<nat>, zero: T)
      returns (outputData: seq<T>, outputValid: seq<bool>, consumed: seq<bool>)
      requires ArbitersValid() && |inputData| == numInputs && |inputValid| == numInputs && |outputReady| == numOutputs
      requires source.Length == numOutputs
      modifies arbiters, source
      ensures ArbitersValid()
      ensures var g := Grants(inputData, inputValid, outputReady, old(Ptrs()));
        && Ptrs() == NewPtrs(g, old(Ptrs()), numInputs)
        && outputValid == Forwarded(g)
        && outputData == Forward(g, inputData, seq(numOutputs, o => zero))
        && source[..] == Sources(g, old(source[..]))
        && consumed == Consumed(g, numInputs)
    {
      var dataArr := Filled(numOutputs, zero);
      var validArr := Filled(numOutputs, false);
      consumed := Xbar(inputData, inputValid, outputReady, dataArr, validArr, source);
      outputData, outputValid := dataArr[..], validArr[..];
    }

    /** The consumption stage of `run`: pop the consumed input queues, or report `ready` without them. */
    method Consumption(consumed: seq<bool>, ready: array<bool>)
      requires Valid() && |consumed| == numInputs && ready.Length == numInputs && ready !in QueueRepr()
      requires forall i :: 0 <= i < numInputs && consumed[i] && lenInputBuffer > 0 ==> |inputQueues.contents[i]| > 0
      modifies inputQueues, inputQueues.head, inputQueues.lastPush, ready
      ensures Valid() && Ptrs() == old(Ptrs())
      ensures inputQueues.contents == if lenInputBuffer > 0
        then Consume(old(inputQueues.contents), consumed) else old(inputQueues.contents)
      ensures outputQueues.contents == old(outputQueues.contents)
      ensures ready[..] == if lenInputBuffer > 0 then old(ready[..]) else consumed
    {
      if lenInputBuffer > 0 {
        ConsumeInputs(consumed);
      } else {
        Copy(consumed, ready);
      }
    }

    /** The output stage of `run`: through the output queues, or straight to the outputs without them. */
    method Outputs(outputData: seq<T>, outputValid: seq<bool>, dataOut: array<T>, validOut: array<bool>)
      requires Valid() && |outputData| == numOutputs && |outputValid| == numOutputs
      requires dataOut.Length == numOutputs && validOut.Length == numOutputs
      requires forall o :: 0 <= o < numOutputs && outputValid[o] && lenOutputBuffer > 0 ==>
        |outputQueues.contents[o]| < lenOutputBuffer
      requires dataOut !in QueueRepr() && validOut !in QueueRepr() && dataOut as object != validOut
      modifies outputQueues, outputQueues.tail, outputQueues.lastPush, outputQueues.body, dataOut, validOut
      ensures Valid() && Ptrs() == old(Ptrs())
      ensures outputQueues.contents == if lenOutputBuffer > 0
        then Enqueue(old(outputQueues.contents), outputValid, outputData) else old(outputQueues.contents)
      ensures inputQueues.contents == old(inputQueues.contents)
      ensures dataOut[..] == if lenOutputBuffer > 0 then HeadsOr(outputQueues.contents, old(dataOut[..])) else outputData
      ensures validOut[..] == if lenOutputBuffer > 0 then NonEmpty(outputQueues.contents) else outputValid
    {
      if lenOutputBuffer > 0 {
        OutputStage(outputData, outputValid, dataOut, validOut);
      } else {
        Copy(outputData, dataOut);
        Copy(outputValid, validOut);
      }
    }

    /** The first half of `run`: the input stage and the crossbar. */
    method Front(dataIn: seq<T>, destIn: seq<nat>, validIn: seq<bool>, ready: array<bool>, source: array<nat>, zero: T)
      returns (outputData: seq<T>, outputValid: seq<bool>, consumed: seq<bool>)
      requires Valid()
      requires |dataIn| == numInputs && |destIn| == numInputs && |validIn| == numInputs
      requires source.Length == numOutputs && ready.Length == numInputs
      requires ready !in QueueRepr() && source !in QueueRepr()
      modifies arbiters, inputQueues, inputQueues.tail, inputQueues.lastPush, inputQueues.body, ready, source
      ensures Valid()
      ensures var inq1 := Accepted(lenInputBuffer, old(inputQueues.contents), dataIn, destIn, validIn);
        var view := InputView(lenInputBuffer, inq1, dataIn, destIn, validIn, zero);
        var g := Grants(view.0, view.1, OutputReady(outputQueues.contents, lenOutputBuffer), old(Ptrs()));
        && inputQueues.contents == inq1
        && Ptrs() == NewPtrs(g, old(Ptrs()), numInputs)
        && outputValid == Forwarded(g)
        && outputData == Forward(g, view.0, seq(numOutputs, o => zero))
        && source[..] == Sources(g, old(source[..]))
        && consumed == Consumed(g, numInputs)
        && (forall i :: 0 <= i < numInputs && consumed[i] && lenInputBuffer > 0 ==> |inq1[i]| > 0)
        && (forall o :: 0 <= o < numOutputs && outputValid[o] && lenOutputBuffer > 0 ==>
              |outputQueues.contents[o]| < lenOutputBuffer)
      ensures outputQueues.contents == old(outputQueues.contents)
      ensures ready[..] == if lenInputBuffer > 0 then ReadyIn(old(inputQueues.contents), lenInputBuffer, validIn) else old(ready[..])
    {
      ghost var p0 := Ptrs();
      var inputData, inputValid := Inputs(dataIn, destIn, validIn, ready, zero);
      outputData, outputValid, consumed := Cross(inputData, inputValid, source, zero);
      ConsumedValid(inputData, inputValid, OutputReady(outputQueues.contents, lenOutputBuffer), p0);
    }

    /** The second half of `run`: the consumption of the granted inputs and the output stage. */
    method Back(consumed: seq<bool>, outputData: seq<T>, outputValid: seq<bool>,
                dataOut: array<T>, validOut: array<bool>, ready: array<bool>)
      requires Valid() && |consumed| == numInputs && |outputData| == numOutputs && |outputValid| == numOutputs
      requires dataOut.Length == numOutputs && validOut.Length == numOutputs && ready.Length == numInputs
      requires forall i :: 0 <= i < numInputs && consumed[i] && lenInputBuffer > 0 ==> |inputQueues.contents[i]| > 0
      requires forall o :: 0 <= o < numOutputs && outputValid[o] && lenOutputBuffer > 0 ==>
        |outputQueues.contents[o]| < lenOutputBuffer
      requires validOut != ready && dataOut as object != validOut && dataOut as object != ready
      requires dataOut !in QueueRepr() && validOut !in QueueRepr() && ready !in QueueRepr()
      modifies inputQueues, inputQueues.head, inputQueues.lastPush
      modifies outputQueues, outputQueues.tail, outputQueues.lastPush, outputQueues.body, dataOut, validOut, ready
      ensures Valid() && Ptrs() == old(Ptrs())
      ensures inputQueues.contents == if lenInputBuffer > 0
        then Consume(old(inputQueues.contents), consumed) else old(inputQueues.contents)
      ensures ready[..] == if lenInputBuffer > 0 then old(ready[..]) else consumed
      ensures outputQueues.contents == if lenOutputBuffer > 0
        then Enqueue(old(outputQueues.contents), outputValid, outputData) else old(outputQueues.contents)
      ensures dataOut[..] == if lenOutputBuffer > 0 then HeadsOr(outputQueues.contents, old(dataOut[..])) else outputData
      ensures validOut[..] == if lenOutputBuffer > 0 then NonEmpty(outputQueues.contents) else outputValid
    {
      Consumption(consumed, ready);
      Outputs(outputData, outputValid, dataOut, validOut);
    }

    /**
     * `run(data_in, dest_in, valid_in, data_out, valid_out, ready, source)`:
     * one cycle of the arbitrated crossbar, the input stage, the crossbar,
     * the consumption of the granted inputs and the output stage.
     */
    method Run(dataIn: seq<T>, destIn: seq<nat>, validIn: seq<bool>,
               dataOut: array<T>, validOut: array<bool>, ready: array<bool>, source: array<nat>, zero: T)
      requires Valid()
      requires |dataIn| == numInputs && |destIn| == numInputs && |validIn| == numInputs
      requires dataOut.Length == numOutputs && validOut.Length == numOutputs && source.Length == numOutputs
      requires ready.Length == numInputs
      requires validOut != ready && dataOut as object != validOut && dataOut as object != ready && dataOut as object != source
      requires dataOut !in QueueRepr() && validOut !in QueueRepr() && ready !in QueueRepr() && source !in QueueRepr()
      modifies arbiters, inputQueues, inputQueues.head, inputQueues.tail, inputQueues.lastPush, inputQueues.body
      modifies outputQueues, outputQueues.head, outputQueues.tail, outputQueues.lastPush, outputQueues.body
      modifies dataOut, validOut, ready, source
      ensures Valid()
      ensures Step(inputQueues.contents, outputQueues.contents, Ptrs(), dataOut[..], validOut[..], ready[..], source[..])
        == RunStep(lenInputBuffer, lenOutputBuffer, numInputs, old(inputQueues.contents), old(outputQueues.contents),
                   old(Ptrs()), dataIn, destIn, validIn, old(dataOut[..]), old(source[..]), zero)
    {
      var outputData, outputValid, consumed := Front(dataIn, destIn, validIn, ready, source, zero);
      Back(consumed, outputData, outputValid, dataOut, validOut, ready);
    }

    /** A fresh array of n zeros, the local `source` of the six-argument `run`. */
    static method Zeroed(n: nat) returns (a: array<nat>)
      ensures fresh(a) && a[..] == Repeat(n, 0)
    {
      a := new nat[n](o => 0);
      assert a[..] == Repeat(n, 0);
    }

    /** Fresh `data_out`, `valid_out` and `ready` arrays, `data_out` filled with zero. */
    static method OutputArrays(numOutputs: nat, numInputs: nat, zero: T)
      returns (dataOut: array<T>, validOut: array<bool>, ready: array<bool>)
      ensures fresh(dataOut) && fresh(validOut) && fresh(ready)
      ensures validOut != ready && dataOut as object != validOut && dataOut as object != ready
      ensures dataOut.Length == numOutputs && validOut.Length == numOutputs && ready.Length == numInputs
      ensures dataOut[..] == Repeat(numOutputs, zero)
    {
      dataOut := new T[numOutputs](o => zero);
      validOut := new bool[numOutputs](o => false);
      ready := new bool[numInputs](i => false);
      assert dataOut[..] == Repeat(numOutputs, zero);
    }

    /** The six-argument `run`: a local `source` array receives the source entries. */
    method RunWithoutSource(dataIn: seq<T>, destIn: seq<nat>, validIn: seq<bool>,
                            dataOut: array<T>, validOut: array<bool>, ready: array<bool>, zero: T)
      requires Valid()
      requires |dataIn| == numInputs && |destIn| == numInputs && |validIn| == numInputs
      requires dataOut.Length == numOutputs && validOut.Length == numOutputs && ready.Length == numInputs
      requires validOut != ready && dataOut as object != validOut && dataOut as object != ready
      requires dataOut !in QueueRepr() && validOut !in QueueRepr() && ready !in QueueRepr()
      modifies arbiters, inputQueues, inputQueues.head, inputQueues.tail, inputQueues.lastPush, inputQueues.body
      modifies outputQueues, outputQueues.head, outputQueues.tail, outputQueues.lastPush, outputQueues.body
      modifies dataOut, validOut, ready
      ensures Valid()
      ensures var r := RunStep(lenInputBuffer, lenOutputBuffer, numInputs, old(inputQueues.contents),
                               old(outputQueues.contents), old(Ptrs()), dataIn, destIn, validIn, old(dataOut[..]),
                               Repeat(numOutputs, 0), zero);
        && inputQueues.contents == r.inq && outputQueues.contents == r.outq && Ptrs() == r.ptrs
        && dataOut[..] == r.dataOut && validOut[..] == r.validOut && ready[..] == r.ready
    {
      var source := Zeroed(numOutputs);
      Run(dataIn, destIn, validIn, dataOut, validOut, ready, source, zero);
    }

    /**
     * The six-argument `run` as a caller with local output arrays makes it:
     * `data_out` starts as `zero` everywhere, and the arrays' final contents
     * are returned.
     */
    method RunFresh(dataIn: seq<T>, destIn: seq<nat>, validIn: seq<bool>, zero: T)
      returns (dataOut: seq<T>, validOut: seq<bool>, ready: seq<bool>)
      requires Valid()
      requires |dataIn| == numInputs && |destIn| == numInputs && |validIn| == numInputs
      modifies arbiters, inputQueues, inputQueues.head, inputQueues.tail, inputQueues.lastPush, inputQueues.body
      modifies outputQueues, outputQueues.head, outputQueues.tail, outputQueues.lastPush, outputQueues.body
      ensures Valid()
      ensures var r := RunStep(lenInputBuffer, lenOutputBuffer, numInputs, old(inputQueues.contents),
                               old(outputQueues.contents), old(Ptrs()), dataIn, destIn, validIn, Repeat(numOutputs, zero),
                               Repeat(numOutputs, 0), zero);
        && inputQueues.contents == r.inq && outputQueues.contents == r.outq && Ptrs() == r.ptrs
        && dataOut == r.dataOut && validOut == r.validOut && ready == r.ready
    {
      ghost var inq0, outq0, ptrs0 := inputQueues.contents, outputQueues.contents, Ptrs();
      var dataArr, validArr, readyArr := OutputArrays(numOutputs, numInputs, zero);
      assert inputQueues.contents == inq0 && outputQueues.contents == outq0 && Ptrs() == ptrs0;
      RunWithoutSource(dataIn, destIn, validIn, dataArr, validArr, readyArr, zero);
      dataOut, validOut, ready := dataArr[..], validArr[..], readyArr[..];
    }

    /**
     * The seven-argument `run` as a caller with local output arrays makes it,
     * keeping the `source` entries as well.
     */
    method RunFreshWithSource(dataIn: seq<T>, destIn: seq<nat>, validIn: seq<bool>, zero: T)
      returns (dataOut: seq<T>, validOut: seq<bool>, ready: seq<bool>, source: seq<nat>)
      requires Valid()
      requires |dataIn| == numInputs && |destIn| == numInputs && |validIn| == numInputs
      modifies arbiters, inputQueues, inputQueues.head, inputQueues.tail, inputQueues.lastPush, inputQueues.body
      modifies outputQueues, outputQueues.head, outputQueues.tail, outputQueues.lastPush, outputQueues.body
      ensures Valid()
      ensures var r := RunStep(lenInputBuffer, lenOutputBuffer, numInputs, old(inputQueues.contents),
                               old(outputQueues.contents), old(Ptrs()), dataIn, destIn, validIn, Repeat(numOutputs, zero),
                               Repeat(numOutputs, 0), zero);
        && inputQueues.contents == r.inq && outputQueues.contents == r.outq && Ptrs() == r.ptrs
        && dataOut == r.dataOut && validOut == r.validOut && ready == r.ready && source == r.source
    {
      ghost var inq0, outq0, ptrs0 := inputQueues.contents, outputQueues.contents, Ptrs();
      var dataArr, validArr, readyArr := OutputArrays(numOutputs, numInputs, zero);
      assert inputQueues.contents == inq0 && outputQueues.contents == outq0 && Ptrs() == ptrs0;
      source := RunKeepSource(dataIn, destIn, validIn, dataArr, validArr, readyArr, zero);
      dataOut, validOut, ready := dataArr[..], validArr[..], readyArr[..];
    }

    /** The seven-argument `run` with a local `source` array, whose entries are returned. */
    method RunKeepSource(dataIn: seq<T>, destIn: seq<nat>, validIn: seq<bool>,
                         dataOut: array<T>, validOut: array<bool>, ready: array<bool>, zero: T) returns (source: seq<nat>)
      requires Valid()
      requires |dataIn| == numInputs && |destIn| == numInputs && |validIn| == numInputs
      requires dataOut.Length == numOutputs && validOut.Length == numOutputs && ready.Length == numInputs
      requires validOut != ready && dataOut as object != validOut && dataOut as object != ready
      requires dataOut !in QueueRepr() && validOut !in QueueRepr() && ready !in QueueRepr()
      modifies arbiters, inputQueues, inputQueues.head, inputQueues.tail, inputQueues.lastPush, inputQueues.body
      modifies outputQueues, outputQueues.head, outputQueues.tail, outputQueues.lastPush, outputQueues.body
      modifies dataOut, validOut, ready
      ensures Valid()
      ensures var r := RunStep(lenInputBuffer, lenOutputBuffer, numInputs, old(inputQueues.contents),
                               old(outputQueues.contents), old(Ptrs()), dataIn, destIn, validIn, old(dataOut[..]),
                               Repeat(numOutputs, 0), zero);
        && inputQueues.contents == r.inq && outputQueues.contents == r.outq && Ptrs() == r.ptrs
        && dataOut[..] == r.dataOut && validOut[..] == r.validOut && ready[..] == r.ready && source == r.source
    {
      var sourceArr := Zeroed(numOutputs);
      Run(dataIn, destIn, validIn, dataOut, validOut, ready, sourceArr, zero);
      source := sourceArr[..];
    }
  }
}
