/**
 * `ScratchpadClass` of `Scratchpad.h`: N request lanes over N banks of a
 * `mem_array_sep`.  Lane i targets the bank named by the low `NBANKS_LOG2`
 * bits of its address, at the in-bank address given by the remaining bits.
 * A request crossbar steers every lane to its bank, each bank loads or
 * stores, and a response crossbar steers the loaded words back to the
 * lanes.  All N lanes of one call must target distinct banks.
 */
module Scratchpad {
  import opened Bits
  import opened NvhlsInt
  import opened MemArray
  import opened BankWords
  import Crossbar

  datatype Opcode = LOAD | STORE

  /** `cli_req_t`: opcode, one valid bit, address and data word per lane. */
  datatype CliReq = CliReq(opcode: Opcode, valids: seq<bool>, addr: seq<Bits>, data: seq<Bits>)

  /** `cli_rsp_t`: one valid bit and data word per lane. */
  datatype CliRsp = CliRsp(valids: seq<bool>, data: seq<Bits>)

  /** `bank_req_t`: the in-bank address and the word to store. */
  datatype BankReq = BankReq(addr: nat, wdata: Bits)

  // ---------------------------------------------------------------------
  // Addresses
  // ---------------------------------------------------------------------

  /** `get_slc<NBANKS_LOG2>(addr, 0)`: the bank of an address. */
  function BankSel(a: Bits, k: nat): (r: nat)
    requires k <= |a|
    ensures r < Pow2(k)
  {
    ToNat(GetSlc(a, 0, k))
  }

  /** `get_slc<ADDR_WIDTH - NBANKS_LOG2>(addr, NBANKS_LOG2)`: the address inside the bank. */
  function BankAddr(a: Bits, k: nat): (r: nat)
    requires k <= |a|
    ensures r < Pow2(|a| - k)
  {
    ToNat(GetSlc(a, k, |a| - k))
  }

  /** Bank and in-bank address together are the address: `addr = bank + 2^NBANKS_LOG2 * bank_addr`. */
  lemma AddressSplit(a: Bits, k: nat)
    requires k <= |a|
    ensures ToNat(a) == BankSel(a, k) + Pow2(k) * BankAddr(a, k)
  {
    assert a == GetSlc(a, 0, k) + GetSlc(a, k, |a| - k);
    ToNatAppend(GetSlc(a, 0, k), GetSlc(a, k, |a| - k));
  }

  /** So two addresses of one width with the same bank and in-bank address are equal. */
  lemma AddressSplitInjective(a: Bits, a': Bits, k: nat)
    requires k <= |a| == |a'|
    requires BankSel(a, k) == BankSel(a', k) && BankAddr(a, k) == BankAddr(a', k)
    ensures a == a'
  {
    AddressSplit(a, k);
    AddressSplit(a', k);
    FromNatToNat(a);
    FromNatToNat(a');
  }

  /** `bank_dst_lane`: the bank of every lane. */
  function LaneBanks(addr: seq<Bits>, k: nat): (r: seq<nat>)
    requires forall i :: 0 <= i < |addr| ==> k <= |addr[i]|
    ensures |r| == |addr| && forall i :: 0 <= i < |addr| ==> r[i] == BankSel(addr[i], k)
  {
    seq(|addr|, i requires 0 <= i < |addr| => BankSel(addr[i], k))
  }

  /** No two lanes target the same bank (the "conflicting bank requests" assertion). */
  predicate ConflictFree(bks: seq<nat>) {
    forall i, j :: 0 <= i < j < |bks| ==> bks[i] != bks[j]
  }

  // ---------------------------------------------------------------------
  // Lane to bank steering
  // ---------------------------------------------------------------------

  /**
   * `bank_src_lane` after the pre-processing loop: lane i is written to
   * entry `bks[i]`, later lanes last.  Entries no lane names stay 0.
   */
  function Scatter(bks: seq<nat>, n: nat): (r: seq<nat>)
    ensures |r| == n
    ensures forall b :: 0 <= b < n ==> r[b] == 0 || r[b] < |bks|
  {
    if |bks| == 0 then seq(n, b => 0)
    else
      var m := |bks| - 1;
      var s := Scatter(bks[..m], n);
      if bks[m] < n then s[bks[m] := m] else s
  }

  /** Without conflicts, entry `bks[i]` keeps lane i: no later lane overwrites it. */
  lemma {:induction false} ScatterInverse(bks: seq<nat>, n: nat, i: nat)
    requires ConflictFree(bks) && i < |bks| && bks[i] < n
    ensures Scatter(bks, n)[bks[i]] == i
  {
    var m := |bks| - 1;
    if i < m {
      assert bks[..m][i] == bks[i];
      ScatterInverse(bks[..m], n, i);
    }
  }

  /** An injection from |f| lanes into m banks needs |f| <= m. */
  lemma {:induction false} NoInjection(f: seq<nat>, m: nat)
    requires ConflictFree(f) && forall i :: 0 <= i < |f| ==> f[i] < m
    ensures |f| <= m
    decreases |f|
  {
    if |f| > 0 {
      var n := |f| - 1;
      var v := f[n];
      var g := seq(n, i requires 0 <= i < n => if f[i] > v then f[i] - 1 else f[i]);
      forall i | 0 <= i < n ensures g[i] < m - 1 {
        assert f[i] != v;
      }
      NoInjection(g, m - 1);
    }
  }

  /** N lanes on N distinct banks cover every bank. */
  lemma EveryBankTargeted(bks: seq<nat>, b: nat)
    requires ConflictFree(bks) && forall i :: 0 <= i < |bks| ==> bks[i] < |bks|
    requires b < |bks|
    ensures exists i :: 0 <= i < |bks| && bks[i] == b
  {
    if forall i :: 0 <= i < |bks| ==> bks[i] != b {
      var n := |bks|;
      var g := seq(n, i requires 0 <= i < n => if bks[i] > b then bks[i] - 1 else bks[i]);
      NoInjection(g, n - 1);
      assert false;
    }
  }

  /** So every bank receives its own lane: `bank_dst_lane[bank_src_lane[b]] == b`. */
  lemma ScatterCovers(bks: seq<nat>, b: nat)
    requires ConflictFree(bks) && forall i :: 0 <= i < |bks| ==> bks[i] < |bks|
    requires b < |bks|
    ensures Scatter(bks, |bks|)[b] < |bks| && bks[Scatter(bks, |bks|)[b]] == b
  {
    EveryBankTargeted(bks, b);
    var i :| 0 <= i < |bks| && bks[i] == b;
    ScatterInverse(bks, |bks|, i);
  }

  // ---------------------------------------------------------------------
  // One call as a function of the memory before it
  // ---------------------------------------------------------------------

  /** `input_reqs`: a load leaves `wdata` unused, here the all-zero word. */
  function InputReqs(req: CliReq, k: nat, ww: nat): (r: seq<BankReq>)
    requires |req.data| == |req.addr| && forall i :: 0 <= i < |req.addr| ==> k <= |req.addr[i]|
    ensures |r| == |req.addr|
    ensures forall i :: 0 <= i < |r| ==> r[i].addr == BankAddr(req.addr[i], k)
    ensures forall i :: 0 <= i < |r| ==> r[i].wdata == if req.opcode == STORE then req.data[i] else Zeros(ww)
  {
    seq(|req.addr|, i requires 0 <= i < |req.addr| =>
      BankReq(BankAddr(req.addr[i], k), if req.opcode == STORE then req.data[i] else Zeros(ww)))
  }

  /** The in-bank addresses and store words of the bank requests. */
  function Addrs(reqs: seq<BankReq>): (r: seq<nat>)
    ensures |r| == |reqs| && forall b :: 0 <= b < |r| ==> r[b] == reqs[b].addr
  {
    seq(|reqs|, b requires 0 <= b < |reqs| => reqs[b].addr)
  }

  function Wdata(reqs: seq<BankReq>): (r: seq<Bits>)
    ensures |r| == |reqs| && forall b :: 0 <= b < |r| ==> r[b] == reqs[b].wdata
  {
    seq(|reqs|, b requires 0 <= b < |reqs| => reqs[b].wdata)
  }

  /** The bank loop's answers: a loading bank returns its word, every other bank the zero word. */
  function BankAnswers(m: Mem, ww: nat, nb: nat, ne: nat, addr: seq<nat>, valid: seq<bool>, isLoad: bool): (r: seq<Bits>)
    requires WordMem(m, nb, ne) && |addr| == |valid| <= nb
    requires isLoad ==> forall b :: 0 <= b < |valid| && valid[b] ==> addr[b] < ne && Defined(m, ww, b, addr[b])
    ensures |r| == |valid|
  {
    seq(|valid|, b requires 0 <= b < |valid| =>
      if isLoad && valid[b] then Get(m, ww, nb, ne, b, addr[b]) else Zeros(ww))
  }

  /** Which banks answer: the valid ones, on a load. */
  function Answered(valid: seq<bool>, isLoad: bool): (r: seq<bool>)
    ensures |r| == |valid| && forall b :: 0 <= b < |r| ==> r[b] == (valid[b] && isLoad)
  {
    seq(|valid|, b requires 0 <= b < |valid| => valid[b] && isLoad)
  }

  /** The bank loop's answers grow by one bank per step. */
  lemma AnswerStep(m: Mem, ww: nat, nb: nat, ne: nat, addr: seq<nat>, valid: seq<bool>, isLoad: bool, b: nat)
    requires WordMem(m, nb, ne) && |addr| == |valid| <= nb && b < |valid|
    requires isLoad ==> forall b :: 0 <= b < |valid| && valid[b] ==> addr[b] < ne && Defined(m, ww, b, addr[b])
    ensures var r := BankAnswers(m, ww, nb, ne, addr, valid, isLoad);
      r[..b + 1] == r[..b] + [if isLoad && valid[b] then Get(m, ww, nb, ne, b, addr[b]) else Zeros(ww)]
    ensures Answered(valid, isLoad)[..b + 1] == Answered(valid, isLoad)[..b] + [valid[b] && isLoad]
  {
    var r := BankAnswers(m, ww, nb, ne, addr, valid, isLoad);
    assert r[..b + 1] == r[..b] + [r[b]];
    var a := Answered(valid, isLoad);
    assert a[..b + 1] == a[..b] + [a[b]];
  }

  /** Entry `bks[i]` is the last one the i-th lane writes. */
  lemma ScatterStep(bks: seq<nat>, n: nat, i: nat)
    requires i < |bks| && bks[i] < n
    ensures Scatter(bks[..i + 1], n) == Scatter(bks[..i], n)[bks[i] := i]
  {
    assert bks[..i + 1][..i] == bks[..i];
  }

  /**
   * The pre-processing loop of `load_store`: lane i sets
   * `bank_src_lane[bank_sel] = i`, `bank_dst_lane[i] = bank_sel` and
   * `input_reqs[i]`.
   */
  method Steer(req: CliReq, k: nat, ww: nat, n: nat) returns (src: seq<nat>, dst: seq<nat>, inputReqs: seq<BankReq>)
    requires |req.addr| == |req.data| == n
    requires forall i :: 0 <= i < n ==> k <= |req.addr[i]| && BankSel(req.addr[i], k) < n
    ensures src == Scatter(LaneBanks(req.addr, k), n)
    ensures dst == LaneBanks(req.addr, k)
    ensures inputReqs == InputReqs(req, k, ww)
  {
    ghost var bks := LaneBanks(req.addr, k);
    ghost var reqs := InputReqs(req, k, ww);
    var srcLane := new nat[n](_ => 0);
    dst, inputReqs := [], [];
    for i := 0 to n
      invariant srcLane[..] == Scatter(bks[..i], n)
      invariant dst == bks[..i] && inputReqs == reqs[..i]
    {
      var bankSel := BankSel(req.addr[i], k);
      ScatterStep(bks, n, i);
      srcLane[bankSel] := i;
      PrefixSnoc(bks, i);
      PrefixSnoc(reqs, i);
      dst := dst + [bankSel];
      inputReqs := inputReqs + [BankReq(BankAddr(req.addr[i], k), if req.opcode == STORE then req.data[i] else Zeros(ww))];
    }
    assert bks[..n] == bks && reqs[..n] == reqs;
    src := srcLane[..];
  }

  // ---------------------------------------------------------------------
  // ScratchpadClass
  // ---------------------------------------------------------------------

  /** `ScratchpadClass<T, N, CAPACITY_IN_WORDS>` with words of `wordWidth` bits. */
  class ScratchpadClass {
    /** N: lanes, and banks. */
    const n: nat
    /** `ADDR_WIDTH = nbits<CAPACITY_IN_WORDS - 1>`. */
    const addrWidth: nat
    /** `NBANKS_LOG2 = nbits<N - 1>`. */
    const nbanksLog2: nat
    const wordWidth: nat
    /** `banks`: `mem_array_sep<T, CAPACITY_IN_WORDS, N>`. */
    const banks: MemArray

    ghost predicate Valid()
      reads this, banks, banks.bank
    {
      1 <= n && nbanksLog2 <= addrWidth
      && banks.Valid() && banks.numBanks == n && banks.byteEnables == 1 && banks.wordWidth == wordWidth
      && banks.sliceWidth == wordWidth
    }

    /** The words held by the banks. */
    ghost function Mem(): (m: Mem)
      requires Valid()
      reads this, banks, banks.bank
      ensures WordMem(m, n, banks.entriesPerBank)
    {
      banks.Contents()
    }

    constructor (n: nat, capacity: nat, wordWidth: nat)
      requires 1 <= n && 1 <= capacity && 1 <= wordWidth && BitLength(n - 1) <= BitLength(capacity - 1)
      ensures Valid() && fresh(banks) && fresh(banks.bank)
      ensures this.n == n && addrWidth == BitLength(capacity - 1) && nbanksLog2 == BitLength(n - 1)
      ensures this.wordWidth == wordWidth && banks.entriesPerBank == capacity / n
    {
      this.n := n;
      addrWidth := BitLength(capacity - 1);
      nbanksLog2 := BitLength(n - 1);
      this.wordWidth := wordWidth;
      banks := new MemArray.Sep(capacity, n, 1, wordWidth);
    }

    /** The shape of a request, and the library's assertions on it. */
    predicate Acceptable(req: CliReq)
      reads this
    {
      && 1 <= n && |req.valids| == n && |req.addr| == n && |req.data| == n
      && nbanksLog2 <= addrWidth
      && (forall i :: 0 <= i < n ==> |req.addr[i]| == addrWidth && |req.data[i]| == wordWidth)
      && ConflictFree(LaneBanks(req.addr, nbanksLog2))
      && (forall i :: 0 <= i < n ==> BankSel(req.addr[i], nbanksLog2) < n)
    }

    /** The request crossbar's outputs: what each bank is asked to do. */
    function BankRequests(req: CliReq): (r: Crossbar.Outputs<BankReq>)
      requires Acceptable(req)
      reads this
      ensures |r.data| == |r.valid| == n
    {
      var bks := LaneBanks(req.addr, nbanksLog2);
      Crossbar.Route(InputReqs(req, nbanksLog2, wordWidth), req.valids, Scatter(bks, n), Crossbar.AllTrue(n),
                     BankReq(0, Zeros(wordWidth)))
    }

    /** The word lane i addresses, as (bank, in-bank address). */
    function LaneBank(req: CliReq, i: nat): nat
      requires Acceptable(req) && i < n
      reads this
    {
      BankSel(req.addr[i], nbanksLog2)
    }

    function LaneAddr(req: CliReq, i: nat): nat
      requires Acceptable(req) && i < n
      reads this
    {
      BankAddr(req.addr[i], nbanksLog2)
    }

    /** Bank b receives the request of the lane that targets it. */
    lemma RoutedLane(req: CliReq, b: nat)
      requires Acceptable(req) && b < n
      ensures var i := Scatter(LaneBanks(req.addr, nbanksLog2), n)[b];
        && i < n && LaneBank(req, i) == b
        && BankRequests(req).valid[b] == req.valids[i]
        && (req.valids[i] ==> BankRequests(req).data[b] == InputReqs(req, nbanksLog2, wordWidth)[i])
    {
      ScatterCovers(LaneBanks(req.addr, nbanksLog2), b);
    }

    /** The mem_array bounds assertion holds for every valid lane. */
    predicate InBounds(req: CliReq, ne: nat)
      requires Acceptable(req)
      reads this
    {
      forall i :: 0 <= i < n && req.valids[i] ==> LaneAddr(req, i) < ne
    }

    /** Every word a valid load lane reads holds data ("Read data is X" otherwise). */
    predicate LoadsDefined(req: CliReq, m: Mem)
      requires Acceptable(req) && WordMem(m, n, banks.entriesPerBank) && InBounds(req, banks.entriesPerBank)
      reads this
    {
      req.opcode == LOAD ==>
        forall i :: 0 <= i < n && req.valids[i] ==> Defined(m, wordWidth, LaneBank(req, i), LaneAddr(req, i))
    }

    /** What each lane receives from a load of memory m. */
    function LoadResponse(req: CliReq, m: Mem): (r: CliRsp)
      requires Acceptable(req) && WordMem(m, n, banks.entriesPerBank) && InBounds(req, banks.entriesPerBank) && LoadsDefined(req, m)
      reads this
      ensures |r.valids| == |r.data| == n
      ensures forall i :: 0 <= i < n ==> (r.valids[i] <==> req.opcode == LOAD && req.valids[i])
      ensures forall i :: 0 <= i < n && r.valids[i] ==> r.data[i] == Get(m, wordWidth, n, banks.entriesPerBank, LaneBank(req, i), LaneAddr(req, i))
      ensures forall i :: 0 <= i < n && !r.valids[i] ==> r.data[i] == Zeros(wordWidth)
    {
      var valid := seq(n, i requires 0 <= i < n reads this => req.opcode == LOAD && req.valids[i]);
      CliRsp(valid, seq(n, i requires 0 <= i < n reads this =>
        if valid[i] then Get(m, wordWidth, n, banks.entriesPerBank, LaneBank(req, i), LaneAddr(req, i)) else Zeros(wordWidth)))
    }

    /**
     * `load_store(curr_cli_req, load_rsp)`.  A load leaves the banks as they
     * were and answers every valid lane with its word; a store writes every
     * valid lane's word into its bank and answers nothing.
     */
    method LoadStore(req: CliReq) returns (rsp: CliRsp)
      requires Valid() && Acceptable(req) && InBounds(req, banks.entriesPerBank) && LoadsDefined(req, Mem())
      modifies banks.bank
      ensures Valid()
      ensures Mem() == if req.opcode == LOAD then old(Mem()) else Stored(req, old(Mem()))
      ensures rsp == LoadResponse(req, old(Mem()))
    {
      ghost var m0 := Mem();
      var isLoad := req.opcode == LOAD;
      var bankSrcLane, bankDstLane, inputReqs := Steer(req, nbanksLog2, wordWidth, n);
      var bankReqs, bankReqsValid := RouteRequests(req, bankSrcLane, inputReqs);
      BankArgs(req, m0);
      var rspData, rspValid := ExecuteBanks(isLoad, Addrs(bankReqs), Wdata(bankReqs), bankReqsValid);
      rsp := RouteResponses(req, m0, rspData, rspValid, bankDstLane);
    }

    /** The request crossbar: `crossbar(input_reqs, input_reqs_valid, bank_src_lane, bank_reqs, bank_reqs_valid)`. */
    method RouteRequests(req: CliReq, src: seq<nat>, inputReqs: seq<BankReq>) returns (reqs: seq<BankReq>, valid: seq<bool>)
      requires Acceptable(req)
      requires src == Scatter(LaneBanks(req.addr, nbanksLog2), n) && inputReqs == InputReqs(req, nbanksLog2, wordWidth)
      ensures reqs == BankRequests(req).data && valid == BankRequests(req).valid
    {
      var bankReqs := new BankReq[n](_ => BankReq(0, Zeros(wordWidth)));
      var bankReqsValid := new bool[n];
      Crossbar.CrossbarValidIn(inputReqs, req.valids, src, bankReqs, bankReqsValid, BankReq(0, Zeros(wordWidth)));
      reqs, valid := bankReqs[..], bankReqsValid[..];
    }

    /** The bank requests are within the banks, and every load reads a word that holds data. */
    predicate BankArgsHold(req: CliReq, m: Mem)
      requires Acceptable(req) && WordMem(m, n, banks.entriesPerBank)
      reads this
    {
      var reqs := BankRequests(req);
      && WriteArgs(wordWidth, n, banks.entriesPerBank, Addrs(reqs.data), Wdata(reqs.data), reqs.valid)
      && (req.opcode == LOAD ==> forall b :: 0 <= b < n && reqs.valid[b] ==> Defined(m, wordWidth, b, reqs.data[b].addr))
    }

    lemma BankArgs(req: CliReq, m: Mem)
      requires Acceptable(req) && WordMem(m, n, banks.entriesPerBank) && InBounds(req, banks.entriesPerBank)
      requires LoadsDefined(req, m)
      ensures BankArgsHold(req, m)
    {
      StoreArgs(req);
      forall b | 0 <= b < n && BankRequests(req).valid[b] && req.opcode == LOAD
        ensures Defined(m, wordWidth, b, BankRequests(req).data[b].addr)
      {
        RoutedLane(req, b);
      }
    }

    /** The response crossbar: `crossbar(bank_rsps_data, bank_rsps_valid, bank_dst_lane, ...)`, then the valids copy. */
    method RouteResponses(req: CliReq, ghost m: Mem, rspData: seq<Bits>, rspValid: seq<bool>, dst: seq<nat>) returns (rsp: CliRsp)
      requires Acceptable(req) && WordMem(m, n, banks.entriesPerBank) && InBounds(req, banks.entriesPerBank)
      requires LoadsDefined(req, m) && dst == LaneBanks(req.addr, nbanksLog2)
      requires BankArgsHold(req, m)
      requires rspData == BankAnswers(m, wordWidth, n, banks.entriesPerBank, Addrs(BankRequests(req).data),
                                      BankRequests(req).valid, req.opcode == LOAD)
      requires rspValid == Answered(BankRequests(req).valid, req.opcode == LOAD)
      ensures rsp == LoadResponse(req, m)
    {
      var dataOut := new Bits[n](_ => Zeros(wordWidth));
      var validOut := new bool[n];
      Crossbar.CrossbarValidIn(rspData, rspValid, dst, dataOut, validOut, Zeros(wordWidth));
      rsp := CliRsp(validOut[..], dataOut[..]);
      ResponseLanes(req, m, rspData, rspValid, rsp);
    }

    /** The bank loop: a valid load reads its word, a valid store writes it. */
    method ExecuteBanks(isLoad: bool, addr: seq<nat>, wdata: seq<Bits>, valid: seq<bool>) returns (rspData: seq<Bits>, rspValid: seq<bool>)
      requires Valid() && |valid| == n
      requires WriteArgs(wordWidth, n, banks.entriesPerBank, addr, wdata, valid)
      requires isLoad ==> forall b :: 0 <= b < n && valid[b] ==> Defined(Mem(), wordWidth, b, addr[b])
      modifies banks.bank
      ensures Valid()
      ensures Mem() == if isLoad then old(Mem()) else Stores(old(Mem()), wordWidth, n, banks.entriesPerBank, addr, wdata, valid, n)
      ensures rspData == BankAnswers(old(Mem()), wordWidth, n, banks.entriesPerBank, addr, valid, isLoad)
      ensures rspValid == Answered(valid, isLoad)
    {
      ghost var m0 := Mem();
      ghost var answers := BankAnswers(m0, wordWidth, n, banks.entriesPerBank, addr, valid, isLoad);
      ghost var answered := Answered(valid, isLoad);
      rspData, rspValid := [], [];
      for b := 0 to n
        invariant Valid()
        invariant Mem() == if isLoad then m0 else Stores(m0, wordWidth, n, banks.entriesPerBank, addr, wdata, valid, b)
        invariant rspData == answers[..b] && rspValid == answered[..b]
      {
        var d, v := ExecuteBank(isLoad, b, addr[b], wdata[b], valid[b]);
        AnswerStep(m0, wordWidth, n, banks.entriesPerBank, addr, valid, isLoad, b);
        rspData, rspValid := rspData + [d], rspValid + [v];
      }
    }

    /** One bank of the bank loop. */
    method ExecuteBank(isLoad: bool, b: nat, addr: nat, wdata: Bits, valid: bool) returns (d: Bits, v: bool)
      requires Valid() && b < n
      requires valid ==> addr < banks.entriesPerBank && |wdata| == wordWidth
      requires valid && isLoad ==> Defined(Mem(), wordWidth, b, addr)
      modifies banks.bank
      ensures Valid()
      ensures Mem() == if valid && !isLoad then Put(old(Mem()), wordWidth, n, banks.entriesPerBank, b, addr, wdata) else old(Mem())
      ensures v == (valid && isLoad)
      ensures v ==> d == Get(old(Mem()), wordWidth, n, banks.entriesPerBank, b, addr)
      ensures !v ==> d == Zeros(wordWidth)
    {
      if valid && isLoad {
        d := banks.Read(addr, b);
        v := true;
      } else if valid {
        banks.Write(addr, b, wdata, Ones(1), true);
        d, v := Zeros(wordWidth), false;
      } else {
        d, v := Zeros(wordWidth), false;
      }
    }

    /** The response crossbar hands lane i the answer of its own bank. */
    lemma ResponseLanes(req: CliReq, m: Mem, rspData: seq<Bits>, rspValid: seq<bool>, rsp: CliRsp)
      requires Acceptable(req) && WordMem(m, n, banks.entriesPerBank) && InBounds(req, banks.entriesPerBank)
      requires LoadsDefined(req, m)
      requires BankArgsHold(req, m)
      requires rspData == BankAnswers(m, wordWidth, n, banks.entriesPerBank, Addrs(BankRequests(req).data),
                                      BankRequests(req).valid, req.opcode == LOAD)
      requires rspValid == Answered(BankRequests(req).valid, req.opcode == LOAD)
      requires rsp == CliRsp(Crossbar.Route(rspData, rspValid, LaneBanks(req.addr, nbanksLog2), Crossbar.AllTrue(n), Zeros(wordWidth)).valid,
                             Crossbar.Route(rspData, rspValid, LaneBanks(req.addr, nbanksLog2), Crossbar.AllTrue(n), Zeros(wordWidth)).data)
      ensures rsp == LoadResponse(req, m)
    {
      var expected := LoadResponse(req, m);
      forall i | 0 <= i < n ensures rsp.valids[i] == expected.valids[i] && rsp.data[i] == expected.data[i] {
        ResponseLane(req, m, rspData, rspValid, i);
      }
      assert rsp.valids == expected.valids && rsp.data == expected.data;
    }

    /** Lane i's answer is the word its own bank read. */
    lemma ResponseLane(req: CliReq, m: Mem, rspData: seq<Bits>, rspValid: seq<bool>, i: nat)
      requires Acceptable(req) && WordMem(m, n, banks.entriesPerBank) && InBounds(req, banks.entriesPerBank)
      requires LoadsDefined(req, m)
      requires BankArgsHold(req, m)
      requires rspData == BankAnswers(m, wordWidth, n, banks.entriesPerBank, Addrs(BankRequests(req).data),
                                      BankRequests(req).valid, req.opcode == LOAD)
      requires rspValid == Answered(BankRequests(req).valid, req.opcode == LOAD)
      requires i < n
      ensures var out := Crossbar.Route(rspData, rspValid, LaneBanks(req.addr, nbanksLog2), Crossbar.AllTrue(n), Zeros(wordWidth));
        out.valid[i] == LoadResponse(req, m).valids[i] && out.data[i] == LoadResponse(req, m).data[i]
    {
      LaneOwnsBank(req, i);
    }

    /** Lane i's bank serves lane i: its request is lane i's. */
    lemma LaneOwnsBank(req: CliReq, i: nat)
      requires Acceptable(req) && i < n
      ensures LaneBank(req, i) < n
      ensures BankRequests(req).valid[LaneBank(req, i)] == req.valids[i]
      ensures req.valids[i] ==> BankRequests(req).data[LaneBank(req, i)].addr == LaneAddr(req, i)
    {
      ScatterInverse(LaneBanks(req.addr, nbanksLog2), n, i);
    }

    /** `store(req)`: `load_store` with the opcode forced to STORE. */
    method Store(req: CliReq)
      requires Valid() && Acceptable(req) && InBounds(req, banks.entriesPerBank)
      modifies banks.bank
      ensures Valid()
      ensures Mem() == Stored(req.(opcode := STORE), old(Mem()))
    {
      var rsp := LoadStore(req.(opcode := STORE));
    }

    /** `load(req)`: `load_store` with the opcode forced to LOAD; the banks are unchanged. */
    method Load(req: CliReq) returns (rsp: CliRsp)
      requires Valid() && Acceptable(req) && InBounds(req, banks.entriesPerBank)
      requires LoadsDefined(req.(opcode := LOAD), Mem())
      modifies banks.bank
      ensures Valid() && Mem() == old(Mem())
      ensures rsp == LoadResponse(req.(opcode := LOAD), old(Mem()))
    {
      rsp := LoadStore(req.(opcode := LOAD));
    }

    /** After a store, every valid lane's word reads as that lane's data. */
    lemma StoreReadsBack(req: CliReq, m: Mem, i: nat)
      requires Valid() && Acceptable(req) && req.opcode == STORE && WordMem(m, n, banks.entriesPerBank)
      requires InBounds(req, banks.entriesPerBank)
      requires i < n && req.valids[i]
      ensures var m' := Stored(req, m);
        Defined(m', wordWidth, LaneBank(req, i), LaneAddr(req, i))
        && Get(m', wordWidth, n, banks.entriesPerBank, LaneBank(req, i), LaneAddr(req, i)) == req.data[i]
    {
      var b := LaneBank(req, i);
      RoutedLane(req, b);
      StoreArgs(req);
      var reqs := BankRequests(req);
      StoresWrite(m, wordWidth, n, banks.entriesPerBank, Addrs(reqs.data), Wdata(reqs.data), reqs.valid, n, b);
    }

    /** A store changes only the words that valid lanes address. */
    lemma StoreKeepsOthers(req: CliReq, m: Mem, b: nat, e: nat)
      requires Valid() && Acceptable(req) && WordMem(m, n, banks.entriesPerBank)
      requires InBounds(req, banks.entriesPerBank)
      requires b < n && e < banks.entriesPerBank
      requires forall i :: 0 <= i < n && req.valids[i] ==> LaneBank(req, i) != b || LaneAddr(req, i) != e
      ensures Stored(req, m)[b][e] == m[b][e]
    {
      RoutedLane(req, b);
      StoreArgs(req);
      var reqs := BankRequests(req);
      StoresElsewhere(m, wordWidth, n, banks.entriesPerBank, Addrs(reqs.data), Wdata(reqs.data), reqs.valid, n, b, e);
    }

    lemma StoreArgs(req: CliReq)
      requires Acceptable(req) && InBounds(req, banks.entriesPerBank)
      ensures var reqs := BankRequests(req);
        WriteArgs(wordWidth, n, banks.entriesPerBank, Addrs(reqs.data), Wdata(reqs.data), reqs.valid)
    {
      forall b | 0 <= b < n && BankRequests(req).valid[b]
        ensures BankRequests(req).data[b].addr < banks.entriesPerBank && |BankRequests(req).data[b].wdata| == wordWidth
      {
        RoutedLane(req, b);
      }
    }

    /** The banks after the bank loop of a store of req over m. */
    function Stored(req: CliReq, m: Mem): (r: Mem)
      requires Acceptable(req) && InBounds(req, banks.entriesPerBank) && WordMem(m, n, banks.entriesPerBank)
      reads this
      ensures WordMem(r, n, banks.entriesPerBank)
    {
      StoreArgs(req);
      var reqs := BankRequests(req);
      Stores(m, wordWidth, n, banks.entriesPerBank, Addrs(reqs.data), Wdata(reqs.data), reqs.valid, n)
    }
  }
}
