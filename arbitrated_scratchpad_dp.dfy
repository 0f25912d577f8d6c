/**
 * `ArbitratedScratchpadDP<kNumBanks, kNumReadPorts, kNumWritePorts,
 * kEntriesPerBank, WordType, isSF, IsSPRAM>`: a banked memory with separate
 * read and write ports.  Every call arbitrates the read ports and the write
 * ports per bank with two arbitrated crossbars without queues, lets each
 * bank serve its read winner and its write winner, and routes the read data
 * back to the read ports.
 *
 * The value level (`RunResult` and the functions it is built from) is what
 * the properties are proved about; the class follows it call by call.
 */
module ArbitratedScratchpadDP {
  import opened Bits
  import opened NvhlsInt
  import opened MemArray
  import opened BankWords
  import opened ArbitratedCrossbar
  import Crossbar
  import ArbitratedScratchpad

  // ---------------------------------------------------------------------
  // Parameters and address fields
  // ---------------------------------------------------------------------

  /** The template parameters; `isSF` is store forwarding, `isSPRAM` a single-port bank RAM. */
  datatype Geometry = Geometry(numBanks: nat, numReadPorts: nat, numWritePorts: nat, entries: nat,
                               wordWidth: nat, isSF: bool, isSPRAM: bool)

  /**
   * Parameters the model covers: at least one port of each kind, and at
   * least two entries per bank when there are
   * several banks, since `get_slc(a, kAddressSize - 1, kBankIndexSize)`
   * needs a non-empty range.
   */
  predicate GeometryOk(g: Geometry) {
    1 <= g.numBanks < UINT_LIMIT && 1 <= g.entries < UINT_LIMIT && g.numBanks * g.entries < UINT_LIMIT
    && (g.numBanks > 1 ==> g.entries >= 2)
    && 1 <= g.numReadPorts <= 65536 && 1 <= g.numWritePorts <= 65536 && 1 <= g.wordWidth
  }

  /** `kBankIndexSize = index_width<kNumBanks>`. */
  function BankBits(g: Geometry): nat
    requires GeometryOk(g)
  {
    IndexWidth(g.numBanks)
  }

  /** `kLocalIndexSize = index_width<kEntriesPerBank>`. */
  function LocalBits(g: Geometry): nat
    requires GeometryOk(g)
  {
    IndexWidth(g.entries)
  }

  /** `kAddressSize = index_width<kNumBanks * kEntriesPerBank>`. */
  function AddrBits(g: Geometry): nat
    requires GeometryOk(g)
  {
    IndexWidth(g.numBanks * g.entries)
  }

  /** With several banks the address is wider than the bank index. */
  lemma AddressWiderThanBank(g: Geometry)
    requires GeometryOk(g) && g.numBanks > 1
    ensures BankBits(g) < AddrBits(g)
  {
    var nb, b, a := g.numBanks, BankBits(g), AddrBits(g);
    assert Pow2(b) < 2 * nb by { assert Pow2(b) == 2 * Pow2(b - 1); }
    assert 2 * nb <= nb * g.entries by { MulMonotone(2, g.entries, nb); }
    if a <= b {
      Pow2Monotone(a, b);
    }
  }

  /** `GetBankIndex(a)`: 0 with one bank, otherwise the low `kBankIndexSize` bits. */
  function GetBankIndex(g: Geometry, a: Bits): (r: nat)
    requires GeometryOk(g) && |a| == AddrBits(g)
    ensures r < Pow2(BankBits(g))
  {
    if g.numBanks == 1 then
      0
    else
      AddressWiderThanBank(g);
      ToNat(GetSlcRange(a, BankBits(g) - 1, 0))
  }

  /**
   * `GetLocalIndex(a)`: the whole address with one bank, otherwise the bits
   * above the bank index, cut to the `kLocalIndexSize` bits of a
   * `LocalIndex`.
   */
  function GetLocalIndex(g: Geometry, a: Bits): (r: nat)
    requires GeometryOk(g) && |a| == AddrBits(g)
    ensures r < Pow2(LocalBits(g))
  {
    if g.numBanks == 1 then
      assert AddrBits(g) == LocalBits(g);
      ToNat(a)
    else
      AddressWiderThanBank(g);
      ToNat(GetSlcRange(a, AddrBits(g) - 1, BankBits(g))) % Pow2(LocalBits(g))
  }

  /** With one bank every address is in bank 0 at its own value. */
  lemma OneBankAddress(g: Geometry, a: Bits)
    requires GeometryOk(g) && |a| == AddrBits(g) && g.numBanks == 1
    ensures GetBankIndex(g, a) == 0 && GetLocalIndex(g, a) == ToNat(a)
  {
  }

  /** `index_width` of a power of two 2^k, k >= 1, is k. */
  lemma IndexWidthPow2(k: nat)
    requires 1 <= k && Pow2(k) < UINT_LIMIT
    ensures IndexWidth(Pow2(k)) == k
  {
    assert Pow2(k) == 2 * Pow2(k - 1);
    Log2CeilUnique(Pow2(k), k);
  }

  /**
   * With 2^p banks of 2^q entries the address splits exactly: the bank is
   * the address modulo the bank count, the local index the quotient, and
   * every address names an existing bank and entry.
   */
  lemma AddressSplitPow2(g: Geometry, a: Bits, p: nat, q: nat)
    requires GeometryOk(g) && |a| == AddrBits(g)
    requires 1 <= p && 1 <= q && g.numBanks == Pow2(p) && g.entries == Pow2(q)
    ensures GetBankIndex(g, a) == ToNat(a) % g.numBanks < g.numBanks
    ensures GetLocalIndex(g, a) == ToNat(a) / g.numBanks < g.entries
    ensures ToNat(a) == GetBankIndex(g, a) + g.numBanks * GetLocalIndex(g, a)
  {
    var x, nb, ne := ToNat(a), g.numBanks, g.entries;
    PowerWidths(g, p, q);
    BankValue(g, a, p);
    LocalValue(g, a, p, q);
    BelowProduct(a, p, q);
    ArbitratedScratchpad.LowHigh(x, nb, ne);
    ArbitratedScratchpad.QuotRem(x, nb);
  }

  lemma BelowProduct(a: Bits, p: nat, q: nat)
    requires |a| == p + q
    ensures ToNat(a) < Pow2(p) * Pow2(q)
  {
    Pow2Add(p, q);
  }

  lemma BankValue(g: Geometry, a: Bits, p: nat)
    requires GeometryOk(g) && |a| == AddrBits(g) && g.numBanks > 1 && BankBits(g) == p
    ensures GetBankIndex(g, a) == ToNat(a) % Pow2(p)
  {
    assert Pow2(0) == 1;
  }

  lemma LocalValue(g: Geometry, a: Bits, p: nat, q: nat)
    requires GeometryOk(g) && |a| == AddrBits(g) && g.numBanks > 1
    requires BankBits(g) == p && LocalBits(g) == q && AddrBits(g) == p + q
    ensures GetLocalIndex(g, a) == ToNat(a) / Pow2(p) % Pow2(q) % Pow2(q)
  {
  }

  lemma PowerWidths(g: Geometry, p: nat, q: nat)
    requires GeometryOk(g) && 1 <= p && 1 <= q && g.numBanks == Pow2(p) && g.entries == Pow2(q)
    ensures AddrBits(g) == p + q && BankBits(g) == p && LocalBits(g) == q
  {
    Pow2Add(p, q);
    IndexWidthPow2(p);
    IndexWidthPow2(q);
    IndexWidthPow2(p + q);
  }

  // ---------------------------------------------------------------------
  // Bank requests
  // ---------------------------------------------------------------------

  /** `bankread_req_t`. */
  datatype ReadReq = ReadReq(localIndex: nat)

  /** `bankwrite_req_t`. */
  datatype WriteReq = WriteReq(localIndex: nat, data: Bits)

  /** Addresses of the ports' width. */
  predicate AddrsOk(g: Geometry, addr: seq<Bits>)
    requires GeometryOk(g)
  {
    forall i :: 0 <= i < |addr| ==> |addr[i]| == AddrBits(g)
  }

  /** `bankread_req[i].localindex = GetLocalIndex(read_address[i])`. */
  function ReadRequests(g: Geometry, addr: seq<Bits>): (r: seq<ReadReq>)
    requires GeometryOk(g) && AddrsOk(g, addr)
    ensures |r| == |addr| && forall i :: 0 <= i < |addr| ==> r[i] == ReadReq(GetLocalIndex(g, addr[i]))
  {
    seq(|addr|, i requires 0 <= i < |addr| => ReadReq(GetLocalIndex(g, addr[i])))
  }

  /** `bankwrite_req[i]`: the local index of `write_address[i]` and `write_data[i]`. */
  function WriteRequests(g: Geometry, addr: seq<Bits>, data: seq<Bits>): (r: seq<WriteReq>)
    requires GeometryOk(g) && AddrsOk(g, addr) && |data| == |addr|
    ensures |r| == |addr| && forall i :: 0 <= i < |addr| ==> r[i] == WriteReq(GetLocalIndex(g, addr[i]), data[i])
  {
    seq(|addr|, i requires 0 <= i < |addr| => WriteReq(GetLocalIndex(g, addr[i]), data[i]))
  }

  /** `bankread_sel[i]` / `bankwrite_sel[i] = GetBankIndex(address[i])`. */
  function BankSels(g: Geometry, addr: seq<Bits>): (r: seq<nat>)
    requires GeometryOk(g) && AddrsOk(g, addr)
    ensures |r| == |addr| && forall i :: 0 <= i < |addr| ==> r[i] == GetBankIndex(g, addr[i])
  {
    seq(|addr|, i requires 0 <= i < |addr| => GetBankIndex(g, addr[i]))
  }

  /** `compute_bankread_request`. */
  method ComputeBankReadRequest(g: Geometry, addr: seq<Bits>, valid: seq<bool>)
    returns (req: seq<ReadReq>, sel: seq<nat>, reqValid: seq<bool>)
    requires GeometryOk(g) && AddrsOk(g, addr) && |valid| == |addr|
    ensures req == ReadRequests(g, addr) && sel == BankSels(g, addr) && reqValid == valid
  {
    req, sel, reqValid := [], [], [];
    for i := 0 to |addr|
      invariant req == ReadRequests(g, addr)[..i] && sel == BankSels(g, addr)[..i] && reqValid == valid[..i]
    {
      PrefixSnoc(ReadRequests(g, addr), i);
      PrefixSnoc(BankSels(g, addr), i);
      PrefixSnoc(valid, i);
      sel := sel + [GetBankIndex(g, addr[i])];
      req := req + [ReadReq(GetLocalIndex(g, addr[i]))];
      reqValid := reqValid + [valid[i]];
    }
  }

  /** `compute_bankwrite_request`. */
  method ComputeBankWriteRequest(g: Geometry, addr: seq<Bits>, valid: seq<bool>, data: seq<Bits>)
    returns (req: seq<WriteReq>, sel: seq<nat>, reqValid: seq<bool>)
    requires GeometryOk(g) && AddrsOk(g, addr) && |valid| == |addr| && |data| == |addr|
    ensures req == WriteRequests(g, addr, data) && sel == BankSels(g, addr) && reqValid == valid
  {
    req, sel, reqValid := [], [], [];
    for i := 0 to |addr|
      invariant req == WriteRequests(g, addr, data)[..i] && sel == BankSels(g, addr)[..i] && reqValid == valid[..i]
    {
      PrefixSnoc(WriteRequests(g, addr, data), i);
      PrefixSnoc(BankSels(g, addr), i);
      PrefixSnoc(valid, i);
      sel := sel + [GetBankIndex(g, addr[i])];
      req := req + [WriteReq(GetLocalIndex(g, addr[i]), data[i])];
      reqValid := reqValid + [valid[i]];
    }
  }

  // ---------------------------------------------------------------------
  // Arbitration
  // ---------------------------------------------------------------------

  /** Arbiter pointers of one crossbar: one per bank. */
  predicate PtrsFor(g: Geometry, ptrs: seq<nat>, n: nat) {
    |ptrs| == g.numBanks && PtrsOk(ptrs, n)
  }

  /** The ports' inputs of one call of `run`. */
  datatype Call = Call(readAddr: seq<Bits>, readValid: seq<bool>, writeAddr: seq<Bits>, writeValid: seq<bool>,
                       writeData: seq<Bits>)

  /**
   * A valid request naming an existing bank names an existing entry of it
   * (`mem_array` asserts `idx < NumEntriesPerBank` on every access).
   */
  predicate EntriesOk(g: Geometry, addr: seq<Bits>, valid: seq<bool>)
    requires GeometryOk(g) && AddrsOk(g, addr) && |valid| == |addr|
  {
    forall i :: 0 <= i < |addr| && valid[i] && GetBankIndex(g, addr[i]) < g.numBanks ==>
      GetLocalIndex(g, addr[i]) < g.entries
  }

  /** One entry per port, addresses and data of the ports' widths, and entries that exist. */
  predicate PortsOk(g: Geometry, c: Call) {
    GeometryOk(g)
    && |c.readAddr| == |c.readValid| == g.numReadPorts && AddrsOk(g, c.readAddr)
    && |c.writeAddr| == |c.writeValid| == |c.writeData| == g.numWritePorts && AddrsOk(g, c.writeAddr)
    && (forall j :: 0 <= j < g.numWritePorts ==> |c.writeData[j]| == g.wordWidth)
    && EntriesOk(g, c.readAddr, c.readValid) && EntriesOk(g, c.writeAddr, c.writeValid)
  }

  /** `run(...)` of an `ArbitratedCrossbar<..., 0, 0>`: no queues, so only the arbiters keep state. */
  function Arb<T>(n: nat, nb: nat, ptrs: seq<nat>, dataIn: seq<T>, destIn: seq<nat>, validIn: seq<bool>, zero: T)
    : Step<T>
    requires |dataIn| == |destIn| == |validIn| == n && |ptrs| == nb && PtrsOk(ptrs, n)
  {
    RunStep(0, 0, n, Repeat(n, []), Repeat(nb, []), ptrs, dataIn, destIn, validIn, Repeat(nb, zero), Repeat(nb, 0), zero)
  }

  /** The arbiters' pointers after a step stay in 1..n, one per output. */
  lemma ArbPtrs<T>(n: nat, nb: nat, ptrs: seq<nat>, dataIn: seq<T>, destIn: seq<nat>, validIn: seq<bool>, zero: T)
    requires |dataIn| == |destIn| == |validIn| == n && |ptrs| == nb && PtrsOk(ptrs, n)
    ensures |Arb(n, nb, ptrs, dataIn, destIn, validIn, zero).ptrs| == nb
    ensures PtrsOk(Arb(n, nb, ptrs, dataIn, destIn, validIn, zero).ptrs, n)
  {
    var outq := Repeat<seq<T>>(nb, []);
    var view := InputView(0, Repeat<seq<DataDest<T>>>(n, []), dataIn, destIn, validIn, zero);
    var g := Grants(view.0, view.1, OutputReady(outq, 0), ptrs);
    forall o | 0 <= o < nb && g[o].Some?
      ensures g[o].value < n
    {
      GrantRequested(view.0, view.1, OutputReady(outq, 0), ptrs, o, g[o].value);
    }
  }

  /**
   * A crossbar without queues grants each output to at most one valid input
   * that names it and reports ready exactly the inputs it granted; an output
   * some valid input names always grants one.
   */
  lemma ArbFacts<T>(n: nat, nb: nat, ptrs: seq<nat>, dataIn: seq<T>, destIn: seq<nat>, validIn: seq<bool>, zero: T)
    requires |dataIn| == |destIn| == |validIn| == n && |ptrs| == nb && PtrsOk(ptrs, n)
    ensures var r := Arb(n, nb, ptrs, dataIn, destIn, validIn, zero);
      && |r.ready| == n && |r.validOut| == |r.source| == |r.dataOut| == |r.ptrs| == nb
      && (forall i :: 0 <= i < n ==>
            (r.ready[i] <==> destIn[i] < nb && r.validOut[destIn[i]] && r.source[destIn[i]] == i))
      && (forall o :: 0 <= o < nb && r.validOut[o] ==>
            r.source[o] < n && validIn[r.source[o]] && destIn[r.source[o]] == o && r.dataOut[o] == dataIn[r.source[o]])
      && (forall o :: 0 <= o < nb && !r.validOut[o] ==> r.dataOut[o] == zero)
      && (forall i :: 0 <= i < n && validIn[i] && destIn[i] < nb ==> r.validOut[destIn[i]])
  {
    var inq, outq := Repeat<seq<DataDest<T>>>(n, []), Repeat<seq<T>>(nb, []);
    RunWithoutQueues(n, inq, outq, ptrs, dataIn, destIn, validIn, Repeat(nb, zero), Repeat(nb, 0), zero);
    var r := Arb(n, nb, ptrs, dataIn, destIn, validIn, zero);
    var view := Direct(dataIn, destIn);
    var ready := OutputReady(outq, 0);
    forall i | 0 <= i < n && validIn[i] && destIn[i] < nb
      ensures r.validOut[destIn[i]]
    {
      GrantWhenRequested(view, validIn, ready, ptrs, destIn[i], i);
    }
  }

  /** `read_arbxbar.run(...)`. */
  function ReadArb(g: Geometry, ptrs: seq<nat>, c: Call): (r: Step<ReadReq>)
    requires PortsOk(g, c) && PtrsFor(g, ptrs, g.numReadPorts)
  {
    Arb(g.numReadPorts, g.numBanks, ptrs, ReadRequests(g, c.readAddr), BankSels(g, c.readAddr), c.readValid, ReadReq(0))
  }

  /** `write_arbxbar.run(...)`. */
  function WriteArb(g: Geometry, ptrs: seq<nat>, c: Call): (r: Step<WriteReq>)
    requires PortsOk(g, c) && PtrsFor(g, ptrs, g.numWritePorts)
  {
    Arb(g.numWritePorts, g.numBanks, ptrs, WriteRequests(g, c.writeAddr, c.writeData), BankSels(g, c.writeAddr),
        c.writeValid, WriteReq(0, Zeros(g.wordWidth)))
  }

  /** `read_ack[i] = read_done[i] && read_req_valid[i]`, and `write_ack` likewise. */
  function Acks(done: seq<bool>, valid: seq<bool>): (r: seq<bool>)
    requires |done| == |valid|
    ensures |r| == |done| && forall i :: 0 <= i < |done| ==> (r[i] <==> done[i] && valid[i])
  {
    seq(|done|, i requires 0 <= i < |done| => done[i] && valid[i])
  }

  /** `read_ready[i] = read_done[i] || !read_req_valid[i]`. */
  function Readies(done: seq<bool>, valid: seq<bool>): (r: seq<bool>)
    requires |done| == |valid|
    ensures |r| == |done| && forall i :: 0 <= i < |done| ==> (r[i] <==> done[i] || !valid[i])
  {
    seq(|done|, i requires 0 <= i < |done| => done[i] || !valid[i])
  }

  /** The acknowledgement loop of `run`. */
  method AckLoop(done: seq<bool>, valid: seq<bool>) returns (ack: seq<bool>, ready: seq<bool>)
    requires |done| == |valid|
    ensures ack == Acks(done, valid) && ready == Readies(done, valid)
  {
    ack, ready := [], [];
    for i := 0 to |done|
      invariant ack == Acks(done, valid)[..i] && ready == Readies(done, valid)[..i]
    {
      PrefixSnoc(Acks(done, valid), i);
      PrefixSnoc(Readies(done, valid), i);
      ack := ack + [done[i] && valid[i]];
      ready := ready + [done[i] || !valid[i]];
    }
  }

  // ---------------------------------------------------------------------
  // Single-port banks: a bank with both winners drops its read
  // ---------------------------------------------------------------------

  /** Bank b, among the first j banks, dropped the read it granted to port i. */
  predicate DroppedBy(isSPRAM: bool, rv: seq<bool>, wv: seq<bool>, src: seq<nat>, i: nat, j: nat)
    requires j <= |rv| == |wv| == |src|
  {
    exists b :: 0 <= b < j && isSPRAM && rv[b] && wv[b] && src[b] == i
  }

  /** The read acknowledgements after the drop loop has visited banks 0 .. j-1. */
  function KeptAcks(isSPRAM: bool, ack: seq<bool>, rv: seq<bool>, wv: seq<bool>, src: seq<nat>, j: nat): (r: seq<bool>)
    requires j <= |rv| == |wv| == |src|
    ensures |r| == |ack| && forall i :: 0 <= i < |ack| ==> (r[i] <==> ack[i] && !DroppedBy(isSPRAM, rv, wv, src, i, j))
  {
    seq(|ack|, i requires 0 <= i < |ack| => ack[i] && !DroppedBy(isSPRAM, rv, wv, src, i, j))
  }

  /** The read winners left after the drop loop. */
  function KeptReads(isSPRAM: bool, rv: seq<bool>, wv: seq<bool>): (r: seq<bool>)
    requires |rv| == |wv|
    ensures |r| == |rv| && forall b :: 0 <= b < |rv| ==> (r[b] <==> rv[b] && !(isSPRAM && wv[b]))
  {
    seq(|rv|, b requires 0 <= b < |rv| => rv[b] && !(isSPRAM && wv[b]))
  }

  /**
   * `if (IsSPRAM)`: every bank with both a read winner and a write winner
   * drops the read and clears `read_ack` of the port that won it.
   */
  method DropReads(isSPRAM: bool, rv: seq<bool>, wv: seq<bool>, src: seq<nat>, ack: seq<bool>)
    returns (rvOut: seq<bool>, ackOut: seq<bool>)
    requires |rv| == |wv| == |src|
    requires forall b :: 0 <= b < |rv| && rv[b] ==> src[b] < |ack|
    ensures rvOut == KeptReads(isSPRAM, rv, wv) && ackOut == KeptAcks(isSPRAM, ack, rv, wv, src, |rv|)
  {
    rvOut, ackOut := rv, ack;
    if isSPRAM {
      for b := 0 to |rv|
        invariant |rvOut| == |rv| && forall k :: 0 <= k < |rv| ==> (rvOut[k] <==> rv[k] && !(k < b && wv[k]))
        invariant ackOut == KeptAcks(isSPRAM, ack, rv, wv, src, b)
      {
        if rvOut[b] && wv[b] {
          rvOut := rvOut[b := false];
          ackOut := ackOut[src[b] := false];
        }
        assert ackOut == KeptAcks(isSPRAM, ack, rv, wv, src, b + 1) by {
          forall i | 0 <= i < |ack|
            ensures ackOut[i] == KeptAcks(isSPRAM, ack, rv, wv, src, b + 1)[i]
          {
            if DroppedBy(isSPRAM, rv, wv, src, i, b + 1) && !DroppedBy(isSPRAM, rv, wv, src, i, b) {
              assert src[b] == i;
            }
          }
        }
      }
    } else {
      assert ackOut == KeptAcks(isSPRAM, ack, rv, wv, src, |rv|);
    }
  }

  // ---------------------------------------------------------------------
  // Banks: banks_load_store
  // ---------------------------------------------------------------------

  /** `valid_entry`: one flag per entry of every bank. */
  predicate EntryFlags(g: Geometry, ve: seq<Bits>) {
    |ve| == g.numBanks && forall b :: 0 <= b < |ve| ==> |ve[b]| == g.entries
  }

  /**
   * The banks' winners: entries that exist, write data of the word's
   * width, and on a single-port RAM never a read beside a write.
   */
  predicate WinnersOk(g: Geometry, rw: seq<ReadReq>, rv: seq<bool>, ww: seq<WriteReq>, wv: seq<bool>) {
    |rw| == |rv| == |ww| == |wv| == g.numBanks
    && forall b :: 0 <= b < g.numBanks ==>
         (rv[b] ==> rw[b].localIndex < g.entries)
         && (wv[b] ==> ww[b].localIndex < g.entries && |ww[b].data| == g.wordWidth)
         && !(g.isSPRAM && rv[b] && wv[b])
  }

  /** Bank b hands its write winner's data straight to its read winner. */
  predicate Forwards(g: Geometry, rw: seq<ReadReq>, ww: seq<WriteReq>, wv: seq<bool>, b: nat)
    requires b < |rw| == |ww| == |wv|
  {
    !g.isSPRAM && g.isSF && wv[b] && rw[b].localIndex == ww[b].localIndex
  }

  /**
   * Bank b reads its memory: it answers its read winner, the entry is
   * flagged, and no write of the same entry is forwarded in its place.
   */
  predicate ReadsMemory(g: Geometry, ve: seq<Bits>, rw: seq<ReadReq>, rv: seq<bool>, ww: seq<WriteReq>, wv: seq<bool>,
                        b: nat)
    requires EntryFlags(g, ve) && WinnersOk(g, rw, rv, ww, wv) && b < g.numBanks
  {
    rv[b] && !(g.isSPRAM && wv[b]) && !Forwards(g, rw, ww, wv, b) && ve[b][rw[b].localIndex]
  }

  /**
   * The words the banks read hold values: `mem_array` yields unknown bits
   * for a word never written, and only these words reach a response.
   */
  predicate ReadsDefined(g: Geometry, m: Mem, ve: seq<Bits>, rw: seq<ReadReq>, rv: seq<bool>, ww: seq<WriteReq>,
                         wv: seq<bool>)
    requires WordMem(m, g.numBanks, g.entries) && EntryFlags(g, ve) && WinnersOk(g, rw, rv, ww, wv)
  {
    forall b :: 0 <= b < g.numBanks && ReadsMemory(g, ve, rw, rv, ww, wv, b) ==>
      Defined(m, g.wordWidth, b, rw[b].localIndex)
  }

  /** What a read of entry e of bank b returns: the word held there when the entry is flagged, else zero. */
  function EntryWord(g: Geometry, m: Mem, ve: seq<Bits>, b: nat, e: nat): (r: Bits)
    requires WordMem(m, g.numBanks, g.entries) && EntryFlags(g, ve)
    requires b < g.numBanks && e < g.entries && (ve[b][e] ==> Defined(m, g.wordWidth, b, e))
    ensures |r| == g.wordWidth
    ensures ve[b][e] ==> Defined(m, g.wordWidth, b, e) && r == Get(m, g.wordWidth, g.numBanks, g.entries, b, e)
    ensures !ve[b][e] ==> r == Zeros(g.wordWidth)
  {
    if ve[b][e] then Get(m, g.wordWidth, g.numBanks, g.entries, b, e) else Zeros(g.wordWidth)
  }

  /**
   * `bankread_rsp[bank].valid`: a bank answers its read winner, except a
   * single-port bank that writes.  A single-port bank with neither winner
   * leaves the response unset; the model reports it as not valid.
   */
  function Answered(g: Geometry, rv: seq<bool>, wv: seq<bool>): (r: seq<bool>)
    requires |rv| == |wv|
    ensures |r| == |rv| && forall b :: 0 <= b < |rv| ==> (r[b] <==> rv[b] && !(g.isSPRAM && wv[b]))
  {
    seq(|rv|, b requires 0 <= b < |rv| => rv[b] && !(g.isSPRAM && wv[b]))
  }

  /**
   * `bankread_rsp[bank].rdata`: the forwarded write data, or the read
   * entry's word, read before the bank's own write; zero without an answer.
   */
  function Answers(g: Geometry, m: Mem, ve: seq<Bits>, rw: seq<ReadReq>, rv: seq<bool>, ww: seq<WriteReq>, wv: seq<bool>)
    : (r: seq<Bits>)
    requires WordMem(m, g.numBanks, g.entries) && EntryFlags(g, ve) && WinnersOk(g, rw, rv, ww, wv)
    requires ReadsDefined(g, m, ve, rw, rv, ww, wv)
    ensures |r| == g.numBanks && forall b :: 0 <= b < g.numBanks ==> |r[b]| == g.wordWidth
  {
    seq(g.numBanks, b requires 0 <= b < g.numBanks =>
      if rv[b] && !(g.isSPRAM && wv[b]) then
        if Forwards(g, rw, ww, wv, b) then ww[b].data else EntryWord(g, m, ve, b, rw[b].localIndex)
      else Zeros(g.wordWidth))
  }

  function LocalIndices(ww: seq<WriteReq>): (r: seq<nat>)
    ensures |r| == |ww| && forall b :: 0 <= b < |ww| ==> r[b] == ww[b].localIndex
  {
    seq(|ww|, b requires 0 <= b < |ww| => ww[b].localIndex)
  }

  function WriteDatas(ww: seq<WriteReq>): (r: seq<Bits>)
    ensures |r| == |ww| && forall b :: 0 <= b < |ww| ==> r[b] == ww[b].data
  {
    seq(|ww|, b requires 0 <= b < |ww| => ww[b].data)
  }

  /** The banks after the loop: every bank with a write winner writes its word, in bank order. */
  function Written(g: Geometry, m: Mem, ww: seq<WriteReq>, wv: seq<bool>): (r: Mem)
    requires WordMem(m, g.numBanks, g.entries) && |ww| == |wv| == g.numBanks
    requires forall b :: 0 <= b < g.numBanks && wv[b] ==> ww[b].localIndex < g.entries && |ww[b].data| == g.wordWidth
    ensures WordMem(r, g.numBanks, g.entries)
  {
    Stores(m, g.wordWidth, g.numBanks, g.entries, LocalIndices(ww), WriteDatas(ww), wv, g.numBanks)
  }

  /** A bank's write winner is in its word after the loop. */
  lemma WrittenWord(g: Geometry, m: Mem, ww: seq<WriteReq>, wv: seq<bool>, b: nat)
    requires WordMem(m, g.numBanks, g.entries) && |ww| == |wv| == g.numBanks
    requires forall b :: 0 <= b < g.numBanks && wv[b] ==> ww[b].localIndex < g.entries && |ww[b].data| == g.wordWidth
    requires b < g.numBanks && wv[b]
    ensures Defined(Written(g, m, ww, wv), g.wordWidth, b, ww[b].localIndex)
    ensures Get(Written(g, m, ww, wv), g.wordWidth, g.numBanks, g.entries, b, ww[b].localIndex) == ww[b].data
  {
    StoresWrite(m, g.wordWidth, g.numBanks, g.entries, LocalIndices(ww), WriteDatas(ww), wv, g.numBanks, b);
  }

  /** A word that is not its bank's write winner's entry is kept by the loop. */
  lemma WrittenElsewhere(g: Geometry, m: Mem, ww: seq<WriteReq>, wv: seq<bool>, b: nat, e: nat)
    requires WordMem(m, g.numBanks, g.entries) && |ww| == |wv| == g.numBanks
    requires forall b :: 0 <= b < g.numBanks && wv[b] ==> ww[b].localIndex < g.entries && |ww[b].data| == g.wordWidth
    requires b < g.numBanks && e < g.entries && (!wv[b] || ww[b].localIndex != e)
    ensures Written(g, m, ww, wv)[b][e] == m[b][e]
  {
    StoresElsewhere(m, g.wordWidth, g.numBanks, g.entries, LocalIndices(ww), WriteDatas(ww), wv, g.numBanks, b, e);
  }

  // ---------------------------------------------------------------------
  // The response crossbar
  // ---------------------------------------------------------------------

  /**
   * `crossbar(bank_read_out, bank_read_out_valid, bankread_sel, read_ack,
   * ...)` followed by the copy into `port_read_out`, which keeps its old
   * value on a port without valid data.
   */
  function PortOutputs(g: Geometry, rspData: seq<Bits>, rspValid: seq<bool>, sel: seq<nat>, ack: seq<bool>,
                       portOut0: seq<Bits>): (r: Crossbar.Outputs<Bits>)
    requires |rspData| == |rspValid| == g.numBanks >= 1 && |sel| == |ack| == |portOut0|
    requires forall i :: 0 <= i < |sel| && ack[i] ==> sel[i] < g.numBanks
    ensures |r.data| == |r.valid| == |sel|
    ensures forall i :: 0 <= i < |sel| ==> (r.valid[i] <==> ack[i] && rspValid[sel[i]])
    ensures forall i :: 0 <= i < |sel| && r.valid[i] ==> r.data[i] == rspData[sel[i]]
    ensures forall i :: 0 <= i < |sel| && !r.valid[i] ==> r.data[i] == portOut0[i]
  {
    var x := Crossbar.Route(rspData, rspValid, sel, ack, Zeros(g.wordWidth));
    Crossbar.Outputs(seq(|sel|, i requires 0 <= i < |sel| => if x.valid[i] then x.data[i] else portOut0[i]), x.valid)
  }

  // ---------------------------------------------------------------------
  // One call of run
  // ---------------------------------------------------------------------

  /** The state `run` leaves and what it reports to the ports. */
  datatype RunOut = RunOut(mem: Mem, readPtrs: seq<nat>, writePtrs: seq<nat>,
                           readAck: seq<bool>, writeAck: seq<bool>, readReady: seq<bool>,
                           portOut: seq<Bits>, portOutValid: seq<bool>)

  /** What `run` needs: well-shaped ports and state, and the words the call reads from the banks hold values. */
  predicate CallOk(g: Geometry, m: Mem, ve: seq<Bits>, rptrs: seq<nat>, wptrs: seq<nat>, c: Call, portOut0: seq<Bits>) {
    PortsOk(g, c) && WordMem(m, g.numBanks, g.entries) && EntryFlags(g, ve)
    && PtrsFor(g, rptrs, g.numReadPorts) && PtrsFor(g, wptrs, g.numWritePorts) && |portOut0| == g.numReadPorts
    && CallReadsDefined(g, m, ve, rptrs, wptrs, c)
  }

  /** `ReadsDefined` for the winners of this call's arbitration. */
  predicate CallReadsDefined(g: Geometry, m: Mem, ve: seq<Bits>, rptrs: seq<nat>, wptrs: seq<nat>, c: Call)
    requires PortsOk(g, c) && WordMem(m, g.numBanks, g.entries) && EntryFlags(g, ve)
    requires PtrsFor(g, rptrs, g.numReadPorts) && PtrsFor(g, wptrs, g.numWritePorts)
  {
    var ra, wa := ReadArb(g, rptrs, c), WriteArb(g, wptrs, c);
    Arbitration(g, rptrs, wptrs, c);
    ReadsDefined(g, m, ve, ra.dataOut, KeptReads(g.isSPRAM, ra.validOut, wa.validOut), wa.dataOut, wa.validOut)
  }

  /**
   * The read and write arbitration of one call: the read winners left after
   * the single-port drop satisfy what the banks need, and an acknowledged
   * read port names an existing bank.
   */
  lemma Arbitration(g: Geometry, rptrs: seq<nat>, wptrs: seq<nat>, c: Call)
    requires PortsOk(g, c) && PtrsFor(g, rptrs, g.numReadPorts) && PtrsFor(g, wptrs, g.numWritePorts)
    ensures var ra, wa := ReadArb(g, rptrs, c), WriteArb(g, wptrs, c);
      && |ra.ready| == g.numReadPorts && |ra.validOut| == |ra.source| == |ra.dataOut| == g.numBanks
      && |wa.ready| == g.numWritePorts && |wa.validOut| == |wa.source| == |wa.dataOut| == g.numBanks
      && (forall b :: 0 <= b < g.numBanks && ra.validOut[b] ==> ra.source[b] < g.numReadPorts)
      && WinnersOk(g, ra.dataOut, KeptReads(g.isSPRAM, ra.validOut, wa.validOut), wa.dataOut, wa.validOut)
      && (forall i :: 0 <= i < g.numReadPorts && ra.ready[i] ==> BankSels(g, c.readAddr)[i] < g.numBanks)
  {
    var nr, nw, nb := g.numReadPorts, g.numWritePorts, g.numBanks;
    ArbFacts(nr, nb, rptrs, ReadRequests(g, c.readAddr), BankSels(g, c.readAddr), c.readValid, ReadReq(0));
    ArbFacts(nw, nb, wptrs, WriteRequests(g, c.writeAddr, c.writeData), BankSels(g, c.writeAddr), c.writeValid,
             WriteReq(0, Zeros(g.wordWidth)));
  }

  /** One call of the eleven-argument `run`. */
  function RunResult(g: Geometry, m: Mem, ve: seq<Bits>, rptrs: seq<nat>, wptrs: seq<nat>, c: Call, portOut0: seq<Bits>)
    : (r: RunOut)
    requires CallOk(g, m, ve, rptrs, wptrs, c, portOut0)
    ensures WordMem(r.mem, g.numBanks, g.entries)
    ensures |r.readAck| == |r.readReady| == |r.portOut| == |r.portOutValid| == g.numReadPorts
    ensures |r.writeAck| == g.numWritePorts
  {
    var ra, wa := ReadArb(g, rptrs, c), WriteArb(g, wptrs, c);
    Arbitration(g, rptrs, wptrs, c);
    var rv := KeptReads(g.isSPRAM, ra.validOut, wa.validOut);
    var readAck := KeptAcks(g.isSPRAM, Acks(ra.ready, c.readValid), ra.validOut, wa.validOut, ra.source, g.numBanks);
    var out := PortOutputs(g, Answers(g, m, ve, ra.dataOut, rv, wa.dataOut, wa.validOut), Answered(g, rv, wa.validOut),
                           BankSels(g, c.readAddr), readAck, portOut0);
    RunOut(Written(g, m, wa.dataOut, wa.validOut), ra.ptrs, wa.ptrs, readAck, Acks(wa.ready, c.writeValid),
           Readies(ra.ready, c.readValid), out.data, out.valid)
  }

  // ---------------------------------------------------------------------
  // Properties of one call
  // ---------------------------------------------------------------------

  /** The bank and entry read port i addresses. */
  function ReadBank(g: Geometry, c: Call, i: nat): nat
    requires PortsOk(g, c) && i < g.numReadPorts
  {
    GetBankIndex(g, c.readAddr[i])
  }

  function ReadEntry(g: Geometry, c: Call, i: nat): nat
    requires PortsOk(g, c) && i < g.numReadPorts
  {
    GetLocalIndex(g, c.readAddr[i])
  }

  /** The bank and entry write port j addresses. */
  function WriteBank(g: Geometry, c: Call, j: nat): nat
    requires PortsOk(g, c) && j < g.numWritePorts
  {
    GetBankIndex(g, c.writeAddr[j])
  }

  function WriteEntry(g: Geometry, c: Call, j: nat): nat
    requires PortsOk(g, c) && j < g.numWritePorts
  {
    GetLocalIndex(g, c.writeAddr[j])
  }

  /**
   * The write arbitration in terms of the ports: a bank has a write winner
   * exactly when some port's write is acknowledged for it, and that port is
   * the winner, writing its own data at its own entry.
   */
  lemma WriteWinners(g: Geometry, wptrs: seq<nat>, c: Call, b: nat)
    requires PortsOk(g, c) && PtrsFor(g, wptrs, g.numWritePorts) && b < g.numBanks
    ensures var wa := WriteArb(g, wptrs, c);
      var ack := Acks(wa.ready, c.writeValid);
      && |wa.validOut| == |wa.source| == |wa.dataOut| == g.numBanks && |wa.ready| == g.numWritePorts
      && (wa.validOut[b] <==> exists j :: 0 <= j < g.numWritePorts && ack[j] && WriteBank(g, c, j) == b)
      && (forall j :: 0 <= j < g.numWritePorts && ack[j] && WriteBank(g, c, j) == b ==>
            wa.validOut[b] && wa.source[b] == j
            && wa.dataOut[b] == WriteReq(WriteEntry(g, c, j), c.writeData[j]))
  {
    var wa := WriteArb(g, wptrs, c);
    ArbFacts(g.numWritePorts, g.numBanks, wptrs, WriteRequests(g, c.writeAddr, c.writeData), BankSels(g, c.writeAddr),
             c.writeValid, WriteReq(0, Zeros(g.wordWidth)));
    if wa.validOut[b] {
      var j := wa.source[b];
      assert Acks(wa.ready, c.writeValid)[j] && WriteBank(g, c, j) == b;
    }
  }

  /** The same for the read arbitration, before the single-port drop. */
  lemma ReadWinners(g: Geometry, rptrs: seq<nat>, c: Call, b: nat)
    requires PortsOk(g, c) && PtrsFor(g, rptrs, g.numReadPorts) && b < g.numBanks
    ensures var ra := ReadArb(g, rptrs, c);
      var ack := Acks(ra.ready, c.readValid);
      && |ra.validOut| == |ra.source| == |ra.dataOut| == g.numBanks && |ra.ready| == g.numReadPorts
      && (ra.validOut[b] <==> exists i :: 0 <= i < g.numReadPorts && ack[i] && ReadBank(g, c, i) == b)
      && (forall i :: 0 <= i < g.numReadPorts && ack[i] && ReadBank(g, c, i) == b ==>
            ra.validOut[b] && ra.source[b] == i && ra.dataOut[b] == ReadReq(ReadEntry(g, c, i)))
  {
    var ra := ReadArb(g, rptrs, c);
    ArbFacts(g.numReadPorts, g.numBanks, rptrs, ReadRequests(g, c.readAddr), BankSels(g, c.readAddr), c.readValid,
             ReadReq(0));
    if ra.validOut[b] {
      var i := ra.source[b];
      assert Acks(ra.ready, c.readValid)[i] && ReadBank(g, c, i) == b;
    }
  }

  /**
   * The memory condition of `CallOk` in terms of the ports: it holds when
   * every valid read port of an existing bank whose entry is flagged
   * addresses a word that holds a value.  Reads of unflagged entries,
   * forwarded reads and reads that lose arbitration need nothing.
   */
  lemma ReadPortsDefined(g: Geometry, m: Mem, ve: seq<Bits>, rptrs: seq<nat>, wptrs: seq<nat>, c: Call)
    requires PortsOk(g, c) && WordMem(m, g.numBanks, g.entries) && EntryFlags(g, ve)
    requires PtrsFor(g, rptrs, g.numReadPorts) && PtrsFor(g, wptrs, g.numWritePorts)
    requires forall i :: 0 <= i < g.numReadPorts && c.readValid[i] && ReadBank(g, c, i) < g.numBanks ==>
               ve[ReadBank(g, c, i)][ReadEntry(g, c, i)] ==> Defined(m, g.wordWidth, ReadBank(g, c, i), ReadEntry(g, c, i))
    ensures CallReadsDefined(g, m, ve, rptrs, wptrs, c)
  {
    var ra, wa := ReadArb(g, rptrs, c), WriteArb(g, wptrs, c);
    Arbitration(g, rptrs, wptrs, c);
    var rv := KeptReads(g.isSPRAM, ra.validOut, wa.validOut);
    forall b | 0 <= b < g.numBanks && ReadsMemory(g, ve, ra.dataOut, rv, wa.dataOut, wa.validOut, b)
      ensures Defined(m, g.wordWidth, b, ra.dataOut[b].localIndex)
    {
      ReadWinners(g, rptrs, c, b);
      var i := ra.source[b];
      ArbFacts(g.numReadPorts, g.numBanks, rptrs, ReadRequests(g, c.readAddr), BankSels(g, c.readAddr), c.readValid,
               ReadReq(0));
      assert c.readValid[i] && ReadBank(g, c, i) == b && ra.dataOut[b].localIndex == ReadEntry(g, c, i);
    }
  }

  /**
   * A call without valid reads can be made whatever the banks hold, in
   * particular by the ten-argument `run` on a scratchpad whose words were
   * never written.
   */
  lemma WriteOnlyCallOk(g: Geometry, m: Mem, rptrs: seq<nat>, wptrs: seq<nat>, c: Call, portOut0: seq<Bits>)
    requires PortsOk(g, c) && WordMem(m, g.numBanks, g.entries)
    requires PtrsFor(g, rptrs, g.numReadPorts) && PtrsFor(g, wptrs, g.numWritePorts) && |portOut0| == g.numReadPorts
    requires forall i :: 0 <= i < g.numReadPorts ==> !c.readValid[i]
    ensures CallOk(g, m, AllFlagged(g), rptrs, wptrs, c, portOut0)
  {
    ReadPortsDefined(g, m, AllFlagged(g), rptrs, wptrs, c);
  }

  /** `read_ready[i]` holds for an idle port and for a port whose bank granted it. */
  lemma ReadReady(g: Geometry, m: Mem, ve: seq<Bits>, rptrs: seq<nat>, wptrs: seq<nat>, c: Call, portOut0: seq<Bits>,
                  i: nat)
    requires CallOk(g, m, ve, rptrs, wptrs, c, portOut0) && i < g.numReadPorts
    ensures var r, ra := RunResult(g, m, ve, rptrs, wptrs, c, portOut0), ReadArb(g, rptrs, c);
      r.readReady[i] <==> !c.readValid[i]
                          || (ReadBank(g, c, i) < g.numBanks && ra.validOut[ReadBank(g, c, i)]
                              && ra.source[ReadBank(g, c, i)] == i)
  {
    ArbFacts(g.numReadPorts, g.numBanks, rptrs, ReadRequests(g, c.readAddr), BankSels(g, c.readAddr), c.readValid,
             ReadReq(0));
  }

  /**
   * A read is acknowledged exactly when it is valid, its port is ready, and
   * its bank is not a single-port bank taken by a write in the same call.
   */
  lemma ReadAckIff(g: Geometry, m: Mem, ve: seq<Bits>, rptrs: seq<nat>, wptrs: seq<nat>, c: Call, portOut0: seq<Bits>,
                   i: nat)
    requires CallOk(g, m, ve, rptrs, wptrs, c, portOut0) && i < g.numReadPorts
    ensures var r := RunResult(g, m, ve, rptrs, wptrs, c, portOut0);
      r.readAck[i] <==>
        c.readValid[i] && r.readReady[i]
        && !(g.isSPRAM && exists j :: 0 <= j < g.numWritePorts && r.writeAck[j] && WriteBank(g, c, j) == ReadBank(g, c, i))
  {
    var r, ra, wa := RunResult(g, m, ve, rptrs, wptrs, c, portOut0), ReadArb(g, rptrs, c), WriteArb(g, wptrs, c);
    Arbitration(g, rptrs, wptrs, c);
    var b := ReadBank(g, c, i);
    if Acks(ra.ready, c.readValid)[i] {
      ReadWinners(g, rptrs, c, b);
      WriteWinners(g, wptrs, c, b);
      if DroppedBy(g.isSPRAM, ra.validOut, wa.validOut, ra.source, i, g.numBanks) {
        var b' :| 0 <= b' < g.numBanks && g.isSPRAM && ra.validOut[b'] && wa.validOut[b'] && ra.source[b'] == i;
        ReadWinners(g, rptrs, c, b');
      }
    }
  }

  /**
   * A port's read output is valid exactly when its read is acknowledged;
   * an acknowledged read is valid and names an existing entry, and a port
   * without one keeps its old `port_read_out`.
   */
  lemma ReadServed(g: Geometry, m: Mem, ve: seq<Bits>, rptrs: seq<nat>, wptrs: seq<nat>, c: Call, portOut0: seq<Bits>,
                   i: nat)
    requires CallOk(g, m, ve, rptrs, wptrs, c, portOut0) && i < g.numReadPorts
    ensures var r := RunResult(g, m, ve, rptrs, wptrs, c, portOut0);
      && (r.portOutValid[i] <==> r.readAck[i])
      && (!r.readAck[i] ==> r.portOut[i] == portOut0[i])
      && (r.readAck[i] ==> c.readValid[i] && ReadBank(g, c, i) < g.numBanks && ReadEntry(g, c, i) < g.entries)
  {
    var r, ra, wa := RunResult(g, m, ve, rptrs, wptrs, c, portOut0), ReadArb(g, rptrs, c), WriteArb(g, wptrs, c);
    Arbitration(g, rptrs, wptrs, c);
    if r.readAck[i] {
      var b := ReadBank(g, c, i);
      ReadWinners(g, rptrs, c, b);
      assert !DroppedBy(g.isSPRAM, ra.validOut, wa.validOut, ra.source, i, g.numBanks);
      assert !(g.isSPRAM && wa.validOut[b]);
    }
  }

  /**
   * Store forwarding: on a dual-port bank with `isSF`, an acknowledged read
   * of the entry an acknowledged write writes in the same call returns the
   * data being written.
   */
  lemma StoreForwarding(g: Geometry, m: Mem, ve: seq<Bits>, rptrs: seq<nat>, wptrs: seq<nat>, c: Call,
                        portOut0: seq<Bits>, i: nat, j: nat)
    requires CallOk(g, m, ve, rptrs, wptrs, c, portOut0) && i < g.numReadPorts && j < g.numWritePorts
    requires g.isSF && !g.isSPRAM
    requires ReadBank(g, c, i) == WriteBank(g, c, j) && ReadEntry(g, c, i) == WriteEntry(g, c, j)
    ensures var r := RunResult(g, m, ve, rptrs, wptrs, c, portOut0);
      r.readAck[i] && r.writeAck[j] ==> r.portOut[i] == c.writeData[j]
  {
    var r, ra, wa := RunResult(g, m, ve, rptrs, wptrs, c, portOut0), ReadArb(g, rptrs, c), WriteArb(g, wptrs, c);
    Arbitration(g, rptrs, wptrs, c);
    if r.readAck[i] && r.writeAck[j] {
      var b := ReadBank(g, c, i);
      ReadServed(g, m, ve, rptrs, wptrs, c, portOut0, i);
      ReadWinners(g, rptrs, c, b);
      WriteWinners(g, wptrs, c, b);
      assert Forwards(g, ra.dataOut, wa.dataOut, wa.validOut, b);
    }
  }

  /**
   * Without forwarding, an acknowledged read returns the word its entry
   * held before the call when the entry is flagged, and zero otherwise: a
   * write in the same call, to this entry or any other, is not seen.
   */
  lemma ReadFromBank(g: Geometry, m: Mem, ve: seq<Bits>, rptrs: seq<nat>, wptrs: seq<nat>, c: Call,
                     portOut0: seq<Bits>, i: nat)
    requires CallOk(g, m, ve, rptrs, wptrs, c, portOut0) && i < g.numReadPorts
    ensures var r := RunResult(g, m, ve, rptrs, wptrs, c, portOut0);
      r.readAck[i]
      && (g.isSF && !g.isSPRAM ==>
            forall j :: 0 <= j < g.numWritePorts && r.writeAck[j] && WriteBank(g, c, j) == ReadBank(g, c, i) ==>
              WriteEntry(g, c, j) != ReadEntry(g, c, i))
      ==> ReadBank(g, c, i) < g.numBanks && ReadEntry(g, c, i) < g.entries
          && (ve[ReadBank(g, c, i)][ReadEntry(g, c, i)] ==> Defined(m, g.wordWidth, ReadBank(g, c, i), ReadEntry(g, c, i)))
          && r.portOut[i] == EntryWord(g, m, ve, ReadBank(g, c, i), ReadEntry(g, c, i))
  {
    var r, ra, wa := RunResult(g, m, ve, rptrs, wptrs, c, portOut0), ReadArb(g, rptrs, c), WriteArb(g, wptrs, c);
    Arbitration(g, rptrs, wptrs, c);
    if r.readAck[i] {
      var b := ReadBank(g, c, i);
      ReadServed(g, m, ve, rptrs, wptrs, c, portOut0, i);
      ReadWinners(g, rptrs, c, b);
      WriteWinners(g, wptrs, c, b);
    }
  }

  /** An acknowledged write lands: after the call its entry holds its data. */
  lemma WritesLand(g: Geometry, m: Mem, ve: seq<Bits>, rptrs: seq<nat>, wptrs: seq<nat>, c: Call, portOut0: seq<Bits>,
                   j: nat)
    requires CallOk(g, m, ve, rptrs, wptrs, c, portOut0) && j < g.numWritePorts
    ensures var r := RunResult(g, m, ve, rptrs, wptrs, c, portOut0);
      r.writeAck[j] ==>
        && c.writeValid[j] && WriteBank(g, c, j) < g.numBanks && WriteEntry(g, c, j) < g.entries
        && Defined(r.mem, g.wordWidth, WriteBank(g, c, j), WriteEntry(g, c, j))
        && Get(r.mem, g.wordWidth, g.numBanks, g.entries, WriteBank(g, c, j), WriteEntry(g, c, j)) == c.writeData[j]
  {
    var r, wa := RunResult(g, m, ve, rptrs, wptrs, c, portOut0), WriteArb(g, wptrs, c);
    Arbitration(g, rptrs, wptrs, c);
    if r.writeAck[j] {
      var b := WriteBank(g, c, j);
      ArbFacts(g.numWritePorts, g.numBanks, wptrs, WriteRequests(g, c.writeAddr, c.writeData), BankSels(g, c.writeAddr),
               c.writeValid, WriteReq(0, Zeros(g.wordWidth)));
      WriteWinners(g, wptrs, c, b);
      WrittenWord(g, m, wa.dataOut, wa.validOut, b);
    }
  }

  /** An entry no acknowledged write addresses keeps its word. */
  lemma OnlyAckedWritesChange(g: Geometry, m: Mem, ve: seq<Bits>, rptrs: seq<nat>, wptrs: seq<nat>, c: Call,
                              portOut0: seq<Bits>, b: nat, e: nat)
    requires CallOk(g, m, ve, rptrs, wptrs, c, portOut0) && b < g.numBanks && e < g.entries
    requires var r := RunResult(g, m, ve, rptrs, wptrs, c, portOut0);
      forall j :: 0 <= j < g.numWritePorts && r.writeAck[j] ==> WriteBank(g, c, j) != b || WriteEntry(g, c, j) != e
    ensures RunResult(g, m, ve, rptrs, wptrs, c, portOut0).mem[b][e] == m[b][e]
  {
    var wa := WriteArb(g, wptrs, c);
    Arbitration(g, rptrs, wptrs, c);
    WriteWinners(g, wptrs, c, b);
    WrittenElsewhere(g, m, wa.dataOut, wa.validOut, b, e);
  }

  /** Each bank acknowledges at most one write port per call. */
  lemma OneWritePerBank(g: Geometry, m: Mem, ve: seq<Bits>, rptrs: seq<nat>, wptrs: seq<nat>, c: Call,
                        portOut0: seq<Bits>, j1: nat, j2: nat)
    requires CallOk(g, m, ve, rptrs, wptrs, c, portOut0) && j1 < g.numWritePorts && j2 < g.numWritePorts
    ensures var r := RunResult(g, m, ve, rptrs, wptrs, c, portOut0);
      r.writeAck[j1] && r.writeAck[j2] && WriteBank(g, c, j1) == WriteBank(g, c, j2) ==> j1 == j2
  {
    var r := RunResult(g, m, ve, rptrs, wptrs, c, portOut0);
    if r.writeAck[j1] && r.writeAck[j2] && WriteBank(g, c, j1) == WriteBank(g, c, j2) {
      WritesLand(g, m, ve, rptrs, wptrs, c, portOut0, j1);
      WriteWinners(g, wptrs, c, WriteBank(g, c, j1));
    }
  }

  /** Each bank acknowledges at most one read port per call. */
  lemma OneReadPerBank(g: Geometry, m: Mem, ve: seq<Bits>, rptrs: seq<nat>, wptrs: seq<nat>, c: Call,
                       portOut0: seq<Bits>, i1: nat, i2: nat)
    requires CallOk(g, m, ve, rptrs, wptrs, c, portOut0) && i1 < g.numReadPorts && i2 < g.numReadPorts
    ensures var r := RunResult(g, m, ve, rptrs, wptrs, c, portOut0);
      r.readAck[i1] && r.readAck[i2] && ReadBank(g, c, i1) == ReadBank(g, c, i2) ==> i1 == i2
  {
    var r := RunResult(g, m, ve, rptrs, wptrs, c, portOut0);
    if r.readAck[i1] && r.readAck[i2] && ReadBank(g, c, i1) == ReadBank(g, c, i2) {
      ReadServed(g, m, ve, rptrs, wptrs, c, portOut0, i1);
      ReadAckIff(g, m, ve, rptrs, wptrs, c, portOut0, i1);
      ReadAckIff(g, m, ve, rptrs, wptrs, c, portOut0, i2);
      ReadReady(g, m, ve, rptrs, wptrs, c, portOut0, i1);
      ReadReady(g, m, ve, rptrs, wptrs, c, portOut0, i2);
    }
  }

  /** A bank some valid write port addresses acknowledges one write to it. */
  lemma WritesProgress(g: Geometry, m: Mem, ve: seq<Bits>, rptrs: seq<nat>, wptrs: seq<nat>, c: Call,
                       portOut0: seq<Bits>, j: nat)
    requires CallOk(g, m, ve, rptrs, wptrs, c, portOut0) && j < g.numWritePorts
    requires c.writeValid[j] && WriteBank(g, c, j) < g.numBanks
    ensures var r := RunResult(g, m, ve, rptrs, wptrs, c, portOut0);
      exists k :: 0 <= k < g.numWritePorts && r.writeAck[k] && WriteBank(g, c, k) == WriteBank(g, c, j)
  {
    ArbFacts(g.numWritePorts, g.numBanks, wptrs, WriteRequests(g, c.writeAddr, c.writeData), BankSels(g, c.writeAddr),
             c.writeValid, WriteReq(0, Zeros(g.wordWidth)));
    WriteWinners(g, wptrs, c, WriteBank(g, c, j));
  }

  /**
   * A bank some valid read port addresses acknowledges one read to it,
   * unless it is a single-port bank taking a write in the same call.
   */
  lemma ReadsProgress(g: Geometry, m: Mem, ve: seq<Bits>, rptrs: seq<nat>, wptrs: seq<nat>, c: Call,
                      portOut0: seq<Bits>, i: nat)
    requires CallOk(g, m, ve, rptrs, wptrs, c, portOut0) && i < g.numReadPorts
    requires c.readValid[i] && ReadBank(g, c, i) < g.numBanks
    requires var r := RunResult(g, m, ve, rptrs, wptrs, c, portOut0);
      !(g.isSPRAM && exists j :: 0 <= j < g.numWritePorts && r.writeAck[j] && WriteBank(g, c, j) == ReadBank(g, c, i))
    ensures var r := RunResult(g, m, ve, rptrs, wptrs, c, portOut0);
      exists k :: 0 <= k < g.numReadPorts && r.readAck[k] && ReadBank(g, c, k) == ReadBank(g, c, i)
  {
    var ra := ReadArb(g, rptrs, c);
    var b := ReadBank(g, c, i);
    ArbFacts(g.numReadPorts, g.numBanks, rptrs, ReadRequests(g, c.readAddr), BankSels(g, c.readAddr), c.readValid,
             ReadReq(0));
    var k := ra.source[b];
    ReadAckIff(g, m, ve, rptrs, wptrs, c, portOut0, k);
    ReadReady(g, m, ve, rptrs, wptrs, c, portOut0, k);
  }

  // ---------------------------------------------------------------------
  // The short run and the response crossbar as methods
  // ---------------------------------------------------------------------

  /** `valid_entry[i] = ~0` for every bank: every entry flagged. */
  function AllFlagged(g: Geometry): (r: seq<Bits>)
    ensures EntryFlags(g, r)
    ensures forall b, e :: 0 <= b < g.numBanks && 0 <= e < g.entries ==> r[b][e]
  {
    Repeat(g.numBanks, Ones(g.entries))
  }

  /** The loop that fills `valid_entry` in the short `run`. */
  method FlagAll(g: Geometry) returns (ve: seq<Bits>)
    ensures ve == AllFlagged(g)
  {
    ve := [];
    for b := 0 to g.numBanks
      invariant ve == AllFlagged(g)[..b]
    {
      PrefixSnoc(AllFlagged(g), b);
      ve := ve + [Ones(g.entries)];
    }
  }

  /**
   * The response crossbar of `run` and the copy into `port_read_out`: a
   * port takes the answer of the bank it addressed when its read was
   * acknowledged and that bank answered, and keeps its old output otherwise.
   */
  method ResponseXbar(g: Geometry, rspData: seq<Bits>, rspValid: seq<bool>, sel: seq<nat>, ack: seq<bool>,
                      portOut0: seq<Bits>) returns (portOut: seq<Bits>, portOutValid: seq<bool>)
    requires |rspData| == |rspValid| == g.numBanks >= 1 && |sel| == |ack| == |portOut0|
    requires forall i :: 0 <= i < |sel| && ack[i] ==> sel[i] < g.numBanks
    ensures portOut == PortOutputs(g, rspData, rspValid, sel, ack, portOut0).data
    ensures portOutValid == PortOutputs(g, rspData, rspValid, sel, ack, portOut0).valid
  {
    var local := new Bits[|sel|](i => Zeros(g.wordWidth));
    var localValid := new bool[|sel|];
    Crossbar.CrossbarFull(rspData, rspValid, sel, ack, local, localValid, Zeros(g.wordWidth));
    ghost var r := PortOutputs(g, rspData, rspValid, sel, ack, portOut0);
    portOutValid := localValid[..];
    portOut := portOut0;
    for i := 0 to |sel|
      invariant |portOut| == |sel|
      invariant forall k :: 0 <= k < |sel| ==> portOut[k] == if k < i then r.data[k] else portOut0[k]
    {
      if portOutValid[i] {
        portOut := portOut[i := local[i]];
      }
    }
  }

  // ---------------------------------------------------------------------
  // ArbitratedScratchpadDP
  // ---------------------------------------------------------------------

  /** kNumBanks * kEntriesPerBank words split over kNumBanks banks leaves kEntriesPerBank per bank. */
  lemma EntriesPerBank(nb: nat, ne: nat)
    requires nb >= 1
    ensures (nb * ne) / nb == ne
  {
    DivModUnique(nb * ne, nb, ne, 0);
  }

  /**
   * One bank of `banks_load_store`: the words below bank b are written
   * first, so bank b still holds its entries as before the loop, and its
   * write comes next.
   */
  lemma BankStep(g: Geometry, m0: Mem, ve: seq<Bits>, rw: seq<ReadReq>, rv: seq<bool>, ww: seq<WriteReq>, wv: seq<bool>,
                 b: nat)
    requires WordMem(m0, g.numBanks, g.entries) && EntryFlags(g, ve) && WinnersOk(g, rw, rv, ww, wv)
    requires ReadsDefined(g, m0, ve, rw, rv, ww, wv) && b < g.numBanks
    ensures var mb := Stores(m0, g.wordWidth, g.numBanks, g.entries, LocalIndices(ww), WriteDatas(ww), wv, b);
      && (ReadsMemory(g, ve, rw, rv, ww, wv, b) ==>
            Defined(mb, g.wordWidth, b, rw[b].localIndex)
            && Get(mb, g.wordWidth, g.numBanks, g.entries, b, rw[b].localIndex)
               == Get(m0, g.wordWidth, g.numBanks, g.entries, b, rw[b].localIndex))
      && Stores(m0, g.wordWidth, g.numBanks, g.entries, LocalIndices(ww), WriteDatas(ww), wv, b + 1)
         == (if wv[b] then Put(mb, g.wordWidth, g.numBanks, g.entries, b, ww[b].localIndex, ww[b].data) else mb)
  {
    if rv[b] {
      StoresElsewhere(m0, g.wordWidth, g.numBanks, g.entries, LocalIndices(ww), WriteDatas(ww), wv, b, b,
                      rw[b].localIndex);
    }
  }

  class ArbitratedScratchpadDPClass {
    const numBanks: nat
    const numReadPorts: nat
    const numWritePorts: nat
    const entries: nat
    const wordWidth: nat
    const isSF: bool
    const isSPRAM: bool
    /** `banks`: `mem_array_sep<WordType, kNumBanks * kEntriesPerBank, kNumBanks>`. */
    const banks: MemArray
    /**
     * The pointers of the arbiters of `read_arbxbar` and `write_arbxbar`, one
     * per bank: a crossbar without queues keeps no other state.
     */
    var readPtrs: seq<nat>
    var writePtrs: seq<nat>

    /** The template parameters. */
    function Geo(): Geometry {
      Geometry(numBanks, numReadPorts, numWritePorts, entries, wordWidth, isSF, isSPRAM)
    }

    ghost predicate BanksValid()
      reads banks.bank
    {
      banks.Valid() && banks.numBanks == numBanks && banks.entriesPerBank == entries
      && banks.byteEnables == 1 && banks.wordWidth == wordWidth && banks.sliceWidth == wordWidth
    }

    /** The words held by the banks. */
    ghost function Mem(): (m: Mem)
      requires BanksValid()
      reads banks.bank
      ensures WordMem(m, numBanks, entries)
    {
      banks.Contents()
    }

    ghost predicate Valid()
      reads this, banks.bank
    {
      GeometryOk(Geo()) && BanksValid()
      && PtrsFor(Geo(), readPtrs, numReadPorts) && PtrsFor(Geo(), writePtrs, numWritePorts)
    }

    /** `ArbitratedScratchpadDP()`: every word undefined, every arbiter reset. */
    constructor (numBanks: nat, numReadPorts: nat, numWritePorts: nat, entries: nat, wordWidth: nat,
                 isSF: bool, isSPRAM: bool)
      requires GeometryOk(Geometry(numBanks, numReadPorts, numWritePorts, entries, wordWidth, isSF, isSPRAM))
      ensures Valid() && fresh(banks.bank)
      ensures Geo() == Geometry(numBanks, numReadPorts, numWritePorts, entries, wordWidth, isSF, isSPRAM)
      ensures readPtrs == Repeat(numBanks, numReadPorts) && writePtrs == Repeat(numBanks, numWritePorts)
      ensures forall b, e :: 0 <= b < numBanks && 0 <= e < entries ==> !Defined(Mem(), wordWidth, b, e)
    {
      this.numBanks := numBanks;
      this.numReadPorts := numReadPorts;
      this.numWritePorts := numWritePorts;
      this.entries := entries;
      this.wordWidth := wordWidth;
      this.isSF := isSF;
      this.isSPRAM := isSPRAM;
      var b := NewBanks(numBanks, entries, wordWidth);
      banks := b;
      readPtrs := Repeat(numBanks, numReadPorts);
      writePtrs := Repeat(numBanks, numWritePorts);
    }

    /** `mem_array_sep<WordType, kNumBanks * kEntriesPerBank, kNumBanks>`: every word undefined. */
    static method NewBanks(numBanks: nat, entries: nat, wordWidth: nat) returns (banks: MemArray)
      requires 1 <= numBanks && 1 <= wordWidth
      ensures fresh(banks.bank) && banks.Valid() && banks.numBanks == numBanks && banks.entriesPerBank == entries
      ensures banks.byteEnables == 1 && banks.wordWidth == wordWidth && banks.sliceWidth == wordWidth
      ensures forall b, e :: 0 <= b < numBanks && 0 <= e < entries ==> !AllDefined(banks.Contents()[b][e], wordWidth)
    {
      banks := new MemArray.Sep(numBanks * entries, numBanks, 1, wordWidth);
      EntriesPerBank(numBanks, entries);
      forall b, e | 0 <= b < numBanks && 0 <= e < entries
        ensures !AllDefined(banks.Contents()[b][e], wordWidth)
      {
        assert banks.Contents()[b][e][0] == At(banks.Raw(), entries, 1, b, e, 0);
      }
    }

    /** `banks.read(e, b)`: the word e of bank b. */
    method LoadBank(b: nat, e: nat) returns (rdata: Bits)
      requires BanksValid() && b < numBanks && e < entries && Defined(Mem(), wordWidth, b, e)
      ensures rdata == Get(Mem(), wordWidth, numBanks, entries, b, e)
    {
      rdata := banks.Read(e, b);
    }

    /** `banks.write(e, b, wdata)`: word e of bank b becomes wdata. */
    method StoreBank(b: nat, e: nat, wdata: Bits)
      requires BanksValid() && b < numBanks && e < entries && |wdata| == wordWidth
      modifies banks.bank
      ensures BanksValid() && Mem() == Put(old(Mem()), wordWidth, numBanks, entries, b, e, wdata)
    {
      banks.Write(e, b, wdata, Ones(1), true);
    }

    /**
     * `banks_load_store(...)`: every bank serves its winners in bank order.
     * A dual-port bank answers its read winner, forwarding the write data
     * to a read of the entry it writes when store forwarding is on, and then
     * writes; a single-port bank either writes or answers its read.
     */
    method BanksLoadStore(rw: seq<ReadReq>, rv: seq<bool>, ww: seq<WriteReq>, wv: seq<bool>, ve: seq<Bits>)
      returns (rspValid: seq<bool>, rspData: seq<Bits>)
      requires Valid() && WinnersOk(Geo(), rw, rv, ww, wv) && EntryFlags(Geo(), ve)
      requires ReadsDefined(Geo(), Mem(), ve, rw, rv, ww, wv)
      modifies banks.bank
      ensures Valid() && Mem() == Written(Geo(), old(Mem()), ww, wv)
      ensures rspValid == Answered(Geo(), rv, wv) && rspData == Answers(Geo(), old(Mem()), ve, rw, rv, ww, wv)
    {
      var g := Geo();
      ghost var m0 := Mem();
      ghost var idx, data := LocalIndices(ww), WriteDatas(ww);
      ghost var answered, answers := Answered(g, rv, wv), Answers(g, m0, ve, rw, rv, ww, wv);
      rspValid, rspData := [], [];
      for b := 0 to numBanks
        invariant Valid()
        invariant Mem() == Stores(m0, wordWidth, numBanks, entries, idx, data, wv, b)
        invariant rspValid == answered[..b] && rspData == answers[..b]
      {
        PrefixSnoc(answered, b);
        PrefixSnoc(answers, b);
        var valid, rdata := ServeBank(m0, rw, rv, ww, wv, ve, b);
        rspValid, rspData := rspValid + [valid], rspData + [rdata];
      }
    }

    /** Bank b of the loop of `banks_load_store`, with the banks below it already served. */
    method ServeBank(ghost m0: Mem, rw: seq<ReadReq>, rv: seq<bool>, ww: seq<WriteReq>, wv: seq<bool>, ve: seq<Bits>,
                     b: nat) returns (valid: bool, rdata: Bits)
      requires Valid() && WordMem(m0, numBanks, entries) && WinnersOk(Geo(), rw, rv, ww, wv)
      requires EntryFlags(Geo(), ve) && ReadsDefined(Geo(), m0, ve, rw, rv, ww, wv) && b < numBanks
      requires Mem() == Stores(m0, wordWidth, numBanks, entries, LocalIndices(ww), WriteDatas(ww), wv, b)
      modifies banks.bank
      ensures Valid() && Mem() == Stores(m0, wordWidth, numBanks, entries, LocalIndices(ww), WriteDatas(ww), wv, b + 1)
      ensures valid == Answered(Geo(), rv, wv)[b] && rdata == Answers(Geo(), m0, ve, rw, rv, ww, wv)[b]
    {
      BankStep(Geo(), m0, ve, rw, rv, ww, wv, b);
      valid, rdata := false, Zeros(wordWidth);
      if !isSPRAM {
        if rv[b] {
          valid := true;
          if isSF && wv[b] && rw[b].localIndex == ww[b].localIndex {
            rdata := ww[b].data;
          } else if ve[b][rw[b].localIndex] {
            rdata := LoadBank(b, rw[b].localIndex);
          }
        }
        if wv[b] {
          StoreBank(b, ww[b].localIndex, ww[b].data);
        }
      } else if wv[b] {
        StoreBank(b, ww[b].localIndex, ww[b].data);
        assert !rv[b];
      } else if rv[b] {
        valid := true;
        if ve[b][rw[b].localIndex] {
          rdata := LoadBank(b, rw[b].localIndex);
        }
      }
    }

    /**
     * The eleven-argument `run(...)`: both arbitrations, the single-port
     * drop, the banks and the response crossbar, as `RunResult` describes.
     */
    method Run(c: Call, ve: seq<Bits>, portOut0: seq<Bits>)
      returns (readAck: seq<bool>, writeAck: seq<bool>, readReady: seq<bool>, portOut: seq<Bits>, portOutValid: seq<bool>)
      requires Valid() && CallOk(Geo(), Mem(), ve, readPtrs, writePtrs, c, portOut0)
      modifies this, banks.bank
      ensures Valid()
      ensures var r := RunResult(Geo(), old(Mem()), ve, old(readPtrs), old(writePtrs), c, portOut0);
        && Mem() == r.mem && readPtrs == r.readPtrs && writePtrs == r.writePtrs
        && readAck == r.readAck && writeAck == r.writeAck && readReady == r.readReady
        && portOut == r.portOut && portOutValid == r.portOutValid
    {
      var g := Geo();
      ghost var m0, rptrs0, wptrs0 := Mem(), readPtrs, writePtrs;
      var rw, rv, ww, wv, rsel;
      rw, rv, ww, wv, rsel, readAck, writeAck, readReady := Arbitrate(c);
      Arbitration(g, rptrs0, wptrs0, c);
      var rspValid, rspData := BanksLoadStore(rw, rv, ww, wv, ve);
      portOut, portOutValid := ResponseXbar(g, rspData, rspValid, rsel, readAck, portOut0);
    }

    /**
     * The arbitration part of `run(...)`: `compute_bankread_request`,
     * `read_arbxbar.run`, the read acknowledgements, the same for the writes,
     * and the single-port drop.  It returns the winners of every bank, the
     * bank each read port addresses, and what the ports are told.
     */
    method Arbitrate(c: Call)
      returns (rw: seq<ReadReq>, rv: seq<bool>, ww: seq<WriteReq>, wv: seq<bool>, rsel: seq<nat>,
               readAck: seq<bool>, writeAck: seq<bool>, readReady: seq<bool>)
      requires Valid() && PortsOk(Geo(), c)
      modifies this
      ensures Valid()
      ensures var ra, wa := ReadArb(Geo(), old(readPtrs), c), WriteArb(Geo(), old(writePtrs), c);
        && readPtrs == ra.ptrs && writePtrs == wa.ptrs
        && rw == ra.dataOut && rv == KeptReads(isSPRAM, ra.validOut, wa.validOut) && ww == wa.dataOut && wv == wa.validOut
        && rsel == BankSels(Geo(), c.readAddr)
        && readAck == KeptAcks(isSPRAM, Acks(ra.ready, c.readValid), ra.validOut, wa.validOut, ra.source, numBanks)
        && writeAck == Acks(wa.ready, c.writeValid) && readReady == Readies(ra.ready, c.readValid)
    {
      var g := Geo();
      Arbitration(g, readPtrs, writePtrs, c);
      var rreq, rvalid, wreq, wsel, wvalid;
      rreq, rsel, rvalid := ComputeBankReadRequest(g, c.readAddr, c.readValid);
      wreq, wsel, wvalid := ComputeBankWriteRequest(g, c.writeAddr, c.writeValid, c.writeData);
      var ra := Arb(numReadPorts, numBanks, readPtrs, rreq, rsel, rvalid, ReadReq(0));
      ArbPtrs(numReadPorts, numBanks, readPtrs, rreq, rsel, rvalid, ReadReq(0));
      readPtrs := ra.ptrs;
      var ack;
      ack, readReady := AckLoop(ra.ready, c.readValid);
      var wa := Arb(numWritePorts, numBanks, writePtrs, wreq, wsel, wvalid, WriteReq(0, Zeros(wordWidth)));
      ArbPtrs(numWritePorts, numBanks, writePtrs, wreq, wsel, wvalid, WriteReq(0, Zeros(wordWidth)));
      writePtrs := wa.ptrs;
      var writeReady;
      writeAck, writeReady := AckLoop(wa.ready, c.writeValid);
      rv, readAck := DropReads(isSPRAM, ra.validOut, wa.validOut, ra.source, ack);
      rw, ww, wv := ra.dataOut, wa.dataOut, wa.validOut;
    }

    /** The ten-argument `run(...)`: `valid_entry` flags every entry. */
    method RunAllFlagged(c: Call, portOut0: seq<Bits>)
      returns (readAck: seq<bool>, writeAck: seq<bool>, readReady: seq<bool>, portOut: seq<Bits>, portOutValid: seq<bool>)
      requires Valid() && CallOk(Geo(), Mem(), AllFlagged(Geo()), readPtrs, writePtrs, c, portOut0)
      modifies this, banks.bank
      ensures Valid()
      ensures var r := RunResult(Geo(), old(Mem()), AllFlagged(Geo()), old(readPtrs), old(writePtrs), c, portOut0);
        && Mem() == r.mem && readPtrs == r.readPtrs && writePtrs == r.writePtrs
        && readAck == r.readAck && writeAck == r.writeAck && readReady == r.readReady
        && portOut == r.portOut && portOutValid == r.portOutValid
    {
      var ve := FlagAll(Geo());
      readAck, writeAck, readReady, portOut, portOutValid := Run(c, ve, portOut0);
    }
  }
}
