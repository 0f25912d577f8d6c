/**
 * `ArbitratedScratchpad` of `ArbitratedScratchpad.h`: NumInputs request
 * lanes share NumBanks banks of a `mem_array_sep`.  Every lane's address is
 * split into a bank and an address inside that bank; an
 * `ArbitratedCrossbar` (input queues of InputQueueLen entries, no output
 * queues) picks one request per bank; each bank executes its winner; and a
 * crossbar steers the loaded words back to the lanes the winners came from.
 */
module ArbitratedScratchpad {
  import opened Wrappers
  import opened Bits
  import opened NvhlsInt
  import opened MemArray
  import opened BankWords
  import opened ArbitratedCrossbar
  import Crossbar
  import Scratchpad

  // ---------------------------------------------------------------------
  // Bank count
  // ---------------------------------------------------------------------

  /** `is_nbanks_power_of_2 = (NumBanks & (NumBanks - 1)) == 0` on 32-bit unsigned values. */
  predicate IsPow2Banks(nb: nat)
    requires 1 <= nb < UINT_LIMIT
  {
    AndIsZero(nb, nb - 1, 32)
  }

  /** `(x & y) == 0` on w-bit unsigned values. */
  predicate AndIsZero(x: nat, y: nat, w: nat) {
    IsZero(And(FromNat(x, w), FromNat(y, w)))
  }

  /** The top bit of a value in [2^t, 2^(t+1)) is bit t. */
  lemma TopBit(x: nat, t: nat)
    requires Pow2(t) <= x < 2 * Pow2(t)
    ensures BitOf(x, t)
  {
    DivModUnique(x, Pow2(t), 1, x - Pow2(t));
  }

  /** Below bit t, 2^t has no set bit. */
  lemma Pow2LowBit(t: nat, i: nat)
    requires i < t
    ensures !BitOf(Pow2(t), i)
  {
    var q := Pow2(t - i);
    assert q == 2 * Pow2(t - i - 1);
    assert Pow2(t) == q * Pow2(i) by { Pow2Add(i, t - i); }
    DivModUnique(Pow2(t), Pow2(i), q, 0);
  }

  /** From bit t up, 2^t - 1 has no set bit. */
  lemma Pow2PredHighBit(t: nat, i: nat)
    requires t <= i
    ensures !BitOf(Pow2(t) - 1, i)
  {
    Pow2Monotone(t, i);
    DivModUnique(Pow2(t) - 1, Pow2(i), 0, Pow2(t) - 1);
  }

  /** 2^t and 2^t - 1 share no set bit. */
  lemma Pow2BitsDisjoint(t: nat, i: nat)
    ensures !(BitOf(Pow2(t), i) && BitOf(Pow2(t) - 1, i))
  {
    if i < t {
      Pow2LowBit(t, i);
    } else {
      Pow2PredHighBit(t, i);
    }
  }

  /** The AND of two w-bit values is zero when no bit below w is set in both. */
  lemma AndClear(x: nat, y: nat, w: nat)
    requires forall k :: 0 <= k < w ==> !(BitOf(x, k) && BitOf(y, k))
    ensures AndIsZero(x, y, w)
  {
    forall k | 0 <= k < w ensures !And(FromNat(x, w), FromNat(y, w))[k] {
      FromNatBit(x, w, k);
      FromNatBit(y, w, k);
    }
  }

  /** The AND of two w-bit values is not zero when some bit below w is set in both. */
  lemma AndSet(x: nat, y: nat, w: nat, k: nat)
    requires k < w && BitOf(x, k) && BitOf(y, k)
    ensures !AndIsZero(x, y, w)
  {
    FromNatBit(x, w, k);
    FromNatBit(y, w, k);
    assert And(FromNat(x, w), FromNat(y, w))[k];
  }

  /** The bitwise test holds exactly for the powers of two (1 included). */
  lemma PowerOfTwoTest(nb: nat)
    requires 1 <= nb < UINT_LIMIT
    ensures IsPow2Banks(nb) <==> nb == Pow2(Log2Floor(nb))
  {
    var t := Log2Floor(nb);
    if nb == Pow2(t) {
      forall k | 0 <= k < 32 ensures !(BitOf(nb, k) && BitOf(nb - 1, k)) {
        Pow2BitsDisjoint(t, k);
      }
      AndClear(nb, nb - 1, 32);
    } else {
      TopBit(nb, t);
      TopBit(nb - 1, t);
      AndSet(nb, nb - 1, 32, t);
    }
  }

  /**
   * `log2_nbanks`: 1 for one bank, else `nbits<NumBanks - 1>`, written with
   * `BitLength`, which `NBits` equals; the bank index fits in it.
   */
  function Log2Banks(nb: nat): (r: nat)
    requires 1 <= nb < UINT_LIMIT
    ensures r >= 1 && nb <= Pow2(r)
  {
    if nb == 1 then 1 else BitLength(nb - 1)
  }

  /** Above one bank, `log2_nbanks` brackets NumBanks - 1 by powers of two. */
  lemma Log2BanksBracket(nb: nat)
    requires 1 < nb < UINT_LIMIT
    ensures Pow2(Log2Banks(nb) - 1) <= nb - 1 < Pow2(Log2Banks(nb))
  {
  }

  /** The bit length of 2^t - 1 is t. */
  lemma Pow2PredLength(nb: nat, t: nat, r: nat)
    requires nb == Pow2(t) && t >= 1 && r >= 1
    requires Pow2(r - 1) <= nb - 1 < Pow2(r)
    ensures r == t
  {
    assert Pow2(t) == 2 * Pow2(t - 1);
    if r < t {
      Pow2Monotone(r, t - 1);
    } else if r > t {
      Pow2Monotone(t, r - 1);
    }
  }

  /** For a power of two above 1, `log2_nbanks` bits count exactly the banks. */
  lemma Log2BanksExact(nb: nat)
    requires 1 < nb < UINT_LIMIT && IsPow2Banks(nb)
    ensures Pow2(Log2Banks(nb)) == nb
  {
    PowerOfTwoTest(nb);
    var t := Log2Floor(nb);
    var r := Log2Banks(nb);
    Log2BanksBracket(nb);
    assert Pow2(0) == 1;
    Pow2PredLength(nb, t, r);
  }

  /** `bank_addr_width`: one bit more than the remaining address bits unless the bank count is a power of two above 1. */
  function BankAddrWidth(aw: nat, nb: nat): nat
    requires 1 <= nb < UINT_LIMIT && Log2Banks(nb) <= aw
  {
    if IsPow2Banks(nb) && nb > 1 then aw - Log2Banks(nb) else aw - Log2Banks(nb) + 1
  }

  // ---------------------------------------------------------------------
  // Bank and in-bank address of a lane
  // ---------------------------------------------------------------------

  /** The bank by bank count: the low `log2_nbanks` bits for a power of two, else `addr % NumBanks`. */
  function BankBySize(a: Bits, nb: nat): (r: nat)
    requires 1 <= nb < UINT_LIMIT && Log2Banks(nb) <= |a|
    ensures nb > 1 ==> r < nb
  {
    if IsPow2Banks(nb) then
      var r := ToNat(GetSlc(a, 0, Log2Banks(nb)));
      assert nb > 1 ==> r < nb by {
        if nb > 1 { Log2BanksExact(nb); }
      }
      r
    else ToNat(a) % nb
  }

  /** The in-bank address by bank count: the bits above the bank bits, else `addr / NumBanks`. */
  function AddrBySize(a: Bits, nb: nat): nat
    requires 1 <= nb < UINT_LIMIT && Log2Banks(nb) <= |a|
  {
    if IsPow2Banks(nb) then ToNat(GetSlc(a, Log2Banks(nb), |a| - Log2Banks(nb))) else Quot(ToNat(a), nb)
  }

  /** Unsigned division. */
  function Quot(x: nat, d: nat): nat
    requires d > 0
  {
    x / d
  }

  /** `bank_sel[in_chan]` as `compute_bank_request` writes it: bank 0 when there is a single input. */
  function BankSelAsWritten(a: Bits, n: nat, nb: nat): nat
    requires 1 <= nb < UINT_LIMIT && Log2Banks(nb) <= |a|
  {
    if n == 1 then 0 else BankBySize(a, nb)
  }

  /** `bank_req[in_chan].addr` as written: the whole address when there is a single input, cut to `bank_addr_t`. */
  function InBankAddrAsWritten(a: Bits, n: nat, nb: nat): nat
    requires 1 <= nb < UINT_LIMIT && Log2Banks(nb) <= |a|
  {
    (if n == 1 then ToNat(a) else AddrBySize(a, nb)) % Pow2(BankAddrWidth(|a|, nb))
  }

  /** The bank of a lane, with the single-bank case keyed on the bank count. */
  function BankOf(a: Bits, nb: nat): (r: nat)
    requires 1 <= nb < UINT_LIMIT && Log2Banks(nb) <= |a|
    ensures r < nb
  {
    if nb == 1 then 0 else BankBySize(a, nb)
  }

  /** The in-bank address of a lane, with the single-bank case keyed on the bank count. */
  function InBankAddr(a: Bits, nb: nat): nat
    requires 1 <= nb < UINT_LIMIT && Log2Banks(nb) <= |a|
  {
    (if nb == 1 then ToNat(a) else AddrBySize(a, nb)) % Pow2(BankAddrWidth(|a|, nb))
  }

  /** x < d * s gives x / d < s. */
  lemma QuotBelow(x: nat, d: nat, s: nat)
    requires d > 0 && x < d * s
    ensures x / d < s
  {
    if x / d >= s {
      MulMonotone(s, x / d, d);
    }
  }

  /** x < p * s and p < d give x / d < s. */
  lemma QuotientBound(x: nat, d: nat, p: nat, s: nat)
    requires 0 < p < d && x < p * s
    ensures x / d < s
  {
    MulMonotone(p, d, s);
    QuotBelow(x, d, s);
  }

  /** A value below the modulus is its own remainder. */
  lemma ModSmall(y: nat, s: nat)
    requires y < s
    ensures y % s == y
  {
    DivModUnique(y, s, 0, y);
  }

  /** x == x % d + d * (x / d). */
  lemma QuotRem(x: nat, d: nat)
    requires d > 0
    ensures x == x % d + d * (x / d)
  {
  }

  /** Below p * q, x / p is below q and so its own remainder modulo q. */
  lemma LowHigh(x: nat, p: nat, q: nat)
    requires p > 0 && x < p * q
    ensures x / p < q && (x / p) % q == x / p
  {
    QuotBelow(x, p, q);
    ModSmall(x / p, q);
  }

  /** 2^n == 2^k * 2^(n-k). */
  lemma Pow2Factor(k: nat, n: nat)
    requires k <= n
    ensures Pow2(n) == Pow2(k) * Pow2(n - k)
  {
    Pow2Add(k, n - k);
  }

  /** The low l bits of an address are its value modulo 2^l, the bits above it the quotient. */
  lemma SliceSplit(a: Bits, l: nat)
    requires l <= |a|
    ensures ToNat(GetSlc(a, 0, l)) == ToNat(a) % Pow2(l)
    ensures ToNat(GetSlc(a, l, |a| - l)) == ToNat(a) / Pow2(l) < Pow2(|a| - l)
  {
    var x := ToNat(a);
    var m := |a| - l;
    GetSlcValue(a, 0, l);
    GetSlcValue(a, l, m);
    assert Pow2(0) == 1;
    Pow2Factor(l, |a|);
    LowHigh(x, Pow2(l), Pow2(m));
  }

  /** The bank bits of a power-of-two bank count are `addr % NumBanks`, the rest `addr / NumBanks`. */
  lemma SplitPow2(a: Bits, nb: nat)
    requires 1 < nb < UINT_LIMIT && Log2Banks(nb) <= |a| && IsPow2Banks(nb)
    ensures BankBySize(a, nb) == ToNat(a) % nb
    ensures AddrBySize(a, nb) == ToNat(a) / nb
    ensures AddrBySize(a, nb) < Pow2(BankAddrWidth(|a|, nb))
  {
    var l := Log2Banks(nb);
    assert Pow2(l) == nb by { Log2BanksExact(nb); }
    assert BankAddrWidth(|a|, nb) == |a| - l;
    SliceSplit(a, l);
  }

  /** With 2^(l-1) < nb, a value of aw bits divided by nb fits in aw - l + 1 bits. */
  lemma QuotFitsWidth(x: nat, nb: nat, l: nat, aw: nat)
    requires 1 <= l <= aw && Pow2(l - 1) < nb && x < Pow2(aw)
    ensures x / nb < Pow2(aw - l + 1)
  {
    Pow2Factor(l - 1, aw);
    QuotientBound(x, nb, Pow2(l - 1), Pow2(aw - l + 1));
  }

  /** Any other bank count above 1: `addr / NumBanks` fits in `bank_addr_t`. */
  lemma SplitOther(a: Bits, nb: nat)
    requires 1 < nb < UINT_LIMIT && Log2Banks(nb) <= |a| && !IsPow2Banks(nb)
    ensures AddrBySize(a, nb) == ToNat(a) / nb
    ensures AddrBySize(a, nb) < Pow2(BankAddrWidth(|a|, nb))
  {
    var x, l := ToNat(a), Log2Banks(nb);
    assert Pow2(l - 1) < nb by { Log2BanksBracket(nb); }
    assert 1 <= l <= |a|;
    assert x < Pow2(|a|);
    var w := BankAddrWidth(|a|, nb);
    assert w == |a| - l + 1;
    assert x / nb < Pow2(w) by { QuotFitsWidth(x, nb, l, |a|); }
    assert AddrBySize(a, nb) == x / nb;
  }

  /**
   * Bank and in-bank address are `addr % NumBanks` and `addr / NumBanks`,
   * whatever the bank count: so the bank is in range, and the two together
   * give back the address.
   */
  lemma AddressSplit(a: Bits, nb: nat)
    requires 1 <= nb < UINT_LIMIT && Log2Banks(nb) <= |a|
    ensures BankOf(a, nb) == ToNat(a) % nb < nb
    ensures InBankAddr(a, nb) == ToNat(a) / nb
    ensures ToNat(a) == BankOf(a, nb) + nb * InBankAddr(a, nb)
  {
    var w := BankAddrWidth(|a|, nb);
    var x := ToNat(a);
    if nb == 1 {
      assert w == |a|;
      ModSmall(x, Pow2(w));
    } else if IsPow2Banks(nb) {
      SplitPow2(a, nb);
      ModSmall(AddrBySize(a, nb), Pow2(w));
    } else {
      SplitOther(a, nb);
      ModSmall(AddrBySize(a, nb), Pow2(w));
    }
    QuotRem(x, nb);
  }

  /** Two addresses of one width that name the same bank and in-bank address are the same address. */
  lemma AddressSplitInjective(a: Bits, a': Bits, nb: nat)
    requires 1 <= nb < UINT_LIMIT && Log2Banks(nb) <= |a| == |a'|
    requires BankOf(a, nb) == BankOf(a', nb) && InBankAddr(a, nb) == InBankAddr(a', nb)
    ensures a == a'
  {
    AddressSplit(a, nb);
    AddressSplit(a', nb);
    FromNatToNat(a);
    FromNatToNat(a');
  }

  /** With one bank and two inputs, address 1 is sent to bank 1, which does not exist. */
  lemma OneBankMisroutes()
    ensures BankSelAsWritten([true], 2, 1) == 1
  {
    PowerOfTwoTest(1);
    assert Pow2(0) == 1;
    assert GetSlc([true], 0, 1) == [true];
  }

  /** With one input and four banks, addresses 0 and 4 of a 16-word scratchpad name the same word. */
  lemma OneInputAliases()
    ensures [false, false, false, false] != [false, false, true, false]
    ensures BankSelAsWritten([false, false, false, false], 1, 4) == BankSelAsWritten([false, false, true, false], 1, 4)
    ensures InBankAddrAsWritten([false, false, false, false], 1, 4) == 0
    ensures InBankAddrAsWritten([false, false, true, false], 1, 4) == 0
  {
    PowerOfTwoTest(4);
    Pow2Values();
    assert Pow2(2) == 4;
    assert Log2Floor(4) == 2;
    assert NBits(3) == 2 by { assert BitLength(3) == 2; }
    assert BankAddrWidth(4, 4) == 2;
    assert ToNat([false, false, true, false]) == 4;
  }

  /** Above one bank and one input, the corrected bank and in-bank address are the ones written. */
  lemma CorrectedAgrees(a: Bits, n: nat, nb: nat)
    requires 1 < nb < UINT_LIMIT && Log2Banks(nb) <= |a| && n > 1
    ensures BankOf(a, nb) == BankSelAsWritten(a, n, nb) && InBankAddr(a, nb) == InBankAddrAsWritten(a, n, nb)
  {
  }

  // ---------------------------------------------------------------------
  // Parameters and requests
  // ---------------------------------------------------------------------

  /**
   * The template parameters: NumInputs, NumBanks, the words per bank
   * (CapacityInBytes / NumBanks), the word width of DataType, `addr_width`
   * and InputQueueLen.
   */
  datatype Geometry = Geometry(numInputs: nat, numBanks: nat, entries: nat, wordWidth: nat, addrWidth: nat,
                               queueLen: nat)

  predicate GeometryOk(g: Geometry) {
    1 <= g.numInputs <= 65536 && 1 <= g.numBanks < UINT_LIMIT && Log2Banks(g.numBanks) <= g.addrWidth
  }

  /** `bank_req_t`: load or store, in-bank address, store data and the lane it came from. */
  datatype BankReq = BankReq(doStore: bool, addr: nat, wdata: Bits, inputChan: nat)

  /** The all-zero `bank_req_t`. */
  function ZeroReq(ww: nat): BankReq {
    BankReq(false, 0, Zeros(ww), 0)
  }

  /** A `cli_req_t` with one valid bit, address and data word per input. */
  predicate ReqShape(g: Geometry, req: Scratchpad.CliReq) {
    |req.valids| == g.numInputs && |req.addr| == g.numInputs && |req.data| == g.numInputs
    && forall i :: 0 <= i < g.numInputs ==> |req.addr[i]| == g.addrWidth && |req.data[i]| == g.wordWidth
  }

  /**
   * `bank_req[in_chan]` as `compute_bank_request` fills it: a store when the
   * lane is valid and the opcode is STORE, the address within the bank, the
   * lane's data for a store, and the lane number.
   */
  function LaneRequest(g: Geometry, req: Scratchpad.CliReq, i: nat): (r: BankReq)
    requires GeometryOk(g) && ReqShape(g, req) && i < g.numInputs
    ensures r.doStore <==> req.valids[i] && req.opcode == Scratchpad.STORE
    ensures r.addr == ToNat(req.addr[i]) / g.numBanks
    ensures BankOf(req.addr[i], g.numBanks) + g.numBanks * r.addr == ToNat(req.addr[i])
    ensures r.wdata == if r.doStore then req.data[i] else Zeros(g.wordWidth)
    ensures r.inputChan == i
  {
    AddressSplit(req.addr[i], g.numBanks);
    var doStore := req.valids[i] && req.opcode == Scratchpad.STORE;
    BankReq(doStore, InBankAddr(req.addr[i], g.numBanks), if doStore then req.data[i] else Zeros(g.wordWidth), i)
  }

  /** `bank_req` for every lane. */
  function LaneRequests(g: Geometry, req: Scratchpad.CliReq): (r: seq<BankReq>)
    requires GeometryOk(g) && ReqShape(g, req)
    ensures |r| == g.numInputs && forall i :: 0 <= i < g.numInputs ==> r[i] == LaneRequest(g, req, i)
  {
    seq(g.numInputs, i requires 0 <= i < g.numInputs => LaneRequest(g, req, i))
  }

  /** `bank_sel` for every lane. */
  function LaneBanks(g: Geometry, req: Scratchpad.CliReq): (r: seq<nat>)
    requires GeometryOk(g) && ReqShape(g, req)
    ensures |r| == g.numInputs
    ensures forall i :: 0 <= i < g.numInputs ==> r[i] == BankOf(req.addr[i], g.numBanks) < g.numBanks
  {
    seq(g.numInputs, i requires 0 <= i < g.numInputs => BankOf(req.addr[i], g.numBanks))
  }

  /** `compute_bank_request`: the lane loop filling `bank_req`, `bank_sel` and `bank_req_valid`. */
  method ComputeBankRequest(g: Geometry, req: Scratchpad.CliReq) returns (bankReq: seq<BankReq>, bankSel: seq<nat>, valid: seq<bool>)
    requires GeometryOk(g) && ReqShape(g, req)
    ensures bankReq == LaneRequests(g, req) && bankSel == LaneBanks(g, req) && valid == req.valids
  {
    bankReq, bankSel, valid := [], [], [];
    for i := 0 to g.numInputs
      invariant bankReq == LaneRequests(g, req)[..i] && bankSel == LaneBanks(g, req)[..i] && valid == req.valids[..i]
    {
      var b := BankOf(req.addr[i], g.numBanks);
      var doStore := req.valids[i] && req.opcode == Scratchpad.STORE;
      var wdata := if doStore then req.data[i] else Zeros(g.wordWidth);
      PrefixSnoc(LaneRequests(g, req), i);
      PrefixSnoc(LaneBanks(g, req), i);
      PrefixSnoc(req.valids, i);
      bankReq := bankReq + [BankReq(doStore, InBankAddr(req.addr[i], g.numBanks), wdata, i)];
      bankSel := bankSel + [b];
      valid := valid + [req.valids[i]];
    }
  }

  // ---------------------------------------------------------------------
  // Bank loop
  // ---------------------------------------------------------------------

  /** The winners' in-bank addresses, store data and lanes. */
  function Addrs(w: seq<BankReq>): (r: seq<nat>)
    ensures |r| == |w| && forall b :: 0 <= b < |w| ==> r[b] == w[b].addr
  {
    seq(|w|, b requires 0 <= b < |w| => w[b].addr)
  }

  function Wdata(w: seq<BankReq>): (r: seq<Bits>)
    ensures |r| == |w| && forall b :: 0 <= b < |w| ==> r[b] == w[b].wdata
  {
    seq(|w|, b requires 0 <= b < |w| => w[b].wdata)
  }

  function Chans(w: seq<BankReq>): (r: seq<nat>)
    ensures |r| == |w| && forall b :: 0 <= b < |w| ==> r[b] == w[b].inputChan
  {
    seq(|w|, b requires 0 <= b < |w| => w[b].inputChan)
  }

  /** The banks that store: a valid winner with `do_store`. */
  function StoreEnables(w: seq<BankReq>, v: seq<bool>): (r: seq<bool>)
    requires |v| == |w|
    ensures |r| == |w| && forall b :: 0 <= b < |w| ==> (r[b] <==> v[b] && w[b].doStore)
  {
    seq(|w|, b requires 0 <= b < |w| => v[b] && w[b].doStore)
  }

  /** `bank_rsp[bank].valid`: a valid winner that loads. */
  function LoadAnswered(w: seq<BankReq>, v: seq<bool>): (r: seq<bool>)
    requires |v| == |w|
    ensures |r| == |w| && forall b :: 0 <= b < |w| ==> (r[b] <==> v[b] && !w[b].doStore)
  {
    seq(|w|, b requires 0 <= b < |w| => v[b] && !w[b].doStore)
  }

  /** What the banks need of the winners: in range, from a lane, and a load reads a word that holds data. */
  predicate WinnersOk(g: Geometry, m: Mem, w: seq<BankReq>, v: seq<bool>)
    requires WordMem(m, g.numBanks, g.entries)
  {
    |w| == g.numBanks && |v| == g.numBanks
    && forall b :: 0 <= b < g.numBanks && v[b] ==>
         w[b].addr < g.entries && |w[b].wdata| == g.wordWidth && w[b].inputChan < g.numInputs
         && (!w[b].doStore ==> Defined(m, g.wordWidth, b, w[b].addr))
  }

  /** `bank_rsp[bank].rdata`: the word a loading winner reads, before any store of the loop. */
  function LoadAnswers(g: Geometry, m: Mem, w: seq<BankReq>, v: seq<bool>): (r: seq<Bits>)
    requires WordMem(m, g.numBanks, g.entries) && WinnersOk(g, m, w, v)
    ensures |r| == g.numBanks
    ensures forall b :: 0 <= b < g.numBanks && v[b] && !w[b].doStore ==>
      r[b] == Get(m, g.wordWidth, g.numBanks, g.entries, b, w[b].addr)
  {
    seq(g.numBanks, b requires 0 <= b < g.numBanks =>
      if v[b] && !w[b].doStore then Get(m, g.wordWidth, g.numBanks, g.entries, b, w[b].addr) else Zeros(g.wordWidth))
  }

  /** The memory after the bank loop: every storing winner writes its word, in bank order. */
  function Stored(g: Geometry, m: Mem, w: seq<BankReq>, v: seq<bool>): (r: Mem)
    requires WordMem(m, g.numBanks, g.entries) && WinnersOk(g, m, w, v)
    ensures WordMem(r, g.numBanks, g.entries)
  {
    Stores(m, g.wordWidth, g.numBanks, g.entries, Addrs(w), Wdata(w), StoreEnables(w, v), g.numBanks)
  }

  /** A word that holds data keeps holding data through the bank loop. */
  lemma {:induction false} StoresKeepDefined(m: Mem, ww: nat, nb: nat, ne: nat, addr: seq<nat>, data: seq<Bits>,
                                             we: seq<bool>, j: nat, b: nat, e: nat)
    requires WordMem(m, nb, ne) && WriteArgs(ww, nb, ne, addr, data, we) && j <= |we|
    requires b < nb && e < ne && Defined(m, ww, b, e)
    ensures Defined(Stores(m, ww, nb, ne, addr, data, we, j), ww, b, e)
  {
    if j > 0 {
      StoresKeepDefined(m, ww, nb, ne, addr, data, we, j - 1, b, e);
    }
  }

  // ---------------------------------------------------------------------
  // Response crossbar
  // ---------------------------------------------------------------------

  /**
   * The bank lane i reads its response from after the banks below j: the
   * last answering bank whose winner came from lane i (`source[input_chan]
   * = bank`, later banks overwriting earlier ones).
   */
  function SourceOf(chan: seq<nat>, valid: seq<bool>, i: nat, j: nat): (r: Option<nat>)
    requires j <= |chan| == |valid|
    ensures r.Some? ==> r.value < j && valid[r.value] && chan[r.value] == i
    ensures r.None? <==> forall b :: 0 <= b < j ==> !(valid[b] && chan[b] == i)
  {
    if j == 0 then None
    else if valid[j - 1] && chan[j - 1] == i then Some(j - 1)
    else SourceOf(chan, valid, i, j - 1)
  }

  /** `source` after the banks below j; an entry never set keeps 0. */
  function SourceSel(chan: seq<nat>, valid: seq<bool>, n: nat, j: nat): (r: seq<nat>)
    requires j <= |chan| == |valid|
    ensures |r| == n
  {
    seq(n, i requires 0 <= i < n => match SourceOf(chan, valid, i, j) case Some(b) => b case None => 0)
  }

  /** `valid_src` after the banks below j. */
  function ValidSel(chan: seq<nat>, valid: seq<bool>, n: nat, j: nat): (r: seq<bool>)
    requires j <= |chan| == |valid|
    ensures |r| == n
  {
    seq(n, i requires 0 <= i < n => SourceOf(chan, valid, i, j).Some?)
  }

  /** One bank of the source loop sets the entry of its winner's lane. */
  lemma SelStep(chan: seq<nat>, valid: seq<bool>, n: nat, j: nat)
    requires j < |chan| == |valid| && (valid[j] ==> chan[j] < n)
    ensures SourceSel(chan, valid, n, j + 1) ==
      if valid[j] then SourceSel(chan, valid, n, j)[chan[j] := j] else SourceSel(chan, valid, n, j)
    ensures ValidSel(chan, valid, n, j + 1) ==
      if valid[j] then ValidSel(chan, valid, n, j)[chan[j] := true] else ValidSel(chan, valid, n, j)
  {
  }

  /**
   * `load_rsp`: lane i is valid exactly when some answering bank's winner
   * came from lane i, and then carries that bank's word; every other lane
   * carries zero.
   */
  function Responses(n: nat, ww: nat, chan: seq<nat>, rspValid: seq<bool>, rspData: seq<Bits>): (r: Scratchpad.CliRsp)
    requires 1 <= |rspValid| && |chan| == |rspValid| == |rspData|
    ensures |r.valids| == n && |r.data| == n
    ensures forall i :: 0 <= i < n ==> (r.valids[i] <==> exists b :: 0 <= b < |chan| && rspValid[b] && chan[b] == i)
    ensures forall i :: 0 <= i < n && r.valids[i] ==>
      exists b :: 0 <= b < |chan| && rspValid[b] && chan[b] == i && r.data[i] == rspData[b]
    ensures forall i :: 0 <= i < n && !r.valids[i] ==> r.data[i] == Zeros(ww)
  {
    var j := |chan|;
    var o := Crossbar.Route(rspData, rspValid, SourceSel(chan, rspValid, n, j), ValidSel(chan, rspValid, n, j), Zeros(ww));
    Scratchpad.CliRsp(o.valid, o.data)
  }

  /** The source loop, the response `crossbar` and the copy into `load_rsp`. */
  method RouteResponses(n: nat, ww: nat, chan: seq<nat>, rspValid: seq<bool>, rspData: seq<Bits>) returns (rsp: Scratchpad.CliRsp)
    requires 1 <= |rspValid| && |chan| == |rspValid| == |rspData|
    requires forall b :: 0 <= b < |chan| && rspValid[b] ==> chan[b] < n
    ensures rsp == Responses(n, ww, chan, rspValid, rspData)
  {
    var source := new nat[n](i => 0);
    var validSrc := new bool[n](i => false);
    assert source[..] == SourceSel(chan, rspValid, n, 0);
    assert validSrc[..] == ValidSel(chan, rspValid, n, 0);
    for b := 0 to |chan|
      invariant source[..] == SourceSel(chan, rspValid, n, b) && validSrc[..] == ValidSel(chan, rspValid, n, b)
    {
      SelStep(chan, rspValid, n, b);
      if rspValid[b] {
        source[chan[b]] := b;
        validSrc[chan[b]] := true;
      }
    }
    var dataOut := new Bits[n](i => Zeros(ww));
    var validOut := new bool[n](i => false);
    Crossbar.CrossbarFull(rspData, rspValid, source[..], validSrc[..], dataOut, validOut, Zeros(ww));
    rsp := Scratchpad.CliRsp(validOut[..], dataOut[..]);
  }

  // ---------------------------------------------------------------------
  // One load_store call on the abstract state
  // ---------------------------------------------------------------------

  /** A request of lane i, queued or arriving, that its bank can serve. */
  predicate Good(g: Geometry, m: Mem, d: DataDest<BankReq>, i: nat)
    requires WordMem(m, g.numBanks, g.entries)
  {
    d.dest < g.numBanks && d.data.addr < g.entries && |d.data.wdata| == g.wordWidth && d.data.inputChan == i
    && (!d.data.doStore ==> Defined(m, g.wordWidth, d.dest, d.data.addr))
  }

  /** Every queued request is Good for the lane whose queue holds it. */
  predicate QueuedOk(g: Geometry, m: Mem, inq: seq<seq<DataDest<BankReq>>>)
    requires WordMem(m, g.numBanks, g.entries)
  {
    |inq| == g.numInputs && forall i, k :: 0 <= i < |inq| && 0 <= k < |inq[i]| ==> Good(g, m, inq[i][k], i)
  }

  /**
   * What a call asks of its lanes: a valid lane addresses a word of its
   * bank, and a valid load a word that holds data.
   */
  predicate LanesOk(g: Geometry, m: Mem, req: Scratchpad.CliReq)
    requires GeometryOk(g) && ReqShape(g, req) && WordMem(m, g.numBanks, g.entries)
  {
    forall i :: 0 <= i < g.numInputs && req.valids[i] ==>
      InBankAddr(req.addr[i], g.numBanks) < g.entries
      && (req.opcode == Scratchpad.LOAD ==>
            Defined(m, g.wordWidth, BankOf(req.addr[i], g.numBanks), InBankAddr(req.addr[i], g.numBanks)))
  }

  /** The arbiter pointers and queues of a crossbar over the lanes and banks. */
  predicate ArbArgs(g: Geometry, inq: seq<seq<DataDest<BankReq>>>, ptrs: seq<nat>, req: Scratchpad.CliReq) {
    GeometryOk(g) && ReqShape(g, req) && |inq| == g.numInputs && |ptrs| == g.numBanks && PtrsOk(ptrs, g.numInputs)
  }

  /** The state before a call and the call's request, as `load_store` needs them. */
  predicate CallOk(g: Geometry, m: Mem, inq: seq<seq<DataDest<BankReq>>>, ptrs: seq<nat>, req: Scratchpad.CliReq) {
    ArbArgs(g, inq, ptrs, req) && WordMem(m, g.numBanks, g.entries) && QueuedOk(g, m, inq) && LanesOk(g, m, req)
  }

  /** Output queues of length 0: never used. */
  function Idle(nb: nat): (r: seq<seq<BankReq>>)
    ensures |r| == nb
  {
    Repeat(nb, [])
  }

  /** `request_xbar.run(bank_req, bank_sel, bank_req_valid, bank_req_winner, bank_req_winner_valid, input_ready)`. */
  function Arbitration(g: Geometry, inq: seq<seq<DataDest<BankReq>>>, ptrs: seq<nat>, req: Scratchpad.CliReq)
    : (r: Step<BankReq>)
    requires ArbArgs(g, inq, ptrs, req)
  {
    RunStep(g.queueLen, 0, g.numInputs, inq, Idle(g.numBanks), ptrs, LaneRequests(g, req), LaneBanks(g, req), req.valids,
            Repeat(g.numBanks, ZeroReq(g.wordWidth)), Repeat(g.numBanks, 0), ZeroReq(g.wordWidth))
  }

  /** What the request crossbar arbitrates between: the queue heads, or the lanes' own requests without queues. */
  function View(g: Geometry, inq: seq<seq<DataDest<BankReq>>>, req: Scratchpad.CliReq): (r: (seq<DataDest<BankReq>>, seq<bool>))
    requires GeometryOk(g) && ReqShape(g, req) && |inq| == g.numInputs
    ensures |r.0| == g.numInputs && |r.1| == g.numInputs
  {
    var reqs, sel := LaneRequests(g, req), LaneBanks(g, req);
    InputView(g.queueLen, Accepted(g.queueLen, inq, reqs, sel, req.valids), reqs, sel, req.valids, ZeroReq(g.wordWidth))
  }

  /** The lane each bank's arbiter grants. */
  function GrantsOf(g: Geometry, inq: seq<seq<DataDest<BankReq>>>, ptrs: seq<nat>, req: Scratchpad.CliReq)
    : (r: seq<Option<nat>>)
    requires ArbArgs(g, inq, ptrs, req)
    ensures |r| == g.numBanks
  {
    var v := View(g, inq, req);
    Grants(v.0, v.1, OutputReady(Idle(g.numBanks), 0), ptrs)
  }

  /** The crossbar step in terms of the view and the grants. */
  lemma ArbitrationParts(g: Geometry, inq: seq<seq<DataDest<BankReq>>>, ptrs: seq<nat>, req: Scratchpad.CliReq)
    requires ArbArgs(g, inq, ptrs, req)
    ensures var r := Arbitration(g, inq, ptrs, req);
      var v := View(g, inq, req);
      var gr := GrantsOf(g, inq, ptrs, req);
      && r.dataOut == Forward(gr, v.0, seq(g.numBanks, o => ZeroReq(g.wordWidth)))
      && r.validOut == Forwarded(gr)
      && r.ptrs == NewPtrs(gr, ptrs, g.numInputs)
      && r.inq == (if g.queueLen > 0
                   then Consume(Accepted(g.queueLen, inq, LaneRequests(g, req), LaneBanks(g, req), req.valids),
                                Consumed(gr, g.numInputs))
                   else inq)
      && r.ready == if g.queueLen > 0 then ReadyIn(inq, g.queueLen, req.valids) else Consumed(gr, g.numInputs)
  {
  }

  /** A valid lane's own request is Good. */
  lemma LaneGood(g: Geometry, m: Mem, req: Scratchpad.CliReq, i: nat)
    requires GeometryOk(g) && ReqShape(g, req) && WordMem(m, g.numBanks, g.entries) && LanesOk(g, m, req)
    requires i < g.numInputs && req.valids[i]
    ensures Good(g, m, DataDest(LaneRequest(g, req, i), BankOf(req.addr[i], g.numBanks)), i)
  {
  }

  /** Every entry of the input queues after the input stage is Good. */
  lemma AcceptedGood(g: Geometry, m: Mem, inq: seq<seq<DataDest<BankReq>>>, req: Scratchpad.CliReq, i: nat, k: nat)
    requires GeometryOk(g) && ReqShape(g, req) && WordMem(m, g.numBanks, g.entries) && LanesOk(g, m, req)
    requires QueuedOk(g, m, inq) && i < g.numInputs
    requires k < |Accepted(g.queueLen, inq, LaneRequests(g, req), LaneBanks(g, req), req.valids)[i]|
    ensures Good(g, m, Accepted(g.queueLen, inq, LaneRequests(g, req), LaneBanks(g, req), req.valids)[i][k], i)
  {
    if k >= |inq[i]| {
      LaneGood(g, m, req, i);
    }
  }

  /** What the crossbar sees of a valid lane is Good for that lane. */
  lemma ViewGood(g: Geometry, m: Mem, inq: seq<seq<DataDest<BankReq>>>, req: Scratchpad.CliReq, i: nat)
    requires GeometryOk(g) && ReqShape(g, req) && WordMem(m, g.numBanks, g.entries) && LanesOk(g, m, req)
    requires QueuedOk(g, m, inq) && i < g.numInputs && View(g, inq, req).1[i]
    ensures Good(g, m, View(g, inq, req).0[i], i)
  {
    if g.queueLen > 0 {
      AcceptedGood(g, m, inq, req, i, 0);
    } else {
      LaneGood(g, m, req, i);
    }
  }

  /**
   * The winner of bank b, when there is one, is what the crossbar saw of
   * the granted lane, a request for bank b that the bank can serve.
   */
  lemma WinnerGood(g: Geometry, m: Mem, inq: seq<seq<DataDest<BankReq>>>, ptrs: seq<nat>, req: Scratchpad.CliReq, b: nat)
    requires CallOk(g, m, inq, ptrs, req) && b < g.numBanks && Arbitration(g, inq, ptrs, req).validOut[b]
    ensures var gr := GrantsOf(g, inq, ptrs, req);
      var v := View(g, inq, req);
      && gr[b].Some? && gr[b].value < g.numInputs && v.1[gr[b].value] && v.0[gr[b].value].dest == b
      && Good(g, m, v.0[gr[b].value], gr[b].value)
      && Arbitration(g, inq, ptrs, req).dataOut[b] == v.0[gr[b].value].data
  {
    ArbitrationParts(g, inq, ptrs, req);
    var gr := GrantsOf(g, inq, ptrs, req);
    var v := View(g, inq, req);
    GrantRequested(v.0, v.1, OutputReady(Idle(g.numBanks), 0), ptrs, b, gr[b].value);
    ViewGood(g, m, inq, req, gr[b].value);
  }

  /** The bank loop can execute the winners. */
  lemma WinnersGood(g: Geometry, m: Mem, inq: seq<seq<DataDest<BankReq>>>, ptrs: seq<nat>, req: Scratchpad.CliReq)
    requires CallOk(g, m, inq, ptrs, req)
    ensures var r := Arbitration(g, inq, ptrs, req); WinnersOk(g, m, r.dataOut, r.validOut)
  {
    var r := Arbitration(g, inq, ptrs, req);
    ArbitrationParts(g, inq, ptrs, req);
    forall b | 0 <= b < g.numBanks && r.validOut[b]
      ensures r.dataOut[b].addr < g.entries && |r.dataOut[b].wdata| == g.wordWidth && r.dataOut[b].inputChan < g.numInputs
      ensures !r.dataOut[b].doStore ==> Defined(m, g.wordWidth, b, r.dataOut[b].addr)
    {
      WinnerGood(g, m, inq, ptrs, req, b);
    }
  }

  /** The state `load_store` leaves and what it reports. */
  datatype StepResult = StepResult(mem: Mem, inq: seq<seq<DataDest<BankReq>>>, ptrs: seq<nat>,
                                   rsp: Scratchpad.CliRsp, ready: seq<bool>)

  /**
   * `load_store(curr_cli_req, load_rsp, input_ready)` on the memory m, the
   * input queues inq and the bank arbiters' pointers ptrs: arbitration,
   * the bank loop and the response crossbar.
   */
  function LoadStoreStep(g: Geometry, m: Mem, inq: seq<seq<DataDest<BankReq>>>, ptrs: seq<nat>, req: Scratchpad.CliReq)
    : (s: StepResult)
    requires CallOk(g, m, inq, ptrs, req)
  {
    var r := Arbitration(g, inq, ptrs, req);
    WinnersGood(g, m, inq, ptrs, req);
    StepResult(Stored(g, m, r.dataOut, r.validOut), r.inq, r.ptrs,
               Responses(g.numInputs, g.wordWidth, Chans(r.dataOut), LoadAnswered(r.dataOut, r.validOut),
                         LoadAnswers(g, m, r.dataOut, r.validOut)),
               r.ready)
  }

  // ---------------------------------------------------------------------
  // What one call does
  // ---------------------------------------------------------------------

  /** A bank answering lane i is the bank of lane i's granted load, and its winner is that load. */
  lemma AnsweringBank(g: Geometry, m: Mem, inq: seq<seq<DataDest<BankReq>>>, ptrs: seq<nat>, req: Scratchpad.CliReq,
                      i: nat, b: nat)
    requires CallOk(g, m, inq, ptrs, req) && b < g.numBanks
    requires var r := Arbitration(g, inq, ptrs, req);
      LoadAnswered(r.dataOut, r.validOut)[b] && Chans(r.dataOut)[b] == i
    ensures var v := View(g, inq, req);
      && i < g.numInputs && GrantsOf(g, inq, ptrs, req)[b] == Some(i) && v.1[i] && v.0[i].dest == b
      && !v.0[i].data.doStore && Good(g, m, v.0[i], i) && Arbitration(g, inq, ptrs, req).dataOut[b] == v.0[i].data
  {
    WinnerGood(g, m, inq, ptrs, req, b);
  }

  /** A valid response to lane i comes from lane i's granted load, and carries the word it addresses. */
  lemma ResponseSource(g: Geometry, m: Mem, inq: seq<seq<DataDest<BankReq>>>, ptrs: seq<nat>, req: Scratchpad.CliReq,
                       i: nat)
    requires CallOk(g, m, inq, ptrs, req) && i < g.numInputs && LoadStoreStep(g, m, inq, ptrs, req).rsp.valids[i]
    ensures var v := View(g, inq, req);
      var gr := GrantsOf(g, inq, ptrs, req);
      && v.1[i] && !v.0[i].data.doStore && GrantedBy(gr, i, |gr|) && Good(g, m, v.0[i], i)
      && LoadStoreStep(g, m, inq, ptrs, req).rsp.data[i]
         == Get(m, g.wordWidth, g.numBanks, g.entries, v.0[i].dest, v.0[i].data.addr)
  {
    var r := Arbitration(g, inq, ptrs, req);
    WinnersGood(g, m, inq, ptrs, req);
    var w, vv := r.dataOut, r.validOut;
    var rsp := LoadStoreStep(g, m, inq, ptrs, req).rsp;
    assert rsp == Responses(g.numInputs, g.wordWidth, Chans(w), LoadAnswered(w, vv), LoadAnswers(g, m, w, vv));
    var b :| 0 <= b < g.numBanks && LoadAnswered(w, vv)[b] && Chans(w)[b] == i
             && rsp.data[i] == LoadAnswers(g, m, w, vv)[b];
    AnsweringBank(g, m, inq, ptrs, req, i, b);
  }

  /** Lane i's granted load gets a valid response. */
  lemma GrantedLoadAnswered(g: Geometry, m: Mem, inq: seq<seq<DataDest<BankReq>>>, ptrs: seq<nat>,
                            req: Scratchpad.CliReq, i: nat)
    requires CallOk(g, m, inq, ptrs, req) && i < g.numInputs
    requires View(g, inq, req).1[i] && !View(g, inq, req).0[i].data.doStore
    requires GrantedBy(GrantsOf(g, inq, ptrs, req), i, g.numBanks)
    ensures LoadStoreStep(g, m, inq, ptrs, req).rsp.valids[i]
  {
    var r := Arbitration(g, inq, ptrs, req);
    var v := View(g, inq, req);
    var gr := GrantsOf(g, inq, ptrs, req);
    WinnersGood(g, m, inq, ptrs, req);
    var o :| 0 <= o < |gr| && gr[o] == Some(i);
    GrantedWinner(g, inq, ptrs, req, o, i);
    ViewGood(g, m, inq, req, i);
    var d := r.dataOut[o];
    assert d.inputChan == i && !d.doStore;
    assert LoadAnswered(r.dataOut, r.validOut)[o];
    assert Chans(r.dataOut)[o] == i;
  }

  /** The bank that grants lane i forwards what the crossbar saw of lane i. */
  lemma GrantedWinner(g: Geometry, inq: seq<seq<DataDest<BankReq>>>, ptrs: seq<nat>, req: Scratchpad.CliReq, o: nat, i: nat)
    requires ArbArgs(g, inq, ptrs, req) && o < g.numBanks && GrantsOf(g, inq, ptrs, req)[o] == Some(i)
    ensures i < g.numInputs && View(g, inq, req).1[i] && View(g, inq, req).0[i].dest == o
    ensures Arbitration(g, inq, ptrs, req).validOut[o] && Arbitration(g, inq, ptrs, req).dataOut[o] == View(g, inq, req).0[i].data
  {
    var v := View(g, inq, req);
    GrantRequested(v.0, v.1, OutputReady(Idle(g.numBanks), 0), ptrs, o, i);
    ArbitrationParts(g, inq, ptrs, req);
  }

  /**
   * The response to lane i: valid exactly when the request the crossbar
   * saw from lane i is a load and was granted, and then the word it
   * addresses as it was before the call; zero otherwise.
   */
  lemma LoadServed(g: Geometry, m: Mem, inq: seq<seq<DataDest<BankReq>>>, ptrs: seq<nat>, req: Scratchpad.CliReq, i: nat)
    requires CallOk(g, m, inq, ptrs, req) && i < g.numInputs
    ensures var s := LoadStoreStep(g, m, inq, ptrs, req);
      var v := View(g, inq, req);
      && (s.rsp.valids[i] <==> v.1[i] && !v.0[i].data.doStore && Consumed(GrantsOf(g, inq, ptrs, req), g.numInputs)[i])
      && (s.rsp.valids[i] ==>
            Good(g, m, v.0[i], i)
            && s.rsp.data[i] == Get(m, g.wordWidth, g.numBanks, g.entries, v.0[i].dest, v.0[i].data.addr))
      && (!s.rsp.valids[i] ==> s.rsp.data[i] == Zeros(g.wordWidth))
  {
    var v := View(g, inq, req);
    var gr := GrantsOf(g, inq, ptrs, req);
    if LoadStoreStep(g, m, inq, ptrs, req).rsp.valids[i] {
      ResponseSource(g, m, inq, ptrs, req, i);
    } else if v.1[i] && !v.0[i].data.doStore && GrantedBy(gr, i, |gr|) {
      GrantedLoadAnswered(g, m, inq, ptrs, req, i);
    }
  }

  /** A granted store: afterwards the word it addresses reads back as its data. */
  lemma StoreLands(g: Geometry, m: Mem, inq: seq<seq<DataDest<BankReq>>>, ptrs: seq<nat>, req: Scratchpad.CliReq, i: nat)
    requires CallOk(g, m, inq, ptrs, req) && i < g.numInputs
    requires View(g, inq, req).1[i] && View(g, inq, req).0[i].data.doStore
    requires Consumed(GrantsOf(g, inq, ptrs, req), g.numInputs)[i]
    ensures var s := LoadStoreStep(g, m, inq, ptrs, req);
      var d := View(g, inq, req).0[i];
      && Good(g, m, d, i) && Defined(s.mem, g.wordWidth, d.dest, d.data.addr)
      && Get(s.mem, g.wordWidth, g.numBanks, g.entries, d.dest, d.data.addr) == d.data.wdata
  {
    var r := Arbitration(g, inq, ptrs, req);
    var v := View(g, inq, req);
    var gr := GrantsOf(g, inq, ptrs, req);
    WinnersGood(g, m, inq, ptrs, req);
    var o :| 0 <= o < |gr| && gr[o] == Some(i);
    GrantedWinner(g, inq, ptrs, req, o, i);
    ViewGood(g, m, inq, req, i);
    var w, vv := r.dataOut, r.validOut;
    StoresWrite(m, g.wordWidth, g.numBanks, g.entries, Addrs(w), Wdata(w), StoreEnables(w, vv), g.numBanks, o);
  }

  /** A word that changes was the target of a granted store. */
  lemma OnlyStoresWrite(g: Geometry, m: Mem, inq: seq<seq<DataDest<BankReq>>>, ptrs: seq<nat>, req: Scratchpad.CliReq,
                        b: nat, e: nat)
    requires CallOk(g, m, inq, ptrs, req) && b < g.numBanks && e < g.entries
    ensures var s := LoadStoreStep(g, m, inq, ptrs, req);
      var v := View(g, inq, req);
      s.mem[b][e] != m[b][e] ==>
        exists i :: 0 <= i < g.numInputs && v.1[i] && v.0[i].data.doStore
                    && Consumed(GrantsOf(g, inq, ptrs, req), g.numInputs)[i] && v.0[i].dest == b && v.0[i].data.addr == e
  {
    var r := Arbitration(g, inq, ptrs, req);
    var v := View(g, inq, req);
    var gr := GrantsOf(g, inq, ptrs, req);
    WinnersGood(g, m, inq, ptrs, req);
    var w, vv := r.dataOut, r.validOut;
    if vv[b] && w[b].doStore && w[b].addr == e {
      WinnerGood(g, m, inq, ptrs, req, b);
      var j := gr[b].value;
      assert GrantedBy(gr, j, |gr|);
      assert Consumed(gr, g.numInputs)[j];
    } else {
      StoresElsewhere(m, g.wordWidth, g.numBanks, g.entries, Addrs(w), Wdata(w), StoreEnables(w, vv), g.numBanks, b, e);
    }
  }

  /** A request the banks can serve stays servable through the bank loop. */
  lemma StaysGood(g: Geometry, m: Mem, w: seq<BankReq>, v: seq<bool>, d: DataDest<BankReq>, i: nat)
    requires WordMem(m, g.numBanks, g.entries) && WinnersOk(g, m, w, v) && Good(g, m, d, i)
    ensures Good(g, Stored(g, m, w, v), d, i)
  {
    if !d.data.doStore {
      StoresKeepDefined(m, g.wordWidth, g.numBanks, g.entries, Addrs(w), Wdata(w), StoreEnables(w, v), g.numBanks,
                        d.dest, d.data.addr);
    }
  }

  /** The input queues stay servable: every queued request is Good afterwards. */
  lemma QueuesStayGood(g: Geometry, m: Mem, inq: seq<seq<DataDest<BankReq>>>, ptrs: seq<nat>, req: Scratchpad.CliReq)
    requires CallOk(g, m, inq, ptrs, req)
    ensures var s := LoadStoreStep(g, m, inq, ptrs, req); QueuedOk(g, s.mem, s.inq)
  {
    var r := Arbitration(g, inq, ptrs, req);
    var s := LoadStoreStep(g, m, inq, ptrs, req);
    WinnersGood(g, m, inq, ptrs, req);
    ArbitrationParts(g, inq, ptrs, req);
    var acc := Accepted(g.queueLen, inq, LaneRequests(g, req), LaneBanks(g, req), req.valids);
    var consumed := Consumed(GrantsOf(g, inq, ptrs, req), g.numInputs);
    forall i, k | 0 <= i < |s.inq| && 0 <= k < |s.inq[i]|
      ensures Good(g, s.mem, s.inq[i][k], i)
    {
      var k' := if g.queueLen > 0 && consumed[i] && |acc[i]| > 0 then k + 1 else k;
      assert s.inq[i][k] == acc[i][k'];
      AcceptedGood(g, m, inq, req, i, k');
      StaysGood(g, m, r.dataOut, r.validOut, acc[i][k'], i);
    }
  }

  /** Without input queues the crossbar sees each lane's own request. */
  lemma DirectView(g: Geometry, inq: seq<seq<DataDest<BankReq>>>, req: Scratchpad.CliReq, i: nat)
    requires GeometryOk(g) && ReqShape(g, req) && |inq| == g.numInputs && g.queueLen == 0 && i < g.numInputs
    ensures View(g, inq, req).1[i] == req.valids[i]
    ensures View(g, inq, req).0[i] == DataDest(LaneRequest(g, req, i), BankOf(req.addr[i], g.numBanks))
  {
  }

  /**
   * Without input queues, lane i's load is answered exactly when it is
   * valid and accepted, with the word at its bank and in-bank address.
   */
  lemma DirectLoad(g: Geometry, m: Mem, inq: seq<seq<DataDest<BankReq>>>, ptrs: seq<nat>, req: Scratchpad.CliReq, i: nat)
    requires CallOk(g, m, inq, ptrs, req) && g.queueLen == 0 && i < g.numInputs
    ensures var s := LoadStoreStep(g, m, inq, ptrs, req);
      var a := req.addr[i];
      && (s.rsp.valids[i] <==> req.valids[i] && req.opcode == Scratchpad.LOAD && s.ready[i])
      && (s.rsp.valids[i] ==>
            s.rsp.data[i] == Get(m, g.wordWidth, g.numBanks, g.entries, BankOf(a, g.numBanks), InBankAddr(a, g.numBanks)))
      && (!s.rsp.valids[i] ==> s.rsp.data[i] == Zeros(g.wordWidth))
  {
    LoadServed(g, m, inq, ptrs, req, i);
    DirectView(g, inq, req, i);
    ArbitrationParts(g, inq, ptrs, req);
    AddressSplit(req.addr[i], g.numBanks);
  }

  /** Without input queues, lane i's accepted store reads back at its bank and in-bank address. */
  lemma DirectStore(g: Geometry, m: Mem, inq: seq<seq<DataDest<BankReq>>>, ptrs: seq<nat>, req: Scratchpad.CliReq, i: nat)
    requires CallOk(g, m, inq, ptrs, req) && g.queueLen == 0 && i < g.numInputs
    requires req.valids[i] && req.opcode == Scratchpad.STORE && LoadStoreStep(g, m, inq, ptrs, req).ready[i]
    ensures var s := LoadStoreStep(g, m, inq, ptrs, req);
      var a := req.addr[i];
      && Defined(s.mem, g.wordWidth, BankOf(a, g.numBanks), InBankAddr(a, g.numBanks))
      && Get(s.mem, g.wordWidth, g.numBanks, g.entries, BankOf(a, g.numBanks), InBankAddr(a, g.numBanks)) == req.data[i]
  {
    DirectView(g, inq, req, i);
    ArbitrationParts(g, inq, ptrs, req);
    AddressSplit(req.addr[i], g.numBanks);
    StoreLands(g, m, inq, ptrs, req, i);
  }

  /**
   * Bank b of the bank loop, after banks 0 .. b-1 executed: a load reads
   * the word as it was before the loop, and the loop's results grow by
   * bank b's.
   */
  lemma BankStep(g: Geometry, m0: Mem, w: seq<BankReq>, v: seq<bool>, b: nat)
    requires WordMem(m0, g.numBanks, g.entries) && WinnersOk(g, m0, w, v) && b < g.numBanks
    ensures var mb := Stores(m0, g.wordWidth, g.numBanks, g.entries, Addrs(w), Wdata(w), StoreEnables(w, v), b);
      && (v[b] && !w[b].doStore ==>
            Defined(mb, g.wordWidth, b, w[b].addr)
            && Get(mb, g.wordWidth, g.numBanks, g.entries, b, w[b].addr)
               == Get(m0, g.wordWidth, g.numBanks, g.entries, b, w[b].addr))
      && Stores(m0, g.wordWidth, g.numBanks, g.entries, Addrs(w), Wdata(w), StoreEnables(w, v), b + 1)
         == (if v[b] && w[b].doStore then Put(mb, g.wordWidth, g.numBanks, g.entries, b, w[b].addr, w[b].wdata) else mb)
      && LoadAnswered(w, v)[..b + 1] == LoadAnswered(w, v)[..b] + [v[b] && !w[b].doStore]
      && LoadAnswers(g, m0, w, v)[..b + 1] == LoadAnswers(g, m0, w, v)[..b]
           + [if v[b] && !w[b].doStore then Get(m0, g.wordWidth, g.numBanks, g.entries, b, w[b].addr) else Zeros(g.wordWidth)]
  {
    if v[b] && !w[b].doStore {
      StoresElsewhere(m0, g.wordWidth, g.numBanks, g.entries, Addrs(w), Wdata(w), StoreEnables(w, v), b, b, w[b].addr);
    }
    assert LoadAnswered(w, v)[..b + 1] == LoadAnswered(w, v)[..b] + [LoadAnswered(w, v)[b]];
    assert LoadAnswers(g, m0, w, v)[..b + 1] == LoadAnswers(g, m0, w, v)[..b] + [LoadAnswers(g, m0, w, v)[b]];
  }

  // ---------------------------------------------------------------------
  // ArbitratedScratchpad<DataType, CapacityInBytes, NumInputs, NumBanks, InputQueueLen>
  // ---------------------------------------------------------------------

  /** Without output queues the crossbar step leaves the (empty) output queues as they are. */
  lemma IdleStaysIdle(lenIn: nat, n: nat, inq: seq<seq<DataDest<BankReq>>>, nb: nat, ptrs: seq<nat>,
                      dataIn: seq<BankReq>, destIn: seq<nat>, validIn: seq<bool>, zero: BankReq)
    requires RunArgs(n, inq, Idle(nb), ptrs, dataIn, destIn, validIn, Repeat(nb, zero), Repeat(nb, 0))
    ensures RunStep(lenIn, 0, n, inq, Idle(nb), ptrs, dataIn, destIn, validIn, Repeat(nb, zero), Repeat(nb, 0), zero).outq
            == Idle(nb)
  {
  }

  class ArbitratedScratchpadClass {
    const numInputs: nat
    const numBanks: nat
    /** `CapacityInBytes`: words over all banks. */
    const capacity: nat
    const inputQueueLen: nat
    const wordWidth: nat
    /** `addr_width = nbits<CapacityInBytes - 1>`. */
    const addrWidth: nat
    /** `banks`: `mem_array_sep<DataType, CapacityInBytes, NumBanks>`. */
    const banks: MemArray
    /** `request_xbar`: lanes to banks, with input queues and no output queues. */
    const requestXbar: ArbitratedCrossbar<BankReq>

    /** The parameters as the step functions take them. */
    function Geo(): Geometry {
      Geometry(numInputs, numBanks, banks.entriesPerBank, wordWidth, addrWidth, inputQueueLen)
    }

    ghost predicate BanksValid()
      reads banks.bank
    {
      1 <= numBanks && banks.Valid() && banks.numBanks == numBanks && banks.entriesPerBank == capacity / numBanks
      && banks.byteEnables == 1 && banks.wordWidth == wordWidth && banks.sliceWidth == wordWidth
    }

    ghost predicate XbarValid()
      reads requestXbar, requestXbar.arbiters
      reads requestXbar.inputQueues, requestXbar.inputQueues.head, requestXbar.inputQueues.tail
      reads requestXbar.inputQueues.lastPush, requestXbar.inputQueues.body
      reads requestXbar.outputQueues, requestXbar.outputQueues.head, requestXbar.outputQueues.tail
      reads requestXbar.outputQueues.lastPush, requestXbar.outputQueues.body
    {
      requestXbar.Valid() && requestXbar.numInputs == numInputs && requestXbar.numOutputs == numBanks
      && requestXbar.lenInputBuffer == inputQueueLen && requestXbar.lenOutputBuffer == 0
      && requestXbar.outputQueues.contents == Idle(numBanks)
    }

    /** The words held by the banks. */
    ghost function Mem(): (m: Mem)
      requires BanksValid()
      reads banks.bank
      ensures WordMem(m, numBanks, banks.entriesPerBank)
    {
      banks.Contents()
    }

    /** The requests waiting in each lane's input queue. */
    ghost function Inq(): seq<seq<DataDest<BankReq>>>
      reads requestXbar.inputQueues
    {
      requestXbar.inputQueues.contents
    }

    /** The bank arbiters' pointers. */
    ghost function Ptrs(): seq<nat>
      requires requestXbar.ArbitersValid()
      reads requestXbar, requestXbar.arbiters
    {
      requestXbar.Ptrs()
    }

    ghost predicate Valid()
      reads banks.bank, requestXbar, requestXbar.arbiters
      reads requestXbar.inputQueues, requestXbar.inputQueues.head, requestXbar.inputQueues.tail
      reads requestXbar.inputQueues.lastPush, requestXbar.inputQueues.body
      reads requestXbar.outputQueues, requestXbar.outputQueues.head, requestXbar.outputQueues.tail
      reads requestXbar.outputQueues.lastPush, requestXbar.outputQueues.body
    {
      GeometryOk(Geo()) && 1 <= capacity && addrWidth == BitLength(capacity - 1)
      && BanksValid() && XbarValid() && QueuedOk(Geo(), Mem(), Inq())
    }

    /** `ArbitratedScratchpad()`: every word undefined, every queue empty, every arbiter reset. */
    constructor (numInputs: nat, numBanks: nat, capacity: nat, inputQueueLen: nat, wordWidth: nat)
      requires 1 <= numInputs <= 65536 && 1 <= numBanks < UINT_LIMIT && 1 <= capacity && 1 <= wordWidth
      requires Log2Banks(numBanks) <= BitLength(capacity - 1)
      ensures Valid() && fresh(banks.bank)
      ensures this.numInputs == numInputs && this.numBanks == numBanks && this.capacity == capacity
      ensures this.inputQueueLen == inputQueueLen && this.wordWidth == wordWidth && addrWidth == BitLength(capacity - 1)
      ensures Inq() == Repeat(numInputs, []) && Ptrs() == Repeat(numBanks, numInputs)
    {
      this.numInputs := numInputs;
      this.numBanks := numBanks;
      this.capacity := capacity;
      this.inputQueueLen := inputQueueLen;
      this.wordWidth := wordWidth;
      addrWidth := BitLength(capacity - 1);
      var b, x := NewParts(numInputs, numBanks, capacity, inputQueueLen, wordWidth, BitLength(capacity - 1));
      banks, requestXbar := b, x;
    }

    /** The banks and the request crossbar as the constructor builds them. */
    static method NewParts(numInputs: nat, numBanks: nat, capacity: nat, inputQueueLen: nat, wordWidth: nat, addrWidth: nat)
      returns (banks: MemArray, xbar: ArbitratedCrossbar<BankReq>)
      requires 1 <= numInputs <= 65536 && 1 <= numBanks && 1 <= wordWidth
      ensures fresh(banks.bank) && banks.Valid() && banks.numBanks == numBanks && banks.entriesPerBank == capacity / numBanks
      ensures banks.byteEnables == 1 && banks.wordWidth == wordWidth && banks.sliceWidth == wordWidth
      ensures xbar.Valid() && xbar.numInputs == numInputs && xbar.numOutputs == numBanks
      ensures xbar.lenInputBuffer == inputQueueLen && xbar.lenOutputBuffer == 0
      ensures xbar.inputQueues.contents == Repeat(numInputs, []) && xbar.outputQueues.contents == Idle(numBanks)
      ensures xbar.Ptrs() == Repeat(numBanks, numInputs)
      ensures QueuedOk(Geometry(numInputs, numBanks, banks.entriesPerBank, wordWidth, addrWidth, inputQueueLen),
                       banks.Contents(), xbar.inputQueues.contents)
    {
      xbar := new ArbitratedCrossbar(numInputs, numBanks, inputQueueLen, 0, ZeroReq(wordWidth));
      banks := new MemArray.Sep(capacity, numBanks, 1, wordWidth);
    }

    /** `reset()`: resets the request crossbar; the banks keep their words. */
    method Reset()
      requires Valid()
      modifies requestXbar.arbiters, requestXbar.inputQueues, requestXbar.inputQueues.head
      modifies requestXbar.inputQueues.tail, requestXbar.inputQueues.lastPush
      modifies requestXbar.outputQueues, requestXbar.outputQueues.head, requestXbar.outputQueues.tail
      modifies requestXbar.outputQueues.lastPush
      ensures Valid() && Mem() == old(Mem())
      ensures Inq() == Repeat(numInputs, []) && Ptrs() == Repeat(numBanks, numInputs)
    {
      requestXbar.Reset();
    }

    /** `banks.read(e, b)`: the word e of bank b. */
    method LoadBank(b: nat, e: nat) returns (rdata: Bits)
      requires BanksValid() && b < numBanks && e < banks.entriesPerBank && Defined(Mem(), wordWidth, b, e)
      ensures rdata == Get(Mem(), wordWidth, numBanks, banks.entriesPerBank, b, e)
    {
      rdata := banks.Read(e, b);
    }

    /** `banks.write(e, b, wdata)`: word e of bank b becomes wdata. */
    method StoreBank(b: nat, e: nat, wdata: Bits)
      requires BanksValid() && b < numBanks && e < banks.entriesPerBank && |wdata| == wordWidth
      modifies banks.bank
      ensures BanksValid() && Mem() == Put(old(Mem()), wordWidth, numBanks, banks.entriesPerBank, b, e, wdata)
    {
      banks.Write(e, b, wdata, Ones(1), true);
    }

    /**
     * `banks_load_store(bank_req, bank_req_valid, bank_rsp)`: every bank
     * executes its winner in bank order.  A load reads its word before any
     * store of the loop, since each bank holds one winner.
     */
    method BanksLoadStore(w: seq<BankReq>, v: seq<bool>) returns (rspValid: seq<bool>, rspData: seq<Bits>)
      requires GeometryOk(Geo()) && BanksValid() && WinnersOk(Geo(), Mem(), w, v)
      modifies banks.bank
      ensures BanksValid()
      ensures Mem() == Stored(Geo(), old(Mem()), w, v)
      ensures rspValid == LoadAnswered(w, v) && rspData == LoadAnswers(Geo(), old(Mem()), w, v)
    {
      ghost var m0 := Mem();
      var g := Geo();
      ghost var addrs, wdata, we := Addrs(w), Wdata(w), StoreEnables(w, v);
      ghost var answered, answers := LoadAnswered(w, v), LoadAnswers(g, m0, w, v);
      rspValid, rspData := [], [];
      for b := 0 to numBanks
        invariant BanksValid()
        invariant Mem() == Stores(m0, wordWidth, numBanks, g.entries, addrs, wdata, we, b)
        invariant rspValid == answered[..b] && rspData == answers[..b]
      {
        BankStep(g, m0, w, v, b);
        if v[b] && !w[b].doStore {
          var rdata := LoadBank(b, w[b].addr);
          rspValid, rspData := rspValid + [true], rspData + [rdata];
        } else {
          if v[b] {
            StoreBank(b, w[b].addr, w[b].wdata);
          }
          rspValid, rspData := rspValid + [false], rspData + [Zeros(wordWidth)];
        }
      }
      assert answered[..numBanks] == answered && answers[..numBanks] == answers;
    }

    /** `request_xbar.run(bank_req, bank_sel, bank_req_valid, ...)` with fresh output arrays. */
    method RunXbar(bankReq: seq<BankReq>, bankSel: seq<nat>, valid: seq<bool>) returns (winners: seq<BankReq>, winnersValid: seq<bool>, ready: seq<bool>)
      requires XbarValid() && |bankReq| == |bankSel| == |valid| == numInputs
      modifies requestXbar.arbiters
      modifies requestXbar.inputQueues, requestXbar.inputQueues.head, requestXbar.inputQueues.tail
      modifies requestXbar.inputQueues.lastPush, requestXbar.inputQueues.body
      modifies requestXbar.outputQueues, requestXbar.outputQueues.head, requestXbar.outputQueues.tail
      modifies requestXbar.outputQueues.lastPush, requestXbar.outputQueues.body
      ensures XbarValid()
      ensures var r := RunStep(inputQueueLen, 0, numInputs, old(Inq()), Idle(numBanks), old(Ptrs()), bankReq, bankSel,
                               valid, Repeat(numBanks, ZeroReq(wordWidth)), Repeat(numBanks, 0), ZeroReq(wordWidth));
        Inq() == r.inq && Ptrs() == r.ptrs && winners == r.dataOut && winnersValid == r.validOut && ready == r.ready
    {
      ghost var inq0, ptrs0 := Inq(), Ptrs();
      winners, winnersValid, ready := requestXbar.RunFresh(bankReq, bankSel, valid, ZeroReq(wordWidth));
      IdleStaysIdle(inputQueueLen, numInputs, inq0, numBanks, ptrs0, bankReq, bankSel, valid, ZeroReq(wordWidth));
    }

    /**
     * `banks_load_store` followed by the response crossbar: the banks
     * execute the winners and each answer goes back to the lane it came from.
     */
    method Serve(w: seq<BankReq>, v: seq<bool>) returns (rsp: Scratchpad.CliRsp)
      requires GeometryOk(Geo()) && BanksValid() && WinnersOk(Geo(), Mem(), w, v)
      modifies banks.bank
      ensures BanksValid() && Mem() == Stored(Geo(), old(Mem()), w, v)
      ensures rsp == Responses(numInputs, wordWidth, Chans(w), LoadAnswered(w, v), LoadAnswers(Geo(), old(Mem()), w, v))
    {
      var rspValid, rspData := BanksLoadStore(w, v);
      rsp := RouteResponses(numInputs, wordWidth, Chans(w), rspValid, rspData);
    }

    /**
     * `compute_bank_request` and `request_xbar.run(...)`: the winner of
     * each bank, whether it has one, and which lanes the crossbar took.
     */
    method Arbitrate(req: Scratchpad.CliReq) returns (winners: seq<BankReq>, winnersValid: seq<bool>, ready: seq<bool>)
      requires XbarValid() && GeometryOk(Geo()) && ReqShape(Geo(), req)
      modifies requestXbar.arbiters
      modifies requestXbar.inputQueues, requestXbar.inputQueues.head, requestXbar.inputQueues.tail
      modifies requestXbar.inputQueues.lastPush, requestXbar.inputQueues.body
      modifies requestXbar.outputQueues, requestXbar.outputQueues.head, requestXbar.outputQueues.tail
      modifies requestXbar.outputQueues.lastPush, requestXbar.outputQueues.body
      ensures XbarValid()
      ensures var r := Arbitration(Geo(), old(Inq()), old(Ptrs()), req);
        Inq() == r.inq && Ptrs() == r.ptrs && winners == r.dataOut && winnersValid == r.validOut && ready == r.ready
    {
      var bankReq, bankSel, valid := ComputeBankRequest(Geo(), req);
      winners, winnersValid, ready := RunXbar(bankReq, bankSel, valid);
    }

    /**
     * `load_store(curr_cli_req, load_rsp, input_ready)`: the lanes' requests
     * go through the request crossbar, each bank executes its winner, and
     * the answers of the loading banks go back to their lanes.
     */
    method LoadStore(req: Scratchpad.CliReq) returns (rsp: Scratchpad.CliRsp, ready: seq<bool>)
      requires Valid() && ReqShape(Geo(), req) && LanesOk(Geo(), Mem(), req)
      modifies banks.bank, requestXbar.arbiters
      modifies requestXbar.inputQueues, requestXbar.inputQueues.head, requestXbar.inputQueues.tail
      modifies requestXbar.inputQueues.lastPush, requestXbar.inputQueues.body
      modifies requestXbar.outputQueues, requestXbar.outputQueues.head, requestXbar.outputQueues.tail
      modifies requestXbar.outputQueues.lastPush, requestXbar.outputQueues.body
      ensures Valid()
      ensures var s := LoadStoreStep(Geo(), old(Mem()), old(Inq()), old(Ptrs()), req);
        Mem() == s.mem && Inq() == s.inq && Ptrs() == s.ptrs && rsp == s.rsp && ready == s.ready
    {
      var g := Geo();
      ghost var m0, inq0, ptrs0 := Mem(), Inq(), Ptrs();
      var winners, winnersValid, inputReady := Arbitrate(req);
      WinnersGood(g, m0, inq0, ptrs0, req);
      rsp := Serve(winners, winnersValid);
      ready := inputReady;
      QueuesStayGood(g, m0, inq0, ptrs0, req);
    }
  }
}
