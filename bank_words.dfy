/**
 * Whole-word access to a `mem_array_sep` with one byte enable, as the
 * scratchpads use it: `write(idx, bank, v)` with the default full mask and
 * `wce`, and `read(idx, bank)`.  Each word is a single slice as wide as the
 * word.
 */
module BankWords {
  import opened Bits
  import opened MemArray

  /** A memory of nb banks of ne one-slice words. */
  predicate WordMem(m: Mem, nb: nat, ne: nat) {
    Shaped(m, nb, ne, 1)
  }

  /** Word e of bank b holds data (it was written or cleared since construction). */
  predicate Defined(m: Mem, ww: nat, b: nat, e: nat)
    requires b < |m| && e < |m[b]|
  {
    AllDefined(m[b][e], ww)
  }

  /** `read(e, b)`. */
  function Get(m: Mem, ww: nat, nb: nat, ne: nat, b: nat, e: nat): (r: Bits)
    requires WordMem(m, nb, ne) && b < nb && e < ne && Defined(m, ww, b, e)
    ensures |r| == ww
  {
    MemRead(m, ww, ww, e, b)
  }

  /** `write(e, b, v)` with the full mask: word e of bank b becomes v, every other word is kept. */
  function Put(m: Mem, ww: nat, nb: nat, ne: nat, b: nat, e: nat, v: Bits): (r: Mem)
    requires WordMem(m, nb, ne) && b < nb && e < ne && |v| == ww
    ensures WordMem(r, nb, ne)
    ensures Defined(r, ww, b, e) && Get(r, ww, nb, ne, b, e) == v
    ensures forall b', e' :: 0 <= b' < nb && 0 <= e' < ne && (b' != b || e' != e) ==> r[b'][e'] == m[b'][e']
  {
    var r := MemWrite(m, ww, e, b, v, Ones(1), true);
    ReadAfterWrite(m, ww, ww, e, b, v);
    r
  }

  /** The shape of one bank loop's writes: bank b writes data[b] at addr[b] when we[b]. */
  predicate WriteArgs(ww: nat, nb: nat, ne: nat, addr: seq<nat>, data: seq<Bits>, we: seq<bool>) {
    |addr| == |data| == |we| <= nb
    && forall b :: 0 <= b < |we| && we[b] ==> addr[b] < ne && |data[b]| == ww
  }

  /** The memory after the writes of banks 0 .. j-1, in bank order. */
  function Stores(m: Mem, ww: nat, nb: nat, ne: nat, addr: seq<nat>, data: seq<Bits>, we: seq<bool>, j: nat): (r: Mem)
    requires WordMem(m, nb, ne) && WriteArgs(ww, nb, ne, addr, data, we) && j <= |we|
    ensures WordMem(r, nb, ne)
  {
    if j == 0 then m
    else
      var r := Stores(m, ww, nb, ne, addr, data, we, j - 1);
      if we[j - 1] then Put(r, ww, nb, ne, j - 1, addr[j - 1], data[j - 1]) else r
  }

  /** The bank loop touches word e of bank b only at step b, and only when bank b writes e. */
  lemma {:induction false} StoresElsewhere(m: Mem, ww: nat, nb: nat, ne: nat, addr: seq<nat>, data: seq<Bits>,
                                           we: seq<bool>, j: nat, b: nat, e: nat)
    requires WordMem(m, nb, ne) && WriteArgs(ww, nb, ne, addr, data, we) && j <= |we|
    requires b < nb && e < ne && (j <= b || !we[b] || addr[b] != e)
    ensures Stores(m, ww, nb, ne, addr, data, we, j)[b][e] == m[b][e]
  {
    if j > 0 {
      StoresElsewhere(m, ww, nb, ne, addr, data, we, j - 1, b, e);
    }
  }

  /** After the bank loop, a written word reads back as its data. */
  lemma {:induction false} StoresWrite(m: Mem, ww: nat, nb: nat, ne: nat, addr: seq<nat>, data: seq<Bits>,
                                       we: seq<bool>, j: nat, b: nat)
    requires WordMem(m, nb, ne) && WriteArgs(ww, nb, ne, addr, data, we) && j <= |we|
    requires b < j && we[b]
    ensures Defined(Stores(m, ww, nb, ne, addr, data, we, j), ww, b, addr[b])
    ensures Get(Stores(m, ww, nb, ne, addr, data, we, j), ww, nb, ne, b, addr[b]) == data[b]
  {
    if j - 1 != b {
      StoresWrite(m, ww, nb, ne, addr, data, we, j - 1, b);
    }
  }
}
