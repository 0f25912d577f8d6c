/**
 * Banked memories with byte enables: `mem_array_sep` and `mem_array_opt`.
 *
 * Each bank holds `entriesPerBank * byteEnables` slices of
 * `sliceWidth = wordWidth / byteEnables` bits; word `idx` of a bank is made
 * of the slices `idx * byteEnables + i`, slice 0 in the low bits.  A slice
 * never written since construction holds 'X' values, which the model
 * writes `Undef`; reading a word with such a slice trips the library's
 * "Read data is X" assertion, so `Read` requires every slice defined.
 *
 * The value level (`Mem`, `MemWrite`, `MemRead`, `MemClear`) is what the
 * properties are proved about; the class `MemArray` keeps the slices in a
 * two-dimensional array and its methods are proved to follow the value
 * level.
 */
module MemArray {
  import opened Bits

  datatype Slice = Undef | Def(bits: Bits)

  /** The contents of a memory: m[b][e][i] is slice i of word e of bank b. */
  type Mem = seq<seq<seq<Slice>>>

  lemma SliceBounds(i: nat, n: nat, sw: nat)
    requires i < n
    ensures i * sw + sw == (i + 1) * sw <= n * sw
  {
    MulMonotone(i + 1, n, sw);
  }

  /** Slice i of a word: its bits [i * sw, (i + 1) * sw). */
  function SliceOf(w: Bits, i: nat, n: nat, sw: nat): (r: Bits)
    requires i < n && n * sw <= |w|
    ensures |r| == sw && forall k :: 0 <= k < sw ==> r[k] == w[i * sw + k]
  {
    SliceBounds(i, n, sw);
    w[i * sw..(i + 1) * sw]
  }

  predicate AllDefined(ss: seq<Slice>, sw: nat) {
    forall i :: 0 <= i < |ss| ==> ss[i].Def? && |ss[i].bits| == sw
  }

  /** The bits of defined slices laid side by side, the first one lowest. */
  function Join(ss: seq<Slice>, sw: nat): (r: Bits)
    requires AllDefined(ss, sw)
    ensures |r| == |ss| * sw
  {
    if |ss| == 0 then [] else Join(ss[..|ss| - 1], sw) + ss[|ss| - 1].bits
  }

  /** `banks` banks of `entries` words of `be` slices each. */
  predicate Shaped(m: Mem, banks: nat, entries: nat, be: nat) {
    |m| == banks && forall b :: 0 <= b < |m| ==> |m[b]| == entries && forall e :: 0 <= e < entries ==> |m[b][e]| == be
  }

  /** The slices of a word after a masked write of `val`. */
  function WordWrite(w: seq<Slice>, sw: nat, val: Bits, mask: Bits): (r: seq<Slice>)
    requires |mask| == |w| && |w| * sw <= |val|
    ensures |r| == |w|
  {
    seq(|w|, i requires 0 <= i < |w| => if mask[i] then Def(SliceOf(val, i, |w|, sw)) else w[i])
  }

  /**
   * `write(idx, bank_sel, val, write_mask, wce)`: when `wce` holds, each
   * slice i of word idx of bank `bs` whose mask bit is set receives slice i
   * of `val`; every other slice is kept.
   */
  function MemWrite(m: Mem, sw: nat, idx: nat, bs: nat, val: Bits, mask: Bits, wce: bool): (r: Mem)
    requires wce && bs < |m| && idx < |m[bs]| ==> |mask| == |m[bs][idx]| && |mask| * sw <= |val|
    ensures |r| == |m| && forall b :: 0 <= b < |m| ==> |r[b]| == |m[b]|
  {
    if wce && bs < |m| && idx < |m[bs]|
    then m[bs := m[bs][idx := WordWrite(m[bs][idx], sw, val, mask)]]
    else m
  }

  /**
   * `read(idx, bank_sel)`: the slices of the word side by side, above them
   * the zero bits that no slice covers when the word width is not a
   * multiple of the number of byte enables.
   */
  function MemRead(m: Mem, sw: nat, ww: nat, idx: nat, bs: nat): (r: Bits)
    requires bs < |m| && idx < |m[bs]| && |m[bs][idx]| * sw <= ww
    requires AllDefined(m[bs][idx], sw)
    ensures |r| == ww
  {
    Join(m[bs][idx], sw) + Zeros(ww - |m[bs][idx]| * sw)
  }

  /** `clear()`: every slice of every bank becomes zero. */
  function MemClear(m: Mem, sw: nat): (r: Mem)
    ensures |r| == |m| && forall b :: 0 <= b < |m| ==> |r[b]| == |m[b]|
    ensures forall b, e :: 0 <= b < |m| && 0 <= e < |m[b]| ==> |r[b][e]| == |m[b][e]|
  {
    seq(|m|, b requires 0 <= b < |m| =>
      seq(|m[b]|, e requires 0 <= e < |m[b]| => seq(|m[b][e]|, i => Def(Zeros(sw)))))
  }

  // ---------------------------------------------------------------------
  // Properties of the value level
  // ---------------------------------------------------------------------

  /** Slice i of a join is the i-th joined slice. */
  lemma {:induction false} JoinSlice(ss: seq<Slice>, sw: nat, i: nat)
    requires AllDefined(ss, sw) && i < |ss|
    ensures SliceOf(Join(ss, sw), i, |ss|, sw) == ss[i].bits
  {
    var n := |ss| - 1;
    var front := Join(ss[..n], sw);
    assert Join(ss, sw) == front + ss[n].bits;
    SliceBounds(i, |ss|, sw);
    if i < n {
      JoinSlice(ss[..n], sw, i);
      SliceBounds(i, n, sw);
      assert Join(ss, sw)[i * sw..(i + 1) * sw] == front[i * sw..(i + 1) * sw];
    } else {
      assert Join(ss, sw)[n * sw..] == ss[n].bits;
    }
  }

  /** Joining the slices of a word gives back its low `n * sw` bits. */
  lemma {:induction false} JoinSlices(w: Bits, n: nat, sw: nat, ss: seq<Slice>)
    requires n * sw <= |w| && |ss| == n
    requires forall i :: 0 <= i < n ==> ss[i] == Def(SliceOf(w, i, n, sw))
    ensures AllDefined(ss, sw) && Join(ss, sw) == w[..n * sw]
  {
    if n > 0 {
      var front := ss[..n - 1];
      SliceBounds(n - 1, n, sw);
      MulMonotone(n - 1, n, sw);
      forall i | 0 <= i < n - 1 ensures front[i] == Def(SliceOf(w, i, n - 1, sw)) {
        SliceBounds(i, n - 1, sw);
      }
      JoinSlices(w, n - 1, sw, front);
      assert w[..n * sw] == w[..(n - 1) * sw] + w[(n - 1) * sw..n * sw];
    }
  }

  /**
   * A full-mask write followed by a read of the same word returns the value
   * written, up to the bits no slice covers (none when the word width is a
   * multiple of the number of byte enables).
   */
  lemma ReadAfterWrite(m: Mem, sw: nat, ww: nat, idx: nat, bs: nat, val: Bits)
    requires bs < |m| && idx < |m[bs]| && |m[bs][idx]| * sw <= ww && |val| == ww
    ensures AllDefined(MemWrite(m, sw, idx, bs, val, Ones(|m[bs][idx]|), true)[bs][idx], sw)
    ensures MemRead(MemWrite(m, sw, idx, bs, val, Ones(|m[bs][idx]|), true), sw, ww, idx, bs)
            == val[..|m[bs][idx]| * sw] + Zeros(ww - |m[bs][idx]| * sw)
    ensures |m[bs][idx]| * sw == ww ==> MemRead(MemWrite(m, sw, idx, bs, val, Ones(|m[bs][idx]|), true), sw, ww, idx, bs) == val
  {
    var be := |m[bs][idx]|;
    var m' := MemWrite(m, sw, idx, bs, val, Ones(be), true);
    JoinSlices(val, be, sw, m'[bs][idx]);
  }

  /**
   * After a masked write, slice i of the word reads as slice i of the value
   * where the mask bit is set (and `wce` holds) and as before elsewhere.
   */
  lemma ReadAfterMaskedWrite(m: Mem, sw: nat, ww: nat, idx: nat, bs: nat,
                             val: Bits, mask: Bits, wce: bool, i: nat)
    requires bs < |m| && idx < |m[bs]| && |m[bs][idx]| * sw <= ww && |val| == ww && |mask| == |m[bs][idx]|
    requires AllDefined(m[bs][idx], sw)
    requires i < |mask|
    ensures AllDefined(MemWrite(m, sw, idx, bs, val, mask, wce)[bs][idx], sw)
    ensures SliceOf(MemRead(MemWrite(m, sw, idx, bs, val, mask, wce), sw, ww, idx, bs), i, |mask|, sw)
            == if wce && mask[i] then SliceOf(val, i, |mask|, sw) else m[bs][idx][i].bits
  {
    var w' := MemWrite(m, sw, idx, bs, val, mask, wce)[bs][idx];
    ReadSlice(w', sw, ww, i);
  }

  /** Slice i of a read word is slice i of the entry. */
  lemma ReadSlice(w: seq<Slice>, sw: nat, ww: nat, i: nat)
    requires AllDefined(w, sw) && |w| * sw <= ww && i < |w|
    ensures SliceOf(Join(w, sw) + Zeros(ww - |w| * sw), i, |w|, sw) == w[i].bits
  {
    JoinSlice(w, sw, i);
    SliceBounds(i, |w|, sw);
    var j := Join(w, sw);
    assert (j + Zeros(ww - |w| * sw))[i * sw..(i + 1) * sw] == j[i * sw..(i + 1) * sw];
  }

  /** A write with `wce` clear changes nothing. */
  lemma WriteDisabled(m: Mem, sw: nat, idx: nat, bs: nat, val: Bits, mask: Bits)
    ensures MemWrite(m, sw, idx, bs, val, mask, false) == m
  {
  }

  /** A write to word idx of bank bs leaves every other word of every bank as it was. */
  lemma WriteOtherWords(m: Mem, sw: nat, idx: nat, bs: nat, val: Bits, mask: Bits, wce: bool,
                        idx': nat, bs': nat)
    requires wce && bs < |m| && idx < |m[bs]| ==> |mask| == |m[bs][idx]| && |mask| * sw <= |val|
    requires bs' < |m| && idx' < |m[bs']|
    requires idx' != idx || bs' != bs
    ensures MemWrite(m, sw, idx, bs, val, mask, wce)[bs'][idx'] == m[bs'][idx']
  {
  }

  /** After `clear`, every word reads as zero. */
  lemma ReadAfterClear(m: Mem, sw: nat, ww: nat, idx: nat, bs: nat)
    requires bs < |m| && idx < |m[bs]| && |m[bs][idx]| * sw <= ww
    ensures AllDefined(MemClear(m, sw)[bs][idx], sw)
    ensures MemRead(MemClear(m, sw), sw, ww, idx, bs) == Zeros(ww)
  {
    var be := |m[bs][idx]|;
    var w := MemClear(m, sw)[bs][idx];
    var z := Zeros(be * sw);
    forall i | 0 <= i < be ensures w[i] == Def(SliceOf(z, i, be, sw)) {
      assert w[i] == Def(Zeros(sw));
      assert SliceOf(z, i, be, sw) == Zeros(sw);
    }
    JoinSlices(z, be, sw, w);
    assert z[..be * sw] + Zeros(ww - be * sw) == Zeros(ww);
  }

  /** The slice index of slice i of word e, and its inverse. */
  lemma SliceIndex(e: nat, i: nat, idx: nat, be: nat)
    requires i < be
    ensures idx * be <= e * be + i < idx * be + be <==> e == idx
  {
    if e < idx {
      MulMonotone(e + 1, idx, be);
    } else if e > idx {
      MulMonotone(idx + 1, e, be);
    }
  }

  // ---------------------------------------------------------------------
  // The flat layout: slice i of word e sits at index e * be + i of its bank
  // ---------------------------------------------------------------------

  /** A bank array as rows of `entries * be` slices. */
  predicate Rows(raw: seq<seq<Slice>>, entries: nat, be: nat) {
    forall b :: 0 <= b < |raw| ==> |raw[b]| == entries * be
  }

  function At(raw: seq<seq<Slice>>, entries: nat, be: nat, b: nat, e: nat, i: nat): Slice
    requires Rows(raw, entries, be) && b < |raw| && e < entries && i < be
  {
    SliceBounds(e, entries, be);
    raw[b][e * be + i]
  }

  /** The words stored in a flat bank array. */
  function View(raw: seq<seq<Slice>>, entries: nat, be: nat): (m: Mem)
    requires Rows(raw, entries, be)
    ensures Shaped(m, |raw|, entries, be)
    ensures forall b, e, i :: 0 <= b < |raw| && 0 <= e < entries && 0 <= i < be ==> m[b][e][i] == At(raw, entries, be, b, e, i)
  {
    seq(|raw|, b requires 0 <= b < |raw| =>
      seq(entries, e requires 0 <= e < entries =>
        seq(be, i requires 0 <= i < be => At(raw, entries, be, b, e, i))))
  }

  /** Writing the flat slices of word idx of bank bs is `MemWrite` on the view. */
  lemma ViewWrite(raw0: seq<seq<Slice>>, raw1: seq<seq<Slice>>, entries: nat, be: nat,
                  sw: nat, idx: nat, bs: nat, val: Bits, mask: Bits, wce: bool)
    requires Rows(raw0, entries, be) && |raw1| == |raw0| && Rows(raw1, entries, be)
    requires |mask| == be && be * sw <= |val|
    requires forall b, j :: 0 <= b < |raw0| && 0 <= j < entries * be ==>
      raw1[b][j] == if wce && b == bs && idx * be <= j < idx * be + be && mask[j - idx * be]
                    then Def(SliceOf(val, j - idx * be, be, sw)) else raw0[b][j]
    ensures View(raw1, entries, be) == MemWrite(View(raw0, entries, be), sw, idx, bs, val, mask, wce)
  {
    var m, w := View(raw1, entries, be), MemWrite(View(raw0, entries, be), sw, idx, bs, val, mask, wce);
    forall b | 0 <= b < |raw0| ensures m[b] == w[b] {
      forall e | 0 <= e < entries ensures m[b][e] == w[b][e] {
        forall i | 0 <= i < be ensures m[b][e][i] == w[b][e][i] {
          SliceIndex(e, i, idx, be);
          SliceBounds(e, entries, be);
          assert m[b][e][i] == raw1[b][e * be + i];
        }
      }
    }
  }

  /** Zeroing every flat slice is `MemClear` on the view. */
  lemma ViewClear(raw0: seq<seq<Slice>>, raw1: seq<seq<Slice>>, entries: nat, be: nat, sw: nat)
    requires Rows(raw0, entries, be) && |raw1| == |raw0| && Rows(raw1, entries, be)
    requires forall b, j :: 0 <= b < |raw1| && 0 <= j < entries * be ==> raw1[b][j] == Def(Zeros(sw))
    ensures View(raw1, entries, be) == MemClear(View(raw0, entries, be), sw)
  {
    var m, c := View(raw1, entries, be), MemClear(View(raw0, entries, be), sw);
    forall b | 0 <= b < |raw0| ensures m[b] == c[b] {
      forall e | 0 <= e < entries ensures m[b][e] == c[b][e] {
        forall i | 0 <= i < be ensures m[b][e][i] == c[b][e][i] {
          SliceBounds(e, entries, be);
        }
      }
    }
  }

  class MemArray {
    const numBanks: nat
    const entriesPerBank: nat
    const byteEnables: nat
    const wordWidth: nat
    const sliceWidth: nat
    /** bank[b, e * byteEnables + i]: slice i of word e of bank b. */
    const bank: array2<Slice>

    ghost predicate Valid()
      reads bank
    {
      1 <= byteEnables <= wordWidth && sliceWidth == wordWidth / byteEnables
      && bank.Length0 == numBanks && bank.Length1 == entriesPerBank * byteEnables
      && forall b, j :: 0 <= b < bank.Length0 && 0 <= j < bank.Length1 && bank[b, j].Def? ==>
           |bank[b, j].bits| == sliceWidth
    }

    /** The bank array as a value. */
    ghost function Raw(): (raw: seq<seq<Slice>>)
      reads bank
      ensures |raw| == bank.Length0 && forall b :: 0 <= b < bank.Length0 ==> |raw[b]| == bank.Length1
      ensures forall b, j :: 0 <= b < bank.Length0 && 0 <= j < bank.Length1 ==> raw[b][j] == bank[b, j]
    {
      seq(bank.Length0, b requires 0 <= b < bank.Length0 reads bank =>
        seq(bank.Length1, j requires 0 <= j < bank.Length1 reads bank => bank[b, j]))
    }

    /** The words held, bank by bank. */
    ghost function Contents(): (m: Mem)
      requires bank.Length1 == entriesPerBank * byteEnables
      reads bank
      ensures Shaped(m, bank.Length0, entriesPerBank, byteEnables)
    {
      View(Raw(), entriesPerBank, byteEnables)
    }

    lemma SliceFits()
      requires 1 <= byteEnables && sliceWidth == wordWidth / byteEnables
      ensures byteEnables * sliceWidth <= wordWidth
    {
    }

    /** `mem_array_sep<T, numEntries, numBanks, byteEnables>`: every slice starts out 'X'. */
    constructor Sep(numEntries: nat, numBanks: nat, byteEnables: nat, wordWidth: nat)
      requires 1 <= numBanks && 1 <= byteEnables <= wordWidth
      ensures Valid() && fresh(bank)
      ensures this.numBanks == numBanks && this.entriesPerBank == numEntries / numBanks
      ensures this.byteEnables == byteEnables && this.wordWidth == wordWidth
      ensures forall b, j :: 0 <= b < numBanks && 0 <= j < bank.Length1 ==> bank[b, j] == Undef
    {
      this.numBanks := numBanks;
      this.entriesPerBank := numEntries / numBanks;
      this.byteEnables := byteEnables;
      this.wordWidth := wordWidth;
      this.sliceWidth := wordWidth / byteEnables;
      bank := new Slice[numBanks, (numEntries / numBanks) * byteEnables]((b, j) => Undef);
    }

    /** `mem_array_opt<T, entriesPerBank, numBanks, byteEnables>`: every slice starts out 'X'. */
    constructor Opt(entriesPerBank: nat, numBanks: nat, byteEnables: nat, wordWidth: nat)
      requires 1 <= byteEnables <= wordWidth
      ensures Valid() && fresh(bank)
      ensures this.numBanks == numBanks && this.entriesPerBank == entriesPerBank
      ensures this.byteEnables == byteEnables && this.wordWidth == wordWidth
      ensures forall b, j :: 0 <= b < numBanks && 0 <= j < bank.Length1 ==> bank[b, j] == Undef
    {
      this.numBanks := numBanks;
      this.entriesPerBank := entriesPerBank;
      this.byteEnables := byteEnables;
      this.wordWidth := wordWidth;
      this.sliceWidth := wordWidth / byteEnables;
      bank := new Slice[numBanks, entriesPerBank * byteEnables]((b, j) => Undef);
    }

    /** `clear()`: zero every slice of every bank. */
    method Clear()
      requires Valid()
      modifies bank
      ensures Valid() && Contents() == MemClear(old(Contents()), sliceWidth)
    {
      ghost var raw0 := Raw();
      for b := 0 to bank.Length0
        invariant forall b', j :: 0 <= b' < bank.Length0 && 0 <= j < bank.Length1 ==>
          bank[b', j] == if b' < b then Def(Zeros(sliceWidth)) else old(bank[b', j])
      {
        for j := 0 to bank.Length1
          invariant forall b', j' :: 0 <= b' < bank.Length0 && 0 <= j' < bank.Length1 ==>
            bank[b', j'] == if b' < b || (b' == b && j' < j) then Def(Zeros(sliceWidth)) else old(bank[b', j'])
        {
          bank[b, j] := Def(Zeros(sliceWidth));
        }
      }
      ViewClear(raw0, Raw(), entriesPerBank, byteEnables, sliceWidth);
    }

    /**
     * `read(idx, bank_sel)`: assemble word idx of bank `bankSel` from its
     * slices, starting from an all-zero word.
     */
    method Read(idx: nat, bankSel: nat) returns (r: Bits)
      requires Valid() && bankSel < numBanks && idx < entriesPerBank
      requires AllDefined(Contents()[bankSel][idx], sliceWidth)
      ensures r == MemRead(Contents(), sliceWidth, wordWidth, idx, bankSel)
    {
      SliceFits();
      ghost var w := Contents()[bankSel][idx];
      var sw := sliceWidth;
      r := Zeros(wordWidth);
      var lo := 0;
      for i := 0 to byteEnables
        invariant lo == i * sw && lo <= byteEnables * sw
        invariant r == Join(w[..i], sw) + Zeros(wordWidth - lo)
      {
        SliceBounds(idx, entriesPerBank, byteEnables);
        var s := bank[bankSel, idx * byteEnables + i];
        assert s == At(Raw(), entriesPerBank, byteEnables, bankSel, idx, i) == w[i];
        ReadStep(w, sw, wordWidth, i, lo, r, s);
        r := r[..lo] + s.bits + r[lo + sw..];
        lo := lo + sw;
      }
      assert w[..byteEnables] == w;
    }

    /** Filling in slice i of the word being assembled by `Read`. */
    static lemma ReadStep(w: seq<Slice>, sw: nat, ww: nat, i: nat, lo: nat, r: Bits, s: Slice)
      requires AllDefined(w, sw) && |w| * sw <= ww && i < |w| && s == w[i]
      requires lo == i * sw && r == Join(w[..i], sw) + Zeros(ww - lo)
      ensures lo + sw == (i + 1) * sw <= |w| * sw
      ensures r[..lo] + s.bits + r[lo + sw..] == Join(w[..i + 1], sw) + Zeros(ww - (lo + sw))
    {
      SliceBounds(i, |w|, sw);
      assert w[..i + 1][..i] == w[..i];
      assert r[lo + sw..] == Zeros(ww - (lo + sw));
    }

    /**
     * `write(idx, bank_sel, val, write_mask, wce)`: the bounds on idx and
     * `bankSel` are asserted only for the slices actually written.
     */
    method Write(idx: nat, bankSel: nat, val: Bits, mask: Bits, wce: bool)
      requires Valid() && |val| == wordWidth && |mask| == byteEnables
      requires wce && !IsZero(mask) ==> bankSel < numBanks && idx < entriesPerBank
      modifies bank
      ensures Valid()
      ensures Contents() == MemWrite(old(Contents()), sliceWidth, idx, bankSel, val, mask, wce)
    {
      SliceFits();
      ghost var raw0 := Raw();
      var be, sw := byteEnables, sliceWidth;
      if wce {
        for i := 0 to be
          invariant forall b, j :: 0 <= b < bank.Length0 && 0 <= j < bank.Length1 ==>
            bank[b, j] == if b == bankSel && idx * be <= j < idx * be + i && mask[j - idx * be]
                          then Def(SliceOf(val, j - idx * be, be, sw)) else raw0[b][j]
        {
          if mask[i] {
            SliceBounds(idx, entriesPerBank, be);
            bank[bankSel, idx * be + i] := Def(SliceOf(val, i, be, sw));
          }
        }
      }
      ViewWrite(raw0, Raw(), entriesPerBank, be, sw, idx, bankSel, val, mask, wce);
    }
  }
}
