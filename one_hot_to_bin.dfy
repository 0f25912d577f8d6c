/**
 * `one_hot_to_bin` of `one_hot_to_bin.h`: conversion of a one-hot vector to
 * the binary index of its set bit.
 *
 * Output bit b is the OR, over the set input bits i, of bit b of i.  For a
 * one-hot input with bit k set this is k itself (when the output is wide
 * enough to hold k); for a zero input it is zero.
 */
module OneHotToBin {
  import opened Bits

  /** Some set input bit below n has bit b set in its index. */
  function AnyMatch(oneHot: Bits, b: nat, n: nat): (r: bool)
    requires n <= |oneHot|
    ensures r <==> exists i :: 0 <= i < n && oneHot[i] && BitOf(i, b)
  {
    if n == 0 then false
    else AnyMatch(oneHot, b, n - 1) || (oneHot[n - 1] && BitOf(n - 1, b))
  }

  /** The binary output of width binLen for the input oneHot. */
  function BinOf(oneHot: Bits, binLen: nat): (r: Bits)
    ensures |r| == binLen
    ensures forall b :: 0 <= b < binLen ==>
      (r[b] <==> exists i :: 0 <= i < |oneHot| && oneHot[i] && BitOf(i, b))
  {
    seq(binLen, b requires 0 <= b => AnyMatch(oneHot, b, |oneHot|))
  }

  /**
   * `one_hot_to_bin<OneHotLen, BinLen>(one_hot_in, bin_out)`: for every
   * output bit, build the mask of input positions whose index has that bit
   * set, AND it with the input and OR-reduce the result.
   */
  method OneHotToBinary(oneHot: Bits, binLen: nat) returns (bin: Bits)
    ensures bin == BinOf(oneHot, binLen)
  {
    var n := |oneHot|;
    bin := Zeros(binLen);
    for b := 0 to binLen
      invariant |bin| == binLen
      invariant forall j :: 0 <= j < b ==> bin[j] == AnyMatch(oneHot, j, n)
    {
      var tmp := Zeros(n);
      for bit := 0 to n
        invariant |tmp| == n
        invariant forall i :: 0 <= i < bit ==> tmp[i] == BitOf(i, b)
      {
        tmp := tmp[bit := BitOf(bit, b)];
      }
      tmp := And(tmp, oneHot);
      var bitTmp := false;
      for i := 0 to n
        invariant bitTmp == AnyMatch(oneHot, b, i)
      {
        bitTmp := bitTmp || tmp[i];
      }
      bin := bin[b := bitTmp];
    }
  }

  /** A one-hot input with bit k set gives, bit for bit, the binary form of k. */
  lemma OneHotBits(n: nat, k: nat, binLen: nat)
    requires k < n
    ensures BinOf(OneHot(n, k), binLen) == FromNat(k, binLen)
  {
    var r := BinOf(OneHot(n, k), binLen);
    forall b | 0 <= b < binLen ensures r[b] == FromNat(k, binLen)[b] {
      FromNatBit(k, binLen, b);
      if BitOf(k, b) {
        assert OneHot(n, k)[k] && BitOf(k, b);
      }
    }
  }

  /** If only bit k is set and binLen bits can hold k, the output is k. */
  lemma OneHotValue(n: nat, k: nat, binLen: nat)
    requires k < n && k < Pow2(binLen)
    ensures ToNat(BinOf(OneHot(n, k), binLen)) == k
  {
    OneHotBits(n, k, binLen);
    FromNatFits(k, binLen);
  }

  /** A zero input gives a zero output. */
  lemma ZeroInput(oneHot: Bits, binLen: nat)
    requires IsZero(oneHot)
    ensures BinOf(oneHot, binLen) == Zeros(binLen)
  {
    var r := BinOf(oneHot, binLen);
    forall b | 0 <= b < binLen ensures !r[b] {
      ZeroNoMatch(oneHot, b, |oneHot|);
    }
  }

  lemma {:induction false} ZeroNoMatch(oneHot: Bits, b: nat, n: nat)
    requires IsZero(oneHot) && n <= |oneHot|
    ensures !AnyMatch(oneHot, b, n)
  {
    if n > 0 {
      ZeroNoMatch(oneHot, b, n - 1);
    }
  }

  /** The documented example: input 4 (bit 2 of four) becomes 2 on two bits. */
  lemma DocumentedExample()
    ensures ToNat(BinOf(FromNat(4, 4), 2)) == 2
  {
    assert Pow2(2) == 4 by { assert Pow2(1) == 2; }
    assert Pow2(4) == 16 by { assert Pow2(3) == 8 by { assert Pow2(2) == 4 by { assert Pow2(1) == 2; } } }
    FromNatToOneHot();
    OneHotValue(4, 2, 2);
  }

  lemma FromNatToOneHot()
    ensures FromNat(4, 4) == OneHot(4, 2)
  {
    assert FromNat(4, 4) == [false] + FromNat(2, 3);
    assert FromNat(2, 3) == [false] + FromNat(1, 2);
    assert FromNat(1, 2) == [true] + FromNat(0, 1);
    assert FromNat(0, 1) == [false] + FromNat(0, 0);
  }
}
