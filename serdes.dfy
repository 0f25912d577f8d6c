/**
 * The packet serializers and deserializers of `nvhls_serdes.h`.
 *
 * A serializer cuts a packet into flits; a deserializer puts the flits of
 * a packet back together.  The store-and-forward flits carry the
 * destination in a field of their own; wormhole flits carry it in the
 * data of the head flit, followed by the first `header_data_width` bits of
 * the packet data.
 *
 * Packets and flits appear here as values of their fields (`PacketValue`,
 * `FlitValue`); `Packet.Packet` and `Packet.Flit` give their bit layouts.
 * Bit vectors are LSB first.
 */
module Serdes {
  import opened Bits
  import opened NvhlsInt
  import opened Wrappers
  import opened Packet
  import opened Fifo

  // ---------------------------------------------------------------------
  // Values, widths and bit-vector helpers
  // ---------------------------------------------------------------------

  /** The fields of a `Packet`. */
  datatype PacketValue = PacketValue(data: Bits, dest: Bits, packetId: Bits)

  /** The fields of a `Flit`; a wormhole flit has an empty `dest`. */
  datatype FlitValue = FlitValue(kind: Encoding, data: Bits, dest: Bits, packetId: Bits)

  /** `packet_t::data_width`, `packet_t::dest_width` and `flit_t::data_width`. */
  datatype Widths = Widths(data: nat, dest: nat, flit: nat)

  /** `isHeader()`: HEAD or SNGL. */
  predicate IsHeader(e: Encoding) {
    e == HEAD || e == SNGL
  }

  /** `isTail()`: TAIL or SNGL. */
  predicate IsTail(e: Encoding) {
    e == TAIL || e == SNGL
  }

  /** A packet value of the instance's widths. */
  predicate PacketFits(p: PacketValue, w: Widths) {
    |p.data| == w.data && |p.dest| == w.dest
  }

  /** `static_cast` to an unsigned type of width n: low bits kept, zeros above. */
  function Resize(x: Bits, n: nat): (r: Bits)
    ensures |r| == n && forall k :: 0 <= k < n ==> r[k] == (k < |x| && x[k])
  {
    seq(n, k requires 0 <= k < n => k < |x| && x[k])
  }

  /** `get_slc<W>(x, lo)`: W bits from bit lo on, reading zeros past the top of x. */
  function Slice(x: Bits, lo: nat, n: nat): (r: Bits)
    ensures |r| == n && forall k :: 0 <= k < n ==> r[k] == (lo + k < |x| && x[lo + k])
  {
    seq(n, k requires 0 <= k < n => lo + k < |x| && x[lo + k])
  }

  /** `set_slc(x, y, lo)`: x with y written from bit lo; bits of y past the top of x are dropped. */
  function Place(x: Bits, y: Bits, lo: nat): (r: Bits)
    ensures |r| == |x|
    ensures forall k :: 0 <= k < |x| ==> r[k] == if lo <= k < lo + |y| then y[k - lo] else x[k]
  {
    seq(|x|, k requires 0 <= k < |x| => if lo <= k < lo + |y| then y[k - lo] else x[k])
  }

  /** x with every bit from n up cleared. */
  function Low(x: Bits, n: nat): (r: Bits)
    ensures |r| == |x| && forall k :: 0 <= k < |x| ==> r[k] == (k < n && x[k])
  {
    seq(|x|, k requires 0 <= k < |x| => k < n && x[k])
  }

  // ---------------------------------------------------------------------
  // Flit counts
  // ---------------------------------------------------------------------

  /** C++ `/` on `int`: the quotient truncated toward zero. */
  function CDiv(a: int, b: int): (q: int)
    requires b > 0
    ensures a >= 0 ==> q == a / b
    ensures a < 0 ==> q == -((-a) / b)
  {
    if a >= 0 then a / b else -((-a) / b)
  }

  /** C++ `%` on `int`: the remainder takes the sign of the dividend. */
  function CMod(a: int, b: int): (r: int)
    requires b > 0
    ensures a == CDiv(a, b) * b + r
  {
    a - CDiv(a, b) * b
  }

  /** `header_data_width`: the head flit's data bits left over above the destination. */
  function HeaderDataWidth(w: Widths): int {
    w.flit - w.dest
  }

  /**
   * `num_flits` of the store-and-forward serializer, the wormhole serializer
   * and the bufferless deserializer: (data_width - header_data_width) over
   * the flit width, rounded up.
   */
  function NumFlits(w: Widths): int
    requires w.flit > 0
  {
    var x := w.data - HeaderDataWidth(w);
    if CMod(x, w.flit) == 0 then CDiv(x, w.flit) else CDiv(x, w.flit) + 1
  }

  /**
   * When the data does not fit in the head flit, `num_flits` is the least
   * number of flit-wide slices that, after the head flit's share, reach the
   * top of the data.
   */
  lemma NumFlitsCeiling(w: Widths)
    requires w.flit > 0 && w.data > HeaderDataWidth(w)
    ensures NumFlits(w) >= 1
    ensures HeaderDataWidth(w) + NumFlits(w) * w.flit >= w.data
    ensures HeaderDataWidth(w) + (NumFlits(w) - 1) * w.flit < w.data
  {
    var x := w.data - HeaderDataWidth(w);
    var q, r := x / w.flit, x % w.flit;
    assert x == q * w.flit + r;
    if r == 0 {
      assert NumFlits(w) == q;
      assert q >= 1;
      assert (q - 1) * w.flit == x - w.flit;
    } else {
      assert NumFlits(w) == q + 1;
      assert (q + 1) * w.flit == x - r + w.flit;
    }
  }

  // ---------------------------------------------------------------------
  // Store-and-forward serializer
  // ---------------------------------------------------------------------

  /** The kind of flit i of n: SNGL when n is 1, else HEAD, BODY ... BODY, TAIL. */
  function StoreForwardKind(i: nat, n: nat): (e: Encoding)
    requires i < n
    ensures n == 1 <==> e == SNGL
    ensures IsHeader(e) <==> i == 0
    ensures IsTail(e) <==> i == n - 1
  {
    if n == 1 then SNGL
    else if i == 0 then HEAD
    else if i == n - 1 then TAIL
    else BODY
  }

  /** Flit i of a store-and-forward packet: the slice at i·flit_width, with the packet's dest and id. */
  function StoreForwardFlit(p: PacketValue, w: Widths, n: nat, i: nat): (f: FlitValue)
    requires i < n
  {
    FlitValue(StoreForwardKind(i, n), Slice(p.data, i * w.flit, w.flit), p.dest, p.packetId)
  }

  /** The n flits a store-and-forward serializer sends for one packet. */
  function StoreForwardFlits(p: PacketValue, w: Widths, n: nat): (fs: seq<FlitValue>)
    ensures |fs| == n
    ensures forall i :: 0 <= i < n ==> fs[i] == StoreForwardFlit(p, w, n, i)
  {
    seq(n, i requires 0 <= i < n => StoreForwardFlit(p, w, n, i))
  }

  /**
   * The number of flit-wide slices that cover the data: the data width over
   * the flit width, rounded up.  It is `num_flits` of the wormhole
   * serializer without packet id, and the count the store-and-forward
   * serializer needs, since its destination has a field of its own and no
   * data travels in a header share.
   */
  function SliceCount(w: Widths): (n: nat)
    requires w.flit > 0
    ensures n * w.flit >= w.data && (n > 0 ==> (n - 1) * w.flit < w.data)
  {
    var q := w.data / w.flit;
    if w.data % w.flit == 0 then q else q + 1
  }

  /**
   * The per-packet body of the `while` loop of the store-and-forward
   * `serializer::Process`, when `PopNB` returned packet `p`: the flits
   * pushed, one per slice.
   */
  method SerializeStoreForward(p: PacketValue, w: Widths) returns (flits: seq<FlitValue>)
    requires w.flit > 0
    ensures flits == StoreForwardFlits(p, w, SliceCount(w))
  {
    var numFlits := SliceCount(w);
    var data := p.data;
    flits := [];
    for i := 0 to numFlits
      invariant flits == StoreForwardFlits(p, w, numFlits)[..i]
    {
      var kind: Encoding;
      if numFlits == 1 {
        kind := SNGL;
      } else if i == 0 {
        kind := HEAD;
      } else if i == numFlits - 1 {
        kind := TAIL;
      } else {
        kind := BODY;
      }
      var flit := FlitValue(kind, Slice(data, i * w.flit, w.flit), p.dest, p.packetId);
      PrefixSnoc(StoreForwardFlits(p, w, numFlits), i);
      flits := flits + [flit];
    }
  }

  /**
   * What one buffer entry of the store-and-forward deserializer holds after
   * the flits fs: the header flit's data written at bit 0, and each later
   * flit's at `num_flits_received`·flit_width, where `num_flits_received`
   * counts the flits already written.
   */
  function Reassemble(init: Bits, fs: seq<FlitValue>, fw: nat): (data: Bits)
    ensures |data| == |init|
    decreases |fs|
  {
    if |fs| == 0 then init
    else Place(Reassemble(init, fs[..|fs| - 1], fw), fs[|fs| - 1].data, (|fs| - 1) * fw)
  }

  /** Bit k of a reassembled vector comes from the last flit whose slice covers k. */
  lemma {:induction false} ReassembleSlices(p: PacketValue, w: Widths, n: nat, init: Bits, m: nat, k: nat)
    requires w.flit > 0 && m <= n && |init| == |p.data| && k < |init|
    ensures Reassemble(init, StoreForwardFlits(p, w, n)[..m], w.flit)[k]
         == if k < m * w.flit then p.data[k] else init[k]
  {
    var fs := StoreForwardFlits(p, w, n)[..m];
    if m > 0 {
      assert fs[..m - 1] == StoreForwardFlits(p, w, n)[..m - 1];
      ReassembleSlices(p, w, n, init, m - 1, k);
      var lo := (m - 1) * w.flit;
      assert lo + w.flit == m * w.flit;
      if lo <= k < lo + w.flit {
        assert fs[m - 1].data[k - lo] == p.data[lo + (k - lo)];
      }
    }
  }

  /**
   * Store-and-forward round trip: with the packet data a whole number of
   * flits wide, the deserializer rebuilds the data from the serializer's
   * flits, whatever the buffer entry held before; the first flit is a
   * header and the last a tail.
   */
  lemma StoreForwardRoundTrip(p: PacketValue, w: Widths, init: Bits)
    requires w.flit > 0 && w.data > 0 && w.data % w.flit == 0
    requires PacketFits(p, w) && |init| == w.data
    ensures var fs := StoreForwardFlits(p, w, SliceCount(w));
      && |fs| == w.data / w.flit
      && IsHeader(fs[0].kind) && IsTail(fs[|fs| - 1].kind)
      && Reassemble(init, fs, w.flit) == p.data
  {
    var n := SliceCount(w);
    var fs := StoreForwardFlits(p, w, n);
    assert n * w.flit == w.data;
    assert fs[..n] == fs;
    forall k | 0 <= k < w.data ensures Reassemble(init, fs, w.flit)[k] == p.data[k] {
      ReassembleSlices(p, w, n, init, n, k);
    }
  }

  /**
   * As written, the store-and-forward serializer sends `NumFlits(w)` flits,
   * a count that subtracts the wormhole head flit's share although no data
   * travels in one here.  With 16 data bits, 8-bit flits and no destination
   * bits it sends a single SNGL flit, so bit 15 of the packet never reaches
   * the deserializer.
   */
  lemma StoreForwardAsWrittenDropsBits()
    ensures var w := Widths(16, 0, 8);
      var p := PacketValue(Zeros(15) + [true], [], []);
      var fs := StoreForwardFlits(p, w, NumFlits(w));
      && NumFlits(w) == 1 && SliceCount(w) == 2
      && |fs| == 1 && fs[0].kind == SNGL
      && Reassemble(Zeros(16), fs, 8)[15] == false && p.data[15] == true
  {
    var w := Widths(16, 0, 8);
    var p := PacketValue(Zeros(15) + [true], [], []);
    assert NumFlits(w) == 1;
    ReassembleSlices(p, w, 1, Zeros(16), 1, 15);
    assert StoreForwardFlits(p, w, 1)[..1] == StoreForwardFlits(p, w, 1);
  }

  // ---------------------------------------------------------------------
  // Wormhole serializer (with packet id)
  // ---------------------------------------------------------------------

  /**
   * The widths a wormhole serializer is built with: the destination fits in
   * the head flit's data, and the packet data does not all fit in the head
   * flit, so at least one data flit follows it.
   */
  predicate WormHoleOk(w: Widths) {
    w.flit > 0 && w.dest <= w.flit && w.data > w.flit - w.dest
  }

  /** `header_data_width` when the destination fits in a flit. */
  function HeaderBits(w: Widths): (h: nat)
    requires w.dest <= w.flit
    ensures h == HeaderDataWidth(w) && w.dest + h == w.flit
  {
    w.flit - w.dest
  }

  /** `num_flits` of the wormhole serializer: the data flits after the head flit. */
  function DataFlits(w: Widths): (n: nat)
    requires WormHoleOk(w)
    ensures n >= 1 && n == NumFlits(w)
  {
    NumFlitsCeiling(w);
    NumFlits(w)
  }

  /** The data flits' slices reach the top of the data, and the last of them starts below it. */
  lemma DataFlitsBounds(w: Widths)
    requires WormHoleOk(w)
    ensures HeaderBits(w) + DataFlits(w) * w.flit >= w.data
    ensures HeaderBits(w) + (DataFlits(w) - 1) * w.flit < w.data
  {
    NumFlitsCeiling(w);
  }

  /** Where data flit m (1 ≤ m ≤ num_flits) starts in the packet data. */
  function DataOffset(w: Widths, m: nat): (lo: nat)
    requires WormHoleOk(w) && 1 <= m <= DataFlits(w)
    ensures lo < w.data
  {
    DataFlitsBounds(w);
    MulMonotone(m - 1, DataFlits(w) - 1, w.flit);
    (m - 1) * w.flit + HeaderBits(w)
  }

  /**
   * Flit k of a packet: k = 0 is the HEAD flit, holding dest in its low bits
   * and the first `header_data_width` data bits above; 1 ≤ k < num_flits are
   * BODY flits with the flit-wide slice at (k-1)·flit_width +
   * header_data_width; k = num_flits is the TAIL flit with the data bits
   * from there to the top.
   */
  function WormHoleFlit(p: PacketValue, w: Widths, k: nat): (f: FlitValue)
    requires WormHoleOk(w) && PacketFits(p, w) && k <= DataFlits(w)
    ensures |f.data| == w.flit && f.dest == [] && f.packetId == p.packetId
    ensures f.kind == if k == 0 then HEAD else if k == DataFlits(w) then TAIL else BODY
  {
    if k == 0 then
      var data := SetSlc(Resize(p.dest, w.flit), Slice(p.data, 0, HeaderBits(w)), w.dest);
      FlitValue(HEAD, data, [], p.packetId)
    else if k == DataFlits(w) then
      FlitValue(TAIL, Resize(GetSlcRange(p.data, w.data - 1, DataOffset(w, k)), w.flit), [], p.packetId)
    else
      FlitValue(BODY, Slice(p.data, DataOffset(w, k), w.flit), [], p.packetId)
  }

  /** The flits of one packet: HEAD, then num_flits data flits, the last of them TAIL. */
  function WormHoleFlits(p: PacketValue, w: Widths): (fs: seq<FlitValue>)
    requires WormHoleOk(w) && PacketFits(p, w)
    ensures |fs| == DataFlits(w) + 1
    ensures forall k :: 0 <= k < |fs| ==> fs[k] == WormHoleFlit(p, w, k)
  {
    seq(DataFlits(w) + 1, k requires 0 <= k < DataFlits(w) + 1 => WormHoleFlit(p, w, k))
  }

  /** The flits of a run of packets, packet after packet. */
  function FlitStream(ps: seq<PacketValue>, w: Widths): (fs: seq<FlitValue>)
    requires WormHoleOk(w) && forall i :: 0 <= i < |ps| ==> PacketFits(ps[i], w)
    ensures |fs| == |ps| * (DataFlits(w) + 1)
  {
    if |ps| == 0 then []
    else FlitStream(ps[..|ps| - 1], w) + WormHoleFlits(ps[|ps| - 1], w)
  }

  /** Each data flit carries the slice of the packet data at its offset, zeros past the top. */
  lemma DataFlitSlice(p: PacketValue, w: Widths, m: nat)
    requires WormHoleOk(w) && PacketFits(p, w) && 1 <= m <= DataFlits(w)
    ensures WormHoleFlit(p, w, m).data == Slice(p.data, DataOffset(w, m), w.flit)
  {
    var lo := DataOffset(w, m);
    if m == DataFlits(w) {
      DataFlitsBounds(w);
      var r := GetSlcRange(p.data, w.data - 1, lo);
      assert r == p.data[lo..w.data] + Zeros(w.data - (w.data - lo));
    }
  }

  /** The HEAD flit carries dest in its low bits and the first header bits of the data above. */
  lemma HeadFlitLayout(p: PacketValue, w: Widths)
    requires WormHoleOk(w) && PacketFits(p, w)
    ensures Resize(WormHoleFlit(p, w, 0).data, w.dest) == p.dest
    ensures Slice(WormHoleFlit(p, w, 0).data, w.dest, HeaderBits(w)) == Slice(p.data, 0, HeaderBits(w))
  {
    var d := WormHoleFlit(p, w, 0).data;
    var h := Slice(p.data, 0, HeaderBits(w));
    assert d == SetSlc(Resize(p.dest, w.flit), h, w.dest);
    assert d[..w.dest] == Resize(p.dest, w.flit)[..w.dest];
  }

  /**
   * The wormhole `serializer::Process`: `num` counts the flits of the
   * current packet already sent and `packet_reg` holds that packet.
   */
  class WormHoleSerializer {
    const w: Widths
    var num: nat
    var packetReg: PacketValue

    predicate Valid()
      reads this
    {
      WormHoleOk(w) && num <= DataFlits(w) && (num > 0 ==> PacketFits(packetReg, w))
    }

    /** The reset state: no packet in progress. */
    constructor (w: Widths, init: PacketValue)
      requires WormHoleOk(w)
      ensures Valid() && this.w == w && num == 0
    {
      this.w := w;
      num := 0;
      packetReg := init;
    }

    /**
     * One pass of the `while` loop: with `num` at 0 take the next packet
     * (`Pop`) and send its HEAD flit; otherwise send data flit `num`,
     * returning to 0 after the TAIL.
     */
    method Step(next: PacketValue) returns (flit: FlitValue)
      requires Valid() && PacketFits(next, w)
      modifies this
      ensures Valid()
      ensures old(num) == 0 ==> packetReg == next && flit == WormHoleFlit(next, w, 0) && num == 1
      ensures old(num) > 0 ==> packetReg == old(packetReg) && flit == WormHoleFlit(packetReg, w, old(num))
      ensures old(num) > 0 ==> num == if old(num) == DataFlits(w) then 0 else old(num) + 1
    {
      if num == 0 {
        packetReg := next;
        var data := Resize(packetReg.dest, w.flit);
        var headerData := Slice(packetReg.data, 0, HeaderBits(w));
        data := SetSlc(data, headerData, w.dest);
        flit := FlitValue(HEAD, data, [], packetReg.packetId);
        num := num + 1;
      } else if num == DataFlits(w) {
        var data := GetSlcRange(packetReg.data, w.data - 1, DataOffset(w, num));
        flit := FlitValue(TAIL, Resize(data, w.flit), [], packetReg.packetId);
        num := 0;
      } else {
        var data := Slice(packetReg.data, DataOffset(w, num), w.flit);
        flit := FlitValue(BODY, data, [], packetReg.packetId);
        num := num + 1;
      }
    }

    /**
     * `Process` after reset, over the packets `Pop` delivers: the flits
     * pushed are each packet's flits, packet after packet.
     */
    method Process(packets: seq<PacketValue>) returns (flits: seq<FlitValue>)
      requires Valid() && forall i :: 0 <= i < |packets| ==> PacketFits(packets[i], w)
      modifies this
      ensures Valid() && num == 0
      ensures flits == FlitStream(packets, w)
    {
      num := 0;
      flits := [];
      for j := 0 to |packets|
        invariant Valid() && num == 0
        invariant flits == FlitStream(packets[..j], w)
      {
        var p := packets[j];
        ghost var before := flits;
        for k := 0 to DataFlits(w) + 1
          invariant Valid()
          invariant num == if k == 0 || k == DataFlits(w) + 1 then 0 else k
          invariant k > 0 ==> packetReg == p
          invariant flits == before + WormHoleFlits(p, w)[..k]
        {
          var f := Step(p);
          PrefixSnoc(WormHoleFlits(p, w), k);
          flits := flits + [f];
        }
        assert WormHoleFlits(p, w)[..DataFlits(w) + 1] == WormHoleFlits(p, w);
        assert packets[..j + 1][..j] == packets[..j];
      }
      assert packets[..|packets|] == packets;
    }
  }

  // ---------------------------------------------------------------------
  // Wormhole serializer without packet id
  // ---------------------------------------------------------------------

  /**
   * Flit k of a packet from the serializer without packet id: k = 0 is the
   * HEAD flit holding dest; data flit k (1 ≤ k ≤ num_flits) carries the
   * slice at (k-1)·flit_width, and the last of them is the TAIL.
   */
  function NoIdFlit(p: PacketValue, w: Widths, k: nat): (f: FlitValue)
    requires w.flit > 0 && k <= SliceCount(w)
    ensures |f.data| == w.flit && f.dest == [] && f.packetId == []
    ensures IsHeader(f.kind) <==> k == 0
    ensures IsTail(f.kind) <==> 0 < k == SliceCount(w)
  {
    if k == 0 then FlitValue(HEAD, Resize(p.dest, w.flit), [], [])
    else FlitValue(if k == SliceCount(w) then TAIL else BODY, Slice(p.data, (k - 1) * w.flit, w.flit), [], [])
  }

  /** The flits of one packet: HEAD, then num_flits data flits. */
  function NoIdFlits(p: PacketValue, w: Widths): (fs: seq<FlitValue>)
    requires w.flit > 0
    ensures |fs| == SliceCount(w) + 1
    ensures forall k :: 0 <= k < |fs| ==> fs[k] == NoIdFlit(p, w, k)
  {
    seq(SliceCount(w) + 1, k requires 0 <= k < SliceCount(w) + 1 => NoIdFlit(p, w, k))
  }

  /**
   * The body of the `while` loop of the serializer without packet id, when
   * `PopNB` returned packet `p`: the flits pushed.
   */
  method SerializeNoId(p: PacketValue, w: Widths) returns (flits: seq<FlitValue>)
    requires w.flit > 0
    ensures flits == NoIdFlits(p, w)
  {
    var numFlits := SliceCount(w);
    var flit := FlitValue(HEAD, Resize(p.dest, w.flit), [], []);
    flits := [flit];
    for i := 0 to numFlits
      invariant flits == NoIdFlits(p, w)[..i + 1]
      invariant flit.dest == [] && flit.packetId == []
    {
      if i == numFlits - 1 {
        flit := flit.(kind := TAIL);
      } else {
        flit := flit.(kind := BODY);
      }
      flit := flit.(data := Slice(p.data, i * w.flit, w.flit));
      assert (i + 1 - 1) * w.flit == i * w.flit;
      PrefixSnoc(NoIdFlits(p, w), i + 1);
      flits := flits + [flit];
    }
    assert NoIdFlits(p, w)[..numFlits + 1] == NoIdFlits(p, w);
  }

  /** Reassembly looks only at the flits' data. */
  lemma {:induction false} ReassembleSameData(init: Bits, xs: seq<FlitValue>, ys: seq<FlitValue>, fw: nat)
    requires |xs| == |ys| && forall i :: 0 <= i < |xs| ==> xs[i].data == ys[i].data
    ensures Reassemble(init, xs, fw) == Reassemble(init, ys, fw)
    decreases |xs|
  {
    if |xs| > 0 {
      ReassembleSameData(init, xs[..|xs| - 1], ys[..|ys| - 1], fw);
    }
  }

  /**
   * The layout of the flits without packet id: the HEAD flit's low bits are
   * dest (when dest fits in a flit), and the data flits, placed at
   * successive multiples of the flit width, rebuild the packet data
   * whatever the buffer held before.
   */
  lemma NoIdRoundTrip(p: PacketValue, w: Widths, init: Bits)
    requires w.flit > 0 && w.dest <= w.flit && PacketFits(p, w) && |init| == w.data
    ensures var fs := NoIdFlits(p, w);
      && Resize(fs[0].data, w.dest) == p.dest
      && Reassemble(init, fs[1..], w.flit) == p.data
  {
    var n := SliceCount(w);
    var fs := NoIdFlits(p, w);
    var sf := StoreForwardFlits(p, w, n);
    ReassembleSameData(init, fs[1..], sf, w.flit);
    assert sf[..n] == sf;
    forall k | 0 <= k < w.data ensures Reassemble(init, sf, w.flit)[k] == p.data[k] {
      ReassembleSlices(p, w, n, init, n, k);
    }
  }

  // ---------------------------------------------------------------------
  // Wormhole deserializer without input buffer
  // ---------------------------------------------------------------------

  /** The registers of the bufferless deserializer: the packet being built and `num_flits_received`. */
  datatype Assembly = Assembly(buffer: PacketValue, received: nat)

  /**
   * One received flit.  A header flit sets dest from its low bits and the
   * data to its header bits; any other flit is ORed into the data at
   * `num_flits_received`·flit_width + header_data_width.  A tail flit then
   * emits the packet and clears the data and the count.
   */
  function DeserializeStep(a: Assembly, f: FlitValue, w: Widths): (r: (Assembly, Option<PacketValue>))
    requires w.dest <= w.flit && |a.buffer.data| == w.data
    ensures |r.0.buffer.data| == w.data
    ensures r.1.Some? <==> IsTail(f.kind)
    ensures IsTail(f.kind) ==> r.0.received == 0 && IsZero(r.0.buffer.data)
  {
    var b :=
      if IsHeader(f.kind) then
        a.buffer.(dest := Resize(f.data, w.dest), data := Resize(Slice(f.data, w.dest, HeaderBits(w)), w.data))
      else
        a.buffer.(data := Or(a.buffer.data, Shl(Resize(f.data, w.data), a.received * w.flit + HeaderBits(w))));
    var n := if IsHeader(f.kind) then 0 else a.received + 1;
    if IsTail(f.kind) then (Assembly(b.(data := Zeros(w.data)), 0), Some(b))
    else (Assembly(b, n), None)
  }

  /** The registers after a run of flits, and the packets pushed on the way. */
  function Deserialize(a: Assembly, fs: seq<FlitValue>, w: Widths): (r: (Assembly, seq<PacketValue>))
    requires w.dest <= w.flit && |a.buffer.data| == w.data
    ensures |r.0.buffer.data| == w.data
  {
    if |fs| == 0 then (a, [])
    else
      var prev := Deserialize(a, fs[..|fs| - 1], w);
      var step := DeserializeStep(prev.0, fs[|fs| - 1], w);
      (step.0, prev.1 + (if step.1.Some? then [step.1.value] else []))
  }

  /** Running two stretches of flits one after the other. */
  lemma {:induction false} DeserializeAppend(a: Assembly, xs: seq<FlitValue>, ys: seq<FlitValue>, w: Widths)
    requires w.dest <= w.flit && |a.buffer.data| == w.data
    ensures var first := Deserialize(a, xs, w);
      var second := Deserialize(first.0, ys, w);
      Deserialize(a, xs + ys, w) == (second.0, first.1 + second.1)
    decreases |ys|
  {
    var first := Deserialize(a, xs, w);
    if |ys| == 0 {
      assert xs + ys == xs;
      assert first.1 + [] == first.1;
    } else {
      var ys' := ys[..|ys| - 1];
      var last := ys[|ys| - 1];
      assert (xs + ys)[..|xs + ys| - 1] == xs + ys';
      assert (xs + ys)[|xs + ys| - 1] == last;
      DeserializeAppend(a, xs, ys', w);
      var mid := Deserialize(first.0, ys', w);
      var step := DeserializeStep(mid.0, last, w);
      var out := if step.1.Some? then [step.1.value] else [];
      assert Deserialize(first.0, ys, w) == (step.0, mid.1 + out);
      assert Deserialize(a, xs + ys, w) == (step.0, (first.1 + mid.1) + out);
      assert (first.1 + mid.1) + out == first.1 + (mid.1 + out);
    }
  }

  /** ORing the n-bit slice of x at off into the bits of x below off gives the bits of x below off + n. */
  lemma OrSliceLow(x: Bits, off: nat, n: nat)
    ensures Or(Low(x, off), Shl(Resize(Slice(x, off, n), |x|), off)) == Low(x, off + n)
  {
    var l := Or(Low(x, off), Shl(Resize(Slice(x, off, n), |x|), off));
    forall k | 0 <= k < |x|
      ensures l[k] == Low(x, off + n)[k]
    {
    }
  }

  /** The HEAD flit leaves the packet's dest and its header bits in the buffer. */
  lemma HeadStep(a: Assembly, p: PacketValue, w: Widths)
    requires WormHoleOk(w) && PacketFits(p, w) && |a.buffer.data| == w.data
    ensures DeserializeStep(a, WormHoleFlit(p, w, 0), w)
         == (Assembly(PacketValue(Low(p.data, DataOffset(w, 1)), p.dest, a.buffer.packetId), 0), None)
  {
    HeadFlitLayout(p, w);
    var h := HeaderBits(w);
    var d := Resize(Slice(WormHoleFlit(p, w, 0).data, w.dest, h), w.data);
    assert d == Low(p.data, h);
  }

  /**
   * Data flit m, taken with the bits below its offset already in the
   * buffer, adds its own slice; the TAIL flit completes the packet, pushes
   * it and clears the data and the count.
   */
  lemma DataStep(p: PacketValue, w: Widths, m: nat, id: Bits)
    requires WormHoleOk(w) && PacketFits(p, w) && 1 <= m <= DataFlits(w)
    ensures var a := Assembly(PacketValue(Low(p.data, DataOffset(w, m)), p.dest, id), m - 1);
      DeserializeStep(a, WormHoleFlit(p, w, m), w)
      == if m < DataFlits(w) then (Assembly(PacketValue(Low(p.data, DataOffset(w, m + 1)), p.dest, id), m), None)
         else (Assembly(PacketValue(Zeros(w.data), p.dest, id), 0), Some(PacketValue(p.data, p.dest, id)))
  {
    var off := DataOffset(w, m);
    DataStepBits(p, w, m);
    if m < DataFlits(w) {
      DataOffsetNext(w, m);
    } else {
      DataFlitsBounds(w);
      LowAll(p.data, off + w.flit);
    }
  }

  /** The bits a data flit adds to the buffer. */
  lemma DataStepBits(p: PacketValue, w: Widths, m: nat)
    requires WormHoleOk(w) && PacketFits(p, w) && 1 <= m <= DataFlits(w)
    ensures var off := DataOffset(w, m);
      Or(Low(p.data, off), Shl(Resize(WormHoleFlit(p, w, m).data, w.data), (m - 1) * w.flit + HeaderBits(w)))
      == Low(p.data, off + w.flit)
  {
    DataFlitSlice(p, w, m);
    OrSliceLow(p.data, DataOffset(w, m), w.flit);
  }

  /** Consecutive data flits' slices are a flit width apart. */
  lemma DataOffsetNext(w: Widths, m: nat)
    requires WormHoleOk(w) && 1 <= m < DataFlits(w)
    ensures DataOffset(w, m + 1) == DataOffset(w, m) + w.flit
  {
    assert m * w.flit == (m - 1) * w.flit + w.flit;
  }

  /** Clearing from the width up changes nothing. */
  lemma LowAll(x: Bits, n: nat)
    requires n >= |x|
    ensures Low(x, n) == x
  {
  }

  /**
   * After the first m flits of a packet (1 ≤ m ≤ num_flits) the buffer holds
   * the packet's dest and its data below data flit m's offset, zeros above,
   * and `num_flits_received` is m-1; nothing has been pushed.
   */
  lemma {:induction false} DeserializePrefix(a: Assembly, p: PacketValue, w: Widths, m: nat)
    requires WormHoleOk(w) && PacketFits(p, w) && |a.buffer.data| == w.data
    requires 1 <= m <= DataFlits(w)
    ensures Deserialize(a, WormHoleFlits(p, w)[..m], w)
         == (Assembly(PacketValue(Low(p.data, DataOffset(w, m)), p.dest, a.buffer.packetId), m - 1), [])
  {
    var fs := WormHoleFlits(p, w);
    var prefix := fs[..m];
    var prev := Deserialize(a, prefix[..m - 1], w);
    var step := DeserializeStep(prev.0, prefix[m - 1], w);
    assert Deserialize(a, prefix, w) == (step.0, prev.1 + (if step.1.Some? then [step.1.value] else []));
    if m == 1 {
      assert prefix[..0] == [];
      assert prev == (a, []);
      assert prefix[0] == WormHoleFlit(p, w, 0);
      HeadStep(a, p, w);
      assert step.1 == None;
      assert prev.1 + [] == [];
    } else {
      assert prefix[..m - 1] == fs[..m - 1];
      assert prefix[m - 1] == WormHoleFlit(p, w, m - 1);
      DeserializePrefix(a, p, w, m - 1);
      DataStep(p, w, m - 1, a.buffer.packetId);
    }
  }

  /**
   * The last flit of a wormhole packet, after the flits before it: nothing
   * has been pushed yet, and the tail pushes the packet and clears the
   * buffer.
   */
  lemma WormHoleLastFlit(a: Assembly, p: PacketValue, w: Widths,
                         prev: (Assembly, seq<PacketValue>), step: (Assembly, Option<PacketValue>))
    requires WormHoleOk(w) && PacketFits(p, w) && |a.buffer.data| == w.data
    requires prev == Deserialize(a, WormHoleFlits(p, w)[..DataFlits(w)], w)
    requires step == DeserializeStep(prev.0, WormHoleFlits(p, w)[DataFlits(w)], w)
    ensures prev.1 == []
    ensures step == (Assembly(PacketValue(Zeros(w.data), p.dest, a.buffer.packetId), 0),
                     Some(PacketValue(p.data, p.dest, a.buffer.packetId)))
  {
    var n := DataFlits(w);
    DeserializePrefix(a, p, w, n);
    DataStep(p, w, n, a.buffer.packetId);
  }

  /**
   * Wormhole round trip for one packet: the deserializer, fed the
   * serializer's flits, pushes exactly one packet with the original data
   * and dest (its packet id is the buffer's own, which this deserializer
   * never writes) and ends with the data and count cleared.
   */
  lemma WormHolePacketRoundTrip(a: Assembly, p: PacketValue, w: Widths)
    requires WormHoleOk(w) && PacketFits(p, w) && |a.buffer.data| == w.data
    ensures Deserialize(a, WormHoleFlits(p, w), w)
         == (Assembly(PacketValue(Zeros(w.data), p.dest, a.buffer.packetId), 0),
             [PacketValue(p.data, p.dest, a.buffer.packetId)])
  {
    var fs := WormHoleFlits(p, w);
    var n := DataFlits(w);
    var prev := Deserialize(a, fs[..n], w);
    var step := DeserializeStep(prev.0, fs[n], w);
    assert Deserialize(a, fs, w) == (step.0, prev.1 + (if step.1.Some? then [step.1.value] else [])) by {
      assert fs[..n + 1] == fs;
    }
    WormHoleLastFlit(a, p, w, prev, step);
    assert prev.1 + [step.1.value] == [step.1.value];
  }

  /** The packets a receiver should see: the data and dest of each packet sent, under packet id `id`. */
  function Delivered(ps: seq<PacketValue>, id: Bits): (qs: seq<PacketValue>)
    ensures |qs| == |ps|
    ensures forall i :: 0 <= i < |ps| ==> qs[i] == PacketValue(ps[i].data, ps[i].dest, id)
  {
    seq(|ps|, i requires 0 <= i < |ps| => PacketValue(ps[i].data, ps[i].dest, id))
  }

  /** One more packet sent, one more delivered. */
  lemma DeliveredSnoc(ps: seq<PacketValue>, id: Bits)
    requires |ps| > 0
    ensures Delivered(ps, id) == Delivered(ps[..|ps| - 1], id) + [PacketValue(ps[|ps| - 1].data, ps[|ps| - 1].dest, id)]
  {
  }

  /**
   * Wormhole round trip for a run of packets: the deserializer pushes the
   * packets the serializer was given, in order, with their data and dest.
   */
  lemma {:induction false} WormHoleRoundTrip(a: Assembly, ps: seq<PacketValue>, w: Widths)
    requires WormHoleOk(w) && |a.buffer.data| == w.data
    requires forall i :: 0 <= i < |ps| ==> PacketFits(ps[i], w)
    ensures Deserialize(a, FlitStream(ps, w), w).1 == Delivered(ps, a.buffer.packetId)
    ensures |ps| > 0 ==> Deserialize(a, FlitStream(ps, w), w).0.received == 0
    ensures Deserialize(a, FlitStream(ps, w), w).0.buffer.packetId == a.buffer.packetId
  {
    var id := a.buffer.packetId;
    if |ps| > 0 {
      var ps' := ps[..|ps| - 1];
      var p := ps[|ps| - 1];
      WormHoleRoundTrip(a, ps', w);
      var first := Deserialize(a, FlitStream(ps', w), w);
      var second := Deserialize(first.0, WormHoleFlits(p, w), w);
      assert FlitStream(ps, w) == FlitStream(ps', w) + WormHoleFlits(p, w);
      DeserializeAppend(a, FlitStream(ps', w), WormHoleFlits(p, w), w);
      WormHolePacketRoundTrip(first.0, p, w);
      assert second.1 == [PacketValue(p.data, p.dest, id)];
      DeliveredSnoc(ps, id);
    } else {
      assert FlitStream(ps, w) == [];
    }
  }

  /**
   * The bufferless wormhole `deserializer::Process`: `buffer` is the packet
   * being built, `received` is `num_flits_received`.
   */
  class WormHoleDeserializer {
    const w: Widths
    var buffer: PacketValue
    var received: nat

    predicate Valid()
      reads this
    {
      w.dest <= w.flit && |buffer.data| == w.data
    }

    function State(): Assembly
      reads this
    {
      Assembly(buffer, received)
    }

    /** The registers as the default-constructed packet leaves them. */
    constructor (w: Widths, packetIdWidth: nat)
      requires w.dest <= w.flit
      ensures Valid() && this.w == w && buffer == PacketValue(Zeros(w.data), Zeros(w.dest), Zeros(packetIdWidth))
      ensures received == 0
    {
      this.w := w;
      buffer := PacketValue(Zeros(w.data), Zeros(w.dest), Zeros(packetIdWidth));
      received := 0;
    }

    /** One pass of the `while` loop when `PopNB` returned a flit. */
    method Step(flit: FlitValue) returns (out: Option<PacketValue>)
      requires Valid()
      modifies this
      ensures Valid()
      ensures (State(), out) == DeserializeStep(old(State()), flit, w)
    {
      if IsHeader(flit.kind) {
        buffer := buffer.(dest := Resize(flit.data, w.dest));
        buffer := buffer.(data := Resize(Slice(flit.data, w.dest, HeaderBits(w)), w.data));
        received := 0;
      } else {
        var shifted := Shl(Resize(flit.data, w.data), received * w.flit + HeaderBits(w));
        buffer := buffer.(data := Or(buffer.data, shifted));
        received := received + 1;
      }
      if IsTail(flit.kind) {
        out := Some(buffer);
        received := 0;
        buffer := buffer.(data := Zeros(w.data));
      } else {
        out := None;
      }
    }

    /**
     * `Process`: the reset clears the count and the data, then each flit
     * `PopNB` returns is taken in turn; the packets pushed are those of
     * `Deserialize` from the reset registers.
     */
    method Process(flits: seq<FlitValue>) returns (packets: seq<PacketValue>)
      requires Valid()
      modifies this
      ensures Valid()
      ensures (State(), packets) == Deserialize(old(Assembly(buffer.(data := Zeros(w.data)), 0)), flits, w)
    {
      received := 0;
      buffer := buffer.(data := Zeros(w.data));
      ghost var a0 := State();
      packets := [];
      for i := 0 to |flits|
        invariant Valid()
        invariant (State(), packets) == Deserialize(a0, flits[..i], w)
      {
        ghost var prev := State();
        var out := Step(flits[i]);
        assert flits[..i + 1][..i] == flits[..i];
        assert flits[..i + 1][i] == flits[i];
        assert (State(), out) == DeserializeStep(prev, flits[i], w);
        if out.Some? {
          packets := packets + [out.value];
        } else {
          assert packets + [] == packets;
        }
      }
      assert flits[..|flits|] == flits;
    }
  }

  // ---------------------------------------------------------------------
  // Buffered deserializers (store-and-forward and wormhole)
  // ---------------------------------------------------------------------

  /**
   * The registers of a deserializer with `buffersize` entries: the queue of
   * free entry indices held in the index fifo and that fifo's read pointer,
   * the packet buffer, `num_flits_received` per entry, and `packet_pos`.
   */
  datatype Deser = Deser(free: seq<nat>, head: nat, buffer: seq<PacketValue>, received: seq<nat>, pos: nat)

  /** The registers of a deserializer with `size` entries; the index fifo has `size` slots. */
  predicate DeserOk(s: Deser, size: nat) {
    && size >= 2 && |s.buffer| == size && |s.received| == size
    && s.head < size && s.pos < size && |s.free| <= size
    && forall k :: 0 <= k < |s.free| ==> s.free[k] < size
  }

  /** `get_tail()` of the index fifo: the slot after its last queued index. */
  function FreeTail(s: Deser, size: nat): (t: nat)
    requires size > 0
    ensures t < size
  {
    (s.head + |s.free|) % size
  }

  /**
   * The test the search loop applies to buffer entry i, as written: it
   * compares the entry index with the index fifo's read and write pointers,
   * and fails whenever the fifo is empty.
   */
  predicate EntryValid(i: nat, head: nat, tail: nat, full: bool, empty: bool) {
    ((tail < head && i >= tail && i < head) || (head < tail && (i >= tail || i < head)) || full) && !empty
  }

  /**
   * Whether the search stores flit f in entry i: the entry passes the
   * validity test and holds f's packet id.  With `fixed` the test is that
   * the entry is in use, that is, its index is not queued as free.
   */
  predicate Matches(s: Deser, size: nat, i: nat, f: FlitValue, fixed: bool)
    requires DeserOk(s, size) && i < size
  {
    && (if fixed then i !in s.free else EntryValid(i, s.head, FreeTail(s, size), |s.free| == size, |s.free| == 0))
    && s.buffer[i].packetId == f.packetId
  }

  /** Entry `pk`, with `n` flits received, takes flit f's data at n·flit_width. */
  function Absorb(pk: PacketValue, n: nat, f: FlitValue, fw: nat): (r: PacketValue)
    ensures r.dest == pk.dest && r.packetId == pk.packetId && |r.data| == |pk.data|
  {
    pk.(data := Place(pk.data, f.data, n * fw))
  }

  /**
   * The search loop over entries 0 .. n-1 for a flit that is not a header:
   * every matching entry takes the flit's data and counts it, and
   * `packet_pos` becomes the last matching entry.
   */
  function SearchTo(s: Deser, size: nat, f: FlitValue, fw: nat, fixed: bool, n: nat): (t: Deser)
    requires DeserOk(s, size) && n <= size
    ensures DeserOk(t, size) && t.free == s.free && t.head == s.head
  {
    if n == 0 then s
    else
      var t := SearchTo(s, size, f, fw, fixed, n - 1);
      if Matches(s, size, n - 1, f, fixed) then
        t.(buffer := t.buffer[n - 1 := Absorb(s.buffer[n - 1], s.received[n - 1], f, fw)],
           received := t.received[n - 1 := s.received[n - 1] + 1],
           pos := n - 1)
      else t
  }

  /**
   * What the search loop does to the entries: an entry below n changes
   * exactly when it matches, and then takes the flit and counts it.
   */
  lemma {:induction false} SearchToEntries(s: Deser, size: nat, f: FlitValue, fw: nat, fixed: bool, n: nat)
    requires DeserOk(s, size) && n <= size
    ensures var t := SearchTo(s, size, f, fw, fixed, n);
      forall j :: 0 <= j < size ==>
        && t.buffer[j] == (if j < n && Matches(s, size, j, f, fixed) then Absorb(s.buffer[j], s.received[j], f, fw) else s.buffer[j])
        && t.received[j] == (if j < n && Matches(s, size, j, f, fixed) then s.received[j] + 1 else s.received[j])
  {
    if n > 0 {
      SearchToEntries(s, size, f, fw, fixed, n - 1);
    }
  }

  /**
   * Where the search loop leaves `packet_pos`: at the last match below n,
   * or where it was when there is none.
   */
  lemma {:induction false} SearchToPos(s: Deser, size: nat, f: FlitValue, fw: nat, fixed: bool, n: nat)
    requires DeserOk(s, size) && n <= size
    ensures var t := SearchTo(s, size, f, fw, fixed, n);
      && (forall j :: t.pos < j < n ==> !Matches(s, size, j, f, fixed))
      && (t.pos == s.pos || (t.pos < n && Matches(s, size, t.pos, f, fixed)))
      && ((exists j :: 0 <= j < n && Matches(s, size, j, f, fixed)) ==> t.pos < n && Matches(s, size, t.pos, f, fixed))
  {
    if n > 0 {
      SearchToPos(s, size, f, fw, fixed, n - 1);
    }
  }

  /**
   * A header flit: the index at the front of the free queue is popped and
   * becomes `packet_pos`; that entry takes the flit's packet id, and for
   * store-and-forward its dest and its data at bit 0 with one flit counted,
   * for wormhole its dest from the flit's data with no flit counted.
   */
  function TakeHeader(s: Deser, size: nat, f: FlitValue, w: Widths, router: RouterType): (t: Deser)
    requires DeserOk(s, size) && |s.free| > 0
    ensures DeserOk(t, size) && t.free == s.free[1..] && t.pos == s.free[0] && t.head == (s.head + 1) % size
  {
    var i := s.free[0];
    var pk := s.buffer[i];
    var entry :=
      if router == StoreForward then pk.(packetId := f.packetId, dest := f.dest, data := Place(pk.data, f.data, 0))
      else pk.(packetId := f.packetId, dest := Resize(f.data, w.dest));
    Deser(s.free[1..], (s.head + 1) % size, s.buffer[i := entry], s.received[i := if router == StoreForward then 1 else 0], i)
  }

  /**
   * One flit taken by `PopNB`: a header flit takes a free entry, any other
   * flit goes through the search; a tail flit then pushes the entry at
   * `packet_pos` out and queues its index as free again.  `None` when one of
   * the two assertions fails: a header with no free entry, a tail with
   * every index already free.
   */
  function DeserStep(s: Deser, size: nat, f: FlitValue, w: Widths, router: RouterType, fixed: bool)
    : (r: Option<(Deser, Option<PacketValue>)>)
    requires DeserOk(s, size)
    ensures r.None? <==> (IsHeader(f.kind) && |s.free| == 0) || (!IsHeader(f.kind) && IsTail(f.kind) && |s.free| == size)
    ensures r.Some? ==> DeserOk(r.value.0, size) && (r.value.1.Some? <==> IsTail(f.kind))
    ensures r.Some? && IsHeader(f.kind) ==>
      r.value.0.pos == s.free[0] && r.value.0.free == s.free[1..] + (if IsTail(f.kind) then [s.free[0]] else [])
    ensures r.Some? && !IsHeader(f.kind) ==>
      r.value.0.free == s.free + (if IsTail(f.kind) then [r.value.0.pos] else [])
    ensures r.Some? && IsTail(f.kind) ==> r.value.1.value == r.value.0.buffer[r.value.0.pos]
  {
    if IsHeader(f.kind) && |s.free| == 0 then None
    else
      var t := if IsHeader(f.kind) then TakeHeader(s, size, f, w, router) else SearchTo(s, size, f, w.flit, fixed, size);
      if !IsTail(f.kind) then Some((t, None))
      else if |t.free| == size then None
      else Some((t.(free := t.free + [t.pos]), Some(t.buffer[t.pos])))
  }

  /** A run of flits from a state; `None` once an assertion fails. */
  function DeserRun(s: Deser, size: nat, fs: seq<FlitValue>, w: Widths, router: RouterType, fixed: bool)
    : (r: Option<(Deser, seq<PacketValue>)>)
    requires DeserOk(s, size)
    ensures r.Some? ==> DeserOk(r.value.0, size)
  {
    if |fs| == 0 then Some((s, []))
    else
      var prev := DeserRun(s, size, fs[..|fs| - 1], w, router, fixed);
      if prev.None? then None
      else
        var step := DeserStep(prev.value.0, size, fs[|fs| - 1], w, router, fixed);
        if step.None? then None
        else Some((step.value.0, prev.value.1 + (if step.value.1.Some? then [step.value.1.value] else [])))
  }

  /**
   * The state `Process` reaches from construction: the reset loop queues
   * 0 .. size-1 as free, and every entry holds `init` with no flit counted.
   */
  function DeserReset(size: nat, init: PacketValue): (s: Deser)
    requires size >= 2
    ensures DeserOk(s, size) && |s.free| == size
    ensures forall k :: 0 <= k < size ==> s.free[k] == k
  {
    Deser(seq(size, k => k), 0, seq(size, k => init), seq(size, k => 0), 0)
  }

  /** A run one flit longer: the step after the run, with its packet appended when it pushes one. */
  lemma RunSnoc(s: Deser, size: nat, fs: seq<FlitValue>, f: FlitValue, w: Widths, router: RouterType, fixed: bool)
    requires DeserOk(s, size) && DeserRun(s, size, fs, w, router, fixed).Some?
    ensures var prev := DeserRun(s, size, fs, w, router, fixed).value;
      var step := DeserStep(prev.0, size, f, w, router, fixed);
      DeserRun(s, size, fs + [f], w, router, fixed)
      == if step.None? then None else Some((step.value.0, prev.1 + (if step.value.1.Some? then [step.value.1.value] else [])))
  {
    assert (fs + [f])[..|fs|] == fs;
  }

  /** A run that completes completes on every prefix of its flits. */
  lemma {:induction false} RunPrefix(s: Deser, size: nat, fs: seq<FlitValue>, k: nat, w: Widths, router: RouterType, fixed: bool)
    requires DeserOk(s, size) && k <= |fs| && DeserRun(s, size, fs, w, router, fixed).Some?
    ensures DeserRun(s, size, fs[..k], w, router, fixed).Some?
    decreases |fs|
  {
    if k < |fs| {
      var shorter := fs[..|fs| - 1];
      assert shorter[..k] == fs[..k];
      RunPrefix(s, size, shorter, k, w, router, fixed);
    } else {
      assert fs[..k] == fs;
    }
  }

  /** Two interleaved two-flit packets, one data bit per flit: HEAD of A (id 0), HEAD of B (id 1), TAIL of A, TAIL of B. */
  function InterleavedFlits(): (fs: seq<FlitValue>)
    ensures |fs| == 4 && IsHeader(fs[0].kind) && IsHeader(fs[1].kind) && IsTail(fs[2].kind) && IsTail(fs[3].kind)
  {
    [FlitValue(HEAD, [true], [], [false]), FlitValue(HEAD, [false], [], [true]),
     FlitValue(TAIL, [true], [], [false]), FlitValue(TAIL, [true], [], [true])]
  }

  /** The first two steps of the interleaved run take entries 0 and 1 for A and B, whichever search is used. */
  lemma InterleavedHeaders(fixed: bool)
    ensures var fs := InterleavedFlits();
      var s0 := DeserReset(2, PacketValue([false, false], [], [false]));
      DeserRun(s0, 2, fs[..2], Widths(2, 0, 1), StoreForward, fixed)
      == Some((Deser([], 0, [PacketValue([true, false], [], [false]), PacketValue([false, false], [], [true])], [1, 1], 1), []))
  {
    var w := Widths(2, 0, 1);
    var fs := InterleavedFlits();
    var p0 := PacketValue([false, false], [], [false]);
    var a1 := PacketValue([true, false], [], [false]);
    var b1 := PacketValue([false, false], [], [true]);
    var s0 := DeserReset(2, p0);
    assert s0.free == [0, 1] && s0.buffer == [p0, p0] && s0.received == [0, 0];
    assert Place([false, false], [true], 0) == [true, false];
    var s1 := Deser([1], 1, [a1, p0], [1, 0], 0);
    var t1 := TakeHeader(s0, 2, fs[0], w, StoreForward);
    assert t1.free == [1] && t1.head == 1 && t1.buffer == [a1, p0] && t1.received == [1, 0] && t1.pos == 0;
    assert DeserStep(s0, 2, fs[0], w, StoreForward, fixed) == Some((s1, None));
    assert fs[..1] == [] + [fs[0]];
    assert DeserRun(s0, 2, [], w, StoreForward, fixed) == Some((s0, []));
    RunSnoc(s0, 2, [], fs[0], w, StoreForward, fixed);
    var none: seq<PacketValue> := [];
    assert DeserRun(s0, 2, [] + [fs[0]], w, StoreForward, fixed) == Some((s1, none + none));
    assert none + none == none;
    assert DeserRun(s0, 2, fs[..1], w, StoreForward, fixed) == Some((s1, []));
    assert Place([false, false], [false], 0) == [false, false];
    var t2 := TakeHeader(s1, 2, fs[1], w, StoreForward);
    assert t2.free == [] && t2.head == 0 && t2.buffer == [a1, b1] && t2.received == [1, 1] && t2.pos == 1;
    assert fs[..2] == fs[..1] + [fs[1]];
    RunSnoc(s0, 2, fs[..1], fs[1], w, StoreForward, fixed);
  }

  /** As written, A's tail finds no entry: the index fifo is empty. */
  lemma InterleavedAsWrittenTailA()
    ensures var s2 := Deser([], 0, [PacketValue([true, false], [], [false]), PacketValue([false, false], [], [true])], [1, 1], 1);
      DeserStep(s2, 2, InterleavedFlits()[2], Widths(2, 0, 1), StoreForward, false)
      == Some((s2.(free := [1]), Some(PacketValue([false, false], [], [true]))))
  {
    var s2 := Deser([], 0, [PacketValue([true, false], [], [false]), PacketValue([false, false], [], [true])], [1, 1], 1);
    var f := InterleavedFlits()[2];
    assert SearchTo(s2, 2, f, 1, false, 1) == s2;
    assert SearchTo(s2, 2, f, 1, false, 2) == s2;
    assert [] + [1] == [1];
  }

  /** As written, B's tail finds entry 1: the fifo's pointers are 0 and 1. */
  lemma InterleavedAsWrittenTailB()
    ensures var s3 := Deser([1], 0, [PacketValue([true, false], [], [false]), PacketValue([false, false], [], [true])], [1, 1], 1);
      DeserStep(s3, 2, InterleavedFlits()[3], Widths(2, 0, 1), StoreForward, false)
      == Some((Deser([1, 1], 0, [PacketValue([true, false], [], [false]), PacketValue([false, true], [], [true])], [1, 2], 1),
               Some(PacketValue([false, true], [], [true]))))
  {
    var a1 := PacketValue([true, false], [], [false]);
    var b2 := PacketValue([false, true], [], [true]);
    var s3 := Deser([1], 0, [a1, PacketValue([false, false], [], [true])], [1, 1], 1);
    var f := InterleavedFlits()[3];
    assert !Matches(s3, 2, 0, f, false) && Matches(s3, 2, 1, f, false);
    assert Place([false, false], [true], 1) == [false, true];
    assert SearchTo(s3, 2, f, 1, false, 1) == s3;
    var t4 := SearchTo(s3, 2, f, 1, false, 2);
    assert t4.free == [1] && t4.buffer == [a1, b2] && t4.received == [1, 2] && t4.pos == 1;
    assert [1] + [1] == [1, 1];
  }

  /**
   * As written, two interleaved packets break the search.  With two
   * entries, 1-bit flits and 2-bit packets, once both headers have taken an
   * entry the index fifo is empty, so no entry passes the test and A's tail
   * data is dropped; `packet_pos` still names B's entry, so B's half-built
   * packet goes out in A's place and index 1 is queued as free.  B's tail
   * then finds entry 1 again, B goes out a second time, and index 1 is
   * queued twice while index 0 is never freed.
   */
  lemma InterleavedAsWritten()
    ensures var r := DeserRun(DeserReset(2, PacketValue([false, false], [], [false])), 2, InterleavedFlits(),
                              Widths(2, 0, 1), StoreForward, false);
      && r.Some?
      && r.value.1 == [PacketValue([false, false], [], [true]), PacketValue([false, true], [], [true])]
      && r.value.0.free == [1, 1]
  {
    var w := Widths(2, 0, 1);
    var fs := InterleavedFlits();
    var s0 := DeserReset(2, PacketValue([false, false], [], [false]));
    InterleavedHeaders(false);
    InterleavedAsWrittenTailA();
    assert fs[..3] == fs[..2] + [fs[2]];
    RunSnoc(s0, 2, fs[..2], fs[2], w, StoreForward, false);
    InterleavedAsWrittenTailB();
    assert fs == fs[..3] + [fs[3]];
    RunSnoc(s0, 2, fs[..3], fs[3], w, StoreForward, false);
  }

  /** Corrected, A's tail finds entry 0, in use with A's id. */
  lemma InterleavedFixedTailA()
    ensures var s2 := Deser([], 0, [PacketValue([true, false], [], [false]), PacketValue([false, false], [], [true])], [1, 1], 1);
      DeserStep(s2, 2, InterleavedFlits()[2], Widths(2, 0, 1), StoreForward, true)
      == Some((Deser([0], 0, [PacketValue([true, true], [], [false]), PacketValue([false, false], [], [true])], [2, 1], 0),
               Some(PacketValue([true, true], [], [false]))))
  {
    var a2 := PacketValue([true, true], [], [false]);
    var b1 := PacketValue([false, false], [], [true]);
    var s2 := Deser([], 0, [PacketValue([true, false], [], [false]), b1], [1, 1], 1);
    var f := InterleavedFlits()[2];
    assert Matches(s2, 2, 0, f, true) && !Matches(s2, 2, 1, f, true);
    assert Place([true, false], [true], 1) == [true, true];
    assert Absorb(s2.buffer[0], 1, f, 1) == a2;
    var t1 := SearchTo(s2, 2, f, 1, true, 1);
    assert SearchTo(s2, 2, f, 1, true, 0) == s2;
    assert t1.buffer == [a2, b1] && t1.received == [2, 1] && t1.pos == 0;
    var t3 := SearchTo(s2, 2, f, 1, true, 2);
    assert t3 == t1;
    assert t3.free == [] && t3.buffer == [a2, b1] && t3.received == [2, 1] && t3.pos == 0;
    assert [] + [0] == [0];
  }

  /** Corrected, B's tail finds entry 1, in use with B's id. */
  lemma InterleavedFixedTailB()
    ensures var s3 := Deser([0], 0, [PacketValue([true, true], [], [false]), PacketValue([false, false], [], [true])], [2, 1], 0);
      DeserStep(s3, 2, InterleavedFlits()[3], Widths(2, 0, 1), StoreForward, true)
      == Some((Deser([0, 1], 0, [PacketValue([true, true], [], [false]), PacketValue([false, true], [], [true])], [2, 2], 1),
               Some(PacketValue([false, true], [], [true]))))
  {
    var a2 := PacketValue([true, true], [], [false]);
    var b2 := PacketValue([false, true], [], [true]);
    var s3 := Deser([0], 0, [a2, PacketValue([false, false], [], [true])], [2, 1], 0);
    var f := InterleavedFlits()[3];
    assert !Matches(s3, 2, 0, f, true) && Matches(s3, 2, 1, f, true);
    assert Place([false, false], [true], 1) == [false, true];
    assert SearchTo(s3, 2, f, 1, true, 1) == s3;
    var t4 := SearchTo(s3, 2, f, 1, true, 2);
    assert t4.free == [0] && t4.buffer == [a2, b2] && t4.received == [2, 2] && t4.pos == 1;
    assert [0] + [1] == [0, 1];
  }

  /**
   * With the corrected test (an entry is searched when its index is not
   * free), the same interleaved flits come out as the two packets sent, A
   * first, and both indices are free again.
   */
  lemma InterleavedFixed()
    ensures var r := DeserRun(DeserReset(2, PacketValue([false, false], [], [false])), 2, InterleavedFlits(),
                              Widths(2, 0, 1), StoreForward, true);
      && r.Some?
      && r.value.1 == [PacketValue([true, true], [], [false]), PacketValue([false, true], [], [true])]
      && r.value.0.free == [0, 1]
  {
    var w := Widths(2, 0, 1);
    var fs := InterleavedFlits();
    var s0 := DeserReset(2, PacketValue([false, false], [], [false]));
    InterleavedHeaders(true);
    InterleavedFixedTailA();
    assert fs[..3] == fs[..2] + [fs[2]];
    RunSnoc(s0, 2, fs[..2], fs[2], w, StoreForward, true);
    InterleavedFixedTailB();
    assert fs == fs[..3] + [fs[3]];
    RunSnoc(s0, 2, fs[..3], fs[3], w, StoreForward, true);
  }

  // ---------------------------------------------------------------------
  // The corrected buffered deserializer
  // ---------------------------------------------------------------------

  /** The indices queued as free are pairwise different. */
  predicate Distinct(xs: seq<nat>) {
    forall a, b :: 0 <= a < b < |xs| ==> xs[a] != xs[b]
  }

  /** No entry in use holds packet id `id`. */
  predicate IdUnused(s: Deser, size: nat, id: Bits)
    requires DeserOk(s, size)
  {
    forall j :: 0 <= j < size && j !in s.free ==> s.buffer[j].packetId != id
  }

  /**
   * With the corrected test, no index is ever queued twice: a step keeps
   * the free indices pairwise different, as long as a tail flit that is not
   * a header belongs to a packet whose header took an entry (an entry in
   * use holds its id).
   */
  lemma FixedKeepsFreeDistinct(s: Deser, size: nat, f: FlitValue, w: Widths, router: RouterType)
    requires DeserOk(s, size) && Distinct(s.free)
    requires DeserStep(s, size, f, w, router, true).Some?
    requires IsTail(f.kind) && !IsHeader(f.kind) ==>
      exists j :: 0 <= j < size && j !in s.free && s.buffer[j].packetId == f.packetId
    ensures Distinct(DeserStep(s, size, f, w, router, true).value.0.free)
  {
    var r := DeserStep(s, size, f, w, router, true).value.0;
    if IsTail(f.kind) && !IsHeader(f.kind) {
      var j :| 0 <= j < size && j !in s.free && s.buffer[j].packetId == f.packetId;
      assert Matches(s, size, j, f, true);
      SearchToPos(s, size, f, w.flit, true, size);
      assert r.pos !in s.free;
    } else if IsHeader(f.kind) {
      assert s.free == [s.free[0]] + s.free[1..];
    }
  }

  /**
   * With the corrected test, a flit whose packet id only entry i (in use)
   * holds is stored in entry i alone, and `packet_pos` becomes i.
   */
  lemma FixedSearchHits(t: Deser, size: nat, f: FlitValue, fw: nat, i: nat)
    requires DeserOk(t, size) && i < size && i !in t.free && t.buffer[i].packetId == f.packetId
    requires forall j :: 0 <= j < size && j != i && j !in t.free ==> t.buffer[j].packetId != f.packetId
    ensures SearchTo(t, size, f, fw, true, size)
         == t.(buffer := t.buffer[i := Absorb(t.buffer[i], t.received[i], f, fw)],
               received := t.received[i := t.received[i] + 1], pos := i)
  {
    SearchToEntries(t, size, f, fw, true, size);
    SearchToPos(t, size, f, fw, true, size);
    assert Matches(t, size, i, f, true);
    var r := SearchTo(t, size, f, fw, true, size);
    assert r.buffer == t.buffer[i := Absorb(t.buffer[i], t.received[i], f, fw)];
    assert r.received == t.received[i := t.received[i] + 1];
  }

  /** The flits of one packet: a header first, a tail last, none in between, all with packet id `id`. */
  predicate PacketFlits(fs: seq<FlitValue>, id: Bits) {
    && |fs| > 0 && IsHeader(fs[0].kind) && IsTail(fs[|fs| - 1].kind)
    && (forall j :: 0 < j < |fs| ==> !IsHeader(fs[j].kind))
    && (forall j :: 0 <= j < |fs| - 1 ==> !IsTail(fs[j].kind))
    && (forall j :: 0 <= j < |fs| ==> fs[j].packetId == id)
  }

  /** The first flit whose data the deserializer stores: the header for store-and-forward, the one after it for wormhole. */
  function DataStart(router: RouterType): (k: nat)
    ensures k <= 1
  {
    if router == StoreForward then 0 else 1
  }

  /** The dest a header flit gives its entry: the flit's dest field, or for wormhole its data cut to the dest width. */
  function HeaderDest(f: FlitValue, w: Widths, router: RouterType): Bits {
    if router == StoreForward then f.dest else Resize(f.data, w.dest)
  }

  /**
   * The entry the first m flits of a packet build over `init`: the stored
   * flits' data placed one after the other, the header's dest and the
   * packet id.
   */
  function Built(init: PacketValue, fs: seq<FlitValue>, m: nat, w: Widths, router: RouterType): (e: PacketValue)
    requires 1 <= m <= |fs|
    ensures |e.data| == |init.data| && e.packetId == fs[0].packetId
  {
    PacketValue(Reassemble(init.data, fs[DataStart(router)..m], w.flit), HeaderDest(fs[0], w, router), fs[0].packetId)
  }

  /** One more stored flit extends the built entry. */
  lemma BuiltNext(init: PacketValue, fs: seq<FlitValue>, m: nat, w: Widths, router: RouterType)
    requires 1 <= m < |fs|
    ensures Absorb(Built(init, fs, m, w, router), m - DataStart(router), fs[m], w.flit) == Built(init, fs, m + 1, w, router)
  {
    var k := DataStart(router);
    assert fs[k..m + 1][..m - k] == fs[k..m];
  }

  /** The header flit starts the built entry in the free entry at the front of the queue. */
  lemma HeaderBuilds(s: Deser, size: nat, fs: seq<FlitValue>, w: Widths, router: RouterType)
    requires DeserOk(s, size) && |s.free| > 0 && |fs| > 0 && IsHeader(fs[0].kind)
    ensures var i := s.free[0];
      TakeHeader(s, size, fs[0], w, router)
      == Deser(s.free[1..], (s.head + 1) % size, s.buffer[i := Built(s.buffer[i], fs, 1, w, router)],
               s.received[i := 1 - DataStart(router)], i)
  {
    var i := s.free[0];
    var init := s.buffer[i];
    var e := Built(init, fs, 1, w, router);
    if router == StoreForward {
      var one := fs[DataStart(router)..1];
      assert one == [fs[0]] && one[..0] == [];
      assert Reassemble(init.data, one, w.flit) == Place(Reassemble(init.data, one[..0], w.flit), fs[0].data, 0 * w.flit);
      assert e.data == Place(init.data, fs[0].data, 0);
      assert e == init.(packetId := fs[0].packetId, dest := fs[0].dest, data := Place(init.data, fs[0].data, 0));
    } else {
      assert fs[1..1] == [];
      assert e == init.(packetId := fs[0].packetId, dest := Resize(fs[0].data, w.dest));
    }
  }

  /** The state after the first m flits of a packet, before its tail, when the packet took entry i. */
  function Building(s: Deser, size: nat, fs: seq<FlitValue>, m: nat, w: Widths, router: RouterType): (t: Deser)
    requires DeserOk(s, size) && |s.free| > 0 && 1 <= m <= |fs|
  {
    var i := s.free[0];
    Deser(s.free[1..], (s.head + 1) % size, s.buffer[i := Built(s.buffer[i], fs, m, w, router)],
          s.received[i := m - DataStart(router)], i)
  }

  /** A data flit of the packet, taken in the middle of it, extends its entry and nothing else. */
  lemma FixedBodyStep(s: Deser, size: nat, fs: seq<FlitValue>, m: nat, w: Widths, router: RouterType, id: Bits)
    requires DeserOk(s, size) && |s.free| > 0 && Distinct(s.free) && PacketFlits(fs, id) && IdUnused(s, size, id)
    requires 1 <= m < |fs|
    ensures var t := Building(s, size, fs, m, w, router);
      DeserOk(t, size) && SearchTo(t, size, fs[m], w.flit, true, size) == Building(s, size, fs, m + 1, w, router).(free := t.free)
  {
    var i := s.free[0];
    var t := Building(s, size, fs, m, w, router);
    assert s.free == [i] + s.free[1..];
    assert i !in t.free by {
      forall k | 0 <= k < |t.free| ensures t.free[k] != i {
        assert s.free[k + 1] != s.free[0];
      }
    }
    forall j | 0 <= j < size && j != i && j !in t.free
      ensures t.buffer[j].packetId != fs[m].packetId
    {
      assert j !in s.free;
    }
    FixedSearchHits(t, size, fs[m], w.flit, i);
    BuiltNext(s.buffer[i], fs, m, w, router);
  }

  /**
   * With the corrected test, the first m flits of a packet, before its
   * tail, take the entry at the front of the free queue and build the
   * packet there; nothing is pushed yet.
   */
  lemma {:induction false} FixedPrefix(s: Deser, size: nat, fs: seq<FlitValue>, m: nat, w: Widths, router: RouterType, id: Bits)
    requires DeserOk(s, size) && |s.free| > 0 && Distinct(s.free) && PacketFlits(fs, id) && IdUnused(s, size, id)
    requires 1 <= m < |fs|
    ensures DeserRun(s, size, fs[..m], w, router, true) == Some((Building(s, size, fs, m, w, router), []))
  {
    var none: seq<PacketValue> := [];
    if m == 1 {
      assert fs[..1] == [] + [fs[0]];
      assert DeserRun(s, size, [], w, router, true) == Some((s, none));
      RunSnoc(s, size, [], fs[0], w, router, true);
      HeaderBuilds(s, size, fs, w, router);
      assert none + none == none;
    } else {
      FixedPrefix(s, size, fs, m - 1, w, router, id);
      assert fs[..m] == fs[..m - 1] + [fs[m - 1]];
      RunSnoc(s, size, fs[..m - 1], fs[m - 1], w, router, true);
      FixedBodyStep(s, size, fs, m - 1, w, router, id);
      assert none + none == none;
    }
  }

  /** The state just before a packet's tail flit: the start state for a one-flit packet. */
  function BeforeTail(s: Deser, size: nat, fs: seq<FlitValue>, w: Widths, router: RouterType): (t: Deser)
    requires DeserOk(s, size) && |s.free| > 0 && |fs| > 0
  {
    if |fs| == 1 then s else Building(s, size, fs, |fs| - 1, w, router)
  }

  /** With the corrected test, the flits before a packet's tail push nothing and leave BeforeTail. */
  lemma FixedBeforeTail(s: Deser, size: nat, fs: seq<FlitValue>, w: Widths, router: RouterType, id: Bits)
    requires DeserOk(s, size) && |s.free| > 0 && Distinct(s.free) && PacketFlits(fs, id) && IdUnused(s, size, id)
    ensures DeserRun(s, size, fs[..|fs| - 1], w, router, true) == Some((BeforeTail(s, size, fs, w, router), []))
  {
    var outs: seq<PacketValue> := [];
    if |fs| == 1 {
      assert fs[..0] == [];
      assert DeserRun(s, size, [], w, router, true) == Some((s, outs));
    } else {
      FixedPrefix(s, size, fs, |fs| - 1, w, router, id);
    }
  }

  /**
   * With the corrected test, a packet's tail flit completes the entry at
   * the front of the free queue, pushes it and queues its index at the back.
   */
  lemma FixedTailStep(s: Deser, size: nat, fs: seq<FlitValue>, w: Widths, router: RouterType, id: Bits)
    requires DeserOk(s, size) && |s.free| > 0 && Distinct(s.free) && PacketFlits(fs, id) && IdUnused(s, size, id)
    ensures var t := Building(s, size, fs, |fs|, w, router);
      DeserStep(BeforeTail(s, size, fs, w, router), size, fs[|fs| - 1], w, router, true)
      == Some((t.(free := t.free + [s.free[0]]), Some(t.buffer[s.free[0]])))
  {
    var n := |fs|;
    var before := BeforeTail(s, size, fs, w, router);
    var t := Building(s, size, fs, n, w, router);
    if n == 1 {
      HeaderBuilds(s, size, fs, w, router);
      assert TakeHeader(s, size, fs[0], w, router) == t;
    } else {
      FixedBodyStep(s, size, fs, n - 1, w, router, id);
      assert SearchTo(before, size, fs[n - 1], w.flit, true, size) == t;
    }
  }

  /**
   * With the corrected test, a whole packet's flits push exactly one
   * packet: the entry built from the packet's stored flits, and the index
   * it took goes to the back of the free queue.
   */
  lemma FixedPacket(s: Deser, size: nat, fs: seq<FlitValue>, w: Widths, router: RouterType, id: Bits)
    requires DeserOk(s, size) && |s.free| > 0 && Distinct(s.free) && PacketFlits(fs, id) && IdUnused(s, size, id)
    ensures var i := s.free[0];
      var e := Built(s.buffer[i], fs, |fs|, w, router);
      DeserRun(s, size, fs, w, router, true)
      == Some((Deser(s.free[1..] + [i], (s.head + 1) % size, s.buffer[i := e], s.received[i := |fs| - DataStart(router)], i), [e]))
  {
    var n := |fs|;
    var i := s.free[0];
    var outs: seq<PacketValue> := [];
    var t := Building(s, size, fs, n, w, router);
    assert fs == fs[..n - 1] + [fs[n - 1]];
    FixedBeforeTail(s, size, fs, w, router, id);
    FixedTailStep(s, size, fs, w, router, id);
    RunSnoc(s, size, fs[..n - 1], fs[n - 1], w, router, true);
    assert outs + [t.buffer[i]] == [t.buffer[i]];
  }

  /**
   * Store-and-forward end to end, with the corrected test: the flits of a
   * packet give back that packet, and the entry it used is queued as free
   * again.
   */
  lemma FixedStoreForwardRoundTrip(s: Deser, size: nat, p: PacketValue, w: Widths)
    requires DeserOk(s, size) && |s.free| > 0 && Distinct(s.free) && IdUnused(s, size, p.packetId)
    requires w.flit > 0 && w.data > 0 && w.data % w.flit == 0 && PacketFits(p, w)
    requires |s.buffer[s.free[0]].data| == w.data
    ensures var r := DeserRun(s, size, StoreForwardFlits(p, w, SliceCount(w)), w, StoreForward, true);
      r.Some? && r.value.1 == [p] && r.value.0.free == s.free[1..] + [s.free[0]]
  {
    var fs := StoreForwardFlits(p, w, SliceCount(w));
    var init := s.buffer[s.free[0]];
    StoreForwardRoundTrip(p, w, init.data);
    assert PacketFlits(fs, p.packetId);
    FixedPacket(s, size, fs, w, StoreForward, p.packetId);
    assert fs[DataStart(StoreForward)..|fs|] == fs;
    assert Built(init, fs, |fs|, w, StoreForward) == p;
  }

  /**
   * The serializer without packet id into the corrected wormhole
   * deserializer: the flits of a packet give back its data and dest (with
   * the empty id those flits carry), and the entry it used is queued as
   * free again.
   */
  lemma FixedWormHoleRoundTrip(s: Deser, size: nat, p: PacketValue, w: Widths)
    requires DeserOk(s, size) && |s.free| > 0 && Distinct(s.free) && IdUnused(s, size, [])
    requires w.flit > 0 && w.data > 0 && w.dest <= w.flit && PacketFits(p, w)
    requires |s.buffer[s.free[0]].data| == w.data
    ensures var r := DeserRun(s, size, NoIdFlits(p, w), w, WormHole, true);
      r.Some? && r.value.1 == [p.(packetId := [])] && r.value.0.free == s.free[1..] + [s.free[0]]
  {
    var fs := NoIdFlits(p, w);
    var init := s.buffer[s.free[0]];
    NoIdRoundTrip(p, w, init.data);
    assert PacketFlits(fs, []);
    FixedPacket(s, size, fs, w, WormHole, []);
    assert fs[DataStart(WormHole)..|fs|] == fs[1..];
    assert Built(init, fs, |fs|, w, WormHole) == p.(packetId := []);
  }
}
