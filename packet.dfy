/**
 * `FlitId2bit`, `Packet` and `Flit` of `nvhls_packet.h`: the two-bit flit
 * kind and the field layouts of network packets and flits.
 *
 * Every layout is the marshalled order of the fields, so its bit positions
 * are the offsets of `Marshaller.Flatten`.
 */
module Packet {
  import opened Bits
  import opened NvhlsInt
  import opened Marshaller

  /** `FlitId2bit::Encoding`. */
  datatype Encoding = BODY | HEAD | TAIL | SNGL

  /** The two-bit code of each flit kind. */
  function Code(e: Encoding): (r: nat)
    ensures r < 4
  {
    match e
    case BODY => 0
    case HEAD => 1
    case TAIL => 2
    case SNGL => 3
  }

  /** Every two-bit value is the code of exactly one flit kind. */
  lemma CodeBijective(v: nat)
    requires v < 4
    ensures exists e :: Code(e) == v
    ensures forall e, e' :: Code(e) == v && Code(e') == v ==> e == e'
  {
    if v == 0 { assert Code(BODY) == v; }
    else if v == 1 { assert Code(HEAD) == v; }
    else if v == 2 { assert Code(TAIL) == v; }
    else { assert Code(SNGL) == v; }
  }

  /** `FlitId2bit`: a two-bit register holding a flit kind. */
  class FlitId2bit {
    var data: nat

    predicate Valid()
      reads this
    {
      data < 4
    }

    /** `isHeader()`: bit 0 is set. */
    predicate IsHeader()
      reads this
    {
      BitOf(data, 0)
    }

    /** `isBody()`: the value is BODY. */
    predicate IsBody()
      reads this
    {
      data == Code(BODY)
    }

    /** `isTail()`: bit 1 is set. */
    predicate IsTail()
      reads this
    {
      BitOf(data, 1)
    }

    /** `isSingle()`: the value is SNGL. */
    predicate IsSingle()
      reads this
    {
      data == Code(SNGL)
    }

    /** The two-bit image that `Marshall` writes. */
    function Raw(): (r: Bits)
      requires Valid()
      reads this
      ensures |r| == 2 && ToNat(r) == data
    {
      assert Pow2(2) == 4 by { assert Pow2(1) == 2; }
      FromNatFits(data, 2);
      FromNat(data, 2)
    }

    /** A flit kind register, as `FlitId2bit()` leaves it before any `set`. */
    constructor ()
      ensures Valid() && data == Code(BODY)
    {
      data := Code(BODY);
    }

    /** `set(enc)`. */
    method Set(enc: Encoding)
      modifies this
      ensures Valid() && data == Code(enc)
    {
      data := Code(enc);
    }

    /** `reset()`: `set(BODY)`. */
    method Reset()
      modifies this
      ensures Valid() && IsBody() && !IsHeader() && !IsTail()
    {
      Set(BODY);
      assert BitOf(0, 1) == false by { assert Pow2(1) == 2; }
    }
  }

  /**
   * The kind tests on a flit-kind value: header iff HEAD or SNGL, tail iff
   * TAIL or SNGL, body iff BODY, single iff SNGL.  SNGL is both a header and
   * a tail, BODY neither.
   */
  lemma KindTests(f: FlitId2bit, e: Encoding)
    requires f.data == Code(e)
    ensures f.IsHeader() <==> e == HEAD || e == SNGL
    ensures f.IsTail() <==> e == TAIL || e == SNGL
    ensures f.IsBody() <==> e == BODY
    ensures f.IsSingle() <==> e == SNGL
  {
    assert Pow2(1) == 2;
  }

  /** On a two-bit value the tests read exactly its two bits. */
  lemma KindBits(f: FlitId2bit)
    requires f.Valid()
    ensures f.IsHeader() <==> f.Raw()[0]
    ensures f.IsTail() <==> f.Raw()[1]
    ensures f.IsSingle() <==> f.IsHeader() && f.IsTail()
    ensures f.IsBody() <==> !f.IsHeader() && !f.IsTail()
  {
    FromNatBit(f.data, 2, 0);
    FromNatBit(f.data, 2, 1);
    assert Pow2(1) == 2;
  }

  // ---------------------------------------------------------------------
  // Packet
  // ---------------------------------------------------------------------

  /**
   * `Packet<DataWidth, DestWidthPerHop, MaxHops, PacketIdWidth>`: data, a
   * destination of `DestWidthPerHop * MaxHops` bits and an optional packet id.
   */
  class Packet {
    const dataWidth: nat
    const destWidth: nat
    const packetIdWidth: nat
    var data: Bits
    var dest: Bits
    var packetId: Bits

    predicate Valid()
      reads this
    {
      |data| == dataWidth && |dest| == destWidth && |packetId| == packetIdWidth
    }

    /** `Packet()`: every field zero. */
    constructor (dataWidth: nat, destWidthPerHop: nat, maxHops: nat, packetIdWidth: nat)
      ensures Valid() && this.dataWidth == dataWidth && destWidth == destWidthPerHop * maxHops
      ensures this.packetIdWidth == packetIdWidth
      ensures IsZero(data) && IsZero(dest) && IsZero(packetId)
    {
      this.dataWidth := dataWidth;
      destWidth := destWidthPerHop * maxHops;
      this.packetIdWidth := packetIdWidth;
      data := Zeros(dataWidth);
      dest := Zeros(destWidthPerHop * maxHops);
      packetId := Zeros(packetIdWidth);
    }

    /** `reset()`: every field zero. */
    method Reset()
      requires Valid()
      modifies this
      ensures Valid() && IsZero(data) && IsZero(dest) && IsZero(packetId)
    {
      data := Zeros(dataWidth);
      dest := Zeros(destWidth);
      packetId := Zeros(packetIdWidth);
    }

    /** The fields `Marshall` names: data, dest and, when it has a width, the packet id. */
    function Fields(): (r: seq<Bits>)
      reads this
    {
      if packetIdWidth == 0 then [data, dest] else [data, dest, packetId]
    }

    /** The packet's flat vector. */
    function ToBits(): (r: Bits)
      requires Valid()
      reads this
      ensures |r| == PacketWidth(dataWidth, destWidth, packetIdWidth)
      ensures r == Flatten(Fields())
    {
      if packetIdWidth == 0 then
        Flatten2(data, dest);
        data + dest
      else
        Flatten3(data, dest, packetId);
        data + dest + packetId
    }
  }

  /** `Packet::width`. */
  function PacketWidth(dataWidth: nat, destWidth: nat, packetIdWidth: nat): nat {
    dataWidth + destWidth + packetIdWidth
  }

  /**
   * The packet layout: data at [0, data_width), dest at [dest_start_bit,
   * dest_end_bit] directly above it, the packet id from packet_id_start_bit.
   */
  lemma PacketLayout(p: Packet)
    requires p.Valid()
    ensures GetSlc(p.ToBits(), 0, p.dataWidth) == p.data
    ensures GetSlc(p.ToBits(), p.dataWidth, p.destWidth) == p.dest
    ensures GetSlc(p.ToBits(), p.dataWidth + p.destWidth, p.packetIdWidth) == p.packetId
  {
    var r := p.ToBits();
    assert r[..p.dataWidth] == p.data;
    assert r[p.dataWidth..p.dataWidth + p.destWidth] == p.dest;
    if p.packetIdWidth == 0 {
      assert p.packetId == [];
    }
  }

  // ---------------------------------------------------------------------
  // Flit
  // ---------------------------------------------------------------------

  /** `RouterType`: which flit format a router uses. */
  datatype RouterType = StoreForward | WormHole

  /**
   * `Flit<DataWidth, DestWidthPerHop, MaxHops, PacketIdWidth, FlitId2bit,
   * Rtype>`.  A store-and-forward flit carries the destination in every flit;
   * a wormhole flit has no destination field (it travels in the head flit's
   * data), so its dest width is 0.
   */
  class Flit {
    const router: RouterType
    const dataWidth: nat
    const destWidth: nat
    const packetIdWidth: nat
    var data: Bits
    var dest: Bits
    var packetId: Bits
    const flitId: FlitId2bit

    predicate Valid()
      reads this, flitId
    {
      |data| == dataWidth && |dest| == destWidth && |packetId| == packetIdWidth &&
      (router == WormHole ==> destWidth == 0) && flitId.Valid()
    }

    /** `Flit()`: `reset()`. */
    constructor (router: RouterType, dataWidth: nat, destWidth: nat, packetIdWidth: nat)
      requires router == WormHole ==> destWidth == 0
      ensures Valid() && this.router == router && this.dataWidth == dataWidth
      ensures this.destWidth == destWidth && this.packetIdWidth == packetIdWidth
      ensures IsZero(data) && IsZero(dest) && IsZero(packetId) && flitId.IsBody()
      ensures fresh(flitId)
    {
      this.router := router;
      this.dataWidth := dataWidth;
      this.destWidth := destWidth;
      this.packetIdWidth := packetIdWidth;
      data := Zeros(dataWidth);
      dest := Zeros(destWidth);
      packetId := Zeros(packetIdWidth);
      flitId := new FlitId2bit();
    }

    /** `reset()`: zero data, dest and packet id; the kind becomes BODY. */
    method Reset()
      requires Valid()
      modifies this, flitId
      ensures Valid() && IsZero(data) && IsZero(dest) && IsZero(packetId) && flitId.IsBody()
    {
      data := Zeros(dataWidth);
      dest := Zeros(destWidth);
      packetId := Zeros(packetIdWidth);
      flitId.Reset();
    }

    /** `get_packet_id()` of a wormhole flit: the id, or 0 without an id field. */
    function GetPacketId(): (r: nat)
      requires Valid()
      reads this, flitId
      ensures packetIdWidth == 0 ==> r == 0
      ensures r < Pow2(packetIdWidth)
    {
      ToNat(packetId)
    }

    /**
     * The fields `Marshall` names: data, dest, packet id and kind for a
     * store-and-forward flit; data, packet id and kind for a wormhole flit.
     */
    function Fields(): (r: seq<Bits>)
      requires Valid()
      reads this, flitId
    {
      if router == StoreForward then [data, dest, packetId, flitId.Raw()]
      else [data, packetId, flitId.Raw()]
    }

    /** The flit's flat vector. */
    function ToBits(): (r: Bits)
      requires Valid()
      reads this, flitId
      ensures |r| == FlitWidth(router, dataWidth, destWidth, packetIdWidth)
      ensures r == Flatten(Fields())
    {
      var raw := flitId.Raw();
      if router == StoreForward then
        Flatten4(data, dest, packetId, raw);
        data + dest + packetId + raw
      else
        Flatten3(data, packetId, raw);
        data + packetId + raw
    }
  }

  /** `Flit::width`: the field widths added up, with 2 bits of flit kind. */
  function FlitWidth(router: RouterType, dataWidth: nat, destWidth: nat, packetIdWidth: nat): nat {
    if router == StoreForward then dataWidth + destWidth + packetIdWidth + 2
    else dataWidth + packetIdWidth + 2
  }

  /**
   * The wormhole flit layout: data at [0, data_width), the packet id directly
   * above, the two kind bits on top.
   */
  lemma WormHoleLayout(f: Flit)
    requires f.Valid() && f.router == WormHole
    ensures |f.ToBits()| == f.dataWidth + f.packetIdWidth + 2
    ensures GetSlc(f.ToBits(), 0, f.dataWidth) == f.data
    ensures GetSlc(f.ToBits(), f.dataWidth, f.packetIdWidth) == f.packetId
    ensures GetSlc(f.ToBits(), f.dataWidth + f.packetIdWidth, 2) == f.flitId.Raw()
  {
    var r := f.ToBits();
    assert r[..f.dataWidth] == f.data;
    assert r[f.dataWidth..f.dataWidth + f.packetIdWidth] == f.packetId;
  }

  /**
   * The store-and-forward flit layout: data, dest, packet id and the two kind
   * bits, each directly above the one before.
   */
  lemma StoreForwardLayout(f: Flit)
    requires f.Valid() && f.router == StoreForward
    ensures GetSlc(f.ToBits(), 0, f.dataWidth) == f.data
    ensures GetSlc(f.ToBits(), f.dataWidth, f.destWidth) == f.dest
    ensures GetSlc(f.ToBits(), f.dataWidth + f.destWidth, f.packetIdWidth) == f.packetId
    ensures GetSlc(f.ToBits(), f.dataWidth + f.destWidth + f.packetIdWidth, 2) == f.flitId.Raw()
  {
    var r := f.ToBits();
    assert r[..f.dataWidth] == f.data;
    assert r[f.dataWidth..f.dataWidth + f.destWidth] == f.dest;
    assert r[f.dataWidth + f.destWidth..f.dataWidth + f.destWidth + f.packetIdWidth] == f.packetId;
  }
}
