/**
 * `TypeToBits`, `BitsToType`, `TypeToNVUINT` and `NVUINTToType` of
 * `TypeToBits.h`.
 *
 * A message type is described by its layout: the widths of the fields its
 * `Marshall` function names, in order; `Wrapped<T>::width` is their sum.  A
 * message value is the sequence of its fields' bit images.  Each conversion
 * runs a fresh `Marshaller` over the message, so it is the function that
 * `MarshallFields` / `UnmarshallFields` compute.
 */
module TypeToBits {
  import opened Bits
  import opened Marshaller

  type Layout = seq<nat>

  /** `Wrapped<T>::width` of a message with this layout. */
  function Width(layout: Layout): nat {
    Sum(layout)
  }

  /** A message value of the given layout. */
  predicate HasLayout(x: seq<Bits>, layout: Layout) {
    Widths(x) == layout
  }

  /** `TypeToBits<T>(in)`: marshal the message into a vector of exactly its width. */
  function TypeToBits(x: seq<Bits>): (r: Bits)
    ensures |r| == Width(Widths(x))
    ensures forall k :: 0 <= k < |x| ==> FieldOf(r, Widths(x), k) == x[k]
  {
    var r := Flatten(x);
    assert r + [] == r;
    forall k | 0 <= k < |x| ensures FieldOf(r, Widths(x), k) == x[k] {
      FieldAfterFlatten(x, [], k);
    }
    r
  }

  /** `BitsToType<T>(bits)`: unmarshal a vector of the message's width. */
  function BitsToType(layout: Layout, bits: Bits): (r: seq<Bits>)
    requires |bits| == Width(layout)
    ensures HasLayout(r, layout)
    ensures TypeToBits(r) == bits
  {
    var r := Unpack(bits, layout);
    assert Widths(r) == layout;
    FlattenUnpack(bits, layout);
    r
  }

  /** Unmarshalling what was marshalled gives the message back: `BitsToType<T>(TypeToBits<T>(x)) == x`. */
  lemma BitsRoundTrip(x: seq<Bits>)
    ensures BitsToType(Widths(x), TypeToBits(x)) == x
  {
    UnpackFlatten(x, []);
    assert TypeToBits(x) + [] == TypeToBits(x);
  }

  /** The one-field layout of `NVUINTW(w)`. */
  function UintLayout(w: nat): (r: Layout)
    ensures Width(r) == w
  {
    assert [w][..0] == [];
    assert Sum([w]) == Sum([]) + w;
    [w]
  }

  /**
   * `TypeToNVUINT<T>(in)`: `BitsToType` at the unsigned type of the message's
   * width, applied to `TypeToBits(in)`.  The unsigned value is the message's
   * flat vector itself.
   */
  function TypeToNVUINT(x: seq<Bits>): (r: Bits)
    ensures |r| == Width(Widths(x))
    ensures r == TypeToBits(x)
  {
    var w := Width(Widths(x));
    var fs := BitsToType(UintLayout(w), TypeToBits(x));
    assert fs == [fs[0]];
    assert TypeToBits(fs) == fs[0] by { assert fs[..0] == []; }
    fs[0]
  }

  /**
   * `NVUINTToType<T>(u)`: `TypeToBits` of the unsigned value, unmarshalled as
   * a T.  The unsigned value must have T's width.
   */
  function NVUINTToType(layout: Layout, u: Bits): (r: seq<Bits>)
    requires |u| == Width(layout)
    ensures HasLayout(r, layout) && TypeToBits(r) == u
  {
    assert TypeToBits([u]) == u by { assert [u][..0] == []; }
    BitsToType(layout, TypeToBits([u]))
  }

  /** `NVUINTToType<T>(TypeToNVUINT<T>(x)) == x`. */
  lemma UintRoundTrip(x: seq<Bits>)
    ensures NVUINTToType(Widths(x), TypeToNVUINT(x)) == x
  {
    var u := TypeToNVUINT(x);
    assert TypeToBits([u]) == u by { assert [u][..0] == []; }
    BitsRoundTrip(x);
  }

  /** The documented example: the 4-bit value 4 becomes the vector 0100. */
  lemma DocumentedExample()
    ensures TypeToBits([FromNat(4, 4)]) == [false, false, true, false]
    ensures ToNat(TypeToNVUINT([FromNat(4, 4)])) == 4
  {
    assert [FromNat(4, 4)][..0] == [];
    assert FromNat(4, 4) == [false] + FromNat(2, 3);
    assert FromNat(2, 3) == [false] + FromNat(1, 2);
    assert FromNat(1, 2) == [true] + FromNat(0, 1);
    assert FromNat(0, 1) == [false] + FromNat(0, 0);
    assert Pow2(4) == 16 by { Pow2Values(); }
    FromNatFits(4, 4);
  }
}
