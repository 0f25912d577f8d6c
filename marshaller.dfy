/**
 * `Marshaller`, `StaticMax` and `BitUnion2` of `marshaller.h`.
 *
 * A marshaller converts a message to a flat logic vector and back, one field
 * at a time.  A field of `FieldSize` bits is represented here by its
 * `FieldSize`-bit image: the vendor conversions between a field's type and
 * its bit vector are taken to be mutually inverse on that width, so the image
 * is the field.  A message is then the sequence of its fields' images, in the
 * order its `Marshall` function names them.
 */
module Marshaller {
  import opened Bits
  import opened NvhlsInt

  /** The widths of a sequence of fields. */
  function Widths(fs: seq<Bits>): (r: seq<nat>)
    ensures |r| == |fs| && forall k :: 0 <= k < |fs| ==> r[k] == |fs[k]|
  {
    seq(|fs|, k requires 0 <= k < |fs| => |fs[k]|)
  }

  /** The total width of a field layout. */
  function Sum(ws: seq<nat>): nat {
    if |ws| == 0 then 0 else Sum(ws[..|ws| - 1]) + ws[|ws| - 1]
  }

  /** Where field k of a layout starts: the total width of the fields before it. */
  function Offset(ws: seq<nat>, k: nat): nat
    requires k <= |ws|
  {
    Sum(ws[..k])
  }

  lemma {:induction false} SumPrefix(ws: seq<nat>, k: nat)
    requires k < |ws|
    ensures Sum(ws[..k + 1]) == Sum(ws[..k]) + ws[k]
    ensures Sum(ws[..k]) + ws[k] <= Sum(ws)
    decreases |ws| - k
  {
    assert ws[..k + 1][..k] == ws[..k];
    if k + 1 < |ws| {
      SumPrefix(ws, k + 1);
    } else {
      assert ws[..k + 1] == ws;
    }
  }

  /**
   * The marshalled vector of a sequence of fields: field 0 in the lowest bits,
   * every later field directly above the one before it.
   */
  function Flatten(fs: seq<Bits>): (r: Bits)
    ensures |r| == Sum(Widths(fs))
  {
    if |fs| == 0 then []
    else
      assert Widths(fs)[..|fs| - 1] == Widths(fs[..|fs| - 1]);
      Flatten(fs[..|fs| - 1]) + fs[|fs| - 1]
  }

  /** Field k of a layout read off a vector: bits [Offset, Offset + width). */
  function FieldOf(bits: Bits, ws: seq<nat>, k: nat): (r: Bits)
    requires Sum(ws) <= |bits| && k < |ws|
    ensures Offset(ws, k) + ws[k] <= |bits|
    ensures r == bits[Offset(ws, k)..Offset(ws, k) + ws[k]]
  {
    SumPrefix(ws, k);
    bits[Offset(ws, k)..Offset(ws, k) + ws[k]]
  }

  /** The fields of the given widths read off a vector, from bit 0 upwards. */
  function Unpack(bits: Bits, ws: seq<nat>): (r: seq<Bits>)
    requires Sum(ws) <= |bits|
    ensures |r| == |ws| && forall k :: 0 <= k < |ws| ==> r[k] == FieldOf(bits, ws, k)
  {
    seq(|ws|, k requires 0 <= k < |ws| => FieldOf(bits, ws, k))
  }

  /** Marshalling one more field puts it directly above the others. */
  lemma FlattenSnoc(fs: seq<Bits>, f: Bits)
    ensures Flatten(fs + [f]) == Flatten(fs) + f
  {
    assert (fs + [f])[..|fs|] == fs;
  }

  /** A message of one field is that field. */
  lemma Flatten1(a: Bits)
    ensures Flatten([a]) == a
  {
    FlattenSnoc([], a);
    assert [] + [a] == [a];
  }

  /** Putting a field below a message shifts the message up by its width. */
  lemma {:induction false} FlattenCons(f: Bits, fs: seq<Bits>)
    ensures Flatten([f] + fs) == f + Flatten(fs)
    decreases |fs|
  {
    if |fs| == 0 {
      assert [f] + fs == [f];
      Flatten1(f);
    } else {
      var n := |fs| - 1;
      var front, last := fs[..n], fs[n];
      assert fs == front + [last];
      assert [f] + fs == ([f] + front) + [last];
      calc {
        Flatten([f] + fs);
        { FlattenSnoc([f] + front, last); }
        Flatten([f] + front) + last;
        { FlattenCons(f, front); }
        f + Flatten(front) + last;
        { FlattenSnoc(front, last); }
        f + Flatten(fs);
      }
    }
  }

  /** A layout of equal widths. */
  lemma {:induction false} SumUniform(ws: seq<nat>, w: nat)
    requires forall i :: 0 <= i < |ws| ==> ws[i] == w
    ensures Sum(ws) == |ws| * w
  {
    if |ws| > 0 {
      var n := |ws| - 1;
      SumUniform(ws[..n], w);
      assert (n + 1) * w == n * w + w;
    }
  }

  /** Messages of two, three and four fields. */
  lemma Flatten2(a: Bits, b: Bits)
    ensures Flatten([a, b]) == a + b
  {
    Flatten1(a);
    FlattenSnoc([a], b);
    assert [a] + [b] == [a, b];
  }

  lemma Flatten3(a: Bits, b: Bits, c: Bits)
    ensures Flatten([a, b, c]) == a + b + c
  {
    Flatten2(a, b);
    FlattenSnoc([a, b], c);
    assert [a, b] + [c] == [a, b, c];
  }

  lemma Flatten4(a: Bits, b: Bits, c: Bits, d: Bits)
    ensures Flatten([a, b, c, d]) == a + b + c + d
  {
    Flatten3(a, b, c);
    FlattenSnoc([a, b, c], d);
    assert [a, b, c] + [d] == [a, b, c, d];
  }

  /** Field k of a marshalled vector sits at bits [Offset, Offset + width). */
  lemma {:induction false} FieldPlacement(fs: seq<Bits>, k: nat)
    requires k < |fs|
    ensures Offset(Widths(fs), k) + |fs[k]| <= |Flatten(fs)|
    ensures GetSlc(Flatten(fs), Offset(Widths(fs), k), |fs[k]|) == fs[k]
  {
    var n := |fs| - 1;
    var front, ws := fs[..n], Widths(fs);
    SumPrefix(ws, k);
    assert ws[..n] == Widths(front);
    if k < n {
      FieldPlacement(front, k);
      assert ws[..k] == Widths(front)[..k];
    } else {
      assert ws[..k] == Widths(front);
    }
  }

  /**
   * Unmarshalling reads the ranges marshalling wrote, in the same order, so it
   * recovers every field; whatever lies above the fields is ignored.
   */
  lemma UnpackFlatten(fs: seq<Bits>, rest: Bits)
    ensures Unpack(Flatten(fs) + rest, Widths(fs)) == fs
  {
    var u := Unpack(Flatten(fs) + rest, Widths(fs));
    forall k | 0 <= k < |fs| ensures u[k] == fs[k] {
      FieldAfterFlatten(fs, rest, k);
    }
  }

  lemma FieldAfterFlatten(fs: seq<Bits>, rest: Bits, k: nat)
    requires k < |fs|
    ensures Sum(Widths(fs)) <= |Flatten(fs) + rest|
    ensures FieldOf(Flatten(fs) + rest, Widths(fs), k) == fs[k]
  {
    var bits := Flatten(fs) + rest;
    FieldPlacement(fs, k);
    var o := Offset(Widths(fs), k);
    assert bits[o..o + |fs[k]|] == Flatten(fs)[o..o + |fs[k]|];
  }

  /** Marshalling the fields read off a vector gives back that vector. */
  lemma FlattenUnpack(bits: Bits, layout: seq<nat>)
    requires |bits| == Sum(layout)
    ensures Flatten(Unpack(bits, layout)) == bits
  {
    var u := Unpack(bits, layout);
    assert Widths(u) == layout;
    forall i | 0 <= i < |bits| ensures Flatten(u)[i] == bits[i] {
      FlattenUnpackBit(bits, layout, i);
    }
  }

  lemma FlattenUnpackBit(bits: Bits, layout: seq<nat>, i: nat)
    requires |bits| == Sum(layout) && i < |bits|
    ensures |Flatten(Unpack(bits, layout))| == |bits|
    ensures Flatten(Unpack(bits, layout))[i] == bits[i]
  {
    var u := Unpack(bits, layout);
    assert Widths(u) == layout;
    var k := FieldContaining(layout, i);
    var o := Offset(layout, k);
    assert u[k] == bits[o..o + layout[k]];
    var f := Flatten(u);
    assert f[o..o + layout[k]] == u[k] by {
      FieldPlacement(u, k);
    }
    SliceAt(f, o, o + layout[k], i);
    SliceAt(bits, o, o + layout[k], i);
  }

  lemma SliceAt<U>(s: seq<U>, lo: nat, hi: nat, i: nat)
    requires lo <= i < hi <= |s|
    ensures s[lo..hi][i - lo] == s[i]
  {
  }

  /** The field of a layout that holds bit i. */
  function FieldContaining(layout: seq<nat>, i: nat): (k: nat)
    requires i < Sum(layout)
    ensures k < |layout| && Offset(layout, k) <= i < Offset(layout, k) + layout[k]
    decreases |layout|
  {
    var n := |layout| - 1;
    assert layout[..n + 1] == layout;
    if i >= Sum(layout[..n]) then
      n
    else
      var k := FieldContaining(layout[..n], i);
      assert layout[..n][..k] == layout[..k];
      k
  }

  /** The value of a marshalled vector: each field is weighted by 2 to the power of its offset. */
  lemma FlattenValue(fs: seq<Bits>)
    requires |fs| > 0
    ensures ToNat(Flatten(fs)) ==
      ToNat(Flatten(fs[..|fs| - 1])) + Pow2(Offset(Widths(fs), |fs| - 1)) * ToNat(fs[|fs| - 1])
  {
    var n := |fs| - 1;
    assert Widths(fs)[..n] == Widths(fs[..n]);
    ToNatAppend(Flatten(fs[..n]), fs[n]);
  }

  /**
   * `Marshaller<Size>`: the vector `glob`, the index of the next free bit
   * `cur_idx` and the direction.  The ghost `fields` are the fields added so
   * far; they always fill exactly the bits below `cur_idx`.
   */
  class Marshaller {
    const size: nat
    const isMarshalling: bool
    var glob: Bits
    var curIdx: nat
    ghost var fields: seq<Bits>

    ghost predicate Valid()
      reads this
    {
      |glob| == size && curIdx <= size &&
      curIdx == Sum(Widths(fields)) && glob[..curIdx] == Flatten(fields) &&
      (isMarshalling ==> IsZero(glob[curIdx..]))
    }

    /** `Marshaller()`: a zero vector to marshal into. */
    constructor (size: nat)
      ensures Valid() && this.size == size && isMarshalling
      ensures glob == Zeros(size) && curIdx == 0 && fields == []
    {
      this.size := size;
      isMarshalling := true;
      glob := Zeros(size);
      curIdx := 0;
      fields := [];
    }

    /** `Marshaller(v)`: unmarshal from v. */
    constructor FromBits(v: Bits)
      ensures Valid() && size == |v| && !isMarshalling
      ensures glob == v && curIdx == 0 && fields == []
    {
      size := |v|;
      isMarshalling := false;
      glob := v;
      curIdx := 0;
      fields := [];
    }

    /**
     * `AddField<T, FieldSize>(d)`: marshalling writes d to bits [cur_idx,
     * cur_idx + FieldSize) and leaves d alone; unmarshalling reads those bits
     * back into d.  Either way the index advances by FieldSize, which must
     * not take it beyond Size.
     */
    method AddField(fieldSize: nat, d: Bits) returns (r: Bits)
      requires Valid() && |d| == fieldSize && curIdx + fieldSize <= size
      modifies this
      ensures Valid() && curIdx == old(curIdx) + fieldSize && fields == old(fields) + [r]
      ensures isMarshalling ==> r == d && glob == SetSlc(old(glob), d, old(curIdx))
      ensures !isMarshalling ==> glob == old(glob) && r == GetSlc(glob, old(curIdx), fieldSize)
    {
      ghost var fs0, g0 := fields, glob;
      if isMarshalling {
        glob := SetSlc(glob, d, curIdx);
        r := d;
      } else {
        r := GetSlc(glob, curIdx, fieldSize);
      }
      fields := fields + [r];
      curIdx := curIdx + fieldSize;
      AddFieldStep(fs0, r, g0, glob, old(curIdx), isMarshalling);
    }

    /** `GetResult()`: once every bit is filled, the vector is the fields laid end to end. */
    function GetResult(): (r: Bits)
      requires Valid() && curIdx == size
      reads this
      ensures |r| == size && r == Flatten(fields)
    {
      assert glob[..curIdx] == glob;
      glob
    }
  }

  /** The invariant step of `AddField`, on values. */
  lemma AddFieldStep(fs: seq<Bits>, r: Bits, g0: Bits, g1: Bits, idx: nat, marshalling: bool)
    requires idx == Sum(Widths(fs)) && idx + |r| <= |g0| && g0[..idx] == Flatten(fs)
    requires marshalling ==> IsZero(g0[idx..]) && g1 == SetSlc(g0, r, idx)
    requires !marshalling ==> g1 == g0 && r == g0[idx..idx + |r|]
    ensures |g1| == |g0|
    ensures idx + |r| == Sum(Widths(fs + [r])) && g1[..idx + |r|] == Flatten(fs + [r])
    ensures marshalling ==> IsZero(g1[idx + |r|..])
  {
    var fs' := fs + [r];
    assert fs'[..|fs'| - 1] == fs;
    assert Widths(fs')[..|fs|] == Widths(fs);
    assert Flatten(fs') == Flatten(fs) + r;
    if marshalling {
      assert g1[..idx + |r|] == g1[..idx] + g1[idx..idx + |r|];
      assert g1[..idx] == g0[..idx];
    } else {
      assert g0[..idx + |r|] == g0[..idx] + g0[idx..idx + |r|];
    }
  }

  /**
   * `m & f1 & f2 & ...` on a fresh marshaller of the message's width, then
   * `GetResult()`: the message's flat vector.
   */
  method MarshallFields(fs: seq<Bits>) returns (bits: Bits)
    ensures bits == Flatten(fs)
  {
    var ws := Widths(fs);
    var m := new Marshaller(Sum(ws));
    for i := 0 to |fs|
      invariant m.Valid() && m.isMarshalling && m.size == Sum(ws)
      invariant m.fields == fs[..i] && m.curIdx == Offset(ws, i)
    {
      MarshallStep(fs, ws, i);
      var f := m.AddField(|fs[i]|, fs[i]);
    }
    assert fs[..|fs|] == fs && ws[..|fs|] == ws;
    bits := m.GetResult();
  }

  /** One step of the marshalling loop: field i goes at the running offset. */
  lemma MarshallStep(fs: seq<Bits>, ws: seq<nat>, i: nat)
    requires ws == Widths(fs) && i < |fs|
    ensures Offset(ws, i) + |fs[i]| == Offset(ws, i + 1) <= Sum(ws)
    ensures fs[..i + 1] == fs[..i] + [fs[i]]
  {
    SumPrefix(ws, i);
  }

  /**
   * `m & f1 & f2 & ...` on a marshaller built from a vector: the fields of the
   * given widths, read from bit 0 upwards.  The widths must fit in the vector.
   */
  method UnmarshallFields(v: Bits, ws: seq<nat>) returns (fs: seq<Bits>)
    requires Sum(ws) <= |v|
    ensures fs == Unpack(v, ws)
  {
    var m := new Marshaller.FromBits(v);
    ghost var u := Unpack(v, ws);
    fs := [];
    for i := 0 to |ws|
      invariant m.Valid() && !m.isMarshalling && m.glob == v
      invariant fs == m.fields == u[..i] && m.curIdx == Offset(ws, i)
    {
      UnpackStep(v, ws, i);
      var f := m.AddField(ws[i], Zeros(ws[i]));
      fs := fs + [f];
    }
    assert u[..|ws|] == u;
  }

  /** One step of the unmarshalling loop: field i is the slice at the running offset. */
  lemma UnpackStep(v: Bits, ws: seq<nat>, i: nat)
    requires Sum(ws) <= |v| && i < |ws|
    ensures Offset(ws, i) + ws[i] == Offset(ws, i + 1) <= Sum(ws)
    ensures Unpack(v, ws)[..i + 1] == Unpack(v, ws)[..i] + [GetSlc(v, Offset(ws, i), ws[i])]
  {
    SumPrefix(ws, i);
    var u := Unpack(v, ws);
    assert u[i] == FieldOf(v, ws, i) == GetSlc(v, Offset(ws, i), ws[i]);
    PrefixSnoc(u, i);
  }

  // ---------------------------------------------------------------------
  // StaticMax and BitUnion2
  // ---------------------------------------------------------------------

  /** `StaticMax<A, B>::value`: the larger of A and B. */
  function StaticMax(a: nat, b: nat): (r: nat)
    ensures r >= a && r >= b && (r == a || r == b)
  {
    if a > b then a else b
  }

  /** `BitUnion2<A, B>::width`: room for the wider alternative plus the one-bit tag. */
  function UnionWidth(widthA: nat, widthB: nat): (r: nat)
    ensures r == StaticMax(widthA, widthB) + 1
  {
    StaticMax(widthA, widthB) + 1
  }

  /**
   * `BitUnion2<A, B>`: a payload as wide as the wider of A and B, and a tag
   * bit that is 0 for A and 1 for B (`tag` true means 1).
   */
  class BitUnion2 {
    const widthA: nat
    const widthB: nat
    var payload: Bits
    var tag: bool

    predicate Valid()
      reads this
    {
      |payload| == StaticMax(widthA, widthB)
    }

    /** `BitUnion2()`: zero payload, tag 0. */
    constructor (widthA: nat, widthB: nat)
      ensures Valid() && this.widthA == widthA && this.widthB == widthB
      ensures payload == Zeros(StaticMax(widthA, widthB)) && !tag
    {
      this.widthA := widthA;
      this.widthB := widthB;
      payload := Zeros(StaticMax(widthA, widthB));
      tag := false;
    }

    /** `BitUnion2(const A&)`. */
    constructor FromA(widthA: nat, widthB: nat, a: Bits)
      requires |a| == widthA
      ensures Valid() && this.widthA == widthA && this.widthB == widthB
      ensures IsA() && ValueA() == a
    {
      this.widthA := widthA;
      this.widthB := widthB;
      payload := Zeros(StaticMax(widthA, widthB));
      tag := false;
      new;
      SetA(a);
    }

    /** `BitUnion2(const B&)`. */
    constructor FromB(widthA: nat, widthB: nat, b: Bits)
      requires |b| == widthB
      ensures Valid() && this.widthA == widthA && this.widthB == widthB
      ensures IsB() && ValueB() == b
    {
      this.widthA := widthA;
      this.widthB := widthB;
      payload := Zeros(StaticMax(widthA, widthB));
      tag := true;
      new;
      SetB(b);
    }

    /** `IsA()`: the tag is 0. */
    predicate IsA()
      reads this
    {
      !tag
    }

    /** `IsB()`: the tag is 1. */
    predicate IsB()
      reads this
    {
      tag
    }

    /** The A value held: the low `width A` bits of the payload. */
    function ValueA(): (r: Bits)
      requires Valid()
      reads this
      ensures |r| == widthA
    {
      payload[..widthA]
    }

    /** The B value held: the low `width B` bits of the payload. */
    function ValueB(): (r: Bits)
      requires Valid()
      reads this
      ensures |r| == widthB
    {
      payload[..widthB]
    }

    /**
     * `GetA()`: unmarshal an A from the payload, widened to the union's width;
     * only allowed while the tag is 0.
     */
    method GetA() returns (a: Bits)
      requires Valid() && IsA()
      ensures a == ValueA()
    {
      var fs := UnmarshallFields(payload + [false], [widthA]);
      a := fs[0];
      assert Offset([widthA], 0) == 0 by { assert [widthA][..0] == []; }
    }

    /** `GetB()`: unmarshal a B from the payload; only allowed while the tag is 1. */
    method GetB() returns (b: Bits)
      requires Valid() && IsB()
      ensures b == ValueB()
    {
      var fs := UnmarshallFields(payload + [false], [widthB]);
      b := fs[0];
      assert Offset([widthB], 0) == 0 by { assert [widthB][..0] == []; }
    }

    /**
     * `Set(const A&)`: marshal a on its own width, zero the payload, write the
     * result to its low bits and set the tag to 0.
     */
    method SetA(a: Bits)
      requires Valid() && |a| == widthA
      modifies this
      ensures Valid() && IsA() && ValueA() == a
      ensures payload == a + Zeros(StaticMax(widthA, widthB) - widthA)
    {
      var bits := MarshallFields([a]);
      assert Flatten([a]) == a by { assert [a][..0] == []; }
      payload := Zeros(|payload|);
      payload := SetSlc(payload, bits, 0);
      tag := false;
      assert payload == a + Zeros(StaticMax(widthA, widthB) - widthA);
    }

    /** `Set(const B&)`: as `Set(const A&)`, with tag 1. */
    method SetB(b: Bits)
      requires Valid() && |b| == widthB
      modifies this
      ensures Valid() && IsB() && ValueB() == b
      ensures payload == b + Zeros(StaticMax(widthA, widthB) - widthB)
    {
      var bits := MarshallFields([b]);
      assert Flatten([b]) == b by { assert [b][..0] == []; }
      payload := Zeros(|payload|);
      payload := SetSlc(payload, bits, 0);
      tag := true;
      assert payload == b + Zeros(StaticMax(widthA, widthB) - widthB);
    }

    /** `Marshall(m)`: the payload, then the tag; exactly `width` bits. */
    function ToBits(): (r: Bits)
      requires Valid()
      reads this
      ensures |r| == UnionWidth(widthA, widthB)
      ensures r == Flatten([payload, [tag]])
    {
      assert [payload, [tag]][..1] == [payload] && [payload][..0] == [];
      payload + [tag]
    }
  }

}
