/**
 * The combinational `crossbar` of `crossbar.h`.
 *
 * Output lane dst copies the input lane named by `source[dst]`.  It is valid
 * when its source selection is valid and the selected input is valid; an
 * invalid output carries the all-zero value of the data type
 * (`zero_bits<DataType>()`, a parameter `zero` here, since the data type is
 * generic).  A lane whose source selection is invalid reads input lane 0.
 */
module Crossbar {

  /** What the crossbar reads for every output: data lanes, valid bits and source selections. */
  predicate WellFormed<T>(dataIn: seq<T>, validIn: seq<bool>, source: seq<nat>, validSource: seq<bool>) {
    1 <= |dataIn| && |validIn| == |dataIn| && |validSource| == |source| &&
    forall dst :: 0 <= dst < |source| && validSource[dst] ==> source[dst] < |dataIn|
  }

  /** The input lane read for output dst: its source, or lane 0 when the selection is invalid. */
  function SourceLane(source: seq<nat>, validSource: seq<bool>, dst: nat): nat
    requires dst < |source| == |validSource|
  {
    if validSource[dst] then source[dst] else 0
  }

  /** The outputs of one call: data and valid bit per output lane. */
  datatype Outputs<T> = Outputs(data: seq<T>, valid: seq<bool>)

  /** The outputs of the full crossbar. */
  function Route<T>(dataIn: seq<T>, validIn: seq<bool>, source: seq<nat>, validSource: seq<bool>, zero: T): (r: Outputs<T>)
    requires WellFormed(dataIn, validIn, source, validSource)
    ensures |r.data| == |r.valid| == |source|
    ensures forall dst :: 0 <= dst < |source| ==>
      (r.valid[dst] <==> validSource[dst] && validIn[source[dst]])
    ensures forall dst :: 0 <= dst < |source| && r.valid[dst] ==> r.data[dst] == dataIn[source[dst]]
    ensures forall dst :: 0 <= dst < |source| && !r.valid[dst] ==> r.data[dst] == zero
    ensures forall dst :: 0 <= dst < |source| && !validSource[dst] ==> !r.valid[dst]
  {
    var valid := seq(|source|, dst requires 0 <= dst < |source| =>
      validSource[dst] && validIn[SourceLane(source, validSource, dst)]);
    var data := seq(|source|, dst requires 0 <= dst < |source| =>
      if valid[dst] then dataIn[SourceLane(source, validSource, dst)] else zero);
    Outputs(data, valid)
  }

  /**
   * The full `crossbar(data_in, valid_in, source, valid_source, data_out,
   * valid_out)`: one pass over the output lanes.
   */
  method CrossbarFull<T>(dataIn: seq<T>, validIn: seq<bool>, source: seq<nat>, validSource: seq<bool>,
                         dataOut: array<T>, validOut: array<bool>, zero: T)
    requires WellFormed(dataIn, validIn, source, validSource)
    requires dataOut.Length == validOut.Length == |source|
    requires dataOut as object != validOut
    modifies dataOut, validOut
    ensures dataOut[..] == Route(dataIn, validIn, source, validSource, zero).data
    ensures validOut[..] == Route(dataIn, validIn, source, validSource, zero).valid
  {
    ghost var r := Route(dataIn, validIn, source, validSource, zero);
    for dst := 0 to |source|
      invariant forall j :: 0 <= j < dst ==> dataOut[j] == r.data[j] && validOut[j] == r.valid[j]
    {
      var sourceTmp := source[dst];
      if !validSource[dst] {
        sourceTmp := 0;
      }
      var validInTmp := validIn[sourceTmp];
      var dataInTmp := dataIn[sourceTmp];
      if validSource[dst] && validInTmp {
        dataOut[dst] := dataInTmp;
        validOut[dst] := true;
      } else {
        dataOut[dst] := zero;
        validOut[dst] := false;
      }
    }
  }

  function AllTrue(n: nat): (r: seq<bool>)
    ensures |r| == n && forall i :: 0 <= i < n ==> r[i]
  {
    seq(n, i => true)
  }

  /** The five-argument `crossbar`: every source selection valid. */
  method CrossbarValidIn<T>(dataIn: seq<T>, validIn: seq<bool>, source: seq<nat>,
                            dataOut: array<T>, validOut: array<bool>, zero: T)
    requires WellFormed(dataIn, validIn, source, AllTrue(|source|))
    requires dataOut.Length == validOut.Length == |source|
    requires dataOut as object != validOut
    modifies dataOut, validOut
    ensures dataOut[..] == Route(dataIn, validIn, source, AllTrue(|source|), zero).data
    ensures validOut[..] == Route(dataIn, validIn, source, AllTrue(|source|), zero).valid
  {
    var validSource := new bool[|source|];
    for i := 0 to |source|
      invariant forall j :: 0 <= j < i ==> validSource[j]
    {
      validSource[i] := true;
    }
    assert validSource[..] == AllTrue(|source|);
    CrossbarFull(dataIn, validIn, source, validSource[..], dataOut, validOut, zero);
  }

  /** The three-argument `crossbar`: every input valid; the output valid bits are dropped. */
  method CrossbarData<T>(dataIn: seq<T>, source: seq<nat>, dataOut: array<T>, zero: T)
    requires WellFormed(dataIn, AllTrue(|dataIn|), source, AllTrue(|source|))
    requires dataOut.Length == |source|
    modifies dataOut
    ensures dataOut[..] == Route(dataIn, AllTrue(|dataIn|), source, AllTrue(|source|), zero).data
  {
    var validOut := new bool[|source|];
    var validIn := new bool[|dataIn|];
    for i := 0 to |dataIn|
      invariant forall j :: 0 <= j < i ==> validIn[j]
    {
      validIn[i] := true;
    }
    assert validIn[..] == AllTrue(|dataIn|);
    CrossbarValidIn(dataIn, validIn[..], source, dataOut, validOut, zero);
  }

  /** With every source selection valid, an output is valid exactly when its input is. */
  lemma AllSourcesValid<T>(dataIn: seq<T>, validIn: seq<bool>, source: seq<nat>, zero: T)
    requires WellFormed(dataIn, validIn, source, AllTrue(|source|))
    ensures var r := Route(dataIn, validIn, source, AllTrue(|source|), zero);
      forall dst :: 0 <= dst < |source| ==>
        r.valid[dst] == validIn[source[dst]] &&
        r.data[dst] == (if validIn[source[dst]] then dataIn[source[dst]] else zero)
  {
  }

  /** With everything valid, every output copies the input its source names. */
  lemma AllValidCopies<T>(dataIn: seq<T>, source: seq<nat>, zero: T)
    requires WellFormed(dataIn, AllTrue(|dataIn|), source, AllTrue(|source|))
    ensures var r := Route(dataIn, AllTrue(|dataIn|), source, AllTrue(|source|), zero);
      r.valid == AllTrue(|source|) && r.data == seq(|source|, dst requires 0 <= dst < |source| => dataIn[source[dst]])
  {
  }

  /**
   * Each output depends only on its own source entry: two calls whose
   * selections agree at dst give the same output at dst, and two outputs
   * naming the same valid input both copy it.
   */
  lemma OutputsIndependent<T>(dataIn: seq<T>, validIn: seq<bool>, source: seq<nat>, validSource: seq<bool>,
                              source': seq<nat>, validSource': seq<bool>, zero: T, dst: nat)
    requires WellFormed(dataIn, validIn, source, validSource)
    requires WellFormed(dataIn, validIn, source', validSource')
    requires dst < |source| && dst < |source'|
    requires validSource[dst] == validSource'[dst] && (validSource[dst] ==> source[dst] == source'[dst])
    ensures Route(dataIn, validIn, source, validSource, zero).valid[dst] == Route(dataIn, validIn, source', validSource', zero).valid[dst]
    ensures Route(dataIn, validIn, source, validSource, zero).data[dst] == Route(dataIn, validIn, source', validSource', zero).data[dst]
  {
  }
}
