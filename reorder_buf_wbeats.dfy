/**
 * `ReorderBufWBeats` of `ReorderBufWBeats.h`: a reorder buffer in which one
 * response may carry several beats of data.  The first beat answers the
 * request as usual; every further beat is appended straight to the entry
 * queue as an already valid entry, so it is released right after the entries
 * before it.  The subclass adds no state of its own, so its two operations
 * act on a `ReorderBuf` object.
 */
module ReorderBufWBeats {
  import opened Bits
  import opened Fifo
  import opened ReorderBuf

  /** `addBeat(data)` on the abstract buffer: a valid entry holding data is appended. */
  function Beat<T>(s: Rob<T>, data: T): (r: Rob<T>) {
    Rob(s.entries + [Ready(data)], s.idrep)
  }

  /** A beat keeps the buffer consistent when there is room for it. */
  lemma BeatConsistent<T>(s: Rob<T>, depth: nat, inFlight: nat, data: T)
    requires Consistent(s, depth, inFlight) && |s.entries| < depth
    ensures Consistent(Beat(s, data), depth, inFlight)
    ensures NumWaiting(Beat(s, data).entries) == NumWaiting(s.entries)
  {
    var e := Beat(s, data).entries;
    forall i | 0 <= i < inFlight && s.idrep[i] ensures Waiting(i) in e {
      var k := WaitingIndex(s.entries, i);
      assert e[k] == Waiting(i);
    }
    assert WaitingIds(e) == WaitingIds(s.entries) + WaitingIds([Ready(data)]);
  }

  /**
   * A beat never answers a request: a response for an outstanding id finds
   * the same entry whether or not beats were appended after it.
   */
  lemma RespondAfterBeat<T>(s: Rob<T>, depth: nat, inFlight: nat, beat: T, id: nat, data: T)
    requires Consistent(s, depth, inFlight) && |s.entries| < depth && id < inFlight && s.idrep[id]
    ensures Waiting(id) in Beat(s, beat).entries
    ensures Respond(Beat(s, beat), id, data) == Beat(Respond(s, id, data), beat)
  {
    var w := WaitingIndex(s.entries, id);
    var e := Beat(s, beat).entries;
    assert e[w] == Waiting(id);
    var v := WaitingIndex(e, id);
    if v != w && v < |s.entries| {
      assert s.entries[v] == Waiting(id);
      WaitingUnique(s, depth, inFlight, id, v);
    }
    assert e[w := Ready(data)] == s.entries[w := Ready(data)] + [Ready(beat)];
  }

  /** Beats are released in the order they were added, after what was queued before them. */
  lemma BeatPoppedInOrder<T>(s: Rob<T>, data: T)
    requires TopReady(s)
    ensures TopReady(Beat(s, data))
    ensures Pop(Beat(s, data)) == (Pop(s).0, Beat(Pop(s).1, data))
  {
    assert (s.entries + [Ready(data)])[1..] == s.entries[1..] + [Ready(data)];
  }

  /**
   * `addBeat` on the concrete state performs `Beat` on the abstract one: the
   * data goes to the tail slot, whose valid bit is set, and the tail advances.
   */
  lemma InvBeat<T>(depth: nat, inFlight: nat, head: nat, tail: nat, lastPush: bool, s: Rob<T>,
                   vb: seq<bool>, st: seq<T>, ie: seq<nat>, data: T,
                   tail': nat, s': Rob<T>, vb': seq<bool>, st': seq<T>)
    requires Inv(depth, inFlight, head, tail, lastPush, s, vb, st, ie) && |s.entries| < depth
    requires tail' == ModIncr(tail, depth) && s' == Beat(s, data)
    requires vb' == vb[tail := true] && st' == st[tail := data]
    ensures Inv(depth, inFlight, head, tail', true, s', vb', st', ie)
  {
    assert s'.entries == s.entries + [Ready(data)] && s'.idrep == s.idrep;
    assert Consistent(s', depth, inFlight) by {
      BeatConsistent(s, depth, inFlight, data);
    }
    assert Stored(s'.entries, head, depth, vb', st', ie) by {
      StoredBeat(s.entries, head, depth, vb, st, ie, data);
    }
    assert tail' == Slot(head, |s'.entries|, depth) by {
      ModSplit(head + |s.entries|, 1, depth);
    }
  }

  /** `canReceiveBeats()`: the entry queue is not full. */
  function CanReceiveBeats<T>(rob: ReorderBuf<T>): (r: bool)
    requires rob.Valid()
    reads rob, rob.storage, rob.vbits, rob.id2entry
    ensures r <==> |rob.entries| < rob.depth
  {
    InvPointers(rob.depth, rob.inFlight, rob.head, rob.tail, rob.lastPush, rob.Abs(),
                rob.vbits[..], rob.storage[..], rob.id2entry[..]);
    !(rob.head == rob.tail && rob.lastPush)
  }

  /** `addBeat(data)`: writes data to the tail slot and pushes a set valid bit. */
  method AddBeat<T>(rob: ReorderBuf<T>, data: T)
    requires rob.Valid() && CanReceiveBeats(rob)
    modifies rob, rob.storage, rob.vbits
    ensures rob.Valid()
    ensures rob.Abs() == Beat(old(rob.Abs()), data)
    ensures rob.idrep == old(rob.idrep) && rob.id2entry[..] == old(rob.id2entry[..])
  {
    ghost var s0, vb0, st0, ie0, h0, t0, lp0 :=
      rob.Abs(), rob.vbits[..], rob.storage[..], rob.id2entry[..], rob.head, rob.tail, rob.lastPush;
    assert Inv(rob.depth, rob.inFlight, h0, t0, lp0, s0, vb0, st0, ie0);
    var entryNum := rob.tail;
    rob.storage[entryNum] := data;
    // vbits.push(true)
    rob.vbits[entryNum] := true;
    rob.tail := ModIncr(rob.tail, rob.depth);
    rob.lastPush := true;
    rob.entries := rob.entries + [Ready(data)];
    assert rob.id2entry[..] == ie0;
    InvBeat(rob.depth, rob.inFlight, h0, t0, lp0, s0, vb0, st0, ie0, data,
            rob.tail, rob.Abs(), rob.vbits[..], rob.storage[..]);
  }
}
