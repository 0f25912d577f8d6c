/**
 * The buffered deserializers of `nvhls_serdes.h` as state: the packet
 * entries, their flit counters and the fifo of free entry indices, stepped
 * flit by flit and read back as the `Serdes.Deser` value that
 * `Serdes.DeserStep` transforms.
 */
module BufferedSerdes {
  import opened Bits
  import opened NvhlsInt
  import opened Wrappers
  import opened Packet
  import opened Fifo
  import opened Serdes

  /**
   * The store-and-forward `deserializer` and its wormhole specialisation:
   * `buffersize` packet entries, their flit counters, the fifo of free
   * entry indices and `packet_pos`.  `State()` reads them as a `Deser`, and
   * `Step` is `DeserStep` with the search test as written.
   */
  class BufferedDeserializer {
    const w: Widths
    const router: RouterType
    const size: nat
    /** `fifo`: the indices of the entries free for a new packet. */
    const fifo: Fifo<nat>
    const buffer: array<PacketValue>
    /** `num_flits_received`. */
    const received: array<nat>
    var packetPos: nat

    ghost predicate Valid()
      reads this, fifo, fifo.head, fifo.tail, fifo.lastPush, fifo.body
    {
      && fifo.Valid() && fifo.len == size && fifo.numBanks == 1 && size >= 2
      && buffer.Length == size && received.Length == size
      && received != fifo.head && received != fifo.tail
      && packetPos < size && |fifo.contents[0]| <= size
      && (forall k :: 0 <= k < |fifo.contents[0]| ==> fifo.contents[0][k] < size)
    }

    ghost function State(): (s: Deser)
      requires Valid()
      reads this, fifo, fifo.head, fifo.tail, fifo.lastPush, fifo.body, buffer, received
      ensures DeserOk(s, size)
    {
      Deser(fifo.contents[0], fifo.GetHead(0), buffer[..], received[..], packetPos)
    }

    /** The fifo's write pointer is where the free queue ends. */
    lemma TailIsFreeTail()
      requires Valid()
      ensures fifo.GetTail(0) == FreeTail(State(), size)
    {
      assert fifo.BankValid(0);
      ModSplit(fifo.pops[0], |fifo.contents[0]|, size);
    }

    /**
     * Construction and the reset loop of `Process`: the fifo, empty when
     * constructed, takes every index 0 .. buffersize-1; every entry holds
     * `init` with no flit counted.
     */
    constructor (w: Widths, router: RouterType, size: nat, init: PacketValue)
      requires size >= 2
      ensures Valid() && this.w == w && this.router == router && this.size == size
      ensures State() == DeserReset(size, init)
    {
      this.w := w;
      this.router := router;
      this.size := size;
      fifo := new Fifo<nat>(size, 1, 0);
      buffer := new PacketValue[size](k => init);
      received := new nat[size](k => 0);
      packetPos := 0;
      new;
      assert received[..] == seq(size, k => 0);
      FillFree();
      assert buffer[..] == seq(size, k => init);
    }

    /** The reset loop of `Process`: each index not yet queued goes into the fifo while it is not full. */
    method FillFree()
      requires Valid() && fifo.contents[0] == [] && fifo.pops[0] == 0
      modifies fifo, fifo.tail, fifo.lastPush, fifo.body
      ensures Valid() && fifo.contents[0] == seq(size, k => k) && fifo.GetHead(0) == 0
    {
      for i := 0 to size
        invariant Valid() && fifo.contents[0] == seq(i, k => k) && fifo.pops[0] == 0
      {
        if !fifo.IsFull(0) {
          fifo.Push(i, 0);
        }
      }
    }

    /** The header branch: pop a free index into `packet_pos` and start that entry. */
    method TakeHeaderFlit(f: FlitValue)
      requires Valid() && |fifo.contents[0]| > 0
      modifies this, buffer, received, fifo, fifo.head, fifo.lastPush
      ensures Valid() && State() == TakeHeader(old(State()), size, f, w, router)
    {
      ghost var s0 := State();
      var i := fifo.Pop(0);
      packetPos := i;
      var pk := buffer[i];
      if router == StoreForward {
        buffer[i] := pk.(packetId := f.packetId, dest := f.dest, data := Place(pk.data, f.data, 0));
        received[i] := 1;
      } else {
        buffer[i] := pk.(packetId := f.packetId, dest := Resize(f.data, w.dest));
        received[i] := 0;
      }
      assert fifo.contents[0] == s0.free[1..];
      assert fifo.GetHead(0) == (s0.head + 1) % size by {
        ModSplit(fifo.pops[0] - 1, 1, size);
      }
    }

    /** The search loop for a flit that is not a header, with the entry test as written. */
    method Search(f: FlitValue)
      requires Valid()
      modifies this, buffer, received
      ensures Valid() && State() == SearchTo(old(State()), size, f, w.flit, false, size)
    {
      ghost var s0 := State();
      for i := 0 to size
        invariant Valid() && State() == SearchTo(s0, size, f, w.flit, false, i)
      {
        SearchEntry(f, i, s0);
      }
    }

    /** One pass of the search loop: entry i takes the flit when it passes the test and holds the flit's packet id. */
    method SearchEntry(f: FlitValue, i: nat, ghost s0: Deser)
      requires Valid() && i < size && DeserOk(s0, size) && State() == SearchTo(s0, size, f, w.flit, false, i)
      modifies this, buffer, received
      ensures Valid() && State() == SearchTo(s0, size, f, w.flit, false, i + 1)
    {
      TailIsFreeTail();
      SearchToEntries(s0, size, f, w.flit, false, i);
      var head := fifo.GetHead(0);
      var tail := fifo.GetTail(0);
      if EntryValid(i, head, tail, fifo.IsFull(0), fifo.IsEmpty(0)) && buffer[i].packetId == f.packetId {
        assert Matches(s0, size, i, f, false);
        buffer[i] := Absorb(buffer[i], received[i], f, w.flit);
        received[i] := received[i] + 1;
        packetPos := i;
      }
    }

    /**
     * One pass of the `while` loop when `PopNB` returned flit f; `out` is
     * the packet pushed, if any.  The two assertions of the source (a
     * header finds a free entry, a tail finds an index to free) are the
     * precondition.
     */
    method Step(f: FlitValue) returns (out: Option<PacketValue>)
      requires Valid() && DeserStep(State(), size, f, w, router, false).Some?
      modifies this, buffer, received, fifo, fifo.head, fifo.tail, fifo.lastPush, fifo.body
      ensures Valid() && Some((State(), out)) == DeserStep(old(State()), size, f, w, router, false)
    {
      ghost var s0 := State();
      if IsHeader(f.kind) {
        TakeHeaderFlit(f);
      } else {
        Search(f);
      }
      ghost var t := State();
      if IsTail(f.kind) {
        out := Some(buffer[packetPos]);
        fifo.Push(packetPos, 0);
        assert buffer[..] == t.buffer && received[..] == t.received;
        assert fifo.GetHead(0) == t.head;
      } else {
        out := None;
      }
    }

    /**
     * The `while` loop of `Process` over the flits `PopNB` returns: the
     * packets pushed are those of `DeserRun` from the state before the
     * loop.  The precondition is that no assertion of the source fails.
     */
    method Process(flits: seq<FlitValue>) returns (packets: seq<PacketValue>)
      requires Valid() && DeserRun(State(), size, flits, w, router, false).Some?
      modifies this, buffer, received, fifo, fifo.head, fifo.tail, fifo.lastPush, fifo.body
      ensures Valid()
      ensures (State(), packets) == DeserRun(old(State()), size, flits, w, router, false).value
    {
      ghost var s0 := State();
      packets := [];
      for i := 0 to |flits|
        invariant Valid()
        invariant DeserRun(s0, size, flits[..i], w, router, false) == Some((State(), packets))
      {
        RunPrefix(s0, size, flits, i + 1, w, router, false);
        assert flits[..i + 1] == flits[..i] + [flits[i]];
        RunSnoc(s0, size, flits[..i], flits[i], w, router, false);
        var out := Step(flits[i]);
        if out.Some? {
          packets := packets + [out.value];
        } else {
          assert packets + [] == packets;
        }
      }
      assert flits[..|flits|] == flits;
    }
  }
}
