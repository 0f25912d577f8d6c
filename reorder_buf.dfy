/**
 * `ReorderBuf` of `ReorderBuf.h`: a reorder buffer that accepts requests in
 * order, takes their responses in any order and releases the responses in
 * request order.
 *
 * A request takes the lowest free id of the id repository (`idrep`, one bit
 * per id) and appends a not-yet-valid entry to the entry queue (`vbits`, a
 * FIFO of valid bits whose slots index `storage`); `id2entry` remembers the
 * slot of each id.  A response for an id writes its data into that slot,
 * marks the slot valid and frees the id.  The head entry leaves once it is
 * valid.
 *
 * The abstract state `Rob` is the queue of entries in request order, each
 * waiting for the response to its id or holding the response, together with
 * the id repository.  `Consistent` is the invariant the operations keep.
 */
module ReorderBuf {
  import opened Wrappers
  import opened Bits
  import opened Fifo

  datatype Entry<T> = Waiting(id: nat) | Ready(data: T)

  datatype Rob<T> = Rob(entries: seq<Entry<T>>, idrep: seq<bool>)

  /** The lowest id whose repository bit is clear. */
  function LowestFree(rep: seq<bool>): (r: Option<nat>)
    ensures r.Some? ==> r.value < |rep| && !rep[r.value] && forall j :: 0 <= j < r.value ==> rep[j]
    ensures r.None? ==> forall j :: 0 <= j < |rep| ==> rep[j]
  {
    if |rep| == 0 then None
    else if !rep[0] then Some(0)
    else match LowestFree(rep[1..])
      case Some(j) => Some(j + 1)
      case None => None
  }

  /** The position of the entry waiting for id. */
  function WaitingIndex<T>(entries: seq<Entry<T>>, id: nat): (k: nat)
    requires Waiting(id) in entries
    ensures k < |entries| && entries[k] == Waiting(id)
  {
    if entries[0] == Waiting(id) then 0 else 1 + WaitingIndex(entries[1..], id)
  }

  /**
   * The invariant: the repository bit of an id is set exactly when some
   * entry waits for it, and no two entries wait for the same id.
   */
  ghost predicate Consistent<T>(s: Rob<T>, depth: nat, inFlight: nat) {
    |s.idrep| == inFlight && |s.entries| <= depth
    && (forall k :: 0 <= k < |s.entries| && s.entries[k].Waiting? ==>
          s.entries[k].id < inFlight && s.idrep[s.entries[k].id])
    && (forall i :: 0 <= i < inFlight && s.idrep[i] ==> Waiting(i) in s.entries)
    && (forall k, j :: 0 <= k < j < |s.entries| && s.entries[k].Waiting? && s.entries[j].Waiting? ==>
          s.entries[k].id != s.entries[j].id)
  }

  /** `canAcceptRequest`: a free id and room in the entry queue. */
  predicate CanAccept<T>(s: Rob<T>, depth: nat) {
    LowestFree(s.idrep).Some? && |s.entries| < depth
  }

  /** `addRequest`: the lowest free id becomes used and a waiting entry is appended. */
  function Request<T>(s: Rob<T>): (r: Rob<T>)
    requires LowestFree(s.idrep).Some?
  {
    var id := LowestFree(s.idrep).value;
    Rob(s.entries + [Waiting(id)], s.idrep[id := true])
  }

  /** `addResponse(id, data)`: the entry waiting for id holds data and id is freed. */
  function Respond<T>(s: Rob<T>, id: nat, data: T): (r: Rob<T>)
    requires id < |s.idrep| && Waiting(id) in s.entries
  {
    Rob(s.entries[WaitingIndex(s.entries, id) := Ready(data)], s.idrep[id := false])
  }

  /** `topResponseReady`. */
  predicate TopReady<T>(s: Rob<T>) {
    |s.entries| > 0 && s.entries[0].Ready?
  }

  /** `popResponse`: the head entry's data, and the state without it. */
  function Pop<T>(s: Rob<T>): (r: (T, Rob<T>))
    requires TopReady(s)
  {
    (s.entries[0].data, Rob(s.entries[1..], s.idrep))
  }

  /** `reset`: no entries, every id free. */
  function Empty<T>(inFlight: nat): Rob<T> {
    Rob([], Zeros(inFlight))
  }

  // ---------------------------------------------------------------------
  // Properties of the abstract buffer
  // ---------------------------------------------------------------------

  /** In a consistent state, at most one entry waits for a given id. */
  lemma WaitingUnique<T>(s: Rob<T>, depth: nat, inFlight: nat, id: nat, k: nat)
    requires Consistent(s, depth, inFlight) && k < |s.entries| && s.entries[k] == Waiting(id)
    ensures WaitingIndex(s.entries, id) == k
  {
    var w := WaitingIndex(s.entries, id);
    assert s.entries[w].id == s.entries[k].id;
  }

  lemma EmptyConsistent<T>(depth: nat, inFlight: nat)
    ensures Consistent(Empty<T>(inFlight), depth, inFlight)
  {
  }

  /** A request keeps the invariant; the id it takes was not outstanding. */
  lemma RequestConsistent<T>(s: Rob<T>, depth: nat, inFlight: nat)
    requires Consistent(s, depth, inFlight) && CanAccept(s, depth)
    ensures Waiting(LowestFree(s.idrep).value) !in s.entries
    ensures Consistent(Request(s), depth, inFlight)
  {
    var id := LowestFree(s.idrep).value;
    forall k | 0 <= k < |s.entries| ensures s.entries[k] != Waiting(id) {
      if s.entries[k].Waiting? {
        assert s.idrep[s.entries[k].id];
      }
    }
    var r := Request(s);
    forall i | 0 <= i < inFlight && r.idrep[i] ensures Waiting(i) in r.entries {
      if i != id {
        assert Waiting(i) in s.entries;
      } else {
        assert r.entries[|s.entries|] == Waiting(i);
      }
    }
    forall k, j | 0 <= k < j < |r.entries| && r.entries[k].Waiting? && r.entries[j].Waiting?
      ensures r.entries[k].id != r.entries[j].id
    {
      if j == |s.entries| {
        assert s.entries[k].Waiting? && s.idrep[s.entries[k].id];
      }
    }
  }

  /** A response for an outstanding id keeps the invariant. */
  lemma RespondConsistent<T>(s: Rob<T>, depth: nat, inFlight: nat, id: nat, data: T)
    requires Consistent(s, depth, inFlight) && id < inFlight && s.idrep[id]
    ensures Waiting(id) in s.entries
    ensures Consistent(Respond(s, id, data), depth, inFlight)
  {
    var w := WaitingIndex(s.entries, id);
    var r := Respond(s, id, data);
    forall k | 0 <= k < |r.entries| && r.entries[k].Waiting?
      ensures r.entries[k].id < inFlight && r.idrep[r.entries[k].id]
    {
      assert s.entries[k] == r.entries[k];
      assert s.entries[k].id != id by {
        assert s.entries[w] == Waiting(id) && k != w;
      }
    }
    forall i | 0 <= i < inFlight && r.idrep[i] ensures Waiting(i) in r.entries {
      var k := WaitingIndex(s.entries, i);
      assert r.entries[k] == Waiting(i);
    }
  }

  /** Releasing the head keeps the invariant. */
  lemma PopConsistent<T>(s: Rob<T>, depth: nat, inFlight: nat)
    requires Consistent(s, depth, inFlight) && TopReady(s)
    ensures Consistent(Pop(s).1, depth, inFlight)
  {
    var r := Pop(s).1;
    forall i | 0 <= i < inFlight && r.idrep[i] ensures Waiting(i) in r.entries {
      var k := WaitingIndex(s.entries, i);
      assert r.entries[k - 1] == Waiting(i);
    }
  }

  /**
   * Responses to different ids commute: the buffer's state, and so the
   * order in which it releases data, does not depend on the order in which
   * responses arrive.
   */
  lemma RespondCommutes<T>(s: Rob<T>, depth: nat, inFlight: nat, a: nat, x: T, b: nat, y: T)
    requires Consistent(s, depth, inFlight) && a < inFlight && b < inFlight && a != b
    requires s.idrep[a] && s.idrep[b]
    ensures Waiting(a) in s.entries && Waiting(b) in s.entries
    ensures Waiting(b) in Respond(s, a, x).entries && Waiting(a) in Respond(s, b, y).entries
    ensures Respond(Respond(s, a, x), b, y) == Respond(Respond(s, b, y), a, x)
  {
    var ka, kb := WaitingIndex(s.entries, a), WaitingIndex(s.entries, b);
    RespondConsistent(s, depth, inFlight, a, x);
    RespondConsistent(s, depth, inFlight, b, y);
    var sa, sb := Respond(s, a, x), Respond(s, b, y);
    assert sa.entries[kb] == Waiting(b);
    WaitingUnique(sa, depth, inFlight, b, kb);
    assert sb.entries[ka] == Waiting(a);
    WaitingUnique(sb, depth, inFlight, a, ka);
  }

  /** The popped data is the response to the oldest request. */
  lemma PopReleasesOldest<T>(s: Rob<T>, depth: nat, inFlight: nat, id: nat, data: T)
    requires Consistent(s, depth, inFlight) && id < inFlight && s.idrep[id]
    requires |s.entries| > 0 && s.entries[0] == Waiting(id)
    ensures Waiting(id) in s.entries
    ensures TopReady(Respond(s, id, data)) && Pop(Respond(s, id, data)).0 == data
  {
    WaitingUnique(s, depth, inFlight, id, 0);
  }

  /** The ids the waiting entries of a queue wait for. */
  function WaitingIds<T>(entries: seq<Entry<T>>): set<nat> {
    if |entries| == 0 then {}
    else
      var last := entries[|entries| - 1];
      WaitingIds(entries[..|entries| - 1]) + (if last.Waiting? then {last.id} else {})
  }

  function NumWaiting<T>(entries: seq<Entry<T>>): nat {
    if |entries| == 0 then 0
    else NumWaiting(entries[..|entries| - 1]) + (if entries[|entries| - 1].Waiting? then 1 else 0)
  }

  lemma {:induction false} WaitingIdsCount<T>(entries: seq<Entry<T>>, inFlight: nat)
    requires forall k :: 0 <= k < |entries| && entries[k].Waiting? ==> entries[k].id < inFlight
    requires forall k, j :: 0 <= k < j < |entries| && entries[k].Waiting? && entries[j].Waiting? ==>
      entries[k].id != entries[j].id
    ensures |WaitingIds(entries)| == NumWaiting(entries)
    ensures forall i :: i in WaitingIds(entries) ==> i < inFlight
    ensures forall i :: i in WaitingIds(entries) ==> Waiting(i) in entries
  {
    if |entries| > 0 {
      var n := |entries| - 1;
      var pre := entries[..n];
      WaitingIdsCount(pre, inFlight);
      if entries[n].Waiting? {
        forall k | 0 <= k < |pre| ensures pre[k] != Waiting(entries[n].id) {
          if pre[k].Waiting? {
            assert entries[k] == pre[k];
          }
        }
      }
    }
  }

  /** A set of naturals below n has at most n elements. */
  lemma {:induction false} BoundedSetSize(a: set<nat>, n: nat)
    requires forall x :: x in a ==> x < n
    ensures |a| <= n
  {
    if n > 0 {
      var rest := a - {n - 1};
      BoundedSetSize(rest, n - 1);
    } else {
      assert a == {};
    }
  }

  /** At most `InFlight` requests are outstanding and at most `Depth` entries are held. */
  lemma OutstandingBound<T>(s: Rob<T>, depth: nat, inFlight: nat)
    requires Consistent(s, depth, inFlight)
    ensures NumWaiting(s.entries) <= inFlight && |s.entries| <= depth
  {
    WaitingIdsCount(s.entries, inFlight);
    BoundedSetSize(WaitingIds(s.entries), inFlight);
  }

  // ---------------------------------------------------------------------
  // The queue slots
  // ---------------------------------------------------------------------

  /**
   * Entry k of the queue lives in slot `Slot(head, k)`: its valid bit in
   * `vb`, its data (once valid) in `st`, and the slot is what `ie` records
   * for the id it waits for.
   */
  ghost predicate Stored<T>(entries: seq<Entry<T>>, head: nat, depth: nat, vb: seq<bool>, st: seq<T>, ie: seq<nat>)
    requires depth > 0
  {
    |vb| == depth && |st| == depth
    && (forall k :: 0 <= k < |entries| ==> vb[Slot(head, k, depth)] == entries[k].Ready?)
    && (forall k :: 0 <= k < |entries| && entries[k].Ready? ==> st[Slot(head, k, depth)] == entries[k].data)
    && (forall k :: 0 <= k < |entries| && entries[k].Waiting? ==>
          entries[k].id < |ie| && ie[entries[k].id] == Slot(head, k, depth))
  }

  /** Appending a waiting entry: clear the tail slot's valid bit and record the slot for its id. */
  lemma StoredRequest<T>(entries: seq<Entry<T>>, head: nat, depth: nat, vb: seq<bool>, st: seq<T>, ie: seq<nat>, id: nat)
    requires head < depth && |entries| < depth && Stored(entries, head, depth, vb, st, ie)
    requires id < |ie| && Waiting(id) !in entries
    ensures var t := Slot(head, |entries|, depth);
      Stored(entries + [Waiting(id)], head, depth, vb[t := false], st, ie[id := t])
  {
    var t := Slot(head, |entries|, depth);
    forall k | 0 <= k < |entries| ensures Slot(head, k, depth) != t {
      SlotDistinct(head, k, |entries|, depth);
    }
    var e := entries + [Waiting(id)];
    forall k | 0 <= k < |e| && e[k].Waiting? ensures e[k].id < |ie| && ie[id := t][e[k].id] == Slot(head, k, depth) {
      if k < |entries| {
        assert e[k] == entries[k] && e[k] != Waiting(id);
      }
    }
  }

  /** Appending a valid entry: set the tail slot's valid bit and store its data. */
  lemma StoredBeat<T>(entries: seq<Entry<T>>, head: nat, depth: nat, vb: seq<bool>, st: seq<T>, ie: seq<nat>, data: T)
    requires head < depth && |entries| < depth && Stored(entries, head, depth, vb, st, ie)
    ensures var t := Slot(head, |entries|, depth);
      Stored(entries + [Ready(data)], head, depth, vb[t := true], st[t := data], ie)
  {
    var t := Slot(head, |entries|, depth);
    forall k | 0 <= k < |entries| ensures Slot(head, k, depth) != t {
      SlotDistinct(head, k, |entries|, depth);
    }
  }

  /** A response fills the slot of entry w. */
  lemma StoredRespond<T>(entries: seq<Entry<T>>, head: nat, depth: nat, vb: seq<bool>, st: seq<T>, ie: seq<nat>, w: nat, data: T)
    requires head < depth && |entries| <= depth && Stored(entries, head, depth, vb, st, ie)
    requires w < |entries|
    ensures var s := Slot(head, w, depth);
      Stored(entries[w := Ready(data)], head, depth, vb[s := true], st[s := data], ie)
  {
    var s := Slot(head, w, depth);
    forall k | 0 <= k < |entries| && k != w ensures Slot(head, k, depth) != s {
      if k < w { SlotDistinct(head, k, w, depth); } else { SlotDistinct(head, w, k, depth); }
    }
  }

  /** Releasing the head entry moves the head on by one slot. */
  lemma StoredPop<T>(entries: seq<Entry<T>>, head: nat, depth: nat, vb: seq<bool>, st: seq<T>, ie: seq<nat>)
    requires head < depth && 0 < |entries| <= depth && Stored(entries, head, depth, vb, st, ie)
    ensures Stored(entries[1..], ModIncr(head, depth), depth, vb, st, ie)
  {
    forall k | 0 <= k < |entries| - 1 ensures Slot(ModIncr(head, depth), k, depth) == Slot(head, k + 1, depth) {
      SlotShift(head, k, depth);
    }
  }

  /**
   * The whole invariant of the buffer over its pointers, abstract state and
   * memory contents: `head`/`tail`/`lastPush` are the entry queue's FIFO
   * pointers, `vb`, `st` and `ie` the contents of `vbits`, `storage` and
   * `id2entry`.
   */
  ghost predicate Inv<T>(depth: nat, inFlight: nat, head: nat, tail: nat, lastPush: bool, s: Rob<T>,
                         vb: seq<bool>, st: seq<T>, ie: seq<nat>) {
    2 <= depth && 1 <= inFlight && |ie| == inFlight
    && head < depth && |s.entries| <= depth && tail == Slot(head, |s.entries|, depth)
    && (lastPush ==> |s.entries| > 0) && (!lastPush ==> |s.entries| < depth)
    && Consistent(s, depth, inFlight)
    && Stored(s.entries, head, depth, vb, st, ie)
  }

  lemma InvEmpty<T>(depth: nat, inFlight: nat, vb: seq<bool>, st: seq<T>, ie: seq<nat>)
    requires 2 <= depth && 1 <= inFlight && |vb| == depth && |st| == depth && |ie| == inFlight
    ensures Inv(depth, inFlight, 0, 0, false, Empty<T>(inFlight), vb, st, ie)
  {
    EmptyConsistent<T>(depth, inFlight);
  }

  /** The queue is full exactly when head meets tail after a push, empty when it meets it after a pop. */
  lemma InvPointers<T>(depth: nat, inFlight: nat, head: nat, tail: nat, lastPush: bool, s: Rob<T>,
                       vb: seq<bool>, st: seq<T>, ie: seq<nat>)
    requires Inv(depth, inFlight, head, tail, lastPush, s, vb, st, ie)
    ensures (head == tail && lastPush) <==> |s.entries| == depth
    ensures (head == tail && !lastPush) <==> |s.entries| == 0
    ensures |s.entries| > 0 ==> vb[head] == s.entries[0].Ready?
    ensures TopReady(s) ==> st[head] == s.entries[0].data
  {
    ModSmall(head, |s.entries|, depth);
    ModSmall(head, 0, depth);
  }

  /**
   * `addRequest` on the concrete state performs `Request` on the abstract
   * one: the id's slot is recorded in `id2entry`, the tail slot's valid bit
   * cleared and the tail advanced.
   */
  lemma InvRequest<T>(depth: nat, inFlight: nat, head: nat, tail: nat, lastPush: bool, s: Rob<T>,
                      vb: seq<bool>, st: seq<T>, ie: seq<nat>,
                      tail': nat, s': Rob<T>, vb': seq<bool>, ie': seq<nat>)
    requires Inv(depth, inFlight, head, tail, lastPush, s, vb, st, ie) && CanAccept(s, depth)
    requires tail' == ModIncr(tail, depth) && s' == Request(s)
    requires vb' == vb[tail := false] && ie' == ie[LowestFree(s.idrep).value := tail]
    ensures Inv(depth, inFlight, head, tail', true, s', vb', st, ie')
  {
    var id := LowestFree(s.idrep).value;
    RequestConsistent(s, depth, inFlight);
    StoredRequest(s.entries, head, depth, vb, st, ie, id);
    ModSplit(head + |s.entries|, 1, depth);
  }

  /**
   * `addResponse` on the concrete state performs `Respond` on the abstract
   * one: the slot recorded for the id gets the data and its valid bit.
   */
  lemma InvRespond<T>(depth: nat, inFlight: nat, head: nat, tail: nat, lastPush: bool, s: Rob<T>,
                      vb: seq<bool>, st: seq<T>, ie: seq<nat>, id: nat, data: T,
                      s': Rob<T>, vb': seq<bool>, st': seq<T>)
    requires Inv(depth, inFlight, head, tail, lastPush, s, vb, st, ie) && id < inFlight && s.idrep[id]
    requires Waiting(id) in s.entries && ie[id] < depth
    requires s' == Respond(s, id, data) && vb' == vb[ie[id] := true] && st' == st[ie[id] := data]
    ensures Inv(depth, inFlight, head, tail, lastPush, s', vb', st', ie)
  {
    RespondConsistent(s, depth, inFlight, id, data);
    var w := WaitingIndex(s.entries, id);
    StoredRespond(s.entries, head, depth, vb, st, ie, w, data);
  }

  /** The slot of an outstanding id lies in the queue. */
  lemma InvOutstanding<T>(depth: nat, inFlight: nat, head: nat, tail: nat, lastPush: bool, s: Rob<T>,
                          vb: seq<bool>, st: seq<T>, ie: seq<nat>, id: nat)
    requires Inv(depth, inFlight, head, tail, lastPush, s, vb, st, ie) && id < inFlight && s.idrep[id]
    ensures Waiting(id) in s.entries && ie[id] < depth
  {
    var w := WaitingIndex(s.entries, id);
  }

  /** `popResponse` on the concrete state performs `Pop` on the abstract one. */
  lemma InvPop<T>(depth: nat, inFlight: nat, head: nat, tail: nat, lastPush: bool, s: Rob<T>,
                  vb: seq<bool>, st: seq<T>, ie: seq<nat>, head': nat, s': Rob<T>)
    requires Inv(depth, inFlight, head, tail, lastPush, s, vb, st, ie) && TopReady(s)
    requires head' == ModIncr(head, depth) && s' == Pop(s).1
    ensures Inv(depth, inFlight, head', tail, false, s', vb, st, ie)
  {
    PopConsistent(s, depth, inFlight);
    StoredPop(s.entries, head, depth, vb, st, ie);
    SlotShift(head, |s.entries| - 1, depth);
  }

  // ---------------------------------------------------------------------
  // ReorderBuf<Data, Depth, InFlight>
  // ---------------------------------------------------------------------

  class ReorderBuf<T> {
    const depth: nat
    const inFlight: nat
    /** `storage`: the data of each queue slot. */
    const storage: array<T>
    /** The `vbits` FIFO: its slots, head and tail pointers and last-action flag. */
    const vbits: array<bool>
    var head: nat
    var tail: nat
    var lastPush: bool
    /** `idrep`: bit i set while id i is outstanding. */
    var idrep: seq<bool>
    /** `id2entry`: the queue slot of each outstanding id. */
    const id2entry: array<nat>

    ghost var entries: seq<Entry<T>>

    ghost function Abs(): Rob<T>
      reads this
    {
      Rob(entries, idrep)
    }

    ghost predicate Valid()
      reads this, storage, vbits, id2entry
    {
      storage.Length == depth && vbits.Length == depth && id2entry.Length == inFlight
      && storage as object != vbits && storage as object != id2entry
      && Inv(depth, inFlight, head, tail, lastPush, Abs(), vbits[..], storage[..], id2entry[..])
    }

    /** ReorderBuf(): no entries, every id free; `init` fills the storage. */
    constructor (depth: nat, inFlight: nat, init: T)
      requires 2 <= depth && 1 <= inFlight
      ensures Valid() && this.depth == depth && this.inFlight == inFlight
      ensures Abs() == Empty(inFlight)
      ensures fresh(storage) && fresh(vbits) && fresh(id2entry)
    {
      this.depth := depth;
      this.inFlight := inFlight;
      storage := new T[depth](i => init);
      vbits := new bool[depth](i => false);
      id2entry := new nat[inFlight](i => 0);
      head, tail, lastPush := 0, 0, false;
      idrep := Zeros(inFlight);
      entries := [];
      new;
      InvEmpty<T>(depth, inFlight, vbits[..], storage[..], id2entry[..]);
    }

    /**
     * `get_next_avail_id`: scan the repository from id 0 and take the first
     * free id.  Returns whether one was found, the id, and the new repository.
     */
    static method GetNextAvailId(rep: seq<bool>) returns (success: bool, id: nat, rep': seq<bool>)
      ensures success <==> LowestFree(rep).Some?
      ensures success ==> id == LowestFree(rep).value && rep' == rep[id := true]
      ensures !success ==> rep' == rep
    {
      rep' := rep;
      id := 0;
      var i := 0;
      while i < |rep|
        invariant 0 <= i <= |rep|
        invariant forall j :: 0 <= j < i ==> rep[j]
      {
        if !rep[i] {
          id := i;
          rep' := rep[i := true];
          return true, id, rep';
        }
        i := i + 1;
      }
      return false, id, rep';
    }

    /** `canAcceptRequest()`: some id is free and the entry queue is not full. */
    function CanAcceptRequest(): (r: bool)
      requires Valid()
      reads this, storage, vbits, id2entry
      ensures r <==> (exists i :: 0 <= i < inFlight && !idrep[i]) && |entries| < depth
      ensures r <==> CanAccept(Abs(), depth)
    {
      InvPointers(depth, inFlight, head, tail, lastPush, Abs(), vbits[..], storage[..], id2entry[..]);
      assert idrep == Ones(inFlight) <==> LowestFree(idrep).None?;
      idrep != Ones(inFlight) && !(head == tail && lastPush)
    }

    /** `isEmpty()`. */
    function IsEmpty(): (r: bool)
      requires Valid()
      reads this, storage, vbits, id2entry
      ensures r <==> |entries| == 0
    {
      InvPointers(depth, inFlight, head, tail, lastPush, Abs(), vbits[..], storage[..], id2entry[..]);
      head == tail && !lastPush
    }

    /** `topResponseReady()`: false when empty, else the head entry's valid bit. */
    function TopResponseReady(): (r: bool)
      requires Valid()
      reads this, storage, vbits, id2entry
      ensures r <==> TopReady(Abs())
    {
      InvPointers(depth, inFlight, head, tail, lastPush, Abs(), vbits[..], storage[..], id2entry[..]);
      if IsEmpty() then false else vbits[head]
    }

    /** `addRequest()`: returns the lowest free id and appends a waiting entry for it. */
    method AddRequest() returns (id: nat)
      requires Valid() && CanAcceptRequest()
      modifies this, vbits, id2entry
      ensures Valid()
      ensures id == LowestFree(old(idrep)).value
      ensures Abs() == Request(old(Abs()))
    {
      ghost var s0, vb0, st0, ie0, h0, t0, lp0 := Abs(), vbits[..], storage[..], id2entry[..], head, tail, lastPush;
      assert Inv(depth, inFlight, h0, t0, lp0, s0, vb0, st0, ie0);
      var success, i, rep := GetNextAvailId(idrep);
      id := i;
      idrep := rep;
      id2entry[id] := tail;
      // vbits.push(false)
      vbits[tail] := false;
      tail := ModIncr(tail, depth);
      lastPush := true;
      entries := entries + [Waiting(id)];
      assert storage[..] == st0;
      InvRequest(depth, inFlight, h0, t0, lp0, s0, vb0, st0, ie0, tail, Abs(), vbits[..], id2entry[..]);
    }

    /** `addResponse(id, data)`: requires id to be outstanding. */
    method AddResponse(id: nat, data: T)
      requires Valid() && id < inFlight && idrep[id]
      modifies this, storage, vbits
      ensures Valid()
      ensures Waiting(id) in old(entries)
      ensures Abs() == Respond(old(Abs()), id, data)
    {
      ghost var s0, vb0, st0, ie0, h0, t0, lp0 := Abs(), vbits[..], storage[..], id2entry[..], head, tail, lastPush;
      assert Inv(depth, inFlight, h0, t0, lp0, s0, vb0, st0, ie0);
      InvOutstanding(depth, inFlight, h0, t0, lp0, s0, vb0, st0, ie0, id);
      var entryNum := id2entry[id];
      storage[entryNum] := data;
      vbits[entryNum] := true;
      idrep := idrep[id := false];
      entries := Respond(s0, id, data).entries;
      assert id2entry[..] == ie0;
      InvRespond(depth, inFlight, h0, t0, lp0, s0, vb0, st0, ie0, id, data, Abs(), vbits[..], storage[..]);
    }

    /** `popResponse()`: requires the head entry to be valid; returns its data and removes it. */
    method PopResponse() returns (result: T)
      requires Valid() && TopResponseReady()
      modifies this
      ensures Valid()
      ensures TopReady(old(Abs())) && (result, Abs()) == Pop(old(Abs()))
    {
      InvPointers(depth, inFlight, head, tail, lastPush, Abs(), vbits[..], storage[..], id2entry[..]);
      ghost var s0 := Abs();
      result := storage[head];
      // vbits.incrHead()
      head := ModIncr(head, depth);
      lastPush := false;
      entries := entries[1..];
      InvPop(depth, inFlight, old(head), tail, old(lastPush), s0, vbits[..], storage[..], id2entry[..], head, Abs());
    }

    /** `reset()`: the entry queue is emptied and every id freed. */
    method Reset()
      requires Valid()
      modifies this
      ensures Valid()
      ensures Abs() == Empty(inFlight)
    {
      head, tail, lastPush := 0, 0, false;
      idrep := Zeros(inFlight);
      entries := [];
      InvEmpty<T>(depth, inFlight, vbits[..], storage[..], id2entry[..]);
    }
  }
}
