/**
 * The cache of one memory space of one remote node: a fixed, sorted set of
 * disjoint slots, each with a byte buffer that is allocated when its load
 * starts; a loader that fills the slots one bounded chunk at a time, one
 * request outstanding; whole-window reads; write-through writes; and the
 * data listeners told about loaded chunks and local writes.
 */
module SpaceCache {
  import opened Ranges
  import opened Listeners

  /** A Java byte. */
  newtype byte = b: int | -128 <= b < 128

  /** Most bytes the loader asks for in one read request. */
  const MaxChunk: nat := 64

  /** A request handed to the memory configuration transport. */
  datatype Request = ReadRequest(address: int, count: nat) | WriteRequest(address: int, data: seq<byte>)

  /** The outstanding read: where it starts and how many bytes it asked for. */
  datatype ReadMemo = ReadMemo(address: int, count: nat)

  /** The conditions the source reports by throwing. */
  datatype CacheError =
    | AlreadyFilled   // fillCache on a cache that already has slots
    | SpuriousReply   // reply address is not the loader's cursor
    | ReplyOverflow   // reply bytes would run past the slot buffer

  datatype Outcome = Pass | Fail(error: CacheError)

  /** Size of the read request issued at `cursor` inside `slot`. */
  function ChunkSize(slot: Range, cursor: int): (r: nat)
    requires cursor < slot.end
    ensures 0 < r <= MaxChunk
    ensures cursor + r <= slot.end
    ensures r == MaxChunk || cursor + r == slot.end
  {
    if slot.end - cursor > MaxChunk then MaxChunk else slot.end - cursor
  }

  /**
   * The chunk boundaries of loading `slot` from `cursor` on when every reply
   * is full: each request asks for `ChunkSize` bytes at the previous boundary.
   */
  function ChunkBounds(slot: Range, cursor: int): (r: seq<int>)
    requires cursor <= slot.end
    decreases slot.end - cursor
    ensures |r| > 0 && r[0] == cursor && r[|r| - 1] == slot.end
    ensures Ascending(r)
  {
    if cursor == slot.end then [cursor]
    else [cursor] + ChunkBounds(slot, cursor + ChunkSize(slot, cursor))
  }

  /**
   * Loading a slot with full replies tells the listeners of a non-empty range
   * that ends inside the slot exactly once, and those of a range that ends
   * elsewhere never.
   */
  lemma SlotLoadTellsOnce(slot: Range, key: Range)
    requires slot.start <= slot.end && key.start < key.end
    ensures ChunkHits(key, ChunkBounds(slot, slot.start)) == if slot.start < key.end <= slot.end then 1 else 0
  {
    LoadTellsOnce(key, ChunkBounds(slot, slot.start));
  }

  /** A 150-byte slot is requested as chunks of 64, 64 and 22 bytes. */
  lemma ChunksOfSlot150()
    ensures ChunkBounds(Range(0, 150), 0) == [0, 64, 128, 150]
  {
    assert ChunkBounds(Range(0, 150), 128) == [128, 150];
    assert ChunkBounds(Range(0, 150), 64) == [64, 128, 150];
  }

  /** A freshly allocated Java byte buffer. */
  function Zeros(n: nat): (r: seq<byte>)
    ensures |r| == n && forall i :: 0 <= i < n ==> r[i] == 0
  {
    seq(n, _ => 0)
  }

  /** `buf` with `data` copied over it from position `at` on. */
  function Splice(buf: seq<byte>, at: nat, data: seq<byte>): (r: seq<byte>)
    requires at + |data| <= |buf|
    ensures |r| == |buf|
    ensures r[at..at + |data|] == data
    ensures forall i :: 0 <= i < |buf| && !(at <= i < at + |data|) ==> r[i] == buf[i]
  {
    buf[..at] + data + buf[at + |data|..]
  }

  /** Which slots have a buffer. */
  function Ready(buffers: seq<Option<seq<byte>>>): (r: seq<bool>)
    ensures |r| == |buffers| && forall i :: 0 <= i < |buffers| ==> (r[i] <==> buffers[i].Some?)
  {
    seq(|buffers|, i requires 0 <= i < |buffers| => buffers[i].Some?)
  }

  /** One buffer position per slot; a buffer is exactly as long as its slot. */
  ghost predicate BuffersFit(slots: seq<Range>, buffers: seq<Option<seq<byte>>>)
  {
    && |buffers| == |slots|
    && forall i :: 0 <= i < |slots| && buffers[i].Some? ==> |buffers[i].value| == slots[i].end - slots[i].start
  }

  /** Exactly the first `n` slots have buffers. */
  ghost predicate LoadedPrefix(slots: seq<Range>, buffers: seq<Option<seq<byte>>>, n: nat)
  {
    n <= |slots| && |buffers| == |slots| && forall i :: 0 <= i < |slots| ==> (buffers[i].Some? <==> i < n)
  }

  /** The loader waits for the reply to a read at `cursor` in slot `k`. */
  ghost predicate WaitingAt(slots: seq<Range>, buffers: seq<Option<seq<byte>>>, cursor: int, pending: Option<ReadMemo>, k: nat)
  {
    && k < |slots| && LoadedPrefix(slots, buffers, k + 1)
    && slots[k].start <= cursor < slots[k].end
    && pending == Some(ReadMemo(cursor, ChunkSize(slots[k], cursor)))
  }

  /** The loader between two steps: not started, waiting for a reply, or done. */
  ghost predicate AtRest(slots: seq<Range>, buffers: seq<Option<seq<byte>>>, next: Option<nat>, cursor: int, pending: Option<ReadMemo>)
  {
    if slots == [] then next.None? && pending.None?
    else match next
      case None => LoadedPrefix(slots, buffers, |slots|) && pending.None?
      case Some(k) => WaitingAt(slots, buffers, cursor, pending, k)
  }

  /** The cache invariant over the values of its fields. */
  ghost predicate CacheInv(slots: seq<Range>, buffers: seq<Option<seq<byte>>>, listeners: seq<Entry>,
                           next: Option<nat>, cursor: int, pending: Option<ReadMemo>)
  {
    && WellFormedSlots(slots)
    && ValidRegistry(listeners)
    && BuffersFit(slots, buffers)
    && AtRest(slots, buffers, next, cursor, pending)
  }

  /** The bytes `[offset, offset + len)`, when one slot with a buffer covers all of them. */
  function ReadFrom(slots: seq<Range>, buffers: seq<Option<seq<byte>>>, offset: int, len: nat): (r: Option<seq<byte>>)
    requires WellFormedSlots(slots) && BuffersFit(slots, buffers)
    ensures r.Some? <==> SlotFor(slots, Ready(buffers), offset, len).Some?
    ensures r.Some? ==> |r.value| == len
    ensures r.Some? ==>
      var i := SlotFor(slots, Ready(buffers), offset, len).value;
      forall j :: 0 <= j < len ==> r.value[j] == buffers[i].value[offset - slots[i].start + j]
  {
    match SlotFor(slots, Ready(buffers), offset, len)
    case None => None
    case Some(i) =>
      var at := offset - slots[i].start;
      Some(buffers[i].value[at..at + len])
  }

  /** The buffers after `data` is copied in at `offset`: only a covering slot with a buffer takes it. */
  function WriteInto(slots: seq<Range>, buffers: seq<Option<seq<byte>>>, offset: int, data: seq<byte>): (r: seq<Option<seq<byte>>>)
    requires WellFormedSlots(slots) && BuffersFit(slots, buffers)
    ensures BuffersFit(slots, r) && Ready(r) == Ready(buffers)
    ensures SlotFor(slots, Ready(buffers), offset, |data|).None? ==> r == buffers
    ensures SlotFor(slots, Ready(buffers), offset, |data|).Some? ==>
      var i := SlotFor(slots, Ready(buffers), offset, |data|).value;
      && (forall j :: 0 <= j < |r| && j != i ==> r[j] == buffers[j])
      && (forall b :: 0 <= b < |data| ==> r[i].value[offset - slots[i].start + b] == data[b])
      && (forall b :: 0 <= b < |buffers[i].value| && !(offset - slots[i].start <= b < offset - slots[i].start + |data|) ==>
            r[i].value[b] == buffers[i].value[b])
  {
    match SlotFor(slots, Ready(buffers), offset, |data|)
    case None => buffers
    case Some(i) => buffers[i := Some(Splice(buffers[i].value, offset - slots[i].start, data))]
  }

  /** Reading back the window just written yields the written bytes. */
  lemma ReadAfterWrite(slots: seq<Range>, buffers: seq<Option<seq<byte>>>, offset: int, data: seq<byte>)
    requires WellFormedSlots(slots) && BuffersFit(slots, buffers)
    requires SlotFor(slots, Ready(buffers), offset, |data|).Some?
    ensures ReadFrom(slots, WriteInto(slots, buffers, offset, data), offset, |data|) == Some(data)
  {
    var i := SlotFor(slots, Ready(buffers), offset, |data|).value;
    var at := offset - slots[i].start;
    assert Splice(buffers[i].value, at, data)[at..at + |data|] == data;
  }

  /** A write leaves every byte outside the written window as it was. */
  lemma WriteKeepsOtherBytes(slots: seq<Range>, buffers: seq<Option<seq<byte>>>, offset: int, data: seq<byte>,
                             other: int, len: nat)
    requires WellFormedSlots(slots) && BuffersFit(slots, buffers)
    requires other + len <= offset || offset + |data| <= other
    ensures ReadFrom(slots, WriteInto(slots, buffers, offset, data), other, len) == ReadFrom(slots, buffers, other, len)
  {
    var w := WriteInto(slots, buffers, offset, data);
    match SlotFor(slots, Ready(buffers), offset, |data|)
    case None =>
    case Some(i) =>
      match SlotFor(slots, Ready(buffers), other, len)
      case None =>
      case Some(j) =>
        if i == j {
          var at := offset - slots[i].start;
          var at2 := other - slots[i].start;
          assert w[i].value[at2..at2 + len] == buffers[i].value[at2..at2 + len];
        }
  }

  class MemorySpaceCache {
    /** The keys of the slot map, ascending. */
    var slots: seq<Range>
    /** The values of the slot map: no buffer until the slot's load starts, then the slot's bytes. */
    var buffers: seq<Option<seq<byte>>>
    /** The data listeners, by key in ascending key order. */
    var listeners: seq<Entry>
    /** Loader: the slot being loaded (position in `slots`), or none. */
    var nextRangeToLoad: Option<nat>
    /** Loader: address of the next byte to request; -1 before the slot's buffer exists. */
    var currentRangeNextOffset: int
    /** The read request whose reply the loader waits for. */
    var pending: Option<ReadMemo>

    /** Events delivered to observers, oldest first. */
    ghost var events: seq<Event>
    /** Requests handed to the transport, oldest first. */
    ghost var requests: seq<Request>

    // The predicates below apply the value-level predicates of this module to
    // the fields, each reading only the fields it needs; the functions and
    // lemmas on buffers outside the class use the value-level forms.

    /** One buffer position per slot; a buffer is exactly as long as its slot. */
    ghost predicate BuffersValid()
      reads this`slots, this`buffers
    {
      BuffersFit(slots, buffers)
    }

    /** Exactly the first `n` slots have buffers. */
    ghost predicate Loaded(n: nat)
      reads this`slots, this`buffers
    {
      LoadedPrefix(slots, buffers, n)
    }

    /** The loader is waiting for the reply to a read at `currentRangeNextOffset` in slot `k`. */
    ghost predicate Waiting(k: nat)
      reads this`slots, this`buffers, this`currentRangeNextOffset, this`pending
    {
      WaitingAt(slots, buffers, currentRangeNextOffset, pending, k)
    }

    /** Every slot loaded and the completion event sent. */
    ghost predicate Done()
      reads this`slots, this`nextRangeToLoad
    {
      slots != [] && nextRangeToLoad.None?
    }

    /** The invariant on everything but the logs. */
    ghost predicate Inv()
      reads this`slots, this`buffers, this`listeners, this`currentRangeNextOffset, this`pending, this`nextRangeToLoad
    {
      CacheInv(slots, buffers, listeners, nextRangeToLoad, currentRangeNextOffset, pending)
    }

    /** The object invariant: `Inv`, and "loading complete" sent once exactly when loading is done. */
    ghost predicate Valid()
      reads this
    {
      && Inv()
      && Completions(events) == (if Done() then 1 else 0)
    }

    /** The loader has just started slot `j`: zeroed buffer, cursor at its start, first chunk requested. */
    ghost predicate StartedSlot(j: nat, before: seq<Option<seq<byte>>>)
      reads this
    {
      && j < |slots| && j < |before| && slots[j].start < slots[j].end
      && nextRangeToLoad == Some(j)
      && buffers == before[j := Some(Zeros(slots[j].end - slots[j].start))]
      && currentRangeNextOffset == slots[j].start
      && pending == Some(ReadMemo(slots[j].start, ChunkSize(slots[j], slots[j].start)))
    }

    /**
     * The loader has moved on from slot `k` with its cursor at `next`, the
     * buffers at `filled`, the events at `told` and the requests at `asked`:
     * it asked for the chunk at `next`, started slot `k + 1`, or announced
     * that loading is complete.
     */
    ghost predicate MovedOn(k: nat, next: int, filled: seq<Option<seq<byte>>>, told: seq<Event>, asked: seq<Request>)
      reads this
    {
      && k < |slots|
      && (next < slots[k].end ==>
            && nextRangeToLoad == Some(k) && currentRangeNextOffset == next && buffers == filled
            && pending == Some(ReadMemo(next, ChunkSize(slots[k], next)))
            && events == told
            && requests == asked + [ReadRequest(next, ChunkSize(slots[k], next))])
      && (next >= slots[k].end && k + 1 < |slots| ==>
            && StartedSlot(k + 1, filled)
            && events == told
            && requests == asked + [ReadRequest(slots[k + 1].start, ChunkSize(slots[k + 1], slots[k + 1].start))])
      && (next >= slots[k].end && k + 1 == |slots| ==>
            && nextRangeToLoad.None? && pending.None? && buffers == filled
            && events == told + [LoadingComplete]
            && requests == asked)
    }

    constructor ()
      ensures Valid()
      ensures slots == [] && listeners == [] && events == [] && requests == []
    {
      slots, buffers, listeners := [], [], [];
      nextRangeToLoad, currentRangeNextOffset, pending := None, 0, None;
      events, requests := [], [];
    }

    /** Registers listener `id` on exactly the range `[start, end)`. */
    method AddRangeListener(start: int, end: int, id: ListenerId)
      requires Valid()
      modifies this`listeners
      ensures Valid()
      ensures listeners == Register(old(listeners), Range(start, end), id)
      ensures Lookup(listeners, Range(start, end)) == Lookup(old(listeners), Range(start, end)) + [id]
    {
      RegisterLookup(listeners, Range(start, end), id, Range(start, end));
      listeners := Register(listeners, Range(start, end), id);
    }

    /** Tells every listener in `ids`, in order, that its data changed. */
    method TellAll(ids: seq<ListenerId>)
      modifies this`events
      ensures events == old(events) + Updates(ids)
    {
      var j := 0;
      while j < |ids|
        invariant 0 <= j <= |ids|
        invariant events == old(events) + Updates(ids[..j])
      {
        assert Updates(ids[..j + 1]) == Updates(ids[..j]) + [UpdateData(ids[j])];
        events := events + [UpdateData(ids[j])];
        j := j + 1;
      }
      assert ids[..j] == ids;
    }

    /** Tells the listeners selected by `rule` that `[start, end)` changed, key by key in order. */
    method Notify(rule: Rule, start: int, end: int)
      modifies this`events
      ensures events == old(events) + Fired(listeners, rule, start, end)
      ensures Completions(events) == Completions(old(events))
    {
      var i := 0;
      while i < |listeners|
        invariant 0 <= i <= |listeners|
        invariant events == old(events) + FiredUpTo(listeners, rule, start, end, i)
      {
        var e := listeners[i];
        if Triggers(rule, e.key, start, end) {
          TellAll(e.ids);
        }
        assert FiredUpTo(listeners, rule, start, end, i + 1)
            == FiredUpTo(listeners, rule, start, end, i) + Told(rule, e, start, end);
        EventsAssoc(old(events), FiredUpTo(listeners, rule, start, end, i), Told(rule, e, start, end));
        i := i + 1;
      }
      FiredHasNoCompletion(listeners, rule, start, end);
      CompletionsConcat(old(events), Fired(listeners, rule, start, end));
    }

    /**
     * Fixes the slot set to `declared` (the coalesced ranges, ascending) and
     * starts loading the first slot; fails if slots were already fixed.
     */
    method FillCache(declared: seq<Range>) returns (r: Outcome)
      requires Valid() && WellFormedSlots(declared)
      modifies this
      ensures Valid()
      ensures listeners == old(listeners)
      ensures old(slots) != [] ==> r == Fail(AlreadyFilled) && unchanged(this)
      ensures old(slots) == [] && declared == [] ==> r == Pass && unchanged(this)
      ensures old(slots) == [] && declared != [] ==>
        && r == Pass && slots == declared
        && StartedSlot(0, seq(|declared|, _ => None))
        && events == old(events)
        && requests == old(requests) + [ReadRequest(declared[0].start, ChunkSize(declared[0], declared[0].start))]
    {
      if slots != [] {
        return Fail(AlreadyFilled);
      }
      if declared == [] {
        return Pass;
      }
      slots := declared;
      buffers := seq(|declared|, _ => None);
      ContinueLoading(0);
      r := Pass;
    }

    /**
     * Scans forward from the slot being loaded (the first slot when none is)
     * to the first slot without a buffer; None when there is none left.
     */
    method FirstUnloaded(ghost n: nat) returns (next: Option<nat>)
      requires slots != [] && Loaded(n)
      requires match nextRangeToLoad
        case None => n == 0
        case Some(k) => k < |slots| && n == k + 1
      ensures next == (if n < |slots| then Some(n) else None)
    {
      next := if nextRangeToLoad.None? then Some(0) else nextRangeToLoad;
      while next.Some? && buffers[next.value].Some?
        invariant next.Some? ==> next.value <= n && next.value < |slots|
        invariant next.None? ==> n == |slots|
        decreases if next.Some? then |slots| - next.value else 0
      {
        next := if next.value + 1 < |slots| then Some(next.value + 1) else None;
      }
    }

    /**
     * Skips to the first slot without a buffer and starts loading it, or, when
     * every slot has one, sends "loading complete".
     */
    method ContinueLoading(ghost n: nat)
      requires WellFormedSlots(slots) && ValidRegistry(listeners) && BuffersValid()
      requires slots != [] && Loaded(n) && Completions(events) == 0
      requires match nextRangeToLoad
        case None => n == 0
        case Some(k) => k < |slots| && n == k + 1
      modifies this
      decreases |slots| - n, 2
      ensures Valid()
      ensures slots == old(slots) && listeners == old(listeners)
      ensures n < |slots| ==>
        && StartedSlot(n, old(buffers))
        && events == old(events)
        && requests == old(requests) + [ReadRequest(slots[n].start, ChunkSize(slots[n], slots[n].start))]
      ensures n == |slots| ==>
        && nextRangeToLoad.None? && pending.None? && buffers == old(buffers)
        && events == old(events) + [LoadingComplete]
        && requests == old(requests)
    {
      var next := FirstUnloaded(n);
      nextRangeToLoad := next;
      if nextRangeToLoad.None? {
        AnnounceComplete();
        return;
      }
      currentRangeNextOffset := -1;
      LoadRange(n);
    }

    /** Every slot has its buffer: drops the outstanding read and sends "loading complete". */
    method AnnounceComplete()
      requires WellFormedSlots(slots) && ValidRegistry(listeners) && BuffersValid()
      requires slots != [] && Loaded(|slots|) && nextRangeToLoad.None? && Completions(events) == 0
      modifies this`pending, this`events
      ensures Valid() && pending.None? && events == old(events) + [LoadingComplete]
    {
      assert CompletionsUpTo([LoadingComplete], 1) == 1;
      CompletionsConcat(events, [LoadingComplete]);
      pending := None;
      events := events + [LoadingComplete];
    }

    /** Gives slot `nextRangeToLoad` its zeroed buffer and puts the cursor at its start. */
    method AllocateCurrent()
      requires WellFormedSlots(slots) && BuffersValid()
      requires nextRangeToLoad.Some? && Loaded(nextRangeToLoad.value)
      requires nextRangeToLoad.value < |slots|
      modifies this`currentRangeNextOffset, this`buffers
      ensures var k := nextRangeToLoad.value;
        && BuffersValid() && Loaded(k + 1)
        && buffers == old(buffers)[k := Some(Zeros(slots[k].end - slots[k].start))]
        && currentRangeNextOffset == slots[k].start
    {
      var k := nextRangeToLoad.value;
      currentRangeNextOffset := slots[k].start;
      buffers := buffers[k := Some(Zeros(slots[k].end - slots[k].start))];
    }

    /** Asks the transport for the chunk at the cursor of slot `nextRangeToLoad`. */
    method RequestChunk()
      requires WellFormedSlots(slots) && ValidRegistry(listeners) && BuffersValid()
      requires Completions(events) == 0
      requires nextRangeToLoad.Some? && Loaded(nextRangeToLoad.value + 1)
      requires slots[nextRangeToLoad.value].start <= currentRangeNextOffset < slots[nextRangeToLoad.value].end
      modifies this`pending, this`requests
      ensures Valid()
      ensures var k := nextRangeToLoad.value;
        && pending == Some(ReadMemo(currentRangeNextOffset, ChunkSize(slots[k], currentRangeNextOffset)))
        && requests == old(requests) + [ReadRequest(currentRangeNextOffset, ChunkSize(slots[k], currentRangeNextOffset))]
    {
      var k := nextRangeToLoad.value;
      var count := slots[k].end - currentRangeNextOffset;
      if count > MaxChunk {
        count := MaxChunk;
      }
      pending := Some(ReadMemo(currentRangeNextOffset, count));
      requests := requests + [ReadRequest(currentRangeNextOffset, count)];
      assert Waiting(k);
    }

    /**
     * Loads the slot `nextRangeToLoad`: allocates its buffer on the first call,
     * then requests the next chunk, or moves on when the slot is finished.
     */
    method LoadRange(ghost n: nat)
      requires WellFormedSlots(slots) && ValidRegistry(listeners) && BuffersValid()
      requires Completions(events) == 0
      requires nextRangeToLoad.Some? && nextRangeToLoad.value < |slots|
      requires currentRangeNextOffset < 0 ==> Loaded(n) && n == nextRangeToLoad.value
      requires currentRangeNextOffset >= 0 ==>
        && Loaded(n) && n == nextRangeToLoad.value + 1
        && slots[nextRangeToLoad.value].start <= currentRangeNextOffset <= slots[nextRangeToLoad.value].end
      modifies this
      decreases |slots| - n, if currentRangeNextOffset < 0 then 1 else 3
      ensures Valid()
      ensures slots == old(slots) && listeners == old(listeners)
      ensures var k := old(nextRangeToLoad).value;
        old(currentRangeNextOffset) < 0 ==>
          && StartedSlot(k, old(buffers))
          && events == old(events)
          && requests == old(requests) + [ReadRequest(slots[k].start, ChunkSize(slots[k], slots[k].start))]
      ensures old(currentRangeNextOffset) >= 0 ==>
        MovedOn(old(nextRangeToLoad).value, old(currentRangeNextOffset), old(buffers), old(events), old(requests))
    {
      var k := nextRangeToLoad.value;
      if currentRangeNextOffset < 0 {
        AllocateCurrent();
        RequestChunk();
      } else if currentRangeNextOffset >= slots[k].end {
        ContinueLoading(n);
      } else {
        RequestChunk();
      }
    }

    /**
     * Stores a non-empty reply chunk at the cursor, tells the listeners whose
     * range ends inside it, and moves the cursor past it.
     */
    method StoreChunk(data: seq<byte>)
      requires Inv() && Completions(events) == 0 && nextRangeToLoad.Some? && Waiting(nextRangeToLoad.value)
      requires |data| > 0 && currentRangeNextOffset + |data| <= slots[nextRangeToLoad.value].end
      modifies this`buffers, this`events, this`currentRangeNextOffset
      ensures var k := nextRangeToLoad.value;
        && WellFormedSlots(slots) && ValidRegistry(listeners) && BuffersValid() && Completions(events) == 0
        && k < |slots| && Loaded(k + 1)
        && slots[k].start <= currentRangeNextOffset <= slots[k].end
      ensures var k := nextRangeToLoad.value; var c := old(currentRangeNextOffset);
        && currentRangeNextOffset == c + |data|
        && buffers == old(buffers)[k := Some(Splice(old(buffers)[k].value, c - slots[k].start, data))]
        && events == old(events) + Fired(listeners, AfterChunk, c, c + |data|)
    {
      var k := nextRangeToLoad.value;
      var c := currentRangeNextOffset;
      buffers := buffers[k := Some(Splice(buffers[k].value, c - slots[k].start, data))];
      Notify(AfterChunk, c, c + |data|);
      currentRangeNextOffset := c + |data|;
    }

    /**
     * An empty reply: skips the requested chunk and moves the loader on.
     */
    method SkipChunk()
      requires Valid() && pending.Some? && nextRangeToLoad.Some?
      modifies this
      ensures Valid()
      ensures slots == old(slots) && listeners == old(listeners)
      ensures MovedOn(old(nextRangeToLoad).value, old(currentRangeNextOffset) + old(pending).value.count,
        old(buffers), old(events), old(requests))
    {
      var k := nextRangeToLoad.value;
      assert Waiting(k);
      currentRangeNextOffset := currentRangeNextOffset + pending.value.count;
      LoadRange(k + 1);
    }

    /**
     * A non-empty reply that fits the slot: stores it through `StoreChunk`
     * and moves the loader on.
     */
    method TakeChunk(data: seq<byte>)
      requires Valid() && pending.Some? && nextRangeToLoad.Some?
      requires |data| > 0 && currentRangeNextOffset + |data| <= slots[nextRangeToLoad.value].end
      modifies this
      ensures Valid()
      ensures slots == old(slots) && listeners == old(listeners)
      ensures var k := old(nextRangeToLoad).value; var c := old(currentRangeNextOffset);
        MovedOn(k, c + |data|,
          old(buffers)[k := Some(Splice(old(buffers)[k].value, c - slots[k].start, data))],
          old(events) + Fired(listeners, AfterChunk, c, c + |data|),
          old(requests))
    {
      var k := nextRangeToLoad.value;
      assert Waiting(k);
      StoreChunk(data);
      LoadRange(k + 1);
    }

    /**
     * The transport's reply to the outstanding read: `data` read from
     * `address`. A reply for another address, or one that would not fit the
     * slot buffer, is refused and changes nothing. An empty reply skips the
     * requested chunk; otherwise the bytes are stored, the listeners whose
     * range ends inside the chunk are told, and the cursor moves past them.
     * Then the loader requests the next chunk, starts the next slot, or
     * announces that loading is complete.
     */
    method HandleReadData(address: int, data: seq<byte>) returns (r: Outcome)
      requires Valid() && pending.Some?
      modifies this
      ensures Valid()
      ensures slots == old(slots) && listeners == old(listeners)
      ensures address != old(currentRangeNextOffset) ==>
        r == Fail(SpuriousReply) && unchanged(this)
      ensures var k := old(nextRangeToLoad).value; var c := old(currentRangeNextOffset);
        address == c && c + |data| > slots[k].end ==>
          r == Fail(ReplyOverflow) && unchanged(this)
      ensures var k := old(nextRangeToLoad).value; var c := old(currentRangeNextOffset);
        address == c && |data| == 0 ==>
          r == Pass && MovedOn(k, c + old(pending).value.count, old(buffers), old(events), old(requests))
      ensures var k := old(nextRangeToLoad).value; var c := old(currentRangeNextOffset);
        address == c && 0 < |data| && c + |data| <= slots[k].end ==>
          && r == Pass
          && MovedOn(k, c + |data|,
               old(buffers)[k := Some(Splice(old(buffers)[k].value, c - slots[k].start, data))],
               old(events) + Fired(listeners, AfterChunk, c, c + |data|),
               old(requests))
    {
      var memo := pending.value;
      if currentRangeNextOffset != address {
        return Fail(SpuriousReply);
      }
      var k := nextRangeToLoad.value;
      if |data| + currentRangeNextOffset - slots[k].start > |buffers[k].value| {
        return Fail(ReplyOverflow);
      }
      if |data| == 0 {
        SkipChunk();
      } else {
        TakeChunk(data);
      }
      r := Pass;
    }

    /** A copy of the `len` bytes at `offset`, when one slot with a buffer holds all of them. */
    function Read(offset: int, len: nat): (r: Option<seq<byte>>)
      requires WellFormedSlots(slots) && BuffersValid()
      reads this`slots, this`buffers
      ensures r.Some? ==> |r.value| == len
    {
      ReadFrom(slots, buffers, offset, len)
    }

    /** A non-empty read succeeds exactly when one slot with a buffer covers the whole window. */
    lemma ReadIffCovered(offset: int, len: nat)
      requires Valid() && len > 0
      ensures Read(offset, len).Some? <==>
        exists i :: 0 <= i < |slots| && Covers(slots[i], offset, len) && buffers[i].Some?
    {
      if exists i :: 0 <= i < |slots| && Covers(slots[i], offset, len) && buffers[i].Some? {
        var i :| 0 <= i < |slots| && Covers(slots[i], offset, len) && buffers[i].Some?;
        SlotForIffCovered(slots, Ready(buffers), offset, len, i);
      }
    }

    /** The local half of a write: the covering slot buffer, if any, takes the bytes. */
    method WriteLocal(offset: int, data: seq<byte>)
      requires Inv()
      modifies this`buffers
      ensures Inv()
      ensures buffers == WriteInto(slots, old(buffers), offset, data)
      ensures old(Read(offset, |data|)).Some? ==> Read(offset, |data|) == Some(data)
    {
      if Read(offset, |data|).Some? {
        ReadAfterWrite(slots, buffers, offset, data);
      }
      var entry := SlotFor(slots, Ready(buffers), offset, |data|);
      if entry.Some? {
        var i := entry.value;
        buffers := buffers[i := Some(Splice(buffers[i].value, offset - slots[i].start, data))];
      }
    }

    /** The remote half of a write: the request to the node, then the overlapping listeners. */
    method SendWrite(offset: int, data: seq<byte>)
      modifies this`requests, this`events
      ensures requests == old(requests) + [WriteRequest(offset, data)]
      ensures events == old(events) + Fired(listeners, AfterWrite, offset, offset + |data|)
      ensures Completions(events) == Completions(old(events))
    {
      requests := requests + [WriteRequest(offset, data)];
      Notify(AfterWrite, offset, offset + |data|);
    }

    /**
     * Writes `data` at `offset`: into the covering slot buffer when there is
     * one, then to the remote node, then tells every listener whose range
     * overlaps the written bytes.
     */
    method Write(offset: int, data: seq<byte>)
      requires Valid()
      modifies this`buffers, this`requests, this`events
      ensures Valid()
      ensures buffers == WriteInto(slots, old(buffers), offset, data)
      ensures old(Read(offset, |data|)).Some? ==> Read(offset, |data|) == Some(data)
      ensures requests == old(requests) + [WriteRequest(offset, data)]
      ensures events == old(events) + Fired(listeners, AfterWrite, offset, offset + |data|)
    {
      WriteLocal(offset, data);
      SendWrite(offset, data);
    }
  }
}
