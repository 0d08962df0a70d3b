# MemorySpaceCache, modelled in Dafny

This project models `MemorySpaceCache`, the class that caches one memory space of one remote OpenLCB
node for the configuration (CDI) tools. The cache has five parts:

- **Fixed slots.** `fillCache` fixes a sorted set of disjoint address ranges once. These are the slots.
- **Loader.** A loader fills the slots one at a time, in requests of at most 64 bytes. Only one read is
  outstanding at any time.
- **Reads.** `read` answers only from a single slot that covers the whole window and already has its
  buffer.
- **Writes.** `write` updates the covering slot buffer, sends the bytes to the node and tells the
  listeners that overlap the written bytes.
- **Listeners.** Data listeners are registered on exact ranges. They are told about loaded chunks under
  a partial-read rule and about writes under an overlap rule. A "loading complete" event is sent once,
  when every slot has been loaded.

The model has three modules:

- `Ranges` (`ranges.dfy`) holds address ranges, the `(start, end)` key order of the sorted maps, the
  well-formedness of the slot list and the floor lookup behind `getCacheForRange`.
- `Listeners` (`listeners.dfy`) holds the listener registry (the `dataChangeListeners` map as a list
  of keys in ascending order, each with its listener ids in registration order). It also holds the
  two notification rules as the event sequence one pass emits, and the count of "loading complete"
  events in an event log.
- `SpaceCache` (`cache.dfy`) holds the class `MemorySpaceCache`. Its fields are the slot keys, one
  optional byte buffer per slot, the registry, and the loader state `nextRangeToLoad` and
  `currentRangeNextOffset`. It also keeps the outstanding read (address and requested count) and two
  ghost logs: the events delivered to observers and the requests handed to the transport.

The invariant `Valid` holds between any two steps:

- The slots are well formed.
- Every buffer is exactly as long as its slot.
- Exactly a prefix of the slots has buffers.
- The loader is either waiting for the reply to a read at its cursor in the last allocated slot, or done.
- The log holds one "loading complete" event exactly when the loader is done, and none before.

The transport's asynchronous reply is the method `HandleReadData`. The Java code throws in two cases;
in the model each returns `Fail` and leaves the state unchanged.

The Java code points `currentRangeData` at the buffer it stores in the slot map and copies bytes into
it in place. The model writes those bytes into the slot's buffer value directly.

## Model

| member | source | states |
|---|---|---|
| Ranges.FloorIndex | src/org/openlcb/cdi/impl/MemorySpaceCache.java:232-234 | the floor lookup of a sorted key list: the found key is at most the probe and is the greatest such key; no result only when every key is above the probe |
| Ranges.FloorByStart | src/org/openlcb/cdi/impl/MemorySpaceCache.java:231-234 | the last slot starting at or before `offset`: every later slot starts above it; no result when every slot starts above it |
| Ranges.SlotForAsWritten | src/org/openlcb/cdi/impl/MemorySpaceCache.java:231-240 | the lookup as the code writes it (floor entry of the probe `(offset, Integer.MAX_VALUE)`): a slot it returns covers `[offset, offset + len)` and has a buffer |
| Ranges.SlotFor | src/org/openlcb/cdi/impl/MemorySpaceCache.java:231-240 | the corrected lookup used by the cache: a slot it returns covers the window and has a buffer |
| Ranges.SlotForIffCovered | src/org/openlcb/cdi/impl/MemorySpaceCache.java:231-240 | for a non-empty window, the lookup returns slot `i` if and only if slot `i` covers the window and has a buffer |
| Ranges.FloorIndexAgrees | src/org/openlcb/cdi/impl/MemorySpaceCache.java:232-233 | when every slot ends at or below `Integer.MAX_VALUE`, the probe floor lookup finds the same slot as the last slot starting at or before `offset` |
| Ranges.SlotForAsWrittenMissesHighSlot | src/org/openlcb/cdi/impl/MemorySpaceCache.java:232-233 | a loaded slot `[0x8000_0000, 0x8000_0010)` is not found by the written lookup for a read at its first address, but is found by the corrected one |
| Listeners.Register | src/org/openlcb/cdi/impl/MemorySpaceCache.java:79-89 | registering keeps the keys strictly ascending, each with at least one listener, and the key set grows by exactly the registered range |
| Listeners.RegisterLookup | src/org/openlcb/cdi/impl/MemorySpaceCache.java:79-89 | after registering `id` on `key`, the list for `key` is the old list followed by `id`; every other key's list is unchanged |
| Listeners.FiredMembership | src/org/openlcb/cdi/impl/MemorySpaceCache.java:99-133 | a listener is told in a pass if and only if some key it is registered under triggers: overlap, plus `key.end <= end` after a chunk |
| Listeners.FiredAtKey | src/org/openlcb/cdi/impl/MemorySpaceCache.java:100-110 | a pass emits, for each key in ascending order, that key's whole listener list in registration order, and nothing for a key that does not trigger |
| Listeners.FiredHasNoCompletion | src/org/openlcb/cdi/impl/MemorySpaceCache.java:99-133 | a notification pass only emits data updates, never "loading complete" |
| Listeners.ChunkFiresWithinWrite | src/org/openlcb/cdi/impl/MemorySpaceCache.java:102-104 | every listener told about a loaded chunk would also be told about a write of the same bytes |
| Listeners.RegisteredListenerFires | src/org/openlcb/cdi/impl/MemorySpaceCache.java:79-133 | a listener just registered on a range is told by every later pass whose rule triggers that range |
| Listeners.LoadTellsOnce | src/org/openlcb/cdi/impl/MemorySpaceCache.java:91-113 | over consecutive chunks from `b0` to `bn`, a non-empty key is told once if it ends inside `(b0, bn]` and never otherwise |
| Listeners.WriteNotifiesOverlapping | src/org/openlcb/cdi/impl/MemorySpaceCache.java:122-133 | a write of `[8, 12)` tells the listeners on `[0, 10)` and `[5, 15)`, in key order, and not the one on `[20, 30)` |
| Listeners.ChunkNotifiesOnlyCompleted | src/org/openlcb/cdi/impl/MemorySpaceCache.java:99-113 | a listener on `[10, 20)` is not told about chunk `[0, 15)` and is told about chunk `[0, 30)` |
| SpaceCache.ChunkSize | src/org/openlcb/cdi/impl/MemorySpaceCache.java:179-187 | a read request asks for more than 0 and at most 64 bytes, never runs past the slot end, and is short only when it reaches the slot end |
| SpaceCache.ChunkBounds | src/org/openlcb/cdi/impl/MemorySpaceCache.java:179-190 | with full replies, loading a slot from `cursor` visits strictly ascending chunk boundaries from `cursor` to the slot end |
| SpaceCache.SlotLoadTellsOnce | src/org/openlcb/cdi/impl/MemorySpaceCache.java:91-113 | loading a slot with full replies tells the listeners of a non-empty range once if the range ends inside the slot, and never otherwise |
| SpaceCache.ChunksOfSlot150 | src/org/openlcb/cdi/impl/MemorySpaceCache.java:179-187 | a 150-byte slot is requested as chunks of 64, 64 and 22 bytes |
| SpaceCache.Zeros | src/org/openlcb/cdi/impl/MemorySpaceCache.java:176 | a new buffer has the requested length and all bytes 0 |
| SpaceCache.Splice | src/org/openlcb/cdi/impl/MemorySpaceCache.java:218-220 | copying `data` in at `at` keeps the length, makes `[at, at + |data|)` equal to `data` and leaves every other byte as it was |
| SpaceCache.ReadFrom | src/org/openlcb/cdi/impl/MemorySpaceCache.java:242-248 | a read succeeds if and only if the lookup finds a slot; it then returns `len` bytes, byte `j` being the slot buffer's byte at `offset - start + j` |
| SpaceCache.WriteInto | src/org/openlcb/cdi/impl/MemorySpaceCache.java:250-256 | a write with no covering loaded slot changes no buffer; otherwise only the covering slot changes, and only in the written bytes, which become `data`; buffer lengths and which slots have buffers are kept |
| SpaceCache.ReadAfterWrite | src/org/openlcb/cdi/impl/MemorySpaceCache.java:242-256 | reading back a window that was just written to a covering loaded slot yields the written bytes |
| SpaceCache.WriteKeepsOtherBytes | src/org/openlcb/cdi/impl/MemorySpaceCache.java:250-256 | a write leaves every read of a window disjoint from the written bytes unchanged |
| SpaceCache.MemorySpaceCache.constructor | src/org/openlcb/cdi/impl/MemorySpaceCache.java:34-46 | a new cache has no slots, no listeners, no events and no requests, and satisfies the invariant |
| SpaceCache.MemorySpaceCache.AddRangeListener | src/org/openlcb/cdi/impl/MemorySpaceCache.java:79-89 | the registry becomes `Register(old, [start, end), id)`: `id` is appended to that key's list and the invariant is kept |
| SpaceCache.MemorySpaceCache.TellAll | src/org/openlcb/cdi/impl/MemorySpaceCache.java:107-109 | the inner loop over one key's listeners appends one data update per listener, in registration order, and nothing else |
| SpaceCache.MemorySpaceCache.Notify | src/org/openlcb/cdi/impl/MemorySpaceCache.java:99-133 | the loop over the registry appends exactly the events of one pass under the given rule, and adds no "loading complete" |
| SpaceCache.MemorySpaceCache.FillCache | src/org/openlcb/cdi/impl/MemorySpaceCache.java:138-148 | fails with nothing changed if slots exist; with no declared ranges it changes nothing and sends nothing; otherwise the slots become the declared ranges, all without buffers except slot 0, which is started and its first chunk requested |
| SpaceCache.MemorySpaceCache.FirstUnloaded | src/org/openlcb/cdi/impl/MemorySpaceCache.java:155-160 | the scan from the slot being loaded (or the first slot) stops at the first slot without a buffer, or yields none when every slot has one |
| SpaceCache.MemorySpaceCache.ContinueLoading | src/org/openlcb/cdi/impl/MemorySpaceCache.java:153-168 | starts the first slot without a buffer and requests its first chunk; when none is left, sends "loading complete" once and requests nothing |
| SpaceCache.MemorySpaceCache.AnnounceComplete | src/org/openlcb/cdi/impl/MemorySpaceCache.java:161-165 | with every slot loaded, the log gains exactly one "loading complete" event and no read stays outstanding |
| SpaceCache.MemorySpaceCache.AllocateCurrent | src/org/openlcb/cdi/impl/MemorySpaceCache.java:174-178 | the slot being loaded gets a zeroed buffer of exactly its length, no other buffer changes, and the cursor goes to the slot start |
| SpaceCache.MemorySpaceCache.RequestChunk | src/org/openlcb/cdi/impl/MemorySpaceCache.java:179-190 | a read of `min(slot.end - cursor, 64)` bytes at the cursor is requested and becomes the outstanding read |
| SpaceCache.MemorySpaceCache.LoadRange | src/org/openlcb/cdi/impl/MemorySpaceCache.java:173-190 | a slot not yet started is allocated and its first chunk requested; a cursor inside the slot requests the next chunk; a cursor at the slot end moves on to the next slot or to "loading complete" |
| SpaceCache.MemorySpaceCache.StoreChunk | src/org/openlcb/cdi/impl/MemorySpaceCache.java:217-224 | a non-empty reply is copied into the slot buffer at `cursor - start`, the listeners under the partial-read rule for `[cursor, cursor + len)` are told, and the cursor moves by `len` |
| SpaceCache.MemorySpaceCache.SkipChunk | src/org/openlcb/cdi/impl/MemorySpaceCache.java:212-217 | an empty reply moves the cursor by the requested count with no byte copied and no listener told, then the loader moves on |
| SpaceCache.MemorySpaceCache.TakeChunk | src/org/openlcb/cdi/impl/MemorySpaceCache.java:217-225 | a non-empty reply is stored and announced, then the loader moves on from the new cursor |
| SpaceCache.MemorySpaceCache.HandleReadData | src/org/openlcb/cdi/impl/MemorySpaceCache.java:198-226 | a reply at another address than the cursor, or one running past the slot buffer, fails with the state unchanged; any other reply is taken and the loader moves on |
| SpaceCache.MemorySpaceCache.Read | src/org/openlcb/cdi/impl/MemorySpaceCache.java:242-248 | over well-formed slots with buffers as long as their slots, a successful read of the cache returns exactly `len` bytes; its contents are those `ReadFrom` states |
| SpaceCache.MemorySpaceCache.ReadIffCovered | src/org/openlcb/cdi/impl/MemorySpaceCache.java:231-248 | a non-empty read succeeds if and only if some slot with a buffer covers the whole window |
| SpaceCache.MemorySpaceCache.WriteLocal | src/org/openlcb/cdi/impl/MemorySpaceCache.java:252-256 | the buffers become `WriteInto` of the old buffers and the invariant is kept; a read of the window that succeeded before the write now returns the written bytes |
| SpaceCache.MemorySpaceCache.SendWrite | src/org/openlcb/cdi/impl/MemorySpaceCache.java:259-275 | one write request with the bytes is issued, then the overlapping listeners are told |
| SpaceCache.MemorySpaceCache.Write | src/org/openlcb/cdi/impl/MemorySpaceCache.java:250-276 | updates the covering loaded slot as `WriteInto` states, so a read of the window that succeeded before now returns the written bytes; issues the write request; tells every overlapping listener; keeps the invariant |

## Left out

- The transport: `MemoryConfigurationService`, `McsReadMemo` and `McsWriteMemo`. The model records each request in a ghost log and takes the read reply as the argument of `HandleReadData`.
- The write reply. Its status is only logged, and `cdiEntry.fireWriteComplete()` is a call into code that is not part of this model.
- `RangeCacheUtil` and `addRangeToCache`. The coalescing is not part of this model. The slot list it yields is a precondition of `FillCache`: each range non-empty at a non-negative address, strictly ascending, pairwise disjoint. Non-negative starts are a property the source relies on: `loadRange` treats any negative cursor as "slot not started" (the `-1` sentinel of lines 166 and 174), so a slot such as `[-100, -50)` would get a fresh zeroed buffer and re-request its first chunk after every reply, and loading would never finish. `LoadRange`'s precondition and termination measure exclude that case.
- `PropertyChangeSupport`, adding and removing property listeners, `synchronized` blocks and logging. Observers are identified by `ListenerId`, and each delivery is an entry in the ghost event log.
- `ChangeEntry.previousMax` is never read or written.
- Addresses are unbounded integers. The `long` arithmetic and the `(int)` casts of counts and buffer offsets are not modelled, because they overflow only for slots or offsets beyond 2^31 bytes apart. The `Integer.MAX_VALUE` probe is modelled exactly (see Findings).
- A read with negative `len` is excluded: `len` is a `nat`. In Java, `getCacheForRange` returns `null` first when no slot starts at or before `offset` or that slot has no buffer (lines 234 and 238), so `read` returns `null`; only when a loaded slot is found does `new byte[len]` throw (line 245).
- A reply that arrives with no read outstanding is excluded by `HandleReadData`'s precondition. In Java that happens only after loading completes, when `nextRangeToLoad` is `null`. The handler checks the address first (lines 199-202): a reply at any address other than the final cursor throws the "spurious return data" exception, and only a reply at the final cursor reaches `nextRangeToLoad.start` (line 203) and throws a `NullPointerException`. A failed reply leaves the loader waiting, as in Java, where the exception escapes the handler and no new request is issued.
- An exception thrown by an observer is not modelled: every delivery in a pass is recorded.
- Byte buffers are sequence values, not arrays. The in-place update of the buffer shared by `currentRangeData` and the slot map is modelled as replacing that slot's buffer value, so aliasing between the two Java references is not represented.
- The listener rule after a chunk follows the code (lines 102-104): overlap, plus the key ending at or before the chunk end. It is not "the key lies entirely inside loaded data". The two agree for a key inside one slot, because the slot is read from its start. `SlotLoadTellsOnce` states the consequence.
- `SlotLoadTellsOnce` assumes full replies. An empty reply skips its chunk without telling anyone (`SkipChunk`), so a listener whose range ends inside a skipped chunk is never told.
- `Swing TreePane` and the tests of the repository are outside the cache and not modelled.

## Findings

| source | as written | input that shows it | evidently intended | confidence | as-written member | corrected member |
|---|---|---|---|---|---|---|
| src/org/openlcb/cdi/impl/MemorySpaceCache.java:232-233 | `getCacheForRange` takes the floor entry of the probe key `(offset, Integer.MAX_VALUE)`. Keys order by start, then end, so a slot that starts exactly at `offset` and ends above `Integer.MAX_VALUE` sorts above the probe and is skipped. | a loaded slot `[0x8000_0000, 0x8000_0010)`; `read(0x8000_0000, 4)` returns no data, and a write there does not update the cache | the last slot whose start is at or before `offset` (`Long.MAX_VALUE` as the probe end) | not executed | Ranges.SlotForAsWrittenMissesHighSlot | Ranges.SlotFor |
