/**
 * Address ranges of one memory space and the lookups the cache makes over its
 * sorted set of slots (the keys of the slot map).
 */
module Ranges {

  datatype Option<T> = None | Some(value: T)

  /** Largest value of a Java `int`, used by the cache as a probe end address. */
  const IntMax: int := 0x7FFF_FFFF

  /** Half-open address interval `[start, end)`. */
  datatype Range = Range(start: int, end: int)

  /** Strict key order of ranges: by start address, then by end address. */
  predicate Below(a: Range, b: Range)
  {
    a.start < b.start || (a.start == b.start && a.end < b.end)
  }

  /** Non-strict key order: `a` sorts at or before `b`. */
  predicate AtMost(a: Range, b: Range)
  {
    Below(a, b) || a == b
  }

  /** The two ranges share at least one address. */
  predicate Overlap(a: Range, b: Range)
  {
    a.start < b.end && b.start < a.end
  }

  /** Every address of `a` lies below every address of `b`. */
  predicate Precedes(a: Range, b: Range)
  {
    a.end <= b.start
  }

  /** `r` contains every address of `[offset, offset + len)`. */
  predicate Covers(r: Range, offset: int, len: nat)
  {
    r.start <= offset && offset + len <= r.end
  }

  /**
   * What the coalesced slot list is like: every range non-empty and at a
   * non-negative address, the list strictly ascending and the ranges
   * pairwise disjoint.
   */
  ghost predicate WellFormedSlots(slots: seq<Range>)
  {
    && (forall i :: 0 <= i < |slots| ==> 0 <= slots[i].start < slots[i].end)
    && (forall i, j {:trigger Precedes(slots[i], slots[j])} :: 0 <= i < j < |slots| ==> Precedes(slots[i], slots[j]))
  }

  /** Of two well-formed slots, the earlier one ends before the later one starts. */
  lemma SlotsApart(slots: seq<Range>, i: nat, j: nat)
    requires WellFormedSlots(slots) && i < j < |slots|
    ensures slots[i].end <= slots[j].start
  {
    assert Precedes(slots[i], slots[j]);
  }

  /** Keys listed in strictly ascending key order, as a sorted map iterates them. */
  ghost predicate SortedKeys(keys: seq<Range>)
  {
    forall i, j :: 0 <= i < j < |keys| ==> Below(keys[i], keys[j])
  }

  lemma WellFormedSlotsAreSorted(slots: seq<Range>)
    requires WellFormedSlots(slots)
    ensures SortedKeys(slots)
  {
    forall i, j | 0 <= i < j < |slots| ensures Below(slots[i], slots[j]) {
      assert Precedes(slots[i], slots[j]);
    }
  }

  /**
   * The sorted map's floor lookup: the position of the greatest key that is
   * at most `probe`, if any.
   */
  function FloorIndex(keys: seq<Range>, probe: Range): (r: Option<nat>)
    requires SortedKeys(keys)
    ensures r.Some? ==> r.value < |keys| && AtMost(keys[r.value], probe)
    ensures r.Some? ==> forall j :: 0 <= j < |keys| && AtMost(keys[j], probe) ==> AtMost(keys[j], keys[r.value])
    ensures r.None? ==> forall j :: 0 <= j < |keys| ==> !AtMost(keys[j], probe)
  {
    if keys == [] then None
    else if AtMost(keys[|keys| - 1], probe) then Some(|keys| - 1)
    else FloorIndex(keys[..|keys| - 1], probe)
  }

  /** Position of the last slot whose start address is at most `offset`, if any. */
  function FloorByStart(slots: seq<Range>, offset: int): (r: Option<nat>)
    requires WellFormedSlots(slots)
    ensures r.Some? ==> r.value < |slots| && slots[r.value].start <= offset
    ensures r.Some? ==> forall j :: r.value < j < |slots| ==> offset < slots[j].start
    ensures r.None? ==> forall j :: 0 <= j < |slots| ==> offset < slots[j].start
  {
    if slots == [] then None
    else if slots[|slots| - 1].start <= offset then Some(|slots| - 1)
    else FloorByStart(slots[..|slots| - 1], offset)
  }

  /**
   * The slot lookup exactly as the cache writes it: the floor entry of the
   * probe key `(offset, IntMax)`, refused when that slot ends before
   * `offset + len` or has no buffer yet.
   */
  function SlotForAsWritten(slots: seq<Range>, ready: seq<bool>, offset: int, len: nat): (r: Option<nat>)
    requires WellFormedSlots(slots) && |ready| == |slots|
    ensures r.Some? ==> r.value < |slots| && Covers(slots[r.value], offset, len) && ready[r.value]
  {
    WellFormedSlotsAreSorted(slots);
    match FloorIndex(slots, Range(offset, IntMax))
    case None => None
    case Some(i) =>
      if slots[i].end < offset + len then None
      else if !ready[i] then None
      else Some(i)
  }

  /**
   * The slot lookup as intended: the last slot starting at or before
   * `offset`, accepted when it reaches `offset + len` and has a buffer.
   */
  function SlotFor(slots: seq<Range>, ready: seq<bool>, offset: int, len: nat): (r: Option<nat>)
    requires WellFormedSlots(slots) && |ready| == |slots|
    ensures r.Some? ==> r.value < |slots| && Covers(slots[r.value], offset, len) && ready[r.value]
  {
    match FloorByStart(slots, offset)
    case None => None
    case Some(i) =>
      if slots[i].end < offset + len then None
      else if !ready[i] then None
      else Some(i)
  }

  /**
   * A non-empty window is served exactly when one slot covers all of it and
   * that slot has a buffer; the slot found is that one.
   */
  lemma SlotForIffCovered(slots: seq<Range>, ready: seq<bool>, offset: int, len: nat, i: nat)
    requires WellFormedSlots(slots) && |ready| == |slots|
    requires len > 0 && i < |slots|
    ensures SlotFor(slots, ready, offset, len) == Some(i) <==> Covers(slots[i], offset, len) && ready[i]
  {
    if Covers(slots[i], offset, len) && ready[i] {
      var r := FloorByStart(slots, offset).value;
      if r > i {
        SlotsApart(slots, i, r);
      }
    }
  }

  /** Below the probe end, the written lookup and the intended one agree. */
  lemma {:induction false} FloorIndexAgrees(slots: seq<Range>, offset: int)
    requires WellFormedSlots(slots)
    requires forall i :: 0 <= i < |slots| ==> slots[i].end <= IntMax
    ensures SortedKeys(slots)
    ensures FloorIndex(slots, Range(offset, IntMax)) == FloorByStart(slots, offset)
  {
    WellFormedSlotsAreSorted(slots);
    if slots != [] {
      var init := slots[..|slots| - 1];
      assert WellFormedSlots(init);
      FloorIndexAgrees(init, offset);
    }
  }

  /**
   * The written probe skips a slot that starts exactly at `offset` but ends
   * above `IntMax`: reading the first bytes of the slot
   * `[0x8000_0000, 0x8000_0010)` fails although the slot is loaded.
   */
  lemma SlotForAsWrittenMissesHighSlot()
    ensures SlotForAsWritten([Range(0x8000_0000, 0x8000_0010)], [true], 0x8000_0000, 4) == None
    ensures SlotFor([Range(0x8000_0000, 0x8000_0010)], [true], 0x8000_0000, 4) == Some(0)
  {
    var slots := [Range(0x8000_0000, 0x8000_0010)];
    WellFormedSlotsAreSorted(slots);
    assert !AtMost(slots[0], Range(0x8000_0000, IntMax));
  }
}
