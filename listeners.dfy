/**
 * The registry of data listeners: each exact range maps to the listeners
 * registered on it, in registration order, and the map is walked in key order
 * to decide who hears about a loaded chunk or a local write.
 */
module Listeners {
  import opened Ranges

  /** Identity of one registered callback object. */
  type ListenerId = nat

  /** One key of the registry and the listeners registered on exactly that range. */
  datatype Entry = Entry(key: Range, ids: seq<ListenerId>)

  /** What the cache emits: a data update to one listener, or the one-time "loading complete". */
  datatype Event = UpdateData(listener: ListenerId) | LoadingComplete

  /** Which notification is being sent: after a chunk of a load, or after a local write. */
  datatype Rule = AfterChunk | AfterWrite

  /** Keys strictly ascending and every key holding at least one listener. */
  ghost predicate ValidRegistry(entries: seq<Entry>)
  {
    && (forall i, j {:trigger Below(entries[i].key, entries[j].key)} :: 0 <= i < j < |entries| ==> Below(entries[i].key, entries[j].key))
    && (forall e :: e in entries ==> e.ids != [])
  }

  function Keys(entries: seq<Entry>): set<Range>
  {
    set e | e in entries :: e.key
  }

  /** The listeners registered on exactly `key`, in registration order. */
  function Lookup(entries: seq<Entry>, key: Range): seq<ListenerId>
  {
    if entries == [] then []
    else if entries[0].key == key then entries[0].ids
    else Lookup(entries[1..], key)
  }

  lemma {:induction false} LookupAt(entries: seq<Entry>, i: nat)
    requires ValidRegistry(entries) && i < |entries|
    ensures Lookup(entries, entries[i].key) == entries[i].ids
  {
    if i > 0 {
      assert Below(entries[0].key, entries[i].key);
      assert ValidRegistry(entries[1..]);
      LookupAt(entries[1..], i - 1);
    }
  }

  lemma {:induction false} LookupAbsent(entries: seq<Entry>, key: Range)
    requires key !in Keys(entries)
    ensures Lookup(entries, key) == []
  {
    if entries != [] {
      assert entries[0] in entries;
      assert Keys(entries[1..]) <= Keys(entries);
      LookupAbsent(entries[1..], key);
    }
  }

  lemma TailKeysAbove(entries: seq<Entry>)
    requires ValidRegistry(entries) && entries != []
    ensures ValidRegistry(entries[1..])
    ensures forall k :: k in Keys(entries[1..]) ==> Below(entries[0].key, k)
  {
    forall k | k in Keys(entries[1..]) ensures Below(entries[0].key, k) {
      var e :| e in entries[1..] && e.key == k;
      var i :| 0 <= i < |entries[1..]| && entries[1..][i] == e;
      assert Below(entries[0].key, entries[i + 1].key);
    }
  }

  lemma KeysCons(e: Entry, rest: seq<Entry>)
    ensures Keys([e] + rest) == {e.key} + Keys(rest)
  {
    assert forall x :: x in [e] + rest <==> x == e || x in rest;
  }

  lemma ConsValid(e: Entry, rest: seq<Entry>)
    requires ValidRegistry(rest) && e.ids != []
    requires forall k :: k in Keys(rest) ==> Below(e.key, k)
    ensures ValidRegistry([e] + rest)
  {
    assert forall i :: 0 <= i < |rest| ==> rest[i].key in Keys(rest);
  }

  /**
   * Adds listener `id` on the range `key`: appended to the key's list when the
   * key is present, otherwise a new key with a one-listener list.
   */
  function Register(entries: seq<Entry>, key: Range, id: ListenerId): (r: seq<Entry>)
    requires ValidRegistry(entries)
    ensures ValidRegistry(r)
    ensures Keys(r) == Keys(entries) + {key}
  {
    if entries == [] then [Entry(key, [id])]
    else if entries[0].key == key then
      TailKeysAbove(entries);
      ConsValid(entries[0].(ids := entries[0].ids + [id]), entries[1..]);
      [entries[0].(ids := entries[0].ids + [id])] + entries[1..]
    else if Below(key, entries[0].key) then
      TailKeysAbove(entries);
      KeysCons(entries[0], entries[1..]);
      assert entries == [entries[0]] + entries[1..];
      ConsValid(Entry(key, [id]), entries);
      [Entry(key, [id])] + entries
    else
      TailKeysAbove(entries);
      var rest := Register(entries[1..], key, id);
      ConsValid(entries[0], rest);
      KeysCons(entries[0], rest);
      KeysCons(entries[0], entries[1..]);
      assert entries == [entries[0]] + entries[1..];
      [entries[0]] + rest
  }

  /** Registering adds `id` at the end of `key`'s list and leaves every other key's list alone. */
  lemma {:induction false} RegisterLookup(entries: seq<Entry>, key: Range, id: ListenerId, k: Range)
    requires ValidRegistry(entries)
    ensures Lookup(Register(entries, key, id), k) == if k == key then Lookup(entries, k) + [id] else Lookup(entries, k)
  {
    if entries == [] {
    } else if entries[0].key == key {
    } else if Below(key, entries[0].key) {
      assert key !in Keys(entries) by {
        forall i | 0 <= i < |entries| ensures entries[i].key != key {
          assert i == 0 || Below(entries[0].key, entries[i].key);
        }
      }
      LookupAbsent(entries, key);
    } else {
      TailKeysAbove(entries);
      RegisterLookup(entries[1..], key, id, k);
    }
  }

  /** Whether listeners keyed on `key` hear about a change of `[start, end)`. */
  predicate Triggers(rule: Rule, key: Range, start: int, end: int)
  {
    && Overlap(key, Range(start, end))
    && (rule == AfterChunk ==> key.end <= end)
  }

  /** Strictly increasing addresses: the boundaries of consecutive chunks. */
  ghost predicate Ascending(bounds: seq<int>)
  {
    forall i, j :: 0 <= i < j < |bounds| ==> bounds[i] < bounds[j]
  }

  /**
   * How many of the first chunks `[bounds[i], bounds[i + 1])`, for
   * `i + 1 < n`, tell the listeners keyed on `key` under the partial-read rule.
   */
  function HitsUpTo(key: Range, bounds: seq<int>, n: nat): nat
    requires n <= |bounds|
  {
    if n < 2 then 0
    else HitsUpTo(key, bounds, n - 1) + (if Triggers(AfterChunk, key, bounds[n - 2], bounds[n - 1]) then 1 else 0)
  }

  /** How many of the consecutive chunks given by `bounds` tell the listeners keyed on `key`. */
  function ChunkHits(key: Range, bounds: seq<int>): nat
  {
    HitsUpTo(key, bounds, |bounds|)
  }

  lemma {:induction false} HitsUpToOnce(key: Range, bounds: seq<int>, n: nat)
    requires Ascending(bounds) && 0 < n <= |bounds| && key.start < key.end
    ensures HitsUpTo(key, bounds, n) == if bounds[0] < key.end <= bounds[n - 1] then 1 else 0
  {
    if n >= 2 {
      HitsUpToOnce(key, bounds, n - 1);
    }
  }

  /**
   * Loading `[bounds[0], last)` chunk by chunk tells the listeners of a
   * non-empty key once when the key ends inside it (on the chunk holding the
   * key's last byte) and never otherwise.
   */
  lemma LoadTellsOnce(key: Range, bounds: seq<int>)
    requires Ascending(bounds) && |bounds| > 0 && key.start < key.end
    ensures ChunkHits(key, bounds) == if bounds[0] < key.end <= bounds[|bounds| - 1] then 1 else 0
  {
    HitsUpToOnce(key, bounds, |bounds|);
  }

  /** One update event per listener, in the listeners' order. */
  function Updates(ids: seq<ListenerId>): (r: seq<Event>)
    ensures |r| == |ids|
    ensures forall i :: 0 <= i < |ids| ==> r[i] == UpdateData(ids[i])
  {
    seq(|ids|, i requires 0 <= i < |ids| => UpdateData(ids[i]))
  }

  /** What the listeners of one key hear in a pass: all of them in order, or nothing. */
  function Told(rule: Rule, e: Entry, start: int, end: int): seq<Event>
  {
    if Triggers(rule, e.key, start, end) then Updates(e.ids) else []
  }

  /** The events a notification pass emits over the first `n` keys, in key order. */
  function FiredUpTo(entries: seq<Entry>, rule: Rule, start: int, end: int, n: nat): seq<Event>
    requires n <= |entries|
  {
    if n == 0 then [] else FiredUpTo(entries, rule, start, end, n - 1) + Told(rule, entries[n - 1], start, end)
  }

  /** The events one notification pass emits, walking every key in order. */
  function Fired(entries: seq<Entry>, rule: Rule, start: int, end: int): seq<Event>
  {
    FiredUpTo(entries, rule, start, end, |entries|)
  }

  /** How many of the first `n` events are "loading complete". */
  function CompletionsUpTo(events: seq<Event>, n: nat): nat
    requires n <= |events|
  {
    if n == 0 then 0
    else CompletionsUpTo(events, n - 1) + (if events[n - 1] == LoadingComplete then 1 else 0)
  }

  /** How many "loading complete" events `events` holds. */
  function Completions(events: seq<Event>): nat
  {
    CompletionsUpTo(events, |events|)
  }

  /** Counting the first `n` events of `a + b` only looks at `a` while `n` stays within it. */
  lemma {:induction false} UpToPrefix(a: seq<Event>, b: seq<Event>, n: nat)
    requires n <= |a|
    ensures CompletionsUpTo(a + b, n) == CompletionsUpTo(a, n)
  {
    if n > 0 {
      UpToPrefix(a, b, n - 1);
    }
  }

  /** Counting past the end of `a` adds the count over the first events of `b`. */
  lemma {:induction false} UpToShift(a: seq<Event>, b: seq<Event>, n: nat)
    requires n <= |b|
    ensures CompletionsUpTo(a + b, |a| + n) == Completions(a) + CompletionsUpTo(b, n)
  {
    if n == 0 {
      UpToPrefix(a, b, |a|);
    } else {
      UpToShift(a, b, n - 1);
    }
  }

  /** Counting completions distributes over concatenation of logs. */
  lemma CompletionsConcat(a: seq<Event>, b: seq<Event>)
    ensures Completions(a + b) == Completions(a) + Completions(b)
  {
    UpToShift(a, b, |b|);
  }

  lemma {:induction false} UpdatesHaveNoCompletion(u: seq<Event>, n: nat)
    requires LoadingComplete !in u && n <= |u|
    ensures CompletionsUpTo(u, n) == 0
  {
    if n > 0 {
      assert u[n - 1] in u;
      UpdatesHaveNoCompletion(u, n - 1);
    }
  }

  lemma {:induction false} FiredUpToNoCompletion(entries: seq<Entry>, rule: Rule, start: int, end: int, n: nat)
    requires n <= |entries|
    ensures LoadingComplete !in FiredUpTo(entries, rule, start, end, n)
    ensures Completions(FiredUpTo(entries, rule, start, end, n)) == 0
  {
    if n > 0 {
      FiredUpToNoCompletion(entries, rule, start, end, n - 1);
      var u := Told(rule, entries[n - 1], start, end);
      UpdatesHaveNoCompletion(u, |u|);
      CompletionsConcat(FiredUpTo(entries, rule, start, end, n - 1), u);
    }
  }

  /** A notification pass is made of data updates only. */
  lemma FiredHasNoCompletion(entries: seq<Entry>, rule: Rule, start: int, end: int)
    ensures LoadingComplete !in Fired(entries, rule, start, end)
    ensures Completions(Fired(entries, rule, start, end)) == 0
  {
    FiredUpToNoCompletion(entries, rule, start, end, |entries|);
  }

  lemma EventsAssoc(x: seq<Event>, y: seq<Event>, z: seq<Event>)
    ensures (x + y) + z == x + (y + z)
  {
  }

  /** The pass over the first `n` keys only depends on those keys. */
  lemma {:induction false} FiredUpToAgree(c: seq<Entry>, d: seq<Entry>, rule: Rule, start: int, end: int, n: nat)
    requires n <= |c| && n <= |d|
    requires forall i :: 0 <= i < n ==> c[i] == d[i]
    ensures FiredUpTo(c, rule, start, end, n) == FiredUpTo(d, rule, start, end, n)
  {
    if n > 0 {
      FiredUpToAgree(c, d, rule, start, end, n - 1);
    }
  }

  /** Past key `m` of `c`, the pass continues with the pass over the keys `d` found there. */
  lemma {:induction false} FiredUpToShift(c: seq<Entry>, d: seq<Entry>, m: nat, rule: Rule, start: int, end: int, n: nat)
    requires m + n <= |c| && n <= |d|
    requires forall i :: 0 <= i < n ==> c[m + i] == d[i]
    ensures FiredUpTo(c, rule, start, end, m + n) == FiredUpTo(c, rule, start, end, m) + FiredUpTo(d, rule, start, end, n)
  {
    if n > 0 {
      FiredUpToShift(c, d, m, rule, start, end, n - 1);
      var before := FiredUpTo(c, rule, start, end, m);
      var told := Told(rule, d[n - 1], start, end);
      var rest := FiredUpTo(d, rule, start, end, n - 1);
      assert c[m + n - 1] == d[n - 1];
      assert FiredUpTo(c, rule, start, end, m + n) == (before + rest) + told;
      EventsAssoc(before, rest, told);
    }
  }

  /**
   * Key `k` contributes its whole listener list, in registration order,
   * between the events of the keys before it and those after it.
   */
  lemma FiredAtKey(entries: seq<Entry>, k: nat, rule: Rule, start: int, end: int)
    requires k < |entries|
    ensures Fired(entries, rule, start, end)
         == Fired(entries[..k], rule, start, end)
          + (if Triggers(rule, entries[k].key, start, end) then Updates(entries[k].ids) else [])
          + Fired(entries[k + 1..], rule, start, end)
  {
    var post := entries[k + 1..];
    var told := Told(rule, entries[k], start, end);
    FiredUpToShift(entries, post, k + 1, rule, start, end, |post|);
    assert FiredUpTo(entries, rule, start, end, k + 1) == FiredUpTo(entries, rule, start, end, k) + told;
    FiredUpToAgree(entries, entries[..k], rule, start, end, k);
  }

  lemma {:induction false} FiredUpToMembership(entries: seq<Entry>, rule: Rule, start: int, end: int, id: ListenerId, n: nat)
    requires n <= |entries|
    ensures UpdateData(id) in FiredUpTo(entries, rule, start, end, n)
        <==> exists k :: 0 <= k < n && Triggers(rule, entries[k].key, start, end) && id in entries[k].ids
  {
    if n > 0 {
      FiredUpToMembership(entries, rule, start, end, id, n - 1);
      var last := entries[n - 1];
      var u := Told(rule, last, start, end);
      assert UpdateData(id) in u <==> Triggers(rule, last.key, start, end) && id in last.ids by {
        if Triggers(rule, last.key, start, end) && id in last.ids {
          var i :| 0 <= i < |last.ids| && last.ids[i] == id;
          assert u[i] == UpdateData(id);
        }
      }
    }
  }

  /** A listener is told exactly when some key it is registered under triggers. */
  lemma FiredMembership(entries: seq<Entry>, rule: Rule, start: int, end: int, id: ListenerId)
    ensures UpdateData(id) in Fired(entries, rule, start, end)
        <==> exists k :: 0 <= k < |entries| && Triggers(rule, entries[k].key, start, end) && id in entries[k].ids
  {
    FiredUpToMembership(entries, rule, start, end, id, |entries|);
  }

  /** Everyone told about a loaded chunk would also be told about a write of that chunk. */
  lemma ChunkFiresWithinWrite(entries: seq<Entry>, start: int, end: int, id: ListenerId)
    requires UpdateData(id) in Fired(entries, AfterChunk, start, end)
    ensures UpdateData(id) in Fired(entries, AfterWrite, start, end)
  {
    FiredMembership(entries, AfterChunk, start, end, id);
    FiredMembership(entries, AfterWrite, start, end, id);
  }

  /** A listener just registered on a range hears every later change that triggers that range. */
  lemma RegisteredListenerFires(entries: seq<Entry>, key: Range, id: ListenerId, rule: Rule, start: int, end: int)
    requires ValidRegistry(entries)
    requires Triggers(rule, key, start, end)
    ensures UpdateData(id) in Fired(Register(entries, key, id), rule, start, end)
  {
    var r := Register(entries, key, id);
    assert key in Keys(r);
    var e :| e in r && e.key == key;
    var k :| 0 <= k < |r| && r[k] == e;
    LookupAt(r, k);
    assert id in r[k].ids by {
      RegisterLookup(entries, key, id, key);
    }
    FiredMembership(r, rule, start, end, id);
  }

  /**
   * Write of `[8, 12)` with listeners on `[0, 10)`, `[5, 15)` and `[20, 30)`:
   * the first two hear it, the third does not.
   */
  lemma WriteNotifiesOverlapping()
    ensures Fired([Entry(Range(0, 10), [1]), Entry(Range(5, 15), [2]), Entry(Range(20, 30), [3])], AfterWrite, 8, 12)
         == [UpdateData(1), UpdateData(2)]
  {
    var l := [Entry(Range(0, 10), [1]), Entry(Range(5, 15), [2]), Entry(Range(20, 30), [3])];
    assert Updates([1]) == [UpdateData(1)] && Updates([2]) == [UpdateData(2)];
    assert FiredUpTo(l, AfterWrite, 8, 12, 1) == [UpdateData(1)];
    assert FiredUpTo(l, AfterWrite, 8, 12, 2) == [UpdateData(1), UpdateData(2)];
  }

  /**
   * A listener on `[10, 20)` is not told about the chunk `[0, 15)` but is told
   * about the chunk `[0, 30)`, which reaches its end.
   */
  lemma ChunkNotifiesOnlyCompleted()
    ensures Fired([Entry(Range(10, 20), [7])], AfterChunk, 0, 15) == []
    ensures Fired([Entry(Range(10, 20), [7])], AfterChunk, 0, 30) == [UpdateData(7)]
  {
    var l := [Entry(Range(10, 20), [7])];
    assert Updates([7]) == [UpdateData(7)];
    assert FiredUpTo(l, AfterChunk, 0, 15, 1) == FiredUpTo(l, AfterChunk, 0, 15, 0) + Told(AfterChunk, l[0], 0, 15);
    assert FiredUpTo(l, AfterChunk, 0, 30, 1) == FiredUpTo(l, AfterChunk, 0, 30, 0) + Told(AfterChunk, l[0], 0, 30);
  }
}
