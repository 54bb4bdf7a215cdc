/**
 The publish throttle of the event bus: at most one event per key and interval,
 remembered in a map that is pruned by age and capped in size. The laws compare
 it with the same throttle over a map that never forgets.
 */
module Throttle {
  const SCAN_THRESHOLD: nat := 256
  const STALE_INTERVALS: real := 20.0
  const MAX_ENTRIES: nat := 1024

  /** The map of last emissions together with its insertion order. */
  datatype Table = Table(seen: map<string, real>, order: seq<string>)

  ghost predicate Distinct(order: seq<string>) {
    order == [] || (order[|order| - 1] !in order[..|order| - 1] && Distinct(order[..|order| - 1]))
  }

  ghost predicate Valid(t: Table) {
    (forall k :: k in t.seen <==> k in t.order) && Distinct(t.order)
  }

  const EMPTY := Table(map[], [])

  function Max(a: int, b: int): int { if a < b then b else a }

  function Interval(hz: int): (interval: real)
    ensures 0.0 < interval <= 1.0
  {
    1.0 / Max(hz, 1) as real
  }

  // ---------- the dictionary ----------

  /** Reading a default dictionary: an absent key is inserted with value zero. */
  function Touch(t: Table, key: string): Table {
    if key in t.seen then t else Table(t.seen[key := 0.0], t.order + [key])
  }

  function Put(t: Table, key: string, now: real): Table {
    Table(t.seen[key := now], if key in t.seen then t.order else t.order + [key])
  }

  function Remove(order: seq<string>, key: string): seq<string> {
    if order == [] then []
    else Remove(order[..|order| - 1], key) + (if order[|order| - 1] == key then [] else [order[|order| - 1]])
  }

  function Without(t: Table, key: string): Table {
    Table(t.seen - {key}, Remove(t.order, key))
  }

  function WithoutAll(t: Table, keys: seq<string>): Table {
    if keys == [] then t else Without(WithoutAll(t, keys[..|keys| - 1]), keys[|keys| - 1])
  }

  // ---------- eviction ----------

  function Stale(t: Table, order: seq<string>, cutoff: real): seq<string> {
    if order == [] then []
    else
      var key := order[|order| - 1];
      Stale(t, order[..|order| - 1], cutoff) + (if key in t.seen && t.seen[key] < cutoff then [key] else [])
  }

  /** Of the keys seen longest ago, the one inserted first. */
  function Oldest(t: Table, order: seq<string>): (key: string)
    requires order != [] && forall k :: k in order ==> k in t.seen
    ensures key in order && forall k :: k in order ==> t.seen[key] <= t.seen[k]
  {
    var last := order[|order| - 1];
    if |order| == 1 then last
    else
      var best := Oldest(t, order[..|order| - 1]);
      assert forall k :: k in order ==> k in order[..|order| - 1] || k == last;
      if t.seen[last] < t.seen[best] then last else best
  }

  /** The first `n` keys of a stable sort by last emission. */
  function OldestFirst(t: Table, n: nat): seq<string>
    requires Valid(t) && n <= |t.seen|
    decreases n
  {
    if n == 0 then []
    else
      NonEmpty(t);
      var key := Oldest(t, t.order);
      WithoutIsValid(t, key);
      [key] + OldestFirst(Without(t, key), n - 1)
  }

  function Evict(t: Table, now: real, interval: real): Table
    requires Valid(t)
  {
    if |t.seen| < SCAN_THRESHOLD then t
    else
      var aged := Aged(t, now, interval);
      AgedIsValid(t, now, interval);
      var excess := |aged.seen| - MAX_ENTRIES;
      if excess > 0 then WithoutAll(aged, OldestFirst(aged, excess)) else aged
  }

  /** Entries seen before this moment are dead. */
  function Cutoff(now: real, interval: real): real {
    now - (if interval < 0.0 then 0.0 else interval) * STALE_INTERVALS
  }

  function Aged(t: Table, now: real, interval: real): Table {
    WithoutAll(t, Stale(t, t.order, Cutoff(now, interval)))
  }

  /** One throttled call: the table afterwards and whether the event goes out. */
  function Publish(t: Table, key: string, now: real, interval: real): (Table, bool)
    requires Valid(t)
  {
    var read := Touch(t, key);
    if now - read.seen[key] < interval then (read, false)
    else
      PutIsValid(t, key, now);
      (Evict(Put(t, key, now), now, interval), true)
  }

  lemma NonEmpty(t: Table)
    requires Valid(t) && |t.seen| > 0
    ensures t.order != []
  {
    var k :| k in t.seen.Keys;
    assert k in t.order;
  }

  lemma AppendDistinct(order: seq<string>, key: string)
    requires Distinct(order) && key !in order
    ensures Distinct(order + [key])
  {
    assert (order + [key])[..|order|] == order;
  }

  lemma {:induction false} RemoveKeepsOrder(order: seq<string>, key: string)
    requires Distinct(order)
    ensures Distinct(Remove(order, key)) && forall k :: k in Remove(order, key) <==> k in order && k != key
    decreases |order|
  {
    if order != [] {
      var init, last := order[..|order| - 1], order[|order| - 1];
      assert order == init + [last];
      RemoveKeepsOrder(init, key);
      var kept := Remove(init, key);
      assert Remove(order, key) == if last == key then kept else kept + [last];
      hide Remove;
      if last != key {
        AppendDistinct(kept, last);
      }
    }
  }

  lemma WithoutIsValid(t: Table, key: string)
    requires Valid(t)
    ensures Valid(Without(t, key)) && (key in t.seen ==> |Without(t, key).seen| == |t.seen| - 1)
    ensures (key !in t.seen ==> Without(t, key).seen == t.seen)
  {
    hide Remove, Distinct;
    RemoveKeepsOrder(t.order, key);
    assert (t.seen - {key}).Keys == t.seen.Keys - {key};
    assert |t.seen| == |t.seen.Keys| && |t.seen - {key}| == |(t.seen - {key}).Keys|;
  }

  lemma PutIsValid(t: Table, key: string, now: real)
    requires Valid(t)
    ensures Valid(Put(t, key, now)) && Valid(Touch(t, key))
    ensures |Put(t, key, now).seen| == |Touch(t, key).seen| == if key in t.seen then |t.seen| else |t.seen| + 1
  {
    if key !in t.seen {
      AppendDistinct(t.order, key);
    }
    assert Put(t, key, now).seen.Keys == t.seen.Keys + {key} == Touch(t, key).seen.Keys;
    assert |Put(t, key, now).seen| == |Put(t, key, now).seen.Keys|;
  }

  /** Deleting a list of keys deletes them and nothing else. */
  lemma {:induction false} WithoutAllIsExact(t: Table, keys: seq<string>)
    requires Valid(t)
    ensures Valid(WithoutAll(t, keys))
    ensures forall k :: k in WithoutAll(t, keys).seen <==> k in t.seen && k !in keys
    ensures forall k :: k in WithoutAll(t, keys).seen ==> WithoutAll(t, keys).seen[k] == t.seen[k]
    decreases |keys|
  {
    hide Valid;
    if keys != [] {
      var init, last := keys[..|keys| - 1], keys[|keys| - 1];
      assert keys == init + [last];
      WithoutAllIsExact(t, init);
      WithoutIsValid(WithoutAll(t, init), last);
    }
  }

  lemma {:induction false} StaleIsExact(t: Table, order: seq<string>, cutoff: real)
    ensures forall k :: k in Stale(t, order, cutoff) <==> k in order && k in t.seen && t.seen[k] < cutoff
    decreases |order|
  {
    if order != [] {
      assert order == order[..|order| - 1] + [order[|order| - 1]];
      StaleIsExact(t, order[..|order| - 1], cutoff);
    }
  }

  /** The age pass drops exactly the entries idle for more than twenty intervals. */
  lemma AgedIsValid(t: Table, now: real, interval: real)
    requires Valid(t)
    ensures Valid(Aged(t, now, interval))
    ensures forall k :: k in Aged(t, now, interval).seen <==> k in t.seen && t.seen[k] >= Cutoff(now, interval)
    ensures Cutoff(now, interval) == if interval > 0.0 then now - 20.0 * interval else now
    ensures forall k :: k in Aged(t, now, interval).seen ==> Aged(t, now, interval).seen[k] == t.seen[k]
    ensures |Aged(t, now, interval).seen| <= |t.seen|
  {
    hide WithoutAll, Stale;
    StaleIsExact(t, t.order, Cutoff(now, interval));
    WithoutAllIsExact(t, Stale(t, t.order, Cutoff(now, interval)));
    FewerKeys(Aged(t, now, interval).seen, t.seen);
  }

  lemma FewerKeys(a: map<string, real>, b: map<string, real>)
    requires forall k :: k in a ==> k in b
    ensures |a| <= |b|
  {
    assert a.Keys <= b.Keys;
    SubsetSize(a.Keys, b.Keys);
  }

  lemma {:induction false} SubsetSize(a: set<string>, b: set<string>)
    requires a <= b
    ensures |a| <= |b|
  {
    assert b == a + (b - a);
  }

  lemma WithoutAllFirst(t: Table, key: string, keys: seq<string>)
    ensures WithoutAll(t, [key] + keys) == WithoutAll(Without(t, key), keys)
    decreases |keys|
  {
    var all := [key] + keys;
    if keys != [] {
      assert all[..|all| - 1] == [key] + keys[..|keys| - 1];
      WithoutAllFirst(t, key, keys[..|keys| - 1]);
    } else {
      assert all[..0] == [];
    }
  }

  /** The size pass drops exactly `n` entries, none of them newer than one it keeps. */
  lemma {:induction false} SizePassDropsTheOldest(t: Table, n: nat)
    requires Valid(t) && n <= |t.seen|
    ensures var kept := WithoutAll(t, OldestFirst(t, n));
            && Valid(kept) && |kept.seen| == |t.seen| - n
            && (forall k :: k in kept.seen ==> k in t.seen && kept.seen[k] == t.seen[k])
            && (forall k, d :: k in kept.seen && d in t.seen && d !in kept.seen ==> t.seen[d] <= t.seen[k])
    decreases n
  {
    hide WithoutAll, Without, Oldest, Valid;
    if n > 0 {
      var key := PopOldest(t);
      var rest := Without(t, key);
      SizePassDropsTheOldest(rest, n - 1);
      WithoutAllFirst(t, key, OldestFirst(rest, n - 1));
      SeenWithout(t, key);
    } else {
      WithoutNone(t);
    }
  }

  lemma PopOldest(t: Table) returns (key: string)
    requires Valid(t) && |t.seen| > 0
    ensures t.order != [] && (forall k :: k in t.order ==> k in t.seen) && key == Oldest(t, t.order)
    ensures key in t.seen && forall k :: k in t.seen ==> t.seen[key] <= t.seen[k]
    ensures Valid(Without(t, key)) && |Without(t, key).seen| == |t.seen| - 1
  {
    NonEmpty(t);
    key := Oldest(t, t.order);
    WithoutIsValid(t, key);
  }

  lemma WithoutNone(t: Table)
    ensures WithoutAll(t, []) == t
  {
  }

  lemma SeenWithout(t: Table, key: string)
    ensures Without(t, key).seen == t.seen - {key}
  {
  }

  /** After eviction the map is at most as large as before, and within the ceiling once it was scanned. */
  lemma EvictIsBounded(t: Table, now: real, interval: real)
    requires Valid(t)
    ensures Valid(Evict(t, now, interval)) && |Evict(t, now, interval).seen| <= MAX_ENTRIES
    ensures forall k :: k in Evict(t, now, interval).seen ==> k in t.seen && Evict(t, now, interval).seen[k] == t.seen[k]
  {
    hide Valid, Aged, OldestFirst, WithoutAll;
    AgedIsValid(t, now, interval);
    var aged := Aged(t, now, interval);
    if |t.seen| >= SCAN_THRESHOLD && |aged.seen| > MAX_ENTRIES {
      SizePassDropsTheOldest(aged, |aged.seen| - MAX_ENTRIES);
    }
  }

  lemma PublishIsValid(t: Table, key: string, now: real, interval: real)
    requires Valid(t)
    ensures Valid(Publish(t, key, now, interval).0)
  {
    hide Valid, Put, Touch, Evict;
    PutIsValid(t, key, now);
    EvictIsBounded(Put(t, key, now), now, interval);
  }

  // ---------- the bus ----------

  class RedisBus {
    const hz: int
    var lastEmit: map<string, real>
    var order: seq<string>

    ghost function Abs(): Table
      reads this
    {
      Table(lastEmit, order)
    }

    constructor (hz: int)
      ensures this.hz == hz && Abs() == EMPTY && Valid(Abs())
    {
      this.hz := hz;
      lastEmit, order := map[], [];
    }

    method Delete(keys: seq<string>)
      requires Valid(Abs())
      modifies this
      ensures Valid(Abs()) && Abs() == WithoutAll(old(Abs()), keys)
    {
      hide Valid, Remove;
      WithoutNone(Abs());
      for i := 0 to |keys|
        invariant Valid(Abs()) && Abs() == WithoutAll(old(Abs()), keys[..i])
      {
        assert keys[..i + 1][..i] == keys[..i];
        WithoutIsValid(Abs(), keys[i]);
        lastEmit := lastEmit - {keys[i]};
        order := Remove(order, keys[i]);
      }
      assert keys[..|keys|] == keys;
    }

    method EvictStaleThrottleKeys(now: real, interval: real)
      requires Valid(Abs())
      modifies this
      ensures Valid(Abs()) && Abs() == Evict(old(Abs()), now, interval)
    {
      hide Valid, WithoutAll, OldestFirst;
      if |lastEmit| < SCAN_THRESHOLD {
        return;
      }
      AgedIsValid(Abs(), now, interval);
      var cutoff := Cutoff(now, interval);
      var stale := [];
      for i := 0 to |order|
        invariant Abs() == old(Abs()) && stale == Stale(Abs(), order[..i], cutoff)
      {
        assert order[..i + 1][..i] == order[..i];
        if order[i] in lastEmit && lastEmit[order[i]] < cutoff {
          stale := stale + [order[i]];
        }
      }
      assert order[..|order|] == order;
      Delete(stale);
      var excess := |lastEmit| - MAX_ENTRIES;
      if excess > 0 {
        var oldest := OldestFirst(Table(lastEmit, order), excess);
        Delete(oldest);
      }
    }

    /** Whether the event goes out; an event without a throttle key always does. */
    method PublishEvent(taskId: string, throttleKey: string, now: real) returns (published: bool)
      requires Valid(Abs())
      modifies this
      ensures Valid(Abs())
      ensures if throttleKey == "" then published && Abs() == old(Abs())
              else (Abs(), published) == Publish(old(Abs()), taskId + ":" + throttleKey, now, Interval(hz))
    {
      hide Valid, Evict;
      if throttleKey != "" {
        var interval := Interval(hz);
        var key := taskId + ":" + throttleKey;
        PutIsValid(Abs(), key, now);
        PublishIsValid(Abs(), key, now, interval);
        if key !in lastEmit {
          lastEmit, order := lastEmit[key := 0.0], order + [key];
        }
        if now - lastEmit[key] < interval {
          return false;
        }
        lastEmit := lastEmit[key := now];
        assert Abs() == Put(old(Abs()), key, now);
        EvictStaleThrottleKeys(now, interval);
      }
      published := true;
    }
  }

  // ---------- runs, and the map that never forgets ----------

  datatype Call = Call(key: string, now: real)

  function Run(calls: seq<Call>, interval: real): (t: Table)
    ensures Valid(t)
  {
    if calls == [] then EMPTY
    else
      var before, call := Run(calls[..|calls| - 1], interval), calls[|calls| - 1];
      PublishIsValid(before, call.key, call.now, interval);
      Publish(before, call.key, call.now, interval).0
  }

  function Decision(calls: seq<Call>, interval: real, i: nat): bool
    requires i < |calls|
  {
    Publish(Run(calls[..i], interval), calls[i].key, calls[i].now, interval).1
  }

  /** The same throttle without eviction. */
  function Remember(seen: map<string, real>, key: string, now: real, interval: real): (map<string, real>, bool) {
    var last := if key in seen then seen[key] else 0.0;
    if now - last < interval then (seen[key := last], false) else (seen[key := now], true)
  }

  function Remembered(calls: seq<Call>, interval: real): map<string, real> {
    if calls == [] then map[]
    else
      var call := calls[|calls| - 1];
      Remember(Remembered(calls[..|calls| - 1], interval), call.key, call.now, interval).0
  }

  function Reference(calls: seq<Call>, interval: real, i: nat): bool
    requires i < |calls|
  {
    Remember(Remembered(calls[..i], interval), calls[i].key, calls[i].now, interval).1
  }

  ghost predicate Monotone(calls: seq<Call>) {
    && (forall i :: 0 <= i < |calls| ==> calls[i].now >= 0.0)
    && (forall i, j :: 0 <= i <= j < |calls| ==> calls[i].now <= calls[j].now)
  }

  /** The size pass had nothing to do on any call. */
  ghost predicate Calm(calls: seq<Call>, interval: real) {
    forall i :: 0 <= i < |calls| ==> CalmCall(Run(calls[..i], interval), calls[i], interval)
  }

  ghost predicate CalmCall(t: Table, call: Call, interval: real) {
    |Aged(Put(t, call.key, call.now), call.now, interval).seen| <= MAX_ENTRIES
  }

  /** What the pruned map still holds is what the other remembers; what it dropped can no longer suppress. */
  ghost predicate Agree(t: Table, seen: map<string, real>, now: real, interval: real) {
    && (forall k :: k in seen ==> 0.0 <= seen[k])
    && (forall k :: k in t.seen ==> k in seen && t.seen[k] == seen[k])
    && (forall k :: k in seen && k !in t.seen ==> seen[k] + interval <= now)
  }

  /** Both throttles decide alike on a key they agree about. */
  lemma AgreeDecision(t: Table, seen: map<string, real>, now: real, key: string, at: real, interval: real)
    requires Agree(t, seen, now, interval) && interval > 0.0 && 0.0 <= now <= at
    ensures at - Touch(t, key).seen[key] < interval <==> !Remember(seen, key, at, interval).1
  {
  }

  lemma AgreeSuppressed(t: Table, seen: map<string, real>, now: real, key: string, at: real, interval: real)
    requires Agree(t, seen, now, interval) && interval > 0.0 && 0.0 <= now <= at
    requires !Remember(seen, key, at, interval).1
    ensures Agree(Touch(t, key), Remember(seen, key, at, interval).0, at, interval)
  {
  }

  /** After a publish, what the age pass drops lies more than an interval back. */
  lemma AgreePublished(t: Table, aged: Table, seen: map<string, real>, now: real, key: string, at: real, interval: real)
    requires Agree(t, seen, now, interval) && interval > 0.0 && 0.0 <= now <= at
    requires forall k :: k in aged.seen <==> k in Put(t, key, at).seen && Put(t, key, at).seen[k] >= Cutoff(at, interval)
    requires forall k :: k in aged.seen ==> aged.seen[k] == Put(t, key, at).seen[k]
    ensures Agree(Put(t, key, at), seen[key := at], at, interval) && Agree(aged, seen[key := at], at, interval)
  {
  }

  lemma EvictsByAge(t: Table, now: real, interval: real)
    requires Valid(t) && |Aged(t, now, interval).seen| <= MAX_ENTRIES
    ensures Evict(t, now, interval) == if |t.seen| < SCAN_THRESHOLD then t else Aged(t, now, interval)
  {
  }

  lemma AgreeStep(t: Table, seen: map<string, real>, now: real, call: Call, interval: real)
    requires Valid(t) && Agree(t, seen, now, interval) && interval > 0.0 && 0.0 <= now <= call.now
    requires CalmCall(t, call, interval)
    ensures Publish(t, call.key, call.now, interval).1 == Remember(seen, call.key, call.now, interval).1
    ensures Agree(Publish(t, call.key, call.now, interval).0, Remember(seen, call.key, call.now, interval).0, call.now, interval)
  {
    hide Valid, Aged, Agree, Put, Touch, Cutoff, Evict;
    PutIsValid(t, call.key, call.now);
    AgreeDecision(t, seen, now, call.key, call.now, interval);
    if Remember(seen, call.key, call.now, interval).1 {
      var put := Put(t, call.key, call.now);
      AgedIsValid(put, call.now, interval);
      EvictsByAge(put, call.now, interval);
      AgreePublished(t, Aged(put, call.now, interval), seen, now, call.key, call.now, interval);
    } else {
      AgreeSuppressed(t, seen, now, call.key, call.now, interval);
    }
  }

  lemma {:induction false} AgreeRun(calls: seq<Call>, interval: real, now: real)
    requires interval > 0.0 && Monotone(calls) && Calm(calls, interval)
    requires if calls == [] then now == 0.0 else now == calls[|calls| - 1].now
    ensures now >= 0.0 && Agree(Run(calls, interval), Remembered(calls, interval), now, interval)
    decreases |calls|
  {
    hide Agree, CalmCall, Publish, Remember;
    if calls != [] {
      var before := calls[..|calls| - 1];
      assert forall i :: 0 <= i < |before| ==> before[..i] == calls[..i];
      var earlier := if before == [] then 0.0 else before[|before| - 1].now;
      AgreeRun(before, interval, earlier);
      AgreeStep(Run(before, interval), Remembered(before, interval), earlier, calls[|calls| - 1], interval);
    } else {
      AgreeEmpty(interval);
    }
  }

  lemma AgreeEmpty(interval: real)
    ensures Agree(EMPTY, map[], 0.0, interval)
  {
  }

  /** With a monotone clock and the ceiling out of reach, eviction changes no decision. */
  lemma EvictionNeverChangesADecision(calls: seq<Call>, interval: real, i: nat)
    requires interval > 0.0 && Monotone(calls) && Calm(calls, interval) && i < |calls|
    ensures Decision(calls, interval, i) == Reference(calls, interval, i)
  {
    hide Agree, CalmCall, Publish, Remember;
    var before := calls[..i];
    assert forall j :: 0 <= j < |before| ==> before[..j] == calls[..j];
    var earlier := if before == [] then 0.0 else before[|before| - 1].now;
    AgreeRun(before, interval, earlier);
    AgreeStep(Run(before, interval), Remembered(before, interval), earlier, calls[i], interval);
  }

  // ---------- what is published ----------

  /** Call `j` is a publish of `key`. */
  ghost predicate Emits(calls: seq<Call>, interval: real, key: string, j: nat)
    requires j < |calls|
  {
    calls[j].key == key && Reference(calls, interval, j)
  }

  /** The remembered time is the last publish of the key, or zero. */
  lemma {:induction false} RememberedIsLastPublish(calls: seq<Call>, interval: real, key: string)
    requires Monotone(calls)
    ensures IsLastPublish(calls, interval, key, LastSeen(Remembered(calls, interval), key))
    decreases |calls|
  {
    hide Monotone, IsLastPublish, LastSeen, Remembered, Emits;
    if calls != [] {
      var n := |calls| - 1;
      MonotonePrefix(calls, n);
      RememberedIsLastPublish(calls[..n], interval, key);
      LastSeenStep(calls, interval, key);
      LastPublishStep(calls, interval, key, LastSeen(Remembered(calls[..n], interval), key));
    } else {
      NothingRemembered(interval, key);
    }
  }

  /** The last emission a map remembers for a key, or zero. */
  function LastSeen(seen: map<string, real>, key: string): real {
    if key in seen then seen[key] else 0.0
  }

  /** No publish of the key is later than `last`, which is one of them or zero. */
  ghost predicate IsLastPublish(calls: seq<Call>, interval: real, key: string, last: real) {
    && (forall j :: 0 <= j < |calls| && Emits(calls, interval, key, j) ==> calls[j].now <= last)
    && (last == 0.0 || exists j :: 0 <= j < |calls| && Emits(calls, interval, key, j) && calls[j].now == last)
  }

  lemma NothingRemembered(interval: real, key: string)
    ensures IsLastPublish([], interval, key, LastSeen(Remembered([], interval), key))
  {
  }

  lemma LastSeenStep(calls: seq<Call>, interval: real, key: string)
    requires calls != []
    ensures var n := |calls| - 1;
            LastSeen(Remembered(calls, interval), key)
            == if Emits(calls, interval, key, n) then calls[n].now else LastSeen(Remembered(calls[..n], interval), key)
  {
  }

  lemma EmitsBefore(calls: seq<Call>, interval: real, key: string, n: nat)
    requires n <= |calls|
    ensures forall j :: 0 <= j < n ==> calls[..n][j] == calls[j]
    ensures forall j :: 0 <= j < n ==> (Emits(calls, interval, key, j) <==> Emits(calls[..n], interval, key, j))
  {
    hide Remembered;
    forall j | 0 <= j < n ensures Emits(calls, interval, key, j) <==> Emits(calls[..n], interval, key, j) {
      assert calls[..n][..j] == calls[..j];
    }
  }

  lemma LastPublishStep(calls: seq<Call>, interval: real, key: string, last: real)
    requires calls != [] && Monotone(calls) && IsLastPublish(calls[..|calls| - 1], interval, key, last)
    ensures var n := |calls| - 1;
            IsLastPublish(calls, interval, key, if Emits(calls, interval, key, n) then calls[n].now else last)
  {
    hide Emits, Monotone;
    var n := |calls| - 1;
    EmitsBefore(calls, interval, key, n);
    if Emits(calls, interval, key, n) {
      forall j | 0 <= j < |calls| ensures calls[j].now <= calls[n].now {
        InTime(calls, j, n);
      }
    } else if last != 0.0 {
      var j :| 0 <= j < n && Emits(calls[..n], interval, key, j) && calls[..n][j].now == last;
      assert Emits(calls, interval, key, j) && calls[j].now == last;
    }
  }

  lemma MonotonePrefix(calls: seq<Call>, n: nat)
    requires Monotone(calls) && n <= |calls|
    ensures Monotone(calls[..n])
  {
  }

  lemma InTime(calls: seq<Call>, i: nat, j: nat)
    requires Monotone(calls) && i <= j < |calls|
    ensures 0.0 <= calls[i].now <= calls[j].now
  {
  }

  /**
   An event goes out exactly when the clock is one interval past zero and every
   earlier publish of its key lies at least one interval back.
   */
  lemma PublishedExactlyWhenDue(calls: seq<Call>, interval: real, j: nat)
    requires interval > 0.0 && Monotone(calls) && Calm(calls, interval) && j < |calls|
    ensures Decision(calls, interval, j) <==>
            && calls[j].now >= interval
            && forall i :: 0 <= i < j && calls[i].key == calls[j].key && Decision(calls, interval, i) ==>
                             calls[j].now - calls[i].now >= interval
  {
    hide Decision, Calm, Monotone, Remembered;
    var key, before := calls[j].key, calls[..j];
    EvictionNeverChangesADecision(calls, interval, j);
    MonotonePrefix(calls, j);
    RememberedIsLastPublish(before, interval, key);
    var last := LastSeen(Remembered(before, interval), key);
    forall i | 0 <= i < j ensures Decision(calls, interval, i) && calls[i].key == key <==> Emits(before, interval, key, i) {
      EvictionNeverChangesADecision(calls, interval, i);
      SamePrefix(calls, j, i);
      hide Reference;
    }
    forall i | 0 <= i < j ensures calls[i] == before[i] && 0.0 <= calls[i].now {
      InTime(calls, i, i);
    }
    assert last >= 0.0;
    hide Emits;
    assert Reference(calls, interval, j) <==> calls[j].now - last >= interval;
  }

  lemma SamePrefix(calls: seq<Call>, n: nat, i: nat)
    requires i < n <= |calls|
    ensures calls[..n][..i] == calls[..i] && calls[..n][i] == calls[i]
  {
  }

  // ---------- a condition the caller can check ----------

  function KeysOf(calls: seq<Call>): set<string> {
    set i | 0 <= i < |calls| :: calls[i].key
  }

  lemma KeysOfPrefix(calls: seq<Call>, n: nat)
    requires n <= |calls|
    ensures KeysOf(calls[..n]) <= KeysOf(calls) && forall i :: 0 <= i < |calls| ==> calls[i].key in KeysOf(calls)
  {
    forall key | key in KeysOf(calls[..n]) ensures key in KeysOf(calls) {
      var i :| 0 <= i < n && calls[..n][i].key == key;
      assert calls[i].key == key;
    }
  }

  lemma PublishKeys(t: Table, key: string, now: real, interval: real)
    requires Valid(t)
    ensures Publish(t, key, now, interval).0.seen.Keys <= t.seen.Keys + {key}
  {
    hide Valid, Evict;
    PutIsValid(t, key, now);
    EvictIsBounded(Put(t, key, now), now, interval);
  }

  /** The map only ever holds keys that were called. */
  lemma {:induction false} RunKeys(calls: seq<Call>, interval: real)
    ensures Run(calls, interval).seen.Keys <= KeysOf(calls)
    decreases |calls|
  {
    hide Publish, KeysOf;
    if calls != [] {
      var n := |calls| - 1;
      RunKeys(calls[..n], interval);
      KeysOfPrefix(calls, n);
      PublishKeys(Run(calls[..n], interval), calls[n].key, calls[n].now, interval);
    }
  }

  /** With no more keys than the map may hold, the size pass never has anything to do. */
  lemma FewKeysAreCalm(calls: seq<Call>, interval: real)
    requires |KeysOf(calls)| <= MAX_ENTRIES
    ensures Calm(calls, interval)
  {
    hide Run, Valid, Aged, KeysOf;
    forall i | 0 <= i < |calls| ensures CalmCall(Run(calls[..i], interval), calls[i], interval) {
      var t := Run(calls[..i], interval);
      RunKeys(calls[..i], interval);
      KeysOfPrefix(calls, i);
      var put := Put(t, calls[i].key, calls[i].now);
      PutIsValid(t, calls[i].key, calls[i].now);
      AgedIsValid(put, calls[i].now, interval);
      assert put.seen.Keys <= KeysOf(calls);
      SubsetSize(put.seen.Keys, KeysOf(calls));
      assert |put.seen| == |put.seen.Keys|;
    }
  }

  /**
   With a monotone clock and at most 1024 different keys, the bus decides every
   call as a map that never forgets would, and publishes exactly when due.
   */
  lemma FewKeysThrottleExactly(calls: seq<Call>, interval: real, j: nat)
    requires interval > 0.0 && Monotone(calls) && |KeysOf(calls)| <= MAX_ENTRIES && j < |calls|
    ensures Decision(calls, interval, j) == Reference(calls, interval, j)
    ensures Decision(calls, interval, j) <==>
            && calls[j].now >= interval
            && forall i :: 0 <= i < j && calls[i].key == calls[j].key && Decision(calls, interval, i) ==>
                             calls[j].now - calls[i].now >= interval
  {
    hide Decision, Reference, Calm, Monotone, KeysOf;
    FewKeysAreCalm(calls, interval);
    EvictionNeverChangesADecision(calls, interval, j);
    PublishedExactlyWhenDue(calls, interval, j);
  }

  // ---------- the size of the map ----------

  /** One call takes the map over its ceiling only by suppressing a key it had not seen, in the first interval after zero. */
  lemma CeilingStep(t: Table, key: string, now: real, interval: real)
    requires Valid(t) && interval > 0.0 && |t.seen| <= MAX_ENTRIES
    ensures |Publish(t, key, now, interval).0.seen| <= MAX_ENTRIES
            <==> !(now < interval && key !in t.seen && |t.seen| == MAX_ENTRIES)
  {
    hide Valid, Evict;
    PutIsValid(t, key, now);
    EvictIsBounded(Put(t, key, now), now, interval);
  }

  /** Once the clock is one interval past zero the map never exceeds its ceiling between calls. */
  lemma {:induction false} MapStaysUnderTheCeiling(calls: seq<Call>, interval: real)
    requires interval > 0.0 && forall i :: 0 <= i < |calls| ==> calls[i].now >= interval
    ensures |Run(calls, interval).seen| <= MAX_ENTRIES
    decreases |calls|
  {
    hide Publish;
    if calls != [] {
      var before, call := calls[..|calls| - 1], calls[|calls| - 1];
      MapStaysUnderTheCeiling(before, interval);
      CeilingStep(Run(before, interval), call.key, call.now, interval);
    }
  }

  /** `n` calls at time zero, each with its own key. */
  function Burst(n: nat): (calls: seq<Call>)
    ensures |calls| == n
  {
    if n == 0 then [] else Burst(n - 1) + [Call(seq(n, _ => 'a'), 0.0)]
  }

  lemma SuppressedFirstCall(t: Table, key: string, interval: real)
    requires Valid(t) && interval > 0.0 && key !in t.seen
    ensures Publish(t, key, 0.0, interval).0 == Touch(t, key) && |Touch(t, key).seen| == |t.seen| + 1
  {
    hide Valid, Evict;
    PutIsValid(t, key, 0.0);
  }

  /** Before that there is no bound: every first call for a key is suppressed and leaves an entry behind. */
  lemma {:induction false} NoCeilingInTheFirstInterval(n: nat, interval: real)
    requires interval > 0.0
    ensures |Run(Burst(n), interval).seen| == n
    ensures forall k :: k in Run(Burst(n), interval).seen ==> |k| <= n
  {
    hide Publish, Valid;
    if n > 0 {
      NoCeilingInTheFirstInterval(n - 1, interval);
      var call := Call(seq(n, _ => 'a'), 0.0);
      assert Burst(n)[..n - 1] == Burst(n - 1) && Burst(n)[n - 1] == call;
      var before := Run(Burst(n - 1), interval);
      assert |call.key| == n;
      SuppressedFirstCall(before, call.key, interval);
    }
  }
}
