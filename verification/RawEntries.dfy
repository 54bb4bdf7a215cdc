/**
 From the stored transcript to its chunks: which raw entries speak, in which
 order, and that the chunks say exactly what those entries say.
 */
module RawEntries {
  import opened Wrappers
  import opened Text
  import opened Splitting
  import opened Chunking
  import opened ChunkLaws

  /** A raw entry with both times and at least one word. */
  ghost predicate Speaks(raw: RawEntry) {
    raw.start.Some? && raw.end.Some? && Words(raw.text) != []
  }

  /** Who a raw entry says is speaking: an empty name is no name. */
  ghost function VoiceOf(raw: RawEntry): Option<string> {
    if raw.speaker == Some("") then None else raw.speaker
  }

  /** The entry says what the raw entry says: same start, no end before it, same words, same voice. */
  ghost predicate Becomes(raw: RawEntry, e: Entry) {
    && Speaks(raw)
    && e.start == raw.start.value
    && e.end == (if raw.end.value < raw.start.value then raw.start.value else raw.end.value)
    && Words(e.text) == Words(raw.text)
    && e.speaker == VoiceOf(raw)
  }

  /** Entry i comes before entry j: it starts earlier, or at the same time and is stored earlier. */
  ghost predicate Before(raw: seq<RawEntry>, i: nat, j: nat) {
    && i < |raw| && j < |raw| && raw[i].start.Some? && raw[j].start.Some?
    && (raw[i].start.value < raw[j].start.value || (raw[i].start.value == raw[j].start.value && i < j))
  }

  ghost predicate InOrder(raw: seq<RawEntry>, order: seq<nat>) {
    forall j, k :: 0 <= j < k < |order| ==> Before(raw, order[j], order[k])
  }

  /** Every position is below i. */
  ghost predicate Below(order: seq<nat>, i: nat) {
    forall k :: 0 <= k < |order| ==> order[k] < i
  }

  /** The positions of the raw entries that speak, all of them, in time order and stable. */
  ghost predicate SpeakingOrder(raw: seq<RawEntry>, order: seq<nat>) {
    && Below(order, |raw|) && InOrder(raw, order)
    && (forall k :: 0 <= k < |order| ==> Speaks(raw[order[k]]))
    && forall i :: 0 <= i < |raw| && Speaks(raw[i]) ==> i in order
  }

  ghost predicate Paired(raw: seq<RawEntry>, order: seq<nat>, entries: seq<Entry>) {
    && |order| == |entries|
    && forall k :: 0 <= k < |order| ==> order[k] < |raw| && Becomes(raw[order[k]], entries[k])
  }

  // ---------- one raw entry ----------

  lemma UsableBecomes(raw: RawEntry)
    ensures Usable(raw).Some? == Speaks(raw)
    ensures Usable(raw).Some? ==> Becomes(raw, Usable(raw).value)
  {
    hide Words, Normalize;
    NormalizeTidy(raw.text);
    NormalizeEmpty(raw.text);
  }

  lemma NormalizeEmpty(s: string)
    ensures Normalize(s) == "" <==> Words(s) == []
  {
    NormalizeTidy(s);
    if Normalize(s) == "" {
      assert Words("") == [];
    }
  }

  // ---------- filtering keeps the stored order ----------

  ghost predicate Rising(order: seq<nat>) {
    forall j, k :: 0 <= j < k < |order| ==> order[j] < order[k]
  }

  ghost function Shifted(order: seq<nat>): (r: seq<nat>)
    ensures |r| == |order| && forall k :: 0 <= k < |r| ==> r[k] == order[k] + 1
  {
    seq(|order|, k requires 0 <= k < |order| => order[k] + 1)
  }

  /** The positions that speak, in stored order. */
  ghost predicate Kept(raw: seq<RawEntry>, order: seq<nat>) {
    && Rising(order)
    && (forall k :: 0 <= k < |order| ==> order[k] < |raw| && Speaks(raw[order[k]]))
    && forall i :: 0 <= i < |raw| && Speaks(raw[i]) ==> i in order
  }

  lemma KeptCons(first: RawEntry, rest: seq<RawEntry>, order: seq<nat>)
    requires Kept(rest, order)
    ensures Kept([first] + rest, (if Speaks(first) then [0] else []) + Shifted(order))
  {
    hide Speaks;
    var raw, front := [first] + rest, if Speaks(first) then [0] else [];
    forall i | 0 <= i < |raw| && Speaks(raw[i]) ensures i in front + Shifted(order) {
      if i > 0 {
        assert raw[i] == rest[i - 1];
        var k :| 0 <= k < |order| && order[k] == i - 1;
        assert Shifted(order)[k] == i && i in Shifted(order);
      }
    }
  }

  lemma PairedCons(first: RawEntry, rest: seq<RawEntry>, order: seq<nat>, entries: seq<Entry>)
    requires Paired(rest, order, entries)
    ensures Paired([first] + rest, Shifted(order), entries)
  {
    hide Becomes;
  }

  lemma PairedFront(raw: seq<RawEntry>, e: Entry, order: seq<nat>, entries: seq<Entry>)
    requires raw != [] && Becomes(raw[0], e) && Paired(raw, order, entries)
    ensures Paired(raw, [0] + order, [e] + entries)
  {
    hide Becomes;
  }

  lemma {:induction false} UsableOrder(raw: seq<RawEntry>) returns (order: seq<nat>)
    ensures Kept(raw, order) && Paired(raw, order, UsableEntries(raw))
  {
    hide Speaks, Becomes, Usable, Kept, Paired;
    if raw == [] {
      order := [];
      assert Kept(raw, order) && Paired(raw, order, []) by { NothingKept(); }
    } else {
      var rest := UsableOrder(raw[1..]);
      assert raw == [raw[0]] + raw[1..];
      UsableBecomes(raw[0]);
      KeptCons(raw[0], raw[1..], rest);
      PairedCons(raw[0], raw[1..], rest, UsableEntries(raw[1..]));
      if Speaks(raw[0]) {
        PairedFront(raw, Usable(raw[0]).value, Shifted(rest), UsableEntries(raw[1..]));
        order := [0] + Shifted(rest);
      } else {
        order := [] + Shifted(rest);
        assert order == Shifted(rest) && [] + UsableEntries(raw[1..]) == UsableEntries(raw[1..]);
      }
    }
  }

  lemma NothingKept()
    ensures Kept([], []) && Paired([], [], [])
  {
  }

  // ---------- sorting is stable ----------

  lemma InOrderCons(raw: seq<RawEntry>, first: nat, rest: seq<nat>)
    requires InOrder(raw, rest) && forall k :: k in rest ==> Before(raw, first, k)
    ensures InOrder(raw, [first] + rest)
  {
    hide Before;
  }

  lemma InOrderUncons(raw: seq<RawEntry>, order: seq<nat>)
    requires InOrder(raw, order) && order != []
    ensures InOrder(raw, order[1..])
    ensures forall k :: k in order[1..] ==> Before(raw, order[0], k)
  {
    hide Before;
  }

  ghost predicate SameMembers(a: seq<nat>, b: seq<nat>) {
    forall k :: k in a <==> k in b
  }

  lemma PairedUncons(raw: seq<RawEntry>, order: seq<nat>, entries: seq<Entry>)
    requires Paired(raw, order, entries) && order != []
    ensures order[0] < |raw| && Becomes(raw[order[0]], entries[0]) && Paired(raw, order[1..], entries[1..])
    ensures order == [order[0]] + order[1..] && entries == [entries[0]] + entries[1..]
  {
    hide Becomes;
  }

  lemma PairedPrepend(raw: seq<RawEntry>, i: nat, e: Entry, order: seq<nat>, entries: seq<Entry>)
    requires i < |raw| && Becomes(raw[i], e) && Paired(raw, order, entries)
    ensures Paired(raw, [i] + order, [e] + entries)
  {
    hide Becomes;
  }

  lemma BeforeByStart(raw: seq<RawEntry>, i: nat, j: nat, d: Entry, e: Entry)
    requires i < |raw| && j < |raw| && Becomes(raw[i], d) && Becomes(raw[j], e)
    ensures Before(raw, i, j) <==> d.start < e.start || (d.start == e.start && i < j)
  {
    hide Words;
  }

  lemma BeforeAll(raw: seq<RawEntry>, i: nat, order: seq<nat>)
    requires InOrder(raw, order) && order != [] && Before(raw, i, order[0])
    ensures forall k :: k in order ==> Before(raw, i, k)
  {
    InOrderUncons(raw, order);
    forall k | k in order ensures Before(raw, i, k) {
      if k != order[0] {
        assert k in order[1..];
      }
    }
  }

  lemma {:induction false} InsertOrder(raw: seq<RawEntry>, i: nat, e: Entry, order: seq<nat>, sorted: seq<Entry>)
    returns (r: seq<nat>)
    requires i < |raw| && Becomes(raw[i], e)
    requires InOrder(raw, order) && Paired(raw, order, sorted) && Below(order, i)
    ensures InOrder(raw, r) && Paired(raw, r, InsertByStart(e, sorted))
    ensures SameMembers(r, [i] + order)
    decreases |order|
  {
    assert |order| == |sorted|;
    hide InOrder, Paired, Becomes, Before;
    if sorted == [] {
      InOrderCons(raw, i, order);
      PairedPrepend(raw, i, e, order, sorted);
      r := [i] + order;
    } else {
      PairedUncons(raw, order, sorted);
      BeforeByStart(raw, i, order[0], e, sorted[0]);
      BeforeByStart(raw, order[0], i, sorted[0], e);
      if e.start < sorted[0].start {
        BeforeAll(raw, i, order);
        InOrderCons(raw, i, order);
        PairedPrepend(raw, i, e, order, sorted);
        r := [i] + order;
      } else {
        InOrderUncons(raw, order);
        var rest := InsertOrder(raw, i, e, order[1..], sorted[1..]);
        InOrderCons(raw, order[0], rest);
        PairedPrepend(raw, order[0], sorted[0], rest, InsertByStart(e, sorted[1..]));
        r := [order[0]] + rest;
      }
    }
  }

  lemma SplitLast(raw: seq<RawEntry>, order: seq<nat>, entries: seq<Entry>)
    requires Rising(order) && Paired(raw, order, entries) && entries != []
    ensures var n := |entries| - 1;
      && order == order[..n] + [order[n]] && Rising(order[..n]) && Below(order[..n], order[n])
      && Paired(raw, order[..n], entries[..n]) && order[n] < |raw| && Becomes(raw[order[n]], entries[n])
  {
    hide Becomes;
  }

  lemma SameBelow(a: seq<nat>, b: seq<nat>, i: nat)
    requires SameMembers(a, b) && Below(b, i)
    ensures Below(a, i)
  {
    forall k | 0 <= k < |a| ensures a[k] < i {
      assert a[k] in b;
    }
  }

  lemma {:induction false} SortOrder(raw: seq<RawEntry>, order: seq<nat>, entries: seq<Entry>) returns (r: seq<nat>)
    requires Rising(order) && Paired(raw, order, entries)
    ensures InOrder(raw, r) && Paired(raw, r, SortByStart(entries))
    ensures SameMembers(r, order)
  {
    hide Becomes, Before, Rising, Below;
    if entries == [] {
      r := order;
    } else {
      hide InOrder, Paired;
      var n := |entries| - 1;
      SplitLast(raw, order, entries);
      var rest := SortOrder(raw, order[..n], entries[..n]);
      SameBelow(rest, order[..n], order[n]);
      r := InsertOrder(raw, order[n], entries[n], rest, SortByStart(entries[..n]));
    }
  }

  lemma SortedSpeaks(raw: seq<RawEntry>, kept: seq<nat>, order: seq<nat>)
    requires Kept(raw, kept) && SameMembers(order, kept)
    ensures Below(order, |raw|)
    ensures forall k :: 0 <= k < |order| ==> Speaks(raw[order[k]])
    ensures forall i :: 0 <= i < |raw| && Speaks(raw[i]) ==> i in order
  {
    hide Speaks;
    forall k | 0 <= k < |order| ensures order[k] < |raw| && Speaks(raw[order[k]]) {
      assert order[k] in kept;
    }
  }

  lemma SameOrder(raw: seq<RawEntry>, a: seq<nat>, b: seq<nat>)
    requires SpeakingOrder(raw, a) && SpeakingOrder(raw, b)
    ensures a == b
  {
    hide Speaks, InOrder;
    OrderIsUnique(raw, a, b);
  }

  /**
   Cleaning, read off the raw list: the entries that speak, each exactly once,
   in time order and stable, and no other. Each keeps its start, its words and
   its voice, and an end before the start is the start.
   */
  lemma CleaningIsExact(raw: seq<RawEntry>) returns (order: seq<nat>)
    ensures SpeakingOrder(raw, order)
    ensures Paired(raw, order, CleanEntries(raw))
  {
    hide Becomes, Before, Rising, InOrder, Paired, Speaks;
    var kept := UsableOrder(raw);
    order := SortOrder(raw, kept, UsableEntries(raw));
    SortedSpeaks(raw, kept, order);
  }

  lemma SameRest(raw: seq<RawEntry>, a: seq<nat>, b: seq<nat>)
    requires InOrder(raw, a) && InOrder(raw, b) && SameMembers(a, b) && a != [] && b != [] && a[0] == b[0]
    ensures SameMembers(a[1..], b[1..])
  {
    InOrderUncons(raw, a);
    InOrderUncons(raw, b);
    forall k ensures k in a[1..] <==> k in b[1..] {
      assert k in a <==> k == a[0] || k in a[1..];
      assert k in b <==> k == b[0] || k in b[1..];
    }
  }

  lemma SameFirst(raw: seq<RawEntry>, a: seq<nat>, b: seq<nat>)
    requires InOrder(raw, a) && InOrder(raw, b) && SameMembers(a, b) && a != [] && b != []
    ensures a[0] == b[0]
  {
    assert a[0] in a && b[0] in b;
    var j :| 0 <= j < |b| && b[j] == a[0];
    var k :| 0 <= k < |a| && a[k] == b[0];
  }

  /** There is but one such order. */
  lemma {:induction false} OrderIsUnique(raw: seq<RawEntry>, a: seq<nat>, b: seq<nat>)
    requires InOrder(raw, a) && InOrder(raw, b) && SameMembers(a, b)
    ensures a == b
  {
    hide InOrder;
    assert (a != [] ==> a[0] in a) && (b != [] ==> b[0] in b);
    if a != [] {
      SameFirst(raw, a, b);
      SameRest(raw, a, b);
      InOrderUncons(raw, a);
      InOrderUncons(raw, b);
      OrderIsUnique(raw, a[1..], b[1..]);
      assert a == [a[0]] + a[1..] && b == [b[0]] + b[1..];
    }
  }

  // ---------- the chunks say what the raw entries say ----------

  /** What the raw entries at these positions say, word by word with the voice; a word over the cap in parts. */
  ghost function Said(raw: seq<RawEntry>, order: seq<nat>, maxChars: nat): seq<Spoken>
    requires 1 <= maxChars && Below(order, |raw|)
  {
    if order == [] then []
    else Tag(FragAll(Words(raw[order[0]].text), maxChars), VoiceOf(raw[order[0]])) + Said(raw, order[1..], maxChars)
  }

  lemma {:induction false} SaidIsAttributed(raw: seq<RawEntry>, order: seq<nat>, entries: seq<Entry>, maxChars: nat)
    requires 1 <= maxChars && Paired(raw, order, entries)
    ensures Below(order, |raw|) && Said(raw, order, maxChars) == Attributed(entries, maxChars)
  {
    hide Words, FragAll, Tag;
    if order != [] {
      SaidIsAttributed(raw, order[1..], entries[1..], maxChars);
    }
  }

  /**
   For any stored transcript: whatever the order of its entries that speak, the
   chunks carry the words of exactly those entries, in that order, each chunk
   naming exactly the voices of its words, and none over the cap.
   */
  lemma ChunksSayWhatWasSaid(raw: seq<RawEntry>, order: seq<nat>, limits: Limits)
    requires 1 <= limits.maxChars && SpeakingOrder(raw, order)
    ensures Covers(ChunkValues(CleanEntries(raw), limits), Said(raw, order, limits.maxChars))
    ensures Sound(ChunkValues(CleanEntries(raw), limits), limits.maxChars)
  {
    hide Covers, Sound, ChunkValues, CleanEntries, Said, Cleaned, Paired, SpeakingOrder, StartSorted;
    var found := CleaningIsExact(raw);
    SameOrder(raw, order, found);
    CleanEntriesSorted(raw);
    ChunksCarryEveryWord(CleanEntries(raw), limits);
    SaidIsAttributed(raw, order, CleanEntries(raw), limits.maxChars);
  }
}
