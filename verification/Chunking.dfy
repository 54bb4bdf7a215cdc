/**
 Transcript entries gathered into retrievable chunks.
 Gathering, compaction and the tail fold are methods over mutable chunk records,
 each proved equal to a function on chunk values; the lemmas say what the
 functions keep: every word in order with its speaker, the size cap, the time
 line, and no short chunk left beside a neighbour with room for it.
 */
module Chunking {
  import opened Wrappers
  import opened Text
  import opened Splitting

  /** One transcript entry as stored: any field may be missing. */
  datatype RawEntry = RawEntry(start: Option<real>, end: Option<real>, text: string, speaker: Option<string>)

  /** An entry with usable text and timings. */
  datatype Entry = Entry(start: real, end: real, text: string, speaker: Option<string>)

  datatype Chunk = Chunk(start: real, end: real, text: string, speakers: seq<string>)

  function Max(a: real, b: real): real { if a >= b then a else b }
  function Min(a: real, b: real): real { if a <= b then a else b }

  // ---------- cleaning ----------

  /** The entry a raw entry becomes, if it is usable at all. */
  function Usable(raw: RawEntry): Option<Entry> {
    if raw.start.None? || raw.end.None? then None
    else
      var text := Normalize(raw.text);
      if text == "" then None
      else
        var speaker := if raw.speaker.Some? && raw.speaker.value != "" then raw.speaker else None;
        Some(Entry(raw.start.value, Max(raw.end.value, raw.start.value), text, speaker))
  }

  function UsableEntries(raw: seq<RawEntry>): seq<Entry> {
    if raw == [] then []
    else (match Usable(raw[0]) case Some(e) => [e] case None => []) + UsableEntries(raw[1..])
  }

  /** Stable insertion: after every entry that starts no later. */
  function InsertByStart(e: Entry, sorted: seq<Entry>): seq<Entry> {
    if sorted == [] || e.start < sorted[0].start then [e] + sorted
    else [sorted[0]] + InsertByStart(e, sorted[1..])
  }

  /** `out.sort(key=lambda e: e["start"])` */
  function SortByStart(entries: seq<Entry>): seq<Entry> {
    if entries == [] then []
    else InsertByStart(entries[|entries| - 1], SortByStart(entries[..|entries| - 1]))
  }

  ghost predicate StartSorted(entries: seq<Entry>) {
    forall i, j :: 0 <= i < j < |entries| ==> entries[i].start <= entries[j].start
  }

  ghost predicate Cleaned(entries: seq<Entry>) {
    forall e :: e in entries ==> Tidy(e.text) && e.start <= e.end
  }

  function CleanEntries(raw: seq<RawEntry>): seq<Entry> {
    SortByStart(UsableEntries(raw))
  }

  lemma {:induction false} UsableCleaned(raw: seq<RawEntry>)
    ensures Cleaned(UsableEntries(raw))
  {
    hide Tidy, Normalize;
    if raw != [] {
      NormalizeTidy(raw[0].text);
      UsableCleaned(raw[1..]);
    }
  }

  lemma {:induction false} InsertKeeps(e: Entry, sorted: seq<Entry>)
    ensures multiset(InsertByStart(e, sorted)) == multiset(sorted) + multiset{e}
  {
    if sorted == [] || e.start < sorted[0].start {
    } else {
      InsertKeeps(e, sorted[1..]);
      assert sorted == [sorted[0]] + sorted[1..];
    }
  }

  lemma SortedCons(first: Entry, rest: seq<Entry>)
    requires StartSorted(rest) && forall x :: x in rest ==> first.start <= x.start
    ensures StartSorted([first] + rest)
  {
  }

  lemma SortedUncons(entries: seq<Entry>)
    requires StartSorted(entries) && entries != []
    ensures StartSorted(entries[1..]) && entries == [entries[0]] + entries[1..]
    ensures forall x :: x in entries ==> entries[0].start <= x.start
  {
  }

  lemma {:induction false} InsertSorted(e: Entry, sorted: seq<Entry>)
    requires StartSorted(sorted)
    ensures StartSorted(InsertByStart(e, sorted))
    ensures multiset(InsertByStart(e, sorted)) == multiset(sorted) + multiset{e}
  {
    InsertKeeps(e, sorted);
    if sorted == [] {
    } else if e.start < sorted[0].start {
      SortedUncons(sorted);
      hide StartSorted;
      SortedCons(e, sorted);
    } else {
      hide StartSorted;
      SortedUncons(sorted);
      var first, rest := sorted[0], InsertByStart(e, sorted[1..]);
      InsertSorted(e, sorted[1..]);
      forall x | x in rest ensures first.start <= x.start {
        assert x in multiset(rest);
      }
      SortedCons(first, rest);
    }
  }

  lemma {:induction false} SortIsSort(entries: seq<Entry>)
    ensures StartSorted(SortByStart(entries))
    ensures multiset(SortByStart(entries)) == multiset(entries)
  {
    if entries != [] {
      var n := |entries| - 1;
      SortIsSort(entries[..n]);
      InsertSorted(entries[n], SortByStart(entries[..n]));
      assert entries == entries[..n] + [entries[n]];
    }
  }

  /** Cleaning keeps exactly the usable entries, tidied, in time order. */
  lemma CleanEntriesSorted(raw: seq<RawEntry>)
    ensures Cleaned(CleanEntries(raw)) && StartSorted(CleanEntries(raw))
    ensures multiset(CleanEntries(raw)) == multiset(UsableEntries(raw))
  {
    hide Tidy;
    UsableCleaned(raw);
    SortIsSort(UsableEntries(raw));
    forall e | e in CleanEntries(raw) ensures Tidy(e.text) && e.start <= e.end {
      assert e in multiset(CleanEntries(raw));
    }
  }

  // ---------- speakers ----------

  function AddSpeaker(seen: seq<string>, speaker: string): seq<string> {
    if speaker in seen then seen else seen + [speaker]
  }

  function AddSpeakers(seen: seq<string>, more: seq<string>): seq<string>
    decreases |more|
  {
    if more == [] then seen else AddSpeakers(AddSpeaker(seen, more[0]), more[1..])
  }

  function SpeakersFrom(seen: seq<string>, entries: seq<Entry>): seq<string>
    decreases |entries|
  {
    if entries == [] then seen
    else SpeakersFrom(match entries[0].speaker case Some(s) => AddSpeaker(seen, s) case None => seen, entries[1..])
  }

  /** Every speaker of the entries, in the order they first spoke. */
  function Speakers(entries: seq<Entry>): seq<string> {
    SpeakersFrom([], entries)
  }

  function SpeakersOf(entries: seq<Entry>): set<string> {
    set e | e in entries && e.speaker.Some? :: e.speaker.value
  }

  ghost function Names(speakers: seq<string>): set<string> {
    set s | s in speakers
  }

  lemma {:induction false} SpeakersAreExact(seen: seq<string>, entries: seq<Entry>)
    ensures Names(SpeakersFrom(seen, entries)) == Names(seen) + SpeakersOf(entries)
    decreases |entries|
  {
    if entries != [] {
      var next := match entries[0].speaker case Some(s) => AddSpeaker(seen, s) case None => seen;
      SpeakersAreExact(next, entries[1..]);
      assert entries == [entries[0]] + entries[1..];
    }
  }

  lemma {:induction false} AddSpeakersNames(seen: seq<string>, more: seq<string>)
    ensures Names(AddSpeakers(seen, more)) == Names(seen) + Names(more)
    decreases |more|
  {
    if more != [] {
      AddSpeakersNames(AddSpeaker(seen, more[0]), more[1..]);
      assert more == [more[0]] + more[1..];
    }
  }

  method ListSpeakers(entries: seq<Entry>) returns (seen: seq<string>)
    ensures seen == Speakers(entries)
  {
    seen := [];
    for i := 0 to |entries|
      invariant SpeakersFrom(seen, entries[i..]) == Speakers(entries)
    {
      assert entries[i..][0] == entries[i] && entries[i..][1..] == entries[i + 1..];
      match entries[i].speaker {
        case Some(s) =>
          if s !in seen {
            seen := seen + [s];
          }
        case None =>
      }
    }
    assert entries[|entries|..] == [];
  }

  // ---------- one over-long turn ----------

  function TotalLength(pieces: seq<string>): nat {
    if pieces == [] then 0 else |pieces[0]| + TotalLength(pieces[1..])
  }

  /** The instant reached after `consumed` of `total` characters of a turn. */
  function Interpolate(e: Entry, consumed: nat, total: nat): real
    requires 0 < total
  {
    e.start + (e.end - e.start) * (consumed as real / total as real)
  }

  function PieceChunk(e: Entry, piece: string, first: bool, last: bool, consumed: nat, total: nat): Chunk
    requires 0 < total
  {
    var start := if first then e.start else Interpolate(e, consumed, total);
    var end := if last then e.end else Interpolate(e, consumed + |piece|, total);
    Chunk(start, Max(end, start), piece, Speakers([e]))
  }

  function PieceChunks(e: Entry, pieces: seq<string>, first: bool, consumed: nat, total: nat): seq<Chunk>
    requires 0 < total
  {
    if pieces == [] then []
    else [PieceChunk(e, pieces[0], first, |pieces| == 1, consumed, total)]
         + PieceChunks(e, pieces[1..], false, consumed + |pieces[0]|, total)
  }

  /** One turn as chunks, timings interpolated by character share inside it. */
  function EmitSplit(e: Entry, maxChars: nat): seq<Chunk>
    requires 1 <= maxChars
  {
    var pieces := SplitLong(e.text, maxChars);
    if |pieces| == 1 then [Chunk(e.start, e.end, pieces[0], Speakers([e]))]
    else
      var total := TotalLength(pieces);
      PieceChunks(e, pieces, true, 0, if total == 0 then 1 else total)
  }

  method EmitSplitTurn(e: Entry, maxChars: nat) returns (out: seq<Chunk>)
    requires 1 <= maxChars
    ensures out == EmitSplit(e, maxChars)
  {
    hide SplitLong, Speakers;
    var pieces := SplitLongText(e.text, maxChars);
    var speakers := ListSpeakers([e]);
    if |pieces| == 1 {
      return [Chunk(e.start, e.end, pieces[0], speakers)];
    }
    var total := TotalLength(pieces);
    total := if total == 0 then 1 else total;
    var consumed: nat := 0;
    out := [];
    for index := 0 to |pieces|
      invariant out + PieceChunks(e, pieces[index..], index == 0, consumed, total) == PieceChunks(e, pieces, true, 0, total)
    {
      ghost var rest := pieces[index..];
      assert rest[0] == pieces[index] && rest[1..] == pieces[index + 1..];
      var piece := pieces[index];
      var chunk := PieceChunk(e, piece, index == 0, index == |pieces| - 1, consumed, total);
      ghost var tail := PieceChunks(e, pieces[index + 1..], false, consumed + |piece|, total);
      Assoc(out, [chunk], tail);
      consumed := consumed + |piece|;
      out := out + [chunk];
    }
    assert pieces[|pieces|..] == [];
  }

  // ---------- gathering ----------

  function PendingLength(pending: seq<Entry>): nat {
    if pending == [] then 0 else |pending[0].text| + 1 + PendingLength(pending[1..])
  }

  function Texts(entries: seq<Entry>): seq<string> {
    if entries == [] then [] else [entries[0].text] + Texts(entries[1..])
  }

  function LatestEnd(entries: seq<Entry>): real
    requires entries != []
  {
    if |entries| == 1 then entries[0].end else Max(entries[0].end, LatestEnd(entries[1..]))
  }

  /** The chunk the pending entries become. */
  function Merged(pending: seq<Entry>): Chunk
    requires pending != []
  {
    Chunk(pending[0].start, LatestEnd(pending), Strip(Join(Texts(pending))), Speakers(pending))
  }

  function Flushed(pending: seq<Entry>): seq<Chunk> {
    if pending == [] then [] else [Merged(pending)]
  }

  /** The first piece of a split turn, grown by a short remainder that came before it. */
  function Carried(pending: seq<Entry>, e: Entry, first: Chunk): Chunk
    requires pending != []
  {
    first.(start := pending[0].start, text := Glue(Strip(Join(Texts(pending))), first.text),
           speakers := Speakers(pending + [e]))
  }

  datatype Limits = Limits(minChars: nat, maxChars: nat, targetChars: nat)

  /** What a long turn puts out: the remainder carried into it, or flushed before it. */
  function LongTurn(pending: seq<Entry>, e: Entry, limits: Limits): seq<Chunk>
    requires 1 <= limits.maxChars
  {
    var pieces := EmitSplit(e, limits.maxChars);
    if pending != [] && PendingLength(pending) < limits.minChars && pieces != []
       && |Carried(pending, e, pieces[0]).text| <= limits.maxChars
    then [Carried(pending, e, pieces[0])] + pieces[1..]
    else Flushed(pending) + pieces
  }

  function Gather(entries: seq<Entry>, pending: seq<Entry>, limits: Limits): seq<Chunk>
    requires 1 <= limits.maxChars
  {
    if entries == [] then Flushed(pending)
    else
      var e, rest := entries[0], entries[1..];
      if |e.text| > limits.maxChars then LongTurn(pending, e, limits) + Gather(rest, [], limits)
      else
        var full := pending != [] && PendingLength(pending) + |e.text| > limits.maxChars;
        var out := if full then Flushed(pending) else [];
        var open := if full then [e] else pending + [e];
        if PendingLength(open) >= limits.targetChars
        then out + Flushed(open) + Gather(rest, [], limits)
        else out + Gather(rest, open, limits)
  }

  // ---------- compaction and the tail ----------

  /** A host chunk that took a guest's text, times and speakers. */
  function Absorb(host: Chunk, guest: Chunk, guestFirst: bool): Chunk {
    Chunk(Min(host.start, guest.start), Max(host.end, guest.end),
          if guestFirst then Glue(guest.text, host.text) else Glue(host.text, guest.text),
          AddSpeakers(host.speakers, guest.speakers))
  }

  predicate HasRoom(a: Chunk, b: Chunk, maxChars: nat) {
    |a.text| + |b.text| + 1 <= maxChars
  }

  /** Short chunks folded into their predecessor, else into their successor, else kept. */
  function Compact(chunks: seq<Chunk>, done: seq<Chunk>, limits: Limits): seq<Chunk>
    decreases |chunks|
  {
    if chunks == [] then done
    else
      var c, rest, n := chunks[0], chunks[1..], |done|;
      if |c.text| >= limits.minChars then Compact(rest, done + [c], limits)
      else if n > 0 && HasRoom(done[n - 1], c, limits.maxChars)
      then Compact(rest, done[..n - 1] + [Absorb(done[n - 1], c, false)], limits)
      else if rest != [] && HasRoom(rest[0], c, limits.maxChars)
      then Compact([Absorb(rest[0], c, true)] + rest[1..], done, limits)
      else Compact(rest, done + [c], limits)
  }

  function FoldTail(chunks: seq<Chunk>, limits: Limits): seq<Chunk> {
    var n := |chunks|;
    if n > 1 && |chunks[n - 1].text| < limits.minChars then
      var tail, previous := chunks[n - 1], chunks[n - 2];
      var merged := Glue(previous.text, tail.text);
      if |merged| <= limits.maxChars
      then chunks[..n - 2] + [previous.(text := merged, end := Max(previous.end, tail.end),
                                        speakers := AddSpeakers(previous.speakers, tail.speakers))]
      else chunks
    else chunks
  }

  function Compacted(entries: seq<Entry>, limits: Limits): seq<Chunk>
    requires 1 <= limits.maxChars
  {
    Compact(Gather(entries, [], limits), [], limits)
  }

  /** The whole of `chunk_entries` on cleaned entries. */
  function ChunkValues(entries: seq<Entry>, limits: Limits): seq<Chunk>
    requires 1 <= limits.maxChars
  {
    FoldTail(Compacted(entries, limits), limits)
  }

  // ---------- the mutable records and the loops over them ----------

  /** A chunk as the code holds it: a record whose fields are changed in place. */
  class ChunkRecord {
    var start: real
    var end: real
    var text: string
    var speakers: seq<string>
    var index: int

    constructor (c: Chunk)
      ensures Value() == c
    {
      start, end, text, speakers, index := c.start, c.end, c.text, c.speakers, -1;
    }

    function Value(): Chunk
      reads this
    {
      Chunk(start, end, text, speakers)
    }

    /** The nested helper `_absorb`: this record is the host. */
    method TakeIn(guest: ChunkRecord, guestFirst: bool)
      requires guest != this
      modifies this
      ensures Value() == Absorb(old(Value()), old(guest.Value()), guestFirst)
    {
      text := if guestFirst then Glue(guest.text, text) else Glue(text, guest.text);
      start := Min(start, guest.start);
      end := Max(end, guest.end);
      AddAll(guest.speakers);
    }

    method AddAll(more: seq<string>)
      modifies this`speakers
      ensures speakers == AddSpeakers(old(speakers), more)
    {
      for i := 0 to |more|
        invariant AddSpeakers(speakers, more[i..]) == AddSpeakers(old(speakers), more)
      {
        assert more[i..][0] == more[i] && more[i..][1..] == more[i + 1..];
        if more[i] !in speakers {
          speakers := speakers + [more[i]];
        }
      }
      assert more[|more|..] == [];
    }
  }

  ghost function Values(records: seq<ChunkRecord>): seq<Chunk>
    reads records
  {
    seq(|records|, i requires 0 <= i < |records| reads records => records[i].Value())
  }

  ghost predicate Distinct(records: seq<ChunkRecord>) {
    forall i, j :: 0 <= i < j < |records| ==> records[i] != records[j]
  }

  method Record(chunks: seq<Chunk>) returns (records: seq<ChunkRecord>)
    ensures fresh(records) && Distinct(records) && Values(records) == chunks
  {
    records := [];
    for i := 0 to |chunks|
      invariant fresh(records) && Distinct(records) && |records| == i
      invariant forall k :: 0 <= k < i ==> records[k].Value() == chunks[k]
    {
      var r := new ChunkRecord(chunks[i]);
      records := records + [r];
    }
  }

  method GatherChunks(entries: seq<Entry>, limits: Limits) returns (chunks: seq<Chunk>)
    requires 1 <= limits.maxChars
    ensures chunks == Gather(entries, [], limits)
  {
    hide EmitSplit, Merged, Carried;
    chunks := [];
    var pending: seq<Entry> := [];
    for i := 0 to |entries|
      invariant chunks + Gather(entries[i..], pending, limits) == Gather(entries, [], limits)
    {
      ghost var before := chunks;
      var entry := entries[i];
      ghost var rest := entries[i + 1..];
      assert entries[i..][0] == entry && entries[i..][1..] == rest;
      if |entry.text| > limits.maxChars {
        var pieces := EmitSplitTurn(entry, limits.maxChars);
        if pending != [] && PendingLength(pending) < limits.minChars && pieces != [] {
          var first := Carried(pending, entry, pieces[0]);
          if |first.text| <= limits.maxChars {
            pieces := [first] + pieces[1..];
            pending := [];
          }
        }
        ghost var emitted := Flushed(pending) + pieces;
        assert [] + pieces == pieces;
        Assoc(before, Flushed(pending), pieces);
        Assoc(before, emitted, Gather(rest, [], limits));
        if pending != [] {
          chunks := chunks + [Merged(pending)];
          pending := [];
        }
        chunks := chunks + pieces;
      } else {
        ghost var out: seq<Chunk> := [];
        if pending != [] && PendingLength(pending) + |entry.text| > limits.maxChars {
          out := [Merged(pending)];
          chunks := chunks + [Merged(pending)];
          pending := [];
        }
        assert [] + [entry] == [entry];
        pending := pending + [entry];
        assert before + out == chunks;
        if PendingLength(pending) >= limits.targetChars {
          Assoc(before, out, [Merged(pending)]);
          Assoc(before, out + [Merged(pending)], Gather(rest, [], limits));
          chunks := chunks + [Merged(pending)];
          pending := [];
        } else {
          Assoc(before, out, Gather(rest, pending, limits));
        }
      }
    }
    assert entries[|entries|..] == [];
    if pending != [] {
      chunks := chunks + [Merged(pending)];
    }
  }

  /** The records from `from` on hold exactly these values. */
  ghost predicate Shows(records: seq<ChunkRecord>, from: nat, values: seq<Chunk>)
    reads records
  {
    from + |values| == |records| && forall k :: 0 <= k < |values| ==> records[from + k].Value() == values[k]
  }

  /** One absorption, seen from the two lists the compaction loop works on. */
  method AbsorbInto(host: ChunkRecord, guest: ChunkRecord, guestFirst: bool,
                    ghost others: seq<ChunkRecord>, ghost at: nat, ghost from: nat, ghost values: seq<Chunk>)
    requires host != guest && from <= at < |others| && others[at] == host && Distinct(others)
    requires Shows(others, from, values)
    modifies host
    ensures host.Value() == Absorb(old(host.Value()), old(guest.Value()), guestFirst)
    ensures Shows(others, from, values[at - from := host.Value()])
  {
    hide Absorb;
    host.TakeIn(guest, guestFirst);
  }

  /** The four ways one step of the compaction can go. */
  lemma CompactSteps(todo: seq<Chunk>, done: seq<Chunk>, limits: Limits)
    requires todo != []
    ensures var c, n, short := todo[0], |done|, |todo[0].text| < limits.minChars;
            var back := n > 0 && |done[n - 1].text| + |c.text| + 1 <= limits.maxChars;
            var forth := |todo| > 1 && |todo[1].text| + |c.text| + 1 <= limits.maxChars;
            && (short && back ==>
                  Compact(todo, done, limits) == Compact(todo[1..], done[..n - 1] + [Absorb(done[n - 1], c, false)], limits))
            && (short && !back && forth ==>
                  Compact(todo, done, limits) == Compact([Absorb(todo[1], c, true)] + todo[1..][1..], done, limits))
            && (!short || (!back && !forth) ==> Compact(todo, done, limits) == Compact(todo[1..], done + [c], limits))
  {
    hide Absorb;
  }

  lemma KeptAreBehind(chunks: seq<ChunkRecord>, compacted: seq<ChunkRecord>, position: nat)
    requires Distinct(chunks) && position <= |chunks| && forall r :: r in compacted ==> r in chunks[..position]
    ensures forall i, l :: 0 <= i < |compacted| && position <= l < |chunks| ==> compacted[i] != chunks[l]
  {
    forall i, l | 0 <= i < |compacted| && position <= l < |chunks| ensures compacted[i] != chunks[l] {
      assert compacted[i] in chunks[..position];
    }
  }

  lemma CompactDone(todo: seq<Chunk>, done: seq<Chunk>, limits: Limits)
    requires |todo| == 0
    ensures Compact(todo, done, limits) == done
  {
  }

  method CompactRecords(chunks: seq<ChunkRecord>, limits: Limits) returns (compacted: seq<ChunkRecord>)
    requires Distinct(chunks)
    modifies chunks
    ensures Distinct(compacted) && forall r :: r in compacted ==> r in chunks
    ensures Values(compacted) == Compact(old(Values(chunks)), [], limits)
  {
    hide Absorb, Compact, HasRoom;
    compacted := [];
    ghost var todo, done := Values(chunks), [];
    for position := 0 to |chunks|
      invariant Distinct(compacted)
      invariant forall r :: r in compacted ==> r in chunks[..position]
      invariant Shows(compacted, 0, done) && Shows(chunks, position, todo)
      invariant Compact(todo, done, limits) == Compact(old(Values(chunks)), [], limits)
    {
      var chunk := chunks[position];
      KeptAreBehind(chunks, compacted, position);
      assert todo != [] && todo[0] == chunk.Value();
      var n := |compacted|;
      CompactSteps(todo, done, limits);
      if |chunk.text| < limits.minChars && n > 0 && |compacted[n - 1].text| + |chunk.text| + 1 <= limits.maxChars {
        assert compacted[n - 1].Value() == done[n - 1];
        assert compacted[n - 1] in chunks[..position];
        AbsorbInto(compacted[n - 1], chunk, false, compacted, n - 1, 0, done);
        done, todo := done[..n - 1] + [Absorb(done[n - 1], todo[0], false)], todo[1..];
      } else if |chunk.text| < limits.minChars && position + 1 < |chunks|
                && |chunks[position + 1].text| + |chunk.text| + 1 <= limits.maxChars {
        var next := chunks[position + 1];
        assert next.Value() == todo[1] && todo[1..][0] == todo[1];
        AbsorbInto(next, chunk, true, chunks, position + 1, position, todo);
        todo := [Absorb(todo[1], todo[0], true)] + todo[1..][1..];
      } else {
        assert todo[1..] != [] ==> todo[1..][0] == chunks[position + 1].Value();
        assert n > 0 ==> compacted[n - 1].Value() == done[n - 1];
        compacted := compacted + [chunk];
        done, todo := done + [todo[0]], todo[1..];
      }
    }
    CompactDone(todo, done, limits);
    assert Values(compacted) == done;
  }

  method FoldTailRecord(chunks: seq<ChunkRecord>, limits: Limits) returns (kept: seq<ChunkRecord>)
    requires Distinct(chunks)
    modifies chunks
    ensures Distinct(kept) && forall r :: r in kept ==> r in chunks
    ensures Values(kept) == FoldTail(old(Values(chunks)), limits)
  {
    hide Glue, AddSpeakers;
    kept := chunks;
    var n := |chunks|;
    ghost var was := Values(chunks);
    if n > 1 && |chunks[n - 1].text| < limits.minChars {
      var tail, previous := chunks[n - 1], chunks[n - 2];
      assert previous != tail;
      var merged := Glue(previous.text, tail.text);
      if |merged| <= limits.maxChars {
        kept := chunks[..n - 1];
        previous.text := merged;
        previous.end := Max(previous.end, tail.end);
        previous.AddAll(tail.speakers);
        forall k | 0 <= k < n - 2 ensures chunks[k].Value() == was[k] {
          assert chunks[k] != chunks[n - 2];
        }
        assert Values(kept) == was[..n - 2] + [previous.Value()];
      }
    }
  }

  method NumberRecords(chunks: seq<ChunkRecord>)
    requires Distinct(chunks)
    modifies chunks
    ensures Values(chunks) == old(Values(chunks))
    ensures forall i :: 0 <= i < |chunks| ==> chunks[i].index == i
  {
    for index := 0 to |chunks|
      invariant forall i :: 0 <= i < |chunks| ==> chunks[i].Value() == old(chunks[i].Value())
      invariant forall i :: 0 <= i < index ==> chunks[i].index == i
    {
      chunks[index].index := index;
    }
  }

  lemma NoEntriesNoChunks(limits: Limits)
    requires 1 <= limits.maxChars
    ensures ChunkValues([], limits) == []
  {
    assert Gather([], [], limits) == [];
  }

  /** `chunk_entries`: the chunks of raw entries, numbered from zero. */
  method ChunkEntries(raw: seq<RawEntry>, limits: Limits) returns (chunks: seq<ChunkRecord>)
    requires 1 <= limits.maxChars
    ensures fresh(chunks) && Distinct(chunks)
    ensures Values(chunks) == ChunkValues(CleanEntries(raw), limits)
    ensures forall i :: 0 <= i < |chunks| ==> chunks[i].index == i
  {
    hide CleanEntries, Gather, Compact, FoldTail;
    var cleaned := CleanEntries(raw);
    if cleaned == [] {
      NoEntriesNoChunks(limits);
      return [];
    }
    var gathered := GatherChunks(cleaned, limits);
    var records := Record(gathered);
    var compacted := CompactRecords(records, limits);
    assert forall i :: 0 <= i < |compacted| ==> compacted[i] in records;
    chunks := FoldTailRecord(compacted, limits);
    assert forall i :: 0 <= i < |chunks| ==> chunks[i] in compacted;
    NumberRecords(chunks);
  }
}
