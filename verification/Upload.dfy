/**
 Staging and finalizing a multi-file upload on disk. Finalizing renames every
 staging part to its final name and may be interrupted between renames; the
 laws say when running it again ends where one uninterrupted run would have.
 */
module Upload {
  import opened Wrappers

  type Data = seq<bv8>
  type Files = map<string, Data>

  datatype Entry = Entry(index: nat, suffix: string, totalSize: int, received: int)

  datatype Outcome = Finals(names: seq<string>) | MissingParts(names: seq<string>) | Died

  // ---------- names ----------

  const PREFIX := "audio.original."

  function Digit(d: nat): char
    requires d < 10
  {
    '0' + d as char
  }

  predicate IsDigit(c: char) { '0' <= c <= '9' }

  function Digits(n: nat): string {
    if n < 10 then [Digit(n)] else Digits(n / 10) + [Digit(n % 10)]
  }

  /** A number in decimal, at least three digits wide. */
  function Pad3(n: nat): string {
    if n < 10 then "00" + Digits(n) else if n < 100 then "0" + Digits(n) else Digits(n)
  }

  function PartName(index: nat, suffix: string): string {
    PREFIX + (Pad3(index) + suffix)
  }

  function Final(e: Entry): string { PartName(e.index, e.suffix) }

  function Part(e: Entry): string { Final(e) + ".part" }

  /** A file suffix is empty or starts with its dot. */
  predicate IsSuffix(s: string) { s == "" || s[0] == '.' }

  function Number(s: string): nat
    requires forall c :: c in s ==> IsDigit(c)
  {
    if s == "" then 0
    else
      assert forall c :: c in s[..|s| - 1] ==> c in s;
      assert IsDigit(s[|s| - 1]);
      Number(s[..|s| - 1]) * 10 + (s[|s| - 1] as int - '0' as int)
  }

  lemma {:induction false} DigitsAreANumber(n: nat)
    ensures forall c :: c in Digits(n) ==> IsDigit(c)
    ensures Number(Digits(n)) == n
    decreases n
  {
    if n >= 10 {
      DigitsAreANumber(n / 10);
      assert Digits(n)[..|Digits(n)| - 1] == Digits(n / 10);
    } else {
      assert Digits(n)[..0] == "";
    }
  }

  lemma {:induction false} LeadingZero(s: string)
    requires forall c :: c in s ==> IsDigit(c)
    ensures (forall c :: c in "0" + s ==> IsDigit(c)) && Number("0" + s) == Number(s)
    decreases |s|
  {
    var t := "0" + s;
    if s == "" {
      assert t[..0] == "";
    } else {
      assert forall c :: c in s[..|s| - 1] ==> c in s;
      LeadingZero(s[..|s| - 1]);
      assert t[..|t| - 1] == "0" + s[..|s| - 1];
    }
  }

  lemma Pad3IsANumber(n: nat)
    ensures (forall c :: c in Pad3(n) ==> IsDigit(c)) && Number(Pad3(n)) == n
  {
    DigitsAreANumber(n);
    LeadingZero(Digits(n));
    LeadingZero("0" + Digits(n));
    assert "00" + Digits(n) == "0" + ("0" + Digits(n));
  }

  function LeadingDigits(s: string): string {
    if s == "" || !IsDigit(s[0]) then "" else [s[0]] + LeadingDigits(s[1..])
  }

  lemma {:induction false} LeadOf(d: string, rest: string)
    requires (forall c :: c in d ==> IsDigit(c)) && (rest == "" || !IsDigit(rest[0]))
    ensures LeadingDigits(d + rest) == d
    decreases |d|
  {
    if d == "" {
      assert d + rest == rest;
    } else {
      assert forall c :: c in d[1..] ==> c in d;
      LeadOf(d[1..], rest);
      assert (d + rest)[1..] == d[1..] + rest;
      assert d == [d[0]] + d[1..];
    }
  }

  /** A staged name determines its index and what follows it. */
  lemma NameTellsIndex(i: nat, x: string, j: nat, y: string)
    requires IsSuffix(x) && IsSuffix(y) && PREFIX + (Pad3(i) + x) == PREFIX + (Pad3(j) + y)
    ensures i == j && x == y
  {
    var a, b := Pad3(i) + x, Pad3(j) + y;
    assert a == (PREFIX + a)[|PREFIX|..] && b == (PREFIX + b)[|PREFIX|..];
    Pad3IsANumber(i);
    Pad3IsANumber(j);
    LeadOf(Pad3(i), x);
    LeadOf(Pad3(j), y);
    assert x == a[|Pad3(i)|..] && y == b[|Pad3(j)|..];
  }

  /** Final and staging names never collide, within one entry or between entries of different index. */
  lemma NamesApart(e: Entry, f: Entry)
    requires IsSuffix(e.suffix) && IsSuffix(f.suffix)
    ensures Final(e) != Part(e)
    ensures e.index != f.index ==> Final(e) != Part(f) && Final(e) != Final(f) && Part(e) != Part(f)
  {
    hide Pad3, IsSuffix;
    PartIsAName(e);
    PartIsAName(f);
    if Final(e) == Part(f) {
      NameTellsIndex(e.index, e.suffix, f.index, f.suffix + ".part");
    }
    if Final(e) == Final(f) {
      NameTellsIndex(e.index, e.suffix, f.index, f.suffix);
    }
    if Part(e) == Part(f) {
      NameTellsIndex(e.index, e.suffix + ".part", f.index, f.suffix + ".part");
    }
  }

  lemma PartIsAName(e: Entry)
    requires IsSuffix(e.suffix)
    ensures Part(e) == PREFIX + (Pad3(e.index) + (e.suffix + ".part")) && IsSuffix(e.suffix + ".part")
  {
    assert (PREFIX + (Pad3(e.index) + e.suffix)) + ".part" == PREFIX + (Pad3(e.index) + (e.suffix + ".part"));
  }

  // ---------- finalizing, on values ----------

  /** Entries in index order, as a stable sort leaves them. */
  function Ordered(entries: seq<Entry>): seq<Entry> {
    if entries == [] then [] else InsertLast(Ordered(entries[..|entries| - 1]), entries[|entries| - 1])
  }

  function InsertLast(entries: seq<Entry>, e: Entry): seq<Entry> {
    if entries == [] || entries[|entries| - 1].index <= e.index then entries + [e]
    else InsertLast(entries[..|entries| - 1], e) + [entries[|entries| - 1]]
  }

  predicate Resolves(files: Files, e: Entry) {
    Part(e) in files || (Final(e) in files && |files[Final(e)]| == e.totalSize)
  }

  function Missing(files: Files, entries: seq<Entry>): seq<string> {
    if entries == [] then []
    else
      var e := entries[|entries| - 1];
      Missing(files, entries[..|entries| - 1]) + (if Resolves(files, e) then [] else [Part(e)])
  }

  function Rename(files: Files, e: Entry): Files {
    if Part(e) in files then (files - {Part(e)})[Final(e) := files[Part(e)]] else files
  }

  function RenameAll(files: Files, entries: seq<Entry>): Files {
    if entries == [] then files else Rename(RenameAll(files, entries[..|entries| - 1]), entries[|entries| - 1])
  }

  function FinalNames(entries: seq<Entry>): seq<string> {
    seq(|entries|, i requires 0 <= i < |entries| => Final(entries[i]))
  }

  /** One run over the ordered entries; it may die after handling `lifetime` of them. */
  function Finalize(files: Files, entries: seq<Entry>, lifetime: Option<nat>): (Files, Outcome) {
    if Missing(files, entries) != [] then (files, MissingParts(Missing(files, entries)))
    else if lifetime.Some? && lifetime.value < |entries| then (RenameAll(files, entries[..lifetime.value]), Died)
    else (RenameAll(files, entries), Finals(FinalNames(entries)))
  }

  /** The sidecar entries of a new session. */
  function Staged(items: seq<(string, int)>): seq<Entry> {
    seq(|items|, i requires 0 <= i < |items| => Entry(i, items[i].0, items[i].1, 0))
  }

  /** Every entry has a part; what was on disk is as it was, and only empty parts are new. */
  ghost predicate Initialised(before: Files, after: Files, entries: seq<Entry>) {
    && (forall e :: e in entries ==> Part(e) in after)
    && (forall name :: name in before ==> name in after && after[name] == before[name])
    && (forall name :: name in after && name !in before ==> after[name] == [] && exists e :: e in entries && name == Part(e))
  }

  lemma InitialisedNone(files: Files)
    ensures Initialised(files, files, [])
  {
  }

  lemma InitialisedMore(before: Files, after: Files, entries: seq<Entry>, e: Entry)
    requires Initialised(before, after, entries)
    ensures Initialised(before, if Part(e) in after then after else after[Part(e) := []], entries + [e])
  {
    hide Part;
    var next := if Part(e) in after then after else after[Part(e) := []];
    forall name | name in next && name !in before
      ensures next[name] == [] && exists x :: x in entries + [e] && name == Part(x)
    {
      if name in after {
        var x :| x in entries && name == Part(x);
        assert x in entries + [e];
      } else {
        assert e in entries + [e];
      }
    }
  }

  function Received(entries: seq<Entry>, index: nat, size: int): seq<Entry> {
    if entries == [] then []
    else if entries[0].index == index then [entries[0].(received := size)] + entries[1..]
    else [entries[0]] + Received(entries[1..], index, size)
  }

  lemma {:induction false} ReceivedAt(entries: seq<Entry>, index: nat, size: int, i: nat)
    requires i <= |entries| && (i < |entries| ==> entries[i].index == index)
    requires forall k :: 0 <= k < i ==> entries[k].index != index
    ensures Received(entries, index, size) == if i == |entries| then entries else entries[i := entries[i].(received := size)]
  {
    if entries != [] {
      assert entries == [entries[0]] + entries[1..];
      if i > 0 {
        ReceivedAt(entries[1..], index, size, i - 1);
      }
    }
  }

  lemma RenameNone(files: Files)
    ensures RenameAll(files, []) == files
  {
  }

  lemma RenameNext(files: Files, entries: seq<Entry>, i: nat)
    requires i < |entries|
    ensures RenameAll(files, entries[..i + 1]) == Rename(RenameAll(files, entries[..i]), entries[i])
  {
    assert entries[..i + 1][..i] == entries[..i];
  }

  // ---------- the session on disk ----------

  class UploadSession {
    var files: Files
    var meta: Option<seq<Entry>>

    /** Stage one empty part per file; a part already there keeps its bytes. */
    method InitMulti(items: seq<(string, int)>)
      modifies this
      ensures meta == Some(Staged(items))
      ensures Initialised(old(files), files, Staged(items))
    {
      hide Part, Initialised;
      var entries: seq<Entry> := [];
      InitialisedNone(files);
      for i := 0 to |items|
        invariant |entries| == i && forall k :: 0 <= k < i ==> entries[k] == Entry(k, items[k].0, items[k].1, 0)
        invariant Initialised(old(files), files, entries)
      {
        var entry := Entry(i, items[i].0, items[i].1, 0);
        InitialisedMore(old(files), files, entries, entry);
        if Part(entry) !in files {
          files := files[Part(entry) := []];
        }
        entries := entries + [entry];
      }
      assert entries == Staged(items);
      meta := Some(entries);
    }

    /** Append a chunk to a part and record its new size in the first sidecar entry with this index. */
    method AppendChunkAt(part: string, data: Data, index: nat) returns (size: nat)
      modifies this
      ensures files == old(files)[part := (if part in old(files) then old(files)[part] else []) + data]
      ensures size == |files[part]|
      ensures meta.Some? == old(meta).Some?
      ensures meta.Some? ==> meta.value == Received(old(meta).value, index, size)
    {
      files := files[part := (if part in files then files[part] else []) + data];
      size := |files[part]|;
      if meta.Some? {
        var entries := meta.value;
        var i := 0;
        while i < |entries| && entries[i].index != index
          invariant 0 <= i <= |entries|
          invariant forall k :: 0 <= k < i ==> entries[k].index != index
        {
          i := i + 1;
        }
        ReceivedAt(entries, index, size, i);
        if i < |entries| {
          entries := entries[i := entries[i].(received := size)];
        }
        meta := Some(entries);
      }
    }

    /** The staging names that neither exist nor have become final files of the declared size. */
    method MissingStaging(entries: seq<Entry>) returns (missing: seq<string>)
      ensures missing == Missing(files, entries)
    {
      hide Resolves, Part;
      missing := [];
      for i := 0 to |entries|
        invariant missing == Missing(files, entries[..i])
      {
        assert entries[..i + 1][..i] == entries[..i];
        if !Resolves(files, entries[i]) {
          missing := missing + [Part(entries[i])];
        }
      }
      assert entries[..|entries|] == entries;
    }

    /** Check every part, then rename the staged ones in index order. */
    method FinalizeMulti(entriesAsRead: seq<Entry>, removeMeta: bool, lifetime: Option<nat>) returns (outcome: Outcome)
      modifies this
      ensures (files, outcome) == Finalize(old(files), Ordered(entriesAsRead), lifetime)
      ensures meta == if removeMeta && outcome.Finals? then None else old(meta)
    {
      hide Missing, RenameAll, Ordered, PartName;
      var entries := Ordered(entriesAsRead);
      var missing := MissingStaging(entries);
      if missing != [] {
        return MissingParts(missing);
      }
      RenameNone(files);
      var finals := [];
      for i := 0 to |entries|
        invariant meta == old(meta) && files == RenameAll(old(files), entries[..i])
        invariant |finals| == i && forall k :: 0 <= k < i ==> finals[k] == Final(entries[k])
        invariant lifetime.Some? ==> i <= lifetime.value
      {
        if lifetime == Some(i) {
          return Died;
        }
        RenameNext(old(files), entries, i);
        if Part(entries[i]) in files {
          files := (files - {Part(entries[i])})[Final(entries[i]) := files[Part(entries[i])]];
        }
        finals := finals + [Final(entries[i])];
      }
      assert entries[..|entries|] == entries && finals == FinalNames(entries);
      if removeMeta {
        meta := None;
      }
      outcome := Finals(finals);
    }
  }

  // ---------- the sidecar counts the bytes on disk ----------

  /** Every entry's part is there, and its recorded progress is the size of the part. */
  ghost predicate BooksKept(files: Files, entries: seq<Entry>) {
    forall e :: e in entries ==> Part(e) in files && |files[Part(e)]| == e.received
  }

  /** A chunk grows its own part by exactly its bytes and no other; the sidecar keeps counting right. */
  lemma AppendKeepsTheBooks(files: Files, entries: seq<Entry>, i: nat, data: Data)
    requires Session(entries) && i < |entries| && BooksKept(files, entries)
    ensures var part := Part(entries[i]);
            var after := files[part := files[part] + data];
            var recorded := Received(entries, entries[i].index, |after[part]|);
            && BooksKept(after, recorded) && Session(recorded)
            && |recorded| == |entries| && recorded[i].received == entries[i].received + |data|
            && (forall j :: 0 <= j < |entries| && j != i ==>
                recorded[j] == entries[j] && after[Part(entries[j])] == files[Part(entries[j])])
  {
    hide Part, IsSuffix, Received;
    var part := Part(entries[i]);
    var size := |files[part] + data|;
    ReceivedAt(entries, entries[i].index, size, i);
    var recorded := Received(entries, entries[i].index, size);
    forall j | 0 <= j < |entries| && j != i ensures Part(entries[j]) != part {
      NamesApart(entries[i], entries[j]);
    }
    SamePart(entries[i], size);
    forall e | e in recorded ensures IsSuffix(e.suffix) && Part(e) in files[part := files[part] + data] {
      var j :| 0 <= j < |recorded| && recorded[j] == e;
      assert entries[j] in entries;
    }
  }

  lemma SamePart(e: Entry, size: int)
    ensures Part(e.(received := size)) == Part(e)
  {
  }

  lemma SameFinal(e: Entry, size: int)
    ensures Final(e.(received := size)) == Final(e)
  {
  }

  /** A new session starts with right books exactly when no part holds bytes already: those are kept but not counted. */
  lemma FreshBooksIffPartsEmpty(before: Files, after: Files, items: seq<(string, int)>)
    requires Initialised(before, after, Staged(items))
    ensures BooksKept(after, Staged(items)) <==> forall e :: e in Staged(items) && Part(e) in before ==> before[Part(e)] == []
  {
    hide Part;
    assert forall e :: e in Staged(items) ==> e.received == 0;
  }

  lemma StagedIsSession(items: seq<(string, int)>)
    requires forall item :: item in items ==> IsSuffix(item.0)
    ensures Session(Staged(items))
  {
    hide IsSuffix;
    forall e | e in Staged(items) ensures IsSuffix(e.suffix) {
      assert items[e.index] in items;
    }
  }

  // ---------- from the first chunk to the final files ----------

  datatype Chunk = Chunk(index: nat, data: Data)

  /** The directory and the sidecar after a series of appends, each to the part of its entry. */
  function Appended(files: Files, entries: seq<Entry>, chunks: seq<Chunk>): (Files, seq<Entry>)
    requires forall c :: c in chunks ==> c.index < |entries|
    decreases |chunks|
  {
    if chunks == [] then (files, entries)
    else
      var init, last := chunks[..|chunks| - 1], chunks[|chunks| - 1];
      assert forall c :: c in init ==> c in chunks;
      var (f, es) := Appended(files, entries, init);
      var part := Part(entries[last.index]);
      var bytes := (if part in f then f[part] else []) + last.data;
      (f[part := bytes], Received(es, entries[last.index].index, |bytes|))
  }

  /** The bytes sent to one entry, in order. */
  function Gathered(chunks: seq<Chunk>, index: nat): Data {
    if chunks == [] then []
    else
      var last := chunks[|chunks| - 1];
      Gathered(chunks[..|chunks| - 1], index) + (if last.index == index then last.data else [])
  }

  /** The session's parts hold exactly what was sent, the sidecar counts it, and nothing else in it changed. */
  ghost predicate Arrived(files: Files, recorded: seq<Entry>, entries: seq<Entry>, chunks: seq<Chunk>) {
    && |recorded| == |entries| && Session(recorded) && BooksKept(files, recorded)
    && (forall i :: 0 <= i < |entries| ==> recorded[i] == entries[i].(received := recorded[i].received))
    && (forall i :: 0 <= i < |entries| ==> Part(entries[i]) in files && files[Part(entries[i])] == Gathered(chunks, i))
  }

  lemma {:induction false} AppendsArrive(files: Files, entries: seq<Entry>, chunks: seq<Chunk>)
    requires Session(entries) && BooksKept(files, entries) && forall e :: e in entries ==> files[Part(e)] == []
    requires forall c :: c in chunks ==> c.index < |entries|
    ensures var (f, es) := Appended(files, entries, chunks); Arrived(f, es, entries, chunks)
    decreases |chunks|
  {
    hide Part, Session, BooksKept, Received;
    if chunks != [] {
      var init, last := chunks[..|chunks| - 1], chunks[|chunks| - 1];
      assert forall c :: c in init ==> c in chunks;
      AppendsArrive(files, entries, init);
      var (f, es) := Appended(files, entries, init);
      ArrivedMore(f, es, entries, init, last);
      assert init + [last] == chunks;
    } else {
      ArrivedNone(files, entries);
    }
  }

  lemma ArrivedNone(files: Files, entries: seq<Entry>)
    requires Session(entries) && BooksKept(files, entries) && forall e :: e in entries ==> files[Part(e)] == []
    ensures Arrived(files, entries, entries, [])
  {
    hide Part;
  }

  lemma ArrivedMore(files: Files, recorded: seq<Entry>, entries: seq<Entry>, chunks: seq<Chunk>, c: Chunk)
    requires Arrived(files, recorded, entries, chunks) && c.index < |entries|
    ensures var part := Part(entries[c.index]);
            var bytes := (if part in files then files[part] else []) + c.data;
            Arrived(files[part := bytes], Received(recorded, entries[c.index].index, |bytes|), entries, chunks + [c])
  {
    hide Part, Session, BooksKept, Received;
    var n := c.index;
    SamePart(entries[n], recorded[n].received);
    AppendKeepsTheBooks(files, recorded, n, c.data);
    var more := chunks + [c];
    assert more[..|more| - 1] == chunks;
    forall i | 0 <= i < |entries| ensures Part(recorded[i]) == Part(entries[i]) {
      SamePart(entries[i], recorded[i].received);
    }
    var after := Received(recorded, entries[n].index, |files[Part(entries[n])] + c.data|);
    ReceivedAtIndex(recorded, n, |files[Part(entries[n])] + c.data|);
  }

  lemma ReceivedAtIndex(entries: seq<Entry>, i: nat, size: int)
    requires Session(entries) && i < |entries|
    ensures Received(entries, entries[i].index, size) == entries[i := entries[i].(received := size)]
  {
    ReceivedAt(entries, entries[i].index, size, i);
  }

  lemma {:induction false} AscendsFast(es: seq<Entry>, i: nat, j: nat)
    requires Ascending(es) && i <= j < |es|
    ensures es[i].index + (j - i) <= es[j].index
    decreases j - i
  {
    if i < j {
      AscendsFast(es, i, j - 1);
      assert es[j - 1].index < es[j].index;
    }
  }

  /** Ascending entries over the indices below their number stand each at its own index. */
  lemma EachAtItsIndex(es: seq<Entry>, i: nat)
    requires Ascending(es) && i < |es| && forall e :: e in es ==> e.index < |es|
    ensures es[i].index == i
  {
    AscendsFast(es, 0, i);
    AscendsFast(es, i, |es| - 1);
    assert es[|es| - 1] in es;
  }

  lemma RecordedInOrder(recorded: seq<Entry>, entries: seq<Entry>, items: seq<(string, int)>, i: nat)
    requires entries == Staged(items) && |recorded| == |items| && Session(recorded) && i < |items|
    requires forall k :: 0 <= k < |entries| ==> recorded[k] == entries[k].(received := recorded[k].received)
    ensures |Ordered(recorded)| == |items|
    ensures Ordered(recorded)[i].index == i && Ordered(recorded)[i].suffix == items[i].0
  {
    hide Session, Ordered, Ascending;
    OrderedIsSorted(recorded);
    OrderedIsPermuted(recorded);
    var es := Ordered(recorded);
    forall e | e in es ensures e in recorded && e.index < |es| {
      assert e in multiset(es);
    }
    EachAtItsIndex(es, i);
    assert es[i] in es;
    var k :| 0 <= k < |recorded| && recorded[k] == es[i];
  }

  /**
   The whole upload: staged in a directory without old bytes, filled chunk by
   chunk up to the declared sizes, finalized with any number of interruptions.
   The answer then names one final file for each item, in the order of the items,
   and every one of them is the concatenation of the chunks sent for its item.
   */
  lemma UploadArrives(before: Files, after: Files, items: seq<(string, int)>, chunks: seq<Chunk>, lifetimes: seq<Option<nat>>)
    requires Initialised(before, after, Staged(items)) && forall item :: item in items ==> IsSuffix(item.0)
    requires forall e :: e in Staged(items) && Part(e) in before ==> before[Part(e)] == []
    requires forall c :: c in chunks ==> c.index < |items|
    requires forall i :: 0 <= i < |items| ==> |Gathered(chunks, i)| == items[i].1
    ensures var (files, recorded) := Appended(after, Staged(items), chunks);
            var es := Ordered(recorded);
            var (final, outcome) := Finalize(Runs(files, es, lifetimes), es, None);
            && outcome.Finals? && |outcome.names| == |items|
            && forall i :: 0 <= i < |items| ==>
                outcome.names[i] == PartName(i, items[i].0)
                && outcome.names[i] in final && final[outcome.names[i]] == Gathered(chunks, i)
  {
    hide PartName, Part, Final, Session, BooksKept, IsSuffix, Ordered, Finalize, Runs, RenameAll, Appended, Gathered, Complete;
    var entries := Staged(items);
    StagedIsSession(items);
    FreshBooksIffPartsEmpty(before, after, items);
    forall e | e in entries ensures Part(e) in after && after[Part(e)] == [] {
      assert Part(e) !in before ==> after[Part(e)] == [];
    }
    AppendsArrive(after, entries, chunks);
    var (files, recorded) := Appended(after, entries, chunks);
    OrderedIsPermuted(recorded);
    var es := Ordered(recorded);
    forall i | 0 <= i < |items|
      ensures recorded[i] in recorded && Part(recorded[i]) == Part(entries[i]) && Final(recorded[i]) == PartName(i, items[i].0)
    {
      SamePart(entries[i], recorded[i].received);
      SameFinal(entries[i], recorded[i].received);
      FinalIs(entries[i]);
    }
    ArrivedIsComplete(files, recorded, entries, chunks);
    AnyNumberOfRunsEndsTheSame(files, recorded, lifetimes);
    forall i | 0 <= i < |items| ensures |FinalNames(es)| == |items| && FinalNames(es)[i] == PartName(i, items[i].0) {
      RecordedInOrder(recorded, entries, items, i);
      FinalIs(es[i]);
    }
  }

  lemma FinalIs(e: Entry)
    ensures Final(e) == PartName(e.index, e.suffix)
  {
  }

  lemma ArrivedIsComplete(files: Files, recorded: seq<Entry>, entries: seq<Entry>, chunks: seq<Chunk>)
    requires Arrived(files, recorded, entries, chunks)
    requires forall i :: 0 <= i < |entries| ==> |Gathered(chunks, i)| == entries[i].totalSize
    ensures Complete(files, Ordered(recorded))
  {
    hide Part, Final, Session, BooksKept, Ordered, Gathered;
    OrderedIsSorted(recorded);
    forall e | e in Ordered(recorded) ensures Resolves(files, e) && Part(e) in files && |files[Part(e)]| == e.totalSize {
      assert e in multiset(Ordered(recorded));
      var i :| 0 <= i < |recorded| && recorded[i] == e;
      SamePart(entries[i], recorded[i].received);
    }
  }

  // ---------- the order of the entries ----------

  /** What a session's sidecar holds: one entry per index, suffixes as file names have them. */
  ghost predicate Session(entries: seq<Entry>) {
    && (forall e :: e in entries ==> IsSuffix(e.suffix))
    && (forall i, j :: 0 <= i < j < |entries| ==> entries[i].index != entries[j].index)
  }

  ghost predicate Ascending(entries: seq<Entry>) {
    forall i, j :: 0 <= i < j < |entries| ==> entries[i].index < entries[j].index
  }

  lemma {:induction false} InsertLastIsExact(entries: seq<Entry>, e: Entry)
    ensures multiset(InsertLast(entries, e)) == multiset(entries) + multiset{e}
    decreases |entries|
  {
    if entries != [] {
      var init, last := entries[..|entries| - 1], entries[|entries| - 1];
      assert entries == init + [last];
      InsertLastIsExact(init, e);
    }
  }

  lemma {:induction false} InsertLastAscends(entries: seq<Entry>, e: Entry)
    requires Ascending(entries) && forall x :: x in entries ==> x.index != e.index
    ensures Ascending(InsertLast(entries, e))
    decreases |entries|
  {
    if entries != [] && entries[|entries| - 1].index > e.index {
      var init, last := entries[..|entries| - 1], entries[|entries| - 1];
      assert forall x :: x in init ==> x in entries;
      InsertLastAscends(init, e);
      InsertLastIsExact(init, e);
      var result := InsertLast(init, e);
      hide InsertLast;
      forall i | 0 <= i < |result| ensures result[i].index < last.index {
        assert result[i] in multiset(result);
        if result[i] != e {
          assert result[i] in multiset(init);
        }
      }
    }
  }

  /** Finalizing visits every entry of the sidecar once, by ascending index. */
  lemma {:induction false} OrderedIsSorted(entries: seq<Entry>)
    requires Session(entries)
    ensures multiset(Ordered(entries)) == multiset(entries) && Ascending(Ordered(entries))
    ensures forall e :: e in Ordered(entries) ==> IsSuffix(e.suffix)
    decreases |entries|
  {
    hide IsSuffix;
    if entries != [] {
      var init, last := entries[..|entries| - 1], entries[|entries| - 1];
      assert entries == init + [last];
      OrderedIsSorted(init);
      InsertLastIsExact(Ordered(init), last);
      forall x | x in Ordered(init) ensures x.index != last.index {
        assert x in multiset(init);
      }
      InsertLastAscends(Ordered(init), last);
      forall e | e in Ordered(entries) ensures IsSuffix(e.suffix) {
        assert e in multiset(entries);
      }
    }
  }

  // ---------- what renaming does ----------

  /** Names of different entries never meet. */
  ghost predicate Apart(es: seq<Entry>) {
    && (forall i :: 0 <= i < |es| ==> Final(es[i]) != Part(es[i]))
    && (forall i, j :: 0 <= i < |es| && 0 <= j < |es| && i != j ==>
          Final(es[i]) != Final(es[j]) && Part(es[i]) != Part(es[j]) && Final(es[i]) != Part(es[j]))
  }

  lemma AscendingIsApart(es: seq<Entry>)
    requires Ascending(es) && forall e :: e in es ==> IsSuffix(e.suffix)
    ensures Apart(es)
  {
    hide Final, Part, IsSuffix;
    forall i | 0 <= i < |es| ensures Final(es[i]) != Part(es[i]) {
      NamesApart(es[i], es[i]);
    }
    forall i, j | 0 <= i < |es| && 0 <= j < |es| && i != j
      ensures Final(es[i]) != Final(es[j]) && Part(es[i]) != Part(es[j]) && Final(es[i]) != Part(es[j])
    {
      NamesApart(es[i], es[j]);
      assert if i < j then es[i].index < es[j].index else es[j].index < es[i].index;
    }
  }

  /** The file an entry stands for has the same bytes in both directories, or is absent from both. */
  ghost predicate SameAt(files: Files, other: Files, name: string) {
    (name in files <==> name in other) && (name in files ==> files[name] == other[name])
  }

  /**
   After the first `n` renames: their staging names are gone, their final names
   hold the staged bytes (or what was there, if nothing was staged), and every
   other name is as before.
   */
  ghost predicate Renamed(files: Files, es: seq<Entry>, n: nat, after: Files)
    requires n <= |es|
  {
    && (forall i :: 0 <= i < n ==> Part(es[i]) !in after)
    && (forall i :: 0 <= i < n && Part(es[i]) in files ==> Final(es[i]) in after && after[Final(es[i])] == files[Part(es[i])])
    && (forall i :: 0 <= i < n && Part(es[i]) !in files ==> SameAt(files, after, Final(es[i])))
    && (forall i :: n <= i < |es| ==> SameAt(files, after, Part(es[i])) && SameAt(files, after, Final(es[i])))
    && (forall name :: Foreign(es, name) ==> SameAt(files, after, name))
  }

  /** No entry uses this name. */
  ghost predicate Foreign(es: seq<Entry>, name: string) {
    forall i :: 0 <= i < |es| ==> name != Part(es[i]) && name != Final(es[i])
  }

  lemma RenameOne(files: Files, e: Entry, name: string)
    requires Final(e) != Part(e)
    ensures Part(e) !in Rename(files, e)
    ensures name != Part(e) && name != Final(e) ==> SameAt(files, Rename(files, e), name)
    ensures Part(e) in files ==> Final(e) in Rename(files, e) && Rename(files, e)[Final(e)] == files[Part(e)]
    ensures Part(e) !in files ==> Rename(files, e) == files
  {
  }

  lemma {:induction false} RenamedPrefix(files: Files, es: seq<Entry>, n: nat)
    requires n <= |es| && Apart(es)
    ensures Renamed(files, es, n, RenameAll(files, es[..n]))
    decreases n
  {
    hide Rename, Final, Part;
    if n > 0 {
      var before := RenameAll(files, es[..n - 1]);
      RenamedPrefix(files, es, n - 1);
      RenameNext(files, es, n - 1);
      var e := es[n - 1];
      forall name ensures name != Part(e) && name != Final(e) ==> SameAt(before, Rename(before, e), name) {
        RenameOne(before, e, name);
      }
      RenameOne(before, e, Final(e));
      hide RenameAll;
      RenamedStep(files, es, n, before);
    } else {
      RenameNone(files);
    }
  }

  lemma RenamedStep(files: Files, es: seq<Entry>, n: nat, before: Files)
    requires 0 < n <= |es| && Apart(es) && Renamed(files, es, n - 1, before)
    ensures Renamed(files, es, n, Rename(before, es[n - 1]))
  {
    hide Final, Part;
    var e := es[n - 1];
    var after := Rename(before, e);
    RenameOne(before, e, Final(e));
    forall name | name != Part(e) && name != Final(e) ensures SameAt(before, after, name) {
      RenameOne(before, e, name);
    }
    hide Rename;
    forall i | 0 <= i < n - 1
      ensures SameAt(before, after, Final(es[i])) && Part(es[i]) !in after
    {
      assert SameAt(before, after, Part(es[i]));
    }
    forall i | n <= i < |es|
      ensures SameAt(files, after, Part(es[i])) && SameAt(files, after, Final(es[i]))
    {
      assert SameAt(before, after, Part(es[i])) && SameAt(before, after, Final(es[i]));
    }
    forall name | Foreign(es, name) ensures SameAt(files, after, name) {
      assert SameAt(files, before, name) && name != Part(es[n - 1]) && name != Final(es[n - 1]);
      assert SameAt(before, after, name);
    }
  }

  // ---------- interrupted and run again ----------

  /** The missing list names exactly the entries with no usable file; the order is that of the entries. */
  lemma {:induction false} MissingIsExact(files: Files, es: seq<Entry>)
    ensures forall name :: name in Missing(files, es) <==> exists e :: e in es && !Resolves(files, e) && name == Part(e)
    ensures Missing(files, es) == [] <==> forall e :: e in es ==> Resolves(files, e)
    decreases |es|
  {
    hide Resolves, Part;
    if es != [] {
      var init, last := es[..|es| - 1], es[|es| - 1];
      assert es == init + [last];
      MissingIsExact(files, init);
    }
  }

  /** A run that finds an entry missing renames nothing, however long it would have lived. */
  lemma MissingRenamesNothing(files: Files, es: seq<Entry>, lifetime: Option<nat>, e: Entry)
    requires e in es && !Resolves(files, e)
    ensures Finalize(files, es, lifetime).0 == files && Finalize(files, es, lifetime).1.MissingParts?
    ensures Part(e) in Finalize(files, es, lifetime).1.names
  {
    hide Resolves, Part, Missing;
    MissingIsExact(files, es);
  }

  /** There is neither a staged part of the entry, of whatever size, nor a final file of the declared size. */
  ghost predicate Lost(files: Files, e: Entry) {
    && PartName(e.index, e.suffix) + ".part" !in files
    && !(PartName(e.index, e.suffix) in files && |files[PartName(e.index, e.suffix)]| == e.totalSize)
  }

  lemma {:induction false} OrderedIsPermuted(entries: seq<Entry>)
    ensures multiset(Ordered(entries)) == multiset(entries) && |Ordered(entries)| == |entries|
    decreases |entries|
  {
    if entries != [] {
      var init, last := entries[..|entries| - 1], entries[|entries| - 1];
      assert entries == init + [last];
      OrderedIsPermuted(init);
      InsertLastIsExact(Ordered(init), last);
      assert |multiset(Ordered(entries))| == |multiset(entries)|;
    }
  }

  lemma LostIs(files: Files, e: Entry)
    ensures Lost(files, e) <==> !Resolves(files, e)
    ensures Part(e) == PartName(e.index, e.suffix) + ".part"
  {
  }

  /** The refusal names the staging parts of the lost entries, and nothing else. */
  ghost predicate NamesTheLost(names: seq<string>, files: Files, entries: seq<Entry>) {
    forall name :: name in names <==> exists e :: e in entries && Lost(files, e) && name == PartName(e.index, e.suffix) + ".part"
  }

  /**
   How finalizing ends: refused, naming exactly the lost entries and touching
   nothing, when there is one; dead when its life is too short for the entries;
   otherwise with the final names, one for each entry, in index order.
   */
  lemma FinalizeAnswers(files: Files, entries: seq<Entry>, lifetime: Option<nat>)
    ensures var es := Ordered(entries);
            var (after, outcome) := Finalize(files, es, lifetime);
            && (outcome.MissingParts? <==> exists e :: e in entries && Lost(files, e))
            && (outcome.MissingParts? ==> after == files && NamesTheLost(outcome.names, files, entries))
            && (outcome.Died? <==>
                  lifetime.Some? && lifetime.value < |entries| && forall e :: e in entries ==> !Lost(files, e))
            && (outcome.Finals? ==>
                  |outcome.names| == |es| == |entries|
                  && forall i :: 0 <= i < |es| ==> outcome.names[i] == PartName(es[i].index, es[i].suffix))
  {
    hide Resolves, Part, PartName, Missing, RenameAll, Ordered, Lost;
    var es := Ordered(entries);
    OrderedIsPermuted(entries);
    MissingIsExact(files, es);
    forall e ensures e in es <==> e in entries {
      assert e in multiset(es) <==> e in multiset(entries);
    }
    forall e ensures Lost(files, e) <==> !Resolves(files, e) {
      LostIs(files, e);
    }
    forall e ensures Part(e) == PartName(e.index, e.suffix) + ".part" {
      LostIs(files, e);
    }
  }

  /** How the names look on disk. */
  lemma NameVectors()
    ensures PartName(0, ".mp3") == "audio.original.000.mp3" && PartName(41, "") == "audio.original.041"
    ensures Part(Entry(7, ".wav", 10, 0)) == "audio.original.007.wav.part"
  {
    assert Digits(0) == "0" && Digits(7) == "7" && Digits(4) == "4" && Digits(41) == "41";
    assert Pad3(0) == "000" && Pad3(7) == "007" && Pad3(41) == "041";
  }

  /** The staged parts among the first `n` entries have their declared sizes. */
  ghost predicate Sized(files: Files, es: seq<Entry>, n: nat)
    requires n <= |es|
  {
    forall i :: 0 <= i < n && Part(es[i]) in files ==> |files[Part(es[i])]| == es[i].totalSize
  }

  lemma SameEverywhere(files: Files, other: Files)
    requires forall name :: SameAt(files, other, name)
    ensures files == other
  {
    forall name ensures name in files <==> name in other {
      assert SameAt(files, other, name);
    }
    forall name | name in files ensures files[name] == other[name] {
      assert SameAt(files, other, name);
    }
  }

  /** Finishing after `n` renames gives the directory of a run that was never interrupted. */
  lemma RenamingResumes(files: Files, es: seq<Entry>, n: nat)
    requires n <= |es| && Apart(es)
    ensures RenameAll(RenameAll(files, es[..n]), es) == RenameAll(files, es)
  {
    hide Final, Part, RenameAll, Apart;
    var middle := RenameAll(files, es[..n]);
    var resumed, direct := RenameAll(middle, es), RenameAll(files, es);
    assert es[..|es|] == es;
    RenamedPrefix(files, es, n);
    RenamedPrefix(middle, es, |es|);
    RenamedPrefix(files, es, |es|);
    forall name ensures SameAt(resumed, direct, name) {
      if i :| 0 <= i < |es| && (name == Part(es[i]) || name == Final(es[i])) {
        EntryResumes(files, middle, resumed, direct, es, n, i);
      } else {
        assert Foreign(es, name);
        assert SameAt(files, middle, name) && SameAt(middle, resumed, name) && SameAt(files, direct, name);
      }
    }
    SameEverywhere(resumed, direct);
  }

  lemma EntryResumes(files: Files, middle: Files, resumed: Files, direct: Files, es: seq<Entry>, n: nat, i: nat)
    requires i < |es| && n <= |es|
    requires Renamed(files, es, n, middle) && Renamed(middle, es, |es|, resumed) && Renamed(files, es, |es|, direct)
    ensures SameAt(resumed, direct, Part(es[i])) && SameAt(resumed, direct, Final(es[i]))
  {
    hide Final, Part;
  }

  /** An entry handled before the interruption resolves again exactly when its staged bytes had the declared size. */
  lemma ResolvesAgain(files: Files, es: seq<Entry>, n: nat, i: nat)
    requires n <= |es| && i < |es| && Apart(es) && Resolves(files, es[i])
    ensures Resolves(RenameAll(files, es[..n]), es[i])
            <==> (i < n && Part(es[i]) in files ==> |files[Part(es[i])]| == es[i].totalSize)
  {
    hide Final, Part, RenameAll, Apart;
    RenamedPrefix(files, es, n);
    assert SameAt(files, RenameAll(files, es[..n]), Final(es[i])) || (i < n && Part(es[i]) in files);
  }

  /**
   A run interrupted after `n` renames and then run again ends exactly where one
   uninterrupted run ends if and only if every part renamed before the
   interruption has its declared size; otherwise the second run reports it
   missing and renames nothing more.
   */
  lemma ResumesIffSized(files: Files, entries: seq<Entry>, n: nat)
    requires Session(entries) && n <= |entries| && Missing(files, Ordered(entries)) == []
    ensures |Ordered(entries)| == |entries|
    ensures var es := Ordered(entries);
            var (middle, outcome) := Finalize(files, es, Some(n));
            && (Finalize(middle, es, None) == Finalize(files, es, None) <==> Sized(files, es, n))
            && (!Sized(files, es, n) ==> Finalize(middle, es, None) == (middle, MissingParts(Missing(middle, es))))
  {
    hide RenameAll, Missing, Ordered, Session, Part, Final, Resolves;
    var es := Ordered(entries);
    OrderedIsSorted(entries);
    assert |es| == |multiset(es)| == |entries|;
    AscendingIsApart(es);
    RenamingResumes(files, es, n);
    assert es[..|es|] == es;
    MissingIsExact(files, es);
    var middle := RenameAll(files, es[..n]);
    MissingIsExact(middle, es);
    forall i | 0 <= i < |es|
      ensures Resolves(middle, es[i]) <==> (i < n && Part(es[i]) in files ==> |files[Part(es[i])]| == es[i].totalSize)
    {
      ResolvesAgain(files, es, n, i);
    }
  }

  // ---------- any number of interruptions ----------

  /** The directory after a series of runs, each of which may die. */
  function Runs(files: Files, es: seq<Entry>, lifetimes: seq<Option<nat>>): Files {
    if lifetimes == [] then files
    else Finalize(Runs(files, es, lifetimes[..|lifetimes| - 1]), es, lifetimes[|lifetimes| - 1]).0
  }

  /** Every entry resolves, and every staged part has its declared size. */
  ghost predicate Complete(files: Files, es: seq<Entry>) {
    (forall e :: e in es ==> Resolves(files, e)) && Sized(files, es, |es|)
  }

  lemma CompleteSurvives(files: Files, es: seq<Entry>, n: nat)
    requires n <= |es| && Apart(es) && Complete(files, es)
    ensures Complete(RenameAll(files, es[..n]), es)
  {
    hide RenameAll, Resolves, Apart, Part, Final;
    var after := RenameAll(files, es[..n]);
    forall e | e in es ensures Resolves(after, e) {
      var i :| 0 <= i < |es| && es[i] == e;
      ResolvesAgain(files, es, n, i);
    }
    RenamedPrefix(files, es, n);
    assert forall i :: n <= i < |es| ==> SameAt(files, after, Part(es[i]));
  }

  lemma {:induction false} RunsStayComplete(files: Files, es: seq<Entry>, lifetimes: seq<Option<nat>>)
    requires Apart(es) && Complete(files, es)
    ensures Complete(Runs(files, es, lifetimes), es)
    ensures RenameAll(Runs(files, es, lifetimes), es) == RenameAll(files, es)
    decreases |lifetimes|
  {
    hide RenameAll, Complete, Apart;
    if lifetimes != [] {
      var init, last := lifetimes[..|lifetimes| - 1], lifetimes[|lifetimes| - 1];
      RunsStayComplete(files, es, init);
      var before := Runs(files, es, init);
      CompleteResolves(before, es);
      var n := if last.Some? && last.value < |es| then last.value else |es|;
      assert es[..|es|] == es;
      CompleteSurvives(before, es, n);
      RenamingResumes(before, es, n);
    }
  }

  lemma CompleteResolves(files: Files, es: seq<Entry>)
    requires Complete(files, es)
    ensures Missing(files, es) == []
  {
    hide Resolves, Missing;
    MissingIsExact(files, es);
  }

  /** With parts of their declared sizes, any number of interrupted runs changes nothing about how it ends. */
  lemma AnyNumberOfRunsEndsTheSame(files: Files, entries: seq<Entry>, lifetimes: seq<Option<nat>>)
    requires Session(entries) && Complete(files, Ordered(entries))
    ensures var es := Ordered(entries);
            && Finalize(Runs(files, es, lifetimes), es, None) == Finalize(files, es, None)
            && Finalize(files, es, None) == (RenameAll(files, es), Finals(FinalNames(es)))
            && (forall e :: e in entries && Part(e) in files ==>
                  Final(e) in RenameAll(files, es) && RenameAll(files, es)[Final(e)] == files[Part(e)])
  {
    hide RenameAll, Missing, Ordered, Session, Part, Final, Resolves, Complete, Runs;
    var es := Ordered(entries);
    OrderedIsSorted(entries);
    AscendingIsApart(es);
    RunsStayComplete(files, es, lifetimes);
    CompleteResolves(files, es);
    CompleteResolves(Runs(files, es, lifetimes), es);
    assert es[..|es|] == es;
    RenamedPrefix(files, es, |es|);
    forall e | e in entries && Part(e) in files
      ensures Final(e) in RenameAll(files, es) && RenameAll(files, es)[Final(e)] == files[Part(e)]
    {
      assert e in multiset(es);
    }
  }

  // ---------- names in order ----------

  predicate Less(a: string, b: string) {
    if b == "" then false
    else if a == "" then true
    else a[0] < b[0] || (a[0] == b[0] && Less(a[1..], b[1..]))
  }

  lemma {:induction false} LessAfterPrefix(p: string, a: string, b: string)
    ensures Less(p + a, p + b) == Less(a, b)
  {
    if p == "" {
      assert p + a == a && p + b == b;
    } else {
      assert (p + a)[1..] == p[1..] + a && (p + b)[1..] == p[1..] + b;
      LessAfterPrefix(p[1..], a, b);
    }
  }

  function ThreeDigits(n: nat): string
    requires n < 1000
  {
    [Digit(n / 100), Digit(n / 10 % 10), Digit(n % 10)]
  }

  lemma Pad3IsThreeDigits(n: nat)
    requires n < 1000
    ensures Pad3(n) == ThreeDigits(n)
  {
    if n >= 100 {
      assert Digits(n / 100) == [Digit(n / 100)];
      assert Digits(n / 10) == Digits(n / 100) + [Digit(n / 10 % 10)];
      assert Digits(n) == Digits(n / 10) + [Digit(n % 10)];
    } else if n >= 10 {
      assert Digits(n / 10) == [Digit(n / 10)] && Digits(n) == Digits(n / 10) + [Digit(n % 10)];
      assert n / 100 == 0 && n / 10 % 10 == n / 10;
    } else {
      assert Digits(n) == [Digit(n)] && n / 100 == 0 && n / 10 == 0 && n % 10 == n;
    }
  }

  lemma LessHead(c: char, s: string, d: char, u: string)
    ensures Less([c] + s, [d] + u) == (c < d || (c == d && Less(s, u)))
  {
    assert ([c] + s)[1..] == s && ([d] + u)[1..] == u;
  }

  /** The smaller number has the smaller digit where the two first differ. */
  lemma FirstDifference(a0: nat, a1: nat, a2: nat, b0: nat, b1: nat, b2: nat)
    requires a0 < 10 && a1 < 10 && a2 < 10 && b0 < 10 && b1 < 10 && b2 < 10
    requires a0 * 100 + a1 * 10 + a2 < b0 * 100 + b1 * 10 + b2
    ensures Digit(a0) < Digit(b0) || (a0 == b0 && (Digit(a1) < Digit(b1) || (a1 == b1 && Digit(a2) < Digit(b2))))
  {
  }

  lemma DigitsOf(n: nat)
    requires n < 1000
    ensures n / 100 < 10 && n / 100 * 100 + n / 10 % 10 * 10 + n % 10 == n
  {
    assert n / 10 / 10 == n / 100;
  }

  lemma LessByDigits(i: nat, x: string, j: nat, y: string)
    requires i < j < 1000
    ensures Less(ThreeDigits(i) + x, ThreeDigits(j) + y)
  {
    var a0, a1, a2 := Digit(i / 100), Digit(i / 10 % 10), Digit(i % 10);
    var b0, b1, b2 := Digit(j / 100), Digit(j / 10 % 10), Digit(j % 10);
    assert ThreeDigits(i) + x == [a0] + ([a1] + ([a2] + x));
    assert ThreeDigits(j) + y == [b0] + ([b1] + ([b2] + y));
    hide Less, ThreeDigits, Digit;
    LessHead(a0, [a1] + ([a2] + x), b0, [b1] + ([b2] + y));
    LessHead(a1, [a2] + x, b1, [b2] + y);
    LessHead(a2, x, b2, y);
    DigitsOf(i);
    DigitsOf(j);
    FirstDifference(i / 100, i / 10 % 10, i % 10, j / 100, j / 10 % 10, j % 10);
  }

  /** Below a thousand files, the final names sort in index order. */
  lemma NamesSortByIndex(i: nat, x: string, j: nat, y: string)
    requires i < j < 1000
    ensures Less(PartName(i, x), PartName(j, y))
  {
    hide Less, Pad3, ThreeDigits;
    Pad3IsThreeDigits(i);
    Pad3IsThreeDigits(j);
    LessAfterPrefix(PREFIX, Pad3(i) + x, Pad3(j) + y);
    LessByDigits(i, x, j, y);
  }

  /** From a thousand on they do not: file 1000 sorts before file 101, though not before file 99. */
  lemma ThousandSortsEarly(x: string, y: string)
    ensures Less(PartName(1000, x), PartName(101, y))
    ensures !Less(PartName(1000, x), PartName(99, y))
  {
    Pad3IsThreeDigits(101);
    Pad3IsThreeDigits(99);
    assert Digits(1) == "1" && Digits(10) == "10" && Digits(100) == "100" && Pad3(1000) == "1000";
    assert Pad3(1000) + x == ['1'] + (['0'] + (['0'] + (['0'] + x)));
    assert Pad3(101) + y == ['1'] + (['0'] + (['1'] + y));
    assert Pad3(99) + y == ['0'] + (['9'] + (['9'] + y));
    hide Less, Pad3;
    LessAfterPrefix(PREFIX, Pad3(1000) + x, Pad3(101) + y);
    LessAfterPrefix(PREFIX, Pad3(1000) + x, Pad3(99) + y);
    LessHead('1', ['0'] + (['0'] + (['0'] + x)), '0', ['9'] + (['9'] + y));
    LessHead('1', ['0'] + (['0'] + (['0'] + x)), '1', ['0'] + (['1'] + y));
    LessHead('0', ['0'] + (['0'] + x), '0', ['1'] + y);
    LessHead('0', ['0'] + x, '1', y);
  }
}
