/** What the chunker promises of every transcript: the laws of `Chunking`. */
module ChunkLaws {
  import opened Wrappers
  import opened Text
  import opened Splitting
  import opened Chunking

  // ---------- words with the voice that said them ----------

  datatype Spoken = Spoken(word: string, speaker: Option<string>)

  ghost function Tag(words: seq<string>, speaker: Option<string>): seq<Spoken> {
    seq(|words|, i requires 0 <= i < |words| => Spoken(words[i], speaker))
  }

  ghost function WordsOf(spoken: seq<Spoken>): seq<string> {
    seq(|spoken|, i requires 0 <= i < |spoken| => spoken[i].word)
  }

  ghost function Voices(spoken: seq<Spoken>): set<string> {
    set s | s in spoken && s.speaker.Some? :: s.speaker.value
  }

  /** Everything said, in order: each entry's words, those over the cap in parts, tagged with its speaker. */
  ghost function Attributed(entries: seq<Entry>, maxChars: nat): seq<Spoken>
    requires 1 <= maxChars
  {
    if entries == [] then []
    else Tag(FragAll(Words(entries[0].text), maxChars), entries[0].speaker) + Attributed(entries[1..], maxChars)
  }

  /** The chunk's words are exactly these, and its speakers are exactly those who said them. */
  ghost predicate Carries(c: Chunk, spoken: seq<Spoken>) {
    Words(c.text) == WordsOf(spoken) && Names(c.speakers) == Voices(spoken)
  }

  /** The chunks cut the spoken words into consecutive runs, each carried by its chunk. */
  ghost predicate Covers(chunks: seq<Chunk>, spoken: seq<Spoken>) {
    if chunks == [] then spoken == []
    else
      var n := |Words(chunks[0].text)|;
      n <= |spoken| && Carries(chunks[0], spoken[..n]) && Covers(chunks[1..], spoken[n..])
  }

  lemma CoversCons(c: Chunk, rest: seq<Chunk>, a: seq<Spoken>, b: seq<Spoken>)
    requires Carries(c, a) && Covers(rest, b)
    ensures Covers([c] + rest, a + b)
  {
    hide Words, Names, Voices;
    var chunks, spoken := [c] + rest, a + b;
    assert |Words(c.text)| == |a|;
    assert spoken[..|a|] == a && spoken[|a|..] == b && chunks[1..] == rest;
  }

  lemma CoversUncons(x: seq<Chunk>, a: seq<Spoken>)
    requires Covers(x, a)
    ensures x == [] ==> a == []
    ensures x != [] ==> var n := |Words(x[0].text)|; n <= |a| && Carries(x[0], a[..n]) && Covers(x[1..], a[n..])
  {
  }

  lemma {:induction false} CoversAppend(x: seq<Chunk>, y: seq<Chunk>, a: seq<Spoken>, b: seq<Spoken>)
    requires Covers(x, a) && Covers(y, b)
    ensures Covers(x + y, a + b)
  {
    hide Words, Carries, Covers;
    CoversUncons(x, a);
    if x == [] {
      assert x + y == y && a + b == b;
    } else {
      var n := |Words(x[0].text)|;
      CoversAppend(x[1..], y, a[n..], b);
      CarriesLength(x[0], a[..n]);
      CoversCons(x[0], x[1..] + y, a[..n], a[n..] + b);
      assert x + y == [x[0]] + (x[1..] + y);
      assert a + b == a[..n] + (a[n..] + b);
    }
  }

  lemma CarriesLength(c: Chunk, a: seq<Spoken>)
    requires Carries(c, a)
    ensures |a| == |Words(c.text)|
  {
  }

  lemma CoversOne(c: Chunk, a: seq<Spoken>)
    requires Carries(c, a)
    ensures Covers([c], a)
  {
    CoversCons(c, [], a, []);
    assert [c] + [] == [c] && a + [] == a;
  }

  lemma VoicesAppend(a: seq<Spoken>, b: seq<Spoken>)
    ensures Voices(a + b) == Voices(a) + Voices(b)
    ensures WordsOf(a + b) == WordsOf(a) + WordsOf(b)
  {
  }

  lemma TagAppend(a: seq<string>, b: seq<string>, speaker: Option<string>)
    ensures Tag(a + b, speaker) == Tag(a, speaker) + Tag(b, speaker)
  {
  }

  lemma TagWords(ws: seq<string>, speaker: Option<string>)
    ensures WordsOf(Tag(ws, speaker)) == ws
    ensures Voices(Tag(ws, speaker)) == if ws != [] && speaker.Some? then {speaker.value} else {}
  {
    if ws != [] {
      assert Tag(ws, speaker)[0] in Tag(ws, speaker);
    }
  }

  lemma CoversMergeFront(p: Chunk, c: Chunk, m: Chunk, after: seq<Chunk>, spoken: seq<Spoken>)
    requires Covers([p] + ([c] + after), spoken)
    requires Words(m.text) == Words(p.text) + Words(c.text) && Names(m.speakers) == Names(p.speakers) + Names(c.speakers)
    ensures Covers([m] + after, spoken)
  {
    hide Words, Names, Voices;
    var tail := [c] + after;
    var all := [p] + tail;
    assert all[0] == p && all[1..] == tail && tail[0] == c && tail[1..] == after;
    var n, k := |Words(p.text)|, |Words(c.text)|;
    var a, rest := spoken[..n], spoken[n..];
    assert Carries(p, a) && Covers(tail, rest);
    var b := rest[..k];
    VoicesAppend(a, b);
    CoversCons(m, after, a + b, rest[k..]);
    assert spoken == (a + b) + rest[k..];
  }

  /** Two neighbouring chunks merged into one still cover what they covered. */
  lemma {:induction false} CoversMerge(before: seq<Chunk>, p: Chunk, c: Chunk, m: Chunk, after: seq<Chunk>, spoken: seq<Spoken>)
    requires Covers(before + [p, c] + after, spoken)
    requires Words(m.text) == Words(p.text) + Words(c.text) && Names(m.speakers) == Names(p.speakers) + Names(c.speakers)
    ensures Covers(before + [m] + after, spoken)
  {
    hide Words, Names, Carries;
    var all := before + [p, c] + after;
    var out := before + [m] + after;
    if before == [] {
      assert all == [p] + ([c] + after);
      CoversMergeFront(p, c, m, after, spoken);
      assert out == [m] + after;
    } else {
      var n := |Words(before[0].text)|;
      assert all[0] == before[0] && all[1..] == before[1..] + [p, c] + after;
      CoversMerge(before[1..], p, c, m, after, spoken[n..]);
      assert out[0] == before[0] && out[1..] == before[1..] + [m] + after;
    }
  }

  // ---------- sound chunks ----------

  /** Chunk texts are tidy and within the cap. */
  ghost predicate Sound(chunks: seq<Chunk>, maxChars: nat) {
    forall c :: c in chunks ==> Tidy(c.text) && |c.text| <= maxChars
  }

  // ---------- what flushing pending entries keeps ----------

  lemma {:induction false} TextsTidy(entries: seq<Entry>)
    requires Cleaned(entries)
    ensures forall t :: t in Texts(entries) ==> Tidy(t)
    ensures |Texts(entries)| == |entries|
  {
    hide Tidy;
    if entries != [] {
      TextsTidy(entries[1..]);
    }
  }

  lemma {:induction false} JoinedLength(entries: seq<Entry>)
    requires entries != []
    ensures |Join(Texts(entries))| + 1 == PendingLength(entries)
  {
    if |entries| == 1 {
      assert entries[1..] == [];
    } else {
      JoinedLength(entries[1..]);
      assert Texts(entries)[1..] == Texts(entries[1..]);
    }
  }

  lemma {:induction false} AttributedAppend(a: seq<Entry>, b: seq<Entry>, maxChars: nat)
    requires 1 <= maxChars
    ensures Attributed(a + b, maxChars) == Attributed(a, maxChars) + Attributed(b, maxChars)
  {
    hide FragAll, Words, Tag;
    var t := a + b;
    if a == [] {
      assert t == b;
    } else {
      AttributedAppend(a[1..], b, maxChars);
      assert t[1..] == a[1..] + b && t[0] == a[0];
      var head := Tag(FragAll(Words(a[0].text), maxChars), a[0].speaker);
      Assoc(head, Attributed(a[1..], maxChars), Attributed(b, maxChars));
    }
  }

  /** Entries within the cap are attributed whole, and their speakers are the voices heard. */
  lemma {:induction false} AttributedWhole(entries: seq<Entry>, maxChars: nat)
    requires 1 <= maxChars && Cleaned(entries)
    requires forall e :: e in entries ==> |e.text| <= maxChars
    ensures WordsOf(Attributed(entries, maxChars)) == AllWords(Texts(entries))
    ensures Voices(Attributed(entries, maxChars)) == SpeakersOf(entries)
  {
    hide FragAll, Words, Tag, Tidy;
    if entries != [] {
      var e, rest := entries[0], entries[1..];
      AttributedWhole(rest, maxChars);
      FragText(e.text, maxChars);
      WordsTidyNonEmpty(e.text);
      TagWords(Words(e.text), e.speaker);
      VoicesAppend(Tag(Words(e.text), e.speaker), Attributed(rest, maxChars));
      assert Texts(entries)[1..] == Texts(rest);
      assert entries == [e] + rest;
    }
  }

  /** Pending entries: clean, each within the cap, and together within it once joined. */
  ghost predicate Fits(pending: seq<Entry>, maxChars: nat) {
    Cleaned(pending) && (forall e :: e in pending ==> |e.text| <= maxChars)
    && PendingLength(pending) <= maxChars + 1
  }

  lemma JoinedTidy(pending: seq<Entry>)
    requires pending != [] && Cleaned(pending)
    ensures var text := Join(Texts(pending));
            Tidy(text) && Strip(text) == text && Words(text) == AllWords(Texts(pending)) && |text| + 1 == PendingLength(pending)
  {
    hide Tidy, Words, Strip, IsSpace;
    TextsTidy(pending);
    JoinNonEmptyTidy(Texts(pending));
    JoinedLength(pending);
  }

  lemma MergedCarries(pending: seq<Entry>, maxChars: nat)
    requires 1 <= maxChars && pending != [] && Fits(pending, maxChars)
    ensures Carries(Merged(pending), Attributed(pending, maxChars))
    ensures Tidy(Merged(pending).text) && |Merged(pending).text| <= maxChars
  {
    hide Tidy, Words, Strip, IsSpace, Attributed;
    JoinedTidy(pending);
    AttributedWhole(pending, maxChars);
    SpeakersAreExact([], pending);
  }

  lemma FlushedCovers(pending: seq<Entry>, maxChars: nat)
    requires 1 <= maxChars && Fits(pending, maxChars)
    ensures Covers(Flushed(pending), Attributed(pending, maxChars)) && Sound(Flushed(pending), maxChars)
  {
    hide Merged, Tidy, Words, Carries;
    if pending != [] {
      MergedCarries(pending, maxChars);
      CoversOne(Merged(pending), Attributed(pending, maxChars));
    }
  }

  // ---------- what splitting a long turn keeps ----------

  lemma PieceCarries(e: Entry, piece: string)
    requires Tidy(piece)
    ensures Names(Speakers([e])) == Voices(Tag(Words(piece), e.speaker))
    ensures WordsOf(Tag(Words(piece), e.speaker)) == Words(piece)
  {
    hide Words, Tidy;
    WordsTidyNonEmpty(piece);
    TagWords(Words(piece), e.speaker);
    SpeakersAreExact([], [e]);
  }

  lemma {:induction false} PiecesCover(e: Entry, pieces: seq<string>, first: bool, consumed: nat, total: nat)
    requires 0 < total && forall p :: p in pieces ==> Tidy(p)
    ensures Covers(PieceChunks(e, pieces, first, consumed, total), Tag(AllWords(pieces), e.speaker))
    decreases |pieces|
  {
    hide Words, Tidy, Speakers, Interpolate, Tag, Covers, Names, Voices;
    if pieces == [] {
      TagWords([], e.speaker);
      CoversNone();
    } else {
      var piece, rest := pieces[0], pieces[1..];
      var c := PieceChunk(e, piece, first, |pieces| == 1, consumed, total);
      var tail := PieceChunks(e, rest, false, consumed + |piece|, total);
      PiecesCover(e, rest, false, consumed + |piece|, total);
      PieceCarries(e, piece);
      TagAppend(Words(piece), AllWords(rest), e.speaker);
      CoversCons(c, tail, Tag(Words(piece), e.speaker), Tag(AllWords(rest), e.speaker));
    }
  }

  lemma {:induction false} PiecesSound(e: Entry, pieces: seq<string>, first: bool, consumed: nat, total: nat, maxChars: nat)
    requires 0 < total && forall p :: p in pieces ==> Tidy(p) && |p| <= maxChars
    ensures Sound(PieceChunks(e, pieces, first, consumed, total), maxChars)
    ensures |PieceChunks(e, pieces, first, consumed, total)| == |pieces|
    decreases |pieces|
  {
    hide Tidy, Speakers, Interpolate;
    if pieces != [] {
      PiecesSound(e, pieces[1..], false, consumed + |pieces[0]|, total, maxChars);
    }
  }

  lemma EmitCovers(e: Entry, maxChars: nat)
    requires 1 <= maxChars && Tidy(e.text)
    ensures EmitSplit(e, maxChars) != []
    ensures Covers(EmitSplit(e, maxChars), Attributed([e], maxChars)) && Sound(EmitSplit(e, maxChars), maxChars)
    ensures forall c :: c in EmitSplit(e, maxChars) ==> c.speakers == Speakers([e])
  {
    hide Words, Tidy, Speakers, Tag, SplitLong, FragAll, Carries;
    SplitKeepsWords(e.text, maxChars);
    var pieces := SplitLong(e.text, maxChars);
    AttributedOne(e, maxChars);
    if |pieces| == 1 {
      var c := Chunk(e.start, e.end, pieces[0], Speakers([e]));
      assert pieces == [pieces[0]];
      AllWordsOne(pieces[0]);
      CarriesPiece(e, c);
      CoversOne(c, Attributed([e], maxChars));
    } else {
      var total := TotalLength(pieces);
      PiecesCover(e, pieces, true, 0, if total == 0 then 1 else total);
      PiecesSound(e, pieces, true, 0, if total == 0 then 1 else total, maxChars);
      PieceSpeakers(e, pieces, true, 0, if total == 0 then 1 else total);
    }
  }

  lemma {:induction false} PieceSpeakers(e: Entry, pieces: seq<string>, first: bool, consumed: nat, total: nat)
    requires 0 < total
    ensures forall c :: c in PieceChunks(e, pieces, first, consumed, total) ==> c.speakers == Speakers([e])
    decreases |pieces|
  {
    hide Speakers, Interpolate;
    if pieces != [] {
      PieceSpeakers(e, pieces[1..], false, consumed + |pieces[0]|, total);
    }
  }

  lemma CarriesPiece(e: Entry, c: Chunk)
    requires Tidy(c.text) && c.speakers == Speakers([e])
    ensures Carries(c, Tag(Words(c.text), e.speaker))
  {
    hide Words, Tidy, Speakers;
    PieceCarries(e, c.text);
  }

  lemma AttributedOne(e: Entry, maxChars: nat)
    requires 1 <= maxChars
    ensures Attributed([e], maxChars) == Tag(FragAll(Words(e.text), maxChars), e.speaker)
  {
    hide FragAll, Words, Tag;
    assert [e][1..] == [];
    var t := Tag(FragAll(Words(e.text), maxChars), e.speaker);
    assert Attributed([e][1..], maxChars) == [];
    assert t + [] == t;
  }

  /** A short remainder carried into the next turn keeps both its words and its voices. */
  lemma CarriedCarries(pending: seq<Entry>, e: Entry, first: Chunk, spoken: seq<Spoken>, maxChars: nat)
    requires 1 <= maxChars && pending != [] && Fits(pending, maxChars) && Tidy(first.text)
    requires Carries(first, spoken) && first.speakers == Speakers([e])
    ensures Carries(Carried(pending, e, first), Attributed(pending, maxChars) + spoken)
    ensures Tidy(Carried(pending, e, first).text)
  {
    hide Words, Tidy, Strip, Attributed, Glue, IsSpace, AllWords;
    JoinedTidy(pending);
    AttributedWhole(pending, maxChars);
    GlueTidy(Join(Texts(pending)), first.text);
    SpeakersAreExact([], pending + [e]);
    SpeakersAreExact([], [e]);
    SpeakersOfAppend(pending, [e]);
    VoicesAppend(Attributed(pending, maxChars), spoken);
  }

  lemma SpeakersOfAppend(a: seq<Entry>, b: seq<Entry>)
    ensures SpeakersOf(a + b) == SpeakersOf(a) + SpeakersOf(b)
  {
  }

  lemma LongTurnCovers(pending: seq<Entry>, e: Entry, limits: Limits)
    requires 1 <= limits.maxChars && Fits(pending, limits.maxChars) && Tidy(e.text)
    ensures Covers(LongTurn(pending, e, limits), Attributed(pending, limits.maxChars) + Attributed([e], limits.maxChars))
    ensures Sound(LongTurn(pending, e, limits), limits.maxChars)
  {
    hide Words, Tidy, EmitSplit, Attributed, Carries, Carried, Fits, Speakers;
    var m := limits.maxChars;
    EmitCovers(e, m);
    var pieces := EmitSplit(e, m);
    var p, q := Attributed(pending, m), Attributed([e], m);
    if pending != [] && PendingLength(pending) < limits.minChars && |Carried(pending, e, pieces[0]).text| <= m {
      var n := |Words(pieces[0].text)|;
      CarriedCarries(pending, e, pieces[0], q[..n], m);
      CoversCons(Carried(pending, e, pieces[0]), pieces[1..], p + q[..n], q[n..]);
      Assoc(p, q[..n], q[n..]);
      assert q[..n] + q[n..] == q;
    } else {
      FlushedCovers(pending, m);
      CoversAppend(Flushed(pending), pieces, p, q);
    }
  }

  // ---------- gathering keeps everything ----------

  lemma PendingLengthAppend(pending: seq<Entry>, e: Entry)
    ensures PendingLength(pending + [e]) == PendingLength(pending) + |e.text| + 1
    decreases |pending|
  {
    if pending != [] {
      PendingLengthAppend(pending[1..], e);
      assert (pending + [e])[1..] == pending[1..] + [e];
    } else {
      assert [] + [e] == [e];
    }
  }

  lemma FitsAppend(pending: seq<Entry>, e: Entry, maxChars: nat)
    requires Fits(pending, maxChars) && Tidy(e.text) && e.start <= e.end && |e.text| <= maxChars
    requires pending == [] || PendingLength(pending) + |e.text| <= maxChars
    ensures Fits(pending + [e], maxChars)
  {
    hide Tidy;
    PendingLengthAppend(pending, e);
  }

  lemma {:induction false} GatherCovers(entries: seq<Entry>, pending: seq<Entry>, limits: Limits)
    requires 1 <= limits.maxChars && Cleaned(entries) && Fits(pending, limits.maxChars)
    ensures Covers(Gather(entries, pending, limits), Attributed(pending, limits.maxChars) + Attributed(entries, limits.maxChars))
    ensures Sound(Gather(entries, pending, limits), limits.maxChars)
    decreases |entries|
  {
    hide Words, Tidy, Attributed, LongTurn, Merged, Covers, Fits;
    var m := limits.maxChars;
    var p := Attributed(pending, m);
    if entries == [] {
      FlushedCovers(pending, m);
      AttributedNone(m);
      assert p + [] == p;
    } else {
      var e, rest := entries[0], entries[1..];
      var r := Attributed(rest, m);
      assert entries == [e] + rest;
      AttributedAppend([e], rest, m);
      AttributedNone(m);
      FitsNone(m);
      if |e.text| > m {
        LongTurnCovers(pending, e, limits);
        GatherCovers(rest, [], limits);
        assert [] + r == r;
        CoversAppend(LongTurn(pending, e, limits), Gather(rest, [], limits), p + Attributed([e], m), r);
        Assoc(p, Attributed([e], m), r);
      } else {
        var full := pending != [] && PendingLength(pending) + |e.text| > m;
        GatherShort(e, rest, pending, limits, full);
      }
    }
  }

  lemma AttributedNone(maxChars: nat)
    requires 1 <= maxChars
    ensures Attributed([], maxChars) == []
  {
  }

  lemma FitsNone(maxChars: nat)
    ensures Fits([], maxChars)
  {
  }

  /** The short-entry step: the open entries are flushed first when the new one does not fit. */
  lemma {:induction false} GatherShort(e: Entry, rest: seq<Entry>, pending: seq<Entry>, limits: Limits, full: bool)
    requires 1 <= limits.maxChars && Cleaned([e] + rest) && Fits(pending, limits.maxChars) && |e.text| <= limits.maxChars
    requires full == (pending != [] && PendingLength(pending) + |e.text| > limits.maxChars)
    ensures var m := limits.maxChars;
            var chunks := Gather([e] + rest, pending, limits);
            && Covers(chunks, Attributed(pending, m) + (Attributed([e], m) + Attributed(rest, m))) && Sound(chunks, m)
    decreases |rest| + 1, 0
  {
    hide Words, Tidy, Attributed, LongTurn, Merged, Covers, Fits;
    var m := limits.maxChars;
    var all := [e] + rest;
    assert all[0] == e && all[1..] == rest;
    assert e in all && Cleaned(rest);
    var p, a, r := Attributed(pending, m), Attributed([e], m), Attributed(rest, m);
    var kept := if full then [] else pending;
    AttributedNone(m);
    FitsNone(m);
    FitsAppend(kept, e, m);
    AttributedAppend(kept, [e], m);
    assert [] + [e] == [e];
    var out := if full then Flushed(pending) else [];
    var spokenOut := if full then p else [];
    if full {
      FlushedCovers(pending, m);
    } else {
      CoversNone();
    }
    var open := kept + [e];
    var o := Attributed(open, m);
    assert spokenOut + o == p + a by {
      assert [] + a == a && [] + (p + a) == p + a;
    }
    Assoc(p, a, r);
    Assoc(spokenOut, o, r);
    if PendingLength(open) >= limits.targetChars {
      FlushedCovers(open, m);
      GatherCovers(rest, [], limits);
      assert [] + r == r;
      CoversAppend(out, Flushed(open), spokenOut, o);
      CoversAppend(out + Flushed(open), Gather(rest, [], limits), spokenOut + o, r);
    } else {
      GatherCovers(rest, open, limits);
      CoversAppend(out, Gather(rest, open, limits), spokenOut, o + r);
    }
  }

  lemma CoversNone()
    ensures Covers([], [])
  {
  }

  /** What gathering does with one entry within the cap. */
  lemma GatherStep(e: Entry, rest: seq<Entry>, pending: seq<Entry>, limits: Limits)
    requires 1 <= limits.maxChars && |e.text| <= limits.maxChars
    ensures var full := pending != [] && PendingLength(pending) + |e.text| > limits.maxChars;
            var open := (if full then [] else pending) + [e];
            var tail := if PendingLength(open) >= limits.targetChars
                then Flushed(open) + Gather(rest, [], limits)
                else Gather(rest, open, limits);
            Gather([e] + rest, pending, limits) == if full then Flushed(pending) + tail else tail
  {
    hide LongTurn, Flushed;
    var all := [e] + rest;
    assert all[0] == e && all[1..] == rest && [] + [e] == [e];
    var full := pending != [] && PendingLength(pending) + |e.text| > limits.maxChars;
    var open := (if full then [] else pending) + [e];
    Assoc(Flushed(pending), Flushed(open), Gather(rest, [], limits));
    assert [] + Flushed(open) == Flushed(open) && [] + Gather(rest, open, limits) == Gather(rest, open, limits);
  }

  /** A gathered chunk that was closed early was closed for want of room. */
  ghost predicate Filled(chunks: seq<Chunk>, limits: Limits) {
    forall i :: 0 <= i < |chunks| - 1 ==>
      || |chunks[i].text| + 1 >= limits.targetChars
      || |chunks[i].text| + 1 + |chunks[i + 1].text| > limits.maxChars
  }

  lemma FilledCons(c: Chunk, rest: seq<Chunk>, limits: Limits)
    requires Filled(rest, limits)
    requires rest != [] ==> |c.text| + 1 >= limits.targetChars || |c.text| + 1 + |rest[0].text| > limits.maxChars
    ensures Filled([c] + rest, limits)
  {
    var t := [c] + rest;
    forall i | 0 <= i < |t| - 1
      ensures |t[i].text| + 1 >= limits.targetChars || |t[i].text| + 1 + |t[i + 1].text| > limits.maxChars
    {
      if i > 0 {
        assert t[i] == rest[i - 1] && t[i + 1] == rest[i];
      }
    }
  }

  lemma MergedLength(pending: seq<Entry>)
    requires pending != [] && Cleaned(pending)
    ensures |Merged(pending).text| + 1 == PendingLength(pending)
  {
    hide Tidy, Strip, Words, IsSpace;
    JoinedTidy(pending);
  }

  /**
   Without over-long turns, gathering closes a chunk only when it has reached the
   target size or the next entry would not have fitted.
   */
  lemma {:induction false} GatherFills(entries: seq<Entry>, pending: seq<Entry>, limits: Limits)
    requires 1 <= limits.maxChars && Cleaned(entries) && Fits(pending, limits.maxChars)
    requires forall e :: e in entries ==> |e.text| <= limits.maxChars
    ensures var chunks := Gather(entries, pending, limits);
            && (pending + entries != [] ==> chunks != [])
            && (pending != [] ==> |chunks[0].text| + 1 >= PendingLength(pending))
            && (pending == [] && entries != [] ==> |chunks[0].text| >= |entries[0].text|)
            && Filled(chunks, limits)
    decreases |entries|
  {
    hide Tidy, Merged, Fits, Filled, LongTurn;
    if entries == [] {
      FitsCleaned(pending, limits.maxChars);
      FilledSmall(Flushed(pending), limits);
      if pending != [] { MergedLength(pending); }
    } else {
      var e, rest := entries[0], entries[1..];
      assert entries == [e] + rest && e in entries;
      var full := pending != [] && PendingLength(pending) + |e.text| > limits.maxChars;
      var kept := if full then [] else pending;
      var open := kept + [e];
      FitsNone(limits.maxChars);
      FitsAppend(kept, e, limits.maxChars);
      FitsCleaned(pending, limits.maxChars);
      FitsCleaned(open, limits.maxChars);
      PendingLengthAppend(kept, e);
      GatherStep(e, rest, pending, limits);
      hide Gather;
      var closes := PendingLength(open) >= limits.targetChars;
      var tail := if closes then Flushed(open) + Gather(rest, [], limits) else Gather(rest, open, limits);
      MergedLength(open);
      if closes {
        GatherFills(rest, [], limits);
        FilledCons(Merged(open), Gather(rest, [], limits), limits);
      } else {
        GatherFills(rest, open, limits);
      }
      if full {
        MergedLength(pending);
        FilledCons(Merged(pending), tail, limits);
      }
    }
  }

  lemma FitsCleaned(pending: seq<Entry>, maxChars: nat)
    requires Fits(pending, maxChars)
    ensures Cleaned(pending)
  {
  }

  lemma FilledSmall(chunks: seq<Chunk>, limits: Limits)
    requires |chunks| <= 1
    ensures Filled(chunks, limits)
  {
  }

  // ---------- compaction keeps everything ----------

  lemma AbsorbKeeps(host: Chunk, guest: Chunk, guestFirst: bool)
    requires Tidy(host.text) && Tidy(guest.text)
    ensures var m := Absorb(host, guest, guestFirst);
            && Tidy(m.text) && |m.text| == |host.text| + 1 + |guest.text|
            && Words(m.text) == (if guestFirst then Words(guest.text) + Words(host.text)
                else Words(host.text) + Words(guest.text))
            && Names(m.speakers) == Names(host.speakers) + Names(guest.speakers)
  {
    hide Tidy, Words, Glue, IsSpace;
    GlueTidy(host.text, guest.text);
    GlueTidy(guest.text, host.text);
    AddSpeakersNames(host.speakers, guest.speakers);
  }

  lemma {:induction false} CompactCovers(chunks: seq<Chunk>, done: seq<Chunk>, limits: Limits, spoken: seq<Spoken>)
    requires Covers(done + chunks, spoken) && Sound(done + chunks, limits.maxChars)
    ensures Covers(Compact(chunks, done, limits), spoken) && Sound(Compact(chunks, done, limits), limits.maxChars)
    decreases |chunks|
  {
    hide Tidy, Words, Absorb, Covers;
    if chunks == [] {
      assert done + chunks == done;
    } else {
      var c, rest, n := chunks[0], chunks[1..], |done|;
      var all := done + chunks;
      assert c == all[n] && c in all;
      var short := |c.text| < limits.minChars;
      if short && n > 0 && HasRoom(done[n - 1], c, limits.maxChars) {
        var p := done[n - 1];
        var m := Absorb(p, c, false);
        assert p == all[n - 1] && p in all;
        AbsorbKeeps(p, c, false);
        assert all == done[..n - 1] + [p, c] + rest;
        CoversMerge(done[..n - 1], p, c, m, rest, spoken);
        CompactCovers(rest, done[..n - 1] + [m], limits, spoken);
      } else if short && rest != [] && HasRoom(rest[0], c, limits.maxChars) {
        var p := rest[0];
        var m := Absorb(p, c, true);
        assert p == all[n + 1] && p in all;
        AbsorbKeeps(p, c, true);
        assert all == done + [c, p] + rest[1..];
        CoversMerge(done, c, p, m, rest[1..], spoken);
        assert done + ([m] + rest[1..]) == done + [m] + rest[1..];
        CompactCovers([m] + rest[1..], done, limits, spoken);
      } else {
        assert (done + [c]) + rest == all;
        CompactCovers(rest, done + [c], limits, spoken);
      }
    }
  }

  // ---------- no short chunk beside a neighbour with room ----------

  /** A chunk below the floor has no neighbour it could have been folded into. */
  ghost predicate Settled(chunks: seq<Chunk>, limits: Limits) {
    forall i :: 0 <= i < |chunks| - 1
      && (|chunks[i].text| < limits.minChars || |chunks[i + 1].text| < limits.minChars)
      ==> !HasRoom(chunks[i], chunks[i + 1], limits.maxChars)
  }

  /** Settled so far, and the open end is settled against what comes next. */
  ghost predicate SettledUpTo(done: seq<Chunk>, chunks: seq<Chunk>, limits: Limits) {
    Settled(done, limits)
    && (done != [] && chunks != [] && |done[|done| - 1].text| < limits.minChars
        ==> !HasRoom(done[|done| - 1], chunks[0], limits.maxChars))
  }

  /** A done list stays settled when its last chunk grows. */
  lemma SettledGrows(done: seq<Chunk>, chunks: seq<Chunk>, m: Chunk, limits: Limits)
    requires SettledUpTo(done, chunks, limits) && done != [] && chunks != []
    requires HasRoom(done[|done| - 1], chunks[0], limits.maxChars) && |m.text| >= |done[|done| - 1].text|
    ensures SettledUpTo(done[..|done| - 1] + [m], chunks[1..], limits)
  {
    var n := |done|;
    var grown := done[..n - 1] + [m];
    forall i | 0 <= i < n - 1 && (|grown[i].text| < limits.minChars || |grown[i + 1].text| < limits.minChars)
      ensures !HasRoom(grown[i], grown[i + 1], limits.maxChars)
    {
      assert !HasRoom(done[i], done[i + 1], limits.maxChars);
    }
  }

  lemma SettledAppend(done: seq<Chunk>, chunks: seq<Chunk>, limits: Limits)
    requires SettledUpTo(done, chunks, limits) && chunks != []
    requires |chunks[0].text| < limits.minChars ==>
               && (done != [] ==> !HasRoom(done[|done| - 1], chunks[0], limits.maxChars))
               && (|chunks| > 1 ==> !HasRoom(chunks[1], chunks[0], limits.maxChars))
    ensures SettledUpTo(done + [chunks[0]], chunks[1..], limits)
  {
  }

  lemma {:induction false} CompactSettles(chunks: seq<Chunk>, done: seq<Chunk>, limits: Limits)
    requires Sound(done, limits.maxChars) && Sound(chunks, limits.maxChars) && SettledUpTo(done, chunks, limits)
    ensures Settled(Compact(chunks, done, limits), limits)
    decreases |chunks|
  {
    hide Tidy, Absorb, Settled, HasRoom;
    if chunks != [] {
      var c, rest, n := chunks[0], chunks[1..], |done|;
      assert c in chunks;
      var short := |c.text| < limits.minChars;
      if short && n > 0 && HasRoom(done[n - 1], c, limits.maxChars) {
        SettleBack(done, chunks, limits);
      } else if short && rest != [] && HasRoom(rest[0], c, limits.maxChars) {
        assert rest[1..] == chunks[2..];
        SettleForth(done, chunks, limits);
      } else {
        SettledAppend(done, chunks, limits);
        CompactSettles(rest, done + [c], limits);
      }
    }
  }

  lemma {:induction false} SettleBack(done: seq<Chunk>, chunks: seq<Chunk>, limits: Limits)
    requires Sound(done, limits.maxChars) && Sound(chunks, limits.maxChars) && SettledUpTo(done, chunks, limits)
    requires done != [] && chunks != [] && HasRoom(done[|done| - 1], chunks[0], limits.maxChars)
    ensures Settled(Compact(chunks[1..], done[..|done| - 1] + [Absorb(done[|done| - 1], chunks[0], false)], limits), limits)
    decreases |chunks|, 0
  {
    hide Tidy, Absorb, Settled, Compact;
    var p, c := done[|done| - 1], chunks[0];
    assert p in done && c in chunks;
    AbsorbKeeps(p, c, false);
    SettledGrows(done, chunks, Absorb(p, c, false), limits);
    CompactSettles(chunks[1..], done[..|done| - 1] + [Absorb(p, c, false)], limits);
  }

  lemma {:induction false} SettleForth(done: seq<Chunk>, chunks: seq<Chunk>, limits: Limits)
    requires Sound(done, limits.maxChars) && Sound(chunks, limits.maxChars) && SettledUpTo(done, chunks, limits)
    requires |chunks| > 1 && HasRoom(chunks[1], chunks[0], limits.maxChars)
    ensures Settled(Compact([Absorb(chunks[1], chunks[0], true)] + chunks[2..], done, limits), limits)
    decreases |chunks|, 0
  {
    hide Tidy, Absorb, Settled, Compact;
    var c, next := chunks[0], chunks[1];
    assert c in chunks && next in chunks;
    AbsorbKeeps(next, c, true);
    var todo := [Absorb(next, c, true)] + chunks[2..];
    CompactSettles(todo, done, limits);
  }

  /** Once chunks are settled, the final tail fold has nothing left to do. */
  lemma TailFoldIdle(chunks: seq<Chunk>, limits: Limits)
    requires Sound(chunks, limits.maxChars) && Settled(chunks, limits)
    ensures FoldTail(chunks, limits) == chunks
  {
    hide Tidy, Words, Glue, IsSpace;
    var n := |chunks|;
    if n > 1 && |chunks[n - 1].text| < limits.minChars {
      GlueTidy(chunks[n - 2].text, chunks[n - 1].text);
      assert !HasRoom(chunks[n - 2], chunks[n - 1], limits.maxChars);
    }
  }

  // ---------- the laws ----------

  lemma CompactedLaws(entries: seq<Entry>, limits: Limits)
    requires 1 <= limits.maxChars && Cleaned(entries)
    ensures Covers(Compacted(entries, limits), Attributed(entries, limits.maxChars))
    ensures Sound(Compacted(entries, limits), limits.maxChars)
    ensures Settled(Compacted(entries, limits), limits)
  {
    hide Tidy, Words, Covers, Gather, Compact, Attributed;
    var spoken := Attributed(entries, limits.maxChars);
    FitsNone(limits.maxChars);
    AttributedNone(limits.maxChars);
    GatherCovers(entries, [], limits);
    assert [] + spoken == spoken;
    var gathered := Gather(entries, [], limits);
    assert [] + gathered == gathered;
    assert Settled([], limits);
    CompactCovers(gathered, [], limits, spoken);
    CompactSettles(gathered, [], limits);
  }

  /**
   For any cleaned transcript: the chunks carry every word in order, a word in
   parts only when it alone is over the cap; each chunk names exactly the
   speakers of its words; and no chunk is over the cap.
   */
  lemma ChunksCarryEveryWord(entries: seq<Entry>, limits: Limits)
    requires 1 <= limits.maxChars && Cleaned(entries)
    ensures Covers(ChunkValues(entries, limits), Attributed(entries, limits.maxChars))
    ensures Sound(ChunkValues(entries, limits), limits.maxChars)
  {
    hide Tidy, Words, Covers, Compacted, FoldTail, Attributed;
    CompactedLaws(entries, limits);
    TailFoldIdle(Compacted(entries, limits), limits);
  }

  /** Compaction leaves no short chunk beside a neighbour with room, so the tail fold never changes the list. */
  lemma ChunksAreSettled(entries: seq<Entry>, limits: Limits)
    requires 1 <= limits.maxChars && Cleaned(entries)
    ensures Settled(ChunkValues(entries, limits), limits)
    ensures ChunkValues(entries, limits) == Compacted(entries, limits)
  {
    hide Tidy, Words, Covers, Compacted, FoldTail, Attributed;
    CompactedLaws(entries, limits);
    TailFoldIdle(Compacted(entries, limits), limits);
  }

  // ---------- characters ----------

  function ChunkTexts(chunks: seq<Chunk>): (r: seq<string>)
    ensures |r| == |chunks|
  {
    if chunks == [] then [] else [chunks[0].text] + ChunkTexts(chunks[1..])
  }

  function NonSpaceAll(texts: seq<string>): string {
    if texts == [] then "" else NonSpace(texts[0]) + NonSpaceAll(texts[1..])
  }

  lemma {:induction false} CoversWords(chunks: seq<Chunk>, spoken: seq<Spoken>)
    requires Covers(chunks, spoken)
    ensures AllWords(ChunkTexts(chunks)) == WordsOf(spoken)
  {
    hide Words;
    if chunks != [] {
      var n := |Words(chunks[0].text)|;
      CoversWords(chunks[1..], spoken[n..]);
      assert spoken == spoken[..n] + spoken[n..];
      VoicesAppend(spoken[..n], spoken[n..]);
      assert ChunkTexts(chunks)[1..] == ChunkTexts(chunks[1..]);
    }
  }

  lemma {:induction false} AttributedWords(entries: seq<Entry>, maxChars: nat)
    requires 1 <= maxChars
    ensures WordsOf(Attributed(entries, maxChars)) == FragAll(AllWords(Texts(entries)), maxChars)
  {
    hide Words, Tag;
    if entries != [] {
      var e, rest := entries[0], entries[1..];
      AttributedWords(rest, maxChars);
      TagWords(FragAll(Words(e.text), maxChars), e.speaker);
      VoicesAppend(Tag(FragAll(Words(e.text), maxChars), e.speaker), Attributed(rest, maxChars));
      FragAllAppend(Words(e.text), AllWords(Texts(rest)), maxChars);
      assert Texts(entries)[1..] == Texts(rest);
    }
  }

  lemma {:induction false} ConcatAllWords(texts: seq<string>)
    ensures Concat(AllWords(texts)) == NonSpaceAll(texts)
  {
    hide Words, IsSpace, NonSpace;
    if texts != [] {
      ConcatAllWords(texts[1..]);
      ConcatWords(texts[0]);
      ConcatAppend(Words(texts[0]), AllWords(texts[1..]));
    }
  }

  /** The non-whitespace characters of the chunks, in order, are those of the entries. */
  lemma ChunksKeepEveryCharacter(entries: seq<Entry>, limits: Limits)
    requires 1 <= limits.maxChars && Cleaned(entries)
    ensures NonSpaceAll(ChunkTexts(ChunkValues(entries, limits))) == NonSpaceAll(Texts(entries))
    ensures AllWords(ChunkTexts(ChunkValues(entries, limits))) == FragAll(AllWords(Texts(entries)), limits.maxChars)
  {
    hide Tidy, Words, Covers, ChunkValues, Attributed, NonSpace, AllWords, FragAll;
    ChunksCarryEveryWord(entries, limits);
    var chunks, spoken := ChunkValues(entries, limits), Attributed(entries, limits.maxChars);
    CoversWords(chunks, spoken);
    AttributedWords(entries, limits.maxChars);
    ConcatFragAll(AllWords(Texts(entries)), limits.maxChars);
    ConcatAllWords(ChunkTexts(chunks));
    ConcatAllWords(Texts(entries));
  }
}
