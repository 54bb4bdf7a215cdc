/** The time line of the chunks when the turns of the transcript do not overlap. */
module ChunkTimes {
  import opened Text
  import opened Splitting
  import opened Chunking
  import opened ChunkLaws

  ghost predicate NonOverlapping(entries: seq<Entry>) {
    (forall i :: 0 <= i < |entries| ==> entries[i].start <= entries[i].end)
    && forall i :: 0 <= i < |entries| - 1 ==> entries[i].end <= entries[i + 1].start
  }

  /** Chunks laid end to end in order, from one instant to another. */
  ghost predicate TimeLine(chunks: seq<Chunk>, from: real, to: real) {
    && chunks != [] && chunks[0].start == from && chunks[|chunks| - 1].end == to
    && (forall c :: c in chunks ==> c.start <= c.end)
    && forall i :: 0 <= i < |chunks| - 1 ==> chunks[i].end <= chunks[i + 1].start
  }

  lemma TimeLineAppend(a: seq<Chunk>, b: seq<Chunk>, from: real, mid: real, next: real, to: real)
    requires TimeLine(a, from, mid) && TimeLine(b, next, to) && mid <= next
    ensures TimeLine(a + b, from, to)
  {
    var t := a + b;
    assert t[|t| - 1] == b[|b| - 1] && t[0] == a[0];
    forall i | 0 <= i < |t| - 1 ensures t[i].end <= t[i + 1].start {
      if i < |a| - 1 {
        assert a[i].end <= a[i + 1].start;
      } else if i >= |a| {
        assert b[i - |a|].end <= b[i - |a| + 1].start;
      }
    }
  }

  // ---------- a split turn ----------

  lemma {:induction false} TotalLengthAt(pieces: seq<string>)
    requires pieces != [] && forall p :: p in pieces ==> p != ""
    ensures TotalLength(pieces) > 0
  {
    assert pieces[0] in pieces;
  }

  lemma ShareGrows(span: real, a: nat, b: nat, total: nat)
    requires 0.0 <= span && a <= b && 0 < total
    ensures span * (a as real / total as real) <= span * (b as real / total as real)
  {
    var x, y := a as real / total as real, b as real / total as real;
    ShareOrder(a, b, total);
    ProductOrder(span, x, y);
  }

  lemma ShareOrder(a: nat, b: nat, total: nat)
    requires a <= b && 0 < total
    ensures a as real / total as real <= b as real / total as real
  {
  }

  lemma ProductOrder(span: real, x: real, y: real)
    requires 0.0 <= span && x <= y
    ensures span * x <= span * y
  {
    assert span * (y - x) >= 0.0;
  }

  /** Each piece of a split turn ends exactly where the next one starts. */
  ghost predicate Tiles(chunks: seq<Chunk>, from: real, to: real) {
    TimeLine(chunks, from, to) && forall i :: 0 <= i < |chunks| - 1 ==> chunks[i].end == chunks[i + 1].start
  }

  lemma InterpolateOrder(e: Entry, a: nat, b: nat, total: nat)
    requires e.start <= e.end && a <= b && 0 < total
    ensures Interpolate(e, a, total) <= Interpolate(e, b, total)
    ensures Interpolate(e, 0, total) == e.start && Interpolate(e, total, total) == e.end
  {
    ShareGrows(e.end - e.start, a, b, total);
    WholeShare(e.end - e.start, total);
  }

  lemma {:induction false} PiecesTile(e: Entry, pieces: seq<string>, first: bool, consumed: nat, total: nat)
    requires 0 < total && pieces != [] && e.start <= e.end
    requires consumed + TotalLength(pieces) <= total
    requires first ==> consumed == 0
    ensures Tiles(PieceChunks(e, pieces, first, consumed, total), Interpolate(e, consumed, total), e.end)
    decreases |pieces|
  {
    hide Speakers, Interpolate, Tiles;
    var end := consumed + |pieces[0]|;
    InterpolateOrder(e, consumed, end, total);
    InterpolateOrder(e, end, total, total);
    var c := PieceChunk(e, pieces[0], first, |pieces| == 1, consumed, total);
    if |pieces| == 1 {
      TileOne(c);
      assert PieceChunks(e, pieces, first, consumed, total) == [c] + [];
      assert [c] + [] == [c];
    } else {
      PiecesTile(e, pieces[1..], false, end, total);
      TileCons(c, PieceChunks(e, pieces[1..], false, end, total), e.end);
    }
  }

  lemma TileOne(c: Chunk)
    requires c.start <= c.end
    ensures Tiles([c], c.start, c.end)
  {
  }

  lemma WholeShare(span: real, total: nat)
    requires 0 < total
    ensures span * (total as real / total as real) == span && span * (0 as real / total as real) == 0.0
  {
    var one, none := total as real / total as real, 0 as real / total as real;
    assert one == 1.0 && none == 0.0;
    assert span * 1.0 == span && span * 0.0 == 0.0;
  }

  lemma TileCons(c: Chunk, rest: seq<Chunk>, to: real)
    requires c.start <= c.end && Tiles(rest, c.end, to)
    ensures Tiles([c] + rest, c.start, to)
  {
    var t := [c] + rest;
    assert TimeLine([c], c.start, c.end);
    TimeLineAppend([c], rest, c.start, c.end, c.end, to);
    forall i | 0 <= i < |t| - 1 ensures t[i].end == t[i + 1].start {
      if i > 0 {
        assert rest[i - 1].end == rest[i].start;
      }
    }
  }

  /** The pieces of one turn tile it: first start to last end, no gap, no overlap. */
  lemma SplitTurnTiles(e: Entry, maxChars: nat)
    requires 1 <= maxChars && Tidy(e.text) && e.start <= e.end
    ensures Tiles(EmitSplit(e, maxChars), e.start, e.end)
  {
    hide Speakers, Tidy, SplitLong;
    SplitKeepsWords(e.text, maxChars);
    var pieces := SplitLong(e.text, maxChars);
    if |pieces| != 1 {
      forall p | p in pieces ensures p != "" { TidyNonEmpty(p); }
      TotalLengthAt(pieces);
      PiecesTile(e, pieces, true, 0, TotalLength(pieces));
      InterpolateOrder(e, 0, 0, TotalLength(pieces));
    }
  }

  lemma TidyNonEmpty(s: string)
    requires Tidy(s)
    ensures s != ""
  {
  }

  // ---------- the time of a piece is its share of the characters ----------

  /** The chunk takes up, of the turn's time, the share its characters are of all: from `before` of `total` on. */
  ghost predicate HasShare(c: Chunk, e: Entry, before: nat, total: nat) {
    && (c.start - e.start) * total as real == (e.end - e.start) * before as real
    && (c.end - e.start) * total as real == (e.end - e.start) * (before + |c.text|) as real
  }

  /** The k-th chunk starts after the share of the chunks before it. */
  ghost predicate Shared(chunks: seq<Chunk>, e: Entry, k: nat) {
    var texts := ChunkTexts(chunks);
    k < |chunks| && HasShare(chunks[k], e, TotalLength(texts[..k]), TotalLength(texts))
  }

  lemma ShareTimesTotal(span: real, part: nat, total: nat)
    requires 0 < total
    ensures span * (part as real / total as real) * total as real == span * part as real
  {
    var share := part as real / total as real;
    assert share * total as real == part as real;
    assert span * share * total as real == span * (share * total as real);
  }

  lemma InterpolatedShare(e: Entry, part: nat, total: nat)
    requires 0 < total
    ensures (Interpolate(e, part, total) - e.start) * total as real == (e.end - e.start) * part as real
  {
    ShareTimesTotal(e.end - e.start, part, total);
  }

  lemma {:induction false} PiecesShare(e: Entry, pieces: seq<string>, first: bool, consumed: nat, total: nat, k: nat)
    requires 0 < total && k < |pieces| && e.start <= e.end
    requires consumed + TotalLength(pieces) == total
    requires first ==> consumed == 0
    ensures |PieceChunks(e, pieces, first, consumed, total)| == |pieces|
    ensures var chunks := PieceChunks(e, pieces, first, consumed, total);
      chunks[k].text == pieces[k] && HasShare(chunks[k], e, consumed + TotalLength(pieces[..k]), total)
    decreases |pieces|
  {
    hide Speakers, Interpolate, HasShare;
    var end, rest := consumed + |pieces[0]|, pieces[1..];
    if k == 0 {
      FirstShare(e, pieces, first, consumed, total);
      assert TotalLength(pieces[..0]) == 0;
      if rest != [] { PiecesShare(e, rest, false, end, total, 0); }
    } else {
      PiecesShare(e, rest, false, end, total, k - 1);
      assert pieces[..k][0] == pieces[0] && pieces[..k][1..] == rest[..k - 1];
    }
  }

  lemma FirstShare(e: Entry, pieces: seq<string>, first: bool, consumed: nat, total: nat)
    requires 0 < total && pieces != [] && e.start <= e.end
    requires consumed + TotalLength(pieces) == total
    requires first ==> consumed == 0
    ensures HasShare(PieceChunk(e, pieces[0], first, |pieces| == 1, consumed, total), e, consumed, total)
  {
    hide Speakers, Interpolate, HasShare;
    var end := consumed + |pieces[0]|;
    InterpolateOrder(e, consumed, end, total);
    InterpolateOrder(e, end, total, total);
    var c := PieceChunk(e, pieces[0], first, |pieces| == 1, consumed, total);
    assert c.start == Interpolate(e, consumed, total) && c.end == Interpolate(e, end, total) && c.text == pieces[0];
    hide PieceChunk, TotalLength;
    InterpolatedChunk(e, c, consumed, total);
  }

  lemma InterpolatedChunk(e: Entry, c: Chunk, before: nat, total: nat)
    requires 0 < total
    requires c.start == Interpolate(e, before, total) && c.end == Interpolate(e, before + |c.text|, total)
    ensures HasShare(c, e, before, total)
  {
    hide Interpolate;
    InterpolatedShare(e, before, total);
    InterpolatedShare(e, before + |c.text|, total);
  }

  /** A long turn is divided by character share: each piece gets the part of the time its characters are of all. */
  lemma SplitTurnShares(e: Entry, maxChars: nat, k: nat)
    requires 1 <= maxChars && Tidy(e.text) && e.start <= e.end && k < |SplitLong(e.text, maxChars)|
    ensures ChunkTexts(EmitSplit(e, maxChars)) == SplitLong(e.text, maxChars)
    ensures Shared(EmitSplit(e, maxChars), e, k)
  {
    hide Speakers, Tidy, SplitLong, PieceChunks, HasShare, TotalLength, ChunkTexts, Words, FragAll;
    SplitKeepsWords(e.text, maxChars);
    var pieces := SplitLong(e.text, maxChars);
    if |pieces| == 1 {
      OnePieceShare(e, pieces[0]);
      assert pieces == [pieces[0]];
    } else {
      forall p | p in pieces ensures p != "" { TidyNonEmpty(p); }
      TotalLengthAt(pieces);
      PiecesTexts(e, pieces, true, 0, TotalLength(pieces));
      assert EmitSplit(e, maxChars) == PieceChunks(e, pieces, true, 0, TotalLength(pieces));
      PiecesShare(e, pieces, true, 0, TotalLength(pieces), k);
    }
  }

  lemma OnePieceShare(e: Entry, piece: string)
    ensures var chunks := [Chunk(e.start, e.end, piece, Speakers([e]))];
      ChunkTexts(chunks) == [piece] && HasShare(chunks[0], e, TotalLength(ChunkTexts(chunks)[..0]), TotalLength([piece]))
  {
    hide Speakers;
    assert TotalLength([piece][..0]) == 0 && TotalLength([piece]) == |piece|;
  }

  lemma {:induction false} PiecesTexts(e: Entry, pieces: seq<string>, first: bool, consumed: nat, total: nat)
    requires 0 < total
    ensures ChunkTexts(PieceChunks(e, pieces, first, consumed, total)) == pieces
    decreases |pieces|
  {
    hide Speakers, Interpolate;
    if pieces != [] {
      PiecesTexts(e, pieces[1..], false, consumed + |pieces[0]|, total);
      assert PieceChunks(e, pieces, first, consumed, total)[1..]
          == PieceChunks(e, pieces[1..], false, consumed + |pieces[0]|, total);
    }
  }

  // ---------- gathering ----------

  lemma {:induction false} LatestEndIsLast(pending: seq<Entry>)
    requires pending != [] && NonOverlapping(pending)
    ensures LatestEnd(pending) == pending[|pending| - 1].end
    ensures pending[0].start <= LatestEnd(pending)
  {
    if |pending| > 1 {
      assert [pending[0]] + pending[1..] == pending;
      NonOverlappingParts([pending[0]], pending[1..]);
      LatestEndIsLast(pending[1..]);
      assert pending[0].end <= pending[1].start;
    }
  }

  lemma FlushedLine(pending: seq<Entry>)
    requires pending != [] && NonOverlapping(pending)
    ensures TimeLine(Flushed(pending), pending[0].start, pending[|pending| - 1].end)
  {
    hide Speakers, Strip;
    LatestEndIsLast(pending);
  }

  lemma NonOverlappingPart(t: seq<Entry>, from: nat, to: nat)
    requires NonOverlapping(t) && from <= to <= |t|
    ensures NonOverlapping(t[from..to])
  {
    var p := t[from..to];
    assert forall i :: 0 <= i < |p| ==> p[i] == t[from + i];
    forall i | 0 <= i < |p| - 1 ensures p[i].end <= p[i + 1].start {
      assert t[from + i].end <= t[from + i + 1].start;
    }
  }

  lemma NonOverlappingParts(a: seq<Entry>, b: seq<Entry>)
    requires NonOverlapping(a + b)
    ensures NonOverlapping(a) && NonOverlapping(b)
    ensures a != [] && b != [] ==> a[|a| - 1].end <= b[0].start
  {
    var t := a + b;
    if a != [] && b != [] {
      assert t[|a| - 1].end <= t[|a| - 1 + 1].start;
    }
    assert a == t[0..|a|] && b == t[|a|..|t|];
    NonOverlappingPart(t, 0, |a|);
    NonOverlappingPart(t, |a|, |t|);
  }

  lemma LongTurnLine(pending: seq<Entry>, e: Entry, limits: Limits)
    requires 1 <= limits.maxChars && Tidy(e.text) && NonOverlapping(pending + [e])
    ensures TimeLine(LongTurn(pending, e, limits), (pending + [e])[0].start, e.end)
  {
    hide Speakers, Tidy, EmitSplit, Glue, Strip, Texts, Merged;
    NonOverlappingParts(pending, [e]);
    assert e in [e];
    SplitTurnTiles(e, limits.maxChars);
    var pieces := EmitSplit(e, limits.maxChars);
    if pending == [] {
      assert Flushed(pending) + pieces == pieces;
    } else if PendingLength(pending) < limits.minChars && |Carried(pending, e, pieces[0]).text| <= limits.maxChars {
      CarriedLine(pending, e, pieces);
    } else {
      FlushedLine(pending);
      TimeLineAppend(Flushed(pending), pieces, pending[0].start, pending[|pending| - 1].end, e.start, e.end);
    }
  }

  lemma CarriedLine(pending: seq<Entry>, e: Entry, pieces: seq<Chunk>)
    requires pending != [] && NonOverlapping(pending) && pending[|pending| - 1].end <= e.start
    requires TimeLine(pieces, e.start, e.end)
    ensures TimeLine([Carried(pending, e, pieces[0])] + pieces[1..], pending[0].start, e.end)
  {
    hide Speakers, Glue, Strip, Texts;
    LatestEndIsLast(pending);
    var c := Carried(pending, e, pieces[0]);
    var t := [c] + pieces[1..];
    assert pieces[0] in pieces;
    forall x | x in t ensures x.start <= x.end {
      assert x == c || x in pieces;
    }
    forall i | 0 <= i < |t| - 1 ensures t[i].end <= t[i + 1].start {
      assert pieces[i].end <= pieces[i + 1].start;
    }
  }

  /** Gathering lays the chunks out from the first entry's start to the last entry's end. */
  lemma {:induction false} GatherLine(entries: seq<Entry>, pending: seq<Entry>, limits: Limits)
    requires 1 <= limits.maxChars && Cleaned(entries) && NonOverlapping(pending + entries) && pending + entries != []
    ensures var all := pending + entries;
            TimeLine(Gather(entries, pending, limits), all[0].start, all[|all| - 1].end)
    decreases |entries|
  {
    hide Tidy, LongTurn, TimeLine, Flushed, NonOverlapping, Cleaned;
    var all := pending + entries;
    if entries == [] {
      assert all == pending;
      FlushedLine(pending);
    } else {
      var e, rest := entries[0], entries[1..];
      var front := pending + [e];
      hide Gather, PendingLength;
      assert entries == [e] + rest && front + rest == all;
      LastOf(front, rest);
      NonOverlappingParts(front, rest);
      CleanedParts(e, rest);
      if rest != [] {
        assert [] + rest == rest;
        GatherLine(rest, [], limits);
      }
      if |e.text| > limits.maxChars {
        LongTurnLine(pending, e, limits);
        GatherLongStep(e, rest, pending, limits);
        Then(LongTurn(pending, e, limits), rest, limits, front[0].start, e.end);
      } else {
        GatherShortLine(e, rest, pending, limits);
      }
    }
  }

  lemma CleanedParts(e: Entry, rest: seq<Entry>)
    requires Cleaned([e] + rest)
    ensures Tidy(e.text) && Cleaned(rest)
  {
    hide Tidy;
    var all := [e] + rest;
    assert e == all[0] && forall x :: x in rest ==> x in all;
  }

  lemma GatherLongStep(e: Entry, rest: seq<Entry>, pending: seq<Entry>, limits: Limits)
    requires 1 <= limits.maxChars < |e.text|
    ensures Gather([e] + rest, pending, limits) == LongTurn(pending, e, limits) + Gather(rest, [], limits)
  {
    hide LongTurn;
    assert ([e] + rest)[1..] == rest;
  }

  /** What has been put out, followed by the gathering of the rest. */
  lemma Then(out: seq<Chunk>, rest: seq<Entry>, limits: Limits, from: real, mid: real)
    requires 1 <= limits.maxChars && TimeLine(out, from, mid)
    requires rest != [] ==> mid <= rest[0].start && TimeLine(Gather(rest, [], limits), rest[0].start, rest[|rest| - 1].end)
    ensures TimeLine(out + Gather(rest, [], limits), from, if rest == [] then mid else rest[|rest| - 1].end)
  {
    if rest == [] {
      assert out + Gather(rest, [], limits) == out;
    } else {
      TimeLineAppend(out, Gather(rest, [], limits), from, mid, rest[0].start, rest[|rest| - 1].end);
    }
  }

  lemma {:induction false} GatherShortLine(e: Entry, rest: seq<Entry>, pending: seq<Entry>, limits: Limits)
    requires 1 <= limits.maxChars && Cleaned([e] + rest) && NonOverlapping(pending + [e] + rest)
    requires |e.text| <= limits.maxChars
    requires rest != [] ==> TimeLine(Gather(rest, [], limits), rest[0].start, rest[|rest| - 1].end)
    ensures TimeLine(Gather([e] + rest, pending, limits),
        (pending + [e])[0].start, if rest == [] then e.end else rest[|rest| - 1].end)
    decreases |rest| + 1, 0
  {
    hide Tidy, TimeLine, Flushed, LongTurn, NonOverlapping;
    var all := [e] + rest;
    assert all[0] == e && all[1..] == rest && Cleaned(rest);
    var full := pending != [] && PendingLength(pending) + |e.text| > limits.maxChars;
    var kept := if full then [] else pending;
    var open := kept + [e];
    assert [] + [e] == [e];
    var to := if rest == [] then e.end else rest[|rest| - 1].end;
    NonOverlappingParts(pending + [e], rest);
    NonOverlappingParts(pending, [e]);
    OpenOverRest(pending, kept, e, rest);
    NonOverlappingParts(open, rest);
    var closes := PendingLength(open) >= limits.targetChars;
    hide Gather, PendingLength;
    var tail := if closes then Flushed(open) + Gather(rest, [], limits) else Gather(rest, open, limits);
    if closes {
      FlushedLine(open);
      Then(Flushed(open), rest, limits, open[0].start, e.end);
    } else {
      GatherLine(rest, open, limits);
      LastOf(open, rest);
    }
    assert TimeLine(tail, open[0].start, to);
    GatherStep(e, rest, pending, limits);
    if full {
      FlushedLine(pending);
      TimeLineAppend(Flushed(pending), tail, pending[0].start, pending[|pending| - 1].end, e.start, to);
    }
  }

  lemma LastOf(open: seq<Entry>, rest: seq<Entry>)
    requires open != []
    ensures (open + rest)[0] == open[0]
    ensures (open + rest)[|open + rest| - 1] == if rest == [] then open[|open| - 1] else rest[|rest| - 1]
  {
  }

  lemma OpenOverRest(pending: seq<Entry>, kept: seq<Entry>, e: Entry, rest: seq<Entry>)
    requires NonOverlapping(pending + [e] + rest) && (kept == [] || kept == pending)
    ensures NonOverlapping(kept + [e] + rest)
  {
    if kept == [] {
      assert pending + [e] + rest == pending + ([e] + rest);
      NonOverlappingParts(pending, [e] + rest);
      assert kept + [e] + rest == [e] + rest;
    }
  }

  // ---------- compaction ----------

  lemma MergeLine(before: seq<Chunk>, p: Chunk, c: Chunk, m: Chunk, after: seq<Chunk>, from: real, to: real)
    requires TimeLine(before + [p, c] + after, from, to) && m.start == p.start && m.end == c.end
    ensures TimeLine(before + [m] + after, from, to)
  {
    var n := |before|;
    var all, out := before + [p, c] + after, before + [m] + after;
    assert all[n] == p && all[n + 1] == c && p in all && c in all;
    assert p.end <= c.start by { assert all[n].end <= all[n + 1].start; }
    forall x | x in out ensures x.start <= x.end {
      assert x == m || x in all;
    }
    forall i | 0 <= i < |out| - 1 ensures out[i].end <= out[i + 1].start {
      if i < n {
        assert all[i].end <= all[i + 1].start;
      } else {
        assert all[i + 1].end <= all[i + 2].start;
      }
    }
    if n > 0 {
      assert out[0] == all[0];
    }
    assert out[|out| - 1].end == all[|all| - 1].end;
  }

  lemma AbsorbTimes(p: Chunk, c: Chunk)
    requires p.start <= p.end <= c.start <= c.end
    ensures Absorb(p, c, false).start == p.start && Absorb(p, c, false).end == c.end
    ensures Absorb(c, p, true).start == p.start && Absorb(c, p, true).end == c.end
  {
    hide Glue, AddSpeakers;
  }

  lemma LineNeighbours(chunks: seq<Chunk>, i: nat, from: real, to: real)
    requires TimeLine(chunks, from, to) && i + 1 < |chunks|
    ensures chunks[i].start <= chunks[i].end <= chunks[i + 1].start <= chunks[i + 1].end
  {
    assert chunks[i] in chunks && chunks[i + 1] in chunks;
  }

  lemma {:induction false} CompactLine(chunks: seq<Chunk>, done: seq<Chunk>, limits: Limits, from: real, to: real)
    requires TimeLine(done + chunks, from, to)
    ensures TimeLine(Compact(chunks, done, limits), from, to)
    decreases |chunks|
  {
    hide Absorb, TimeLine;
    if chunks == [] {
      assert done + chunks == done;
    } else {
      var c, rest, n := chunks[0], chunks[1..], |done|;
      var all := done + chunks;
      var short := |c.text| < limits.minChars;
      if short && n > 0 && HasRoom(done[n - 1], c, limits.maxChars) {
        var p := done[n - 1];
        LineNeighbours(all, n - 1, from, to);
        AbsorbTimes(p, c);
        assert all == done[..n - 1] + [p, c] + rest;
        MergeLine(done[..n - 1], p, c, Absorb(p, c, false), rest, from, to);
        CompactLine(rest, done[..n - 1] + [Absorb(p, c, false)], limits, from, to);
      } else if short && rest != [] && HasRoom(rest[0], c, limits.maxChars) {
        var next := rest[0];
        LineNeighbours(all, n, from, to);
        AbsorbTimes(c, next);
        assert all == done + [c, next] + rest[1..];
        var m := Absorb(next, c, true);
        MergeLine(done, c, next, m, rest[1..], from, to);
        assert done + ([m] + rest[1..]) == done + [m] + rest[1..];
        CompactLine([m] + rest[1..], done, limits, from, to);
      } else {
        assert (done + [c]) + rest == all;
        CompactLine(rest, done + [c], limits, from, to);
      }
    }
  }

  /**
   If the turns of a transcript do not overlap, its chunks are in time order and
   disjoint, and run from the first turn's start to the last turn's end.
   */
  lemma ChunksFollowTheClock(entries: seq<Entry>, limits: Limits)
    requires 1 <= limits.maxChars && Cleaned(entries) && NonOverlapping(entries) && entries != []
    ensures TimeLine(ChunkValues(entries, limits), entries[0].start, entries[|entries| - 1].end)
  {
    hide Tidy, Gather, Compact, FoldTail, TimeLine;
    assert [] + entries == entries;
    GatherLine(entries, [], limits);
    var gathered := Gather(entries, [], limits);
    assert [] + gathered == gathered;
    CompactLine(gathered, [], limits, entries[0].start, entries[|entries| - 1].end);
    ChunksAreSettled(entries, limits);
  }
}
