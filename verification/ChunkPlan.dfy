/**
 How entries are gathered, as a plan read off the entries alone: which of them
 share a chunk, why each chunk was closed, and what each chunk then says.
 */
module ChunkPlan {
  import opened Text
  import opened Splitting
  import opened Chunking
  import opened ChunkLaws
  import opened ChunkTimes

  /** Entries that make one chunk, or a long turn with the short remainder carried into its first piece. */
  datatype Part = Group(members: seq<Entry>) | Turn(carried: seq<Entry>, turn: Entry)

  ghost function Members(p: Part): seq<Entry> {
    match p
    case Group(g) => g
    case Turn(c, e) => c + [e]
  }

  ghost function AllMembers(plan: seq<Part>): seq<Entry> {
    if plan == [] then [] else Members(plan[0]) + AllMembers(plan[1..])
  }

  // ---------- why the plan is as it is ----------

  /** A remainder is carried into a long turn when it is below the floor and fits before the first piece. */
  ghost predicate CanCarry(g: seq<Entry>, e: Entry, limits: Limits)
    requires 1 <= limits.maxChars
  {
    var pieces := SplitLong(e.text, limits.maxChars);
    g != [] && PendingLength(g) < limits.minChars && pieces != [] && PendingLength(g) + |pieces[0]| <= limits.maxChars
  }

  /** Gathered one by one: all of them fit into one chunk, and before the last the target was not reached. */
  ghost predicate Gathers(g: seq<Entry>, limits: Limits) {
    Fits(g, limits.maxChars) && (|g| > 1 ==> PendingLength(g[..|g| - 1]) < limits.targetChars)
  }

  ghost predicate Proper(p: Part, limits: Limits)
    requires 1 <= limits.maxChars
  {
    match p
    case Group(g) => g != [] && Gathers(g, limits)
    case Turn(c, e) =>
      |e.text| > limits.maxChars && Gathers(c, limits)
      && (c != [] ==> PendingLength(c) < limits.targetChars && CanCarry(c, e, limits))
  }

  /** The part was closed for its size, or because what comes next found no room in it. */
  ghost predicate Closed(p: Part, next: Part, limits: Limits)
    requires 1 <= limits.maxChars
  {
    p.Group? && PendingLength(p.members) < limits.targetChars ==>
      if next.Turn? && next.carried == [] then !CanCarry(p.members, next.turn, limits)
      else Members(next) != [] && PendingLength(p.members) + |Members(next)[0].text| > limits.maxChars
  }

  ghost predicate Plans(plan: seq<Part>, entries: seq<Entry>, limits: Limits)
    requires 1 <= limits.maxChars
  {
    && AllMembers(plan) == entries
    && (forall i :: 0 <= i < |plan| ==> Proper(plan[i], limits))
    && forall i :: 0 <= i < |plan| - 1 ==> Closed(plan[i], plan[i + 1], limits)
  }

  // ---------- what the chunks say ----------

  /** From the first start to the latest end, all the words in order, and the voices of all. */
  ghost predicate Says(c: Chunk, g: seq<Entry>) {
    && g != [] && c.start == g[0].start
    && (forall e :: e in g ==> e.end <= c.end) && (exists e :: e in g && e.end == c.end)
    && Words(c.text) == AllWords(Texts(g)) && Names(c.speakers) == SpeakersOf(g)
  }

  ghost predicate Shows(chunks: seq<Chunk>, p: Part, maxChars: nat)
    requires 1 <= maxChars
  {
    match p
    case Group(g) => |chunks| == 1 && Says(chunks[0], g)
    case Turn(c, e) =>
      var pieces := EmitSplit(e, maxChars);
      && |chunks| == |pieces| && (c == [] ==> chunks == pieces)
      && (c != [] ==>
            && chunks != [] && chunks[1..] == pieces[1..]
            && chunks[0].start == c[0].start && chunks[0].end == pieces[0].end
            && Words(chunks[0].text) == AllWords(Texts(c)) + Words(pieces[0].text)
            && Names(chunks[0].speakers) == SpeakersOf(c + [e]))
  }

  /** How many chunks a part makes. */
  ghost function Size(p: Part, maxChars: nat): nat
    requires 1 <= maxChars
  {
    if p.Group? then 1 else |EmitSplit(p.turn, maxChars)|
  }

  ghost predicate AllShow(chunks: seq<Chunk>, plan: seq<Part>, maxChars: nat)
    requires 1 <= maxChars
  {
    if plan == [] then chunks == []
    else
      var n := Size(plan[0], maxChars);
      n <= |chunks| && Shows(chunks[..n], plan[0], maxChars) && AllShow(chunks[n..], plan[1..], maxChars)
  }

  // ---------- one part ----------

  lemma {:induction false} LatestEndIsMax(g: seq<Entry>)
    requires g != []
    ensures (forall e :: e in g ==> e.end <= LatestEnd(g)) && exists e :: e in g && e.end == LatestEnd(g)
  {
    if |g| == 1 {
      assert g[0] in g;
    } else {
      LatestEndIsMax(g[1..]);
      var e :| e in g[1..] && e.end == LatestEnd(g[1..]);
      assert g[0] in g && e in g;
      assert g == [g[0]] + g[1..];
    }
  }

  lemma MergedSays(g: seq<Entry>)
    requires g != [] && Cleaned(g)
    ensures Says(Merged(g), g)
  {
    hide Tidy, Words, Strip, LatestEnd;
    LatestEndIsMax(g);
    JoinedTidy(g);
    SpeakersAreExact([], g);
  }

  lemma FirstPiece(e: Entry, maxChars: nat)
    requires 1 <= maxChars && Tidy(e.text) && e.start <= e.end
    ensures EmitSplit(e, maxChars) != [] && SplitLong(e.text, maxChars) != []
    ensures EmitSplit(e, maxChars)[0].text == SplitLong(e.text, maxChars)[0] && Tidy(SplitLong(e.text, maxChars)[0])
  {
    hide Tidy, SplitLong, EmitSplit, Words, FragAll;
    SplitKeepsWords(e.text, maxChars);
    SplitTurnShares(e, maxChars, 0);
    assert |ChunkTexts(EmitSplit(e, maxChars))| == |EmitSplit(e, maxChars)|;
  }

  lemma CarriedSays(c: seq<Entry>, e: Entry, first: Chunk)
    requires c != [] && Cleaned(c) && Tidy(first.text)
    ensures var carried := Carried(c, e, first);
            && carried.start == c[0].start && carried.end == first.end
            && Words(carried.text) == AllWords(Texts(c)) + Words(first.text)
            && |carried.text| == PendingLength(c) + |first.text|
            && Names(carried.speakers) == SpeakersOf(c + [e])
  {
    hide Tidy, Words, Strip, Glue, AllWords;
    JoinedTidy(c);
    GlueTidy(Join(Texts(c)), first.text);
    SpeakersAreExact([], c + [e]);
  }

  lemma LongTurnShows(pending: seq<Entry>, e: Entry, limits: Limits)
    requires 1 <= limits.maxChars && Cleaned(pending) && Tidy(e.text) && e.start <= e.end
    ensures CanCarry(pending, e, limits) ==> Shows(LongTurn(pending, e, limits), Turn(pending, e), limits.maxChars)
    ensures !CanCarry(pending, e, limits) ==>
              LongTurn(pending, e, limits) == Flushed(pending) + EmitSplit(e, limits.maxChars)
    ensures Shows(EmitSplit(e, limits.maxChars), Turn([], e), limits.maxChars)
  {
    hide Tidy, Words, SplitLong, EmitSplit, Carried, AllWords;
    FirstPiece(e, limits.maxChars);
    if pending != [] {
      CarriedSays(pending, e, EmitSplit(e, limits.maxChars)[0]);
    }
  }

  // ---------- the plan of a transcript ----------

  lemma AllShowCons(a: seq<Chunk>, p: Part, b: seq<Chunk>, plan: seq<Part>, maxChars: nat)
    requires 1 <= maxChars && |a| == Size(p, maxChars) && Shows(a, p, maxChars) && AllShow(b, plan, maxChars)
    ensures AllShow(a + b, [p] + plan, maxChars)
  {
    hide Shows, EmitSplit, Size;
    var all := a + b;
    assert all[..|a|] == a && all[|a|..] == b && ([p] + plan)[1..] == plan;
  }

  lemma PlansCons(p: Part, plan: seq<Part>, entries: seq<Entry>, limits: Limits)
    requires 1 <= limits.maxChars && Proper(p, limits) && Plans(plan, entries, limits)
    requires plan != [] ==> Closed(p, plan[0], limits)
    ensures Plans([p] + plan, Members(p) + entries, limits)
  {
    hide Proper, Closed, Members;
    var all := [p] + plan;
    assert all[1..] == plan;
    forall i | 0 <= i < |all| - 1 ensures Closed(all[i], all[i + 1], limits) {
      if i > 0 {
        assert Closed(plan[i - 1], plan[i], limits);
      }
    }
  }

  /** A plan whose first entry is short and found no room in the group before it closes that group. */
  lemma ClosedByFirst(p: Part, plan: seq<Part>, entries: seq<Entry>, limits: Limits)
    requires 1 <= limits.maxChars && p.Group? && Plans(plan, entries, limits) && entries != [] && plan != []
    requires |entries[0].text| <= limits.maxChars < PendingLength(p.members) + |entries[0].text|
    ensures Closed(p, plan[0], limits)
  {
    hide CanCarry, Gathers;
    assert Proper(plan[0], limits) && Members(plan[0]) != [];
    assert entries[0] == Members(plan[0])[0];
  }

  /** The remainder so far: it could still take an entry. */
  ghost predicate IsOpen(pending: seq<Entry>, limits: Limits) {
    Gathers(pending, limits) && (pending != [] ==> PendingLength(pending) < limits.targetChars)
  }

  lemma NothingPlanned(limits: Limits)
    requires 1 <= limits.maxChars
    ensures Plans([], [], limits) && AllShow([], [], limits.maxChars) && IsOpen([], limits)
  {
    FitsNone(limits.maxChars);
  }

  lemma GroupShows(g: seq<Entry>, limits: Limits)
    requires 1 <= limits.maxChars && g != [] && Gathers(g, limits)
    ensures Proper(Group(g), limits) && Shows(Flushed(g), Group(g), limits.maxChars)
    ensures |Flushed(g)| == Size(Group(g), limits.maxChars) && Members(Group(g)) == g
  {
    hide Merged, Says;
    FitsCleaned(g, limits.maxChars);
    MergedSays(g);
  }

  /** One more part in front, with what it shows. */
  lemma InFront(a: seq<Chunk>, p: Part, b: seq<Chunk>, plan: seq<Part>, entries: seq<Entry>, limits: Limits)
    requires 1 <= limits.maxChars && Proper(p, limits) && Shows(a, p, limits.maxChars) && |a| == Size(p, limits.maxChars)
    requires Plans(plan, entries, limits) && AllShow(b, plan, limits.maxChars)
    requires plan != [] ==> Closed(p, plan[0], limits)
    ensures Plans([p] + plan, Members(p) + entries, limits) && AllShow(a + b, [p] + plan, limits.maxChars)
  {
    hide Proper, Shows, Size, Plans, AllShow, Closed, Members;
    AllShowCons(a, p, b, plan, limits.maxChars);
    PlansCons(p, plan, entries, limits);
  }

  lemma LongStep(pending: seq<Entry>, e: Entry, rest: seq<Entry>, chunks: seq<Chunk>, plan: seq<Part>, limits: Limits)
    returns (r: seq<Part>)
    requires 1 <= limits.maxChars && IsOpen(pending, limits) && Tidy(e.text) && e.start <= e.end
    requires |e.text| > limits.maxChars && Plans(plan, rest, limits) && AllShow(chunks, plan, limits.maxChars)
    ensures Plans(r, pending + [e] + rest, limits) && AllShow(LongTurn(pending, e, limits) + chunks, r, limits.maxChars)
  {
    NothingPlanned(limits);
    FitsCleaned(pending, limits.maxChars);
    LongTurnShows(pending, e, limits);
    var pieces := EmitSplit(e, limits.maxChars);
    hide Tidy, EmitSplit, LongTurn, Shows, Plans, AllShow, Flushed, CanCarry, Gathers;
    if CanCarry(pending, e, limits) {
      CarryIsProper(pending, e, limits);
      InFront(LongTurn(pending, e, limits), Turn(pending, e), chunks, plan, rest, limits);
      r := [Turn(pending, e)] + plan;
    } else {
      assert Members(Turn([], e)) == [e] by { assert [] + [e] == [e]; }
      InFront(pieces, Turn([], e), chunks, plan, rest, limits);
      r := [Turn([], e)] + plan;
      if pending != [] {
        GroupShows(pending, limits);
        InFront(Flushed(pending), Group(pending), pieces + chunks, r, [e] + rest, limits);
        r := [Group(pending)] + r;
        Assoc(Flushed(pending), pieces, chunks);
        Assoc(pending, [e], rest);
      } else {
        assert Flushed(pending) == [] by { NothingFlushed(); }
        assert [] + pieces == pieces && pending + [e] + rest == [e] + rest;
      }
    }
  }

  lemma NothingFlushed()
    ensures Flushed([]) == []
  {
  }

  lemma CarryIsProper(pending: seq<Entry>, e: Entry, limits: Limits)
    requires 1 <= limits.maxChars && IsOpen(pending, limits) && |e.text| > limits.maxChars && CanCarry(pending, e, limits)
    ensures Proper(Turn(pending, e), limits) && Members(Turn(pending, e)) == pending + [e]
    ensures Shows(LongTurn(pending, e, limits), Turn(pending, e), limits.maxChars) ==>
              |LongTurn(pending, e, limits)| == Size(Turn(pending, e), limits.maxChars)
  {
    hide Gathers, CanCarry, EmitSplit, LongTurn, Says;
  }

  lemma OpenMore(kept: seq<Entry>, e: Entry, limits: Limits)
    requires IsOpen(kept, limits) && Tidy(e.text) && e.start <= e.end && |e.text| <= limits.maxChars
    requires kept == [] || PendingLength(kept) + |e.text| <= limits.maxChars
    ensures Gathers(kept + [e], limits)
    ensures PendingLength(kept + [e]) < limits.targetChars ==> IsOpen(kept + [e], limits)
  {
    hide Tidy, Fits;
    FitsAppend(kept, e, limits.maxChars);
    assert (kept + [e])[..|kept|] == kept;
  }

  /** The group before is closed by a short entry that found no room in it. */
  lemma FullStep(pending: seq<Entry>, e: Entry, rest: seq<Entry>, chunks: seq<Chunk>, plan: seq<Part>, limits: Limits)
    requires 1 <= limits.maxChars && pending != [] && Gathers(pending, limits)
    requires |e.text| <= limits.maxChars < PendingLength(pending) + |e.text|
    requires Plans(plan, [e] + rest, limits) && AllShow(chunks, plan, limits.maxChars)
    ensures Plans([Group(pending)] + plan, pending + [e] + rest, limits)
    ensures AllShow(Flushed(pending) + chunks, [Group(pending)] + plan, limits.maxChars)
  {
    assert plan != [] by { assert AllMembers(plan) == [e] + rest; }
    ClosedByFirst(Group(pending), plan, [e] + rest, limits);
    hide Plans, AllShow, Closed, Gathers, Flushed;
    GroupShows(pending, limits);
    InFront(Flushed(pending), Group(pending), chunks, plan, [e] + rest, limits);
    Assoc(pending, [e], rest);
  }

  lemma CloseStep(open: seq<Entry>, rest: seq<Entry>, chunks: seq<Chunk>, plan: seq<Part>, limits: Limits)
    requires 1 <= limits.maxChars && open != [] && Gathers(open, limits)
    requires PendingLength(open) >= limits.targetChars || plan == []
    requires Plans(plan, rest, limits) && AllShow(chunks, plan, limits.maxChars)
    ensures Plans([Group(open)] + plan, open + rest, limits)
    ensures AllShow(Flushed(open) + chunks, [Group(open)] + plan, limits.maxChars)
  {
    hide Plans, AllShow, Gathers, Flushed;
    GroupShows(open, limits);
    InFront(Flushed(open), Group(open), chunks, plan, rest, limits);
  }

  /**
   Gathering follows one plan: all entries in order, divided into groups closed
   only at the target size or for want of room, and long turns that take a short
   remainder with them if and only if it fits; each chunk says what its part says.
   */
  lemma {:induction false} GatherFollowsAPlan(entries: seq<Entry>, pending: seq<Entry>, limits: Limits)
    returns (plan: seq<Part>)
    requires 1 <= limits.maxChars && Cleaned(entries) && IsOpen(pending, limits)
    ensures Plans(plan, pending + entries, limits)
    ensures AllShow(Gather(entries, pending, limits), plan, limits.maxChars)
    decreases |entries|, 0
  {
    hide Tidy, Plans, AllShow, Gathers, LongTurn, Flushed;
    NothingPlanned(limits);
    if entries == [] {
      plan := [];
      assert pending + [] == pending;
      if pending != [] {
        CloseStep(pending, [], [], [], limits);
        plan := [Group(pending)] + [];
        assert Flushed(pending) + [] == Flushed(pending);
      } else {
        NothingFlushed();
      }
    } else {
      var e, rest := entries[0], entries[1..];
      assert entries == [e] + rest && e in entries;
      Assoc(pending, [e], rest);
      if |e.text| > limits.maxChars {
        var tail := GatherFollowsAPlan(rest, [], limits);
        assert [] + rest == rest;
        plan := LongStep(pending, e, rest, Gather(rest, [], limits), tail, limits);
      } else {
        plan := ShortStep(e, rest, pending, limits);
      }
    }
  }

  lemma {:induction false} ShortStep(e: Entry, rest: seq<Entry>, pending: seq<Entry>, limits: Limits)
    returns (plan: seq<Part>)
    requires 1 <= limits.maxChars && Cleaned([e] + rest) && IsOpen(pending, limits) && |e.text| <= limits.maxChars
    ensures Plans(plan, pending + [e] + rest, limits)
    ensures AllShow(Gather([e] + rest, pending, limits), plan, limits.maxChars)
    decreases |rest|, 2
  {
    hide Tidy, Plans, AllShow;
    NothingPlanned(limits);
    CleanedParts(e, rest);
    var full := pending != [] && PendingLength(pending) + |e.text| > limits.maxChars;
    var open := (if full then [] else pending) + [e];
    OpenMore(if full then [] else pending, e, limits);
    GatherStep(e, rest, pending, limits);
    hide Gather, Flushed, Gathers;
    plan := OpenTail(open, rest, limits);
    if full {
      assert open == [e];
      var tail := if PendingLength(open) >= limits.targetChars then Flushed(open) + Gather(rest, [], limits)
                  else Gather(rest, open, limits);
      FullStep(pending, e, rest, tail, plan, limits);
      plan := [Group(pending)] + plan;
    }
  }

  /** The rest of the plan once the group has taken its latest entry. */
  lemma {:induction false} OpenTail(open: seq<Entry>, rest: seq<Entry>, limits: Limits) returns (plan: seq<Part>)
    requires 1 <= limits.maxChars && Cleaned(rest) && open != [] && Gathers(open, limits)
    requires PendingLength(open) < limits.targetChars ==> IsOpen(open, limits)
    ensures Plans(plan, open + rest, limits)
    ensures var tail := if PendingLength(open) >= limits.targetChars then Flushed(open) + Gather(rest, [], limits)
                        else Gather(rest, open, limits);
            AllShow(tail, plan, limits.maxChars)
    decreases |rest|, 1
  {
    NothingPlanned(limits);
    hide Tidy, Plans, AllShow, Gathers, Gather, Flushed, IsOpen;
    if PendingLength(open) >= limits.targetChars {
      plan := GatherFollowsAPlan(rest, [], limits);
      assert [] + rest == rest;
      CloseStep(open, rest, Gather(rest, [], limits), plan, limits);
      plan := [Group(open)] + plan;
    } else {
      plan := GatherFollowsAPlan(rest, open, limits);
    }
  }

  // ---------- compaction and its preferences ----------

  /** A short chunk with room on both sides goes to the one before it. */
  lemma PredecessorFirst(a: Chunk, b: Chunk, c: Chunk, limits: Limits)
    requires |a.text| >= limits.minChars && |b.text| < limits.minChars && |c.text| >= limits.minChars
    requires |a.text| + 1 + |b.text| <= limits.maxChars
    ensures Compact([a, b, c], [], limits) == [Absorb(a, b, false), c]
  {
    assert [a, b, c][1..] == [b, c] && [b, c][1..] == [c] && [c][1..] == [];
    assert [a][..0] + [Absorb(a, b, false)] == [Absorb(a, b, false)] && [] + [a] == [a];
    var m := Absorb(a, b, false);
    assert Compact([c], [m], limits) == Compact([], [m] + [c], limits);
    assert Compact([b, c], [a], limits) == Compact([c], [m], limits);
  }

  /** Absorbing spans both chunks: the earlier start, the later end, and the voices of the host before new ones of the guest. */
  lemma AbsorbSpans(host: Chunk, guest: Chunk, guestFirst: bool)
    ensures var m := Absorb(host, guest, guestFirst);
            && m.start <= host.start && m.start <= guest.start && m.start in {host.start, guest.start}
            && m.end >= host.end && m.end >= guest.end && m.end in {host.end, guest.end}
            && host.speakers <= m.speakers
  {
    SpeakersGrow(host.speakers, guest.speakers);
  }

  lemma {:induction false} SpeakersFromMore(seen: seq<string>, a: seq<Entry>, b: seq<Entry>)
    ensures SpeakersFrom(seen, a + b) == SpeakersFrom(SpeakersFrom(seen, a), b)
    decreases |a|
  {
    if a == [] {
      assert a + b == b;
    } else {
      var next := match a[0].speaker case Some(s) => AddSpeaker(seen, s) case None => seen;
      SpeakersFromMore(next, a[1..], b);
      assert (a + b)[1..] == a[1..] + b && (a + b)[0] == a[0];
    }
  }

  ghost predicate NoneTwice(speakers: seq<string>) {
    forall i, j :: 0 <= i < j < |speakers| ==> speakers[i] != speakers[j]
  }

  lemma {:induction false} SpeakersFromGrow(seen: seq<string>, entries: seq<Entry>)
    requires NoneTwice(seen)
    ensures seen <= SpeakersFrom(seen, entries) && NoneTwice(SpeakersFrom(seen, entries))
    decreases |entries|
  {
    if entries != [] {
      SpeakersFromGrow(match entries[0].speaker case Some(s) => AddSpeaker(seen, s) case None => seen, entries[1..]);
    }
  }

  /** Speakers stand in the order they first spoke: those of a beginning of the entries come first, each named once. */
  lemma SpeakersInOrder(entries: seq<Entry>, k: nat)
    requires k <= |entries|
    ensures Speakers(entries[..k]) <= Speakers(entries) && NoneTwice(Speakers(entries))
    ensures Names(Speakers(entries)) == SpeakersOf(entries) && Names(Speakers(entries[..k])) == SpeakersOf(entries[..k])
  {
    SpeakersFromMore([], entries[..k], entries[k..]);
    assert entries == entries[..k] + entries[k..];
    SpeakersFromGrow([], entries[..k]);
    SpeakersFromGrow(SpeakersFrom([], entries[..k]), entries[k..]);
    SpeakersAreExact([], entries);
    SpeakersAreExact([], entries[..k]);
  }

  lemma {:induction false} SpeakersGrow(seen: seq<string>, more: seq<string>)
    ensures seen <= AddSpeakers(seen, more)
    decreases |more|
  {
    if more != [] {
      SpeakersGrow(AddSpeaker(seen, more[0]), more[1..]);
    }
  }
}
