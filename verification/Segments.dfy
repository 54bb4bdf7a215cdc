/**
 Splitting a recording into segments for transcription: cuts are placed near
 the target length, moved to the nearest silence inside a search window, and
 each segment is widened by an overlap on both sides.
 */
module Segments {
  import opened Wrappers

  /** Silence points closer than this to the previous cut are ignored. */
  const MIN_CORE: real := 45.0

  datatype Plan = Plan(duration: real, target: int, window: int, overlap: int, silence: seq<real>) {
    /** The shortest distance between two cuts. */
    function Step(): (step: real)
    {
      if target as real < MIN_CORE then target as real else MIN_CORE
    }
  }

  datatype Segment = Segment(start: real, end: real)

  function Min(a: real, b: real): real { if b < a then b else a }

  function Max(a: real, b: real): real { if b > a then b else a }

  function Distance(a: real, b: real): real { if a < b then b - a else a - b }

  predicate InWindow(plan: Plan, cursor: real, point: real) {
    Max(0.0, cursor - plan.window as real) <= point <= Min(plan.duration, cursor + plan.window as real)
  }

  /** Point `k` lies in the search window around `cursor`; earlier points there are farther off, later ones not nearer. */
  ghost predicate NearestAt(plan: Plan, points: seq<real>, cursor: real, k: nat)
    requires k < |points|
  {
    && InWindow(plan, cursor, points[k])
    && (forall j :: 0 <= j < k && InWindow(plan, cursor, points[j]) ==>
          Distance(points[k], cursor) < Distance(points[j], cursor))
    && (forall j :: k < j < |points| && InWindow(plan, cursor, points[j]) ==>
          Distance(points[k], cursor) <= Distance(points[j], cursor))
  }

  /** `point` is the first of the nearest silences inside the search window around `cursor`. */
  ghost predicate IsNearest(plan: Plan, points: seq<real>, cursor: real, point: real) {
    exists k :: 0 <= k < |points| && points[k] == point && NearestAt(plan, points, cursor, k)
  }

  ghost predicate NoSilence(plan: Plan, points: seq<real>, cursor: real) {
    forall k :: 0 <= k < |points| ==> !InWindow(plan, cursor, points[k])
  }

  function Nearest(plan: Plan, points: seq<real>, cursor: real): Option<real> {
    if points == [] then None
    else
      var last := points[|points| - 1];
      var best := Nearest(plan, points[..|points| - 1], cursor);
      if InWindow(plan, cursor, last) && (best.None? || Distance(last, cursor) < Distance(best.value, cursor))
      then Some(last) else best
  }

  lemma {:induction false} NearestIsNearest(plan: Plan, points: seq<real>, cursor: real)
    ensures var nearest := Nearest(plan, points, cursor);
            if nearest.None? then NoSilence(plan, points, cursor) else IsNearest(plan, points, cursor, nearest.value)
    decreases |points|
  {
    hide InWindow, Distance;
    if points != [] {
      var init, last := points[..|points| - 1], points[|points| - 1];
      NearestIsNearest(plan, init, cursor);
      assert forall j :: 0 <= j < |init| ==> init[j] == points[j];
      if Nearest(plan, points, cursor) == Nearest(plan, init, cursor) && Nearest(plan, init, cursor).Some? {
        var k :| 0 <= k < |init| && NearestAt(plan, init, cursor, k) && init[k] == Nearest(plan, init, cursor).value;
        assert NearestAt(plan, points, cursor, k);
      } else if Nearest(plan, points, cursor).Some? {
        assert NearestAt(plan, points, cursor, |points| - 1);
      }
    }
  }

  /** The cut after `last`, when more than one target length remains. */
  function NextCut(plan: Plan, last: real): (cut: real)
  {
    var cursor := last + plan.target as real;
    var chosen := Nearest(plan, plan.silence, cursor).GetOr(cursor);
    if chosen - last < MIN_CORE then Min(plan.duration, last + plan.target as real) else chosen
  }

  /** The cuts from `last` to the end of the recording, both included. */
  function Cuts(plan: Plan, last: real): seq<real>
    requires plan.target > 0
    decreases plan.duration - last
  {
    if last + plan.target as real >= plan.duration then [last, plan.duration]
    else [last] + Cuts(plan, NextCut(plan, last))
  }

  function Widen(plan: Plan, cuts: seq<real>, i: nat): Segment
    requires i + 1 < |cuts|
  {
    Segment(
      Max(0.0, cuts[i] - if i > 0 then plan.overlap as real else 0.0),
      Min(plan.duration, cuts[i + 1] + if i < |cuts| - 2 then plan.overlap as real else 0.0))
  }

  function AllSegments(plan: Plan): seq<Segment>
    requires plan.target > 0
  {
    if plan.duration <= 0.0 then [] else
      var cuts := Cuts(plan, 0.0);
      if |cuts| < 2 then [] else seq(|cuts| - 1, i requires 0 <= i < |cuts| - 1 => Widen(plan, cuts, i))
  }

  /** `made` is where the loop stands: finishing it gives all the cuts. */
  ghost predicate CutSoFar(plan: Plan, made: seq<real>)
    requires plan.target > 0
  {
    made != [] && made[..|made| - 1] + Cuts(plan, made[|made| - 1]) == Cuts(plan, 0.0)
  }

  lemma CutStep(plan: Plan, made: seq<real>)
    requires plan.target > 0 && CutSoFar(plan, made) && made[|made| - 1] + plan.target as real < plan.duration
    ensures CutSoFar(plan, made + [NextCut(plan, made[|made| - 1])])
  {
    hide NextCut;
    var last := made[|made| - 1];
    var longer := made + [NextCut(plan, last)];
    assert longer[..|longer| - 1] == made == made[..|made| - 1] + [last];
    assert made[..|made| - 1] + ([last] + Cuts(plan, NextCut(plan, last))) == made + Cuts(plan, NextCut(plan, last));
  }

  lemma CutEnd(plan: Plan, made: seq<real>)
    requires plan.target > 0 && CutSoFar(plan, made) && made[|made| - 1] + plan.target as real >= plan.duration
    ensures made + [plan.duration] == Cuts(plan, 0.0)
  {
    var last := made[|made| - 1];
    assert made[..|made| - 1] + [last, plan.duration] == made + [plan.duration];
  }

  method BuildSegments(plan: Plan) returns (segments: seq<Segment>)
    requires plan.target > 0
    ensures segments == AllSegments(plan)
  {
    hide Nearest, CutSoFar, Cuts;
    if plan.duration <= 0.0 {
      return [];
    }
    var boundaries := [0.0];
    var cursor := plan.target as real;
    assert CutSoFar(plan, boundaries) by { CutStart(plan); }
    while cursor < plan.duration
      invariant boundaries != [] && cursor == boundaries[|boundaries| - 1] + plan.target as real
      invariant CutSoFar(plan, boundaries)
      decreases plan.duration - boundaries[|boundaries| - 1]
    {
      CutStep(plan, boundaries);
      var chosen := Nearest(plan, plan.silence, cursor).GetOr(cursor);
      if chosen - boundaries[|boundaries| - 1] < MIN_CORE {
        chosen := Min(plan.duration, boundaries[|boundaries| - 1] + plan.target as real);
      }
      boundaries := boundaries + [chosen];
      cursor := chosen + plan.target as real;
    }
    CutEnd(plan, boundaries);
    boundaries := boundaries + [plan.duration];
    segments := [];
    for idx := 0 to |boundaries| - 1
      invariant |segments| == idx
      invariant forall k :: 0 <= k < idx ==> segments[k] == Widen(plan, boundaries, k)
    {
      var extStart := Max(0.0, boundaries[idx] - if idx > 0 then plan.overlap as real else 0.0);
      var extEnd := Min(plan.duration, boundaries[idx + 1] + if idx < |boundaries| - 2 then plan.overlap as real else 0.0);
      segments := segments + [Segment(extStart, extEnd)];
    }
  }

  lemma CutStart(plan: Plan)
    requires plan.target > 0
    ensures CutSoFar(plan, [0.0])
  {
    assert [0.0][..0] + Cuts(plan, 0.0) == Cuts(plan, 0.0);
  }

  // ---------- what a cut is ----------

  /**
   A cut is made while more than a target length remains. It is the nearest
   silence in the window when that leaves a core of at least 45 seconds, and
   lies one target length on when it does not.
   */
  ghost predicate ProperCut(plan: Plan, last: real, cut: real) {
    var cursor := last + plan.target as real;
    cursor < plan.duration &&
    if exists p :: IsNearest(plan, plan.silence, cursor, p) && p - last >= MIN_CORE
    then IsNearest(plan, plan.silence, cursor, cut) && cut - last >= MIN_CORE
    else cut == cursor
  }

  lemma NearestIsUnique(plan: Plan, points: seq<real>, cursor: real, p: real, q: real)
    requires IsNearest(plan, points, cursor, p) && IsNearest(plan, points, cursor, q)
    ensures p == q
  {
  }

  lemma NearestIsInWindow(plan: Plan, points: seq<real>, cursor: real, p: real)
    requires IsNearest(plan, points, cursor, p)
    ensures p in points && p <= plan.duration && p <= cursor + Max(0.0, plan.window as real)
  {
  }

  lemma NoSilenceNoNearest(plan: Plan, points: seq<real>, cursor: real)
    requires NoSilence(plan, points, cursor)
    ensures forall p :: !IsNearest(plan, points, cursor, p)
  {
  }

  /** Two neighbouring cuts are at least `Step` and at most the target plus the window apart. */
  predicate Spaced(plan: Plan, last: real, cut: real) {
    last + plan.Step() <= cut <= Min(plan.duration, last + plan.target as real + Max(0.0, plan.window as real))
  }

  /** With more than one target length left, the next cut is proper and inside the recording. */
  lemma NextCutIsProper(plan: Plan, last: real)
    requires plan.target > 0 && 0.0 <= last && last + plan.target as real < plan.duration
    ensures ProperCut(plan, last, NextCut(plan, last)) && Spaced(plan, last, NextCut(plan, last))
  {
    hide InWindow, Distance, IsNearest, NoSilence;
    var cursor := last + plan.target as real;
    var nearest := Nearest(plan, plan.silence, cursor);
    NearestIsNearest(plan, plan.silence, cursor);
    if nearest.Some? {
      NearestIsInWindow(plan, plan.silence, cursor, nearest.value);
    } else {
      NoSilenceNoNearest(plan, plan.silence, cursor);
    }
    forall p | IsNearest(plan, plan.silence, cursor, p) ensures nearest == Some(p) {
      if nearest.Some? {
        NearestIsUnique(plan, plan.silence, cursor, p, nearest.value);
      }
    }
  }

  // ---------- the cuts of a recording ----------

  /** From `last`, the cuts run to the end in steps that are neither too short nor too long. */
  ghost predicate WellCut(plan: Plan, cuts: seq<real>) {
    && |cuts| >= 2 && cuts[|cuts| - 1] == plan.duration
    && cuts[|cuts| - 2] <= plan.duration <= cuts[|cuts| - 2] + plan.target as real
    && (forall i :: 0 <= i < |cuts| - 2 ==> ProperCut(plan, cuts[i], cuts[i + 1]))
    && (forall i :: 0 <= i < |cuts| - 2 ==> Spaced(plan, cuts[i], cuts[i + 1]))
  }

  lemma WellCutCons(plan: Plan, last: real, rest: seq<real>)
    requires WellCut(plan, rest) && ProperCut(plan, last, rest[0]) && Spaced(plan, last, rest[0])
    ensures WellCut(plan, [last] + rest)
  {
    hide ProperCut, Spaced;
    var cuts := [last] + rest;
    forall i | 0 <= i < |cuts| - 2
      ensures ProperCut(plan, cuts[i], cuts[i + 1])
      ensures Spaced(plan, cuts[i], cuts[i + 1])
    {
      if i > 0 {
        assert cuts[i] == rest[i - 1] && cuts[i + 1] == rest[i];
        assert ProperCut(plan, rest[i - 1], rest[i - 1 + 1]) && Spaced(plan, rest[i - 1], rest[i - 1 + 1]);
      }
    }
  }

  lemma {:induction false} CutsAreProper(plan: Plan, last: real)
    requires plan.target > 0 && 0.0 <= last <= plan.duration
    ensures Cuts(plan, last)[0] == last && WellCut(plan, Cuts(plan, last))
    decreases plan.duration - last
  {
    hide NextCut, ProperCut;
    if last + plan.target as real < plan.duration {
      var next := NextCut(plan, last);
      NextCutIsProper(plan, last);
      CutsAreProper(plan, next);
      WellCutCons(plan, last, Cuts(plan, next));
    }
  }

  /** Cuts are at least `Step` apart, so there are at most (duration - last) / Step + 2 of them. */
  lemma {:induction false} CutsAreFew(plan: Plan, last: real)
    requires plan.target > 0 && 0.0 <= last <= plan.duration
    ensures |Cuts(plan, last)| >= 2 && (|Cuts(plan, last)| - 2) as real * plan.Step() <= plan.duration - last
    decreases plan.duration - last
  {
    hide NextCut, ProperCut;
    if last + plan.target as real < plan.duration {
      var next := NextCut(plan, last);
      NextCutIsProper(plan, last);
      CutsAreFew(plan, next);
      var rest := Cuts(plan, next);
      assert (|rest| - 1) as real * plan.Step() == (|rest| - 2) as real * plan.Step() + plan.Step();
    }
  }

  // ---------- the segments ----------

  lemma {:induction false} CutsAscend(plan: Plan, cuts: seq<real>)
    requires plan.target > 0 && WellCut(plan, cuts)
    ensures forall i, j :: 0 <= i <= j < |cuts| ==> cuts[i] <= cuts[j]
    decreases |cuts|
  {
    hide ProperCut;
    if |cuts| > 2 {
      var rest := cuts[1..];
      assert forall i :: 0 <= i < |rest| ==> rest[i] == cuts[i + 1];
      CutsAscend(plan, rest);
      assert Spaced(plan, cuts[0], cuts[0 + 1]);
      forall i, j | 0 <= i <= j < |cuts| ensures cuts[i] <= cuts[j] {
        if 0 < i {
          assert rest[i - 1] <= rest[j - 1];
        } else if 0 < j {
          assert rest[0] <= rest[j - 1];
        }
      }
    }
  }

  /** One segment: its core widened by the overlap, kept inside the recording. */
  lemma WidenStaysInside(plan: Plan, cuts: seq<real>, i: nat)
    requires plan.target > 0 && plan.overlap >= 0 && plan.duration > 0.0
    requires i + 1 < |cuts| && WellCut(plan, cuts) && cuts[0] == 0.0
    ensures 0.0 <= Widen(plan, cuts, i).start <= cuts[i] <= cuts[i + 1] <= Widen(plan, cuts, i).end <= plan.duration
    ensures Widen(plan, cuts, i).end - Widen(plan, cuts, i).start
            <= plan.target as real + Max(0.0, plan.window as real) + 2.0 * plan.overlap as real
  {
    hide ProperCut;
    CutsAscend(plan, cuts);
    assert cuts[0] <= cuts[i] <= cuts[i + 1] <= cuts[|cuts| - 1];
    if i < |cuts| - 2 {
      assert Spaced(plan, cuts[i], cuts[i + 1]);
    }
  }

  lemma WidenedInOrder(plan: Plan, cuts: seq<real>, i: nat)
    requires plan.target > 0 && plan.overlap >= 0 && plan.duration > 0.0
    requires i + 2 < |cuts| && WellCut(plan, cuts) && cuts[0] == 0.0
    ensures Widen(plan, cuts, i).start <= Widen(plan, cuts, i + 1).start
        <= Widen(plan, cuts, i).end <= Widen(plan, cuts, i + 1).end
  {
    hide ProperCut;
    WidenStaysInside(plan, cuts, i);
    WidenStaysInside(plan, cuts, i + 1);
  }

  /**
   The segments cover the recording in order: the first starts at zero, the
   last ends at the end, neighbours meet or overlap, no core is longer than the
   target plus the window.
   */
  lemma {:induction false} SegmentsCoverTheRecording(plan: Plan)
    requires plan.target > 0 && plan.overlap >= 0 && plan.duration > 0.0
    ensures var s := AllSegments(plan);
            && |s| > 0 && s[0].start == 0.0 && s[|s| - 1].end == plan.duration
            && (forall i :: 0 <= i < |s| ==> 0.0 <= s[i].start <= s[i].end <= plan.duration)
            && (forall i :: 0 <= i < |s| - 1 ==> s[i].start <= s[i + 1].start <= s[i].end <= s[i + 1].end)
    ensures var s := AllSegments(plan);
            var reach := plan.target as real + Max(0.0, plan.window as real) + 2.0 * plan.overlap as real;
            forall i :: 0 <= i < |s| ==> s[i].end - s[i].start <= reach
  {
    hide NextCut, ProperCut, Cuts, Spaced;
    CutsAreProper(plan, 0.0);
    var cuts := Cuts(plan, 0.0);
    var s := AllSegments(plan);
    assert |s| == |cuts| - 1 && cuts[0] == 0.0;
    forall i | 0 <= i < |s|
      ensures 0.0 <= s[i].start <= s[i].end <= plan.duration
      ensures s[i].end - s[i].start <= plan.target as real + Max(0.0, plan.window as real) + 2.0 * plan.overlap as real
    {
      WidenStaysInside(plan, cuts, i);
    }
    forall i | 0 <= i < |s| - 1 ensures s[i].start <= s[i + 1].start <= s[i].end <= s[i + 1].end {
      WidenedInOrder(plan, cuts, i);
    }
    hide WellCut;
    assert s[0] == Widen(plan, cuts, 0);
    assert s[|s| - 1] == Widen(plan, cuts, |s| - 1);
    WidenStaysInside(plan, cuts, |s| - 1);
  }

  /** Between the start of the later neighbour and the end of the earlier lies exactly what is within the overlap of their cut. */
  lemma SeamIsTheOverlap(plan: Plan, i: nat, t: real)
    requires plan.target > 0 && plan.overlap >= 0 && plan.duration > 0.0
    requires i + 1 < |AllSegments(plan)| && 0.0 <= t <= plan.duration
    ensures |Cuts(plan, 0.0)| == |AllSegments(plan)| + 1
    ensures AllSegments(plan)[i + 1].start <= t <= AllSegments(plan)[i].end
            <==> Distance(t, Cuts(plan, 0.0)[i + 1]) <= plan.overlap as real
  {
    hide Cuts;
    CutsAreProper(plan, 0.0);
  }

  /** There are at most duration / min(45, target) + 1 segments. */
  lemma SegmentsAreFew(plan: Plan)
    requires plan.target > 0 && plan.duration > 0.0
    ensures (|AllSegments(plan)| - 1) as real * plan.Step() <= plan.duration
  {
    hide Cuts, Plan.Step;
    CutsAreFew(plan, 0.0);
    assert |AllSegments(plan)| == |Cuts(plan, 0.0)| - 1;
  }

  /** Every moment of the recording lies in some segment. */
  lemma {:induction false} NothingIsSkipped(plan: Plan, t: real)
    requires plan.target > 0 && plan.overlap >= 0 && 0.0 <= t <= plan.duration && plan.duration > 0.0
    ensures exists i :: 0 <= i < |AllSegments(plan)| && AllSegments(plan)[i].start <= t <= AllSegments(plan)[i].end
  {
    hide AllSegments;
    SegmentsCoverTheRecording(plan);
    var s := AllSegments(plan);
    var i := 0;
    while s[i].end < t
      invariant 0 <= i < |s| && s[i].start <= t
      decreases |s| - i
    {
      i := i + 1;
    }
  }

  /**
   The last core is empty if and only if the cut before it snapped to the very
   end: a silence point there is the nearest one to that cut's target and leaves
   a core of at least 45 seconds. Without a silence point at the end it never is.
   */
  lemma EmptyTailIffCutSnapsToTheEnd(plan: Plan)
    requires plan.target > 0 && plan.duration > 0.0
    ensures |Cuts(plan, 0.0)| >= 2
    ensures var cuts := Cuts(plan, 0.0);
            var n := |cuts|;
            cuts[n - 2] == plan.duration
            <==> n >= 3 && IsNearest(plan, plan.silence, cuts[n - 3] + plan.target as real, plan.duration)
                 && plan.duration - cuts[n - 3] >= MIN_CORE
    ensures plan.duration !in plan.silence ==> Cuts(plan, 0.0)[|Cuts(plan, 0.0)| - 2] < plan.duration
  {
    hide NextCut, Cuts, IsNearest, Plan.Step;
    CutsAreProper(plan, 0.0);
    var cuts := Cuts(plan, 0.0);
    var n := |cuts|;
    if n >= 3 {
      var last, cut := cuts[n - 3], cuts[n - 3 + 1];
      assert ProperCut(plan, last, cut);
      var cursor := last + plan.target as real;
      if IsNearest(plan, plan.silence, cursor, plan.duration) {
        NearestIsInWindow(plan, plan.silence, cursor, plan.duration);
        if IsNearest(plan, plan.silence, cursor, cut) {
          NearestIsUnique(plan, plan.silence, cursor, cut, plan.duration);
        }
      }
    }
  }

  /** One silence point at the very end: here the first cut snaps to it. */
  lemma EmptyTailExample()
    ensures Cuts(Plan(100.0, 60, 60, 5, [100.0]), 0.0) == [0.0, 100.0, 100.0]
  {
    var plan := Plan(100.0, 60, 60, 5, [100.0]);
    assert Nearest(plan, [], 60.0) == None;
    assert plan.silence[..0] == [];
    assert Nearest(plan, plan.silence, 60.0) == Some(100.0);
    assert NextCut(plan, 0.0) == 100.0;
  }

  /** Here it does not: no cut comes near the end, and the last core is full. */
  lemma FullTailExample()
    ensures Cuts(Plan(1000.0, 600, 60, 5, [1000.0]), 0.0) == [0.0, 600.0, 1000.0]
  {
    var plan := Plan(1000.0, 600, 60, 5, [1000.0]);
    assert Nearest(plan, [], 600.0) == None;
    assert plan.silence[..0] == [];
    assert Nearest(plan, plan.silence, 600.0) == None;
    assert NextCut(plan, 0.0) == 600.0;
  }
}
