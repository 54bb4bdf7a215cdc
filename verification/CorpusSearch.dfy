/**
 Searching the transcript corpus: an over-fetched, threshold-cut, offset-skipped
 page of the ranking. The laws say that the page is exactly a slice of the whole
 qualifying ranking, whatever the fetch cap and the early exits do.
 */
module CorpusSearch {
  import opened Wrappers

  const OVERFETCH := 8
  const MAX_FETCH := 500

  /** The speakers column: a list, or text that may be a JSON list, or nothing. */
  datatype Speakers = Listed(names: seq<string>) | Json(parsed: Option<seq<string>>) | Absent

  datatype Row = Row(id: int, recording: int, task: Option<int>, createdAt: int, text: string, startSec: real,
                     endSec: real, speakers: Speakers, score: real)

  datatype Hit = Hit(id: int, recording: int, task: Option<int>, text: string, startSec: real, endSec: real,
                     speakers: seq<string>, score: real)

  /** The filters shared by the search and the count. */
  datatype Scope = Scope(recording: Option<int>, tasks: Option<seq<int>>, createdFrom: Option<int>, createdTo: Option<int>)

  datatype SearchError = OffsetUnreachable

  predicate InScope(scope: Scope, row: Row) {
    && (scope.recording.Some? ==> row.recording == scope.recording.value)
    && (scope.tasks.Some? ==> row.task.Some? && row.task.value in scope.tasks.value)
    && (scope.createdFrom.Some? ==> scope.createdFrom.value <= row.createdAt)
    && (scope.createdTo.Some? ==> row.createdAt <= scope.createdTo.value)
  }

  /** The rows in scope, in the order they are stored. */
  function Scoped(corpus: seq<Row>, scope: Scope): seq<Row> {
    if corpus == [] then []
    else
      var rest := Scoped(corpus[1..], scope);
      if InScope(scope, corpus[0]) then [corpus[0]] + rest else rest
  }

  /** `ranked` is the scoped corpus ordered by score, best first; the order of equal scores is the database's. */
  ghost predicate Ranks(ranked: seq<Row>, corpus: seq<Row>, scope: Scope) {
    && multiset(ranked) == multiset(Scoped(corpus, scope))
    && forall i, j :: 0 <= i <= j < |ranked| ==> ranked[i].score >= ranked[j].score
  }

  function Names(speakers: Speakers): seq<string> {
    match speakers
    case Listed(names) => names
    case Json(Some(names)) => names
    case _ => []
  }

  function AsHit(row: Row): Hit {
    Hit(row.id, row.recording, row.task, row.text, row.startSec, row.endSec, Names(row.speakers), row.score)
  }

  // ---------- the specification: a slice of the qualifying ranking ----------

  /** The rows at or above the threshold, in ranking order. */
  function Qualifying(ranked: seq<Row>, threshold: real): seq<Row> {
    if ranked == [] then []
    else
      var rest := Qualifying(ranked[1..], threshold);
      if ranked[0].score >= threshold then [ranked[0]] + rest else rest
  }

  function Min(a: int, b: int): int { if b < a then b else a }

  function Max(a: int, b: int): int { if b > a then b else a }

  function Slice(rows: seq<Row>, from: nat, count: nat): seq<Row> {
    var start := Min(from, |rows|);
    rows[start..Min(start + count, |rows|)]
  }

  function Hits(rows: seq<Row>): seq<Hit> {
    seq(|rows|, i requires 0 <= i < |rows| => AsHit(rows[i]))
  }

  function ClampLimit(limit: int): (l: int)
    ensures 1 <= l <= 100
  {
    Max(1, Min(limit, 100))
  }

  predicate Reachable(offset: int, limit: int) {
    offset == 0 || offset + limit <= MAX_FETCH
  }

  function SearchSpec(hasEmbedding: bool, ranked: seq<Row>, threshold: real, limit: int,
                      offset: int): Result<seq<Hit>, SearchError> {
    if !hasEmbedding then Success([])
    else if !Reachable(Max(0, offset), ClampLimit(limit)) then Failure(OffsetUnreachable)
    else Success(Hits(Slice(Qualifying(ranked, threshold), Max(0, offset), ClampLimit(limit))))
  }

  // ---------- the search itself ----------

  /** The number of leading rows at or above the threshold. */
  function Cutoff(ranked: seq<Row>, threshold: real): (n: nat)
    ensures n <= |ranked|
    ensures forall i :: 0 <= i < n ==> ranked[i].score >= threshold
    ensures n < |ranked| ==> ranked[n].score < threshold
  {
    if ranked == [] || ranked[0].score < threshold then 0 else 1 + Cutoff(ranked[1..], threshold)
  }

  /** In a ranking, the qualifying rows are a prefix. */
  lemma {:induction false} QualifyingIsPrefix(ranked: seq<Row>, threshold: real)
    requires forall i, j :: 0 <= i <= j < |ranked| ==> ranked[i].score >= ranked[j].score
    ensures Qualifying(ranked, threshold) == ranked[..Cutoff(ranked, threshold)]
  {
    if ranked != [] {
      QualifyingIsPrefix(ranked[1..], threshold);
      if ranked[0].score < threshold {
        assert Cutoff(ranked[1..], threshold) == 0 by {
          assert ranked[1..] == [] || ranked[1..][0].score < threshold;
        }
      } else {
        var n := Cutoff(ranked[1..], threshold);
        assert ranked[..1 + n] == [ranked[0]] + ranked[1..][..n];
      }
    }
  }

  /** The candidate rows suffice for the page: enough are fetched to fill it after skipping. */
  lemma FetchCoversThePage(limit: int, offset: int)
    requires 1 <= limit <= 100 && offset >= 0 && Reachable(offset, limit)
    ensures offset + limit <= Min(MAX_FETCH, Max((limit + offset) * OVERFETCH, 50)) <= MAX_FETCH
  {
  }

  method SearchChunks(hasEmbedding: bool, ranked: seq<Row>, threshold: real, limit: int, offset: int)
    returns (answer: Result<seq<Hit>, SearchError>)
    requires forall i, j :: 0 <= i <= j < |ranked| ==> ranked[i].score >= ranked[j].score
    ensures answer == SearchSpec(hasEmbedding, ranked, threshold, limit, offset)
  {
    if !hasEmbedding {
      return Success([]);
    }
    var limit, offset := ClampLimit(limit), Max(0, offset);
    if offset != 0 && offset + limit > MAX_FETCH {
      return Failure(OffsetUnreachable);
    }
    var fetch := Min(MAX_FETCH, Max((limit + offset) * OVERFETCH, 50));
    FetchCoversThePage(limit, offset);
    QualifyingIsPrefix(ranked, threshold);
    ghost var n := Cutoff(ranked, threshold);
    hide Qualifying, Cutoff, AsHit, Slice, Hits;
    var rows := ranked[..Min(fetch, |ranked|)];
    CutoffOfPrefix(ranked, threshold, |rows|);
    var hits := CollectHits(rows, threshold, limit, offset);
    PageOfFetched(ranked, rows, n, offset, limit, hits);
    answer := Success(hits);
  }

  /** The loop over the fetched rows: stop below the threshold, skip the offset, stop when the page is full. */
  method CollectHits(rows: seq<Row>, threshold: real, limit: nat, offset: nat) returns (hits: seq<Hit>)
    requires limit > 0
    ensures |hits| == Max(0, Min(limit, Cutoff(rows, threshold) - offset))
    ensures forall k :: 0 <= k < |hits| ==> offset + k < |rows| && hits[k] == AsHit(rows[offset + k])
  {
    hide AsHit, Cutoff;
    ghost var n := Cutoff(rows, threshold);
    hits := [];
    var skipped := 0;
    var i := 0;
    while i < |rows|
      invariant 0 <= i <= |rows| && i <= n && skipped == Min(i, offset)
      invariant |hits| == i - skipped < limit
      invariant forall k :: 0 <= k < |hits| ==> hits[k] == AsHit(rows[offset + k])
      decreases |rows| - i
    {
      if rows[i].score < threshold {
        break;
      }
      if skipped < offset {
        skipped := skipped + 1;
      } else {
        hits := hits + [AsHit(rows[i])];
        if |hits| >= limit {
          i := i + 1;
          break;
        }
      }
      i := i + 1;
    }
  }

  /** What was fetched suffices: the page cut from the fetched rows is the page of the whole ranking. */
  lemma PageOfFetched(ranked: seq<Row>, rows: seq<Row>, n: nat, offset: nat, limit: nat, hits: seq<Hit>)
    requires n <= |ranked| && rows <= ranked && (rows == ranked || offset + limit <= |rows|)
    requires |hits| == Max(0, Min(limit, Min(n, |rows|) - offset))
    requires forall k :: 0 <= k < |hits| ==> offset + k < |rows| && hits[k] == AsHit(rows[offset + k])
    ensures hits == Hits(Slice(ranked[..n], offset, limit))
  {
    hide AsHit, Slice, Hits;
    PageOfHits(ranked, n, offset, limit, hits);
  }

  lemma {:induction false} CutoffOfPrefix(ranked: seq<Row>, threshold: real, m: nat)
    requires m <= |ranked|
    ensures Cutoff(ranked[..m], threshold) == Min(m, Cutoff(ranked, threshold))
  {
    if m > 0 && ranked[0].score >= threshold {
      CutoffOfPrefix(ranked[1..], threshold, m - 1);
      assert ranked[..m][1..] == ranked[1..][..m - 1];
    }
  }

  lemma PageOfHits(ranked: seq<Row>, n: nat, offset: nat, limit: nat, hits: seq<Hit>)
    requires n <= |ranked| && |hits| == Max(0, Min(limit, n - offset))
    requires forall k :: 0 <= k < |hits| ==> hits[k] == AsHit(ranked[offset + k])
    ensures hits == Hits(Slice(ranked[..n], offset, limit))
  {
    hide AsHit;
    var slice := Slice(ranked[..n], offset, limit);
    assert |slice| == |hits|;
    forall k | 0 <= k < |hits| ensures Hits(slice)[k] == hits[k] {
      assert slice[k] == ranked[offset + k];
    }
  }

  // ---------- the count, and paging ----------

  /** The count query runs over the stored rows, not over the ranking. */
  function CountMatching(hasEmbedding: bool, corpus: seq<Row>, scope: Scope, threshold: real): nat {
    if hasEmbedding then |Qualifying(Scoped(corpus, scope), threshold)| else 0
  }

  /** How many rows of a bag are at or above the threshold. */
  lemma {:induction false} QualifyingOfBag(rows: seq<Row>, threshold: real)
    ensures forall r :: multiset(Qualifying(rows, threshold))[r] == if r.score >= threshold then multiset(rows)[r] else 0
  {
    if rows != [] {
      QualifyingOfBag(rows[1..], threshold);
      assert rows == [rows[0]] + rows[1..];
    }
  }

  /** The total describes the ranking the hits are taken from. */
  lemma CountIsSizeOfRanking(ranked: seq<Row>, corpus: seq<Row>, scope: Scope, threshold: real)
    requires Ranks(ranked, corpus, scope)
    ensures CountMatching(true, corpus, scope, threshold) == |Qualifying(ranked, threshold)|
  {
    hide Qualifying, Scoped;
    var a, b := Qualifying(ranked, threshold), Qualifying(Scoped(corpus, scope), threshold);
    QualifyingOfBag(ranked, threshold);
    QualifyingOfBag(Scoped(corpus, scope), threshold);
    assert multiset(a) == multiset(b);
    assert |multiset(a)| == |a| && |multiset(b)| == |b|;
  }

  /** The search answers every reachable offset, and a page holds exactly what the total leaves for it. */
  lemma PageFillsUpToTheTotal(ranked: seq<Row>, corpus: seq<Row>, scope: Scope, threshold: real, limit: int, offset: int)
    requires Ranks(ranked, corpus, scope)
    ensures var l, o := ClampLimit(limit), Max(0, offset);
            var answer := SearchSpec(true, ranked, threshold, limit, offset);
            && (answer.Failure? <==> o > 0 && o + l > MAX_FETCH)
            && (answer.Success? ==> |answer.value| == Max(0, Min(l, CountMatching(true, corpus, scope, threshold) - o)))
            && (answer.Success? ==> |answer.value| <= CountMatching(true, corpus, scope, threshold))
            && (answer.Success? ==> forall h :: h in answer.value ==> h.score >= threshold)
  {
    hide Qualifying, Scoped;
    CountIsSizeOfRanking(ranked, corpus, scope, threshold);
    QualifyingAreGood(ranked, threshold);
  }

  lemma {:induction false} QualifyingAreGood(rows: seq<Row>, threshold: real)
    ensures forall r :: r in Qualifying(rows, threshold) ==> r.score >= threshold
  {
    if rows != [] {
      QualifyingAreGood(rows[1..], threshold);
    }
  }

  // ---------- the answer, read off the corpus ----------

  /** The passage is in the scope of the search and close enough. */
  ghost predicate Wanted(row: Row, scope: Scope, threshold: real) {
    && (scope.recording == None || scope.recording == Some(row.recording))
    && (scope.tasks == None || (row.task.Some? && row.task.value in scope.tasks.value))
    && (scope.createdFrom == None || row.createdAt >= scope.createdFrom.value)
    && (scope.createdTo == None || row.createdAt <= scope.createdTo.value)
    && row.score >= threshold
  }

  ghost function CountWanted(corpus: seq<Row>, scope: Scope, threshold: real): nat {
    if corpus == [] then 0
    else CountWanted(corpus[1..], scope, threshold) + (if Wanted(corpus[0], scope, threshold) then 1 else 0)
  }

  /** The hit shows this passage, with its speakers if the column holds a list of them in either form. */
  ghost predicate Shows(hit: Hit, row: Row) {
    && hit.id == row.id && hit.recording == row.recording && hit.task == row.task && hit.text == row.text
    && hit.startSec == row.startSec && hit.endSec == row.endSec && hit.score == row.score
    && (forall names :: row.speakers in {Listed(names), Json(Some(names))} ==> hit.speakers == names)
    && (row.speakers in {Absent, Json(None)} ==> hit.speakers == [])
  }

  lemma WantedIs(row: Row, scope: Scope, threshold: real)
    ensures Wanted(row, scope, threshold) <==> InScope(scope, row) && row.score >= threshold
  {
  }

  lemma {:induction false} CountIsWanted(corpus: seq<Row>, scope: Scope, threshold: real)
    ensures |Qualifying(Scoped(corpus, scope), threshold)| == CountWanted(corpus, scope, threshold)
  {
    hide InScope, Wanted;
    if corpus != [] {
      CountIsWanted(corpus[1..], scope, threshold);
      WantedIs(corpus[0], scope, threshold);
      var rest := Scoped(corpus[1..], scope);
      assert ([corpus[0]] + rest)[1..] == rest;
    }
  }

  lemma {:induction false} ScopedAre(corpus: seq<Row>, scope: Scope, row: Row)
    ensures multiset(Scoped(corpus, scope))[row] == if InScope(scope, row) then multiset(corpus)[row] else 0
  {
    hide InScope;
    if corpus != [] {
      ScopedAre(corpus[1..], scope, row);
      assert corpus == [corpus[0]] + corpus[1..];
    }
  }

  /** The passages that qualify are the wanted ones of the corpus, each as often as it is stored, best first. */
  lemma QualifyingAreWanted(ranked: seq<Row>, corpus: seq<Row>, scope: Scope, threshold: real, row: Row)
    requires Ranks(ranked, corpus, scope)
    ensures multiset(Qualifying(ranked, threshold))[row] == if Wanted(row, scope, threshold) then multiset(corpus)[row] else 0
    ensures |Qualifying(ranked, threshold)| == CountWanted(corpus, scope, threshold)
    ensures Qualifying(ranked, threshold) <= ranked
  {
    hide InScope, Wanted, Qualifying, Scoped;
    QualifyingOfBag(ranked, threshold);
    ScopedAre(corpus, scope, row);
    WantedIs(row, scope, threshold);
    CountIsSizeOfRanking(ranked, corpus, scope, threshold);
    CountIsWanted(corpus, scope, threshold);
    QualifyingIsPrefix(ranked, threshold);
  }

  /**
   What a search answers: a refusal exactly when the page asked for reaches past
   the fetch cap from an offset; otherwise the passages of the ranking from the
   offset on, as many as the page holds and the wanted passages of the corpus
   leave for it, each shown with its own fields.
   */
  lemma SearchAnswers(ranked: seq<Row>, corpus: seq<Row>, scope: Scope, threshold: real, limit: int, offset: int)
    requires Ranks(ranked, corpus, scope)
    ensures SearchSpec(false, ranked, threshold, limit, offset) == Success([])
    ensures var answer := SearchSpec(true, ranked, threshold, limit, offset);
            var size := if limit < 1 then 1 else if limit > 100 then 100 else limit;
            var skip := if offset < 0 then 0 else offset;
            var left := CountWanted(corpus, scope, threshold) - skip;
            && (answer == Failure(OffsetUnreachable) <==> skip > 0 && skip + size > 500)
            && (answer.Failure? ==> answer.error == OffsetUnreachable)
            && (answer.Success? ==>
                  && |answer.value| == (if left <= 0 then 0 else if left < size then left else size)
                  && forall k :: 0 <= k < |answer.value| ==>
                       && skip + k < |ranked| && Shows(answer.value[k], ranked[skip + k])
                       && Wanted(ranked[skip + k], scope, threshold))
  {
    var found := Qualifying(ranked, threshold);
    FoundAreWanted(ranked, corpus, scope, threshold);
    hide Wanted, Qualifying, Scoped, Shows, AsHit, Slice, Hits, Ranks;
    SliceShows(found, Max(0, offset), ClampLimit(limit));
  }

  lemma FoundAreWanted(ranked: seq<Row>, corpus: seq<Row>, scope: Scope, threshold: real)
    requires Ranks(ranked, corpus, scope)
    ensures var found := Qualifying(ranked, threshold);
            && |found| == CountWanted(corpus, scope, threshold) && found <= ranked
            && forall k :: 0 <= k < |found| ==> Wanted(found[k], scope, threshold) && found[k] == ranked[k]
  {
    hide Wanted, Qualifying, Scoped, Ranks;
    var found := Qualifying(ranked, threshold);
    QualifyingAreWanted(ranked, corpus, scope, threshold, Row(0, 0, None, 0, "", 0.0, 0.0, Absent, 0.0));
    forall k | 0 <= k < |found| ensures Wanted(found[k], scope, threshold) && found[k] == ranked[k] {
      QualifyingAreWanted(ranked, corpus, scope, threshold, found[k]);
      assert multiset(found)[found[k]] > 0;
    }
  }

  lemma SliceShows(found: seq<Row>, skip: nat, size: nat)
    ensures var hits, left := Hits(Slice(found, skip, size)), |found| - skip;
            && |hits| == (if left <= 0 then 0 else if left < size then left else size)
            && forall k :: 0 <= k < |hits| ==> Shows(hits[k], found[skip + k])
  {
    hide Shows, AsHit;
    forall row ensures Shows(AsHit(row), row) { HitShows(row); }
  }

  lemma HitShows(row: Row)
    ensures Shows(AsHit(row), row)
  {
  }
}
