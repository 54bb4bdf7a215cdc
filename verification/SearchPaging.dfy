/**
 Paging through the corpus search. Every page ranks the corpus anew, and the
 database may order equal scores differently each time; the laws say exactly
 when successive pages still partition the qualifying passages.
 */
module SearchPaging {
  import opened Wrappers
  import opened CorpusSearch

  // ---------- one ranking per page ----------

  /** Chunk ids are a primary key. */
  ghost predicate Keyed(rows: multiset<Row>) {
    && (forall r :: r in rows ==> rows[r] == 1)
    && (forall r, s :: r in rows && s in rows && r.id == s.id ==> r == s)
  }

  /** Each page runs its own query; the database is free to order equal scores differently each time. */
  ghost predicate AllRank(rankings: seq<seq<Row>>, corpus: seq<Row>, scope: Scope) {
    forall i :: 0 <= i < |rankings| ==> Ranks(rankings[i], corpus, scope)
  }

  /** The hits of one page. */
  function PageHits(ranked: seq<Row>, threshold: real, limit: int, page: nat): seq<Hit>
    requires 1 <= limit <= 100 && (page + 1) * limit <= MAX_FETCH
  {
    PageOffset(limit, page + 1);
    SearchSpec(true, ranked, threshold, limit, page * limit).value
  }

  /** The hits of the first `k` pages of size `limit`, one after the other, each from its own ranking. */
  function Pages(rankings: seq<seq<Row>>, threshold: real, limit: int, k: nat): seq<Hit>
    requires 1 <= limit <= 100 && k * limit <= MAX_FETCH && k <= |rankings|
  {
    if k == 0 then []
    else
      PageOffset(limit, k);
      Pages(rankings, threshold, limit, k - 1) + PageHits(rankings[k - 1], threshold, limit, k - 1)
  }

  lemma PageOffset(limit: int, k: nat)
    requires 1 <= limit <= 100 && 0 < k && k * limit <= MAX_FETCH
    ensures 0 <= (k - 1) * limit <= MAX_FETCH - limit && (k - 1) * limit + limit == k * limit
  {
  }

  lemma PagesBelow(limit: int, i: nat, k: nat)
    requires 1 <= limit && i <= k
    ensures i * limit <= k * limit
  {
  }

  // ---------- rankings of one corpus ----------

  ghost predicate Descending(rows: seq<Row>) {
    forall i, j :: 0 <= i <= j < |rows| ==> rows[i].score >= rows[j].score
  }

  /** The qualifying rows as the page query sees them, and as they are stored. */
  lemma QualifyingFacts(ranked: seq<Row>, corpus: seq<Row>, scope: Scope, threshold: real)
    requires Ranks(ranked, corpus, scope)
    ensures multiset(Qualifying(ranked, threshold)) == multiset(Qualifying(Scoped(corpus, scope), threshold))
    ensures Descending(Qualifying(ranked, threshold))
  {
    hide Qualifying, Scoped;
    QualifyingOfBag(ranked, threshold);
    QualifyingOfBag(Scoped(corpus, scope), threshold);
    QualifyingIsPrefix(ranked, threshold);
  }

  lemma ScopedOfBag(corpus: seq<Row>, scope: Scope, r: Row)
    ensures multiset(Scoped(corpus, scope))[r] <= multiset(corpus)[r]
  {
    hide InScope;
    if corpus != [] {
      ScopedOfBag(corpus[1..], scope, r);
      assert corpus == [corpus[0]] + corpus[1..];
    }
  }

  /** The qualifying rows of a keyed corpus are keyed. */
  lemma QualifyingKeyed(corpus: seq<Row>, scope: Scope, threshold: real)
    requires Keyed(multiset(corpus))
    ensures Keyed(multiset(Qualifying(Scoped(corpus, scope), threshold)))
  {
    hide Qualifying, Scoped;
    var m := multiset(Qualifying(Scoped(corpus, scope), threshold));
    forall r ensures m[r] <= multiset(corpus)[r] {
      QualifyingOfBag(Scoped(corpus, scope), threshold);
      ScopedOfBag(corpus, scope, r);
    }
  }

  /** Two positions of a keyed list hold rows of different ids. */
  lemma KeyedPositions(rows: seq<Row>, i: nat, j: nat)
    requires Keyed(multiset(rows)) && i < j < |rows|
    ensures rows[i].id != rows[j].id
  {
    var front, back := rows[..j], rows[j..];
    assert rows == front + back && front[i] == rows[i] && back[0] == rows[j];
    assert multiset(rows) == multiset(front) + multiset(back);
    assert rows[i] in multiset(front) && rows[j] in multiset(back);
  }

  /** A list without the element at `p`. */
  function Without(rows: seq<Row>, p: nat): seq<Row>
    requires p < |rows|
  {
    rows[..p] + rows[p + 1..]
  }

  lemma WithoutBag(rows: seq<Row>, p: nat)
    requires p < |rows|
    ensures multiset(Without(rows, p)) == multiset(rows) - multiset{rows[p]}
  {
    assert rows == rows[..p] + ([rows[p]] + rows[p + 1..]);
    assert multiset(rows) == multiset{rows[p]} + multiset(Without(rows, p));
  }

  /** Taking out an element that shares the top score shifts no score. */
  lemma WithoutScores(rows: seq<Row>, p: nat, j: nat)
    requires Descending(rows) && p < |rows| && rows[0].score == rows[p].score && 0 < j < |rows|
    ensures Without(rows, p)[j - 1].score == rows[j].score
  {
    assert j <= p ==> rows[0].score >= rows[j - 1].score >= rows[j].score >= rows[p].score;
  }

  /** Two descending lists of the same rows have the same score at every position. */
  lemma {:induction false} ScoresAgree(a: seq<Row>, b: seq<Row>)
    requires multiset(a) == multiset(b) && Descending(a) && Descending(b)
    ensures |a| == |b| && forall i :: 0 <= i < |a| ==> a[i].score == b[i].score
    decreases |a|
  {
    assert |multiset(a)| == |a| && |multiset(b)| == |b|;
    if a != [] {
      var p := SameTop(a, b);
      hide Descending, Without;
      WithoutBag(a, 0);
      WithoutBag(b, p);
      DescendingWithout(a, 0);
      DescendingWithout(b, p);
      ScoresAgree(Without(a, 0), Without(b, p));
      forall j | 0 < j < |a| ensures a[j].score == b[j].score {
        WithoutScores(a, 0, j);
        WithoutScores(b, p, j);
      }
    }
  }

  lemma SameTop(a: seq<Row>, b: seq<Row>) returns (p: nat)
    requires multiset(a) == multiset(b) && Descending(a) && Descending(b) && a != [] && b != []
    ensures p < |b| && b[p] == a[0] && b[0].score == a[0].score
  {
    assert a[0] in multiset(b) && b[0] in multiset(a);
    p :| 0 <= p < |b| && b[p] == a[0];
    var q :| 0 <= q < |a| && a[q] == b[0];
  }

  lemma DescendingWithout(rows: seq<Row>, p: nat)
    requires Descending(rows) && p < |rows|
    ensures Descending(Without(rows, p)) && |Without(rows, p)| == |rows| - 1
  {
  }

  // ---------- what a page holds ----------

  /** Position `m` falls on page `i`. */
  predicate OnPage(limit: int, i: nat, m: nat) {
    i * limit <= m < (i + 1) * limit
  }

  lemma {:induction false} PagesLength(rankings: seq<seq<Row>>, corpus: seq<Row>, scope: Scope, threshold: real,
                                       limit: int, k: nat)
    requires AllRank(rankings, corpus, scope) && 1 <= limit <= 100 && k * limit <= MAX_FETCH && k <= |rankings|
    ensures |Pages(rankings, threshold, limit, k)| == Min(k * limit, CountMatching(true, corpus, scope, threshold))
    decreases k
  {
    hide CountMatching, PageHits, Ranks;
    if k > 0 {
      PageOffset(limit, k);
      PagesLength(rankings, corpus, scope, threshold, limit, k - 1);
      CountIsSizeOfRanking(rankings[k - 1], corpus, scope, threshold);
      PageAt(rankings[k - 1], threshold, limit, k - 1);
    }
  }

  /** Position `m` of the pages is position `m` of the ranking its page was cut from. */
  lemma {:induction false} PagesAt(rankings: seq<seq<Row>>, corpus: seq<Row>, scope: Scope, threshold: real, limit: int, k: nat,
                                   i: nat, m: nat)
    requires AllRank(rankings, corpus, scope) && 1 <= limit <= 100 && k * limit <= MAX_FETCH && k <= |rankings|
    requires i < k && OnPage(limit, i, m) && m < CountMatching(true, corpus, scope, threshold)
    ensures m < |Pages(rankings, threshold, limit, k)| && m < |Qualifying(rankings[i], threshold)|
    ensures Pages(rankings, threshold, limit, k)[m] == AsHit(Qualifying(rankings[i], threshold)[m])
    decreases k
  {
    hide CountMatching, PageHits, Ranks, Qualifying, AsHit;
    PagesLength(rankings, corpus, scope, threshold, limit, k);
    PagesLength(rankings, corpus, scope, threshold, limit, k - 1);
    CountIsSizeOfRanking(rankings[i], corpus, scope, threshold);
    PageOffset(limit, k);
    PagesBelow(limit, i + 1, k);
    if i < k - 1 {
      PagesBelow(limit, i + 1, k - 1);
      PagesAt(rankings, corpus, scope, threshold, limit, k - 1, i, m);
    } else {
      PageAt(rankings[i], threshold, limit, i);
    }
  }

  lemma PageAt(ranked: seq<Row>, threshold: real, limit: int, page: nat)
    requires 1 <= limit <= 100 && (page + 1) * limit <= MAX_FETCH
    ensures var rows, start := Qualifying(ranked, threshold), page * limit;
            var hits := PageHits(ranked, threshold, limit, page);
            && start >= 0 && |hits| == Max(0, Min(limit, |rows| - start))
            && forall j :: 0 <= j < |hits| ==> hits[j] == AsHit(rows[start + j])
  {
    hide Qualifying, AsHit;
    PageOffset(limit, page + 1);
  }

  // ---------- when successive pages partition the ranking ----------

  /** Every qualifying passage is handed out, none twice. */
  ghost predicate EachOnce(hits: seq<Hit>, rows: seq<Row>) {
    && (forall m, l :: 0 <= m < l < |hits| ==> hits[m].id != hits[l].id)
    && (forall r :: r in rows ==> AsHit(r) in hits)
  }

  /** No two rows with the same score stand on different sides of a page boundary. */
  ghost predicate NoTieAcrossPages(rows: seq<Row>, limit: int, k: nat) {
    forall j :: 0 < j < k ==> Parted(rows, j * limit)
  }

  predicate Parted(rows: seq<Row>, b: int) {
    0 < b < |rows| ==> rows[b - 1].score > rows[b].score
  }

  /** Qualifying rows have pairwise different scores. */
  ghost predicate Untied(rows: seq<Row>) {
    forall i, j :: 0 <= i < j < |rows| ==> rows[i].score != rows[j].score
  }

  lemma PageOf(limit: int, m: nat) returns (i: nat)
    requires limit >= 1
    ensures OnPage(limit, i, m)
  {
    i := m / limit;
    assert m == limit * (m / limit) + m % limit;
  }

  /** The page of a later position is no earlier, and a different one starts past a boundary. */
  lemma PagesInOrder(limit: int, i: nat, m: nat, j: nat, l: nat)
    requires limit >= 1 && OnPage(limit, i, m) && OnPage(limit, j, l) && m < l
    ensures i <= j && (i < j ==> m < j * limit <= l)
  {
    if i < j {
      PagesBelow(limit, i + 1, j);
    }
    LaterStartsLater(limit, i, j);
  }

  lemma LaterStartsLater(limit: int, i: nat, j: nat)
    requires limit >= 1
    ensures j < i ==> (j + 1) * limit <= i * limit
  {
  }

  lemma PageWithin(limit: int, i: nat, m: nat, k: nat)
    requires limit >= 1 && OnPage(limit, i, m) && m < k * limit
    ensures i < k
  {
    if k <= i {
      PagesBelow(limit, k, i);
    }
  }

  /** One ranking of the page against the one given: same length, same scores position by position. */
  lemma SameScores(a: seq<Row>, b: seq<Row>, corpus: seq<Row>, scope: Scope, threshold: real)
    requires Ranks(a, corpus, scope) && Ranks(b, corpus, scope)
    ensures var p, q := Qualifying(a, threshold), Qualifying(b, threshold);
            && |p| == |q| == CountMatching(true, corpus, scope, threshold) && multiset(p) == multiset(q)
            && Descending(p) && Descending(q) && forall m :: 0 <= m < |p| ==> p[m].score == q[m].score
  {
    hide Qualifying, Scoped, Ranks, Descending;
    QualifyingFacts(a, corpus, scope, threshold);
    QualifyingFacts(b, corpus, scope, threshold);
    CountIsSizeOfRanking(a, corpus, scope, threshold);
    ScoresAgree(Qualifying(a, threshold), Qualifying(b, threshold));
  }

  /** Rows on two sides of a parted boundary, each in its own ranking, are different rows. */
  lemma PartedRowsDiffer(p: seq<Row>, q: seq<Row>, rows: seq<Row>, b: int, m: nat, l: nat)
    requires Keyed(multiset(rows)) && multiset(p) == multiset(rows) == multiset(q)
    requires |p| == |rows| == |q| && Descending(rows)
    requires forall x :: 0 <= x < |rows| ==> p[x].score == rows[x].score && q[x].score == rows[x].score
    requires m < b <= l < |rows| && Parted(rows, b)
    ensures p[m].id != q[l].id
  {
    assert rows[m].score >= rows[b - 1].score > rows[b].score >= rows[l].score;
    assert p[m] in multiset(rows) && q[l] in multiset(rows);
  }

  /** With no tie across a page boundary, successive pages hand out no passage twice. */
  lemma PartedPagesRepeatNothing(rankings: seq<seq<Row>>, ranked: seq<Row>, corpus: seq<Row>, scope: Scope, threshold: real,
                                 limit: int, k: nat, m: nat, l: nat)
    requires AllRank(rankings, corpus, scope) && Ranks(ranked, corpus, scope) && Keyed(multiset(corpus))
    requires 1 <= limit <= 100 && k * limit <= MAX_FETCH && k <= |rankings|
    requires NoTieAcrossPages(Qualifying(ranked, threshold), limit, k)
    requires m < l < |Pages(rankings, threshold, limit, k)|
    ensures Pages(rankings, threshold, limit, k)[m].id != Pages(rankings, threshold, limit, k)[l].id
  {
    hide Pages, Qualifying, Scoped, Ranks, Keyed, Descending, CountMatching, Parted, OnPage;
    PagesLength(rankings, corpus, scope, threshold, limit, k);
    var i := PageOf(limit, m);
    var j := PageOf(limit, l);
    PageWithin(limit, i, m, k);
    PageWithin(limit, j, l, k);
    PagesInOrder(limit, i, m, j, l);
    PagesAt(rankings, corpus, scope, threshold, limit, k, i, m);
    PagesAt(rankings, corpus, scope, threshold, limit, k, j, l);
    SameScores(rankings[i], ranked, corpus, scope, threshold);
    SameScores(rankings[j], ranked, corpus, scope, threshold);
    QualifyingKeyed(corpus, scope, threshold);
    QualifyingFacts(ranked, corpus, scope, threshold);
    var p, q, rows := Qualifying(rankings[i], threshold), Qualifying(rankings[j], threshold), Qualifying(ranked, threshold);
    if i == j {
      KeyedPositions(p, m, l);
    } else {
      PartedRowsDiffer(p, q, rows, j * limit, m, l);
    }
  }

  lemma PartedScores(rows: seq<Row>, b: int, m: nat, l: nat)
    requires Descending(rows) && Parted(rows, b) && m < b <= l < |rows|
    ensures rows[m].score > rows[l].score
  {
  }

  /** A row stands on the same page in every ranking that is parted at the boundaries. */
  lemma SamePage(rows: seq<Row>, p: seq<Row>, limit: int, k: nat, i: nat, m: nat, l: nat)
    requires Descending(rows) && |p| == |rows| && (forall x :: 0 <= x < |rows| ==> p[x].score == rows[x].score)
    requires limit >= 1 && NoTieAcrossPages(rows, limit, k) && |rows| <= k * limit
    requires m < |rows| && l < |rows| && p[l] == rows[m] && OnPage(limit, i, m)
    ensures OnPage(limit, i, l)
  {
    hide Descending, OnPage, Parted;
    var j := PageOf(limit, l);
    PageWithin(limit, i, m, k);
    PageWithin(limit, j, l, k);
    if l < m {
      PagesInOrder(limit, j, l, i, m);
      if j < i {
        PartedScores(rows, i * limit, l, m);
      }
    } else if m < l {
      PagesInOrder(limit, i, m, j, l);
      if i < j {
        PartedScores(rows, j * limit, m, l);
      }
    }
  }

  /** With no tie across a page boundary and a total the pages can hold, every qualifying passage is handed out. */
  lemma PartedPagesMissNothing(rankings: seq<seq<Row>>, ranked: seq<Row>, corpus: seq<Row>, scope: Scope, threshold: real,
                               limit: int, k: nat, r: Row)
    requires AllRank(rankings, corpus, scope) && Ranks(ranked, corpus, scope)
    requires 1 <= limit <= 100 && k * limit <= MAX_FETCH && k <= |rankings|
    requires NoTieAcrossPages(Qualifying(ranked, threshold), limit, k)
    requires CountMatching(true, corpus, scope, threshold) <= k * limit && r in Qualifying(Scoped(corpus, scope), threshold)
    ensures AsHit(r) in Pages(rankings, threshold, limit, k)
  {
    hide Pages, Qualifying, Scoped, Ranks, Descending, CountMatching, Parted, OnPage, NoTieAcrossPages;
    QualifyingFacts(ranked, corpus, scope, threshold);
    CountIsSizeOfRanking(ranked, corpus, scope, threshold);
    var rows := Qualifying(ranked, threshold);
    assert r in multiset(rows) by { assert r in multiset(Qualifying(Scoped(corpus, scope), threshold)); }
    var m :| 0 <= m < |rows| && rows[m] == r;
    var i := PageOf(limit, m);
    PageWithin(limit, i, m, k);
    var p := Qualifying(rankings[i], threshold);
    SameScores(rankings[i], ranked, corpus, scope, threshold);
    assert r in multiset(p);
    var l :| 0 <= l < |p| && p[l] == r;
    SamePage(rows, p, limit, k, i, m, l);
    PagesAt(rankings, corpus, scope, threshold, limit, k, i, l);
  }

  // ---------- the failing rankings ----------

  /** The ranking with the rows on the two sides of position `b` exchanged. */
  function Exchanged(ranked: seq<Row>, b: nat): seq<Row>
    requires 0 < b < |ranked|
  {
    ranked[b - 1 := ranked[b]][b := ranked[b - 1]]
  }

  /** Exchanging two rows of equal score gives another ranking of the same corpus. */
  lemma ExchangedRanks(ranked: seq<Row>, corpus: seq<Row>, scope: Scope, threshold: real, b: nat)
    requires Ranks(ranked, corpus, scope) && 0 < b < |Qualifying(ranked, threshold)|
    requires !Parted(Qualifying(ranked, threshold), b)
    ensures b < |ranked| && Ranks(Exchanged(ranked, b), corpus, scope)
    ensures b < |Qualifying(Exchanged(ranked, b), threshold)|
    ensures Qualifying(Exchanged(ranked, b), threshold)[b] == Qualifying(ranked, threshold)[b - 1]
  {
    hide Qualifying, Scoped, Exchanged;
    QualifyingIsPrefix(ranked, threshold);
    ExchangedBag(ranked, b);
    ExchangedDescends(ranked, b);
    var other := Exchanged(ranked, b);
    QualifyingIsPrefix(other, threshold);
    hide Descending;
    SameScores(other, ranked, corpus, scope, threshold);
  }

  lemma ExchangedDescends(ranked: seq<Row>, b: nat)
    requires Descending(ranked) && 0 < b < |ranked| && ranked[b - 1].score == ranked[b].score
    ensures Descending(Exchanged(ranked, b))
  {
    var other := Exchanged(ranked, b);
    assert forall i :: 0 <= i < |ranked| ==> other[i].score == ranked[i].score;
  }

  lemma ExchangedBag(ranked: seq<Row>, b: nat)
    requires 0 < b < |ranked|
    ensures multiset(Exchanged(ranked, b)) == multiset(ranked) && Exchanged(ranked, b)[b] == ranked[b - 1]
  {
    assert ranked == ranked[..b - 1] + [ranked[b - 1], ranked[b]] + ranked[b + 1..];
    assert Exchanged(ranked, b) == ranked[..b - 1] + [ranked[b], ranked[b - 1]] + ranked[b + 1..];
  }

  /** A tie across an inner page boundary: if the later page is ranked the other way round, a passage comes twice. */
  lemma TieRepeatsAPassage(ranked: seq<Row>, corpus: seq<Row>, scope: Scope, threshold: real, limit: int, k: nat, j: nat)
      returns (rankings: seq<seq<Row>>)
    requires Ranks(ranked, corpus, scope) && 1 <= limit <= 100 && k * limit <= MAX_FETCH
    requires 0 < j < k && !Parted(Qualifying(ranked, threshold), j * limit)
    ensures |rankings| == k && AllRank(rankings, corpus, scope)
    ensures !EachOnce(Pages(rankings, threshold, limit, k), Qualifying(Scoped(corpus, scope), threshold))
  {
    hide Pages, Qualifying, Scoped, Ranks, CountMatching, AsHit;
    var b := j * limit;
    CountIsSizeOfRanking(ranked, corpus, scope, threshold);
    ExchangedRanks(ranked, corpus, scope, threshold, b);
    var other := Exchanged(ranked, b);
    rankings := seq(k, i => if i == j then other else ranked);
    PagesLength(rankings, corpus, scope, threshold, limit, k);
    PagesBelow(limit, j + 1, k);
    assert OnPage(limit, j - 1, b - 1) && OnPage(limit, j, b);
    PagesAt(rankings, corpus, scope, threshold, limit, k, j - 1, b - 1);
    PagesAt(rankings, corpus, scope, threshold, limit, k, j, b);
    var hits := Pages(rankings, threshold, limit, k);
    assert rankings[j - 1] == ranked && rankings[j] == other;
    assert hits[b - 1] == hits[b];
  }

  /** More passages than the pages hold: with one ranking for all pages, the next one in line is missing. */
  lemma TooManyMissOne(ranked: seq<Row>, corpus: seq<Row>, scope: Scope, threshold: real, limit: int, k: nat)
      returns (rankings: seq<seq<Row>>)
    requires Ranks(ranked, corpus, scope) && Keyed(multiset(corpus)) && 1 <= limit <= 100 && k * limit <= MAX_FETCH
    requires CountMatching(true, corpus, scope, threshold) > k * limit
    ensures |rankings| == k && AllRank(rankings, corpus, scope)
    ensures !EachOnce(Pages(rankings, threshold, limit, k), Qualifying(Scoped(corpus, scope), threshold))
  {
    hide Pages, Qualifying, Scoped, Ranks, CountMatching, Keyed, Descending, OnPage;
    rankings := seq(k, _ => ranked);
    PagesLength(rankings, corpus, scope, threshold, limit, k);
    CountIsSizeOfRanking(ranked, corpus, scope, threshold);
    QualifyingKeyed(corpus, scope, threshold);
    QualifyingFacts(ranked, corpus, scope, threshold);
    var rows, hits := Qualifying(ranked, threshold), Pages(rankings, threshold, limit, k);
    var n := k * limit;
    PagesBelow(limit, 0, k);
    assert rows[n] in multiset(rows);
    forall m | 0 <= m < |hits| ensures hits[m].id != rows[n].id {
      var i := PageOf(limit, m);
      PageWithin(limit, i, m, k);
      PagesAt(rankings, corpus, scope, threshold, limit, k, i, m);
      KeyedPositions(rows, m, n);
    }
    assert rows[n] in Qualifying(Scoped(corpus, scope), threshold) by {
      assert rows[n] in multiset(Qualifying(Scoped(corpus, scope), threshold));
    }
    assert AsHit(rows[n]).id == rows[n].id;
    assert AsHit(rows[n]) !in hits;
  }

  /**
   However the database orders equal scores on each page, following the pages
   hands out every qualifying passage exactly once, if and only if no tie lies
   across a page boundary and the total is within the pages.
   */
  lemma PagingIsCompleteIff(ranked: seq<Row>, corpus: seq<Row>, scope: Scope, threshold: real, limit: int, k: nat)
    requires Ranks(ranked, corpus, scope) && Keyed(multiset(corpus)) && 1 <= limit <= 100 && k * limit <= MAX_FETCH
    ensures (forall rankings :: |rankings| == k && AllRank(rankings, corpus, scope) ==>
               EachOnce(Pages(rankings, threshold, limit, k), Qualifying(Scoped(corpus, scope), threshold)))
            <==> NoTieAcrossPages(Qualifying(ranked, threshold), limit, k)
                 && CountMatching(true, corpus, scope, threshold) <= k * limit
  {
    hide Pages, Qualifying, Scoped, Ranks, CountMatching, Keyed, Parted, AllRank;
    var rows := Qualifying(ranked, threshold);
    if CountMatching(true, corpus, scope, threshold) > k * limit {
      var _ := TooManyMissOne(ranked, corpus, scope, threshold, limit, k);
    } else if !NoTieAcrossPages(rows, limit, k) {
      var j :| 0 < j < k && !Parted(rows, j * limit);
      var _ := TieRepeatsAPassage(ranked, corpus, scope, threshold, limit, k, j);
    } else {
      forall rankings | |rankings| == k && AllRank(rankings, corpus, scope)
        ensures EachOnce(Pages(rankings, threshold, limit, k), Qualifying(Scoped(corpus, scope), threshold))
      {
        PartedPagesAreExact(rankings, ranked, corpus, scope, threshold, limit, k);
      }
    }
  }

  lemma PartedPagesAreExact(rankings: seq<seq<Row>>, ranked: seq<Row>, corpus: seq<Row>, scope: Scope,
                            threshold: real, limit: int, k: nat)
    requires AllRank(rankings, corpus, scope) && Ranks(ranked, corpus, scope) && Keyed(multiset(corpus))
    requires 1 <= limit <= 100 && k * limit <= MAX_FETCH && k <= |rankings|
    requires NoTieAcrossPages(Qualifying(ranked, threshold), limit, k)
    requires CountMatching(true, corpus, scope, threshold) <= k * limit
    ensures EachOnce(Pages(rankings, threshold, limit, k), Qualifying(Scoped(corpus, scope), threshold))
  {
    hide Pages, Qualifying, Scoped, Ranks, CountMatching, Keyed, NoTieAcrossPages, AllRank, AsHit;
    var hits := Pages(rankings, threshold, limit, k);
    forall m, l | 0 <= m < l < |hits| ensures hits[m].id != hits[l].id {
      PartedPagesRepeatNothing(rankings, ranked, corpus, scope, threshold, limit, k, m, l);
    }
    forall r | r in Qualifying(Scoped(corpus, scope), threshold) ensures AsHit(r) in hits {
      PartedPagesMissNothing(rankings, ranked, corpus, scope, threshold, limit, k, r);
    }
  }

  /**
   When the qualifying scores are pairwise different, or every page happens to be
   cut from one ranking, the pages are the front of that ranking, in order.
   */
  lemma PagesPartitionTheRanking(rankings: seq<seq<Row>>, ranked: seq<Row>, corpus: seq<Row>, scope: Scope, threshold: real,
                                 limit: int, k: nat)
    requires AllRank(rankings, corpus, scope) && Ranks(ranked, corpus, scope)
    requires 1 <= limit <= 100 && k * limit <= MAX_FETCH && k <= |rankings|
    requires Untied(Qualifying(ranked, threshold)) || forall i :: 0 <= i < |rankings| ==> rankings[i] == ranked
    ensures k * limit >= 0
    ensures Pages(rankings, threshold, limit, k) == Hits(Slice(Qualifying(ranked, threshold), 0, k * limit))
  {
    hide Pages, Qualifying, Scoped, Ranks, CountMatching, AsHit, OnPage, Descending, Untied;
    PagesBelow(limit, 0, k);
    PagesLength(rankings, corpus, scope, threshold, limit, k);
    CountIsSizeOfRanking(ranked, corpus, scope, threshold);
    var hits, rows := Pages(rankings, threshold, limit, k), Qualifying(ranked, threshold);
    forall m | 0 <= m < |hits| ensures hits[m] == AsHit(rows[m]) {
      var i := PageOf(limit, m);
      PageWithin(limit, i, m, k);
      PagesAt(rankings, corpus, scope, threshold, limit, k, i, m);
      if rankings[i] != ranked {
        SameScores(rankings[i], ranked, corpus, scope, threshold);
        UntiedRowIs(Qualifying(rankings[i], threshold), rows, m);
      }
    }
  }

  lemma UntiedRowIs(p: seq<Row>, rows: seq<Row>, m: nat)
    requires Untied(rows) && multiset(p) == multiset(rows) && |p| == |rows| && m < |rows| && p[m].score == rows[m].score
    ensures p[m] == rows[m]
  {
    assert p[m] in multiset(rows);
    var x :| 0 <= x < |rows| && rows[x] == p[m];
  }

  lemma TwoRows(a: Row, b: Row, scope: Scope, threshold: real)
    requires InScope(scope, a) && InScope(scope, b) && a.score >= threshold && b.score >= threshold
    ensures Scoped([a, b], scope) == [a, b] && Qualifying([a, b], threshold) == [a, b]
  {
    hide InScope;
    assert [a, b][1..] == [b] && [b][1..] == [];
    assert Scoped([b], scope) == [b] && Qualifying([b], threshold) == [b];
  }

  /** Two passages of one score, one per page: the second page may show the first page's passage again and never the other. */
  lemma TiedPassagesRepeat(a: Row, b: Row, scope: Scope, threshold: real)
    requires InScope(scope, a) && InScope(scope, b) && a.score == b.score >= threshold && a.id != b.id
    ensures Keyed(multiset([a, b])) && AllRank([[a, b], [b, a]], [a, b], scope)
    ensures Pages([[a, b], [b, a]], threshold, 1, 2) == [AsHit(a), AsHit(a)]
  {
    hide InScope, AsHit;
    var rankings := [[a, b], [b, a]];
    TwoRows(a, b, scope, threshold);
    TwoRows(b, a, scope, threshold);
    assert multiset([b, a]) == multiset([a, b]);
    hide Qualifying, Scoped, Pages;
    PagesLength(rankings, [a, b], scope, threshold, 1, 2);
    PagesAt(rankings, [a, b], scope, threshold, 1, 2, 0, 0);
    PagesAt(rankings, [a, b], scope, threshold, 1, 2, 1, 1);
  }
}
