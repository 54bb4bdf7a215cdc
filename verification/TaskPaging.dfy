/**
 Paging through the task list: each page is a bounded query below the cursor's
 key, and the cursor is the key of the last row handed out. The laws say that
 following the cursor yields the whole ordered answer, once.
 */
module TaskPaging {
  import opened Wrappers
  import opened Cursor

  datatype Task = Task(key: Key, status: string, title: string, url: string)

  /** The task query: `wanted` stands for the text search and the source type. */
  datatype Query = Query(status: Option<string>, createdFrom: Option<int>, createdTo: Option<int>,
                         only: Option<seq<int>>, exclude: seq<int>, wanted: Task -> bool)

  predicate Matches(q: Query, t: Task) {
    && (q.status.Some? ==> t.status == q.status.value)
    && (q.createdFrom.Some? ==> q.createdFrom.value <= t.key.createdAt)
    && (q.createdTo.Some? ==> t.key.createdAt <= q.createdTo.value)
    && (q.only.Some? ==> t.key.id in q.only.value)
    && t.key.id !in q.exclude
    && q.wanted(t)
  }

  predicate Below(a: Key, b: Key) {
    a.createdAt < b.createdAt || (a.createdAt == b.createdAt && a.id < b.id)
  }

  predicate Before(t: Task, before: Option<Key>) {
    before.Some? ==> Below(t.key, before.value)
  }

  // ---------- the query ----------

  function Select(rows: seq<Task>, q: Query, before: Option<Key>): seq<Task> {
    if rows == [] then []
    else
      var rest := Select(rows[1..], q, before);
      if Matches(q, rows[0]) && Before(rows[0], before) then [rows[0]] + rest else rest
  }

  function Insert(t: Task, rows: seq<Task>): seq<Task> {
    if rows == [] || Below(rows[0].key, t.key) then [t] + rows else [rows[0]] + Insert(t, rows[1..])
  }

  /** Newest first. */
  function Sorted(rows: seq<Task>): seq<Task> {
    if rows == [] then [] else Insert(rows[0], Sorted(rows[1..]))
  }

  function Take(rows: seq<Task>, n: nat): seq<Task> {
    if |rows| <= n then rows else rows[..n]
  }

  function ListTasksPage(rows: seq<Task>, q: Query, before: Option<Key>, limit: nat): seq<Task> {
    Take(Sorted(Select(rows, q, before)), limit)
  }

  function CountTasksPage(rows: seq<Task>, q: Query): nat {
    |Select(rows, q, None)|
  }

  // ---------- the tool ----------

  /** What the voice filters found: tasks per matching speaker, or the diarised tasks. */
  datatype Voice = NoVoice | Person(found: seq<seq<int>>) | Diarized(yes: bool, ids: seq<int>)

  datatype PageError = BadLimit | BadRange | BadCursor

  datatype TaskPage = TaskPage(tasks: seq<Task>, nextCursor: Option<string>, hasMore: bool, total: nat)

  function Joined(found: seq<seq<int>>): seq<int> {
    if found == [] then [] else Joined(found[..|found| - 1]) + found[|found| - 1]
  }

  /** The query narrowed by the voice filter; nothing when the filter matched nobody. */
  function Narrow(q: Query, voice: Voice): Option<Query> {
    match voice
    case NoVoice => Some(q)
    case Person(found) => if Joined(found) == [] then None else Some(q.(only := Some(Joined(found))))
    case Diarized(true, ids) => if ids == [] then None else Some(q.(only := Some(ids)))
    case Diarized(false, ids) => Some(q.(exclude := ids))
  }

  function Page(lib: Library, rows: seq<Task>, q: Query, limit: nat, before: Option<Key>): TaskPage
    requires lib.Faithful()
  {
    var found := ListTasksPage(rows, q, before, limit + 1);
    var tasks := Take(found, limit);
    TaskPage(tasks,
             if |found| > limit && tasks != [] then Some(EncodeCursor(lib, tasks[|tasks| - 1].key)) else None,
             |found| > limit, CountTasksPage(rows, q))
  }

  function DecodedCursor(lib: Library, cursor: Option<string>): Result<Option<Key>, PageError> {
    if cursor.None? || cursor.value == "" then Success(None)
    else
      match DecodeCursor(lib, cursor.value)
      case Failure(_) => Failure(BadCursor)
      case Success(key) => Success(Some(key))
  }

  function ListTasks(lib: Library, rows: seq<Task>, q: Query, voice: Voice, limit: int,
                     cursor: Option<string>): Result<TaskPage, PageError>
    requires lib.Faithful()
  {
    if limit < 1 || limit > 100 then Failure(BadLimit)
    else if q.createdFrom.Some? && q.createdTo.Some? && q.createdFrom.value > q.createdTo.value then Failure(BadRange)
    else
      match DecodedCursor(lib, cursor)
      case Failure(e) => Failure(e)
      case Success(before) =>
        match Narrow(q, voice)
        case None => Success(TaskPage([], None, false, 0))
        case Some(narrowed) => Success(Page(lib, rows, narrowed, limit, before))
  }

  /** The person filter collects the tasks speaker by speaker. */
  method NarrowByVoice(q: Query, voice: Voice) returns (narrowed: Option<Query>)
    ensures narrowed == Narrow(q, voice)
  {
    match voice {
      case NoVoice =>
        narrowed := Some(q);
      case Person(found) =>
        var matched := [];
        for i := 0 to |found|
          invariant matched == Joined(found[..i])
        {
          assert found[..i + 1][..i] == found[..i];
          matched := matched + found[i];
        }
        assert found[..|found|] == found;
        narrowed := if matched == [] then None else Some(q.(only := Some(matched)));
      case Diarized(yes, ids) =>
        if yes {
          narrowed := if ids == [] then None else Some(q.(only := Some(ids)));
        } else {
          narrowed := Some(q.(exclude := ids));
        }
    }
  }

  /** The tool: one page, the cursor to the next, and the size of the whole answer. */
  method ListTasksTool(lib: Library, rows: seq<Task>, q: Query, voice: Voice, limit: int, cursor: Option<string>)
    returns (answer: Result<TaskPage, PageError>)
    requires lib.Faithful()
    ensures answer == ListTasks(lib, rows, q, voice, limit, cursor)
  {
    hide Library.Faithful, Narrow, ListTasksPage, CountTasksPage, Take, DecodeCursor, EncodeCursor;
    if limit < 1 || limit > 100 {
      return Failure(BadLimit);
    }
    if q.createdFrom.Some? && q.createdTo.Some? && q.createdFrom.value > q.createdTo.value {
      return Failure(BadRange);
    }
    var before := DecodedCursor(lib, cursor);
    if before.Failure? {
      return Failure(before.error);
    }
    hide DecodedCursor;
    var narrowed := NarrowByVoice(q, voice);
    if narrowed.None? {
      return Success(TaskPage([], None, false, 0));
    }
    var found := ListTasksPage(rows, narrowed.value, before.value, limit + 1);
    var hasMore := |found| > limit;
    var tasks := Take(found, limit);
    var nextCursor := None;
    if hasMore && tasks != [] {
      nextCursor := Some(EncodeCursor(lib, tasks[|tasks| - 1].key));
    }
    answer := Success(TaskPage(tasks, nextCursor, hasMore, CountTasksPage(rows, narrowed.value)));
  }

  // ---------- the whole answer ----------

  /** Task ids are a primary key. */
  ghost predicate UniqueIds(rows: seq<Task>) {
    forall i, j :: 0 <= i < j < |rows| ==> rows[i].key.id != rows[j].key.id
  }

  ghost predicate Descending(rows: seq<Task>) {
    forall i, j :: 0 <= i < j < |rows| ==> Below(rows[j].key, rows[i].key)
  }

  function Everything(rows: seq<Task>, q: Query): seq<Task> {
    Sorted(Select(rows, q, None))
  }

  lemma {:induction false} SelectIsExact(rows: seq<Task>, q: Query, before: Option<Key>)
    ensures forall t :: t in Select(rows, q, before) <==> t in rows && Matches(q, t) && Before(t, before)
    ensures UniqueIds(rows) ==> UniqueIds(Select(rows, q, before))
  {
    hide Matches, Before;
    if rows != [] {
      SelectIsExact(rows[1..], q, before);
      assert rows == [rows[0]] + rows[1..];
      if UniqueIds(rows) {
        UniqueTail(rows);
        var rest := Select(rows[1..], q, before);
        assert forall t :: t in rest ==> t.key.id != rows[0].key.id;
      }
    }
  }

  lemma UniqueTail(rows: seq<Task>)
    requires UniqueIds(rows) && rows != []
    ensures UniqueIds(rows[1..]) && forall t :: t in rows[1..] ==> t.key.id != rows[0].key.id
  {
  }

  lemma {:induction false} InsertIsExact(t: Task, rows: seq<Task>)
    ensures multiset(Insert(t, rows)) == multiset(rows) + multiset{t}
    ensures |Insert(t, rows)| == |rows| + 1
    ensures Descending(rows) && (forall r :: r in rows ==> r.key.id != t.key.id) ==> Descending(Insert(t, rows))
  {
    if rows != [] && !Below(rows[0].key, t.key) {
      InsertIsExact(t, rows[1..]);
      assert rows == [rows[0]] + rows[1..];
      if Descending(rows) && (forall r :: r in rows ==> r.key.id != t.key.id) {
        InsertedAfter(t, rows);
      }
    }
  }

  lemma InsertedAfter(t: Task, rows: seq<Task>)
    requires rows != [] && Descending(rows) && !Below(rows[0].key, t.key) && t.key.id != rows[0].key.id
    requires multiset(Insert(t, rows[1..])) == multiset(rows[1..]) + multiset{t} && Descending(Insert(t, rows[1..]))
    ensures Descending([rows[0]] + Insert(t, rows[1..]))
  {
    var rest := Insert(t, rows[1..]);
    forall i | 0 <= i < |rest| ensures Below(rest[i].key, rows[0].key) {
      assert rest[i] in multiset(rest);
      if rest[i] != t {
        assert rest[i] in multiset(rows[1..]);
      }
    }
  }

  lemma {:induction false} SortedIsExact(rows: seq<Task>)
    ensures multiset(Sorted(rows)) == multiset(rows) && |Sorted(rows)| == |rows|
    ensures UniqueIds(rows) ==> Descending(Sorted(rows))
  {
    hide Descending, Insert, UniqueIds;
    if rows != [] {
      SortedIsExact(rows[1..]);
      InsertIsExact(rows[0], Sorted(rows[1..]));
      assert rows == [rows[0]] + rows[1..];
      if UniqueIds(rows) {
        UniqueTail(rows);
        forall r | r in Sorted(rows[1..]) ensures r in rows[1..] {
          assert r in multiset(Sorted(rows[1..]));
        }
      }
    } else {
      NoneDescending();
    }
  }

  lemma NoneDescending()
    ensures Descending([])
  {
  }

  /** The whole answer: every matching task once, newest first. */
  lemma EverythingIsTheAnswer(rows: seq<Task>, q: Query)
    requires UniqueIds(rows)
    ensures Descending(Everything(rows, q))
    ensures forall t :: t in Everything(rows, q) <==> t in rows && Matches(q, t)
    ensures |Everything(rows, q)| == CountTasksPage(rows, q)
  {
    hide Descending, Sorted, Matches, UniqueIds;
    SelectIsExact(rows, q, None);
    SortedIsExact(Select(rows, q, None));
    forall t ensures t in Everything(rows, q) <==> t in Select(rows, q, None) {
      assert t in Everything(rows, q) <==> t in multiset(Everything(rows, q));
      assert t in Select(rows, q, None) <==> t in multiset(Select(rows, q, None));
    }
  }

  // ---------- cutting the answer at a key ----------

  function Cut(rows: seq<Task>, k: Key): seq<Task> {
    if rows == [] then []
    else if Below(rows[0].key, k) then [rows[0]] + Cut(rows[1..], k)
    else Cut(rows[1..], k)
  }

  lemma CutCons(t: Task, rows: seq<Task>, k: Key)
    ensures Cut([t] + rows, k) == if Below(t.key, k) then [t] + Cut(rows, k) else Cut(rows, k)
  {
    assert ([t] + rows)[1..] == rows;
  }

  lemma {:induction false} SelectCut(rows: seq<Task>, q: Query, k: Key)
    ensures Select(rows, q, Some(k)) == Cut(Select(rows, q, None), k)
  {
    hide Matches, Below;
    if rows != [] {
      SelectCut(rows[1..], q, k);
      CutCons(rows[0], Select(rows[1..], q, None), k);
    }
  }

  lemma {:induction false} InsertCut(t: Task, rows: seq<Task>, k: Key)
    requires Descending(rows)
    ensures Cut(Insert(t, rows), k) == if Below(t.key, k) then Insert(t, Cut(rows, k)) else Cut(rows, k)
  {
    hide Descending;
    CutCons(t, rows, k);
    if rows == [] {
    } else if Below(rows[0].key, t.key) {
      if Below(t.key, k) {
        CutKeepsAll(t, rows, k);
      }
    } else {
      DescendingTail(rows);
      InsertCut(t, rows[1..], k);
      CutCons(rows[0], Insert(t, rows[1..]), k);
      var cut := Cut(rows[1..], k);
      assert ([rows[0]] + cut)[1..] == cut;
    }
  }

  lemma DescendingTail(rows: seq<Task>)
    requires Descending(rows) && rows != []
    ensures Descending(rows[1..]) && forall t :: t in rows[1..] ==> Below(t.key, rows[0].key)
  {
  }

  lemma CutKeepsAll(t: Task, rows: seq<Task>, k: Key)
    requires Descending(rows) && rows != [] && Below(rows[0].key, t.key) && Below(t.key, k)
    ensures Cut(rows, k) == rows
  {
    DescendingTail(rows);
    CutAll(rows, k);
  }

  lemma {:induction false} CutAll(rows: seq<Task>, k: Key)
    requires forall t :: t in rows ==> Below(t.key, k)
    ensures Cut(rows, k) == rows
  {
    hide Below;
    if rows != [] {
      CutAll(rows[1..], k);
      assert rows == [rows[0]] + rows[1..];
    }
  }

  lemma {:induction false} SortedCut(rows: seq<Task>, k: Key)
    requires UniqueIds(rows)
    ensures Sorted(Cut(rows, k)) == Cut(Sorted(rows), k)
  {
    hide Insert, Below, Descending;
    if rows != [] {
      UniqueTail(rows);
      SortedCut(rows[1..], k);
      SortedIsExact(rows[1..]);
      InsertCut(rows[0], Sorted(rows[1..]), k);
      var rest := Cut(rows[1..], k);
      assert Sorted([rows[0]] + rest) == Insert(rows[0], Sorted(rest)) by {
        assert ([rows[0]] + rest)[1..] == rest;
      }
    }
  }

  /** Below the key of row `i - 1`, the answer is what follows that row. */
  lemma {:induction false} CutAtRow(rows: seq<Task>, i: nat)
    requires Descending(rows) && 0 < i <= |rows|
    ensures Cut(rows, rows[i - 1].key) == rows[i..]
    decreases |rows|
  {
    DescendingTail(rows);
    var k := rows[i - 1].key;
    hide Descending;
    if i == 1 {
      CutAll(rows[1..], k);
    } else {
      assert rows[i - 1] in rows[1..];
      CutAtRow(rows[1..], i - 1);
      assert rows[1..][i - 2] == rows[i - 1] && rows[1..][i - 1..] == rows[i..];
    }
  }

  // ---------- following the cursor ----------

  /** The rows still to be handed out. */
  function Left(rows: seq<Task>, q: Query, before: Option<Key>): seq<Task> {
    Sorted(Select(rows, q, before))
  }

  /** A page is the front of what was left, and its cursor stands at exactly what is left after it. */
  lemma PageIsThePrefix(lib: Library, rows: seq<Task>, q: Query, limit: nat, before: Option<Key>)
    requires lib.Faithful() && UniqueIds(rows) && limit > 0
    ensures var page, left := Page(lib, rows, q, limit, before), Left(rows, q, before);
            && page.tasks == Take(left, limit) && page.total == |Everything(rows, q)|
            && (page.hasMore <==> |left| > limit) && (page.hasMore <==> page.nextCursor.Some?)
            && (page.hasMore ==>
                  && DecodedCursor(lib, page.nextCursor).Success?
                  && Left(rows, q, DecodedCursor(lib, page.nextCursor).value) == left[limit..])
  {
    hide Select, Sorted, DecodeCursor, EncodeCursor, UniqueIds, Library.Faithful;
    var left := Left(rows, q, before);
    SortedIsExact(Select(rows, q, None));
    assert |Everything(rows, q)| == CountTasksPage(rows, q);
    var page := Page(lib, rows, q, limit, before);
    assert page.tasks == Take(left, limit);
    if |left| > limit {
      var key := left[limit - 1].key;
      CursorRoundTrip(lib, key);
      LeftBelowRow(rows, q, before, limit);
    }
  }

  lemma LeftBelowRow(rows: seq<Task>, q: Query, before: Option<Key>, i: nat)
    requires UniqueIds(rows) && 0 < i <= |Left(rows, q, before)|
    ensures Left(rows, q, Some(Left(rows, q, before)[i - 1].key)) == Left(rows, q, before)[i..]
  {
    hide Below, Matches, UniqueIds, Descending;
    var left := Left(rows, q, before);
    var key := left[i - 1].key;
    SelectIsExact(rows, q, None);
    SelectIsExact(rows, q, before);
    SortedIsExact(Select(rows, q, None));
    SortedIsExact(Select(rows, q, before));
    SelectCut(rows, q, key);
    SortedCut(Select(rows, q, None), key);
    CutAtRow(left, i);
    if before.Some? {
      SelectCut(rows, q, before.value);
      SortedCut(Select(rows, q, None), before.value);
      assert multiset(left)[left[i - 1]] > 0;
      assert left[i - 1] in multiset(Select(rows, q, before));
      assert Before(left[i - 1], before);
      CutTwice(Everything(rows, q), before.value, key);
    }
  }

  lemma {:induction false} CutTwice(rows: seq<Task>, k: Key, lower: Key)
    requires Below(lower, k)
    ensures Cut(Cut(rows, k), lower) == Cut(rows, lower)
  {
    if rows != [] {
      CutTwice(rows[1..], k, lower);
      CutCons(rows[0], Cut(rows[1..], k), lower);
    }
  }

  /** A call the tool accepts. */
  predicate Accepted(lib: Library, q: Query, limit: int, cursor: Option<string>) {
    && 1 <= limit <= 100
    && (q.createdFrom.Some? && q.createdTo.Some? ==> q.createdFrom.value <= q.createdTo.value)
    && DecodedCursor(lib, cursor).Success?
  }

  /** The rows a call with this cursor has yet to hand out. */
  function Pending(lib: Library, rows: seq<Task>, q: Query, voice: Voice, cursor: Option<string>): seq<Task>
    requires DecodedCursor(lib, cursor).Success?
  {
    match Narrow(q, voice)
    case None => []
    case Some(narrowed) => Left(rows, narrowed, DecodedCursor(lib, cursor).value)
  }

  /** An accepted call hands out the front of what is pending; `has_more` says whether rows remain; the cursor stands at them. */
  lemma CallHandsOutThePrefix(lib: Library, rows: seq<Task>, q: Query, voice: Voice, limit: int, cursor: Option<string>)
    requires lib.Faithful() && UniqueIds(rows) && Accepted(lib, q, limit, cursor)
    ensures var answer, pending := ListTasks(lib, rows, q, voice, limit, cursor), Pending(lib, rows, q, voice, cursor);
            && answer.Success? && answer.value.tasks == Take(pending, limit)
            && (answer.value.hasMore <==> |pending| > limit)
            && (answer.value.hasMore ==>
                  && Accepted(lib, q, limit, answer.value.nextCursor)
                  && Pending(lib, rows, q, voice, answer.value.nextCursor) == pending[limit..])
            && (!answer.value.hasMore ==> answer.value.nextCursor == None)
            && answer.value.total == |Pending(lib, rows, q, voice, None)|
  {
    assert DecodedCursor(lib, None) == Success(None);
    hide UniqueIds, Library.Faithful, DecodedCursor, Page, Narrow, Sorted, Select;
    if Narrow(q, voice).Some? {
      PageIsThePrefix(lib, rows, Narrow(q, voice).value, limit, DecodedCursor(lib, cursor).value);
    }
  }

  /** What a client collects by following `next_cursor` until `has_more` is false. */
  ghost function Drain(lib: Library, rows: seq<Task>, q: Query, voice: Voice, limit: int, cursor: Option<string>): seq<Task>
    requires lib.Faithful() && UniqueIds(rows) && Accepted(lib, q, limit, cursor)
    decreases |Pending(lib, rows, q, voice, cursor)|
  {
    CallHandsOutThePrefix(lib, rows, q, voice, limit, cursor);
    var page := ListTasks(lib, rows, q, voice, limit, cursor).value;
    if page.hasMore then page.tasks + Drain(lib, rows, q, voice, limit, page.nextCursor) else page.tasks
  }

  lemma {:induction false} DrainGivesWhatIsPending(lib: Library, rows: seq<Task>, q: Query, voice: Voice, limit: int,
                                                   cursor: Option<string>)
    requires lib.Faithful() && UniqueIds(rows) && Accepted(lib, q, limit, cursor)
    ensures Drain(lib, rows, q, voice, limit, cursor) == Pending(lib, rows, q, voice, cursor)
    decreases |Pending(lib, rows, q, voice, cursor)|
  {
    hide Pending, ListTasks, UniqueIds, Library.Faithful;
    CallHandsOutThePrefix(lib, rows, q, voice, limit, cursor);
    var page, pending := ListTasks(lib, rows, q, voice, limit, cursor).value, Pending(lib, rows, q, voice, cursor);
    if page.hasMore {
      DrainGivesWhatIsPending(lib, rows, q, voice, limit, page.nextCursor);
      assert pending == pending[..limit] + pending[limit..];
    }
  }

  /** What the voice filter asks for. */
  ghost predicate Heard(voice: Voice, id: int) {
    match voice
    case NoVoice => true
    case Person(found) => exists i :: 0 <= i < |found| && id in found[i]
    case Diarized(yes, ids) => yes <==> id in ids
  }

  lemma {:induction false} JoinedIsUnion(found: seq<seq<int>>, id: int)
    ensures id in Joined(found) <==> exists i :: 0 <= i < |found| && id in found[i]
    decreases |found|
  {
    if found != [] {
      var n := |found| - 1;
      JoinedIsUnion(found[..n], id);
      if i :| 0 <= i < |found| && id in found[i] {
        assert i < n ==> found[..n][i] == found[i];
      }
    }
  }

  /** The narrowed query matches what the query matches and the voice filter asks for. */
  lemma NarrowIsExact(q: Query, voice: Voice, t: Task)
    requires q.only == None && q.exclude == []
    ensures match Narrow(q, voice)
            case None => !Heard(voice, t.key.id)
            case Some(narrowed) => Matches(narrowed, t) <==> Matches(q, t) && Heard(voice, t.key.id)
  {
    if voice.Person? {
      JoinedIsUnion(voice.found, t.key.id);
    }
  }

  // ---------- what a caller asks for, and when it is refused ----------

  /** The task has the status and lies in the range asked for, the text search and the voice filter want it. */
  ghost predicate Asked(q: Query, voice: Voice, t: Task) {
    && (q.status == None || q.status == Some(t.status))
    && (q.createdFrom == None || t.key.createdAt >= q.createdFrom.value)
    && (q.createdTo == None || t.key.createdAt <= q.createdTo.value)
    && q.wanted(t) && Heard(voice, t.key.id)
  }

  lemma AskedIs(q: Query, voice: Voice, t: Task)
    requires q.only == None && q.exclude == []
    ensures Asked(q, voice, t) <==> Matches(q, t) && Heard(voice, t.key.id)
  {
  }

  /** Later creation first; at one time, the greater id first. No two share both. */
  ghost predicate NewestFirst(tasks: seq<Task>) {
    forall i, j :: 0 <= i < j < |tasks| ==>
      var a, b := tasks[i].key, tasks[j].key;
      a.createdAt > b.createdAt || (a.createdAt == b.createdAt && a.id > b.id)
  }

  lemma DescendingIsNewestFirst(tasks: seq<Task>)
    ensures Descending(tasks) <==> NewestFirst(tasks)
  {
  }

  /** A call is refused for its limit, its range or its cursor, in that order, and for nothing else. */
  lemma RefusalsAreExact(lib: Library, rows: seq<Task>, q: Query, voice: Voice, limit: int, cursor: Option<string>)
    requires lib.Faithful()
    ensures var r := ListTasks(lib, rows, q, voice, limit, cursor);
            var badRange := q.createdFrom.Some? && q.createdTo.Some? && q.createdFrom.value > q.createdTo.value;
            var badCursor := cursor.Some? && cursor.value != "" && DecodeCursor(lib, cursor.value).Failure?;
            && (r == Failure(BadLimit) <==> !(1 <= limit <= 100))
            && (r == Failure(BadRange) <==> 1 <= limit <= 100 && badRange)
            && (r == Failure(BadCursor) <==> 1 <= limit <= 100 && !badRange && badCursor)
            && (r.Success? <==> Accepted(lib, q, limit, cursor))
  {
    hide DecodeCursor, Page, Narrow, Library.Faithful;
  }

  /** Following the cursor from the start yields every task asked for exactly once, newest first. */
  lemma PagingYieldsEverything(lib: Library, rows: seq<Task>, q: Query, voice: Voice, limit: int)
    requires lib.Faithful() && UniqueIds(rows) && Accepted(lib, q, limit, None)
    requires q.only == None && q.exclude == []
    ensures var all := Drain(lib, rows, q, voice, limit, None);
            && NewestFirst(all)
            && (forall t :: t in all <==> t in rows && Asked(q, voice, t))
            && ListTasks(lib, rows, q, voice, limit, None).value.total == |all|
  {
    hide Drain, Descending, NewestFirst, Asked, Matches, UniqueIds, Library.Faithful, Sorted, Select, Narrow, Heard;
    DescendingIsNewestFirst(Drain(lib, rows, q, voice, limit, None));
    forall t: Task ensures Asked(q, voice, t) <==> Matches(q, t) && Heard(voice, t.key.id) {
      AskedIs(q, voice, t);
    }
    DrainGivesWhatIsPending(lib, rows, q, voice, limit, None);
    match Narrow(q, voice) {
      case None =>
        NoneDescending();
        forall t: Task ensures !Heard(voice, t.key.id) {
          NarrowIsExact(q, voice, t);
        }
      case Some(narrowed) =>
        EverythingIsTheAnswer(rows, narrowed);
        forall t: Task ensures Matches(narrowed, t) <==> Matches(q, t) && Heard(voice, t.key.id) {
          NarrowIsExact(q, voice, t);
        }
    }
  }
}
