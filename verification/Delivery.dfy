/**
 The delivery table as a state machine: rows are created, claimed, delivered,
 failed with backoff, parked with a refund, reaped and retried. `Step` is the
 machine; the invariants are proved of every run of it.
 */
module Delivery {
  import opened Wrappers

  type Id = nat

  datatype Status = Pending | Delivering | Delivered | Dead | WaitingAdapter

  datatype Row = Row(taskId: nat, targetId: Option<nat>, adapter: string, variant: string,
                     status: Status, attempts: int, maxAttempts: int, nextAttemptAt: Option<int>,
                     lastError: Option<string>, externalId: Option<string>, externalUrl: Option<string>,
                     updatedAt: int)

  datatype Settings = Settings(backoffBase: nat, backoffCap: nat, adapterWait: nat, stuckAfter: nat, claimBatch: nat)

  predicate IsClaimable(s: Status) { s == Pending || s == WaitingAdapter }

  predicate IsInFlight(s: Status) { s == Pending || s == Delivering || s == WaitingAdapter }

  predicate CanRetry(s: Status) { s == Dead }

  function IntMin(a: int, b: int): int { if a <= b then a else b }
  function IntMax(a: int, b: int): int { if a >= b then a else b }

  function Pow2(n: nat): nat { if n == 0 then 1 else 2 * Pow2(n - 1) }

  function BackoffSeconds(attempts: int, base: nat, cap: nat): int
    requires attempts >= 1
  {
    IntMin(base * Pow2(attempts - 1), cap)
  }

  /** The wait starts at the base, doubles with every attempt and never passes the cap. */
  lemma BackoffDoubles(attempts: int, base: nat, cap: nat)
    requires attempts >= 1
    ensures BackoffSeconds(1, base, cap) == IntMin(base, cap)
    ensures BackoffSeconds(attempts + 1, base, cap) == IntMin(2 * BackoffSeconds(attempts, base, cap), cap)
    ensures 0 <= BackoffSeconds(attempts, base, cap) <= BackoffSeconds(attempts + 1, base, cap) <= cap
  {
    var x := base * Pow2(attempts - 1);
    assert base * Pow2(attempts) == 2 * x;
    assert Pow2(0) == 1;
  }

  // ---------- rows ----------

  predicate IsDue(row: Row, now: int) {
    IsClaimable(row.status) && row.nextAttemptAt.Some? && row.nextAttemptAt.value <= now
  }

  predicate NoLater(a: Row, b: Row) {
    a.nextAttemptAt.Some? && b.nextAttemptAt.Some? && a.nextAttemptAt.value <= b.nextAttemptAt.value
  }

  /**
   What the claiming SELECT returns: due rows, earliest first, at most `limit` of
   them, and no due row is passed over for a later one.
   */
  ghost predicate Selected(rows: map<Id, Row>, now: int, limit: nat, ids: seq<Id>) {
    && |ids| <= limit
    && (forall i :: 0 <= i < |ids| ==> ids[i] in rows && IsDue(rows[ids[i]], now))
    && (forall i, j :: 0 <= i < j < |ids| ==> ids[i] != ids[j])
    && (forall i, j :: 0 <= i < j < |ids| ==> NoLater(rows[ids[i]], rows[ids[j]]))
    && (forall id :: id in rows && IsDue(rows[id], now) && id !in ids ==>
          |ids| == limit && forall i :: 0 <= i < |ids| ==> NoLater(rows[ids[i]], rows[id]))
  }

  function Claimed(row: Row, now: int): Row {
    row.(status := Delivering, attempts := row.attempts + 1, updatedAt := now)
  }

  function Done(row: Row, externalId: Option<string>, externalUrl: Option<string>, now: int): Row {
    row.(status := Delivered, externalId := externalId, externalUrl := externalUrl, lastError := None, updatedAt := now)
  }

  /** A failure: dead once the attempts are spent, else pending again after the backoff. */
  function Failed(row: Row, error: string, settings: Settings, now: int): Row
    requires row.attempts >= 1
  {
    var dead := row.attempts >= row.maxAttempts;
    row.(status := if dead then Dead else Pending,
         lastError := Some(if |error| <= 2000 then error else error[..2000]),
         nextAttemptAt := if dead then None
                          else Some(now + BackoffSeconds(row.attempts, settings.backoffBase, settings.backoffCap)),
         updatedAt := now)
  }

  function Parked(row: Row, settings: Settings, now: int): Row {
    row.(status := WaitingAdapter, attempts := IntMax(0, row.attempts - 1),
         nextAttemptAt := Some(now + settings.adapterWait), updatedAt := now)
  }

  predicate IsStuck(row: Row, olderThan: int) {
    row.status == Delivering && row.updatedAt < olderThan
  }

  predicate Retries(row: Row, taskId: nat, targetId: Option<nat>) {
    row.taskId == taskId && CanRetry(row.status) && (targetId.Some? ==> row.targetId == targetId)
  }

  function FreshRow(taskId: nat, targetId: Option<nat>, adapter: string, variant: string, maxAttempts: int, now: int): Row {
    Row(taskId, targetId, adapter, variant, Pending, 0, maxAttempts, Some(now), None, None, None, now)
  }

  // ---------- the machine ----------

  /** What has happened to one row so far. */
  datatype Ledger = Ledger(claims: nat, parks: nat, failures: nat, retries: nat)

  datatype State = State(rows: map<Id, Row>, ledger: map<Id, Ledger>)

  datatype Event =
    | Create(id: Id, row: Row)
    | Claim(claimedAt: int, limit: nat, ids: seq<Id>)
    | Deliver(id: Id, externalId: Option<string>, externalUrl: Option<string>, at: int)
    | Fail(id: Id, error: string, at: int)
    | Park(id: Id, at: int)
    | Reap(olderThan: int, at: int)
    | Retry(taskId: nat, targetId: Option<nat>, at: int)

  /** One worker per row: only a row it has claimed is delivered, failed or parked. */
  ghost predicate Enabled(s: State, e: Event) {
    match e
    case Create(id, row) => id !in s.rows && row.status == Pending && row.attempts == 0 && row.nextAttemptAt.Some?
    case Claim(now, limit, ids) => Selected(s.rows, now, limit, ids)
    case Deliver(id, _, _, _) => id in s.rows && s.rows[id].status == Delivering
    case Fail(id, _, _) => id in s.rows && s.rows[id].status == Delivering
    case Park(id, _) => id in s.rows && s.rows[id].status == Delivering
    case Reap(_, _) => true
    case Retry(_, _, _) => true
  }

  function RowAfter(id: Id, row: Row, e: Event, settings: Settings): Row {
    match e
    case Create(_, _) => row
    case Claim(now, _, ids) => if id in ids then Claimed(row, now) else row
    case Deliver(x, ext, url, now) => if x == id then Done(row, ext, url, now) else row
    case Fail(x, error, now) => if x == id && row.attempts >= 1 then Failed(row, error, settings, now) else row
    case Park(x, now) => if x == id then Parked(row, settings, now) else row
    case Reap(olderThan, now) => if IsStuck(row, olderThan) then row.(status := Pending, updatedAt := now) else row
    case Retry(taskId, targetId, now) =>
      if Retries(row, taskId, targetId) then row.(status := Pending, nextAttemptAt := Some(now), updatedAt := now) else row
  }

  function LedgerAfter(id: Id, row: Row, l: Ledger, e: Event): Ledger {
    match e
    case Claim(_, _, ids) => if id in ids then l.(claims := l.claims + 1) else l
    case Fail(x, _, _) => if x == id then l.(failures := l.failures + 1) else l
    case Park(x, _) => if x == id then l.(parks := l.parks + 1) else l
    case Retry(taskId, targetId, _) => if Retries(row, taskId, targetId) then l.(retries := l.retries + 1) else l
    case _ => l
  }

  function Step(s: State, e: Event, settings: Settings): State {
    var rows := map id | id in s.rows :: RowAfter(id, s.rows[id], e, settings);
    var ledger := map id | id in s.rows && id in s.ledger :: LedgerAfter(id, s.rows[id], s.ledger[id], e);
    if e.Create? && e.id !in s.rows
    then State(rows[e.id := e.row], ledger[e.id := Ledger(0, 0, 0, 0)])
    else State(rows, ledger)
  }

  function Run(s: State, events: seq<Event>, settings: Settings): State {
    if events == [] then s
    else Step(Run(s, events[..|events| - 1], settings), events[|events| - 1], settings)
  }

  /** Every event of the run was possible when it happened. */
  ghost predicate Possible(s: State, events: seq<Event>, settings: Settings) {
    events == [] ||
    var before := events[..|events| - 1];
    Possible(s, before, settings) && Enabled(Run(s, before, settings), events[|events| - 1])
  }

  const NOTHING := State(map[], map[])

  // ---------- the invariant ----------

  ghost predicate RowInv(row: Row, l: Ledger) {
    && l.parks <= l.claims && row.attempts == l.claims - l.parks
    && l.failures + (if row.status == Delivering then 1 else 0) <= row.attempts
    && (IsInFlight(row.status) ==> row.nextAttemptAt.Some?)
    && (row.status == Dead ==> row.attempts >= row.maxAttempts && l.failures >= 1)
    && (l.retries == 0 && row.status != Dead ==> l.failures < IntMax(1, row.maxAttempts))
    && (l.retries == 0 ==> l.failures <= IntMax(1, row.maxAttempts))
  }

  ghost predicate Inv(s: State) {
    s.rows.Keys == s.ledger.Keys && forall id :: id in s.rows ==> RowInv(s.rows[id], s.ledger[id])
  }

  lemma RowStep(s: State, e: Event, settings: Settings, id: Id)
    requires Inv(s) && Enabled(s, e) && id in s.rows
    ensures RowInv(RowAfter(id, s.rows[id], e, settings), LedgerAfter(id, s.rows[id], s.ledger[id], e))
  {
    assert RowInv(s.rows[id], s.ledger[id]);
    if e.Claim? && id in e.ids {
      var i :| 0 <= i < |e.ids| && e.ids[i] == id;
      assert IsDue(s.rows[id], e.claimedAt);
    }
  }

  lemma InvStep(s: State, e: Event, settings: Settings)
    requires Inv(s) && Enabled(s, e)
    ensures Inv(Step(s, e, settings))
  {
    var t := Step(s, e, settings);
    forall id | id in t.rows ensures id in t.ledger && RowInv(t.rows[id], t.ledger[id]) {
      if id in s.rows {
        RowStep(s, e, settings, id);
      }
    }
  }

  /**
   In every run from the empty table: attempts are claims minus parks and at least
   one while delivering; a row in flight always has a next attempt time; a row is
   dead only once its attempts are spent; and until someone retries it, a row
   fails at most max(1, max_attempts) times.
   */
  lemma {:induction false} EveryRunKeepsTheBooks(events: seq<Event>, settings: Settings)
    requires Possible(NOTHING, events, settings)
    ensures Inv(Run(NOTHING, events, settings))
    decreases |events|
  {
    if events != [] {
      var before := events[..|events| - 1];
      EveryRunKeepsTheBooks(before, settings);
      InvStep(Run(NOTHING, before, settings), events[|events| - 1], settings);
    }
  }

  /**
   The bound max(1, max_attempts) cannot be lowered to max_attempts: whatever the
   setting, a first claimed attempt may fail, so the two agree exactly from 1 up.
   */
  lemma FirstFailureNeedsNoAllowance(id: Id, maxAttempts: int, settings: Settings, t: int)
    ensures var events := [Create(id, FreshRow(0, None, "a", "summary", maxAttempts, t)), Claim(t, 1, [id]), Fail(id, "e", t)];
            && Possible(NOTHING, events, settings)
            && id in Run(NOTHING, events, settings).ledger
            && Run(NOTHING, events, settings).ledger[id].failures == 1
            && (1 <= maxAttempts <==> Run(NOTHING, events, settings).ledger[id].failures <= maxAttempts)
  {
    var row := FreshRow(0, None, "a", "summary", maxAttempts, t);
    var create, claim, fail := Create(id, row), Claim(t, 1, [id]), Fail(id, "e", t);
    var s1 := State(map[id := row], map[id := Ledger(0, 0, 0, 0)]);
    assert Step(NOTHING, create, settings) == s1;
    var s2 := State(map[id := Claimed(row, t)], map[id := Ledger(1, 0, 0, 0)]);
    assert Enabled(s1, claim) && Step(s1, claim, settings) == s2;
    var a, b, c := [create], [create, claim], [create, claim, fail];
    assert a[..0] == [] && b[..1] == a && c[..2] == b;
    hide Step;
    assert Run(NOTHING, [], settings) == NOTHING && Run(NOTHING, a, settings) == s1 && Run(NOTHING, b, settings) == s2;
    assert Possible(NOTHING, a, settings) && Possible(NOTHING, b, settings);
    FailCounts(s2, id, t, settings);
  }

  lemma FailCounts(s: State, id: Id, t: int, settings: Settings)
    requires id in s.rows && id in s.ledger
    ensures var s' := Step(s, Fail(id, "e", t), settings);
            id in s'.ledger && s'.ledger[id].failures == s.ledger[id].failures + 1
  {
  }

  /** A ledger counts what the run did: nothing but claims raise `claims`, and so on. */
  ghost function Count(events: seq<Event>, p: Event -> bool): nat {
    if events == [] then 0
    else Count(events[..|events| - 1], p) + (if p(events[|events| - 1]) then 1 else 0)
  }

  /** One event moves the ledger of a known row by exactly what the event was. */
  lemma LedgerStep(s: State, e: Event, settings: Settings, id: Id)
    requires s.rows.Keys == s.ledger.Keys && Enabled(s, e)
    ensures var t := Step(s, e, settings);
            && t.rows.Keys == t.ledger.Keys
            && (id in s.ledger ==> id in t.ledger && t.ledger[id] == LedgerAfter(id, s.rows[id], s.ledger[id], e))
            && (id !in s.ledger && id in t.ledger ==> e.Create? && t.ledger[id] == Ledger(0, 0, 0, 0))
            && (id !in s.ledger ==> !(e.Claim? && id in e.ids) && !(e.Park? && e.id == id) && !(e.Fail? && e.id == id))
  {
    hide RowAfter;
  }

  /** The ledger of a row is the number of its claims, parks and failures in the run. */
  lemma {:induction false} LedgerCountsEvents(events: seq<Event>, settings: Settings, id: Id)
    requires Possible(NOTHING, events, settings)
    ensures var s := Run(NOTHING, events, settings);
            && s.rows.Keys == s.ledger.Keys
            && (id in s.ledger ==>
                  && s.ledger[id].claims == Count(events, (e: Event) => e.Claim? && id in e.ids)
                  && s.ledger[id].parks == Count(events, (e: Event) => e.Park? && e.id == id)
                  && s.ledger[id].failures == Count(events, (e: Event) => e.Fail? && e.id == id))
            && (id !in s.ledger ==>
                  && Count(events, (e: Event) => e.Claim? && id in e.ids) == 0
                  && Count(events, (e: Event) => e.Park? && e.id == id) == 0
                  && Count(events, (e: Event) => e.Fail? && e.id == id) == 0)
    decreases |events|
  {
    if events != [] {
      hide Enabled, Retries, Step;
      LedgerCountsEvents(events[..|events| - 1], settings, id);
      LedgerStep(Run(NOTHING, events[..|events| - 1], settings), events[|events| - 1], settings, id);
    }
  }

  // ---------- what stays ----------

  /** Only a retry that names it moves a row nothing more will happen to. */
  lemma SettledStep(s: State, e: Event, settings: Settings, id: Id)
    requires id in s.rows && Enabled(s, e)
    requires s.rows[id].status == Delivered || s.rows[id].status == Dead
    requires s.rows[id].status == Dead && e.Retry? ==> !Retries(s.rows[id], e.taskId, e.targetId)
    ensures id in Step(s, e, settings).rows && Step(s, e, settings).rows[id] == s.rows[id]
  {
  }

  /** A delivered row never changes again, whatever the rest of the run does. */
  lemma {:induction false} DeliveredIsFinal(s: State, events: seq<Event>, settings: Settings, id: Id)
    requires id in s.rows && s.rows[id].status == Delivered && Possible(s, events, settings)
    ensures id in Run(s, events, settings).rows && Run(s, events, settings).rows[id] == s.rows[id]
    decreases |events|
  {
    if events != [] {
      var before := events[..|events| - 1];
      DeliveredIsFinal(s, before, settings, id);
      hide Enabled, Step;
      SettledStep(Run(s, before, settings), events[|events| - 1], settings, id);
    }
  }

  /** A dead row stays dead until a retry names it. */
  lemma {:induction false} DeadUntilRetried(s: State, events: seq<Event>, settings: Settings, id: Id)
    requires id in s.rows && s.rows[id].status == Dead && Possible(s, events, settings)
    requires forall e :: e in events && e.Retry? ==> !Retries(s.rows[id], e.taskId, e.targetId)
    ensures id in Run(s, events, settings).rows && Run(s, events, settings).rows[id] == s.rows[id]
    decreases |events|
  {
    if events != [] {
      var before := events[..|events| - 1];
      DeadUntilRetried(s, before, settings, id);
      hide Enabled, Step;
      assert events[|events| - 1] in events;
      SettledStep(Run(s, before, settings), events[|events| - 1], settings, id);
    }
  }

  // ---------- what can still happen ----------

  /** No row in flight is ever stranded: it is due at some instant, after a reap if its worker died. */
  lemma NeverStranded(s: State, settings: Settings, id: Id, olderThan: int, now: int)
    requires Inv(s) && id in s.rows && IsInFlight(s.rows[id].status) && s.rows[id].updatedAt < olderThan
    ensures var reaped := Step(s, Reap(olderThan, now), settings);
            && s.rows[id].nextAttemptAt.Some? && id in reaped.rows
            && forall t :: s.rows[id].nextAttemptAt.value <= t ==> IsDue(reaped.rows[id], t)
  {
    assert RowInv(s.rows[id], s.ledger[id]);
    var reaped := Step(s, Reap(olderThan, now), settings);
    assert reaped.rows[id] == RowAfter(id, s.rows[id], Reap(olderThan, now), settings);
  }

  /** A retry buys exactly one more attempt: the next unparked failure kills the row again. */
  lemma RetryBuysOneAttempt(s: State, settings: Settings, id: Id, targetId: Option<nat>, t0: int,
                            claim: Event, error: string, t2: int)
    requires Inv(s) && id in s.rows && Retries(s.rows[id], s.rows[id].taskId, targetId)
    requires claim.Claim? && id in claim.ids
    requires Enabled(Step(s, Retry(s.rows[id].taskId, targetId, t0), settings), claim)
    ensures var s1 := Step(s, Retry(s.rows[id].taskId, targetId, t0), settings);
            var s2 := Step(s1, claim, settings);
            var s3 := Step(s2, Fail(id, error, t2), settings);
            Enabled(s2, Fail(id, error, t2)) && s3.rows[id].status == Dead && s3.rows[id].nextAttemptAt == None
  {
    hide Enabled;
    assert RowInv(s.rows[id], s.ledger[id]);
    var retry := Retry(s.rows[id].taskId, targetId, t0);
    var s1 := Step(s, retry, settings);
    var r1 := RowAfter(id, s.rows[id], retry, settings);
    assert s1.rows[id] == r1;
    var s2 := Step(s1, claim, settings);
    var r2 := RowAfter(id, r1, claim, settings);
    assert s2.rows[id] == r2 && r2.status == Delivering && r2.attempts >= r2.maxAttempts && r2.attempts >= 1;
    FailIsEnabled(s2, id, error, t2);
  }

  lemma FailIsEnabled(s: State, id: Id, error: string, at: int)
    requires id in s.rows && s.rows[id].status == Delivering && s.rows[id].attempts >= 1
    ensures Enabled(s, Fail(id, error, at))
  {
  }

  // ---------- the repository and the consumer ----------

  /** What running the adapter for a claimed delivery came to. */
  datatype Outcome = Sent(externalId: Option<string>, externalUrl: Option<string>) | AdapterMissing | Raised(error: string)

  /** One delivery of a tick: what came of it, and the clock when it was recorded. */
  datatype Attempt = Attempt(outcome: Outcome, now: int)

  ghost function EventOf(id: Id, a: Attempt): Event {
    match a.outcome
    case Sent(ext, url) => Deliver(id, ext, url, a.now)
    case AdapterMissing => Park(id, a.now)
    case Raised(error) => Fail(id, error, a.now)
  }

  /** The due row with the earliest next attempt. */
  method Earliest(rows: map<Id, Row>, left: set<Id>) returns (id: Id)
    requires left != {} && forall x :: x in left ==> x in rows && rows[x].nextAttemptAt.Some?
    ensures id in left && forall x :: x in left ==> NoLater(rows[id], rows[x])
  {
    id :| id in left;
    var rest := left - {id};
    while rest != {}
      invariant id in left && rest <= left
      invariant forall x :: x in left && x !in rest ==> NoLater(rows[id], rows[x])
      decreases rest
    {
      var x :| x in rest;
      rest := rest - {x};
      if rows[x].nextAttemptAt.value < rows[id].nextAttemptAt.value {
        id := x;
      }
    }
  }

  /** Picked so far: sorted, distinct, due, and none of them later than what is left. */
  ghost predicate Picked(rows: map<Id, Row>, now: int, ids: seq<Id>, left: set<Id>) {
    && (forall x :: x in left ==> x in rows && IsDue(rows[x], now))
    && (forall i :: 0 <= i < |ids| ==> ids[i] in rows && IsDue(rows[ids[i]], now) && ids[i] !in left)
    && (forall i, j :: 0 <= i < j < |ids| ==> ids[i] != ids[j])
    && (forall i, j :: 0 <= i < j < |ids| ==> NoLater(rows[ids[i]], rows[ids[j]]))
    && (forall i, x :: 0 <= i < |ids| && x in left ==> NoLater(rows[ids[i]], rows[x]))
    && (forall x :: x in rows && IsDue(rows[x], now) ==> x in left || x in ids)
  }

  lemma PickOne(rows: map<Id, Row>, now: int, ids: seq<Id>, left: set<Id>, id: Id)
    requires Picked(rows, now, ids, left) && id in left && forall x :: x in left ==> NoLater(rows[id], rows[x])
    ensures Picked(rows, now, ids + [id], left - {id})
  {
    hide IsDue, NoLater;
    var more := ids + [id];
    assert forall x :: x in ids ==> x in more;
    assert id == more[|ids|];
  }

  method SelectDue(rows: map<Id, Row>, now: int, limit: nat) returns (ids: seq<Id>)
    ensures Selected(rows, now, limit, ids)
  {
    hide NoLater;
    ids := [];
    var left := set id | id in rows && IsDue(rows[id], now);
    while |ids| < limit && left != {}
      invariant |ids| <= limit && Picked(rows, now, ids, left)
      decreases left
    {
      var id := Earliest(rows, left);
      PickOne(rows, now, ids, left, id);
      ids := ids + [id];
      left := left - {id};
    }
  }

  lemma ClaimIsEnabled(s: State, now: int, limit: nat, ids: seq<Id>)
    requires Selected(s.rows, now, limit, ids)
    ensures Enabled(s, Claim(now, limit, ids))
    ensures forall i :: 0 <= i < |ids| ==> ids[i] in s.rows
    ensures forall i, j :: 0 <= i < j < |ids| ==> ids[i] != ids[j]
  {
  }

  ghost function ClaimedRows(rows: map<Id, Row>, now: int, ids: seq<Id>): map<Id, Row> {
    map id | id in rows :: if id in ids then Claimed(rows[id], now) else rows[id]
  }

  lemma ClaimedTable(s: State, now: int, limit: nat, ids: seq<Id>, settings: Settings)
    ensures Step(s, Claim(now, limit, ids), settings).rows == ClaimedRows(s.rows, now, ids)
  {
  }

  /** The loop over the selected rows: status and attempt counter, row by row. */
  method MarkClaimed(before: map<Id, Row>, now: int, ids: seq<Id>) returns (rows: map<Id, Row>)
    requires forall i :: 0 <= i < |ids| ==> ids[i] in before
    requires forall i, j :: 0 <= i < j < |ids| ==> ids[i] != ids[j]
    ensures rows == ClaimedRows(before, now, ids)
  {
    rows := before;
    for i := 0 to |ids|
      invariant rows == ClaimedRows(before, now, ids[..i])
    {
      assert ids[i] !in ids[..i] && ids[..i + 1] == ids[..i] + [ids[i]];
      rows := rows[ids[i] := Claimed(rows[ids[i]], now)];
    }
    assert ids[..|ids|] == ids;
  }

  /** What the first `n` deliveries of a tick recorded. */
  ghost function Recorded(ids: seq<Id>, script: seq<Attempt>, n: nat): seq<Event>
    requires n <= |ids| && n <= |script|
  {
    if n == 0 then [] else Recorded(ids, script, n - 1) + [EventOf(ids[n - 1], script[n - 1])]
  }

  lemma RecordedStep(head: seq<Event>, ids: seq<Id>, script: seq<Attempt>, n: nat)
    requires n < |ids| && n < |script|
    ensures head + Recorded(ids, script, n) + [EventOf(ids[n], script[n])] == head + Recorded(ids, script, n + 1)
  {
  }

  /**
   What an attempt leaves in its row: the adapter's answer and no error; or the
   attempt back and the adapter wait; or the error, and the doubled wait or death.
   */
  ghost predicate Tells(before: Row, after: Row, a: Attempt, settings: Settings) {
    && before.(status := after.status, attempts := after.attempts, nextAttemptAt := after.nextAttemptAt,
               lastError := after.lastError, externalId := after.externalId, externalUrl := after.externalUrl,
               updatedAt := a.now) == after
    && match a.outcome
       case Sent(externalId, externalUrl) =>
         && after.status == Delivered && after.lastError == None && after.attempts == before.attempts
         && after.externalId == externalId && after.externalUrl == externalUrl
         && after.nextAttemptAt == before.nextAttemptAt
       case AdapterMissing =>
         && after.status == WaitingAdapter && after.attempts == before.attempts - 1 && after.lastError == before.lastError
         && after.nextAttemptAt == Some(a.now + settings.adapterWait)
         && after.externalId == before.externalId && after.externalUrl == before.externalUrl
       case Raised(error) =>
         var doubled := if before.attempts < 1 then 0 else settings.backoffBase * Pow2(before.attempts - 1);
         && after.attempts == before.attempts && after.lastError.Some?
         && after.lastError.value <= error && |after.lastError.value| == (if |error| < 2000 then |error| else 2000)
         && after.externalId == before.externalId && after.externalUrl == before.externalUrl
         && (after.status == Dead <==> before.attempts >= before.maxAttempts)
         && (after.status == Dead ==> after.nextAttemptAt == None)
         && (after.status != Dead ==>
               after.status == Pending
               && after.nextAttemptAt
                  == Some(a.now + if doubled < settings.backoffCap then doubled else settings.backoffCap))
  }

  lemma RecordTells(row: Row, id: Id, a: Attempt, settings: Settings)
    requires row.attempts >= 1
    ensures Tells(row, RowAfter(id, row, EventOf(id, a), settings), a, settings)
  {
  }

  lemma RetryStep(s: State, taskId: nat, targetId: Option<nat>, now: int, settings: Settings)
    ensures Step(s, Retry(taskId, targetId, now), settings).rows
         == map id | id in s.rows :: if Retries(s.rows[id], taskId, targetId)
              then s.rows[id].(status := Pending, nextAttemptAt := Some(now), updatedAt := now) else s.rows[id]
  {
    hide Retries;
  }

  lemma CreateStep(s: State, id: Id, row: Row, settings: Settings)
    requires s.rows.Keys == s.ledger.Keys && id !in s.rows
    ensures Step(s, Create(id, row), settings) == State(s.rows[id := row], s.ledger[id := Ledger(0, 0, 0, 0)])
  {
    hide IsStuck, Retries;
  }

  class DeliveryRepo {
    var rows: map<Id, Row>
    ghost var ledger: map<Id, Ledger>

    ghost function Abs(): State
      reads this
    {
      State(rows, ledger)
    }

    constructor ()
      ensures Abs() == NOTHING
    {
      rows, ledger := map[], map[];
    }

    method CreateDeliveryAttempt(id: Id, taskId: nat, targetId: Option<nat>, adapter: string, variant: string,
                                 maxAttempts: int, now: int, ghost settings: Settings)
      requires Inv(Abs()) && id !in rows
      modifies this
      ensures Abs() == Step(old(Abs()), Create(id, FreshRow(taskId, targetId, adapter, variant, maxAttempts, now)), settings)
      ensures rows.Keys == old(rows.Keys) + {id} && forall x :: x in old(rows) ==> rows[x] == old(rows)[x]
      ensures rows[id] == Row(taskId, targetId, adapter, variant, Pending, 0, maxAttempts, Some(now), None, None, None, now)
      ensures Inv(Abs())
    {
      ghost var row := FreshRow(taskId, targetId, adapter, variant, maxAttempts, now);
      InvStep(Abs(), Create(id, row), settings);
      CreateStep(Abs(), id, row, settings);
      hide Inv, Step;
      rows := rows[id := FreshRow(taskId, targetId, adapter, variant, maxAttempts, now)];
      ledger := ledger[id := Ledger(0, 0, 0, 0)];
    }

    method ClaimDueDeliveries(now: int, limit: nat, ghost settings: Settings) returns (ids: seq<Id>)
      requires Inv(Abs())
      modifies this
      ensures Enabled(old(Abs()), Claim(now, limit, ids))
      ensures Abs() == Step(old(Abs()), Claim(now, limit, ids), settings)
      ensures Inv(Abs())
    {
      hide Inv, Selected, Step;
      ids := SelectDue(rows, now, limit);
      ClaimIsEnabled(Abs(), now, limit, ids);
      InvStep(Abs(), Claim(now, limit, ids), settings);
      ClaimedTable(Abs(), now, limit, ids, settings);
      rows := MarkClaimed(rows, now, ids);
      ledger := Step(old(Abs()), Claim(now, limit, ids), settings).ledger;
    }

    /** The three records a finished attempt can leave, as `process_one_delivery` chooses them. */
    method ProcessOneDelivery(id: Id, a: Attempt, settings: Settings)
      requires Inv(Abs()) && (id in rows ==> rows[id].status == Delivering)
      modifies this
      ensures id in old(rows) ==> Abs() == Step(old(Abs()), EventOf(id, a), settings) && Enabled(old(Abs()), EventOf(id, a))
      ensures id in old(rows) ==> id in rows && Tells(old(rows)[id], rows[id], a, settings)
      ensures id !in old(rows) ==> Abs() == old(Abs())
      ensures Inv(Abs())
    {
      if id !in rows {
        return;
      }
      ghost var e := EventOf(id, a);
      assert RowInv(rows[id], ledger[id]);
      InvStep(Abs(), e, settings);
      OneRowChanges(Abs(), id, a, settings);
      RecordTells(rows[id], id, a, settings);
      hide Inv, Step, Tells;
      match a.outcome {
        case Sent(ext, url) =>
          rows := rows[id := Done(rows[id], ext, url, a.now)];
        case AdapterMissing =>
          rows := rows[id := Parked(rows[id], settings, a.now)];
        case Raised(error) =>
          rows := rows[id := Failed(rows[id], error, settings, a.now)];
      }
      ledger := Step(old(Abs()), e, settings).ledger;
    }

    method ReapStuckDeliveries(olderThan: int, now: int, ghost settings: Settings)
      requires Inv(Abs())
      modifies this
      ensures Abs() == Step(old(Abs()), Reap(olderThan, now), settings)
      ensures Inv(Abs())
    {
      InvStep(Abs(), Reap(olderThan, now), settings);
      rows := map id | id in rows ::
          if IsStuck(rows[id], olderThan) then rows[id].(status := Pending, updatedAt := now) else rows[id];
      ledger := Step(old(Abs()), Reap(olderThan, now), settings).ledger;
    }

    method ResetDeliveryForRetry(taskId: nat, targetId: Option<nat>, now: int, ghost settings: Settings)
      requires Inv(Abs())
      modifies this
      ensures Abs() == Step(old(Abs()), Retry(taskId, targetId, now), settings)
      ensures Inv(Abs())
    {
      InvStep(Abs(), Retry(taskId, targetId, now), settings);
      RetryStep(Abs(), taskId, targetId, now, settings);
      hide Inv, Step, Retries;
      rows := map id | id in rows ::
        if Retries(rows[id], taskId, targetId)
        then rows[id].(status := Pending, nextAttemptAt := Some(now), updatedAt := now) else rows[id];
      ledger := Step(old(Abs()), Retry(taskId, targetId, now), settings).ledger;
    }

    /**
     One tick: reap, claim a batch, process it. The worker dies when `script` runs
     out; the rows it had claimed and not processed stay `delivering`.
     */
    method DeliveryTick(now: int, settings: Settings, script: seq<Attempt>) returns (ids: seq<Id>, ghost events: seq<Event>)
      requires Inv(Abs())
      modifies this
      ensures Inv(Abs())
      ensures Possible(old(Abs()), events, settings) && Abs() == Run(old(Abs()), events, settings)
      ensures events == [Reap(now - settings.stuckAfter, now), Claim(now, settings.claimBatch, ids)]
                        + Recorded(ids, script, if |script| < |ids| then |script| else |ids|)
      ensures forall i :: |script| <= i < |ids| ==> ids[i] in rows && rows[ids[i]].status == Delivering
    {
      hide Inv, Step, Possible, Run, Enabled, EventOf, Tells;
      ghost var s0 := Abs();
      ghost var reap := Reap(now - settings.stuckAfter, now);
      RunNone(s0, settings);
      RunSnoc(s0, [], reap, settings);
      ReapStuckDeliveries(now - settings.stuckAfter, now, settings);
      ids := ClaimDueDeliveries(now, settings.claimBatch, settings);
      ghost var claim := Claim(now, settings.claimBatch, ids);
      assert [] + [reap] == [reap] && [reap] + [claim] == [reap, claim];
      RunSnoc(s0, [reap], claim, settings);
      ClaimLeavesDelivering(Run(s0, [reap], settings), claim, settings);
      events := [reap, claim];
      var i := 0;
      while i < |ids| && i < |script|
        invariant 0 <= i <= |ids| && i <= |script|
        invariant Inv(Abs()) && Possible(s0, events, settings) && Abs() == Run(s0, events, settings)
        invariant events == [reap, claim] + Recorded(ids, script, i)
        invariant forall j :: i <= j < |ids| ==> ids[j] in rows && rows[ids[j]].status == Delivering
      {
        ghost var before := Abs();
        ProcessOneDelivery(ids[i], script[i], settings);
        RunSnoc(s0, events, EventOf(ids[i], script[i]), settings);
        forall j | i < j < |ids| ensures ids[j] in rows && rows[ids[j]].status == Delivering {
          OthersKeepTheirRow(before, ids[i], script[i], ids[j], settings);
        }
        RecordedStep([reap, claim], ids, script, i);
        events := events + [EventOf(ids[i], script[i])];
        i := i + 1;
      }
    }
  }

  lemma ClaimLeavesDelivering(s: State, claim: Event, settings: Settings)
    requires claim.Claim? && Enabled(s, claim)
    ensures forall i :: 0 <= i < |claim.ids| ==>
              claim.ids[i] in Step(s, claim, settings).rows && Step(s, claim, settings).rows[claim.ids[i]].status == Delivering
    ensures forall i, j :: 0 <= i < j < |claim.ids| ==> claim.ids[i] != claim.ids[j]
  {
  }

  lemma OneRowChanges(s: State, id: Id, a: Attempt, settings: Settings)
    requires id in s.rows
    ensures Step(s, EventOf(id, a), settings).rows == s.rows[id := RowAfter(id, s.rows[id], EventOf(id, a), settings)]
  {
    hide Done, Failed, Parked;
  }

  lemma OthersKeepTheirRow(s: State, id: Id, a: Attempt, other: Id, settings: Settings)
    requires id != other && other in s.rows
    ensures other in Step(s, EventOf(id, a), settings).rows
    ensures Step(s, EventOf(id, a), settings).rows[other] == s.rows[other]
  {
  }

  lemma RunNone(s: State, settings: Settings)
    ensures Run(s, [], settings) == s && Possible(s, [], settings)
  {
  }

  lemma RunSnoc(s: State, events: seq<Event>, e: Event, settings: Settings)
    requires Possible(s, events, settings) && Enabled(Run(s, events, settings), e)
    ensures Possible(s, events + [e], settings)
    ensures Run(s, events + [e], settings) == Step(Run(s, events, settings), e, settings)
  {
    var all := events + [e];
    assert all[..|all| - 1] == events;
  }
}
