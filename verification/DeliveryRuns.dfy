/**
 What a delivery row goes through over whole runs: how long it waits after a
 failure or without its adapter, what is written in it, and what never changes.
 */
module DeliveryRuns {
  import opened Wrappers
  import opened Delivery

  /** The event hands the row out to a worker. */
  ghost predicate HandsOut(e: Event, id: Id) {
    e.Claim? && id in e.ids
  }

  ghost predicate NeverHandedOut(events: seq<Event>, id: Id) {
    forall i :: 0 <= i < |events| ==> !HandsOut(events[i], id)
  }

  /** The first `2000` characters of an error, or all of it. */
  ghost predicate IsClipped(kept: string, error: string) {
    kept <= error && (|kept| == 2000 || kept == error) && |kept| <= 2000
  }

  /** The time a row waits after its n-th attempt failed: the base, doubled n - 1 times, up to the cap. */
  ghost function Wait(n: int, settings: Settings): int
    requires n >= 1
  {
    var doubled := settings.backoffBase * Pow2(n - 1);
    if doubled <= settings.backoffCap then doubled else settings.backoffCap
  }

  // ---------- one event and one row ----------

  /** A row that waits for its time is changed by nothing but a claim at that time or later. */
  lemma WaitingStep(s: State, e: Event, settings: Settings, id: Id)
    requires Enabled(s, e) && id in s.rows && IsClaimable(s.rows[id].status) && s.rows[id].nextAttemptAt.Some?
    ensures HandsOut(e, id) ==> s.rows[id].nextAttemptAt.value <= e.claimedAt
    ensures !HandsOut(e, id) ==> id in Step(s, e, settings).rows && Step(s, e, settings).rows[id] == s.rows[id]
  {
    if HandsOut(e, id) {
      var i :| 0 <= i < |e.ids| && e.ids[i] == id;
      assert IsDue(s.rows[id], e.claimedAt);
    }
  }

  lemma {:induction false} WaitingStays(s: State, events: seq<Event>, settings: Settings, id: Id)
    requires Possible(s, events, settings) && NeverHandedOut(events, id)
    requires id in s.rows && IsClaimable(s.rows[id].status) && s.rows[id].nextAttemptAt.Some?
    ensures id in Run(s, events, settings).rows && Run(s, events, settings).rows[id] == s.rows[id]
    decreases |events|
  {
    hide Step, Enabled, IsClaimable, HandsOut;
    if events != [] {
      var before := events[..|events| - 1];
      assert forall i :: 0 <= i < |before| ==> before[i] == events[i];
      WaitingStays(s, before, settings, id);
      assert !HandsOut(events[|events| - 1], id);
      WaitingStep(Run(s, before, settings), events[|events| - 1], settings, id);
    }
  }

  /**
   However the run goes on, until the row is next handed out: it waits with this
   status, is due from `from` on and not before, and whoever is handed it next is
   handed it at that time or later.
   */
  ghost predicate WaitsUntil(s: State, settings: Settings, id: Id, status: Status, from: int) {
    forall events, next, now :: Possible(s, events, settings) && NeverHandedOut(events, id) ==>
      WaitsFor(Run(s, events, settings), next, now, id, status, from)
  }

  ghost predicate WaitsFor(t: State, next: Event, now: int, id: Id, status: Status, from: int) {
    && id in t.rows && t.rows[id].status == status
    && (IsDue(t.rows[id], now) <==> from <= now)
    && (Enabled(t, next) && HandsOut(next, id) ==> from <= next.claimedAt)
  }

  lemma Waiting(s: State, settings: Settings, id: Id)
    requires id in s.rows && IsClaimable(s.rows[id].status) && s.rows[id].nextAttemptAt.Some?
    ensures WaitsUntil(s, settings, id, s.rows[id].status, s.rows[id].nextAttemptAt.value)
  {
    hide Possible, Run, Step, Enabled, HandsOut, NeverHandedOut;
    forall events, next, now | Possible(s, events, settings) && NeverHandedOut(events, id)
      ensures WaitsFor(Run(s, events, settings), next, now, id, s.rows[id].status, s.rows[id].nextAttemptAt.value)
    {
      WaitingStays(s, events, settings, id);
      if Enabled(Run(s, events, settings), next) {
        WaitingStep(Run(s, events, settings), next, settings, id);
      }
    }
  }

  // ---------- after an attempt ----------

  lemma WorkedRow(history: seq<Event>, settings: Settings, e: Event)
    requires Possible(NOTHING, history, settings) && (e.Fail? || e.Park?) && Enabled(Run(NOTHING, history, settings), e)
    ensures var s := Run(NOTHING, history, settings);
            && e.id in s.rows && s.rows[e.id].attempts >= 1
            && e.id in Step(s, e, settings).rows
            && Step(s, e, settings).rows[e.id] == RowAfter(e.id, s.rows[e.id], e, settings)
  {
    hide RowAfter;
    EveryRunKeepsTheBooks(history, settings);
    var s := Run(NOTHING, history, settings);
    assert RowInv(s.rows[e.id], s.ledger[e.id]);
  }

  /** A failure with attempts left: the row is due again after the doubled wait, never earlier, and shows the error. */
  lemma FailureWaitsItsBackoff(history: seq<Event>, settings: Settings, id: Id, error: string, at: int)
    requires Possible(NOTHING, history, settings)
    requires var s := Run(NOTHING, history, settings);
             Enabled(s, Fail(id, error, at)) && s.rows[id].attempts < s.rows[id].maxAttempts
    ensures var s := Run(NOTHING, history, settings);
            var t := Step(s, Fail(id, error, at), settings);
            && s.rows[id].attempts >= 1 && id in t.rows && t.rows[id].attempts == s.rows[id].attempts
            && t.rows[id].lastError.Some? && IsClipped(t.rows[id].lastError.value, error)
            && WaitsUntil(t, settings, id, Pending, at + Wait(s.rows[id].attempts, settings))
  {
    hide Possible, Run, Step, Enabled, WaitsUntil;
    WorkedRow(history, settings, Fail(id, error, at));
    Waiting(Step(Run(NOTHING, history, settings), Fail(id, error, at), settings), settings, id);
  }

  /** A failure at the last attempt: the row is dead, shows the error and is due at no time. */
  lemma LastFailureKills(history: seq<Event>, settings: Settings, id: Id, error: string, at: int)
    requires Possible(NOTHING, history, settings)
    requires var s := Run(NOTHING, history, settings);
             Enabled(s, Fail(id, error, at)) && s.rows[id].attempts >= s.rows[id].maxAttempts
    ensures var t := Step(Run(NOTHING, history, settings), Fail(id, error, at), settings);
            && id in t.rows && t.rows[id].status == Dead && t.rows[id].nextAttemptAt == None
            && t.rows[id].lastError.Some? && IsClipped(t.rows[id].lastError.value, error)
            && forall now :: !IsDue(t.rows[id], now)
  {
    hide Possible, Run, Step, Enabled;
    WorkedRow(history, settings, Fail(id, error, at));
  }

  /** Without its adapter a row gets its attempt back and is due again after the adapter wait, never earlier. */
  lemma ParkWaitsForTheAdapter(history: seq<Event>, settings: Settings, id: Id, at: int)
    requires Possible(NOTHING, history, settings) && Enabled(Run(NOTHING, history, settings), Park(id, at))
    ensures var s := Run(NOTHING, history, settings);
            var t := Step(s, Park(id, at), settings);
            && id in t.rows && t.rows[id].attempts == s.rows[id].attempts - 1 && t.rows[id].lastError == s.rows[id].lastError
            && WaitsUntil(t, settings, id, WaitingAdapter, at + settings.adapterWait)
  {
    hide Possible, Run, Step, Enabled, WaitsUntil;
    WorkedRow(history, settings, Park(id, at));
    Waiting(Step(Run(NOTHING, history, settings), Park(id, at), settings), settings, id);
  }

  /** A sent delivery keeps what the adapter returned, and no error, through every later event. */
  lemma SentIsRecorded(s: State, settings: Settings, id: Id, externalId: Option<string>, externalUrl: Option<string>, at: int,
                       after: seq<Event>)
    requires Enabled(s, Deliver(id, externalId, externalUrl, at))
    requires Possible(Step(s, Deliver(id, externalId, externalUrl, at), settings), after, settings)
    ensures var t := Run(Step(s, Deliver(id, externalId, externalUrl, at), settings), after, settings);
            && id in t.rows && t.rows[id].status == Delivered && t.rows[id].lastError == None
            && t.rows[id].externalId == externalId && t.rows[id].externalUrl == externalUrl
            && t.rows[id].attempts == s.rows[id].attempts
  {
    hide Possible, Run;
    DeliveredIsFinal(Step(s, Deliver(id, externalId, externalUrl, at), settings), after, settings, id);
  }

  // ---------- what no run changes ----------

  /** What a row is about: whose result goes where, how, and how often it may be tried. */
  ghost function Identity(row: Row): (nat, Option<nat>, string, string, int) {
    (row.taskId, row.targetId, row.adapter, row.variant, row.maxAttempts)
  }

  /** No run loses a row or changes what it is about. */
  lemma {:induction false} IdentityIsFixed(s: State, events: seq<Event>, settings: Settings, id: Id)
    requires id in s.rows && Possible(s, events, settings)
    ensures id in Run(s, events, settings).rows && Identity(Run(s, events, settings).rows[id]) == Identity(s.rows[id])
    decreases |events|
  {
    if events != [] {
      var before := events[..|events| - 1];
      IdentityIsFixed(s, before, settings, id);
      hide Enabled, Possible, Run, Step;
      StepKeepsIdentity(Run(s, before, settings), events[|events| - 1], settings, id);
    }
  }

  lemma StepKeepsIdentity(s: State, e: Event, settings: Settings, id: Id)
    requires id in s.rows && Enabled(s, e)
    ensures id in Step(s, e, settings).rows && Identity(Step(s, e, settings).rows[id]) == Identity(s.rows[id])
  {
    RowKeepsIdentity(id, s.rows[id], e, settings);
    hide RowAfter, Identity;
  }

  lemma RowKeepsIdentity(id: Id, row: Row, e: Event, settings: Settings)
    ensures Identity(RowAfter(id, row, e, settings)) == Identity(row)
  {
    hide BackoffSeconds;
  }

  /** The event is about this row. */
  ghost predicate Concerns(e: Event, id: Id, row: Row) {
    match e
    case Create(x, _) => x == id
    case Claim(_, _, ids) => id in ids
    case Deliver(x, _, _, _) => x == id
    case Fail(x, _, _) => x == id
    case Park(x, _) => x == id
    case Reap(olderThan, _) => row.status == Delivering && row.updatedAt < olderThan
    case Retry(taskId, targetId, _) =>
      row.taskId == taskId && row.status == Dead && (targetId == None || row.targetId == targetId)
  }

  /** An event leaves every row alone that it is not about. */
  lemma OthersAreLeftAlone(s: State, e: Event, settings: Settings, id: Id)
    requires id in s.rows && Enabled(s, e) && !Concerns(e, id, s.rows[id])
    ensures id in Step(s, e, settings).rows && Step(s, e, settings).rows[id] == s.rows[id]
  {
  }

  /** A row handed out is charged an attempt and counts from the moment of the claim as in work. */
  lemma ClaimTakes(s: State, e: Event, settings: Settings, id: Id)
    requires id in s.rows && HandsOut(e, id)
    ensures var before, after := s.rows[id], Step(s, e, settings).rows[id];
            && id in Step(s, e, settings).rows && after.status == Delivering && after.attempts == before.attempts + 1
            && after.updatedAt == e.claimedAt && after.nextAttemptAt == before.nextAttemptAt
            && Identity(after) == Identity(before) && after.lastError == before.lastError
            && after.externalId == before.externalId && after.externalUrl == before.externalUrl
  {
  }

  /** A stuck row and a retried one come back as they were, but for the status; only a retry sets a new time. */
  lemma ComesBack(s: State, e: Event, settings: Settings, id: Id)
    requires id in s.rows && (e.Reap? || e.Retry?) && Concerns(e, id, s.rows[id])
    ensures var before, after := s.rows[id], Step(s, e, settings).rows[id];
            && id in Step(s, e, settings).rows && after.status == Pending && after.updatedAt == e.at
            && after.nextAttemptAt == (if e.Retry? then Some(e.at) else before.nextAttemptAt)
            && Identity(after) == Identity(before) && after.attempts == before.attempts && after.lastError == before.lastError
            && after.externalId == before.externalId && after.externalUrl == before.externalUrl
  {
  }
}
