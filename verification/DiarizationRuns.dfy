/**
 What the callers of the diarization sidecar are answered over whole runs: a
 result that was computed comes out of the next collection, a failure with its
 message, a cancellation reaches the computation, progress reaches the stream.
 */
module DiarizationRuns {
  import opened Wrappers
  import opened Diarization

  // ---------- from the end of a computation to the answer ----------

  /** A collection of the job, or a reap that finds it untouched for longer than a finished job is kept. */
  ghost predicate TakesAway(s: State, e: Event, id: string) {
    e == Collect(id) || (e.Reap? && id in s.jobs && e.now - s.jobs[id].touchedAt > e.keepTtl)
  }

  /** No event of the run takes the finished job away, and none asks for it anew if asking would start it again. */
  ghost predicate LeftAlone(s: State, events: seq<Event>, id: string, posts: bool) {
    events == [] ||
    var before, e := events[..|events| - 1], events[|events| - 1];
    LeftAlone(s, before, id, posts) && !TakesAway(Run(s, before), e, id) && (e.Post? && e.id == id ==> posts)
  }

  /** The finished job as a caller will find it. */
  ghost predicate HoldsResult(s: State, id: string, result: Outcome) {
    id in s.jobs && s.jobs[id].status == Done && s.jobs[id].result == Some(result)
  }

  ghost predicate HoldsFailure(s: State, id: string, error: string) {
    id in s.jobs && s.jobs[id].status == Failed && s.jobs[id].error == Some(error)
  }

  lemma ResultStep(s: State, e: Event, id: string, result: Outcome)
    requires Inv(s) && Enabled(s, e) && HoldsResult(s, id, result) && !TakesAway(s, e, id)
    ensures HoldsResult(Step(s, e).0, id, result)
  {
    StatusIsListed(s, id);
    if e.Finish? {
      InvFinish(s, e.serial, e.id, e.ending, e.now);
    }
  }

  lemma FailureStep(s: State, e: Event, id: string, error: string)
    requires Inv(s) && Enabled(s, e) && HoldsFailure(s, id, error) && !TakesAway(s, e, id) && !(e.Post? && e.id == id)
    ensures HoldsFailure(Step(s, e).0, id, error)
  {
    StatusIsListed(s, id);
    if e.Finish? {
      InvFinish(s, e.serial, e.id, e.ending, e.now);
    }
  }

  lemma {:induction false} ResultStays(s: State, events: seq<Event>, id: string, result: Outcome)
    requires Inv(s) && Possible(s, events) && HoldsResult(s, id, result) && LeftAlone(s, events, id, true)
    ensures Inv(Run(s, events)) && HoldsResult(Run(s, events), id, result)
    decreases |events|
  {
    hide Step, Enabled, Inv, TakesAway, HoldsResult;
    if events != [] {
      var before := events[..|events| - 1];
      ResultStays(s, before, id, result);
      InvStep(Run(s, before), events[|events| - 1]);
      ResultStep(Run(s, before), events[|events| - 1], id, result);
    }
  }

  lemma {:induction false} FailureStays(s: State, events: seq<Event>, id: string, error: string)
    requires Inv(s) && Possible(s, events) && HoldsFailure(s, id, error) && LeftAlone(s, events, id, false)
    ensures Inv(Run(s, events)) && HoldsFailure(Run(s, events), id, error)
    decreases |events|
  {
    hide Step, Enabled, Inv, TakesAway, HoldsFailure;
    if events != [] {
      var before := events[..|events| - 1];
      FailureStays(s, before, id, error);
      InvStep(Run(s, before), events[|events| - 1]);
      FailureStep(Run(s, before), events[|events| - 1], id, error);
    }
  }

  lemma Finishes(s: State, e: Event)
    requires Inv(s) && e.Finish? && Enabled(s, e)
    ensures Inv(Step(s, e).0)
    ensures e.ending.Computed? ==> HoldsResult(Step(s, e).0, e.id, e.ending.result)
    ensures e.ending.Crashed? ==> HoldsFailure(Step(s, e).0, e.id, e.ending.error)
    ensures e.ending.Unwound? ==> e.id !in Step(s, e).0.jobs
  {
    InvStep(s, e);
    InvFinish(s, e.serial, e.id, e.ending, e.now);
  }

  /**
   Whatever happened before: once a computation has ended with a result, and
   however the run goes on without taking the job away, the next collection is
   answered with that very result, a renewed request learns that it is done, and
   after the collection the job is unknown.
   */
  lemma ResultReachesTheCaller(history: seq<Event>, serial: nat, id: string, result: Outcome, at: int, after: seq<Event>,
                               now: int)
    requires Possible(EMPTY, history)
    requires var s, end := Run(EMPTY, history), Finish(serial, id, Computed(result), at);
             Enabled(s, end) && Possible(Step(s, end).0, after) && LeftAlone(Step(s, end).0, after, id, true)
    ensures var t := Run(Step(Run(EMPTY, history), Finish(serial, id, Computed(result), at)).0, after);
            && Step(t, Collect(id)).1 == Result(Some(result))
            && Step(Step(t, Collect(id)).0, Collect(id)).1 == NotFound
            && Step(t, Post(id, now)).1 == AlreadyDone
            && (exists n :: Step(t, Poll(id, now)).1 == Progress(Done, n, None))
  {
    hide Enabled, Inv, TakesAway;
    OneComputationPerId(history);
    var s, end := Run(EMPTY, history), Finish(serial, id, Computed(result), at);
    Finishes(s, end);
    ResultStays(Step(s, end).0, after, id, result);
    var t := Run(Step(s, end).0, after);
    assert Step(t, Poll(id, now)).1 == Progress(Done, t.jobs[id].progress, None);
  }

  /**
   A failure reaches whoever asks next, with its message: a collection reports it,
   a renewed request is told why it starts over, the progress stream ends with it.
   */
  lemma FailureReachesTheCaller(history: seq<Event>, serial: nat, id: string, error: string, at: int, after: seq<Event>,
                                now: int)
    requires Possible(EMPTY, history)
    requires var s, end := Run(EMPTY, history), Finish(serial, id, Crashed(error), at);
             Enabled(s, end) && Possible(Step(s, end).0, after) && LeftAlone(Step(s, end).0, after, id, false)
    ensures var t := Run(Step(Run(EMPTY, history), Finish(serial, id, Crashed(error), at)).0, after);
            && Step(t, Collect(id)).1 == FailureReport(Some(error))
            && Step(Step(t, Collect(id)).0, Collect(id)).1 == NotFound
            && Step(t, Post(id, now)).1 == RetriedAfterError(Some(error))
            && (exists n :: Step(t, Poll(id, now)).1 == Progress(Failed, n, Some(error)))
  {
    hide Enabled, Inv, TakesAway;
    OneComputationPerId(history);
    var s, end := Run(EMPTY, history), Finish(serial, id, Crashed(error), at);
    Finishes(s, end);
    FailureStays(Step(s, end).0, after, id, error);
    var t := Run(Step(s, end).0, after);
    assert Step(t, Poll(id, now)).1 == Progress(Failed, t.jobs[id].progress, Some(error));
  }

  /** A computation that ends counts as a touch: its job outlives every reap within the TTL from then on. */
  lemma EndingKeepsAlive(history: seq<Event>, e: Event, now: int, runTtl: int, keepTtl: int)
    requires Possible(EMPTY, history) && e.Finish? && Enabled(Run(EMPTY, history), e) && !e.ending.Unwound?
    ensures var t := Step(Run(EMPTY, history), e).0;
            && e.id in t.jobs && t.jobs[e.id].touchedAt == e.now
            && (e.id in Step(t, Reap(now, runTtl, keepTtl)).0.jobs <==> now - e.now <= keepTtl)
  {
    hide Enabled, Inv, IdleTooLong;
    OneComputationPerId(history);
    var t := Step(Run(EMPTY, history), e).0;
    Finishes(Run(EMPTY, history), e);
    ReaperSparesTheLiving(t, now, runTtl, keepTtl, e.id);
  }

  /** While the computation goes on nobody is handed anything; once unwound the job is unknown. */
  lemma RunningIsNotHandedOut(history: seq<Event>, serial: nat, id: string, at: int, now: int)
    requires Possible(EMPTY, history) && (serial, id) in Run(EMPTY, history).running
    ensures var s := Run(EMPTY, history);
            && Step(s, Collect(id)) == (s, StillRunning) && Step(s, Post(id, now)).1 == Attached
            && (exists n :: Step(s, Poll(id, now)).1 == Progress(Running, n, None))
    ensures var s, end := Run(EMPTY, history), Finish(serial, id, Unwound, at);
            Enabled(s, end) ==> Step(Step(s, end).0, Collect(id)).1 == NotFound && Step(Step(s, end).0, Poll(id, now)).1 == Gone
  {
    var s := RunningJob(history, serial, id);
    hide Inv, Run, Possible;
    if Enabled(s, Finish(serial, id, Unwound, at)) {
      UnwoundIsGone(s, serial, id, at, now);
    }
    assert Step(s, Poll(id, now)).1 == Progress(Running, s.jobs[id].progress, None);
  }

  lemma RunningJob(history: seq<Event>, serial: nat, id: string) returns (s: State)
    requires Possible(EMPTY, history) && (serial, id) in Run(EMPTY, history).running
    ensures s == Run(EMPTY, history) && Inv(s)
    ensures id in s.jobs && s.jobs[id].status == Running && s.jobs[id].serial == serial
  {
    OneComputationPerId(history);
    s := Run(EMPTY, history);
    assert (serial, id).1 in s.jobs;
    StatusIsListed(s, id);
  }

  lemma UnwoundIsGone(s: State, serial: nat, id: string, at: int, now: int)
    requires Inv(s) && id in s.jobs && Enabled(s, Finish(serial, id, Unwound, at))
    ensures var t := Step(s, Finish(serial, id, Unwound, at)).0;
            Step(t, Collect(id)).1 == NotFound && Step(t, Poll(id, now)).1 == Gone
  {
    hide Inv;
  }

  /** A request for an unknown job starts a computation of its own, shown at once as running with no progress. */
  lemma RequestStarts(history: seq<Event>, id: string, now: int, later: int)
    requires Possible(EMPTY, history) && id !in Run(EMPTY, history).jobs
    ensures var s := Run(EMPTY, history);
            var (t, response) := Step(s, Post(id, now));
            && response == Started && (s.next, id) !in s.running && t.running == s.running + {(s.next, id)}
            && Step(t, Poll(id, later)).1 == Progress(Running, 0, None)
  {
    OneComputationPerId(history);
    var s := Run(EMPTY, history);
    assert forall r :: r in s.running ==> r.1 != id;
  }

  // ---------- cancelling and progress ----------

  /** If this computation still goes on, its job is flagged. */
  ghost predicate Flagged(s: State, serial: nat, id: string) {
    serial < s.next && ((serial, id) in s.running && id in s.jobs ==> s.jobs[id].cancel)
  }

  lemma FlaggedStep(s: State, e: Event, serial: nat, id: string)
    requires Inv(s) && Enabled(s, e) && Flagged(s, serial, id)
    ensures Flagged(Step(s, e).0, serial, id)
  {
    if id in s.jobs {
      StatusIsListed(s, id);
    }
    if (serial, id) in s.running {
      assert (serial, id).1 in s.jobs;
    }
    if e.Finish? {
      InvFinish(s, e.serial, e.id, e.ending, e.now);
    }
  }

  lemma {:induction false} FlaggedStays(s: State, events: seq<Event>, serial: nat, id: string)
    requires Inv(s) && Possible(s, events) && Flagged(s, serial, id)
    ensures Inv(Run(s, events)) && Flagged(Run(s, events), serial, id)
    decreases |events|
  {
    hide Step, Enabled, Inv, Flagged;
    if events != [] {
      var before := events[..|events| - 1];
      FlaggedStays(s, before, serial, id);
      InvStep(Run(s, before), events[|events| - 1]);
      FlaggedStep(Run(s, before), events[|events| - 1], serial, id);
    }
  }

  /** A cancelled computation hears of it at every later hook call, whatever else happened since. */
  lemma CancelReachesTheComputation(history: seq<Event>, serial: nat, id: string, after: seq<Event>, now: int, completed: nat)
    requires Possible(EMPTY, history) && (serial, id) in Run(EMPTY, history).running
    requires var s := Step(Run(EMPTY, history), Cancel(id)).0;
             Possible(s, after) && (serial, id) in Run(s, after).running
    ensures var s := Run(EMPTY, history);
            && Step(s, Cancel(id)).1 == Cancelling
            && Step(Run(Step(s, Cancel(id)).0, after), Hook(serial, id, now, completed)).1 == HookRaises
  {
    OneComputationPerId(history);
    var s := Run(EMPTY, history);
    assert (serial, id).1 in s.jobs;
    StatusIsListed(s, id);
    InvStep(s, Cancel(id));
    assert Inv(s) && s.jobs[id].serial == serial && JobInv(s, id);
    FlaggedStays(Step(s, Cancel(id)).0, after, serial, id);
    var t := Run(Step(s, Cancel(id)).0, after);
    assert (serial, id).1 in t.jobs;
  }

  /** An unflagged computation goes on, and the progress it reports is what the stream shows next. */
  lemma ProgressReachesTheStream(history: seq<Event>, serial: nat, id: string, now: int, completed: nat, later: int)
    requires Possible(EMPTY, history) && (serial, id) in Run(EMPTY, history).running
    ensures var s := Run(EMPTY, history);
            var (t, response) := Step(s, Hook(serial, id, now, completed));
            && id in s.jobs && (response == HookRaises <==> s.jobs[id].cancel)
            && (response != HookRaises ==> Step(t, Poll(id, later)).1 == Progress(Running, completed, None))
  {
    OneComputationPerId(history);
    var s := Run(EMPTY, history);
    assert (serial, id).1 in s.jobs;
    StatusIsListed(s, id);
  }

  /** A request, a look at the stream or a hook call at this time. */
  ghost predicate Touches(e: Event, id: string, now: int) {
    match e
    case Post(x, t) => x == id && t == now
    case Poll(x, t) => x == id && t == now
    case Hook(_, x, t, _) => x == id && t == now
    case _ => false
  }

  /** A job that was touched outlives every reap within its TTL, and is not flagged by it. */
  lemma TouchKeepsAlive(s: State, e: Event, id: string, touched: int, now: int, runTtl: int, keepTtl: int)
    requires Inv(s) && id in s.jobs && Touches(e, id, touched) && !(e.Hook? && s.jobs[id].cancel)
    requires now - touched <= runTtl && now - touched <= keepTtl
    ensures var t := Step(s, e).0;
            var after := Step(t, Reap(now, runTtl, keepTtl)).0;
            id in t.jobs && id in after.jobs && after.jobs[id] == t.jobs[id] && t.jobs[id].touchedAt == touched
  {
    ReaperSparesTheLiving(Step(s, e).0, now, runTtl, keepTtl, id);
  }
}
