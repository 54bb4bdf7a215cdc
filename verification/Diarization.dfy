/**
 The diarization sidecar's job table: jobs are addressed by the caller's id,
 outlive the caller, can be re-attached to, cancelled, collected and evicted.
 `Step` is the protocol on values; `Server` is the code over mutable job
 records, proved equal to it.
 */
module Diarization {
  import opened Wrappers

  type Outcome = string

  datatype Status = Running | Done | Failed

  /** A job record; `serial` tells one computation from the next under the same id. */
  datatype JobValue = JobValue(serial: nat, status: Status, cancel: bool, touchedAt: int, progress: nat,
                               result: Option<Outcome>, error: Option<string>)

  /** The table, the computations still going on (serial and id), and the next serial. */
  datatype State = State(jobs: map<string, JobValue>, running: set<(nat, string)>, next: nat)

  datatype Ending = Computed(result: Outcome) | Unwound | Crashed(error: string)

  datatype Event =
    | Post(id: string, now: int)
    | Hook(serial: nat, id: string, now: int, completed: nat)
    | Finish(serial: nat, id: string, ending: Ending, now: int)
    | Collect(id: string)
    | Cancel(id: string)
    | Poll(id: string, now: int)
    | Reap(now: int, runTtl: int, keepTtl: int)

  datatype Response =
    | NotFound | StillRunning | Cancelling | Quiet
    | Attached | Started | AlreadyDone | RetriedAfterError(reason: Option<string>)
    | Result(result: Option<Outcome>) | FailureReport(error: Option<string>)
    | HookRaises
    | Progress(state: Status, completed: nat, error: Option<string>) | Gone

  function NewJob(serial: nat, now: int): JobValue {
    JobValue(serial, Running, false, now, 0, None, None)
  }

  function Launch(s: State, id: string, now: int): State {
    State(s.jobs[id := NewJob(s.next, now)], s.running + {(s.next, id)}, s.next + 1)
  }

  function PostStep(s: State, id: string, now: int): (State, Response) {
    if id !in s.jobs then (Launch(s, id, now), Started)
    else
      var job := s.jobs[id].(touchedAt := now);
      match job.status
      case Running => (s.(jobs := s.jobs[id := job]), Attached)
      case Done => (s.(jobs := s.jobs[id := job]), AlreadyDone)
      case Failed => (Launch(s, id, now), RetriedAfterError(job.error))
  }

  /** The record of a computation that has ended. */
  function Closed(job: JobValue, ending: Ending, now: int): JobValue {
    match ending
    case Computed(r) => job.(status := Done, result := Some(r), touchedAt := now)
    case Unwound => job.(touchedAt := now)
    case Crashed(e) => job.(status := Failed, error := Some(e), touchedAt := now)
  }

  function Ended(jobs: map<string, JobValue>, id: string, ending: Ending, now: int): map<string, JobValue>
    requires id in jobs
  {
    if ending == Unwound then jobs - {id} else jobs[id := Closed(jobs[id], ending, now)]
  }

  function FinishStep(s: State, serial: nat, id: string, ending: Ending, now: int): State
    requires id in s.jobs
  {
    s.(jobs := Ended(s.jobs, id, ending, now), running := s.running - {(serial, id)})
  }

  function CollectStep(s: State, id: string): (State, Response) {
    if id !in s.jobs then (s, NotFound)
    else
      match s.jobs[id].status
      case Running => (s, StillRunning)
      case Failed => (s.(jobs := s.jobs - {id}), FailureReport(s.jobs[id].error))
      case Done => (s.(jobs := s.jobs - {id}), Result(s.jobs[id].result))
  }

  predicate IdleTooLong(job: JobValue, now: int, runTtl: int, keepTtl: int) {
    now - job.touchedAt > (if job.status == Running then runTtl else keepTtl)
  }

  function Reaped(jobs: map<string, JobValue>, now: int, runTtl: int, keepTtl: int): map<string, JobValue> {
    map id | id in jobs && (jobs[id].status == Running || !IdleTooLong(jobs[id], now, runTtl, keepTtl)) ::
      if IdleTooLong(jobs[id], now, runTtl, keepTtl) then jobs[id].(cancel := true) else jobs[id]
  }

  function HookStep(s: State, id: string, now: int, completed: nat): (State, Response) {
    if id !in s.jobs then (s, Quiet)
    else if s.jobs[id].cancel then (s, HookRaises)
    else (s.(jobs := s.jobs[id := s.jobs[id].(touchedAt := now, progress := completed)]), Quiet)
  }

  function CancelStep(s: State, id: string): (State, Response) {
    if id in s.jobs then (s.(jobs := s.jobs[id := s.jobs[id].(cancel := true)]), Cancelling) else (s, NotFound)
  }

  function PollStep(s: State, id: string, now: int): (State, Response) {
    if id !in s.jobs then (s, Gone)
    else
      var job := s.jobs[id].(touchedAt := now);
      (s.(jobs := s.jobs[id := job]), Progress(job.status, job.progress, if job.status == Failed then job.error else None))
  }

  function Step(s: State, e: Event): (State, Response) {
    match e
    case Post(id, now) => PostStep(s, id, now)
    case Hook(serial, id, now, completed) => HookStep(s, id, now, completed)
    case Finish(serial, id, ending, now) => (if id in s.jobs then FinishStep(s, serial, id, ending, now) else s, Quiet)
    case Collect(id) => CollectStep(s, id)
    case Cancel(id) => CancelStep(s, id)
    case Poll(id, now) => PollStep(s, id, now)
    case Reap(now, runTtl, keepTtl) => (s.(jobs := Reaped(s.jobs, now, runTtl, keepTtl)), Quiet)
  }

  /** A computation can only call the hook or end while it runs, and only a flagged one unwinds. */
  ghost predicate Enabled(s: State, e: Event) {
    match e
    case Hook(serial, id, _, _) => (serial, id) in s.running
    case Finish(serial, id, ending, _) => (serial, id) in s.running && (ending == Unwound && id in s.jobs ==> s.jobs[id].cancel)
    case _ => true
  }

  function Run(s: State, events: seq<Event>): State {
    if events == [] then s else Step(Run(s, events[..|events| - 1]), events[|events| - 1]).0
  }

  ghost predicate Possible(s: State, events: seq<Event>) {
    events == [] ||
    (Possible(s, events[..|events| - 1]) && Enabled(Run(s, events[..|events| - 1]), events[|events| - 1]))
  }

  const EMPTY := State(map[], {}, 0)

  // ---------- the invariant ----------

  ghost predicate JobInv(s: State, id: string) {
    id in s.jobs ==>
      var job := s.jobs[id];
      && job.serial < s.next
      && (job.status == Running <==> (job.serial, id) in s.running)
      && (job.status == Done ==> job.result.Some?) && (job.status == Failed ==> job.error.Some?)
  }

  /** Every running computation is the job stored under its id; serials are never shared. */
  ghost predicate Inv(s: State) {
    && (forall id :: id in s.jobs ==> JobInv(s, id))
    && (forall r :: r in s.running ==> r.1 in s.jobs && s.jobs[r.1].serial == r.0)
    && (forall a, b :: a in s.jobs && b in s.jobs && s.jobs[a].serial == s.jobs[b].serial ==> a == b)
  }

  lemma InvStep(s: State, e: Event)
    requires Inv(s) && Enabled(s, e)
    ensures Inv(Step(s, e).0)
  {
    match e {
      case Post(id, now) => InvPost(s, id, now);
      case Finish(serial, id, ending, now) =>
        InvFinish(s, serial, id, ending, now);
      case Reap(now, runTtl, keepTtl) => InvReap(s, now, runTtl, keepTtl);
      case Hook(serial, id, now, completed) =>
        if id in s.jobs {
          InvUpdate(s, id, s.jobs[id].(touchedAt := now, progress := completed));
        }
      case Cancel(id) =>
        if id in s.jobs {
          InvUpdate(s, id, s.jobs[id].(cancel := true));
        }
      case Poll(id, now) =>
        if id in s.jobs {
          InvUpdate(s, id, s.jobs[id].(touchedAt := now));
        }
      case Collect(id) =>
        if id in s.jobs && s.jobs[id].status != Running {
          InvRemove(s, id);
        }
    }
  }

  lemma InvUpdate(s: State, id: string, job: JobValue)
    requires Inv(s) && id in s.jobs
    requires job.serial == s.jobs[id].serial && job.status == s.jobs[id].status
    requires job.result == s.jobs[id].result && job.error == s.jobs[id].error
    ensures Inv(s.(jobs := s.jobs[id := job]))
  {
    assert JobInv(s, id);
    var t := s.(jobs := s.jobs[id := job]);
    forall x | x in t.jobs ensures JobInv(t, x) {
      assert JobInv(s, x);
    }
  }

  lemma InvRemove(s: State, id: string)
    requires Inv(s) && id in s.jobs && s.jobs[id].status != Running
    ensures Inv(s.(jobs := s.jobs - {id}))
  {
    var t := s.(jobs := s.jobs - {id});
    assert JobInv(s, id);
    forall x | x in t.jobs ensures JobInv(t, x) {
      assert JobInv(s, x);
    }
  }

  lemma IdleIdHasNoThread(s: State, id: string)
    requires Inv(s) && (id in s.jobs ==> s.jobs[id].status != Running)
    ensures forall r :: r in s.running ==> r.1 != id
  {
    assert JobInv(s, id);
  }

  lemma InvLaunch(s: State, id: string, now: int)
    requires Inv(s) && (id in s.jobs ==> s.jobs[id].status != Running)
    ensures Inv(Launch(s, id, now))
  {
    var t := Launch(s, id, now);
    IdleIdHasNoThread(s, id);
    forall x | x in t.jobs ensures JobInv(t, x) {
      assert JobInv(s, x);
    }
    forall a, b | a in t.jobs && b in t.jobs && t.jobs[a].serial == t.jobs[b].serial ensures a == b {
      assert JobInv(s, a) && JobInv(s, b);
    }
  }

  lemma InvPost(s: State, id: string, now: int)
    requires Inv(s)
    ensures Inv(PostStep(s, id, now).0)
  {
    hide Inv, Launch;
    if id in s.jobs && s.jobs[id].status != Failed {
      InvUpdate(s, id, s.jobs[id].(touchedAt := now));
    } else {
      InvLaunch(s, id, now);
    }
  }

  lemma InvFinish(s: State, serial: nat, id: string, ending: Ending, now: int)
    requires Inv(s) && (serial, id) in s.running
    ensures id in s.jobs && s.jobs[id].serial == serial && Inv(FinishStep(s, serial, id, ending, now))
  {
    assert (serial, id).1 in s.jobs && JobInv(s, id);
    var t := FinishStep(s, serial, id, ending, now);
    forall x | x in t.jobs ensures JobInv(t, x) {
      assert JobInv(s, x);
    }
    forall r | r in t.running ensures r.1 in t.jobs && t.jobs[r.1].serial == r.0 {
      assert r.1 in s.jobs && s.jobs[r.1].serial == r.0;
    }
  }

  lemma StatusIsListed(s: State, id: string)
    requires Inv(s) && id in s.jobs
    ensures s.jobs[id].status == Running <==> (s.jobs[id].serial, id) in s.running
  {
    assert JobInv(s, id);
  }

  lemma InvReap(s: State, now: int, runTtl: int, keepTtl: int)
    requires Inv(s)
    ensures Inv(s.(jobs := Reaped(s.jobs, now, runTtl, keepTtl)))
  {
    hide IdleTooLong;
    var t := s.(jobs := Reaped(s.jobs, now, runTtl, keepTtl));
    forall x | x in t.jobs ensures JobInv(t, x) {
      assert JobInv(s, x);
    }
    forall r | r in s.running ensures r.1 in t.jobs && t.jobs[r.1].serial == r.0 {
      assert JobInv(s, r.1);
    }
  }

  /**
   In every reachable state each running computation is the one stored under its
   id, so there is at most one per id, and every job shown as running is running.
   */
  lemma {:induction false} OneComputationPerId(events: seq<Event>)
    requires Possible(EMPTY, events)
    ensures var s := Run(EMPTY, events);
            && Inv(s)
            && (forall r, q :: r in s.running && q in s.running && r.1 == q.1 ==> r == q)
            && (forall id :: id in s.jobs ==> (s.jobs[id].status == Running <==> (s.jobs[id].serial, id) in s.running))
    decreases |events|
  {
    hide Step, Enabled;
    if events != [] {
      var before := events[..|events| - 1];
      OneComputationPerId(before);
      InvStep(Run(EMPTY, before), events[|events| - 1]);
    }
    var s := Run(EMPTY, events);
    forall id | id in s.jobs ensures s.jobs[id].status == Running <==> (s.jobs[id].serial, id) in s.running {
      assert JobInv(s, id);
    }
  }

  // ---------- a finished result stays ----------

  /** The events that may end a finished job: its collection, and a reap that finds it idle past the TTL. */
  ghost predicate Disposes(s: State, e: Event, id: string) {
    e == Collect(id) || (e.Reap? && id in s.jobs && IdleTooLong(s.jobs[id], e.now, e.runTtl, e.keepTtl))
  }

  ghost predicate Undisturbed(s: State, events: seq<Event>, id: string) {
    events == [] ||
    (Undisturbed(s, events[..|events| - 1], id) && !Disposes(Run(s, events[..|events| - 1]), events[|events| - 1], id))
  }

  /** The job is still the same finished computation with the same result. */
  ghost predicate StillDone(s: State, id: string, job: JobValue) {
    id in s.jobs && s.jobs[id].serial == job.serial && s.jobs[id].status == Done && s.jobs[id].result == job.result
  }

  lemma DoneStep(s: State, e: Event, id: string, job: JobValue)
    requires Inv(s) && Enabled(s, e) && StillDone(s, id, job) && !Disposes(s, e, id)
    ensures StillDone(Step(s, e).0, id, job)
  {
    assert JobInv(s, id);
    if e.Finish? {
      assert (e.serial, e.id).1 in s.jobs && JobInv(s, e.id);
    }
  }

  /** A done result is kept, and never computed again, until it is collected or idle past its TTL. */
  lemma {:induction false} DoneStaysUntilCollected(s: State, events: seq<Event>, id: string)
    requires Inv(s) && Possible(s, events) && Undisturbed(s, events, id)
    requires id in s.jobs && s.jobs[id].status == Done
    ensures Inv(Run(s, events)) && StillDone(Run(s, events), id, s.jobs[id])
    decreases |events|
  {
    hide Step, Enabled, Inv, Disposes;
    if events != [] {
      var before := events[..|events| - 1];
      DoneStaysUntilCollected(s, before, id);
      InvStep(Run(s, before), events[|events| - 1]);
      DoneStep(Run(s, before), events[|events| - 1], id, s.jobs[id]);
    }
  }

  /** Asking again for a job that is running or done starts nothing. */
  lemma ReattachStartsNothing(s: State, id: string, now: int)
    requires Inv(s) && id in s.jobs && s.jobs[id].status != Failed
    ensures var (t, response) := Step(s, Post(id, now));
            && t.running == s.running && t.next == s.next && t.jobs[id].serial == s.jobs[id].serial
            && (response == Attached <==> s.jobs[id].status == Running)
            && (response == AlreadyDone <==> s.jobs[id].status == Done)
  {
  }

  // ---------- a failure is handed over once ----------

  /** The event answers its caller with the failure of computation `serial` and forgets it. */
  ghost predicate HandsOver(s: State, e: Event, serial: nat) {
    (e.Post? || e.Collect?) && e.id in s.jobs && s.jobs[e.id].serial == serial && s.jobs[e.id].status == Failed
  }

  ghost function HandOvers(s: State, events: seq<Event>, serial: nat): nat {
    if events == [] then 0
    else HandOvers(s, events[..|events| - 1], serial)
         + (if HandsOver(Run(s, events[..|events| - 1]), events[|events| - 1], serial) then 1 else 0)
  }

  ghost predicate Forgotten(s: State, serial: nat) {
    serial < s.next && forall id :: id in s.jobs ==> s.jobs[id].serial != serial
  }

  lemma HandOverForgets(s: State, e: Event, serial: nat)
    requires Inv(s) && HandsOver(s, e, serial)
    ensures Forgotten(Step(s, e).0, serial)
    ensures Step(s, e).1 == (if e.Post? then RetriedAfterError(s.jobs[e.id].error) else FailureReport(s.jobs[e.id].error))
  {
    assert JobInv(s, e.id);
  }

  lemma ForgottenStays(s: State, e: Event, serial: nat)
    requires Inv(s) && Enabled(s, e) && Forgotten(s, serial)
    ensures Forgotten(Step(s, e).0, serial)
  {
    hide IdleTooLong;
    if e.Finish? {
      assert (e.serial, e.id).1 in s.jobs;
    }
  }

  /** A failure is handed over at most once in any run, by a retry or a collection, and then forgotten. */
  lemma {:induction false} FailureHandedOverOnce(events: seq<Event>, serial: nat)
    requires Possible(EMPTY, events)
    ensures HandOvers(EMPTY, events, serial) <= 1
    ensures HandOvers(EMPTY, events, serial) == 1 ==> Forgotten(Run(EMPTY, events), serial)
    decreases |events|
  {
    hide Step, Enabled, Inv, HandsOver, Forgotten;
    if events != [] {
      var before, e := events[..|events| - 1], events[|events| - 1];
      FailureHandedOverOnce(before, serial);
      OneComputationPerId(before);
      var s := Run(EMPTY, before);
      if HandsOver(s, e, serial) {
        HandOverForgets(s, e, serial);
        if Forgotten(s, serial) {
          NothingToHandOver(s, e, serial);
        }
      } else if Forgotten(s, serial) {
        ForgottenStays(s, e, serial);
      }
    }
  }

  lemma NothingToHandOver(s: State, e: Event, serial: nat)
    requires Forgotten(s, serial)
    ensures !HandsOver(s, e, serial)
  {
  }

  // ---------- the reaper ----------

  /** The reaper touches no job within its TTL; past it, a running job is flagged and a finished one dropped. */
  lemma ReaperSparesTheLiving(s: State, now: int, runTtl: int, keepTtl: int, id: string)
    requires id in s.jobs
    ensures var job := s.jobs[id];
            var idle := now - job.touchedAt;
            var after := Step(s, Reap(now, runTtl, keepTtl)).0;
            && (job.status == Running ==>
                  id in after.jobs && after.jobs[id] == if idle > runTtl then job.(cancel := true) else job)
            && (job.status != Running ==> (id in after.jobs <==> idle <= keepTtl))
            && (job.status != Running && idle <= keepTtl ==> after.jobs[id] == job)
            && after.running == s.running && after.next == s.next && after.jobs.Keys <= s.jobs.Keys
  {
  }

  // ---------- the server over mutable job records ----------

  class Job {
    const id: string
    const serial: nat
    var status: Status
    var cancel: bool
    var touchedAt: int
    var progress: nat
    var result: Option<Outcome>
    var error: Option<string>

    constructor (id: string, serial: nat, now: int)
      ensures this.id == id && this.serial == serial && Value() == NewJob(serial, now)
    {
      this.id, this.serial := id, serial;
      status, cancel, touchedAt, progress, result, error := Running, false, now, 0, None, None;
    }

    function Value(): JobValue
      reads this
    {
      JobValue(serial, status, cancel, touchedAt, progress, result, error)
    }

    /** The record is touched even when it has left the table. */
    method Close(ending: Ending, now: int)
      modifies this
      ensures Value() == Closed(old(Value()), ending, now)
      ensures status != Running || ending == Unwound
    {
      match ending {
        case Computed(r) =>
          result := Some(r);
          status := Done;
        case Unwound =>
        case Crashed(e) =>
          status := Failed;
          error := Some(e);
      }
      touchedAt := now;
    }
  }

  class Server {
    var jobs: map<string, Job>
    var running: set<Job>
    var next: nat
    ghost var threads: set<(nat, string)>

    ghost function Snapshot(): map<string, JobValue>
      reads this`jobs, jobs.Values
    {
      map id | id in jobs :: jobs[id].Value()
    }

    ghost function Abs(): State
      reads this, jobs.Values
    {
      State(Snapshot(), threads, next)
    }

    /** The table is keyed by the records' own ids; the running records are those it shows as running. */
    ghost predicate Linked()
      reads this`jobs, this`running, jobs.Values
    {
      && (forall id :: id in jobs ==> jobs[id].id == id && (jobs[id] in running <==> jobs[id].status == Running))
      && (forall j :: j in running ==> j.id in jobs && jobs[j.id] == j)
    }

    ghost predicate Valid()
      reads this, jobs.Values
    {
      Linked() && Inv(Abs())
    }

    constructor ()
      ensures Valid() && Abs() == EMPTY
    {
      jobs, running, next, threads := map[], {}, 0, {};
    }

    /** A new record under this id, running from the start. */
    method Register(id: string, now: int)
      requires Linked() && (id in jobs ==> jobs[id].status != Running)
      modifies this`jobs, this`running
      ensures Linked() && Snapshot() == old(Snapshot())[id := NewJob(next, now)]
    {
      var job := new Job(id, next, now);
      assert job !in jobs.Values && (id in jobs ==> jobs[id] !in running);
      jobs := jobs[id := job];
      running := running + {job};
      assert Snapshot() == old(Snapshot())[id := NewJob(next, now)];
    }

    method StartJob(id: string, now: int)
      requires Valid() && (id in jobs ==> jobs[id].status != Running)
      modifies this
      ensures Valid() && Abs() == Launch(old(Abs()), id, now)
    {
      hide Inv, Linked, NewJob;
      InvLaunch(Abs(), id, now);
      hide Snapshot;
      Register(id, now);
      threads := threads + {(next, id)};
      next := next + 1;
    }

    method Diarize(id: string, now: int) returns (response: Response)
      requires Valid()
      modifies this, jobs.Values
      ensures Valid() && (Abs(), response) == PostStep(old(Abs()), id, now)
    {
      ghost var s := Abs();
      if id in jobs {
        var existing := jobs[id];
        assert s.jobs[id] == existing.Value();
        if existing.status == Failed {
          var reason := existing.error;
          StartJob(id, now);
          return RetriedAfterError(reason);
        }
        InvUpdate(s, id, s.jobs[id].(touchedAt := now));
        hide Inv;
        existing.touchedAt := now;
        assert Abs().jobs == s.jobs[id := s.jobs[id].(touchedAt := now)];
        return if existing.status == Running then Attached else AlreadyDone;
      }
      StartJob(id, now);
      response := Started;
    }

    /** The hook, called from the computation's thread with its own record. */
    method CallHook(job: Job, now: int, completed: nat) returns (response: Response)
      requires Valid() && job in running
      modifies job
      ensures Valid() && (Abs(), response) == HookStep(old(Abs()), job.id, now, completed)
    {
      ghost var s := Abs();
      assert s.jobs[job.id] == job.Value();
      if job.cancel {
        return HookRaises;
      }
      InvUpdate(s, job.id, s.jobs[job.id].(touchedAt := now, progress := completed));
      hide Inv;
      job.touchedAt := now;
      job.progress := completed;
      assert Abs().jobs == s.jobs[job.id := s.jobs[job.id].(touchedAt := now, progress := completed)];
      response := Quiet;
    }

    /** The table when a computation ends: an unwound job leaves it. */
    method Retire(job: Job, ending: Ending, now: int)
      requires Linked() && job in running
      modifies this`jobs, this`running, job
      ensures Linked() && jobs.Values <= old(jobs.Values)
      ensures Snapshot() == Ended(old(Snapshot()), job.id, ending, now)
    {
      hide Closed;
      ghost var table := Snapshot();
      assert job.id in table && table[job.id] == job.Value();
      assert forall id :: id in jobs && id != job.id ==> jobs[id] != job;
      running := running - {job};
      if ending == Unwound {
        jobs := jobs - {job.id};
      }
      job.Close(ending, now);
      assert Snapshot() == Ended(table, job.id, ending, now);
    }

    method FinishJob(job: Job, ending: Ending, now: int)
      requires Valid() && job in running && (ending == Unwound ==> job.cancel)
      modifies this, job
      ensures Valid() && job.id in old(Abs()).jobs && Abs() == FinishStep(old(Abs()), job.serial, job.id, ending, now)
    {
      ghost var s := Abs();
      assert s.jobs[job.id] == job.Value();
      StatusIsListed(s, job.id);
      InvFinish(s, job.serial, job.id, ending, now);
      hide Inv;
      Retire(job, ending, now);
      hide Linked, Snapshot, Ended;
      threads := threads - {(job.serial, job.id)};
    }

    method JobResult(id: string) returns (response: Response)
      requires Valid()
      modifies this
      ensures Valid() && (Abs(), response) == CollectStep(old(Abs()), id)
    {
      ghost var s := Abs();
      if id !in jobs {
        return NotFound;
      }
      var job := jobs[id];
      assert s.jobs[id] == job.Value();
      if job.status == Running {
        return StillRunning;
      }
      InvRemove(s, id);
      hide Inv;
      response := if job.status == Failed then FailureReport(job.error) else Result(job.result);
      jobs := jobs - {id};
      assert Abs().jobs == s.jobs - {id};
    }

    method JobCancel(id: string) returns (response: Response)
      requires Valid()
      modifies jobs.Values
      ensures Valid() && (Abs(), response) == CancelStep(old(Abs()), id)
    {
      ghost var s := Abs();
      if id !in jobs {
        return NotFound;
      }
      assert s.jobs[id] == jobs[id].Value();
      InvUpdate(s, id, s.jobs[id].(cancel := true));
      hide Inv;
      jobs[id].cancel := true;
      assert Abs().jobs == s.jobs[id := s.jobs[id].(cancel := true)];
      response := Cancelling;
    }

    /** One tick of the progress stream. */
    method JobEvents(id: string, now: int) returns (response: Response)
      requires Valid()
      modifies jobs.Values
      ensures Valid() && (Abs(), response) == PollStep(old(Abs()), id, now)
    {
      ghost var s := Abs();
      if id !in jobs {
        return Gone;
      }
      var job := jobs[id];
      assert s.jobs[id] == job.Value();
      InvUpdate(s, id, s.jobs[id].(touchedAt := now));
      hide Inv;
      job.touchedAt := now;
      assert Abs().jobs == s.jobs[id := s.jobs[id].(touchedAt := now)];
      response := Progress(job.status, job.progress, if job.status == Failed then job.error else None);
    }

    /** One pass of the reaper over a snapshot of the table. */
    method ReapJobs(now: int, runTtl: int, keepTtl: int)
      requires Valid()
      modifies this, jobs.Values
      ensures Valid() && Abs() == old(Abs()).(jobs := Reaped(old(Abs()).jobs, now, runTtl, keepTtl))
    {
      InvReap(Abs(), now, runTtl, keepTtl);
      hide Inv, Linked, Snapshot, Reaped;
      ReapSnapshot(now, runTtl, keepTtl);
    }

    /** The loop over the ids that were in the table when the pass began. */
    method ReapSnapshot(now: int, runTtl: int, keepTtl: int)
      requires Linked()
      modifies this`jobs, jobs.Values
      ensures Linked() && Snapshot() == Reaped(old(Snapshot()), now, runTtl, keepTtl)
    {
      hide Linked, Snapshot, ReapOne, ReapedUpTo, Reaped, IdleTooLong;
      ghost var all := Snapshot();
      assert all.Keys == jobs.Keys by { SnapshotKeys(); }
      ReapedStart(all, now, runTtl, keepTtl);
      var left := jobs.Keys;
      while left != {}
        invariant left <= jobs.Keys && Linked() && jobs.Values <= old(jobs.Values)
        invariant ReapedUpTo(Snapshot(), all, left, now, runTtl, keepTtl)
        decreases left
      {
        var id :| id in left;
        ghost var before := Snapshot();
        ReapJob(id, now, runTtl, keepTtl);
        ReapedStep(before, all, left, id, now, runTtl, keepTtl);
        left := left - {id};
      }
      ReapedAll(Snapshot(), all, now, runTtl, keepTtl);
    }

    lemma SnapshotKeys()
      ensures Snapshot().Keys == jobs.Keys
    {
    }

    /** What the reaper does with one job. */
    method ReapJob(id: string, now: int, runTtl: int, keepTtl: int)
      requires id in jobs && Linked()
      modifies this`jobs, jobs[id]
      ensures Linked() && jobs.Values <= old(jobs.Values) && jobs.Keys >= old(jobs.Keys) - {id}
      ensures Snapshot() == ReapOne(old(Snapshot()), id, now, runTtl, keepTtl)
    {
      var job := jobs[id];
      var idle := now - job.touchedAt;
      if job.status == Running && idle > runTtl {
        job.cancel := true;
      } else if job.status != Running && idle > keepTtl {
        jobs := jobs - {id};
      }
      assert Snapshot() == ReapOne(old(Snapshot()), id, now, runTtl, keepTtl);
    }
  }

  ghost function ReapOne(jobs: map<string, JobValue>, id: string, now: int, runTtl: int, keepTtl: int): map<string, JobValue>
    requires id in jobs
  {
    if !IdleTooLong(jobs[id], now, runTtl, keepTtl) then jobs
    else if jobs[id].status == Running then jobs[id := jobs[id].(cancel := true)]
    else jobs - {id}
  }

  /** Jobs still to visit are untouched; the others are as the whole pass leaves them. */
  ghost predicate ReapedUpTo(jobs: map<string, JobValue>, before: map<string, JobValue>, left: set<string>, now: int,
                             runTtl: int, keepTtl: int) {
    var after := Reaped(before, now, runTtl, keepTtl);
    && (forall id :: id in left ==> id in jobs && id in before && jobs[id] == before[id])
    && (forall id :: id !in left ==> (id in jobs <==> id in after))
    && (forall id :: id !in left && id in jobs ==> jobs[id] == after[id])
  }

  lemma ReapedStart(before: map<string, JobValue>, now: int, runTtl: int, keepTtl: int)
    ensures ReapedUpTo(before, before, before.Keys, now, runTtl, keepTtl)
  {
  }

  lemma ReapedAll(jobs: map<string, JobValue>, before: map<string, JobValue>, now: int, runTtl: int, keepTtl: int)
    requires ReapedUpTo(jobs, before, {}, now, runTtl, keepTtl)
    ensures jobs == Reaped(before, now, runTtl, keepTtl)
  {
    hide IdleTooLong;
  }

  lemma ReapedStep(jobs: map<string, JobValue>, before: map<string, JobValue>, left: set<string>, id: string,
                   now: int, runTtl: int, keepTtl: int)
    requires ReapedUpTo(jobs, before, left, now, runTtl, keepTtl) && id in left
    ensures ReapedUpTo(ReapOne(jobs, id, now, runTtl, keepTtl), before, left - {id}, now, runTtl, keepTtl)
  {
    hide IdleTooLong;
  }
}
