/**
 The task row and the step rows after one run: what they say is read off what
 the outside world did at each position, and the code over mutable rows says it.
 */
module Processor {
  import opened Wrappers
  import opened Pipeline

  // ---------- the task row ----------

  datatype TaskStatus = TaskQueued | TaskRunning | TaskWaiting | TaskPaused | TaskCompleted
      | TaskArchived | TaskFailed | TaskCanceled | TaskAwaitingInput

  predicate IsSkippableOnStart(s: TaskStatus) {
    s == TaskCanceled || s == TaskCompleted || s == TaskArchived
  }

  datatype Task = Task(status: TaskStatus, errorMessage: Option<string>, awaitingStep: Option<string>)

  function SetTaskStatus(status: TaskStatus, error: Option<string>): Task {
    Task(status, error, None)
  }

  /** The outcome table of `process_task`, for a task that was set running. */
  function TaskAfter(o: Outcome, dag: seq<string>, pauseFlag: bool): Task {
    var running := SetTaskStatus(TaskRunning, None);
    match o.end
    case AllDone => SetTaskStatus(TaskCompleted, None)
    case CanceledSeen => running.(status := TaskCanceled)
    case Stopped(_, Paused) => SetTaskStatus(TaskPaused, None)
    case Stopped(i, AwaitingInput) =>
        running.(status := TaskAwaitingInput, awaitingStep := if i < |dag| then Some(dag[i]) else None)
    case Stopped(_, Gone) => running
    case Stopped(_, Cancelled) => if pauseFlag then SetTaskStatus(TaskPaused, None) else running
    case Stopped(_, Error(e)) => SetTaskStatus(TaskFailed, Some(e))
    case Stopped(_, Continue) => running
  }

  // ---------- what happens, read off the script ----------

  /** One run: the steps as they were, the steps to walk, and what the world does. */
  datatype Setting = Setting(steps: Steps, dag: seq<string>, options: Options, script: Script)

  ghost predicate WellFormed(w: Setting) {
    Covers(w.script, w.dag)
  }

  /** The step has been completed, by an earlier run or earlier in this one. */
  ghost predicate CompletedBy(w: Setting, i: nat)
    requires i < |w.dag|
  {
    (w.dag[i] in w.steps && w.steps[w.dag[i]].status == StepCompleted) || w.dag[i] in w.dag[..i]
  }

  /** There is work at position i: the step is enabled and not completed with its artefacts in place. */
  ghost predicate ToDo(w: Setting, i: nat)
    requires WellFormed(w) && i < |w.dag|
  {
    IsStepEnabled(w.dag[i], w.options) && !(CompletedBy(w, i) && w.script.alreadyDone[i])
  }

  /** Nothing at position i stops the run. */
  ghost predicate Passes(w: Setting, i: nat)
    requires WellFormed(w) && i < |w.dag|
  {
    && !w.script.pauseRequested[i] && !w.script.gone[i] && !w.script.canceled[i]
    && (ToDo(w, i) ==> w.script.work[i] == Finishes) && !w.script.goneAfter[i]
  }

  /** The run comes as far as position i. */
  ghost predicate Reached(w: Setting, i: nat)
    requires WellFormed(w)
  {
    i <= |w.dag| && forall j :: 0 <= j < i ==> Passes(w, j)
  }

  /** The run takes up the work of the step at position i, and it ends like this. */
  ghost predicate Works(w: Setting, i: nat, work: Work)
    requires WellFormed(w)
  {
    && i < |w.dag| && Reached(w, i)
    && !w.script.pauseRequested[i] && !w.script.gone[i] && !w.script.canceled[i]
    && ToDo(w, i) && w.script.work[i] == work
  }

  /** A pause was asked for before a step, or inside it, or an interruption met the pause flag. */
  ghost predicate PausedAt(w: Setting, pauseFlag: bool, i: nat)
    requires WellFormed(w)
  {
    && i < |w.dag| && Reached(w, i)
    && (w.script.pauseRequested[i] || Works(w, i, Pauses)
        || (pauseFlag && (Works(w, i, Interrupted) || Works(w, i, StoppedInQueue))))
  }

  ghost predicate CanceledAt(w: Setting, i: nat)
    requires WellFormed(w)
  {
    i < |w.dag| && Reached(w, i) && !w.script.pauseRequested[i] && !w.script.gone[i] && w.script.canceled[i]
  }

  ghost predicate AwaitsAt(w: Setting, i: nat, name: string)
    requires WellFormed(w)
  {
    Works(w, i, Awaits) && w.dag[i] == name
  }

  /** What the task row says after the run, for a task that was set running. */
  ghost predicate RowTells(w: Setting, pauseFlag: bool, task: Task)
    requires WellFormed(w)
  {
    && (forall e :: task.status == TaskFailed && task.errorMessage == Some(e) <==> exists i :: Works(w, i, Fails(e)))
    && (task.status == TaskFailed <==> task.errorMessage.Some?)
    && (task.status == TaskPaused <==> exists i :: PausedAt(w, pauseFlag, i))
    && (task.status == TaskCanceled <==> exists i :: CanceledAt(w, i))
    && (task.status == TaskCompleted <==> Reached(w, |w.dag|))
    && (forall name :: task.status == TaskAwaitingInput && task.awaitingStep == Some(name)
          <==> exists i :: AwaitsAt(w, i, name))
    && (task.status == TaskAwaitingInput <==> task.awaitingStep.Some?)
    && task.status in {TaskFailed, TaskPaused, TaskCanceled, TaskCompleted, TaskAwaitingInput, TaskRunning}
  }

  /** Every step before position i, but for these, is completed or skipped as its options say; the others are as they were. */
  ghost predicate RowsUpTo(w: Setting, i: nat, rows: Steps, but: set<string>)
    requires i <= |w.dag|
  {
    && (forall n :: n in w.dag[..i] && n !in but ==> n in rows && RowPassed(w, n, rows[n]))
    && (forall n :: n !in w.dag[..i] && n !in but ==> (n in rows <==> n in w.steps) && (n in rows ==> rows[n] == w.steps[n]))
  }

  ghost predicate RowPassed(w: Setting, name: string, row: Step) {
    var enabled := IsStepEnabled(name, w.options);
    && row.status == (if enabled then StepCompleted else StepSkipped)
    && ((name in w.steps && row == w.steps[name])
        || row.message == if enabled then None else Some("Disabled by task options"))
  }

  /** What the row of the step says at which the run stopped in the middle of its work. */
  ghost predicate RowStopped(w: Setting, i: nat, row: Step)
    requires WellFormed(w) && i < |w.dag|
  {
    match w.script.work[i]
    case Finishes => row.status == StepCompleted && row.message == None
    case Awaits => row.status == StepCompleted && row.message == None
    case Pauses => row.status == StepPending && row.message == None
    case Fails(e) => row.status == StepFailed && row.message == Some(e)
    case Discarded(e) => row.status == StepFailed && row.message == Some(e)
    case Interrupted => row.status == StepRunning && row.message == None
    case StoppedInQueue =>
      if w.dag[i] in w.dag[..i] then RowPassed(w, w.dag[i], row)
      else row == if w.dag[i] in w.steps then w.steps[w.dag[i]] else Step(StepPending, 0, None)
  }

  /** The step rows after a run that position i stops: before its step, in the middle of its work, or after it. */
  ghost predicate RowsAtStop(w: Setting, i: nat, rows: Steps)
    requires WellFormed(w) && i < |w.dag|
  {
    if w.script.pauseRequested[i] || w.script.gone[i] || w.script.canceled[i] then RowsUpTo(w, i, rows, {})
    else if ToDo(w, i) && w.script.work[i] != Finishes
    then RowsUpTo(w, i, rows, {w.dag[i]}) && w.dag[i] in rows && RowStopped(w, i, rows[w.dag[i]])
    else RowsUpTo(w, i + 1, rows, {})
  }

  /** The step rows after the run, wherever it stops. */
  ghost predicate RowsTell(w: Setting, rows: Steps)
    requires WellFormed(w)
  {
    && (Reached(w, |w.dag|) ==> RowsUpTo(w, |w.dag|, rows, {}))
    && forall i :: 0 <= i < |w.dag| && Reached(w, i) && !Passes(w, i) ==> RowsAtStop(w, i, rows)
  }

  // ---------- the machine does what the script says ----------

  /** Why the machine ends where it ends. */
  ghost predicate Causes(w: Setting, i: nat, end: End)
    requires WellFormed(w) && i < |w.dag|
  {
    && Reached(w, i)
    && if w.script.pauseRequested[i] then end == Stopped(i, Paused)
       else if w.script.gone[i] then end == Stopped(i, Gone)
       else if w.script.canceled[i] then end == CanceledSeen
       else if ToDo(w, i) && w.script.work[i] != Finishes then end == Stopped(i, SignalOf(w.script.work[i]))
       else w.script.goneAfter[i] && end == Stopped(i, Gone)
  }

  lemma ToDoIs(w: Setting, i: nat, now: Steps)
    requires WellFormed(w) && i < |w.dag| && RowsUpTo(w, i, now, {})
    ensures IsStepEnabled(w.dag[i], w.options) ==>
              (CompletedBy(w, i) <==> Upserted(now, w.dag[i])[w.dag[i]].status == StepCompleted)
  {
    hide IsStepEnabled;
  }

  lemma UpsertedRows(w: Setting, i: nat, now: Steps, row: Step)
    requires i < |w.dag| && RowsUpTo(w, i, now, {})
    ensures RowsUpTo(w, i, now[w.dag[i] := row], {w.dag[i]})
    ensures RowPassed(w, w.dag[i], row) ==> RowsUpTo(w, i + 1, now[w.dag[i] := row], {})
  {
    hide RowPassed;
    assert forall n :: n in w.dag[..i + 1] <==> n in w.dag[..i] || n == w.dag[i];
  }

  lemma StepTells(w: Setting, i: nat, now: Steps)
    requires WellFormed(w) && i < |w.dag| && Reached(w, i) && RowsUpTo(w, i, now, {})
    requires !w.script.pauseRequested[i] && !w.script.gone[i] && !w.script.canceled[i]
    ensures var r := RunStep(now, w.dag[i], w.options, w.script.alreadyDone[i], w.script.work[i]);
            && (r.signal == Continue <==> (ToDo(w, i) ==> w.script.work[i] == Finishes))
            && (r.signal == Continue ==> RowsUpTo(w, i + 1, r.steps, {}))
            && (r.signal != Continue ==> r.signal == SignalOf(w.script.work[i]) && RowsAtStop(w, i, r.steps))
            && (r.started <==> ToDo(w, i) && w.script.work[i] != StoppedInQueue)
  {
    ToDoIs(w, i, now);
    var name := w.dag[i];
    var r := RunStep(now, name, w.options, w.script.alreadyDone[i], w.script.work[i]);
    RowIsKept(w, i, now);
    UpsertedRows(w, i, now, r.steps[name]);
    hide IsStepEnabled, CompletedBy, RowsUpTo, Reached;
    assert r.steps == now[name := r.steps[name]];
  }

  lemma RowIsKept(w: Setting, i: nat, now: Steps)
    requires i < |w.dag| && RowsUpTo(w, i, now, {})
    ensures var row := Upserted(now, w.dag[i])[w.dag[i]];
            if w.dag[i] in w.dag[..i] then RowPassed(w, w.dag[i], row)
            else row == if w.dag[i] in w.steps then w.steps[w.dag[i]] else Step(StepPending, 0, None)
  {
    hide RowPassed;
  }

  lemma {:induction false} MachineTells(w: Setting, i: nat, now: Steps) returns (at: nat)
    requires WellFormed(w) && i <= |w.dag| && Reached(w, i) && RowsUpTo(w, i, now, {})
    ensures var o := RunFrom(w.dag, i, now, w.options, w.script);
            if at < |w.dag| then Causes(w, at, o.end) && RowsAtStop(w, at, o.steps)
            else o.end == AllDone && Reached(w, |w.dag|) && RowsUpTo(w, |w.dag|, o.steps, {})
    decreases |w.dag| - i
  {
    hide ToDo, RowsUpTo, RunStep;
    at := i;
    if i < |w.dag| && !w.script.pauseRequested[i] && !w.script.canceled[i] && !w.script.gone[i] {
      var r := RunStep(now, w.dag[i], w.options, w.script.alreadyDone[i], w.script.work[i]);
      StepTells(w, i, now);
      if r.signal == Continue && !w.script.goneAfter[i] {
        at := MachineTells(w, i + 1, r.steps);
      }
    }
  }

  lemma StopsOnce(w: Setting, i: nat, j: nat)
    requires WellFormed(w) && i < |w.dag| && j <= |w.dag| && Reached(w, i) && !Passes(w, i) && Reached(w, j)
    ensures j <= i && (j < |w.dag| && !Passes(w, j) ==> j == i)
  {
    hide Passes;
  }

  lemma RowTellsStop(w: Setting, at: nat, o: Outcome, pauseFlag: bool)
    requires WellFormed(w) && at < |w.dag| && Causes(w, at, o.end)
    ensures RowTells(w, pauseFlag, TaskAfter(o, w.dag, pauseFlag))
  {
    hide ToDo, Reached;
    assert !Passes(w, at);
    if Reached(w, |w.dag|) {
      StopsOnce(w, at, |w.dag|);
    }
    forall j: nat | j < |w.dag| && Reached(w, j) && !Passes(w, j) ensures j == at {
      StopsOnce(w, at, j);
    }
    forall j: nat, work | Works(w, j, work) && work != Finishes ensures j == at {
      assert !Passes(w, j);
    }
    forall j: nat | PausedAt(w, pauseFlag, j) || CanceledAt(w, j) ensures j == at {
      assert !Passes(w, j);
    }
    hide Passes;
    var task := TaskAfter(o, w.dag, pauseFlag);
    forall j: nat, name | AwaitsAt(w, j, name)
      ensures task.status == TaskAwaitingInput && task.awaitingStep == Some(name)
    {
      assert Works(w, j, Awaits);
    }
    assert task.status == TaskAwaitingInput ==> AwaitsAt(w, at, w.dag[at]);
    assert task.status == TaskFailed ==> Works(w, at, w.script.work[at]);
    assert task.status == TaskPaused ==> PausedAt(w, pauseFlag, at);
    assert task.status == TaskCanceled ==> CanceledAt(w, at);
  }

  lemma RowTellsCompletion(w: Setting, o: Outcome, pauseFlag: bool)
    requires WellFormed(w) && o.end == AllDone && Reached(w, |w.dag|)
    ensures RowTells(w, pauseFlag, TaskAfter(o, w.dag, pauseFlag))
  {
    hide ToDo;
    forall j: nat, work | Works(w, j, work) ensures work == Finishes {
      assert Passes(w, j);
    }
    forall j: nat, name ensures !AwaitsAt(w, j, name) {
      assert Works(w, j, Awaits) ==> Awaits == Finishes;
    }
    forall j: nat ensures !PausedAt(w, pauseFlag, j) && !CanceledAt(w, j) {
      assert j < |w.dag| ==> Passes(w, j) && (Works(w, j, Pauses) ==> false);
    }
    hide Passes, Reached, Works;
  }

  /**
   The task is failed with a message exactly when the work taken up at some step
   failed with it; paused exactly when a pause was asked for before or inside a
   step the run came to, or an interruption met the pause flag; canceled exactly
   when it was found canceled first; completed exactly when nothing stopped the
   run; and the step rows say the same.
   */
  lemma TheRowsTell(w: Setting, pauseFlag: bool)
    requires WellFormed(w)
    ensures var o := RunFrom(w.dag, 0, w.steps, w.options, w.script);
            RowTells(w, pauseFlag, TaskAfter(o, w.dag, pauseFlag)) && RowsTell(w, o.steps)
  {
    hide RowTells, TaskAfter, RowsAtStop, Passes;
    var o := RunFrom(w.dag, 0, w.steps, w.options, w.script);
    assert RowsUpTo(w, 0, w.steps, {});
    hide RowsUpTo, RunFrom;
    var at := MachineTells(w, 0, w.steps);
    if at < |w.dag| {
      CausesStop(w, at, o.end);
      forall i | 0 <= i < |w.dag| && Reached(w, i) && !Passes(w, i) ensures i == at {
        StopsOnce(w, at, i);
      }
      if Reached(w, |w.dag|) {
        StopsOnce(w, at, |w.dag|);
      }
      RowTellsStop(w, at, o, pauseFlag);
    } else {
      RowTellsCompletion(w, o, pauseFlag);
    }
  }

  lemma CausesStop(w: Setting, at: nat, end: End)
    requires WellFormed(w) && at < |w.dag| && Causes(w, at, end)
    ensures Reached(w, at) && !Passes(w, at)
  {
    hide ToDo;
  }

  // ---------- starts and attempts ----------

  /** The step at position i is started: its work is taken up, and it does not stay in the queue. */
  ghost predicate StartsAt(w: Setting, i: nat)
    requires WellFormed(w)
  {
    i < |w.dag| && Works(w, i, w.script.work[i]) && w.script.work[i] != StoppedInQueue
  }

  ghost function Attempts(steps: Steps, name: string): nat {
    if name in steps then steps[name].attempt else 0
  }

  ghost function StartsOf(starts: seq<Start>, dag: seq<string>, name: string): nat {
    if starts == [] then 0
    else (if starts[0].at < |dag| && dag[starts[0].at] == name then 1 else 0) + StartsOf(starts[1..], dag, name)
  }

  lemma StepCounts(now: Steps, step: string, options: Options, alreadyDone: bool, work: Work, name: string)
    ensures var r := RunStep(now, step, options, alreadyDone, work);
            Attempts(r.steps, name) == Attempts(now, name) + (if r.started && name == step then 1 else 0)
  {
    hide IsStepEnabled;
  }

  /** A run starts exactly the steps whose work it takes up, and each start is one more attempt on the step's row. */
  lemma {:induction false} StartsAreCounted(w: Setting, i: nat, now: Steps, name: string)
    requires WellFormed(w) && i <= |w.dag| && Reached(w, i) && RowsUpTo(w, i, now, {})
    ensures var o := RunFrom(w.dag, i, now, w.options, w.script);
            && (forall s :: s in o.starts ==> StartsAt(w, s.at))
            && (forall j: nat :: i <= j && StartsAt(w, j) ==> exists s :: s in o.starts && s.at == j)
            && Attempts(o.steps, name) == Attempts(now, name) + StartsOf(o.starts, w.dag, name)
    decreases |w.dag| - i
  {
    hide ToDo, RowsUpTo, RunStep, Attempts, RunFrom;
    RunUnfolds(w, i, now);
    if i < |w.dag| {
      assert forall j: nat :: i < j && StartsAt(w, j) ==> Passes(w, i);
      if !w.script.pauseRequested[i] && !w.script.canceled[i] && !w.script.gone[i] {
        var r := RunStep(now, w.dag[i], w.options, w.script.alreadyDone[i], w.script.work[i]);
        StepTells(w, i, now);
        StepCounts(now, w.dag[i], w.options, w.script.alreadyDone[i], w.script.work[i], name);
        hide Passes;
        assert r.started <==> StartsAt(w, i);
        hide StartsAt, Works;
        StartFirst(Start(i, now), [], w.dag, name);
        if r.signal == Continue && !w.script.goneAfter[i] {
          assert Reached(w, i + 1) by { PassesOn(w, i); }
          StartsAreCounted(w, i + 1, r.steps, name);
          StartFirst(Start(i, now), RunFrom(w.dag, i + 1, r.steps, w.options, w.script).starts, w.dag, name);
        }
      }
    }
  }

  lemma PassesOn(w: Setting, i: nat)
    requires WellFormed(w) && i < |w.dag| && Reached(w, i) && !w.script.goneAfter[i]
    requires !w.script.pauseRequested[i] && !w.script.gone[i] && !w.script.canceled[i]
    requires ToDo(w, i) ==> w.script.work[i] == Finishes
    ensures Reached(w, i + 1)
  {
    hide ToDo;
  }

  /** The starts and the steps of a run from one position on, by what happens there. */
  lemma RunUnfolds(w: Setting, i: nat, now: Steps)
    requires WellFormed(w) && i <= |w.dag|
    ensures var o := RunFrom(w.dag, i, now, w.options, w.script);
            if i == |w.dag| || w.script.pauseRequested[i] || w.script.gone[i] || w.script.canceled[i]
            then o.starts == [] && o.steps == now
            else
              var r := RunStep(now, w.dag[i], w.options, w.script.alreadyDone[i], w.script.work[i]);
              var first := if r.started then [Start(i, now)] else [];
              if r.signal != Continue || w.script.goneAfter[i] then o.starts == first && o.steps == r.steps
              else
                var rest := RunFrom(w.dag, i + 1, r.steps, w.options, w.script);
                o.starts == first + rest.starts && o.steps == rest.steps
  {
    hide RunStep;
  }

  lemma StartFirst(s: Start, starts: seq<Start>, dag: seq<string>, name: string)
    ensures StartsOf([s] + starts, dag, name)
         == (if s.at < |dag| && dag[s.at] == name then 1 else 0) + StartsOf(starts, dag, name)
    ensures [s] + starts == [s] ==> starts == []
    ensures [] + starts == starts
  {
    assert ([s] + starts)[1..] == starts;
  }

  lemma PrefixedNone(o: Outcome)
    ensures Prefixed([], o) == o
  {
    assert [] + o.starts == o.starts;
  }

  lemma PrefixedEnd(starts: seq<Start>, steps: Steps, end: End, now: seq<Start>)
    ensures Prefixed(starts, Outcome(steps, end, now)) == Outcome(steps, end, starts + now)
    ensures starts + [] == starts
  {
  }

  lemma PrefixedTwice(a: seq<Start>, b: seq<Start>, o: Outcome)
    ensures Prefixed(a, Prefixed(b, o)) == Prefixed(a + b, o)
  {
    assert a + (b + o.starts) == (a + b) + o.starts;
  }

  class TaskProcessor {
    var steps: Steps
    var task: Task

    method UpsertStep(name: string)
      modifies this`steps
      ensures name in steps && steps == Upserted(old(steps), name)
    {
      if name !in steps {
        steps := steps[name := Step(StepPending, 0, None)];
      }
    }

    method SetStepStatus(name: string, status: StepStatus, message: Option<string>)
      requires name in steps
      modifies this`steps
      ensures steps == old(steps)[name := WithStatus(old(steps)[name], status, message)]
    {
      steps := steps[name := WithStatus(steps[name], status, message)];
    }

    method RunOneStep(name: string, options: Options, alreadyDone: bool, work: Work) returns (signal: Signal, started: bool)
      modifies this`steps
      ensures StepResult(steps, signal, started) == RunStep(old(steps), name, options, alreadyDone, work)
    {
      hide IsStepEnabled, WithStatus, Upserted;
      UpsertStep(name);
      if !IsStepEnabled(name, options) {
        if steps[name].status != StepSkipped {
          SetStepStatus(name, StepSkipped, Some("Disabled by task options"));
        }
        return Continue, false;
      }
      if steps[name].status == StepCompleted && alreadyDone {
        return Continue, false;
      }
      if work == StoppedInQueue {
        return Cancelled, false;
      }
      SetStepStatus(name, StepRunning, None);
      match work {
        case Finishes => SetStepStatus(name, StepCompleted, None);
        case Awaits => SetStepStatus(name, StepCompleted, None);
        case Pauses => SetStepStatus(name, StepPending, None);
        case Fails(e) => SetStepStatus(name, StepFailed, Some(e));
        case Discarded(e) => SetStepStatus(name, StepFailed, Some(e));
        case Interrupted =>
      }
      return SignalOf(work), true;
    }

    /** The step loop. */
    method WalkDag(dag: seq<string>, options: Options, script: Script) returns (end: End, ghost starts: seq<Start>)
      requires Covers(script, dag)
      modifies this`steps
      ensures Outcome(steps, end, starts) == RunFrom(dag, 0, old(steps), options, script)
    {
      hide RunStep, Prefixed;
      starts := [];
      ghost var steps0 := steps;
      PrefixedNone(RunFrom(dag, 0, steps0, options, script));
      for i := 0 to |dag|
        invariant RunFrom(dag, 0, steps0, options, script) == Prefixed(starts, RunFrom(dag, i, steps, options, script))
      {
        PrefixedEnd(starts, steps, Stopped(i, Paused), []);
        PrefixedEnd(starts, steps, Stopped(i, Gone), []);
        PrefixedEnd(starts, steps, CanceledSeen, []);
        if script.pauseRequested[i] {
          return Stopped(i, Paused), starts;
        }
        if script.gone[i] {
          return Stopped(i, Gone), starts;
        }
        if script.canceled[i] {
          return CanceledSeen, starts;
        }
        ghost var before := steps;
        var signal, started := RunOneStep(dag[i], options, script.alreadyDone[i], script.work[i]);
        ghost var now := if started then [Start(i, before)] else [];
        if signal != Continue || script.goneAfter[i] {
          end := Stopped(i, if signal != Continue then signal else Gone);
          PrefixedEnd(starts, steps, end, now);
          return end, starts + now;
        }
        PrefixedTwice(starts, now, RunFrom(dag, i + 1, steps, options, script));
        starts := starts + now;
      }
      PrefixedEnd(starts, steps, AllDone, []);
      end := AllDone;
    }

    method ProcessTask(options: Options, script: Script, pauseFlag: bool) returns (ghost o: Outcome)
      requires Covers(script, BuildDagSteps(options))
      modifies this
      ensures old(task).status in {TaskCanceled, TaskCompleted, TaskArchived} ==> task == old(task) && steps == old(steps)
      ensures old(task).status !in {TaskCanceled, TaskCompleted, TaskArchived} ==>
                && o == Run(old(steps), options, script) && steps == o.steps
                && task == TaskAfter(o, BuildDagSteps(options), pauseFlag)
                && var w := Setting(old(steps), BuildDagSteps(options), options, script);
                   RowTells(w, pauseFlag, task) && RowsTell(w, steps)
    {
      hide RunFrom, RowTells, RowsTell, BuildDagSteps;
      TheRowsTell(Setting(steps, BuildDagSteps(options), options, script), pauseFlag);
      if IsSkippableOnStart(task.status) {
        o := Outcome(steps, CanceledSeen, []);
        return;
      }
      task := SetTaskStatus(TaskRunning, None);
      var dag := BuildDagSteps(options);
      ghost var starts;
      var end;
      end, starts := WalkDag(dag, options, script);
      o := Outcome(steps, end, starts);
      match end {
        case AllDone => task := SetTaskStatus(TaskCompleted, None);
        case CanceledSeen => task := task.(status := TaskCanceled);
        case Stopped(at, signal) =>
          match signal {
            case Paused => task := SetTaskStatus(TaskPaused, None);
            case AwaitingInput =>
                task := task.(status := TaskAwaitingInput, awaitingStep := if at < |dag| then Some(dag[at]) else None);
            case Error(e) => task := SetTaskStatus(TaskFailed, Some(e));
            case Cancelled =>
              if pauseFlag {
                task := SetTaskStatus(TaskPaused, None);
              }
            case Gone =>
            case Continue =>
          }
      }
    }
  }

  /**
   What one run of a task means: it is marked completed only with every DAG step
   completed or skipped, and it names an awaited step exactly while it awaits input.
   */
  lemma TaskRowTellsTheTruth(steps: Steps, options: Options, script: Script, pauseFlag: bool)
    requires Covers(script, BuildDagSteps(options))
    ensures var dag := BuildDagSteps(options);
            var o := Run(steps, options, script);
            var task := TaskAfter(o, dag, pauseFlag);
            && (task.status == TaskCompleted ==> DoneBefore(o.steps, dag, |dag|))
            && (task.awaitingStep.Some? <==> task.status == TaskAwaitingInput)
            && (task.awaitingStep.Some? ==> task.awaitingStep.value in o.steps
                                            && o.steps[task.awaitingStep.value].status == StepCompleted)
  {
    hide IsStepEnabled, BuildDagSteps, RunFrom;
    StartsFollowTheDag(BuildDagSteps(options), 0, steps, options, script);
    AwaitLeavesCompleted(BuildDagSteps(options), 0, steps, options, script);
  }
}
