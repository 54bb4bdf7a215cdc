/**
 The pipeline step machine: one run walks the DAG, skipping, short-circuiting or
 running each step, and may end paused, awaiting input, failed, cancelled or
 interrupted; a task may be run any number of times.
 */
module Pipeline {
  import opened Wrappers

  // ---------- the DAG ----------

  datatype PromptRef = PromptRef(source: string, id: string)

  datatype Options = Options(transcript: bool, prompts: seq<PromptRef>)

  const DAG_HEAD: seq<string> := [
    "download", "extract_audio", "trim_initial_silence", "segment_audio", "detect_language", "transcribe_segments",
    "diarize", "merge_transcript", "prepare_llama_model", "match_speakers", "prepare_summary_chunks",
    "summarize_windows", "pack_window_notes"]

  function FinalizeStepName(r: PromptRef): string {
    if r == PromptRef("system", "summary") then "summarize_final" else "finalize:" + r.source + ":" + r.id
  }

  function BuildDagSteps(options: Options): seq<string> {
    DAG_HEAD + seq(|options.prompts|, i requires 0 <= i < |options.prompts| => FinalizeStepName(options.prompts[i]))
  }

  predicate IsStepEnabled(name: string, options: Options) {
    if !options.transcript then name == "download"
    else if name == "summarize_final" || "finalize:" <= name then true
    else if name in {"prepare_llama_model", "prepare_summary_chunks", "summarize_windows", "pack_window_notes"}
    then options.prompts != []
    else true
  }

  /** Every finalize step the DAG lists is enabled whenever the transcript is. */
  lemma FinalizeStepsAreEnabled(options: Options, i: nat)
    requires options.transcript && |DAG_HEAD| <= i < |BuildDagSteps(options)|
    ensures IsStepEnabled(BuildDagSteps(options)[i], options)
  {
    var r := options.prompts[i - |DAG_HEAD|];
    assert BuildDagSteps(options)[i] == FinalizeStepName(r);
    assert r != PromptRef("system", "summary") ==> "finalize:" <= FinalizeStepName(r);
  }

  // ---------- the order of the DAG ----------

  /** What the steps promise each other: whose output a step reads, or which step must have come before it. */
  ghost predicate Follows(step: string, earlier: string) {
    match earlier
    case "download" => step == "extract_audio"
    case "extract_audio" => step == "trim_initial_silence"
    case "trim_initial_silence" => step == "segment_audio"
    case "segment_audio" => step == "detect_language"
    case "detect_language" => step == "transcribe_segments"
    case "transcribe_segments" => step == "diarize"
    case "diarize" => step == "merge_transcript" || step == "match_speakers"
    case "merge_transcript" => step == "prepare_summary_chunks"
    case "prepare_llama_model" => step == "prepare_summary_chunks"
    case "match_speakers" => step == "prepare_summary_chunks"
    case "prepare_summary_chunks" => step == "summarize_windows"
    case "summarize_windows" => step == "pack_window_notes"
    case "pack_window_notes" => step == "summarize_final" || "finalize:" <= step
    case _ => false
  }

  /** Every occurrence of a step in the list comes after this one. */
  ghost predicate Precedes(dag: seq<string>, earlier: string, step: string) {
    exists i :: 0 <= i < |dag| && dag[i] == earlier && forall j :: 0 <= j < |dag| && dag[j] == step ==> i < j
  }

  /** Two head steps differ in length or in the first letter. */
  lemma HeadMarks(i: nat)
    requires i < |DAG_HEAD|
    ensures |DAG_HEAD[i]| > 0
    ensures (|DAG_HEAD[i]|, DAG_HEAD[i][0])
         == [(8, 'd'), (13, 'e'), (20, 't'), (13, 's'), (15, 'd'), (19, 't'), (7, 'd'), (16, 'm'), (19, 'p'), (14, 'm'),
             (22, 'p'), (17, 's'), (17, 'p')][i]
  {
  }

  lemma HeadsDiffer(i: nat, j: nat)
    requires i < |DAG_HEAD| && j < |DAG_HEAD| && DAG_HEAD[i] == DAG_HEAD[j]
    ensures i == j
  {
    HeadMarks(i);
    HeadMarks(j);
    hide DAG_HEAD;
  }

  lemma TailIsNoHead(r: PromptRef, i: nat)
    requires i < |DAG_HEAD|
    ensures FinalizeStepName(r) != DAG_HEAD[i]
  {
    HeadMarks(i);
    hide DAG_HEAD;
    assert r == PromptRef("system", "summary") ==> |FinalizeStepName(r)| == 15 && FinalizeStepName(r)[0] == 's';
    assert r != PromptRef("system", "summary") ==> FinalizeStepName(r)[0] == 'f';
  }

  lemma HeadPrecedes(options: Options, i: nat, k: nat)
    requires i < k < |DAG_HEAD|
    ensures Precedes(BuildDagSteps(options), DAG_HEAD[i], DAG_HEAD[k])
  {
    hide DAG_HEAD;
    var dag := BuildDagSteps(options);
    forall j | 0 <= j < |dag| && dag[j] == DAG_HEAD[k] ensures i < j {
      if j < |DAG_HEAD| {
        HeadsDiffer(j, k);
      }
    }
    assert dag[i] == DAG_HEAD[i];
  }

  lemma NotAHead(step: string, i: nat)
    requires i < |DAG_HEAD| && (step == "summarize_final" || "finalize:" <= step)
    ensures DAG_HEAD[i] != step
  {
    HeadMarks(i);
    hide DAG_HEAD;
    assert step == "summarize_final" ==> |step| == 15 && step[0] == 's';
    assert "finalize:" <= step ==> step[0] == 'f';
  }

  lemma TailFollowsHead(options: Options, step: string)
    requires step == "summarize_final" || "finalize:" <= step
    ensures Precedes(BuildDagSteps(options), DAG_HEAD[12], step)
  {
    var dag := BuildDagSteps(options);
    forall j | 0 <= j < |dag| && dag[j] == step ensures 12 < j {
      if j < |DAG_HEAD| {
        NotAHead(step, j);
      }
    }
    assert dag[12] == DAG_HEAD[12];
  }

  /** The list has every step after the steps it follows, whatever prompts are selected. */
  lemma DagRespectsFollows(options: Options, step: string, earlier: string)
    requires Follows(step, earlier)
    ensures Precedes(BuildDagSteps(options), earlier, step)
  {
    hide Precedes, BuildDagSteps;
    match earlier {
      case "download" => HeadPrecedes(options, 0, 1);
      case "extract_audio" => HeadPrecedes(options, 1, 2);
      case "trim_initial_silence" => HeadPrecedes(options, 2, 3);
      case "segment_audio" => HeadPrecedes(options, 3, 4);
      case "detect_language" => HeadPrecedes(options, 4, 5);
      case "transcribe_segments" => HeadPrecedes(options, 5, 6);
      case "diarize" =>
        HeadPrecedes(options, 6, 7);
        HeadPrecedes(options, 6, 9);
      case "merge_transcript" => HeadPrecedes(options, 7, 10);
      case "prepare_llama_model" => HeadPrecedes(options, 8, 10);
      case "match_speakers" => HeadPrecedes(options, 9, 10);
      case "prepare_summary_chunks" => HeadPrecedes(options, 10, 11);
      case "summarize_windows" => HeadPrecedes(options, 11, 12);
      case "pack_window_notes" => TailFollowsHead(options, step);
      case _ =>
    }
  }

  /** Selected prompts end the list in the order of their selection; without any, it is the head alone. */
  lemma TailIsTheSelection(options: Options, k: nat)
    requires k < |options.prompts|
    ensures var dag, r := BuildDagSteps(options), options.prompts[k];
            && |dag| == 13 + |options.prompts|
            && (r.source == "system" && r.id == "summary" ==> dag[13 + k] == "summarize_final")
            && (!(r.source == "system" && r.id == "summary") ==> dag[13 + k] == "finalize:" + r.source + ":" + r.id)
  {
  }

  /**
   Which steps run: without the transcript only the download; without prompts all
   but the four of the summary head; otherwise every one.
   */
  lemma EnabledSteps(options: Options, i: nat)
    requires i < |BuildDagSteps(options)|
    ensures IsStepEnabled(BuildDagSteps(options)[i], options)
        <==> if options.transcript then options.prompts != [] || i !in {8, 10, 11, 12} else i == 0
  {
    hide DAG_HEAD, IsStepEnabled;
    var dag := BuildDagSteps(options);
    if i < |DAG_HEAD| {
      HeadEnabled(options, i);
    } else {
      TailEnabled(options, options.prompts[i - |DAG_HEAD|]);
      HeadCount();
    }
  }

  lemma HeadCount()
    ensures |DAG_HEAD| == 13
  {
  }

  lemma TailEnabled(options: Options, r: PromptRef)
    ensures IsStepEnabled(FinalizeStepName(r), options) <==> options.transcript
  {
    TailIsNoHead(r, 0);
    assert r != PromptRef("system", "summary") ==> "finalize:" <= FinalizeStepName(r);
  }

  lemma HeadEnabled(options: Options, i: nat)
    requires i < |DAG_HEAD|
    ensures IsStepEnabled(DAG_HEAD[i], options)
        <==> if options.transcript then options.prompts != [] || i !in {8, 10, 11, 12} else i == 0
  {
    HeadNames();
    hide DAG_HEAD;
    var name := DAG_HEAD[i];
    assert name != "summarize_final" && !("finalize:" <= name) by {
      if name == "summarize_final" || "finalize:" <= name { NotAHead(name, i); }
    }
    if name == "download" { HeadsDiffer(i, 0); }
    if name == "prepare_llama_model" { HeadsDiffer(i, 8); }
    if name == "prepare_summary_chunks" { HeadsDiffer(i, 10); }
    if name == "summarize_windows" { HeadsDiffer(i, 11); }
    if name == "pack_window_notes" { HeadsDiffer(i, 12); }
  }

  lemma HeadNames()
    ensures |DAG_HEAD| == 13
    ensures DAG_HEAD[0] == "download" && DAG_HEAD[8] == "prepare_llama_model" && DAG_HEAD[10] == "prepare_summary_chunks"
    ensures DAG_HEAD[11] == "summarize_windows" && DAG_HEAD[12] == "pack_window_notes"
  {
  }

  // ---------- one step ----------

  datatype StepStatus = StepPending | StepRunning | StepCompleted | StepFailed | StepSkipped

  datatype Step = Step(status: StepStatus, attempt: nat, message: Option<string>)

  type Steps = map<string, Step>

  /** How a step's own work ends; the last case is a worker stopped while queueing for a lane. */
  datatype Work = Finishes | Awaits | Pauses | Fails(error: string) | Discarded(error: string) | Interrupted | StoppedInQueue

  datatype Signal = Continue | AwaitingInput | Paused | Error(message: string) | Gone | Cancelled

  datatype StepResult = StepResult(steps: Steps, signal: Signal, started: bool)

  predicate IsDone(steps: Steps, name: string) {
    name in steps && (steps[name].status == StepCompleted || steps[name].status == StepSkipped)
  }

  function WithStatus(step: Step, status: StepStatus, message: Option<string>): Step {
    Step(status, if status == StepRunning then step.attempt + 1 else step.attempt, message)
  }

  function Upserted(steps: Steps, name: string): Steps {
    if name in steps then steps else steps[name := Step(StepPending, 0, None)]
  }

  function SignalOf(work: Work): Signal {
    match work
    case Finishes => Continue
    case Awaits => AwaitingInput
    case Pauses => Paused
    case Fails(e) => Error(e)
    case Discarded(_) => Gone
    case Interrupted => Cancelled
    case StoppedInQueue => Cancelled
  }

  /** The step row once its work has ended. A step that awaits input has done its job. */
  function StatusAfter(running: Step, work: Work): Step {
    match work
    case Finishes => WithStatus(running, StepCompleted, None)
    case Awaits => WithStatus(running, StepCompleted, None)
    case Pauses => WithStatus(running, StepPending, None)
    case Fails(e) => WithStatus(running, StepFailed, Some(e))
    case Discarded(e) => WithStatus(running, StepFailed, Some(e))
    case Interrupted => running
    case StoppedInQueue => running
  }

  function RunStep(steps: Steps, name: string, options: Options, alreadyDone: bool, work: Work): StepResult {
    var known := Upserted(steps, name);
    var step := known[name];
    if !IsStepEnabled(name, options) then
      StepResult(if step.status == StepSkipped then known
                 else known[name := WithStatus(step, StepSkipped, Some("Disabled by task options"))], Continue, false)
    else if step.status == StepCompleted && alreadyDone then StepResult(known, Continue, false)
    else if work == StoppedInQueue then StepResult(known, Cancelled, false)
    else StepResult(known[name := StatusAfter(WithStatus(step, StepRunning, None), work)], SignalOf(work), true)
  }

  // ---------- one run ----------

  /**
   What the outside world does at each position of the DAG during one run. The task
   row may be found gone before a step and, separately, right after it.
   */
  datatype Script = Script(pauseRequested: seq<bool>, gone: seq<bool>, canceled: seq<bool>, alreadyDone: seq<bool>,
                           work: seq<Work>, goneAfter: seq<bool>)

  ghost predicate Covers(script: Script, dag: seq<string>) {
    |script.pauseRequested| == |script.canceled| == |script.gone| == |script.alreadyDone|
        == |script.work| == |script.goneAfter| == |dag|
  }

  datatype End = AllDone | CanceledSeen | Stopped(at: nat, signal: Signal)

  /** A step that was started, with the step table as it stood just before. */
  datatype Start = Start(at: nat, before: Steps)

  datatype Outcome = Outcome(steps: Steps, end: End, starts: seq<Start>)

  function RunFrom(dag: seq<string>, i: nat, steps: Steps, options: Options, script: Script): Outcome
    requires i <= |dag| && Covers(script, dag)
    decreases |dag| - i
  {
    if i == |dag| then Outcome(steps, AllDone, [])
    else if script.pauseRequested[i] then Outcome(steps, Stopped(i, Paused), [])
    else if script.gone[i] then Outcome(steps, Stopped(i, Gone), [])
    else if script.canceled[i] then Outcome(steps, CanceledSeen, [])
    else
      var r := RunStep(steps, dag[i], options, script.alreadyDone[i], script.work[i]);
      var started := if r.started then [Start(i, steps)] else [];
      if r.signal != Continue then Outcome(r.steps, Stopped(i, r.signal), started)
      else if script.goneAfter[i] then Outcome(r.steps, Stopped(i, Gone), started)
      else Prefixed(started, RunFrom(dag, i + 1, r.steps, options, script))
  }

  function Prefixed(starts: seq<Start>, o: Outcome): Outcome {
    Outcome(o.steps, o.end, starts + o.starts)
  }

  function Run(steps: Steps, options: Options, script: Script): Outcome
    requires Covers(script, BuildDagSteps(options))
  {
    RunFrom(BuildDagSteps(options), 0, steps, options, script)
  }

  // ---------- the order of starts ----------

  ghost predicate DoneBefore(steps: Steps, dag: seq<string>, i: nat) {
    i <= |dag| && forall j :: 0 <= j < i ==> IsDone(steps, dag[j])
  }

  lemma StepKeepsDone(steps: Steps, dag: seq<string>, i: nat, options: Options, alreadyDone: bool, work: Work)
    requires i < |dag| && DoneBefore(steps, dag, i)
    requires RunStep(steps, dag[i], options, alreadyDone, work).signal == Continue
    ensures DoneBefore(RunStep(steps, dag[i], options, alreadyDone, work).steps, dag, i + 1)
  {
    hide IsStepEnabled;
    var r := RunStep(steps, dag[i], options, alreadyDone, work);
    assert IsDone(r.steps, dag[i]);
    forall j | 0 <= j < i + 1 ensures IsDone(r.steps, dag[j]) {
      if j < i && dag[j] != dag[i] {
        assert IsDone(steps, dag[j]);
      }
    }
  }

  /**
   A step starts only when every earlier DAG step is completed or skipped, and a
   run that reaches the end leaves every DAG step completed or skipped.
   */
  lemma {:induction false} StartsFollowTheDag(dag: seq<string>, i: nat, steps: Steps, options: Options, script: Script)
    requires i <= |dag| && Covers(script, dag) && DoneBefore(steps, dag, i)
    ensures var o := RunFrom(dag, i, steps, options, script);
            && (forall s :: s in o.starts ==> i <= s.at < |dag| && DoneBefore(s.before, dag, s.at))
            && (forall k, l :: 0 <= k < l < |o.starts| ==> o.starts[k].at < o.starts[l].at)
            && (o.end == AllDone ==> DoneBefore(o.steps, dag, |dag|))
    decreases |dag| - i
  {
    hide IsStepEnabled, RunStep, DoneBefore;
    if i < |dag| && !script.pauseRequested[i] && !script.canceled[i] && !script.gone[i] {
      var r := RunStep(steps, dag[i], options, script.alreadyDone[i], script.work[i]);
      if r.signal == Continue {
        StepKeepsDone(steps, dag, i, options, script.alreadyDone[i], script.work[i]);
        StartsFollowTheDag(dag, i + 1, r.steps, options, script);
      }
    }
  }

  /** In every run: a step starts only once each step it follows is completed or skipped. */
  lemma StartedAfterItsInputs(steps: Steps, options: Options, script: Script, start: Start, earlier: string)
    requires Covers(script, BuildDagSteps(options)) && start in Run(steps, options, script).starts
    requires start.at < |BuildDagSteps(options)| && Follows(BuildDagSteps(options)[start.at], earlier)
    ensures IsDone(start.before, earlier)
  {
    var dag := BuildDagSteps(options);
    StartsFollowTheDag(dag, 0, steps, options, script);
    DagRespectsFollows(options, dag[start.at], earlier);
    hide BuildDagSteps, RunFrom, IsDone, Follows;
    var i :| 0 <= i < |dag| && dag[i] == earlier && forall j :: 0 <= j < |dag| && dag[j] == dag[start.at] ==> i < j;
  }

  // ---------- runs after runs ----------

  /** No enabled step up to and including position k is left to do. */
  ghost predicate PassedThrough(steps: Steps, dag: seq<string>, options: Options, k: nat) {
    k < |dag| && forall j :: 0 <= j <= k && IsStepEnabled(dag[j], options) ==>
        dag[j] in steps && steps[dag[j]].status == StepCompleted
  }

  /** Artefacts are present: a completed step never asks to be redone. */
  ghost predicate ArtefactsPresent(script: Script) {
    forall i :: 0 <= i < |script.alreadyDone| ==> script.alreadyDone[i]
  }

  lemma StepKeepsCompleted(steps: Steps, name: string, options: Options, work: Work, other: string)
    requires other in steps && steps[other].status == StepCompleted && IsStepEnabled(other, options)
    ensures var r := RunStep(steps, name, options, true, work);
            && other in r.steps && r.steps[other].status == StepCompleted
            && (name == other ==> !r.started && r.signal == Continue)
  {
  }

  /** With artefacts present a run starts nothing that was passed before, and undoes nothing. */
  lemma {:induction false} RunKeepsPassed(dag: seq<string>, i: nat, steps: Steps, options: Options, script: Script, k: nat)
    requires i <= |dag| && Covers(script, dag) && PassedThrough(steps, dag, options, k) && ArtefactsPresent(script)
    ensures var o := RunFrom(dag, i, steps, options, script);
            && PassedThrough(o.steps, dag, options, k)
            && forall s :: s in o.starts ==> s.at > k
    decreases |dag| - i
  {
    hide IsStepEnabled, RunStep;
    if i < |dag| && !script.pauseRequested[i] && !script.canceled[i] && !script.gone[i] {
      var r := RunStep(steps, dag[i], options, script.alreadyDone[i], script.work[i]);
      forall j | 0 <= j <= k && IsStepEnabled(dag[j], options)
        ensures dag[j] in r.steps && r.steps[dag[j]].status == StepCompleted
      {
        StepKeepsCompleted(steps, dag[i], options, script.work[i], dag[j]);
      }
      if i <= k {
        NotStartedAgain(steps, dag[i], options, script.work[i]);
      }
      if r.signal == Continue {
        RunKeepsPassed(dag, i + 1, r.steps, options, script, k);
      }
    }
  }

  lemma NotStartedAgain(steps: Steps, name: string, options: Options, work: Work)
    requires IsStepEnabled(name, options) ==> name in steps && steps[name].status == StepCompleted
    ensures !RunStep(steps, name, options, true, work).started
  {
  }

  ghost predicate PassedBefore(steps: Steps, dag: seq<string>, options: Options, i: nat) {
    i <= |dag| && forall j :: 0 <= j < i && IsStepEnabled(dag[j], options) ==>
        dag[j] in steps && steps[dag[j]].status == StepCompleted
  }

  /** A step that stops to await input is left completed, and with it everything before it. */
  lemma {:induction false} AwaitLeavesCompleted(dag: seq<string>, i: nat, steps: Steps, options: Options, script: Script)
    requires i <= |dag| && Covers(script, dag) && PassedBefore(steps, dag, options, i)
    ensures var o := RunFrom(dag, i, steps, options, script);
            o.end.Stopped? && o.end.signal == AwaitingInput ==>
              && o.end.at < |dag| && IsStepEnabled(dag[o.end.at], options)
              && PassedThrough(o.steps, dag, options, o.end.at)
              && o.starts != [] && o.starts[|o.starts| - 1].at == o.end.at
    decreases |dag| - i
  {
    hide IsStepEnabled, RunStep, PassedBefore, PassedThrough;
    if i < |dag| && !script.pauseRequested[i] && !script.canceled[i] && !script.gone[i] {
      var r := RunStep(steps, dag[i], options, script.alreadyDone[i], script.work[i]);
      StepPasses(steps, dag, i, options, script.alreadyDone[i], script.work[i]);
      if r.signal == Continue {
        AwaitLeavesCompleted(dag, i + 1, r.steps, options, script);
      }
    }
  }

  lemma StepPasses(steps: Steps, dag: seq<string>, i: nat, options: Options, alreadyDone: bool, work: Work)
    requires i < |dag| && PassedBefore(steps, dag, options, i)
    ensures var r := RunStep(steps, dag[i], options, alreadyDone, work);
            && (r.signal == Continue ==> PassedBefore(r.steps, dag, options, i + 1))
            && (r.signal == AwaitingInput ==>
                  r.started && IsStepEnabled(dag[i], options) && PassedThrough(r.steps, dag, options, i))
  {
    hide IsStepEnabled;
    var r := RunStep(steps, dag[i], options, alreadyDone, work);
    if r.signal == Continue || r.signal == AwaitingInput {
      assert IsStepEnabled(dag[i], options) ==> r.steps[dag[i]].status == StepCompleted;
    }
  }

  /** The outcomes of runs made one after another on the same task with the same options. */
  function Runs(steps: Steps, options: Options, scripts: seq<Script>): seq<Outcome>
    requires forall s :: s in scripts ==> Covers(s, BuildDagSteps(options))
    decreases |scripts|
  {
    if scripts == [] then []
    else
      var o := Run(steps, options, scripts[0]);
      [o] + Runs(o.steps, options, scripts[1..])
  }

  lemma {:induction false} RunsKeepPassed(steps: Steps, options: Options, scripts: seq<Script>, k: nat)
    requires forall s :: s in scripts ==> Covers(s, BuildDagSteps(options)) && ArtefactsPresent(s)
    requires PassedThrough(steps, BuildDagSteps(options), options, k)
    ensures forall o, s :: o in Runs(steps, options, scripts) && s in o.starts ==> s.at > k
    decreases |scripts|
  {
    hide BuildDagSteps, RunFrom, IsStepEnabled, PassedThrough;
    if scripts != [] {
      RunKeepsPassed(BuildDagSteps(options), 0, steps, options, scripts[0], k);
      RunsKeepPassed(Run(steps, options, scripts[0]).steps, options, scripts[1..], k);
    }
  }

  ghost predicate AwaitsInput(o: Outcome) {
    o.end.Stopped? && o.end.signal == AwaitingInput
  }

  /**
   Over any sequence of runs with artefacts present, once a run has stopped to
   await input at some step, every later run starts only at strictly later steps.
   */
  lemma {:induction false} ResumesStartLater(steps: Steps, options: Options, scripts: seq<Script>, a: nat, b: nat)
    requires forall s :: s in scripts ==> Covers(s, BuildDagSteps(options)) && ArtefactsPresent(s)
    requires a < b < |Runs(steps, options, scripts)|
    ensures var runs := Runs(steps, options, scripts);
            AwaitsInput(runs[a]) ==> forall s :: s in runs[b].starts ==> s.at > runs[a].end.at
    decreases |scripts|
  {
    hide BuildDagSteps, RunFrom, IsStepEnabled, PassedThrough;
    var o := Run(steps, options, scripts[0]);
    var rest := Runs(o.steps, options, scripts[1..]);
    if a == 0 {
      AwaitLeavesCompleted(BuildDagSteps(options), 0, steps, options, scripts[0]);
      if AwaitsInput(o) {
        RunsKeepPassed(o.steps, options, scripts[1..], o.end.at);
        assert rest[b - 1] in rest;
      }
    } else {
      ResumesStartLater(o.steps, options, scripts[1..], a - 1, b - 1);
    }
  }

  lemma {:induction false} AwaitsWithinDag(steps: Steps, options: Options, scripts: seq<Script>, a: nat)
    requires forall s :: s in scripts ==> Covers(s, BuildDagSteps(options))
    requires a < |Runs(steps, options, scripts)| && AwaitsInput(Runs(steps, options, scripts)[a])
    ensures var o := Runs(steps, options, scripts)[a];
            o.end.at < |BuildDagSteps(options)| && o.starts != [] && o.starts[|o.starts| - 1].at == o.end.at
    decreases |scripts|
  {
    hide BuildDagSteps, RunFrom, IsStepEnabled, PassedThrough;
    if a == 0 {
      AwaitLeavesCompleted(BuildDagSteps(options), 0, steps, options, scripts[0]);
    } else {
      AwaitsWithinDag(Run(steps, options, scripts[0]).steps, options, scripts[1..], a - 1);
    }
  }

  /** Awaited steps move strictly forward, so a task can await input at most once per DAG step. */
  lemma AwaitsMoveForward(steps: Steps, options: Options, scripts: seq<Script>, a: nat, b: nat)
    requires forall s :: s in scripts ==> Covers(s, BuildDagSteps(options)) && ArtefactsPresent(s)
    requires a < b < |Runs(steps, options, scripts)|
    requires AwaitsInput(Runs(steps, options, scripts)[a]) && AwaitsInput(Runs(steps, options, scripts)[b])
    ensures Runs(steps, options, scripts)[a].end.at < Runs(steps, options, scripts)[b].end.at < |BuildDagSteps(options)|
  {
    hide Runs;
    ResumesStartLater(steps, options, scripts, a, b);
    AwaitsWithinDag(steps, options, scripts, b);
    var o := Runs(steps, options, scripts)[b];
    assert o.starts[|o.starts| - 1] in o.starts;
  }
}
