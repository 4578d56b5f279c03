/** The watcher's completion decision (CliApplication.WatchGenerationAsync): what a push event,
    an idle verification or a polling callback concludes from the run status and the step
    breakdown. */
module Completion {
  import opened Common
  import opened Snapshot

  /** `ActiveProjectResponse`; the start date is kept as its text. */
  datatype ActiveProjectResponse = ActiveProjectResponse(
    activeRunId: int, projectName: Option<string>, isFinished: bool, startDate: Option<string>)

  /** The step breakdown as the decision sees it: unavailable when the request throws, the
      root is not an object, or either of `allSteps` and `allActions` is missing; otherwise the
      two properties (each `None` when it is not an array). */
  datatype StepsData = Unavailable | Breakdown(steps: Steps, actions: Actions)

  datatype Decision =
    | InvalidSession  // run id -1: "Invalid generation session", the watcher stops
    | StepsCompleted  // the action or step test passed: summary, the watcher stops
    | Finished        // the run reports IsFinished: the watcher stops
    | KeepWatching

  predicate Stops(d: Decision)
  {
    !d.KeepWatching?
  }

  /** The render, both completion tests and the completion summary all return: nothing in
      the sequence a push event or the callbacks' `try` block runs throws. */
  predicate NothingThrows(steps: Steps, actions: Actions)
  {
    && !RenderThrows(steps, actions) && !ActionsTestThrows(actions)
    && !StepsTestThrows(steps, actions) && !SummaryThrows(steps, actions)
  }

  /** A push event carries the two collections directly: it ends the watch exactly when one
      of the completion tests passes and nothing on the way to the cancellation throws. */
  predicate EventCompletes(steps: Steps, actions: Actions)
  {
    NothingThrows(steps, actions) && (AllActionsCompleted(actions) || AllStepsCompleted(steps, actions))
  }

  /** The breakdown shows the generation done: present, one of the tests passes and nothing
      throws; an exception is caught and leaves the decision to the finished flag. */
  predicate BreakdownCompletes(data: StepsData)
  {
    data.Breakdown? && EventCompletes(data.steps, data.actions)
  }

  /** The idle-verification and polling callbacks: first the run id, then the breakdown, then
      the finished flag. */
  function Decide(status: ActiveProjectResponse, data: StepsData): (d: Decision)
    ensures d == InvalidSession <==> status.activeRunId == -1
    ensures d == StepsCompleted <==> status.activeRunId != -1 && BreakdownCompletes(data)
    ensures d == Finished <==> status.activeRunId != -1 && !BreakdownCompletes(data) && status.isFinished
    ensures Stops(d) <==> status.activeRunId == -1 || BreakdownCompletes(data) || status.isFinished
  {
    if status.activeRunId == -1 then InvalidSession
    else if BreakdownCompletes(data) then StepsCompleted
    else if status.isFinished then Finished
    else KeepWatching
  }

  /** An empty or missing collection is never evidence of completion: the breakdown completes
      only through a non-empty, all-completed action array or a non-empty step array. */
  lemma CompletionNeedsData(status: ActiveProjectResponse, data: StepsData)
    requires Decide(status, data) == StepsCompleted
    ensures data.Breakdown?
    ensures || (data.actions.Some? && |data.actions.value| > 0
                && forall i :: 0 <= i < |data.actions.value| ==> IsCompleted(data.actions.value[i]))
            || (data.steps.Some? && |data.steps.value| > 0)
  {
    EmptyIsNotCompleted(data.steps, data.actions);
  }

  /** Run id -1 wins over whatever the breakdown and the finished flag say. */
  lemma InvalidSessionWins(status: ActiveProjectResponse, data: StepsData, data': StepsData)
    requires status.activeRunId == -1
    ensures Decide(status, data) == Decide(status.(isFinished := !status.isFinished), data') == InvalidSession
  {
  }

  /** Without a usable breakdown the decision falls back on the finished flag alone. */
  lemma UnavailableFallsBackOnFinished(status: ActiveProjectResponse)
    requires status.activeRunId != -1
    ensures Decide(status, Unavailable) == if status.isFinished then Finished else KeepWatching
  {
  }

  /** The step-level scenarios: one step "Build" bound to action 1, still running, then done. */
  lemma DecisionScenarios(status: ActiveProjectResponse)
    requires status.activeRunId == 7 && !status.isFinished
    ensures Decide(status, Breakdown(Some([Step(Has(1), Has("Build"))]),
                                     Some([Action(Has(1), Has(false), Present, Missing)]))) == KeepWatching
    ensures Decide(status, Breakdown(Some([Step(Has(1), Has("Build"))]),
                                     Some([Action(Has(1), Has(true), Absent, Has(12500))]))) == StepsCompleted
    ensures Decide(status, Breakdown(Some([]), Some([]))) == KeepWatching
  {
    var running := Some([Action(Has(1), Has(false), Present, Missing)]);
    var done := Some([Action(Has(1), Has(true), Absent, Has(12500))]);
    var steps := Some([Step(Has(1), Has("Build"))]);
    assert BlocksCompletion(steps.value[0], running);
    ReadableNeverThrows(steps, done);
  }

  /** The decision as intended, with the step test that requires every step to be shown
      completed. */
  function DecideIntended(status: ActiveProjectResponse, data: StepsData): (d: Decision)
    ensures d == StepsCompleted ==>
              data.Breakdown? && NothingThrows(data.steps, data.actions)
              && (|| AllActionsCompleted(data.actions)
                  || (data.steps.Some? && |data.steps.value| > 0
                      && forall i :: 0 <= i < |data.steps.value| ==> StepStatus(data.steps.value[i], data.actions) == Completed))
  {
    if status.activeRunId == -1 then InvalidSession
    else if && data.Breakdown? && NothingThrows(data.steps, data.actions)
            && (AllActionsCompleted(data.actions) || AllStepsShownCompleted(data.steps, data.actions))
    then StepsCompleted
    else if status.isFinished then Finished
    else KeepWatching
  }

  /** The two decisions part only where a step has no action to match: then the decision as
      written may complete while the intended one does not. */
  lemma {:induction false} DecideIntendedAgrees(status: ActiveProjectResponse, data: StepsData)
    requires data.Breakdown? && data.steps.Some?
    requires forall i :: 0 <= i < |data.steps.value| ==> MatchedAction(data.steps.value[i], data.actions).Some?
    ensures DecideIntended(status, data) == Decide(status, data)
  {
    ShownCompletedIsMatchedStepTest(data.steps, data.actions);
  }

  /** The vacuous completion as written: a running generation whose only step points at an
      action the breakdown does not list ends the watch. */
  lemma VacuousCompletion(status: ActiveProjectResponse)
    requires status.activeRunId == 7 && !status.isFinished
    ensures Decide(status, Breakdown(Some([Step(Has(1), Has("Build"))]), Some([]))) == StepsCompleted
    ensures DecideIntended(status, Breakdown(Some([Step(Has(1), Has("Build"))]), Some([]))) == KeepWatching
  {
    AllStepsCompletedWithoutActions();
    ShownCompletedNeedsActions(Some([Step(Has(1), Has("Build"))]), Some([]));
    ReadableNeverThrows(Some([Step(Has(1), Has("Build"))]), Some([]));
  }

  /** When the render, a test or the summary throws, the catch leaves the decision to the
      finished flag, whatever the tests would have said. */
  lemma ThrowFallsBackOnFinished(status: ActiveProjectResponse, steps: Steps, actions: Actions)
    requires status.activeRunId != -1 && !NothingThrows(steps, actions)
    ensures Decide(status, Breakdown(steps, actions)) == if status.isFinished then Finished else KeepWatching
  {
  }

  /** On a snapshot whose fields can all be read, the breakdown completes exactly when one of
      the two tests passes. */
  lemma ReadableDecision(status: ActiveProjectResponse, steps: Steps, actions: Actions)
    requires status.activeRunId != -1 && Readable(steps, actions)
    ensures Decide(status, Breakdown(steps, actions)) ==
            if AllActionsCompleted(actions) || AllStepsCompleted(steps, actions) then StepsCompleted
            else if status.isFinished then Finished
            else KeepWatching
  {
    ReadableNeverThrows(steps, actions);
  }

  /** A running generation whose first action is completed and whose second carries
      `isCompleted: null`: the step test alone passes, but the action test throws on the
      null, so the callback falls back on the finished flag and keeps watching. */
  lemma NullCompletionFlagKeepsWatching(status: ActiveProjectResponse)
    requires status.activeRunId == 7 && !status.isFinished
    ensures var steps := Some([Step(Has(1), Missing)]);
            var actions := Some([Action(Has(1), Has(true), Absent, Missing), Action(Has(2), Unreadable, Absent, Missing)]);
            && AllStepsCompleted(steps, actions)
            && ActionsTestThrows(actions)
            && Decide(status, Breakdown(steps, actions)) == KeepWatching
  {
    var actions := [Action(Has(1), Has(true), Absent, Missing), Action(Has(2), Unreadable, Absent, Missing)];
    assert actions[1..][0].isCompleted.Unreadable?;
  }
}
