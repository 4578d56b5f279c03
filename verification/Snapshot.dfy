/** The generation snapshot (`allSteps` / `allActions`) and everything CliHelpers derives from it
    without touching the terminal: the matched action, the step status, the label, the
    rendered line list, the two completion tests and the completion summary. */
module Snapshot {
  import opened Common
  import opened Duration

  /** How an action carries `startDate`: no property, a JSON null, or any other value. */
  datatype DateField = Absent | Null | Present

  /** A property read through a getter that throws. `Missing`: no such property (for the
      description also a JSON null, which `GetString` returns as null). `Unreadable`: the
      getter throws on it (`GetInt32` on a null, a fraction or a non-number, `GetBoolean` on
      a non-boolean, `GetString` on a non-string, `TryGetDouble` on a non-number). `Has(v)`:
      it reads as `v`. An element that is not a JSON object throws on its first
      `TryGetProperty`, so it is an element whose fields are all `Unreadable`. */
  datatype Field<T> = Missing | Unreadable | Has(value: T)

  /** What a call that may throw gives: the exception, or its value. */
  datatype Outcome<T> = Threw | Returned(value: T)

  /** One element of `allActions`; `elapsedMs` is `elapsedTime`. */
  datatype Action = Action(id: Field<int>, isCompleted: Field<bool>, startDate: DateField, elapsedMs: Field<int>)

  /** One element of `allSteps`. */
  datatype Step = Step(actionId: Field<int>, description: Field<string>)

  /** `allSteps` and `allActions`: `None` when the element is not a JSON array. */
  type Steps = Option<seq<Step>>
  type Actions = Option<seq<Action>>

  datatype Status = Waiting | InProgress | Completed

  function StatusText(s: Status): (r: string)
    ensures |r| > 2 && r[1] == ' '
  {
    match s
    case Waiting => "\U{23F3} Waiting"
    case InProgress => "\U{1F504} In Progress"
    case Completed => "\U{2705} Completed"
  }

  lemma StatusTextInjective(a: Status, b: Status)
    ensures StatusText(a) == StatusText(b) <==> a == b
  {
    if a != b {
      assert StatusText(a)[0] != StatusText(b)[0];
    }
  }

  const WaitingForSteps: string := "\U{23F3} Waiting for generation steps..."

  /** The eight spinner frames. */
  const SpinnerChars: seq<string> :=
    ["\U{2192}", "\U{2198}", "\U{2193}", "\U{2199}", "\U{2190}", "\U{2196}", "\U{2191}", "\U{2197}"]

  /** The placeholder label of a step with nothing to show. */
  const NoDuration: string := "--"

  /** A missing `actionId` reads as 0 (an unreadable one throws first, see `MatchThrows`). */
  function ActionIdOf(step: Step): int
  {
    match step.actionId
    case Has(id) => id
    case _ => 0
  }

  /** The index of the first action whose `id` is `id`. */
  function FindAction(actions: seq<Action>, id: int): (r: Option<nat>)
    ensures r.Some? ==> r.value < |actions| && actions[r.value].id == Has(id)
    ensures r.Some? ==> forall j :: 0 <= j < r.value ==> actions[j].id != Has(id)
    ensures r.None? <==> forall j :: 0 <= j < |actions| ==> actions[j].id != Has(id)
  {
    if actions == [] then None
    else if actions[0].id == Has(id) then Some(0)
    else match FindAction(actions[1..], id)
      case None => None
      case Some(i) => Some(i + 1)
  }

  /** The action a step refers to, if `allActions` is an array holding one. */
  function MatchedAction(step: Step, actions: Actions): Option<Action>
  {
    if actions.None? then None
    else match FindAction(actions.value, ActionIdOf(step))
      case None => None
      case Some(i) => Some(actions.value[i])
  }

  predicate IsCompleted(a: Action)
  {
    a.isCompleted == Has(true)
  }

  function StatusOfAction(a: Option<Action>): Status
  {
    if a.None? then Waiting
    else if IsCompleted(a.value) then Completed
    else if a.value.startDate == Present then InProgress
    else Waiting
  }

  function StepStatus(step: Step, actions: Actions): Status
  {
    StatusOfAction(MatchedAction(step, actions))
  }

  /** The status is decided by the first matching action: completed beats started, and a
      step without a matching action waits. */
  lemma StepStatusCases(step: Step, actions: Actions)
    ensures StepStatus(step, actions) == Completed <==>
            exists i :: IsFirstMatch(step, actions, i) && IsCompleted(actions.value[i])
    ensures StepStatus(step, actions) == InProgress <==>
            exists i :: IsFirstMatch(step, actions, i) && !IsCompleted(actions.value[i])
                        && actions.value[i].startDate == Present
    ensures (forall i :: !IsFirstMatch(step, actions, i)) ==> StepStatus(step, actions) == Waiting
  {
    if actions.Some? {
      var r := FindAction(actions.value, ActionIdOf(step));
      if r.Some? {
        assert IsFirstMatch(step, actions, r.value);
        forall i | IsFirstMatch(step, actions, i) ensures i == r.value {}
      } else {
        forall i | IsFirstMatch(step, actions, i) ensures false {}
      }
    }
  }

  /** Index `i` of `allActions` holds the first action whose id is the step's action id. */
  ghost predicate IsFirstMatch(step: Step, actions: Actions, i: int)
  {
    actions.Some? && 0 <= i < |actions.value|
    && actions.value[i].id == Has(ActionIdOf(step))
    && forall j :: 0 <= j < i ==> actions.value[j].id != Has(ActionIdOf(step))
  }

  /** The spinner frame after this step: one further for a step in progress. */
  function Advance(frame: nat, step: Step, actions: Actions): nat
  {
    if StepStatus(step, actions) == InProgress then (frame + 1) % 8 else frame
  }

  /** The label shown after the step's frame has been advanced to `frame`. */
  function StepLabel(step: Step, actions: Actions, frame: nat): string
    requires frame < 8
  {
    match StepStatus(step, actions)
    case InProgress => SpinnerChars[frame]
    case Completed =>
      (match MatchedAction(step, actions).value.elapsedMs
       case Has(ms) => FormatDuration(ms)
       case _ => NoDuration)
    case Waiting => NoDuration
  }

  function Description(step: Step): string
  {
    match step.description
    case Has(d) => d
    case _ => "Unknown"
  }

  /** `"{status} - {description} [{label}]"`. */
  function StepLine(step: Step, actions: Actions, frame: nat): string
    requires frame < 8
  {
    StatusText(StepStatus(step, actions)) + " - " + Description(step) + " [" + StepLabel(step, actions, frame) + "]"
  }

  /** The lines of an array of steps, in order, each drawn with the frame its own step
      advances the spinner to. */
  function LinesFrom(steps: seq<Step>, actions: Actions, frame: nat): (r: seq<string>)
    requires frame < 8
    ensures |r| == |steps|
  {
    if steps == [] then []
    else
      var f := Advance(frame, steps[0], actions);
      [StepLine(steps[0], actions, f)] + LinesFrom(steps[1..], actions, f)
  }

  /** The spinner frame an array of steps leaves behind. */
  function FrameAfter(steps: seq<Step>, actions: Actions, frame: nat): (r: nat)
    requires frame < 8
    ensures r < 8
  {
    if steps == [] then frame else FrameAfter(steps[1..], actions, Advance(frame, steps[0], actions))
  }

  /** The line list of a snapshot: the waiting placeholder when `allSteps` is not an array,
      otherwise one line per step (none for an empty array). */
  function RenderLines(steps: Steps, actions: Actions, frame: nat): (r: (seq<string>, nat))
    requires frame < 8
    ensures r.1 < 8
  {
    if steps.None? then ([WaitingForSteps], frame)
    else (LinesFrom(steps.value, actions, frame), FrameAfter(steps.value, actions, frame))
  }

  /** The number of steps shown in progress. */
  function InProgressCount(steps: seq<Step>, actions: Actions): (r: nat)
    ensures r <= |steps|
  {
    if steps == [] then 0
    else (if StepStatus(steps[0], actions) == InProgress then 1 else 0) + InProgressCount(steps[1..], actions)
  }

  lemma {:induction false} InProgressCountSnoc(steps: seq<Step>, s: Step, actions: Actions)
    ensures InProgressCount(steps + [s], actions)
            == InProgressCount(steps, actions) + (if StepStatus(s, actions) == InProgress then 1 else 0)
  {
    if steps != [] {
      assert (steps + [s])[1..] == steps[1..] + [s];
      InProgressCountSnoc(steps[1..], s, actions);
    } else {
      assert [s][1..] == [];
    }
  }

  /** Advancing the frame, then by `k` more steps, is advancing by the sum. */
  lemma FrameSum(frame: nat, f: nat, k: nat, step: nat)
    requires step <= 1 && f == (frame + step) % 8
    ensures (f + k) % 8 == (frame + (step + k)) % 8
  {
  }

  /** Whether a step is in progress, as a count of 0 or 1. */
  function InProgressStep(step: Step, actions: Actions): (r: nat)
    ensures r <= 1 && (r == 1 <==> StepStatus(step, actions) == InProgress)
  {
    if StepStatus(step, actions) == InProgress then 1 else 0
  }

  lemma AdvanceBy(frame: nat, step: Step, actions: Actions)
    requires frame < 8
    ensures Advance(frame, step, actions) == (frame + InProgressStep(step, actions)) % 8
  {
  }

  lemma InProgressCountFirst(steps: seq<Step>, actions: Actions)
    requires steps != []
    ensures InProgressCount(steps, actions) == InProgressStep(steps[0], actions) + InProgressCount(steps[1..], actions)
  {
  }

  /** The spinner advances once per step in progress. */
  lemma {:induction false} FrameAfterCount(steps: seq<Step>, actions: Actions, frame: nat)
    requires frame < 8
    ensures FrameAfter(steps, actions, frame) == (frame + InProgressCount(steps, actions)) % 8
  {
    if steps != [] {
      var f := Advance(frame, steps[0], actions);
      FrameAfterCount(steps[1..], actions, f);
      AdvanceBy(frame, steps[0], actions);
      InProgressCountFirst(steps, actions);
      FrameSum(frame, f, InProgressCount(steps[1..], actions), InProgressStep(steps[0], actions));
    }
  }

  /** Line `i` is the line of step `i`, drawn with the frame reached after the steps before
      it and the step itself. */
  lemma {:induction false} LinesFromAt(steps: seq<Step>, actions: Actions, frame: nat, i: nat)
    requires frame < 8 && i < |steps|
    ensures LinesFrom(steps, actions, frame)[i] == StepLine(steps[i], actions, FrameAfter(steps[..i + 1], actions, frame))
  {
    var f := Advance(frame, steps[0], actions);
    var prefix := steps[..i + 1];
    assert prefix[0] == steps[0];
    if i == 0 {
      assert prefix[1..] == [];
    } else {
      LinesFromAt(steps[1..], actions, f, i - 1);
      assert steps[1..][..i] == prefix[1..];
    }
  }

  /** A snapshot whose steps are no array shows exactly the placeholder; an empty array shows
      nothing; the frame only moves for steps in progress. */
  lemma RenderLinesShape(steps: Steps, actions: Actions, frame: nat)
    requires frame < 8
    ensures steps.None? ==> RenderLines(steps, actions, frame) == ([WaitingForSteps], frame)
    ensures steps == Some([]) ==> RenderLines(steps, actions, frame) == ([], frame)
    ensures steps.Some? ==> |RenderLines(steps, actions, frame).0| == |steps.value|
    ensures steps.Some? ==>
            RenderLines(steps, actions, frame).1 == (frame + InProgressCount(steps.value, actions)) % 8
  {
    if steps.Some? {
      FrameAfterCount(steps.value, actions, frame);
    }
  }

  /** Without a step in progress the lines do not depend on the spinner frame. */
  lemma {:induction false} LinesIgnoreFrame(steps: seq<Step>, actions: Actions, f1: nat, f2: nat)
    requires f1 < 8 && f2 < 8 && InProgressCount(steps, actions) == 0
    ensures LinesFrom(steps, actions, f1) == LinesFrom(steps, actions, f2)
  {
    if steps != [] {
      InProgressCountFirst(steps, actions);
      LinesIgnoreFrame(steps[1..], actions, f1, f2);
    }
  }

  /** A snapshot with no step in progress renders the same on every repeat: the frame it
      leaves is the one it was given, and its lines are the same from any frame. */
  lemma SettledRenderRepeats(steps: Steps, actions: Actions, frame: nat)
    requires frame < 8
    requires steps.Some? ==> InProgressCount(steps.value, actions) == 0
    ensures RenderLines(steps, actions, frame).1 == frame
    ensures forall other :: other < 8 ==> RenderLines(steps, actions, other).0 == RenderLines(steps, actions, frame).0
  {
    if steps.Some? {
      FrameAfterCount(steps.value, actions, frame);
      forall other | other < 8
        ensures RenderLines(steps, actions, other).0 == RenderLines(steps, actions, frame).0
      {
        LinesIgnoreFrame(steps.value, actions, other, frame);
      }
    }
  }

  /** A step whose action id matches no action waits and shows the placeholder label. */
  lemma UnmatchedStepWaits(step: Step, actions: Actions, frame: nat)
    requires frame < 8
    requires actions.Some? ==> forall j :: 0 <= j < |actions.value| ==> actions.value[j].id != Has(ActionIdOf(step))
    ensures StepStatus(step, actions) == Waiting
    ensures StepLabel(step, actions, frame) == NoDuration
    ensures Advance(frame, step, actions) == frame
  {
  }

  /** A step in progress shows the frame after the one it was given. */
  lemma InProgressShowsNextFrame(step: Step, actions: Actions, frame: nat)
    requires frame < 8 && StepStatus(step, actions) == InProgress
    ensures StepLabel(step, actions, Advance(frame, step, actions)) == SpinnerChars[(frame + 1) % 8]
  {
  }

  // Where the getters throw

  /** The `FirstOrDefault` search for `id` throws: it reaches an action whose `id` cannot be
      read before it reaches one whose `id` is `id`. */
  predicate FindThrows(actions: seq<Action>, id: int)
  {
    actions != [] && (actions[0].id.Unreadable? || (actions[0].id != Has(id) && FindThrows(actions[1..], id)))
  }

  /** Finding the step's action throws: its `actionId` cannot be read, or the search does. */
  predicate MatchThrows(step: Step, actions: Actions)
  {
    step.actionId.Unreadable? || (actions.Some? && FindThrows(actions.value, ActionIdOf(step)))
  }

  /** Finding the step's action, or reading that action's `isCompleted`, throws. */
  predicate CompletedThrows(step: Step, actions: Actions)
  {
    || MatchThrows(step, actions)
    || (var a := MatchedAction(step, actions); a.Some? && a.value.isCompleted.Unreadable?)
  }

  /** `GetStepStatus` throws: as `CompletedThrows`, or the action is completed and its
      `elapsedTime` is not a number. */
  predicate StatusThrows(step: Step, actions: Actions)
  {
    || CompletedThrows(step, actions)
    || (var a := MatchedAction(step, actions); a.Some? && IsCompleted(a.value) && a.value.elapsedMs.Unreadable?)
  }

  /** Building the step's line throws: its status does, or its description is not a string. */
  predicate LineThrows(step: Step, actions: Actions)
  {
    StatusThrows(step, actions) || step.description.Unreadable?
  }

  /** The render's step loop throws at some step. */
  predicate LinesThrow(steps: seq<Step>, actions: Actions)
  {
    steps != [] && (LineThrows(steps[0], actions) || LinesThrow(steps[1..], actions))
  }

  /** Building the render's line list throws. */
  predicate RenderThrows(steps: Steps, actions: Actions)
  {
    steps.Some? && LinesThrow(steps.value, actions)
  }

  /** The spinner frame when the step loop throws: moved on by the steps before the throwing
      one, and by that step too when its status was read and only its description throws. */
  function FrameAtThrow(steps: seq<Step>, actions: Actions, frame: nat): (r: nat)
    requires frame < 8
    ensures r < 8
  {
    if steps == [] then frame
    else if StatusThrows(steps[0], actions) then frame
    else if steps[0].description.Unreadable? then Advance(frame, steps[0], actions)
    else FrameAtThrow(steps[1..], actions, Advance(frame, steps[0], actions))
  }

  /** One pass of the render's step loop: the step's line, or the exception when a field it
      reads cannot be read, with the spinner frame it leaves; the frame moves only once the
      status has been read. */
  function StepOutcome(step: Step, actions: Actions, frame: nat): (r: (Outcome<string>, nat))
    requires frame < 8
    ensures r.1 < 8
  {
    if StatusThrows(step, actions) then (Threw, frame)
    else
      var f := Advance(frame, step, actions);
      (if step.description.Unreadable? then Threw else Returned(StepLine(step, actions, f)), f)
  }

  /** The render's step loop as a whole: the line list, or the exception of the first step
      that throws, with the spinner frame it leaves behind. */
  function StepLoop(steps: seq<Step>, actions: Actions, frame: nat): (r: (Outcome<seq<string>>, nat))
    requires frame < 8
    ensures r.1 < 8
  {
    if steps == [] then (Returned([]), frame)
    else
      var o := StepOutcome(steps[0], actions, frame);
      if o.0.Threw? then (Threw, o.1)
      else After([o.0.value], StepLoop(steps[1..], actions, o.1))
  }

  /** The rest of the loop's result after the lines already built. */
  function After(lines: seq<string>, rest: (Outcome<seq<string>>, nat)): (Outcome<seq<string>>, nat)
  {
    (if rest.0.Threw? then Threw else Returned(lines + rest.0.value), rest.1)
  }

  /** The loop throws exactly when a step's line throws, leaving the frame of `FrameAtThrow`;
      otherwise it gives the lines of `LinesFrom` and the frame of `FrameAfter`. */
  lemma {:induction false} StepLoopMeaning(steps: seq<Step>, actions: Actions, frame: nat)
    requires frame < 8
    ensures StepLoop(steps, actions, frame).0 ==
            if LinesThrow(steps, actions) then Threw else Returned(LinesFrom(steps, actions, frame))
    ensures StepLoop(steps, actions, frame).1 ==
            if LinesThrow(steps, actions) then FrameAtThrow(steps, actions, frame) else FrameAfter(steps, actions, frame)
  {
    if steps != [] {
      StepLoopMeaning(steps[1..], actions, Advance(frame, steps[0], actions));
    }
  }

  /** The search throws exactly when an unreadable id comes before every action with the
      sought id. */
  lemma {:induction false} FindThrowsAt(actions: seq<Action>, id: int)
    ensures FindThrows(actions, id) <==>
            exists i :: 0 <= i < |actions| && actions[i].id.Unreadable?
                        && forall j :: 0 <= j < i ==> actions[j].id != Has(id)
  {
    if actions != [] {
      FindThrowsAt(actions[1..], id);
      if FindThrows(actions, id) && !actions[0].id.Unreadable? {
        var i :| 0 <= i < |actions[1..]| && actions[1..][i].id.Unreadable?
                 && forall j :: 0 <= j < i ==> actions[1..][j].id != Has(id);
        assert actions[i + 1].id.Unreadable?;
      }
      if exists i :: 0 <= i < |actions| && actions[i].id.Unreadable?
                     && forall j :: 0 <= j < i ==> actions[j].id != Has(id) {
        var i :| 0 <= i < |actions| && actions[i].id.Unreadable?
                 && forall j :: 0 <= j < i ==> actions[j].id != Has(id);
        if i > 0 {
          assert actions[1..][i - 1].id.Unreadable?;
          assert forall j :: 0 <= j < i - 1 ==> actions[1..][j].id != Has(id) by {
            forall j | 0 <= j < i - 1 ensures actions[1..][j].id != Has(id) {
              assert actions[1..][j] == actions[j + 1];
            }
          }
        }
      }
    }
  }

  /** The render's loop throws exactly when some step's line throws. */
  lemma {:induction false} LinesThrowAt(steps: seq<Step>, actions: Actions)
    ensures LinesThrow(steps, actions) <==> exists i :: 0 <= i < |steps| && LineThrows(steps[i], actions)
  {
    if steps != [] {
      LinesThrowAt(steps[1..], actions);
      if LinesThrow(steps[1..], actions) {
        var i :| 0 <= i < |steps[1..]| && LineThrows(steps[1..][i], actions);
        assert LineThrows(steps[i + 1], actions);
      }
      if exists i :: 0 <= i < |steps| && LineThrows(steps[i], actions) {
        var i :| 0 <= i < |steps| && LineThrows(steps[i], actions);
        if i > 0 {
          assert LineThrows(steps[1..][i - 1], actions);
        }
      }
    }
  }

  /** `FirstOrDefault` with the id test, as evaluated for one step: `Threw` when `actionId`
      or an id read before the match cannot be read, otherwise the matched action. */
  method FindMatch(step: Step, actions: Actions) returns (r: Outcome<Option<Action>>)
    ensures r == if MatchThrows(step, actions) then Threw else Returned(MatchedAction(step, actions))
  {
    var id := 0;
    match step.actionId {
      case Unreadable => return Threw;
      case Missing =>
      case Has(v) => id := v;
    }
    if actions.None? {
      return Returned(None);
    }
    var list := actions.value;
    var i := 0;
    while i < |list|
      invariant 0 <= i <= |list|
      invariant forall j :: 0 <= j < i ==> list[j].id != Has(id)
      invariant FindThrows(list, id) == FindThrows(list[i..], id)
    {
      match list[i].id {
        case Unreadable =>
          return Threw;
        case Missing =>
        case Has(v) =>
          if v == id {
            return Returned(Some(list[i]));
          }
      }
      assert list[i..][1..] == list[i + 1..];
      i := i + 1;
    }
    return Returned(None);
  }

  // Completion tests

  /** `AreAllActionsCompleted`: a non-empty array all of whose actions carry `isCompleted: true`. */
  predicate AllActionsCompleted(actions: Actions)
  {
    actions.Some? && |actions.value| > 0 && forall i :: 0 <= i < |actions.value| ==> IsCompleted(actions.value[i])
  }

  /** A step blocks completion when its matched action exists and is not completed. */
  predicate BlocksCompletion(step: Step, actions: Actions)
  {
    var a := MatchedAction(step, actions);
    a.Some? && !IsCompleted(a.value)
  }

  /** `AreAllStepsCompleted`: a non-empty array of steps none of which blocks completion. Steps
      without a matching action do not block it. */
  predicate AllStepsCompleted(steps: Steps, actions: Actions)
  {
    steps.Some? && |steps.value| > 0 && forall i :: 0 <= i < |steps.value| ==> !BlocksCompletion(steps.value[i], actions)
  }

  /** `AreAllActionsCompleted` throws: scanning in order, it reaches an `isCompleted` that
      cannot be read before any action that is not completed. */
  predicate ActionsScanThrows(list: seq<Action>)
  {
    list != [] && (list[0].isCompleted.Unreadable? || (IsCompleted(list[0]) && ActionsScanThrows(list[1..])))
  }

  predicate ActionsTestThrows(actions: Actions)
  {
    actions.Some? && ActionsScanThrows(actions.value)
  }

  /** `AreAllStepsCompleted` throws: scanning in order, it reaches a step whose action cannot
      be found or whose `isCompleted` cannot be read before any step that blocks completion. */
  predicate StepsScanThrows(list: seq<Step>, actions: Actions)
  {
    list != [] && (CompletedThrows(list[0], actions) || (!BlocksCompletion(list[0], actions) && StepsScanThrows(list[1..], actions)))
  }

  predicate StepsTestThrows(steps: Steps, actions: Actions)
  {
    steps.Some? && StepsScanThrows(steps.value, actions)
  }

  /** The action test throws exactly when an unreadable `isCompleted` comes after completed
      actions only. */
  lemma {:induction false} ActionsScanThrowsAt(list: seq<Action>)
    ensures ActionsScanThrows(list) <==>
            exists i :: 0 <= i < |list| && list[i].isCompleted.Unreadable?
                        && forall j :: 0 <= j < i ==> IsCompleted(list[j])
  {
    if list != [] {
      ActionsScanThrowsAt(list[1..]);
      if ActionsScanThrows(list) && !list[0].isCompleted.Unreadable? {
        var i :| 0 <= i < |list[1..]| && list[1..][i].isCompleted.Unreadable?
                 && forall j :: 0 <= j < i ==> IsCompleted(list[1..][j]);
        assert list[i + 1].isCompleted.Unreadable?;
      }
      if exists i :: 0 <= i < |list| && list[i].isCompleted.Unreadable?
                     && forall j :: 0 <= j < i ==> IsCompleted(list[j]) {
        var i :| 0 <= i < |list| && list[i].isCompleted.Unreadable?
                 && forall j :: 0 <= j < i ==> IsCompleted(list[j]);
        if i > 0 {
          assert list[1..][i - 1].isCompleted.Unreadable?;
          assert forall j :: 0 <= j < i - 1 ==> IsCompleted(list[1..][j]) by {
            forall j | 0 <= j < i - 1 ensures IsCompleted(list[1..][j]) {
              assert list[1..][j] == list[j + 1];
            }
          }
        }
      }
    }
  }

  /** The step test throws exactly when a step whose lookup throws comes after steps that do
      not block completion only. */
  lemma {:induction false} StepsScanThrowsAt(list: seq<Step>, actions: Actions)
    ensures StepsScanThrows(list, actions) <==>
            exists i :: 0 <= i < |list| && CompletedThrows(list[i], actions)
                        && forall j :: 0 <= j < i ==> !BlocksCompletion(list[j], actions)
  {
    if list != [] {
      StepsScanThrowsAt(list[1..], actions);
      if StepsScanThrows(list, actions) && !CompletedThrows(list[0], actions) {
        var i :| 0 <= i < |list[1..]| && CompletedThrows(list[1..][i], actions)
                 && forall j :: 0 <= j < i ==> !BlocksCompletion(list[1..][j], actions);
        assert CompletedThrows(list[i + 1], actions);
      }
      if exists i :: 0 <= i < |list| && CompletedThrows(list[i], actions)
                     && forall j :: 0 <= j < i ==> !BlocksCompletion(list[j], actions) {
        var i :| 0 <= i < |list| && CompletedThrows(list[i], actions)
                 && forall j :: 0 <= j < i ==> !BlocksCompletion(list[j], actions);
        if i > 0 && !CompletedThrows(list[0], actions) {
          assert CompletedThrows(list[1..][i - 1], actions);
          assert forall j :: 0 <= j < i - 1 ==> !BlocksCompletion(list[1..][j], actions) by {
            forall j | 0 <= j < i - 1 ensures !BlocksCompletion(list[1..][j], actions) {
              assert list[1..][j] == list[j + 1];
            }
          }
        }
      }
    }
  }

  method AreAllActionsCompleted(actions: Actions) returns (r: Outcome<bool>)
    ensures r == if ActionsTestThrows(actions) then Threw else Returned(AllActionsCompleted(actions))
  {
    if actions.None? {
      return Returned(false);
    }
    var list := actions.value;
    if |list| == 0 {
      return Returned(false);
    }
    var i := 0;
    while i < |list|
      invariant 0 <= i <= |list|
      invariant forall j :: 0 <= j < i ==> IsCompleted(list[j])
      invariant ActionsScanThrows(list) == ActionsScanThrows(list[i..])
    {
      assert list[i..][0] == list[i] && list[i..][1..] == list[i + 1..];
      match list[i].isCompleted {
        case Unreadable =>
          return Threw;
        case Missing =>
          return Returned(false);
        case Has(b) =>
          if !b {
            return Returned(false);
          }
      }
      i := i + 1;
    }
    return Returned(true);
  }

  method AreAllStepsCompleted(steps: Steps, actions: Actions) returns (r: Outcome<bool>)
    ensures r == if StepsTestThrows(steps, actions) then Threw else Returned(AllStepsCompleted(steps, actions))
  {
    if steps.None? {
      return Returned(false);
    }
    var list := steps.value;
    if |list| == 0 {
      return Returned(false);
    }
    var i := 0;
    while i < |list|
      invariant 0 <= i <= |list|
      invariant forall j :: 0 <= j < i ==> !BlocksCompletion(list[j], actions)
      invariant StepsScanThrows(list, actions) == StepsScanThrows(list[i..], actions)
    {
      assert list[i..][0] == list[i] && list[i..][1..] == list[i + 1..];
      var found := FindMatch(list[i], actions);
      if found.Threw? {
        return Threw;
      }
      if found.value.Some? {
        match found.value.value.isCompleted {
          case Unreadable =>
            return Threw;
          case Missing =>
            return Returned(false);
          case Has(b) =>
            if !b {
              return Returned(false);
            }
        }
      }
      i := i + 1;
    }
    return Returned(true);
  }

  /** Neither test holds on an empty or missing collection. */
  lemma EmptyIsNotCompleted(steps: Steps, actions: Actions)
    ensures (actions.None? || actions == Some([])) ==> !AllActionsCompleted(actions)
    ensures (steps.None? || steps == Some([])) ==> !AllStepsCompleted(steps, actions)
  {
  }

  /** Once every action is completed, every non-empty step array passes the step test too. */
  lemma {:induction false} AllActionsImplyAllSteps(steps: Steps, actions: Actions)
    requires AllActionsCompleted(actions)
    requires steps.Some? && |steps.value| > 0
    ensures AllStepsCompleted(steps, actions)
  {
    forall i | 0 <= i < |steps.value|
      ensures !BlocksCompletion(steps.value[i], actions)
    {
      var r := FindAction(actions.value, ActionIdOf(steps.value[i]));
      if r.Some? {
        assert IsCompleted(actions.value[r.value]);
      }
    }
  }

  /** The step test as written lets through steps that point at no action: a single step
      whose action is missing from an empty action array counts as all steps completed. */
  lemma AllStepsCompletedWithoutActions()
    ensures AllStepsCompleted(Some([Step(Has(1), Has("Build"))]), Some([]))
    ensures StepStatus(Step(Has(1), Has("Build")), Some([])) == Waiting
  {
  }

  /** Every step's derived status is Completed: the completion test the status column implies. */
  predicate AllStepsShownCompleted(steps: Steps, actions: Actions)
  {
    steps.Some? && |steps.value| > 0 && forall i :: 0 <= i < |steps.value| ==> StepStatus(steps.value[i], actions) == Completed
  }

  /** The shown-completed test is the step test restricted to steps that do have an action. */
  lemma ShownCompletedIsMatchedStepTest(steps: Steps, actions: Actions)
    ensures AllStepsShownCompleted(steps, actions) <==>
            AllStepsCompleted(steps, actions)
            && forall i :: 0 <= i < |steps.value| ==> MatchedAction(steps.value[i], actions).Some?
  {
  }

  /** The shown-completed test never holds without actions. */
  lemma ShownCompletedNeedsActions(steps: Steps, actions: Actions)
    requires actions.None? || actions == Some([])
    ensures !AllStepsShownCompleted(steps, actions)
  {
    if steps.Some? && |steps.value| > 0 {
      assert StepStatus(steps.value[0], actions) == Waiting;
    }
  }

  // Completion summary

  /** The step counted by the summary: its matched action is completed. */
  predicate CountsAsDone(step: Step, actions: Actions)
  {
    var a := MatchedAction(step, actions);
    a.Some? && IsCompleted(a.value)
  }

  function DoneCount(steps: seq<Step>, actions: Actions): (r: nat)
    ensures r <= |steps|
  {
    if steps == [] then 0
    else DoneCount(steps[..|steps| - 1], actions) + (if CountsAsDone(steps[|steps| - 1], actions) then 1 else 0)
  }

  /** The sum of the recorded elapsed times of the counted steps, in milliseconds. */
  function DoneMs(steps: seq<Step>, actions: Actions): int
  {
    if steps == [] then 0
    else DoneMs(steps[..|steps| - 1], actions) + AddedMs(steps[|steps| - 1], actions)
  }

  /** The time a step adds to the summary: its action's recorded time when it is counted. */
  function AddedMs(step: Step, actions: Actions): int
  {
    var a := MatchedAction(step, actions);
    if CountsAsDone(step, actions) && a.value.elapsedMs.Has? then a.value.elapsedMs.value else 0
  }

  datatype Summary = Summary(completedSteps: nat, totalMs: int)

  /** `ShowCompletionSummary` reads the status fields of every step: it throws when any of
      them does. */
  predicate SummaryThrows(steps: Steps, actions: Actions)
  {
    steps.Some? && exists i :: 0 <= i < |steps.value| && StatusThrows(steps.value[i], actions)
  }

  /** The counting part of `ShowCompletionSummary`: nothing when `allSteps` is not an array or
      no step is counted, otherwise the count and the summed elapsed time; the exception when
      a step's status fields cannot be read. */
  method CompletionSummary(steps: Steps, actions: Actions) returns (r: Outcome<Option<Summary>>)
    ensures steps.None? ==> r == Returned(None)
    ensures SummaryThrows(steps, actions) ==> r == Threw
    ensures steps.Some? && !SummaryThrows(steps, actions) ==>
            r == Returned(if DoneCount(steps.value, actions) > 0
                          then Some(Summary(DoneCount(steps.value, actions), DoneMs(steps.value, actions)))
                          else None)
  {
    if steps.None? {
      return Returned(None);
    }
    var list := steps.value;
    var total := 0;
    var completed := 0;
    var i := 0;
    while i < |list|
      invariant 0 <= i <= |list|
      invariant forall j :: 0 <= j < i ==> !StatusThrows(list[j], actions)
      invariant completed == DoneCount(list[..i], actions)
      invariant total == DoneMs(list[..i], actions)
    {
      DoneStep(list, i, actions);
      var counted := SummaryStep(list[i], actions);
      if counted.Threw? {
        return Threw;
      }
      if counted.value.0 {
        completed := completed + 1;
      }
      total := total + counted.value.1;
      i := i + 1;
    }
    assert list[..|list|] == list;
    if completed > 0 {
      return Returned(Some(Summary(completed, total)));
    }
    return Returned(None);
  }

  /** One more step adds its count and its recorded time. */
  lemma DoneStep(list: seq<Step>, i: nat, actions: Actions)
    requires i < |list|
    ensures DoneCount(list[..i + 1], actions) == DoneCount(list[..i], actions) + (if CountsAsDone(list[i], actions) then 1 else 0)
    ensures DoneMs(list[..i + 1], actions) == DoneMs(list[..i], actions) + AddedMs(list[i], actions)
  {
    assert list[..i + 1][..i] == list[..i] && list[..i + 1][i] == list[i];
  }

  /** One pass of the summary loop: whether the step is counted and the time it adds; the
      exception when one of its status fields cannot be read. */
  method SummaryStep(step: Step, actions: Actions) returns (r: Outcome<(bool, int)>)
    ensures r == if StatusThrows(step, actions) then Threw
                 else Returned((CountsAsDone(step, actions), AddedMs(step, actions)))
  {
    var found := FindMatch(step, actions);
    if found.Threw? {
      return Threw;
    }
    if found.value.None? {
      return Returned((false, 0));
    }
    var action := found.value.value;
    match action.isCompleted {
      case Unreadable =>
        return Threw;
      case Missing =>
        return Returned((false, 0));
      case Has(b) =>
        if !b {
          return Returned((false, 0));
        }
        match action.elapsedMs {
          case Unreadable =>
            return Threw;
          case Missing =>
            return Returned((true, 0));
          case Has(ms) =>
            return Returned((true, ms));
        }
    }
  }

  /** The summary is printed exactly when some step's matched action is completed. */
  lemma {:induction false} DoneCountPositive(steps: seq<Step>, actions: Actions)
    ensures DoneCount(steps, actions) > 0 <==> exists i :: 0 <= i < |steps| && CountsAsDone(steps[i], actions)
  {
    if steps != [] {
      var init := steps[..|steps| - 1];
      DoneCountPositive(init, actions);
      if exists i :: 0 <= i < |init| && CountsAsDone(init[i], actions) {
        var i :| 0 <= i < |init| && CountsAsDone(init[i], actions);
        assert steps[i] == init[i];
      }
      if exists i :: 0 <= i < |steps| && CountsAsDone(steps[i], actions) {
        var i :| 0 <= i < |steps| && CountsAsDone(steps[i], actions);
        if i < |init| {
          assert init[i] == steps[i];
        }
      }
    }
  }

  /** Counted steps are exactly the steps shown as Completed. */
  lemma CountsAsDoneIsCompleted(step: Step, actions: Actions)
    ensures CountsAsDone(step, actions) <==> StepStatus(step, actions) == Completed
  {
  }

  // Snapshots whose fields can all be read

  /** The fields the source reads from an action can be read. */
  predicate ReadableAction(a: Action)
  {
    !a.id.Unreadable? && !a.isCompleted.Unreadable? && !a.elapsedMs.Unreadable?
  }

  /** The fields the source reads from a step can be read. */
  predicate ReadableStep(s: Step)
  {
    !s.actionId.Unreadable? && !s.description.Unreadable?
  }

  predicate Readable(steps: Steps, actions: Actions)
  {
    && (steps.Some? ==> forall i :: 0 <= i < |steps.value| ==> ReadableStep(steps.value[i]))
    && (actions.Some? ==> forall i :: 0 <= i < |actions.value| ==> ReadableAction(actions.value[i]))
  }

  /** A readable step against readable actions gets its line without an exception. */
  lemma ReadableStepReturns(step: Step, actions: Actions)
    requires ReadableStep(step)
    requires actions.Some? ==> forall i :: 0 <= i < |actions.value| ==> ReadableAction(actions.value[i])
    ensures !LineThrows(step, actions)
  {
    if actions.Some? {
      FindThrowsAt(actions.value, ActionIdOf(step));
      var r := FindAction(actions.value, ActionIdOf(step));
      if r.Some? {
        assert ReadableAction(actions.value[r.value]);
      }
    }
  }

  /** On a readable snapshot nothing throws: the render, both tests and the summary return. */
  lemma ReadableNeverThrows(steps: Steps, actions: Actions)
    requires Readable(steps, actions)
    ensures !RenderThrows(steps, actions) && !ActionsTestThrows(actions)
    ensures !StepsTestThrows(steps, actions) && !SummaryThrows(steps, actions)
  {
    if steps.Some? {
      forall i | 0 <= i < |steps.value|
        ensures !LineThrows(steps.value[i], actions)
      {
        ReadableStepReturns(steps.value[i], actions);
      }
      LinesThrowAt(steps.value, actions);
      StepsScanThrowsAt(steps.value, actions);
    }
    if actions.Some? {
      ActionsScanThrowsAt(actions.value);
    }
  }

  /** A step "Build" whose action 1 has started shows In Progress with the next spinner frame,
      and that action does not count as completed. */
  lemma BuildInProgressScenario()
    ensures StepLine(Step(Has(1), Has("Build")), Some([Action(Has(1), Has(false), Present, Missing)]), 1)
            == "\U{1F504} In Progress - Build [\U{2198}]"
    ensures !AllActionsCompleted(Some([Action(Has(1), Has(false), Present, Missing)]))
  {
  }

  /** A step "Build" whose action 1 completed after 12.5 seconds shows Completed with that
      duration, and the action list counts as completed. */
  lemma BuildCompletedScenario()
    ensures StepLine(Step(Has(1), Has("Build")), Some([Action(Has(1), Has(true), Absent, Has(12500))]), 0)
            == "\U{2705} Completed - Build [12.5s]"
    ensures AllActionsCompleted(Some([Action(Has(1), Has(true), Absent, Has(12500))]))
  {
    var step, actions := Step(Has(1), Has("Build")), Some([Action(Has(1), Has(true), Absent, Has(12500))]);
    assert MatchedAction(step, actions) == Some(actions.value[0]);
    assert StepLabel(step, actions, 0) == "12.5s" by {
      FormatDurationTenths();
    }
  }
}
