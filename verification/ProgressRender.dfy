/** The in-place progress view of CliHelpers: the anchor row, the height of the last block and
    the spinner frame, and the way a render repaints the block on the terminal. */
module ProgressRender {
  import opened Common
  import opened Snapshot
  import opened Terminal

  /** A row of 60 '='. */
  const Rule: string := "============================================================"

  /** What a render prints when output is redirected: a framed copy of the lines. */
  function Banner(lines: seq<string>): (r: seq<string>)
    ensures |r| == |lines| + 4
    ensures r[3..3 + |lines|] == lines
  {
    [Rule, "Generation Progress", Rule] + lines + [Rule]
  }

  /** One pass of the loop: a step that throws ends it; otherwise its line joins the lines
      built so far. */
  lemma StepLoopStep(list: seq<Step>, i: nat, actions: Actions, frame: nat, lines: seq<string>)
    requires i < |list| && frame < 8
    ensures var o := StepOutcome(list[i], actions, frame);
            After(lines, StepLoop(list[i..], actions, frame)) ==
              if o.0.Threw? then (Threw, o.1)
              else After(lines + [o.0.value], StepLoop(list[i + 1..], actions, o.1))
  {
    assert list[i..][0] == list[i] && list[i..][1..] == list[i + 1..];
    var o := StepOutcome(list[i], actions, frame);
    var rest := StepLoop(list[i + 1..], actions, o.1);
    if o.0.Returned? && rest.0.Returned? {
      assert lines + ([o.0.value] + rest.0.value) == (lines + [o.0.value]) + rest.0.value;
    }
  }

  /** The first row of the block: the one anchored, or on first use the row the cursor is on. */
  function AnchorOf(top: Option<nat>, row: nat): nat
  {
    if top.Some? then top.value else row
  }

  /** The fallback's lines: a blank line first when no block was anchored. */
  function PlainLines(top: Option<nat>, lines: seq<string>): (r: seq<string>)
    ensures |r| == |lines| + (if top.None? then 1 else 0)
    ensures r[|r| - |lines|..] == lines
  {
    (if top.None? then [""] else []) + lines
  }

  /** A block painted at row `a`: its rows hold the lines cut to `width`, the rows above keep
      their text. */
  ghost predicate Painted(lines: seq<string>, width: nat, a: nat, before: map<nat, string>, after: map<nat, string>)
  {
    && (forall j :: 0 <= j < |lines| ==> RowIn(after, a + j) == Truncate(lines[j], width))
    && (forall r: nat :: r < a ==> RowIn(after, r) == RowIn(before, r))
  }

  /** Rows `lo` up to `hi` (exclusive) are empty. */
  ghost predicate Cleared(lo: nat, hi: nat, after: map<nat, string>)
  {
    forall r: nat :: lo <= r < hi ==> RowIn(after, r) == ""
  }

  /** Rows from `lo` on keep their text. */
  ghost predicate KeptFrom(lo: nat, before: map<nat, string>, after: map<nat, string>)
  {
    forall r: nat :: r >= lo ==> RowIn(after, r) == RowIn(before, r)
  }

  function Max(a: nat, b: nat): nat
  {
    if a >= b then a else b
  }

  /** The rows of a repaint, from the steps' own guarantees: anchoring changes no row, the
      block is written at `a`, then the surplus rows are cleared. */
  lemma RepaintRows(lines: seq<string>, width: nat, a: nat, oldHeight: nat,
                    r0: map<nat, string>, r1: map<nat, string>, r2: map<nat, string>, r3: map<nat, string>)
    requires forall r: nat :: RowIn(r1, r) == RowIn(r0, r)
    requires forall j :: 0 <= j < |lines| ==> RowIn(r2, a + j) == Truncate(lines[j], width)
    requires forall r: nat :: (r < a || r >= a + |lines|) ==> RowIn(r2, r) == RowIn(r1, r)
    requires Cleared(a + |lines|, a + oldHeight, r3)
    requires forall r: nat :: (r < a + |lines| || r >= a + Max(|lines|, oldHeight)) ==> RowIn(r3, r) == RowIn(r2, r)
    ensures Painted(lines, width, a, r0, r3)
    ensures Cleared(a + |lines|, a + oldHeight, r3)
    ensures KeptFrom(a + Max(|lines|, oldHeight), r0, r3)
  {
    forall j | 0 <= j < |lines|
      ensures RowIn(r3, a + j) == Truncate(lines[j], width)
    {
      assert RowIn(r3, a + j) == RowIn(r2, a + j);
    }
  }

  /** The rows of the repaint as written: the clearing runs from the row after the cursor
      left by the block, which with no lines is the row after the anchor. */
  lemma RepaintRowsAsWritten(lines: seq<string>, width: nat, a: nat, oldHeight: nat,
                             r0: map<nat, string>, r1: map<nat, string>, r2: map<nat, string>, r3: map<nat, string>)
    requires forall r: nat :: RowIn(r1, r) == RowIn(r0, r)
    requires forall j :: 0 <= j < |lines| ==> RowIn(r2, a + j) == Truncate(lines[j], width)
    requires forall r: nat :: (r < a || r >= a + |lines|) ==> RowIn(r2, r) == RowIn(r1, r)
    requires var last := if lines == [] then a else a + |lines| - 1;
             var count := if oldHeight > |lines| then oldHeight - |lines| else 0;
             && (forall r: nat :: last < r <= last + count ==> RowIn(r3, r) == "")
             && (forall r: nat :: (r <= last || r > last + count) ==> RowIn(r3, r) == RowIn(r2, r))
    ensures Painted(lines, width, a, r0, r3)
    ensures lines != [] ==>
              Cleared(a + |lines|, a + oldHeight, r3) && KeptFrom(a + Max(|lines|, oldHeight), r0, r3)
    ensures lines == [] ==>
              && RowIn(r3, a) == RowIn(r0, a)
              && Cleared(a + 1, a + oldHeight + 1, r3)
              && KeptFrom(a + oldHeight + 1, r0, r3)
  {
    forall j | 0 <= j < |lines|
      ensures RowIn(r3, a + j) == Truncate(lines[j], width)
    {
      assert RowIn(r3, a + j) == RowIn(r2, a + j);
    }
  }

  class ProgressRenderer {
    /** `_progressTop`: the first row of the block, once anchored. */
    var progressTop: Option<nat>
    /** `_progressHeight`: the number of lines of the last repaint. */
    var progressHeight: nat
    /** `SpinnerFrame`. */
    var spinnerFrame: nat

    ghost predicate Valid()
      reads this
    {
      spinnerFrame < 8
    }

    constructor()
      ensures Valid() && progressTop.None? && progressHeight == 0 && spinnerFrame == 0
    {
      progressTop := None;
      progressHeight := 0;
      spinnerFrame := 0;
    }

    /** `GetStepStatus`: the status and label of one step; a step in progress moves the
        spinner on by one frame and shows that frame. It throws, leaving the spinner where it
        was, when a field it reads cannot be read. */
    method GetStepStatus(step: Step, actions: Actions) returns (r: Outcome<(Status, string)>)
      requires Valid()
      modifies this
      ensures Valid()
      ensures StatusThrows(step, actions) ==> r == Threw && spinnerFrame == old(spinnerFrame)
      ensures !StatusThrows(step, actions) ==>
                && spinnerFrame == Advance(old(spinnerFrame), step, actions)
                && r == Returned((StepStatus(step, actions), StepLabel(step, actions, spinnerFrame)))
      ensures progressTop == old(progressTop) && progressHeight == old(progressHeight)
    {
      var found := FindMatch(step, actions);
      if found.Threw? {
        return Threw;
      }
      var status := Waiting;
      var elapsed: Option<int> := None;
      if found.value.Some? {
        var action := found.value.value;
        match action.isCompleted {
          case Unreadable =>
            return Threw;
          case Has(true) =>
            status := Completed;
            match action.elapsedMs {
              case Unreadable =>
                return Threw;
              case Missing =>
              case Has(ms) =>
                elapsed := Some(ms);
            }
          case _ =>
            if action.startDate == Present {
              status := InProgress;
            }
        }
      }
      var text;
      if status == InProgress {
        spinnerFrame := (spinnerFrame + 1) % 8;
        text := SpinnerChars[spinnerFrame];
      } else if elapsed.Some? {
        text := Duration.FormatDuration(elapsed.value);
      } else {
        text := NoDuration;
      }
      return Returned((status, text));
    }

    /** The body of the step loop: the status and label of one step, joined with its
        description into its line. It throws when the status does, or when the description
        is not a string; the spinner has then moved as far as the status took it
        (`StepOutcome`). */
    method StepLineOf(step: Step, actions: Actions) returns (r: Outcome<string>)
      requires Valid()
      modifies this
      ensures Valid()
      ensures (r, spinnerFrame) == StepOutcome(step, actions, old(spinnerFrame))
      ensures progressTop == old(progressTop) && progressHeight == old(progressHeight)
    {
      var status := GetStepStatus(step, actions);
      if status.Threw? {
        return Threw;
      }
      var description := "Unknown";
      match step.description {
        case Unreadable =>
          return Threw;
        case Missing =>
        case Has(d) =>
          description := d;
      }
      return Returned(StatusText(status.value.0) + " - " + description + " [" + status.value.1 + "]");
    }

    /** The line list of a render: the waiting line without a steps array, else the lines
        built step by step; the exception of the first step that throws. */
    method BuildStepLines(steps: Steps, actions: Actions) returns (r: Outcome<seq<string>>)
      requires Valid()
      modifies this
      ensures Valid()
      ensures RenderThrows(steps, actions) ==>
                r == Threw && spinnerFrame == FrameAtThrow(steps.value, actions, old(spinnerFrame))
      ensures !RenderThrows(steps, actions) ==>
                && r == Returned(RenderLines(steps, actions, old(spinnerFrame)).0)
                && spinnerFrame == RenderLines(steps, actions, old(spinnerFrame)).1
      ensures progressTop == old(progressTop) && progressHeight == old(progressHeight)
    {
      if steps.None? {
        return Returned([WaitingForSteps]);
      }
      ghost var start := spinnerFrame;
      r := StepLinesOf(steps.value, actions);
      StepLoopMeaning(steps.value, actions, start);
    }

    /** One turn of the loop in `StepLinesOf`: the line of `list[i]` appended to `lines`,
        or the exception it throws, stated as one step of `StepLoop`. */
    method AppendLineOf(list: seq<Step>, i: nat, actions: Actions, lines: seq<string>)
      returns (r: Outcome<seq<string>>)
      requires Valid() && i < |list|
      modifies this
      ensures Valid()
      ensures After(lines, StepLoop(list[i..], actions, old(spinnerFrame)))
        == if r.Threw? then (Threw, spinnerFrame)
           else After(r.value, StepLoop(list[i+1..], actions, spinnerFrame))
      ensures progressTop == old(progressTop) && progressHeight == old(progressHeight)
    {
      ghost var frame := spinnerFrame;
      var line := StepLineOf(list[i], actions);
      StepLoopStep(list, i, actions, frame, lines);
      if line.Threw? {
        return Threw;
      }
      return Returned(lines + [line.value]);
    }

    /** The step loop: one line per step, in order, as the spinner turns, until a step
        throws; `StepLoopMeaning` says what that gives. */
    method StepLinesOf(list: seq<Step>, actions: Actions) returns (r: Outcome<seq<string>>)
      requires Valid()
      modifies this
      ensures Valid()
      ensures (r, spinnerFrame) == StepLoop(list, actions, old(spinnerFrame))
      ensures progressTop == old(progressTop) && progressHeight == old(progressHeight)
    {
      ghost var total := StepLoop(list, actions, spinnerFrame);
      var lines := [];
      var i := 0;
      assert list[0..] == list;
      assert After(lines, total) == total by {
        if total.0.Returned? {
          assert lines + total.0.value == total.0.value;
        }
      }
      while i < |list|
        invariant 0 <= i <= |list| && Valid()
        invariant After(lines, StepLoop(list[i..], actions, spinnerFrame)) == total
        invariant progressTop == old(progressTop) && progressHeight == old(progressHeight)
      {
        var next := AppendLineOf(list, i, actions, lines);
        if next.Threw? {
          return Threw;
        }
        lines := next.value;
        i := i + 1;
      }
      assert list[|list|..] == [];
      assert lines + [] == lines;
      return Returned(lines);
    }

    /** `ResetProgressArea`: forgets the block, unless output is redirected. */
    method ResetProgressArea(screen: Screen)
      modifies this
      ensures screen.redirected ==> progressTop == old(progressTop) && progressHeight == old(progressHeight)
      ensures !screen.redirected ==> progressTop.None? && progressHeight == 0
      ensures spinnerFrame == old(spinnerFrame)
    {
      if !screen.redirected {
        progressTop := None;
        progressHeight := 0;
      }
    }

    /** Anchors the block on first use: a blank line, then the row the cursor was on. */
    method Anchor(screen: Screen) returns (a: nat)
      modifies this, screen
      ensures a == AnchorOf(old(progressTop), old(screen.row))
      ensures progressTop == Some(a)
      ensures progressHeight == old(progressHeight) && spinnerFrame == old(spinnerFrame)
      ensures forall r: nat :: RowIn(screen.rows, r) == RowIn(old(screen.rows), r)
    {
      if progressTop.None? {
        screen.WriteLine("");
        progressTop := Some(screen.row - 1);
      }
      a := progressTop.value;
    }

    /** The in-place repaint as written: back to the anchor, the lines on cleared rows, then
        for each row the previous block had beyond the new one an LF, CR and EL, and the
        cursor to the row under the block. With no lines, the clearing starts one row low. */
    method RepaintAsWritten(lines: seq<string>, screen: Screen)
      modifies this, screen
      ensures var a := AnchorOf(old(progressTop), old(screen.row));
              && progressTop == Some(a) && progressHeight == |lines| && spinnerFrame == old(spinnerFrame)
              && screen.row == a + |lines| && screen.col == 0
              && Painted(lines, SafeBufferWidth(screen.reportedWidth), a, old(screen.rows), screen.rows)
      ensures var a := AnchorOf(old(progressTop), old(screen.row));
              lines != [] ==>
                && Cleared(a + |lines|, a + old(progressHeight), screen.rows)
                && KeptFrom(a + Max(|lines|, old(progressHeight)), old(screen.rows), screen.rows)
      ensures var a := AnchorOf(old(progressTop), old(screen.row));
              lines == [] ==>
                && RowIn(screen.rows, a) == RowIn(old(screen.rows), a)
                && Cleared(a + 1, a + old(progressHeight) + 1, screen.rows)
                && KeptFrom(a + old(progressHeight) + 1, old(screen.rows), screen.rows)
    {
      var oldHeight := progressHeight;
      ghost var r0 := screen.rows;
      var a := Anchor(screen);
      var width := SafeBufferWidth(screen.reportedWidth);
      screen.MoveToRow(a);
      ghost var r1 := screen.rows;
      screen.WriteBlock(lines, width);
      ghost var r2 := screen.rows;
      if oldHeight > |lines| {
        screen.ClearBelow(oldHeight - |lines|);
      }
      RepaintRowsAsWritten(lines, width, a, oldHeight, r0, r1, r2, screen.rows);
      progressHeight := |lines|;
      screen.MoveToRow(a + |lines|);
      screen.CarriageReturn();
    }

    /** The in-place repaint as intended: the rows of the previous block beyond the new one are
        cleared, the anchor row included when there are no lines. */
    method Repaint(lines: seq<string>, screen: Screen)
      modifies this, screen
      ensures var a := AnchorOf(old(progressTop), old(screen.row));
              && progressTop == Some(a) && progressHeight == |lines| && spinnerFrame == old(spinnerFrame)
              && screen.row == a + |lines| && screen.col == 0
              && Painted(lines, SafeBufferWidth(screen.reportedWidth), a, old(screen.rows), screen.rows)
              && Cleared(a + |lines|, a + old(progressHeight), screen.rows)
              && KeptFrom(a + Max(|lines|, old(progressHeight)), old(screen.rows), screen.rows)
    {
      var oldHeight := progressHeight;
      ghost var r0 := screen.rows;
      var a := Anchor(screen);
      var width := SafeBufferWidth(screen.reportedWidth);
      screen.MoveToRow(a);
      ghost var r1 := screen.rows;
      screen.WriteBlock(lines, width);
      ghost var r2 := screen.rows;
      ClearSurplus(screen, a, |lines|, oldHeight);
      RepaintRows(lines, width, a, oldHeight, r0, r1, r2, screen.rows);
      progressHeight := |lines|;
      screen.MoveToRow(a + |lines|);
      screen.CarriageReturn();
    }

    /** After a block of `n` rows painted at `a`, the rows the previous block of `oldHeight`
        rows had beyond it are emptied, the anchor row included when `n` is 0. */
    static method ClearSurplus(screen: Screen, a: nat, n: nat, oldHeight: nat)
      requires screen.row == if n == 0 then a else a + n - 1
      modifies screen
      ensures Cleared(a + n, a + oldHeight, screen.rows)
      ensures forall r: nat :: (r < a + n || r >= a + Max(n, oldHeight)) ==> RowIn(screen.rows, r) == RowIn(old(screen.rows), r)
    {
      if oldHeight > n {
        if n == 0 {
          screen.ClearRow();
          screen.ClearBelow(oldHeight - 1);
        } else {
          screen.ClearBelow(oldHeight - n);
        }
      }
    }

    /** The fallback when the cursor cannot be driven: a blank line before the first render,
        the lines one per row, and the block forgotten. */
    method PrintPlain(lines: seq<string>, screen: Screen)
      modifies this, screen
      ensures progressTop.None? && progressHeight == 0 && spinnerFrame == old(spinnerFrame)
      ensures var all := PlainLines(old(progressTop), lines);
              && screen.row == old(screen.row) + |all|
              && Printed(all, old(screen.row), old(screen.col), old(screen.rows), screen.rows)
    {
      var all := PlainLines(progressTop, lines);
      Forget();
      assert screen.rows == old(screen.rows) && screen.row == old(screen.row) && screen.col == old(screen.col);
      screen.WriteLines(all);
    }

    /** The block forgotten: no anchor and no height. */
    method Forget()
      modifies this
      ensures progressTop.None? && progressHeight == 0 && spinnerFrame == old(spinnerFrame)
    {
      progressTop := None;
      progressHeight := 0;
    }

    /** `RenderStepProgress`: builds the lines; on redirected output prints them framed and
        keeps the block state; when the cursor cannot be driven prints them one per line and
        forgets the block; otherwise repaints the block in place with `RepaintAsWritten`, so
        that with no lines the anchor row keeps its text and the clearing starts one row low. */
    method RenderStepProgress(steps: Steps, actions: Actions, screen: Screen) returns (threw: bool)
      requires Valid()
      modifies this, screen
      ensures Valid()
      ensures threw == RenderThrows(steps, actions)
      ensures threw ==>
                && spinnerFrame == FrameAtThrow(steps.value, actions, old(spinnerFrame))
                && progressTop == old(progressTop) && progressHeight == old(progressHeight)
                && unchanged(screen)
      ensures !threw ==> spinnerFrame == RenderLines(steps, actions, old(spinnerFrame)).1
      ensures var lines := RenderLines(steps, actions, old(spinnerFrame)).0;
              !threw && screen.redirected ==>
                && progressTop == old(progressTop) && progressHeight == old(progressHeight)
                && screen.row == old(screen.row) + |Banner(lines)|
                && Printed(Banner(lines), old(screen.row), old(screen.col), old(screen.rows), screen.rows)
      ensures var all := PlainLines(old(progressTop), RenderLines(steps, actions, old(spinnerFrame)).0);
              !threw && !screen.redirected && !screen.cursorControl ==>
                && progressTop.None? && progressHeight == 0
                && screen.row == old(screen.row) + |all|
                && Printed(all, old(screen.row), old(screen.col), old(screen.rows), screen.rows)
      ensures var lines := RenderLines(steps, actions, old(spinnerFrame)).0;
              var a := AnchorOf(old(progressTop), old(screen.row));
              !threw && !screen.redirected && screen.cursorControl ==>
                && progressTop == Some(a) && progressHeight == |lines|
                && screen.row == a + |lines| && screen.col == 0
                && Painted(lines, SafeBufferWidth(screen.reportedWidth), a, old(screen.rows), screen.rows)
                && (lines != [] ==>
                      && Cleared(a + |lines|, a + old(progressHeight), screen.rows)
                      && KeptFrom(a + Max(|lines|, old(progressHeight)), old(screen.rows), screen.rows))
                && (lines == [] ==>
                      && RowIn(screen.rows, a) == RowIn(old(screen.rows), a)
                      && Cleared(a + 1, a + old(progressHeight) + 1, screen.rows)
                      && KeptFrom(a + old(progressHeight) + 1, old(screen.rows), screen.rows))
    {
      var built := BuildStepLines(steps, actions);
      if built.Threw? {
        return true;
      }
      threw := false;
      var lines := built.value;
      if screen.redirected {
        screen.WriteLines(Banner(lines));
      } else if !screen.cursorControl {
        PrintPlain(lines, screen);
      } else {
        RepaintAsWritten(lines, screen);
      }
    }

    /** `RenderStepProgress` with the intended repaint: the same, except that the in-place
        branch clears every row of the previous block beyond the new one. */
    method RenderStepProgressIntended(steps: Steps, actions: Actions, screen: Screen) returns (threw: bool)
      requires Valid()
      modifies this, screen
      ensures Valid()
      ensures threw == RenderThrows(steps, actions)
      ensures threw ==>
                && spinnerFrame == FrameAtThrow(steps.value, actions, old(spinnerFrame))
                && progressTop == old(progressTop) && progressHeight == old(progressHeight)
                && unchanged(screen)
      ensures !threw ==> spinnerFrame == RenderLines(steps, actions, old(spinnerFrame)).1
      ensures var lines := RenderLines(steps, actions, old(spinnerFrame)).0;
              !threw && screen.redirected ==>
                && progressTop == old(progressTop) && progressHeight == old(progressHeight)
                && screen.row == old(screen.row) + |Banner(lines)|
                && Printed(Banner(lines), old(screen.row), old(screen.col), old(screen.rows), screen.rows)
      ensures var all := PlainLines(old(progressTop), RenderLines(steps, actions, old(spinnerFrame)).0);
              !threw && !screen.redirected && !screen.cursorControl ==>
                && progressTop.None? && progressHeight == 0
                && screen.row == old(screen.row) + |all|
                && Printed(all, old(screen.row), old(screen.col), old(screen.rows), screen.rows)
      ensures var lines := RenderLines(steps, actions, old(spinnerFrame)).0;
              var a := AnchorOf(old(progressTop), old(screen.row));
              !threw && !screen.redirected && screen.cursorControl ==>
                && progressTop == Some(a) && progressHeight == |lines|
                && screen.row == a + |lines| && screen.col == 0
                && Painted(lines, SafeBufferWidth(screen.reportedWidth), a, old(screen.rows), screen.rows)
                && Cleared(a + |lines|, a + old(progressHeight), screen.rows)
                && KeptFrom(a + Max(|lines|, old(progressHeight)), old(screen.rows), screen.rows)
    {
      var built := BuildStepLines(steps, actions);
      if built.Threw? {
        return true;
      }
      threw := false;
      var lines := built.value;
      if screen.redirected {
        screen.WriteLines(Banner(lines));
      } else if !screen.cursorControl {
        PrintPlain(lines, screen);
      } else {
        Repaint(lines, screen);
      }
    }
  }

  /** One line drawn, a log line printed under the block, then a render with no lines: the
      repaint as written keeps the old line on the anchor row and wipes the log line. */
  method EmptyRepaintAsWritten() returns (anchorRow: string, logRow: string)
    ensures anchorRow == "step" && logRow == ""
  {
    var screen := new Screen(80, false, true);
    var view := new ProgressRenderer();
    view.RepaintAsWritten(["step"], screen);
    assert screen.Row(0) == "step" by {
      Utf16LengthBmp("step");
      TruncateUnits("step", 80);
      assert RowIn(screen.rows, 0 + 0) == Truncate(["step"][0], 80);
    }
    assert screen.Row(1) == "" by {
      assert RowIn(screen.rows, 1) == RowIn(map[], 1);
    }
    screen.WriteLine("log");
    assert screen.Row(0) == "step" && screen.Row(1) == "log" by {
      OverwriteBlank("log");
    }
    view.RepaintAsWritten([], screen);
    anchorRow, logRow := screen.Row(0), screen.Row(1);
  }

  /** The same three steps with the intended repaint: the anchor row is emptied and the log
      line kept. */
  method EmptyRepaintIntended() returns (anchorRow: string, logRow: string)
    ensures anchorRow == "" && logRow == "log"
  {
    var screen := new Screen(80, false, true);
    var view := new ProgressRenderer();
    view.Repaint(["step"], screen);
    assert RowIn(screen.rows, 1) == RowIn(map[], 1);
    screen.WriteLine("log");
    assert screen.Row(1) == "log";
    view.Repaint([], screen);
    anchorRow, logRow := screen.Row(0), screen.Row(1);
  }
}
