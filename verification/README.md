# QuickCode CLI core in Dafny

A model of the core of the QuickCode command-line client (`quickcode`), a .NET tool that
stores project credentials, rewrites project-first command lines, downloads and uploads DBML
module files, and watches a code generation run while drawing a live progress view on the
terminal. The model covers:

- **Progress snapshot** (`Snapshot`, `Duration`): the step and action records of a generation
  run, the status and label of each step, the rendered lines, the two completion tests, the
  completion summary and the duration label, with a parser that inverts the label.
- **Terminal and progress view** (`Terminal`, `ProgressRender`): a screen of rows and a cursor,
  driven by CR, LF, CUU, CUD and EL (sections 8.3.22, 8.3.19 and 8.3.41 of ECMA-48). The
  renderer class keeps the anchor row, the block height and the spinner frame, and repaints
  the block in place.
- **Watcher decision and polling** (`Completion`, `Polling`): what the watcher decides from a
  run status and a step breakdown, and the polling loop with cancellation.
- **Command line** (`Arguments`, `Versions`): the project-first normaliser, the `<project>
  pull|push` swap, and the version comparison behind the update notice.
- **Configuration** (`Config`): the configuration object with its case-insensitive project
  dictionary, secret encryption and the migration on load, the `config --set/--unset/--get`
  handlers, and credential resolution.
- **DBML commands** (`Dbml`): the download and upload loops with their success and failure
  counts and the module dictionary.
- **Session id and API client** (`Session`, `ApiClient`): the hexadecimal session id, the base
  address, error-message extraction and the outcome of a typed request.

`Common` holds the shared text helpers: whitespace as .NET defines it, Trim, ASCII
case-folding for `OrdinalIgnoreCase`, splitting, decimal text, and lengths in UTF-16 units
with the truncation that counts them.

Durations are integer milliseconds. The source's `F1` format is modelled as rounding half up
to tenths. AES, the key file, the network, the clock and randomness are parameters (a `Crypto`
pair of functions, per-item `attempt` flags, scripted responses, a byte buffer).

## Model

| member | source | states |
|---|---|---|
| Duration.FormatDuration | src/QuickCode.Cli/Utilities/CliHelpers.cs:423-443 | the label is "--" exactly for a negative duration; otherwise it starts with a digit and ends in 's' |
| Duration.FormatDurationSeconds | src/QuickCode.Cli/Utilities/CliHelpers.cs:442 | under a minute the label is seconds with one decimal: 45 seconds read "45.0s" |
| Duration.FormatDurationTenths | src/QuickCode.Cli/Utilities/CliHelpers.cs:442 | 12.5 seconds read "12.5s" |
| Duration.FormatDurationMinutes | src/QuickCode.Cli/Utilities/CliHelpers.cs:437-440 | from a minute the label is whole minutes and seconds ("2m 5s") |
| Duration.FormatDurationHours | src/QuickCode.Cli/Utilities/CliHelpers.cs:432-435 | from an hour the label is hours, minutes and seconds ("1h 2m 5s") |
| Duration.ParseFormatDuration | src/QuickCode.Cli/Utilities/CliHelpers.cs:423-443 | the label can be read back: a non-negative duration parses to its rounded tenths under a minute and to its whole seconds above |
| Duration.ParseFormatHours | src/QuickCode.Cli/Utilities/CliHelpers.cs:432-435 | the hours form reads back to the whole seconds |
| Duration.ParseFormatMinutes | src/QuickCode.Cli/Utilities/CliHelpers.cs:437-440 | the minutes form reads back to the whole seconds |
| Duration.ParseFormatSeconds | src/QuickCode.Cli/Utilities/CliHelpers.cs:442 | the seconds form reads back to the rounded tenths |
| Snapshot.StatusTextInjective | src/QuickCode.Cli/Utilities/CliHelpers.cs:169-187 | the three status texts are distinct, so a line's status names its state |
| Snapshot.FindAction | src/QuickCode.Cli/Utilities/CliHelpers.cs:164-166 | `FirstOrDefault`: the first action whose id equals the step's action id, or none exactly when no action has it |
| Snapshot.StepStatusCases | src/QuickCode.Cli/Utilities/CliHelpers.cs:169-192 | a step is Completed iff its first matching action has `isCompleted` true, In Progress iff that action is not completed but has a start date, and Waiting without a match |
| Snapshot.UnmatchedStepWaits | src/QuickCode.Cli/Utilities/CliHelpers.cs:158-213 | a step without a matching action waits, shows "--" and leaves the spinner where it was |
| Snapshot.InProgressShowsNextFrame | src/QuickCode.Cli/Utilities/CliHelpers.cs:197-202 | a step in progress shows the next of the eight spinner frames |
| Snapshot.FrameAfterCount | src/QuickCode.Cli/Utilities/CliHelpers.cs:28-46 | after an array of steps the spinner has moved on once per step in progress, modulo 8 |
| Snapshot.LinesFromAt | src/QuickCode.Cli/Utilities/CliHelpers.cs:28-46 | line i is the line of step i, drawn with the frame reached after the steps up to and including it |
| Snapshot.RenderLinesShape | src/QuickCode.Cli/Utilities/CliHelpers.cs:28-46 | no steps array gives the single waiting line; otherwise one line per step, each "<status> - <description> [<label>]", and the spinner moves once per step in progress |
| Snapshot.LinesIgnoreFrame | src/QuickCode.Cli/Utilities/CliHelpers.cs:28-46 | with no step in progress, the lines are the same from any starting spinner frame |
| Snapshot.SettledRenderRepeats | src/QuickCode.Cli/Utilities/CliHelpers.cs:26-46 | rendering a snapshot with no step in progress again gives the same lines and leaves the spinner where it was |
| Snapshot.FindThrowsAt | src/QuickCode.Cli/Utilities/CliHelpers.cs:164-166 | the `FirstOrDefault` search throws exactly when an action whose `id` cannot be read as an integer comes before every action with the sought id |
| Snapshot.FindMatch | src/QuickCode.Cli/Utilities/CliHelpers.cs:160-167 | the lookup of a step's action throws exactly when its `actionId` cannot be read or the search throws; otherwise it gives the first action with that id, or none |
| Snapshot.LinesThrowAt | src/QuickCode.Cli/Utilities/CliHelpers.cs:33-40 | the render's step loop throws exactly when some step's status or description cannot be read |
| Snapshot.StepLoopMeaning | src/QuickCode.Cli/Utilities/CliHelpers.cs:33-40 | the step loop throws exactly when some step's line throws, leaving the spinner moved by the steps read before it; otherwise it gives one line per step and the frame after all of them |
| Snapshot.ActionsScanThrowsAt | src/QuickCode.Cli/Utilities/CliHelpers.cs:372-379 | the action test throws exactly when an `isCompleted` that is not a boolean comes after actions that are all completed |
| Snapshot.StepsScanThrowsAt | src/QuickCode.Cli/Utilities/CliHelpers.cs:397-418 | the step test throws exactly when a step whose lookup or matched `isCompleted` cannot be read comes after steps that do not block completion |
| Snapshot.AreAllActionsCompleted | src/QuickCode.Cli/Utilities/CliHelpers.cs:359-382 | the loop throws exactly when it reaches an unreadable `isCompleted` before an incomplete action; otherwise it returns true exactly for a non-empty array of actions that are all completed |
| Snapshot.AreAllStepsCompleted | src/QuickCode.Cli/Utilities/CliHelpers.cs:384-421 | the loop throws exactly when it reaches a step whose `actionId`, a searched `id` or the matched `isCompleted` cannot be read before a blocking step; otherwise it returns true exactly for a non-empty steps array in which no step's matching action is incomplete |
| Snapshot.EmptyIsNotCompleted | src/QuickCode.Cli/Utilities/CliHelpers.cs:359-395 | a missing or empty array never passes either completion test |
| Snapshot.AllActionsImplyAllSteps | src/QuickCode.Cli/Utilities/CliHelpers.cs:359-421 | when every action is completed, any non-empty steps array passes the step test |
| Snapshot.AllStepsCompletedWithoutActions | src/QuickCode.Cli/Utilities/CliHelpers.cs:408-417 | the step test as written passes for a step whose action is not listed, though that step shows Waiting |
| Snapshot.ShownCompletedIsMatchedStepTest | src/QuickCode.Cli/Utilities/CliHelpers.cs:384-421 | the intended step test (every step shown Completed) agrees with the one as written whenever every step has a matching action |
| Snapshot.ShownCompletedNeedsActions | src/QuickCode.Cli/Utilities/CliHelpers.cs:397-417 | without actions the intended step test never passes |
| Snapshot.CompletionSummary | src/QuickCode.Cli/Utilities/CliHelpers.cs:229-274 | nothing without a steps array; an exception when some step's status fields cannot be read; otherwise nothing when no step counts, else the number of steps whose matching action is completed and the sum of their numeric elapsed times |
| Snapshot.SummaryStep | src/QuickCode.Cli/Utilities/CliHelpers.cs:241-261 | one pass of the summary loop throws exactly when the step's status does, otherwise it reports whether the step counts and the time it adds |
| Snapshot.DoneStep | src/QuickCode.Cli/Utilities/CliHelpers.cs:239-262 | one more step adds one to the count exactly when it counts, and adds its time to the sum |
| Snapshot.DoneCountPositive | src/QuickCode.Cli/Utilities/CliHelpers.cs:264-273 | the summary is printed exactly when some step's matching action is completed |
| Snapshot.CountsAsDoneIsCompleted | src/QuickCode.Cli/Utilities/CliHelpers.cs:250-259 | the summary counts a step exactly when the progress view shows it Completed |
| Snapshot.ReadableStepReturns | src/QuickCode.Cli/Utilities/CliHelpers.cs:158-213 | a step and actions whose fields can all be read never make the step's line throw |
| Snapshot.ReadableNeverThrows | src/QuickCode.Cli/Utilities/CliHelpers.cs:26-421 | on a snapshot whose fields can all be read, neither the render, nor the two completion tests, nor the summary throws |
| Snapshot.BuildInProgressScenario | src/QuickCode.Cli/Utilities/CliHelpers.cs:158-213 | concrete line: a started action shows In Progress with the next spinner frame, and is not completed |
| Snapshot.BuildCompletedScenario | src/QuickCode.Cli/Utilities/CliHelpers.cs:158-213 | concrete line: a completed action shows Completed with "12.5s", and the list counts as completed |
| Terminal.SafeBufferWidth | src/QuickCode.Cli/Utilities/CliHelpers.cs:445-456 | the width is always positive: the reported width when positive, 120 otherwise |
| Common.Truncate | src/QuickCode.Cli/Utilities/CliHelpers.cs:99-103 | the line cut to the buffer width is a prefix of the line |
| Common.TruncateUnits | src/QuickCode.Cli/Utilities/CliHelpers.cs:99-103 | lengths are UTF-16 units, as `string.Length` counts them; a line that fits the width is kept; a longer one becomes a proper prefix of the width in units, or one unit less when the cut falls inside a surrogate pair, and the next character would not fit |
| Terminal.Overwrite | src/QuickCode.Cli/Utilities/CliHelpers.cs:104 | printed text takes the columns it covers and the other columns keep their characters |
| Terminal.Screen.CursorUp | src/QuickCode.Cli/Utilities/CliHelpers.cs:80-84 | CUU moves up n rows (0 counts as 1), stopping at the top; text and column unchanged |
| Terminal.Screen.CursorDown | src/QuickCode.Cli/Utilities/CliHelpers.cs:86-90 | CUD moves down n rows (0 counts as 1); text and column unchanged |
| Terminal.Screen.EraseLine | src/QuickCode.Cli/Utilities/CliHelpers.cs:97 | EL empties the row from the cursor's column on and nothing else |
| Terminal.Screen.WriteLines | src/QuickCode.Cli/Utilities/CliHelpers.cs:48-59 | each line is printed on its own row from the cursor down; rows outside the block keep their text |
| Terminal.Screen.MoveToRow | src/QuickCode.Cli/Utilities/CliHelpers.cs:79-91 | the cursor reaches the target row and the text is unchanged |
| Terminal.Screen.WriteBlock | src/QuickCode.Cli/Utilities/CliHelpers.cs:94-111 | row i of the block holds line i cut to the width; the cursor ends on the last line; other rows keep their text |
| Terminal.Screen.ClearBelow | src/QuickCode.Cli/Utilities/CliHelpers.cs:114-120 | each LF, CR, EL empties the next row; rows outside that range keep their text |
| ProgressRender.Banner | src/QuickCode.Cli/Utilities/CliHelpers.cs:48-59 | redirected output frames the lines: three header rows, the lines unchanged, one closing rule |
| ProgressRender.StepLoopStep | src/QuickCode.Cli/Utilities/CliHelpers.cs:33-40 | the step loop's result after some lines is the first step's exception, or the result after those lines and the first step's line |
| ProgressRender.ProgressRenderer.GetStepStatus | src/QuickCode.Cli/Utilities/CliHelpers.cs:158-213 | throws exactly when the lookup, the matched `isCompleted` or a completed action's `elapsedTime` cannot be read, leaving the spinner; otherwise returns the step's status and label and advances the spinner only for a step in progress; the block state is untouched |
| ProgressRender.ProgressRenderer.BuildStepLines | src/QuickCode.Cli/Utilities/CliHelpers.cs:28-46 | throws exactly when some step's line throws, with the spinner moved by the steps read before it; otherwise the line list is the rendered lines (the waiting line without a steps array) and the spinner ends at the frame the rendering reaches |
| ProgressRender.ProgressRenderer.StepLinesOf | src/QuickCode.Cli/Utilities/CliHelpers.cs:33-40 | the loop gives what the step loop specifies: the first exception with the frame it left, or one line per step in order, each drawn with the frame its step advances to |
| ProgressRender.ProgressRenderer.StepLineOf | src/QuickCode.Cli/Utilities/CliHelpers.cs:35-39 | one step's line is its status, description ("Unknown" when absent or null) and label; it throws when the status does or the description is not a string, the spinner having moved only once the status was read |
| ProgressRender.ProgressRenderer.AppendLineOf | src/QuickCode.Cli/Utilities/CliHelpers.cs:33-40 | one turn of the step loop is one step of its specification: the exception, or the lines with this step's line appended |
| ProgressRender.ProgressRenderer.ResetProgressArea | src/QuickCode.Cli/Utilities/CliHelpers.cs:215-227 | forgets the anchor and height unless output is redirected |
| ProgressRender.ProgressRenderer.Anchor | src/QuickCode.Cli/Utilities/CliHelpers.cs:66-72 | on first use the anchor is the row the cursor was on, after a blank line; afterwards it stays; no row changes text |
| ProgressRender.ProgressRenderer.RepaintAsWritten | src/QuickCode.Cli/Utilities/CliHelpers.cs:74-143 | the block is painted at the anchor and the cursor ends under it; with lines, the surplus rows of the previous block are emptied; with none, the anchor row keeps its old text and the clearing starts one row low |
| ProgressRender.ProgressRenderer.Repaint | src/QuickCode.Cli/Utilities/CliHelpers.cs:74-143 | the block is painted at the anchor, every surplus row of the previous block is emptied, rows beyond both blocks are kept, and the cursor ends under the block |
| ProgressRender.ProgressRenderer.PrintPlain | src/QuickCode.Cli/Utilities/CliHelpers.cs:145-154 | the fallback forgets the block and prints a blank line before a first render, then the lines one per row: the first over the cursor row from the cursor column, the others from column 0; every other row is kept |
| ProgressRender.ProgressRenderer.RenderStepProgress | src/QuickCode.Cli/Utilities/CliHelpers.cs:26-156 | throws exactly when building a step line throws (before the `try` at line 63), leaving the screen and the block state and the spinner where the loop left it; otherwise redirected: the banner printed from the cursor, other rows kept, block state kept; no cursor control: the plain lines printed the same way and the block forgotten; otherwise the repaint as written: the block painted at the anchor with the line count as its height; with lines the surplus rows of the previous block are emptied, with none the anchor row keeps its text and the clearing starts one row low |
| ProgressRender.ProgressRenderer.RenderStepProgressIntended | src/QuickCode.Cli/Utilities/CliHelpers.cs:26-156 | throws on the same snapshots as the render as written; otherwise the same render with the intended repaint: every surplus row of the previous block is emptied, the anchor row included when there are no lines, and the rows beyond both blocks are kept |
| ProgressRender.ProgressRenderer.ClearSurplus | src/QuickCode.Cli/Utilities/CliHelpers.cs:113-120 | the surplus rows of the previous block are emptied (the anchor row too when there are no lines) and no other row changes |
| ProgressRender.EmptyRepaintAsWritten | src/QuickCode.Cli/Utilities/CliHelpers.cs:94-123 | after one line and a log line below it, an empty repaint as written keeps the stale line on the anchor row and wipes the log line |
| ProgressRender.EmptyRepaintIntended | src/QuickCode.Cli/Utilities/CliHelpers.cs:94-123 | after the same steps, the intended empty repaint empties the anchor row and keeps the log line |
| Completion.Decide | src/QuickCode.Cli/CliApplication.cs:1989-2028 | invalid session iff run id -1; otherwise completed iff the breakdown passes a completion test and nothing in the render, the tests or the summary throws; otherwise finished iff `IsFinished`; the watch stops iff one of the three holds |
| Completion.CompletionNeedsData | src/QuickCode.Cli/CliApplication.cs:1998-2011 | a completion needs a breakdown with a non-empty actions array or a non-empty steps array |
| Completion.InvalidSessionWins | src/QuickCode.Cli/CliApplication.cs:1989-1995 | run id -1 ends the watch as invalid whatever the breakdown and the finished flag |
| Completion.UnavailableFallsBackOnFinished | src/QuickCode.Cli/CliApplication.cs:2020-2028 | without a breakdown, the decision is the finished flag |
| Completion.DecisionScenarios | src/QuickCode.Cli/CliApplication.cs:1997-2017 | concrete runs: a completed step ends the watch, a running one does not, empty arrays do not |
| Completion.DecideIntended | src/QuickCode.Cli/CliApplication.cs:2008-2011 | the intended decision ends with completion only when all actions are completed or every step is shown Completed |
| Completion.DecideIntendedAgrees | src/QuickCode.Cli/CliApplication.cs:2008-2011 | the two decisions agree whenever every step has a matching action |
| Completion.VacuousCompletion | src/QuickCode.Cli/CliApplication.cs:2008-2017 | a running generation whose only step's action is unlisted ends the watch as written, and not as intended |
| Completion.ThrowFallsBackOnFinished | src/QuickCode.Cli/CliApplication.cs:2020-2028 | when the render, a completion test or the summary throws, the catch leaves the decision to the finished flag |
| Completion.ReadableDecision | src/QuickCode.Cli/CliApplication.cs:1997-2028 | on a snapshot whose fields can all be read, the watch ends with completion exactly when one of the two tests passes, else on the finished flag |
| Completion.NullCompletionFlagKeepsWatching | src/QuickCode.Cli/CliApplication.cs:2005-2028 | a running generation whose second action has `isCompleted: null` passes the step test, but the action test throws, so the watch goes on |
| Polling.Delivered | src/QuickCode.Cli/Services/GenerationPollingService.cs:18-21 | the callback sees at most one status per fetch |
| Polling.DeliveredCount | src/QuickCode.Cli/Services/GenerationPollingService.cs:18-21 | the callback sees exactly the fetches that returned a status, in order |
| Polling.DeliveredUnfinished | src/QuickCode.Cli/Services/GenerationPollingService.cs:22-25 | without a finished fetch, no delivered status is finished |
| Polling.RunPolling | src/QuickCode.Cli/Services/GenerationPollingService.cs:14-37 | every fetch was preceded by a live token; the loop ends after the first finished status, on a fetch that throws (no callback, no further fetch), on cancellation before a fetch or during the wait, and delivers exactly the statuses fetched |
| Polling.OnlyLastDeliveredFinished | src/QuickCode.Cli/Services/GenerationPollingService.cs:16-25 | only the last delivered status can be finished |
| Polling.FinishAfterThreeFetches | src/QuickCode.Cli/Services/GenerationPollingService.cs:14-37 | a running, a null and a finished response: three fetches, two deliveries, ended by the finished status |
| Polling.FailAfterRunning | src/QuickCode.Cli/Services/GenerationPollingService.cs:16-21 | a running status then a fetch that throws: two fetches, one delivery, and the loop ends with the failure |
| Arguments.CommandSetsNest | src/QuickCode.Cli/Utilities/ArgumentNormalizer.cs:8-34 | the project-first verbs are root commands and the root commands are known commands |
| Arguments.Normalize | src/QuickCode.Cli/Utilities/ArgumentNormalizer.cs:36-90 | a rewrite adds at most two arguments and happens only on a project-first form |
| Arguments.NormalizePassesOptions | src/QuickCode.Cli/Utilities/ArgumentNormalizer.cs:38-89 | a line that is not a project-first form is returned as is |
| Arguments.NormalizeConfig | src/QuickCode.Cli/Utilities/ArgumentNormalizer.cs:43-49 | `P config rest` becomes `config --project P rest` |
| Arguments.NormalizeModules | src/QuickCode.Cli/Utilities/ArgumentNormalizer.cs:51-75 | `P modules add/remove rest` becomes `module add/remove --project P rest`; other `P modules rest` becomes `module list --project P rest` |
| Arguments.NormalizeVerb | src/QuickCode.Cli/Utilities/ArgumentNormalizer.cs:77-86 | `P verb rest` swaps the first two arguments and keeps the rest |
| Arguments.NormalizeIdempotent | src/QuickCode.Cli/Utilities/ArgumentNormalizer.cs:36-90 | normalising twice is normalising once, unless the first argument is "modules" |
| Arguments.NormalizeNotIdempotentOnModules | src/QuickCode.Cli/Utilities/ArgumentNormalizer.cs:51-86 | `modules create` normalises to `create modules` and that to `module list --project create` |
| Arguments.SwapPullPush | src/QuickCode.Cli/CliApplication.cs:31-49 | the swap permutes the arguments, touches only the first two, and only for an unknown command followed by pull or push |
| Arguments.SwapLeavesNormalized | src/QuickCode.Cli/Program.cs:6-8 | a line the normaliser rewrote is not swapped again |
| Arguments.PullPushSwapped | src/QuickCode.Cli/CliApplication.cs:31-49 | `X pull/push rest` is swapped exactly when X is not a known command |
| Versions.CleanVersion | src/QuickCode.Cli/CliApplication.cs:63 | the cleaned version is the prefix of the original up to its first '+' or '-': it holds neither, and the next character, if any, is one of them |
| Versions.CleanVersionIdempotent | src/QuickCode.Cli/CliApplication.cs:63 | cleaning twice is cleaning once |
| Versions.ParseParts | src/QuickCode.Cli/CliApplication.cs:105-106 | parsing succeeds iff every part parses, with one number per part |
| Versions.CompareMeaning | src/QuickCode.Cli/CliApplication.cs:103-120 | -1, 1 and 0 mean older, newer and equal once missing parts count as 0 |
| Versions.CompareAntisymmetric | src/QuickCode.Cli/CliApplication.cs:103-120 | swapping the versions negates the result |
| Versions.CompareReflexive | src/QuickCode.Cli/CliApplication.cs:103-120 | a version compares equal to itself |
| Versions.CompareTrailingZero | src/QuickCode.Cli/CliApplication.cs:108-113 | a trailing zero part changes no comparison |
| Versions.CompareVersions | src/QuickCode.Cli/CliApplication.cs:103-120 | it returns the reference comparison of the parsed versions, and fails where `int.Parse` throws |
| Versions.CompareParts | src/QuickCode.Cli/CliApplication.cs:108-119 | the loop over the parts returns the reference comparison, missing parts counting as 0 |
| Versions.UpdateNoticeMeaning | src/QuickCode.Cli/CliApplication.cs:63-87 | the update notice shows exactly when the cleaned running version parses and is older than the published one |
| Versions.NoNoticeForSameVersion | src/QuickCode.Cli/CliApplication.cs:63-87 | the same version with a build suffix never shows the notice |
| Versions.ParseTwoPartVersion | src/QuickCode.Cli/CliApplication.cs:103-120 | "1.2" parses to the parts 1, 2 |
| Versions.ParseThreePartVersion | src/QuickCode.Cli/CliApplication.cs:103-120 | "1.2.0" parses to the parts 1, 2, 0 |
| Versions.CompareExamples | src/QuickCode.Cli/CliApplication.cs:103-120 | "1.2" equals "1.2.0", and "1.2.3" is older than "1.10" |
| Config.Store | src/QuickCode.Cli/Configuration/QuickCodeConfig.cs:9 | storing under a name makes every casing of it find the settings, keeps the first stored casing, and leaves other names alone |
| Config.Remove | src/QuickCode.Cli/Configuration/QuickCodeConfig.cs:9 | removing a name removes every casing of it and leaves other names alone |
| Config.QuickCodeConfig.constructor | src/QuickCode.Cli/Configuration/QuickCodeConfig.cs:5-10 | a fresh configuration has the default address and no projects |
| Config.QuickCodeConfig.SetProject | src/QuickCode.Cli/CliApplication.cs:1557 | the project dictionary becomes the stored map; the address is unchanged |
| Config.QuickCodeConfig.RemoveProject | src/QuickCode.Cli/CliApplication.cs:1486-1497 | reports removal iff the name, in any casing, was present, and removes it |
| Config.QuickCodeConfig.MigrateSecrets | src/QuickCode.Cli/Configuration/ConfigService.cs:141-169 | every entry's secret is migrated, and a save is needed iff some secret needed migration |
| Config.QuickCodeConfig.MigrateProject | src/QuickCode.Cli/Configuration/ConfigService.cs:143-155 | one project's entry is replaced by its migrated form and nothing else changes; the answer is whether its secret needed migration |
| Config.AesBase64Length | src/QuickCode.Cli/Configuration/ConfigService.cs:75-95 | the Base64 length of IV plus padded ciphertext is a multiple of 4, at least 44, longer than the input, exactly 44 up to 15 bytes, and at least 64 from 16 bytes |
| Config.EncryptSecret | src/QuickCode.Cli/Configuration/ConfigService.cs:75-95 | a blank secret is kept; any other becomes Base64 text of at least 44 characters |
| Config.DecryptSecret | src/QuickCode.Cli/Configuration/ConfigService.cs:97-125 | a blank value or one that fails to decrypt is returned unchanged |
| Config.SecretRoundTrip | src/QuickCode.Cli/Configuration/ConfigService.cs:75-125 | decrypting an encrypted secret gives it back |
| Config.MigrationKeepsSecret | src/QuickCode.Cli/Configuration/ConfigService.cs:145-155 | a secret that is migrated changes and still decrypts to the original |
| Config.MigrateAll | src/QuickCode.Cli/Configuration/ConfigService.cs:141-169 | migration keeps the names, entries and e-mails and replaces each secret by its migrated form |
| Config.Load | src/QuickCode.Cli/Configuration/ConfigService.cs:127-178 | for either migration test (`AsWritten` is the program): no file gives the default configuration unsaved; a file gives its migrated contents, saved iff a secret needed migration |
| Config.StoredSecretSurvivesLoad | src/QuickCode.Cli/Configuration/ConfigService.cs:145-157 | with the corrected test a stored ciphertext is left as it is by a load |
| Config.MigrationSettles | src/QuickCode.Cli/Configuration/ConfigService.cs:141-174 | with the corrected test a second load changes nothing, and a load saves iff it changed something |
| Config.ShortSecretReencrypted | src/QuickCode.Cli/Configuration/ConfigService.cs:147-148 | with the test as written a stored secret of up to 15 bytes is 44 characters long and is encrypted again by the next load, and decryption yields the first ciphertext; the second ciphertext passes the test, so later loads keep it |
| Config.ApplySet | src/QuickCode.Cli/CliApplication.cs:1523-1558 | the configuration becomes the state `config --set` describes |
| Config.ApplyUnset | src/QuickCode.Cli/CliApplication.cs:1560-1597 | the configuration becomes the state `config --unset` describes |
| Config.ResolveValue | src/QuickCode.Cli/CliApplication.cs:1599-1621 | without a project only "api_url" gives a value, the API address; with one, an unknown project gives nothing, "email" gives the stored e-mail and "secret_code" the mask exactly when a secret is stored; unknown keys give nothing and the secret is never shown |
| Config.SetGlobalOrUnknown | src/QuickCode.Cli/CliApplication.cs:1523-1555 | without a project only "api_url" changes anything; an unknown key changes nothing |
| Config.SetProjectField | src/QuickCode.Cli/CliApplication.cs:1537-1557 | setting a project's e-mail or secret shows it back (the secret masked), leaves the other field and every other project alone |
| Config.StoreThenRemove | src/QuickCode.Cli/Configuration/QuickCodeConfig.cs:9 | storing a new name and removing it gives the dictionary back |
| Config.SetThenUnset | src/QuickCode.Cli/CliApplication.cs:1523-1597 | on a project not stored before, setting `email` or `secret_code` (the key read after trimming) and then unsetting that field restores the configuration |
| Config.UnsetUnknownKey | src/QuickCode.Cli/CliApplication.cs:1574-1596 | an unknown key changes no field, but an entry left with neither field is dropped |
| Config.UnsetApiUrl | src/QuickCode.Cli/CliApplication.cs:1562-1572 | unsetting the address restores the default one |
| Config.ResolveProjectCredentials | src/QuickCode.Cli/Configuration/ConfigService.cs:189-220 | ProjectNameRequired iff the name is blank; otherwise the explicit e-mail, else the stored one, and the explicit secret, else the stored one, are taken (a blank explicit value does not fall back): EmailRequired iff that e-mail is blank, SecretRequired iff the e-mail is present and that secret blank, and otherwise the name, the e-mail and the decrypted secret |
| Config.LookupMigrated | src/QuickCode.Cli/Configuration/ConfigService.cs:141-169 | a migrated entry is found under any casing of its name with its secret migrated |
| Config.SetLoadResolve | src/QuickCode.Cli/Configuration/ConfigService.cs:127-220 | with the corrected test, an email and a secret set with `config --set` (keys read after trimming) come back unchanged after a load |
| Config.SetLoadResolveAsWritten | src/QuickCode.Cli/Configuration/ConfigService.cs:147-148 | with the test as written, a short secret comes back as its ciphertext, not as the secret |
| Dbml.WrittenCount | src/QuickCode.Cli/CliApplication.cs:1261-1297 | the success count is the number of items that were not skipped and whose attempt went through |
| Dbml.WrittenFromTargets | src/QuickCode.Cli/CliApplication.cs:1261-1297 | every file written comes from an item that was not skipped |
| Dbml.DownloadTarget | src/QuickCode.Cli/CliApplication.cs:1266-1283 | a module without a name or template key is skipped; otherwise it goes to "<name>.dbml" |
| Dbml.TemplateTarget | src/QuickCode.Cli/CliApplication.cs:1320-1335 | a template without a key or name is skipped; otherwise it goes to "templates/<key>.dbml" |
| Dbml.DownloadModule | src/QuickCode.Cli/CliApplication.cs:1266-1293 | one module yields a file exactly when it has a name and template key and the download and write go through, and then it is "<name>.dbml" |
| Dbml.DownloadTemplate | src/QuickCode.Cli/CliApplication.cs:1320-1347 | one template yields a file exactly when it has a key and name and the download and write go through, and then it is "templates/<key>.dbml" |
| Dbml.DownloadProjectModules | src/QuickCode.Cli/CliApplication.cs:1261-1297 | the loop writes exactly the reference list of files; successes are that many, and every module counts once |
| Dbml.DownloadTemplates | src/QuickCode.Cli/CliApplication.cs:1315-1351 | the same for the template modules |
| Dbml.ModuleMapOf | src/QuickCode.Cli/CliApplication.cs:1415-1423 | every key holds a record carrying that non-blank name |
| Dbml.ModuleMapLast | src/QuickCode.Cli/CliApplication.cs:1415-1423 | a name is a key iff some record has it, and it holds the last such record |
| Dbml.BuildModuleMap | src/QuickCode.Cli/CliApplication.cs:1415-1423 | the loop builds that dictionary |
| Dbml.UploadTarget | src/QuickCode.Cli/CliApplication.cs:1433-1451 | an upload happens exactly when the file's module is in the dictionary with a non-blank name, template key and database type, and it uses those values |
| Dbml.UploadNamesFile | src/QuickCode.Cli/CliApplication.cs:1433-1460 | the upload goes to the module named after the file |
| Dbml.UploadFile | src/QuickCode.Cli/CliApplication.cs:1433-1475 | one file yields an upload exactly when its module is found with a name, template key and database type and the call returns true, and then it is that module's upload |
| Dbml.UploadDbmls | src/QuickCode.Cli/CliApplication.cs:1428-1483 | the loop uploads exactly the reference list; successes are that many, and every file counts once |
| Session.HexOf | src/QuickCode.Cli/Utilities/CliHelpers.cs:17-23 | two lower-case hex digits per byte |
| Session.HexRoundTrip | src/QuickCode.Cli/Utilities/CliHelpers.cs:17-23 | the bytes are recovered from the id |
| Session.HexInjective | src/QuickCode.Cli/Utilities/CliHelpers.cs:17-23 | distinct byte buffers give distinct ids |
| Session.GenerateSessionId | src/QuickCode.Cli/Utilities/CliHelpers.cs:15-24 | the loop builds the hexadecimal text of the buffer |
| Session.SessionIdLength | src/QuickCode.Cli/Utilities/CliHelpers.cs:17 | sixteen bytes give a 32-character id |
| ApiClient.NormalizeBaseUrl | src/QuickCode.Cli/Services/QuickCodeApiClient.cs:28 | the base address ends with '/', extends the given one by at most that '/', and is unchanged when it already ends so |
| ApiClient.LastProperty | src/QuickCode.Cli/Services/QuickCodeApiClient.cs:253-261 | found iff some property has the exact name, and then it is the last one with that name |
| ApiClient.Shortened | src/QuickCode.Cli/Services/QuickCodeApiClient.cs:268 | lengths are UTF-16 units; a body of up to 500 units is kept; a longer one becomes a prefix of 500 units (499 when the cut falls inside a surrogate pair) followed by "..." |
| ApiClient.ExtractErrorMessage | src/QuickCode.Cli/Services/QuickCodeApiClient.cs:238-269 | a blank body gives "API error (code)."; a JSON string gives the string; a body that is not JSON, or another kind of value, gives the shortened body |
| ApiClient.MessageBeforeError | src/QuickCode.Cli/Services/QuickCodeApiClient.cs:253-256 | a string "message" property wins over "error" |
| ApiClient.ErrorWithoutMessage | src/QuickCode.Cli/Services/QuickCodeApiClient.cs:253-261 | without a "message" property, the last "error" property, when a string, is reported |
| ApiClient.LastIsFound | src/QuickCode.Cli/Services/QuickCodeApiClient.cs:253-261 | `TryGetProperty` finds the last property of a name |
| ApiClient.PropertyNotString | src/QuickCode.Cli/Services/QuickCodeApiClient.cs:253-268 | the consulted property holding null gives the default message, and holding an object or another non-string kind gives the shortened body |
| ApiClient.NeitherProperty | src/QuickCode.Cli/Services/QuickCodeApiClient.cs:253-268 | an object with neither a "message" nor an "error" property gives the shortened body |
| ApiClient.FallbackIsShortPrefix | src/QuickCode.Cli/Services/QuickCodeApiClient.cs:244-268 | the fallback message is non-empty, at most 503 UTF-16 units, and the whole body when it takes at most 500 |
| ApiClient.Send | src/QuickCode.Cli/Services/QuickCodeApiClient.cs:187-236 | a failure status is an error; an empty successful body gives no content; otherwise the result is the decoded value, or an error for JSON null |
| ApiClient.FailureMessage | src/QuickCode.Cli/Services/QuickCodeApiClient.cs:187-192 | a failure message starts with "HTTP <code> " and ends with the extracted message |

## Left out

- Console I/O, colours and emoji output are left out; the screen is an unbounded grid that never scrolls or wraps.
- The SignalR connection and GenerationWatcher, locks, the async verification timer and task scheduling are left out. They are concurrency with no state of their own in the core.
- A snapshot field the source reads is absent, unreadable (present but null or of another JSON kind, so that `GetInt32`, `GetBoolean`, `GetString` or `TryGetDouble` throws; a null description reads as "Unknown") or a value; an array element that is not an object has every field unreadable. Which exception is thrown is not modelled, only that one is.
- The push-event handler (CliApplication.cs:1831-1850) has no `catch`: an exception there goes to the SignalR client. `Completion.Decide` models the polling callback, whose `catch` falls back on the finished flag.
- The clock is left out: the elapsed time of a step in progress is never shown, because that step shows a spinner frame instead. `DateTimeOffset.TryParse` of a start date is left out too.
- Duration.FormatDuration: works on integer milliseconds. Floating point, NaN, infinities and the midpoint rounding of `F1` are not modelled; `F1` is taken as rounding half up to tenths. `F1` formats with the current culture; the model assumes one whose decimal separator is '.' (the invariant or an English culture), so on a culture such as de-DE or fr-FR the source prints "12,5s" where the model and its parser use "12.5s".
- `int.Parse` accepts a sign and surrounding whitespace. Versions.ParsePart accepts only plain digits up to `int.MaxValue`, because build versions never carry either.
- Text is a sequence of Unicode scalar values (Dafny `char`), not of UTF-16 units. Lengths count characters, except where the source cuts text by `Length` (the width truncation and the 500-unit error body), which count UTF-16 units (`Common.Utf16Length`). Screen columns count characters. `OrdinalIgnoreCase` and `IsLetterOrDigit` are restricted to ASCII.
- Common.Truncate: when the cut falls inside a surrogate pair, .NET keeps the lone high surrogate, which a Dafny string cannot hold; the model drops that character whole, so the result is one unit short.
- ApiClient.Shortened: cuts with Common.Truncate, so a cut inside a surrogate pair drops that character instead of keeping its high surrogate.
- SafeBufferHeight, SetCursorSafely and WritePaddedLine are defined in CliHelpers.cs but never called. They are left out.
- System.Text.Json replaces the project dictionary when it loads the file, so after a load the dictionary's lookups are case-sensitive. The model keeps the case-insensitive comparer throughout. Malformed JSON in the file is left out.
- In the DBML loops, `GetString` on a property that is not a string throws, and so does `TryGetProperty` on an array element that is not an object; nothing catches either. The model takes such a property as missing and every element as an object.
- The early exits and messages of the DBML commands (no credentials, no modules), the directory creation and the README download are left out. The network calls and file writes are the `attempt` flags.
- HandleProjectRemove's deletion of the project directory is left out. Only the dictionary removal is modelled.
- The parsing of `--set key=value` entries (Split with RemoveEmptyEntries) is left out. The handlers take the key and value.
- AES-CBC, the key file and its permissions are left out. They are the `Crypto` parameter, whose round trip, output length and Base64 alphabet are assumptions (`WellBehaved`).
- Config.EncryptSecret: a fresh random IV makes each encryption different. The model takes encryption as a function, so two encryptions of one secret coincide.
- Config.Load: `Load(c, AsWritten, file)` is the program and `Load(c, Corrected, file)` the intended one (see Findings). The decryption attempt in the migration's else-branch affects nothing and is left out.
- Polling.RunPolling: `ScriptEnded` is the model's bound, reached when the scripted responses run out while the token is still live. The source's loop has no such end.
- Polling.RunPolling: a fetch that throws is one `Failed` element whatever the cause (a non-success status, a JSON-null body or a transport error); the exception itself, which nothing catches and which ends the watch command, is the `FetchFailed` end.
- Arguments.NormalizeIdempotent: holds only when the first argument is not "modules", because the source's normaliser is not idempotent there (Arguments.NormalizeNotIdempotentOnModules).
- CheckVersionUpdate's HTTP request and the regular expression over the Homebrew formula are left out. The published version is a parameter.

## Findings

| source | as written | input that shows it | evidently intended | confidence | as-written member | corrected member |
|---|---|---|---|---|---|---|
| src/QuickCode.Cli/Utilities/CliHelpers.cs:94-123 | with no lines to draw, nothing clears the anchor row, and the clearing loop's first LF lands one row below it, so it wipes the row under the old block | a render of one line, a log line printed under it, then a render with an empty steps array | the previous block's rows are emptied, the anchor row included, and the row under it is left alone | not executed | ProgressRender.ProgressRenderer.RepaintAsWritten, ProgressRender.ProgressRenderer.RenderStepProgress, ProgressRender.EmptyRepaintAsWritten | ProgressRender.ProgressRenderer.Repaint, ProgressRender.ProgressRenderer.RenderStepProgressIntended, ProgressRender.EmptyRepaintIntended |
| src/QuickCode.Cli/Configuration/ConfigService.cs:147-148 | a stored secret counts as encrypted only when longer than 50 characters, but a secret of up to 15 UTF-8 bytes encrypts to 44 | `config --set` of the secret "abc" on a project, then two loads | a value the service itself encrypted is recognised, so loading leaves it alone | not executed | Config.IsLikelyEncrypted, Config.ShortSecretReencrypted, Config.SetLoadResolveAsWritten | Config.LooksEncrypted, Config.StoredSecretSurvivesLoad, Config.SetLoadResolve |
| src/QuickCode.Cli/Utilities/CliHelpers.cs:408-417 | a step whose action is not listed does not block the step test, so steps without matching actions count as completed | one step with action id 1 and an empty actions array while the run is going | completion needs every step shown Completed | not executed | Completion.Decide, Completion.VacuousCompletion, Snapshot.AllStepsCompletedWithoutActions | Completion.DecideIntended, Snapshot.ShownCompletedIsMatchedStepTest |
