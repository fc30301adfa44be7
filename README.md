# Proctored exam app: a Dafny model of its session logic

This project models the behaviour of a small React examination app. A
candidate picks a module on the dashboard, reads its instructions, answers
timed multiple-choice questions on a monitored exam screen, and sees a
graded result. The logic lives inside React components and one hook. The
model pulls it out of the JSX, one Dafny module per source file:

- `ExamTypes` (types.dfy) holds the records of `src/types/index.ts`:
  modules, questions, the answer ledger, attempts and proctoring events. It
  also holds the one comparison both screens use, "the recorded answer
  equals `correct_answer`".
- `ExamInterface` (exam_interface.dfy) covers the exam screen.
  - The class `ExamSession` has the component's state fields: `answers`,
    `timeLeft`, `currentQuestionIndex` and `submitting`.
  - Its methods are the answer handler, the three navigation controls, the
    one-second timer tick and the submission.
  - The submission is split at its `await`. `BeginSubmit` is the guarded
    synchronous part that builds the attempt record. `FinishSubmit` is the
    continuation once the result store has answered. Other events can
    arrive in between, which is where the `submitting` guard matters.
  - Pure functions cover the score reduce, the ceiling-minute time taken
    and the `m:ss` clock. The clock has a parser as its proved inverse.
- `ExamResults` (exam_results.dfy) covers the results screen: the rounded
  percentage, the 70% pass line, the letter grade, the "Correct" and
  "Incorrect" figures, and the per-question review card with its
  option-key to option-text lookup.
- `Proctoring` (proctoring.dfy) covers the `useProctoring` hook.
  - The class `ViolationMonitor` keeps an append-only violation log and a
    full-screen flag.
  - It has one method per browser event handler. Each method's arguments
    carry what the handler reads from `document` or from the event.
  - The `isActive` gate is all or nothing. When it is off, no handler
    changes anything.
  - The keydown decision is a pure classifier.
- `AppShell` (app.dfy) covers the four-screen state machine of `App.tsx`:
  its handlers as methods, and its render guards as a function. It also
  records that the app builds its monitor inactive.
- `Dashboard` (dashboard.dfy) covers the dashboard figures: the latest
  attempt per module, its percentage and colour band, the Start/Retake
  label, the five-row recent table and the average score.

The model follows the code as written:

- The code has no terminal "finalized" state. The only guard is the
  in-flight `submitting` flag, and it is lowered after a failed insert as
  well. A later submit or timer tick then builds a fresh attempt from the
  current ledger. `SubmitRacingTimer` shows this.
- The timer tick starts a submission on every tick where the clock is at or
  below one second, including ticks after it has reached 0.
- Full question records, correct answers included, reach the browser before
  submission.

## Model

| member | source | states |
|---|---|---|
| `ExamInterface.Score` | src/components/ExamInterface.tsx:81-83 | the score never exceeds the number of questions |
| `ExamInterface.ScoreCountsCorrectAnswers` | src/components/ExamInterface.tsx:81-83 | the score is the number of questions whose recorded answer equals `correct_answer`; total minus score is the number answered wrongly or not at all |
| `ExamInterface.ScoreReadsOnlyQuestionIds` | src/components/ExamInterface.tsx:81-83 | only the ledger entries of the listed questions affect the score |
| `ExamInterface.TimeTaken` | src/components/ExamInterface.tsx:85 | the minutes taken are the ceiling of (duration·60 − timeLeft)/60 |
| `ExamInterface.TimeTakenWithinDuration` | src/components/ExamInterface.tsx:85 | with 0 ≤ timeLeft ≤ duration·60 the time taken lies in [0, duration] |
| `ExamInterface.TimeTakenAntitone` | src/components/ExamInterface.tsx:85 | less time left never gives less time taken |
| `ExamInterface.Decimal` | src/components/ExamInterface.tsx:122 | `toString()` of a whole number gives decimal digits without leading zeros, denoting that number |
| `ExamInterface.PadTwo` | src/components/ExamInterface.tsx:121-122 | `padStart(2, '0')` of a seconds value gives exactly two digits denoting it |
| `ExamInterface.FormatTime` | src/components/ExamInterface.tsx:119-123 | the clock text is unpadded minutes (no leading zero), a colon third from the end, and two digits |
| `ExamInterface.FormatTimeRoundTrip` | src/components/ExamInterface.tsx:119-123 | reading the `m:ss` text back gives m·60 + ss, which equals the seconds |
| `ExamInterface.DecimalUnique` | src/components/ExamInterface.tsx:122 | `toString()` is the only digit string without leading zeros that denotes its number |
| `ExamInterface.PadTwoUnique` | src/components/ExamInterface.tsx:121-122 | any two digits below 60 are the `padStart(2, '0')` spelling of their value |
| `ExamInterface.ParseTimeOnlyDisplays` | src/components/ExamInterface.tsx:119-123 | every text the reader accepts is exactly the display of the seconds it yields, so 65 s can only read "1:05" |
| `ExamInterface.FormatTimeExample` | src/components/ExamInterface.tsx:119-123 | 65 seconds display as "1:05" |
| `ExamInterface.Upsert` | src/components/ExamInterface.tsx:68-73 | selecting sets the question's entry to the new option, overwriting any earlier one; every other entry is unchanged; the key count grows by one exactly when the question was unanswered |
| `ExamInterface.UpsertOverwrites` | src/components/ExamInterface.tsx:68-73 | choosing b and then d leaves the single entry d |
| `ExamInterface.BuildAttempt` | src/components/ExamInterface.tsx:81-96 | the attempt record has score ≤ total_questions = number of questions; its score counts the correct answers; it carries the ledger, module, user, violation count and time; time taken is the ceiling minutes of (duration·60 − timeLeft), and lies in [0, duration] with the clock in range |
| `ExamInterface.ExamSession.constructor` | src/components/ExamInterface.tsx:25-30 | a session starts with no answers, the full duration in seconds, index 0 and no submission in flight |
| `ExamInterface.ExamSession.AnsweredCount` | src/components/ExamInterface.tsx:138 | the answered count (number of ledger keys) never exceeds the number of questions |
| `ExamInterface.ExamSession.SelectAnswer` | src/components/ExamInterface.tsx:68-73 | the ledger becomes the upsert of the old one; the answered count grows by one exactly when the question was new |
| `ExamInterface.ExamSession.Previous` | src/components/ExamInterface.tsx:297 | Previous stays at 0 at the first question and otherwise steps back one; answers are unchanged |
| `ExamInterface.ExamSession.Next` | src/components/ExamInterface.tsx:326 | Next stays on the last question and otherwise steps forward one; the index stays in [0, len−1]; answers are unchanged |
| `ExamInterface.ExamSession.GoTo` | src/components/ExamInterface.tsx:205-208 | a sidebar button moves to its own question; answers are unchanged |
| `ExamInterface.ExamSession.BeginSubmit` | src/components/ExamInterface.tsx:75-96 | with a submission in flight nothing is built; otherwise the flag is raised and the attempt is built from the current ledger and clock |
| `ExamInterface.ExamSession.FinishSubmit` | src/components/ExamInterface.tsx:98-116 | the flag is lowered on success and on failure; the completed attempt (the stored row) is passed on exactly when the insert succeeded and leaving full screen did not throw |
| `ExamInterface.ExamSession.Tick` | src/components/ExamInterface.tsx:37-49 | above one second the clock drops by one; at or below one second a (guarded) submission is started with the clock as it stood and the clock becomes 0; the clock never increases or goes negative |
| `ExamInterface.SubmitRacingTimer` | src/components/ExamInterface.tsx:75-116 | when the clock runs out while a manual submit is in flight, the expiring tick fires but starts no second submission; after a failed insert a new submit builds a fresh attempt |
| `ExamResults.Percentage` | src/components/ExamResults.tsx:20 | the percentage is within half a point of 100·score/total, with halves rounded up |
| `ExamResults.PercentageUnique` | src/components/ExamResults.tsx:20 | that rounding condition fixes the percentage uniquely |
| `ExamResults.PercentageInRange` | src/components/ExamResults.tsx:20 | for 0 ≤ score ≤ total the percentage lies in [0, 100] |
| `ExamResults.PercentageMonotone` | src/components/ExamResults.tsx:20 | a higher score never gives a lower percentage |
| `ExamResults.GetGrade` | src/components/ExamResults.tsx:23-30 | the grade is the best of A+ (90), A (80), B (70), C (60), D (50) whose threshold the percentage reaches, else F |
| `ExamResults.GradeMonotone` | src/components/ExamResults.tsx:23-30 | a higher percentage never yields a lower grade |
| `ExamResults.IsPassed` | src/components/ExamResults.tsx:21 | passing is a percentage of at least 70, that is, earning a B or better |
| `ExamResults.PassedIffGradeAtLeastB` | src/components/ExamResults.tsx:21-30 | passing (percentage ≥ 70) holds exactly when the grade is A+, A or B |
| `ExamResults.GradeExamples` | src/components/ExamResults.tsx:20-30 | 6/10 gives 60, C, fail; 7/10 gives 70, B, pass; 9/10 gives 90, A+, pass |
| `ExamResults.Summarize` | src/components/ExamResults.tsx:20-32 | the header shows the rounded percentage of score/total_questions, the grade of that percentage, pass exactly when it reaches 70, and "Correct" equal to the stored score; correct + incorrect equals total_questions; passed ⇔ grade ∈ {A+, A, B}; with score ≤ total the percentage lies in [0, 100] |
| `ExamResults.IncorrectCountsWrongAndUnanswered` | src/components/ExamResults.tsx:70-74 | for an attempt scored over the reviewed questions, "Correct" counts the correct answers and "Incorrect" counts the wrong and the unanswered questions |
| `ExamResults.OptionText` | src/components/ExamResults.tsx:151-163 | option key a, b, c or d selects field option_a, option_b, option_c or option_d |
| `ExamResults.Review` | src/components/ExamResults.tsx:124-165 | a card is marked correct exactly when the stored answer equals `correct_answer`; a missing answer shows "No answer selected" and is never correct; both sides show the option text of their key |
| `ExamResults.CorrectCards` | src/components/ExamResults.tsx:124-126 | the number of cards marked correct equals the score over the same questions |
| `Proctoring.ToLower` | src/hooks/useProctoring.ts:61 | lowercasing keeps the length, leaves no capital A–Z, turns each capital into its small letter and leaves every other character as it is |
| `Proctoring.ClassifyKey` | src/hooks/useProctoring.ts:57-71 | a `copy_paste` violation is recorded exactly when Ctrl or Meta is held and the key is one of c, v, a, x, s, f, p, r in either case; the key is suppressed exactly when that holds or the key code is 112, 116 or 123 |
| `Proctoring.ReservedKeysNeverRecorded` | src/hooks/useProctoring.ts:68-70 | F1, F5 and F12 are suppressed and never recorded |
| `Proctoring.ViolationMonitor.constructor` | src/hooks/useProctoring.ts:4-6 | a monitor starts with an empty log and not full screen |
| `Proctoring.ViolationMonitor.ViolationCount` | src/hooks/useProctoring.ts:88 | the violation count is the length of the log, which AddViolation grows by one; it is 0 exactly when nothing was recorded |
| `Proctoring.ViolationMonitor.AddViolation` | src/hooks/useProctoring.ts:8-14 | exactly one event is appended at the end and earlier events are unchanged; the violation count grows by one |
| `Proctoring.ViolationMonitor.OnFullscreenChange` | src/hooks/useProctoring.ts:37-44 | when active, the flag becomes the current full-screen state and `fullscreen_exit` is recorded only when that state is not full screen; when inactive nothing changes |
| `Proctoring.ViolationMonitor.OnVisibilityChange` | src/hooks/useProctoring.ts:46-50 | when active, `tab_change` is recorded only when the document is hidden; when inactive nothing changes |
| `Proctoring.ViolationMonitor.OnContextMenu` | src/hooks/useProctoring.ts:52-55 | when active, every context menu is suppressed and records exactly one `right_click`; when inactive nothing changes |
| `Proctoring.ViolationMonitor.OnKeyDown` | src/hooks/useProctoring.ts:57-71 | when active, the key is suppressed and recorded as the classifier says; when inactive nothing changes |
| `Proctoring.ExitEnterExit` | src/hooks/useProctoring.ts:37-44 | exit, enter, exit yields exactly two `fullscreen_exit` events, in order, without deduplication |
| `Proctoring.InactiveMonitorIgnoresEvents` | src/hooks/useProctoring.ts:34-35 | with monitoring off, no event changes the log or the flag, and nothing is suppressed |
| `AppShell.AppController.constructor` | src/App.tsx:16-20 | the app starts on the dashboard with nothing selected, and its monitor is built inactive with an empty log |
| `AppShell.AppController.ModuleSelect` | src/App.tsx:22-24 | selecting a module stores it and moves to the instructions |
| `AppShell.AppController.QuestionsFetched` | src/App.tsx:26-39 | fetched questions replace the review questions; a fetch without data changes nothing |
| `AppShell.AppController.StartExam` | src/App.tsx:42-49 | starting moves to the exam screen whether or not full screen was granted |
| `AppShell.AppController.ExamComplete` | src/App.tsx:51-54 | completing stores the attempt and moves to the results, keeping module and questions |
| `AppShell.AppController.RetakeExam` | src/App.tsx:56-59 | retaking moves to the instructions, clears the attempt and keeps the selected module |
| `AppShell.AppController.BackToDashboard` | src/App.tsx:61-66 | going back moves to the dashboard and clears module, attempt and questions |
| `AppShell.AppController.Render` | src/App.tsx:68-120 | the spinner renders exactly while auth is loading, and the sign-in form exactly when it is not and no one is signed in; then instructions and exam render exactly when a module is selected, results exactly when both module and attempt are present, and otherwise those screens render nothing |
| `AppShell.RetakeKeepsModule` | src/App.tsx:51-91 | after select, start, complete and retake, the instructions of the same module render |
| `AppShell.AppRecordsNoViolations` | src/App.tsx:16 | as wired, the app's monitor records no violation whatever events occur |
| `Dashboard.Find` | src/components/Dashboard.tsx:56 | `find` returns the first element that matches, or nothing exactly when no element matches |
| `Dashboard.GetModuleAttempt` | src/components/Dashboard.tsx:55-57 | the attempt found is the first fetched attempt whose `module_id` matches; there is none exactly when no attempt belongs to it |
| `Dashboard.ModuleAttemptIsLatest` | src/components/Dashboard.tsx:40-57 | with attempts fetched newest first, the attempt shown for a module is at least as recent as every attempt of that module |
| `Dashboard.ScoreBand` | src/components/Dashboard.tsx:151-153 | green exactly when the result passes (≥ 70), yellow exactly for grades C and D, red exactly for F |
| `Dashboard.ScoreBandMonotone` | src/components/Dashboard.tsx:151-153 | a higher percentage never gets a worse colour |
| `Dashboard.Card` | src/components/Dashboard.tsx:139-174 | the button reads "Retake Exam" exactly when an attempt exists for the module, else "Start Exam"; an unattempted module shows no badge; the badge shows the rounded percentage of the attempt `getModuleAttempt` finds, with its colour band; only that attempt needs a positive question count |
| `Dashboard.CardShowsNewest` | src/components/Dashboard.tsx:40-57 | with attempts newest first, the badge shows the percentage and band of the module's most recent attempt |
| `Dashboard.RecentAttempts` | src/components/Dashboard.tsx:196 | the recent table holds the first min(5, n) attempts in fetched order |
| `Dashboard.RecentAreNewest` | src/components/Dashboard.tsx:196 | with attempts newest first, no attempt left out of the table is newer than one in it |
| `Dashboard.Row` | src/components/Dashboard.tsx:196-220 | a row shows the module title when a module has the attempt's id, the stored score out of total_questions, the rounded percentage and its colour band, the minutes taken and the completion time |
| `Dashboard.PercentSum` | src/components/Dashboard.tsx:129 | with every score within its total, the sum of the attempts' percentages is at most 100 per attempt |
| `Dashboard.AverageScore` | src/components/Dashboard.tsx:128-130 | the average is 0 with no attempts, otherwise the mean percentage rounded half up, and within [0, 100] when every score is within its total |

## Left out

- Result-store and content-store I/O is not modelled. This covers the
  question, module and attempt fetches and the `user_attempts` insert. The
  fetched lists arrive as arguments. The insert's outcome is an
  `InsertResult` argument of `FinishSubmit`.
- The `loading` flags and spinners are not modelled. `useAuth`, `AuthForm`
  and sign-out are not part of this model. The user id is an argument, and
  the auth loading and signed-in state are arguments of `Render`.
- The timer and the listeners are not modelled as resources: no
  `setInterval`/`clearInterval` lifecycle and no
  `addEventListener`/`removeEventListener` registration. Timer ticks and
  browser events are method calls, and teardown is not modelled.
- The host browser calls `requestFullscreen`, `exitFullscreen`,
  `document.fullscreenElement`, `document.hidden` and `preventDefault` are
  arguments and results.
- The hook's `enterFullscreen` and `exitFullscreen`
  (src/hooks/useProctoring.ts:16-32) change no monitor state and catch
  their own errors, so they are left out. The hook's `exitFullscreen` is
  never called.
- `StartExam`'s `fullscreenGranted` argument stands for the outcome of
  `enterFullscreen`, which the screen change ignores.
- `FinishSubmit`'s `exitFullscreenFailed` argument is whether the exam
  screen's own `document.exitFullscreen()` call threw
  (src/components/ExamInterface.tsx:106-109). That error skips
  `onExamComplete`.
- React closure and batching behaviour is not modelled. The interval
  callback is created once. In the running app, a timer-fired submit
  therefore sees the first render's `questions`, `answers`, `submitting`,
  `timeLeft` and `violationCount`.
- `ExamInterface.ExamSession.Tick`: uses the current fields instead of those
  first-render values. In the source, a timer-fired submit computes
  `time_taken_minutes` from the initial `timeLeft` (duration·60). It stores
  ceil(0/60) = 0. The model stores ceil((duration·60 − timeLeft)/60), which
  is the full duration at expiry.
- `ExamInterface.ExamSession.Tick`: a timer-fired submit in the source also
  sees the first render's empty `questions`, empty ledger and violation
  count 0. On every expiry it stores score 0 and `total_questions` 0, and
  the results screen then shows "NaN%" with grade F. The model scores the
  fetched questions instead.
- `ExamInterface.SubmitRacingTimer`: the `submitting` guard against the
  expiring tick holds only in this model, which reads the current fields.
  In the source the interval callback sees the first render's
  `submitting == false`. A tick at or below one second during a manual
  submit's insert therefore starts a second insert.
- `ExamResults.Percentage`: requires total > 0. JavaScript gives NaN when
  the total is 0, and that case is not modelled.
- An attempt with 0 questions is reachable. Every timer-fired submit in the
  source stores 0 questions, as the stale-closure lines above explain. In
  the model, a failed question fetch leaves the list empty and the timer
  still submits. The source then shows
  "NaN%" with grade F (src/components/ExamResults.tsx:20-32). These members
  inherit the requirement that the total be positive, so they do not cover
  that case:
  - `ExamResults.Summarize` and `ExamResults.IncorrectCountsWrongAndUnanswered`,
    for the attempt on the results screen.
  - `Dashboard.Card`, for the attempt its badge shows.
  - `Dashboard.Row`, for its own attempt.
  - `Dashboard.PercentSum` and `Dashboard.AverageScore`, for every attempt,
    through `WellFormed`.
- `ExamResults.Percentage`: computes in exact rational arithmetic. The
  source uses binary floating point, which can round differently when
  100·score/total lands next to a half.
- `Dashboard.AverageScore`: sums the percentages exactly. The floating-point
  accumulation of the source is not modelled.
- Timestamps are naturals ordered by time. The ISO-8601 text and
  `toLocaleDateString` are not modelled.
- `Proctoring.ToLower`: maps only ASCII capitals. Other Unicode case
  mappings of `toLowerCase` are not modelled, and none of them yields one
  of the eight shortcut letters.
- Ledger values have the type `OptionKey`, because the radio inputs emit
  only `a` to `d`. The free-form strings that `Record<string, string>`
  would allow are not modelled.
- `ViolationMonitor.isActive` is fixed when the monitor is built. Handlers
  being re-registered when the hook's argument changes is not modelled. The
  app always passes `false`.
- All presentation is left out. This covers JSX, CSS classes, the progress
  bar width (a floating-point value), the timer colour, the visibility of
  the "Submit early" button, and the static `ExamInstructions.tsx`.
- The dashboard's "Total Modules" and "Completed" cards show list lengths.
  They are not modelled.
- The unused `violations` and `onBack` props of the exam screen are not
  modelled.
