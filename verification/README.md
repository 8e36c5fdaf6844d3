# Pure kernels of five small apps, modelled and proved in Dafny

The repository bundles several small applications. Each has a pure, sequential
kernel under its UI and I/O, and this project models those kernels and proves
properties about them:

- **denki-kakomon**, an exam-prep web app. Modelled: the progress ledger
  (`progressStore`), the exam session (`examStore`), the countdown timer
  (`useTimer`), the practice/exam gating of the question card, the explanation
  panel's line classifier and the settings store.
- **LocalCrow**, a chat agent that runs shell commands. Modelled:
  - the three-tier command sandbox;
  - the balanced-brace scanner that recovers `execute_command` calls from model text;
  - the 2000-character message splitter;
  - the mode-to-prompt/tool table.
- **price_sniper**, an arbitrage finder. Modelled:
  - name normalisation and overlap scoring;
  - the best-match loop;
  - profit arithmetic, threshold filtering and the descending sort;
  - price-text digit extraction and the retrying navigator;
  - the Mercari and Yahoo condition-label readers and link rules.
- **ai_manga_factory**, a ComfyUI batch driver. Modelled:
  - workflow node search and input editing;
  - expansion of a scenario into numbered jobs;
  - status counting;
  - how a job is wired into a template.
- **shared_lib**. Modelled: dot-path configuration lookup with environment
  precedence, code-fence stripping of LLM replies and LLM-backend selection.

Layout: one module per source component, plus shared value modules:

- `Wrappers`: `Option`/`Result`.
- `Text`: split/join/strip/substring search/ASCII case mapping/whitespace words.
- `Decimal`: digits, rendering, zero padding.
- `Percent`: `Math.round` of a percentage as integer arithmetic.
- `Assoc`: ordered string-keyed records, standing for JS objects and Python dicts, whose iteration order matters.
- `Json`: JSON/YAML values, Python truthiness and `str()`.

How the model represents the programs:

- State is immutable. Every mutating operation is a function from the old value to the new one.
- Clocks, random draws and callbacks are parameters.
- Foreign parsers are passed in as oracle functions: `shlex.split`, the regular expressions, `json.loads`, the fenced-block regex and `repr`.

## Model

| member | source | states |
|---|---|---|
| ProgressStore.UpsertAnswer | denki-kakomon/src/stores/progressStore.ts:70-89 | a first recording of a question adds an entry with attempt count 1 and raises `questionsAnswered` by one; a re-recording overwrites the choice and correctness, bumps the attempt count and leaves `questionsAnswered` alone; `questionsCorrect` rises on every correct recording; time accumulates; every other answer entry is unchanged |
| ProgressStore.UpdateWeak | denki-kakomon/src/stores/progressStore.ts:93-98 | a wrong answer puts the id in the weak list, a right one removes it, other ids keep their membership, and no id is ever listed twice |
| ProgressStore.Without | denki-kakomon/src/stores/progressStore.ts:97 | filtering removes exactly the given id and keeps the list duplicate-free |
| ProgressStore.RecordAnswer | denki-kakomon/src/stores/progressStore.ts:44-101 | the addressed (qualification, subject, year) bucket, created zeroed when missing, receives the upsert; every other bucket is unchanged; the qualification's total time grows by the time spent and its last-studied stamp becomes now, its accuracy field kept; every other qualification is unchanged; the weak list follows the outcome; bookmarks and visitor id are untouched |
| ProgressStore.RecordAnswerIn | denki-kakomon/src/stores/progressStore.ts:44-101 | on the store, only the ledger changes, as RecordAnswer says; the last-session pointer is kept |
| ProgressStore.RecordAnswerKeepsConsistent | denki-kakomon/src/stores/progressStore.ts:70-87 | recording keeps every bucket's `questionsAnswered` equal to its number of answer entries and `questionsCorrect` at least its number of correct entries |
| ProgressStore.WeakListTracksLatestOutcome | denki-kakomon/src/stores/progressStore.ts:93-98 | from the empty ledger, after any sequence of recordings, an id is in the weak list exactly when its latest recording was wrong, and appears once |
| ProgressStore.TotalsAgreeWithEntries | denki-kakomon/src/stores/progressStore.ts:138-162 | after any recordings from empty, `getTotalAnswered` equals the number of answer entries `getAccuracy` counts, and `getTotalCorrect` is at least the number of correct entries |
| ProgressStore.CorrectCounterCountsRecordings | denki-kakomon/src/stores/progressStore.ts:85-87 | two correct recordings of one question leave one answered and two correct |
| ProgressStore.WrongThenRightScenario | denki-kakomon/src/stores/progressStore.ts:71-98 | wrong then right on one question: answered stays 1, correct becomes 1, attempt count 2, and the question leaves the weak list |
| ProgressStore.ToggleBookmark | denki-kakomon/src/stores/progressStore.ts:104-111 | flips membership of exactly the given id; other bookmarks, the ledger and the weak list are untouched; no duplicates arise |
| ProgressStore.ToggleBookmarkTwice | denki-kakomon/src/stores/progressStore.ts:104-111 | toggling twice restores the bookmark set, and the list itself when the id was absent |
| ProgressStore.GetAccuracy | denki-kakomon/src/stores/progressStore.ts:113-133 | the accuracy is within 0..100 and is the rounded percentage of correct answer entries in the scope (all qualifications or one); it is 0 when there are no entries |
| ProgressStore.SetLastSession | denki-kakomon/src/stores/progressStore.ts:164-166 | records the session pointer and leaves progress unchanged |
| ProgressStore.ResetProgress | denki-kakomon/src/stores/progressStore.ts:168-170 | after a reset the ledger has no qualifications, both totals and the accuracy are 0, weak list and bookmarks are empty, and there is no last session |
| ProgressStore.GetTotalAnswered | denki-kakomon/src/stores/progressStore.ts:138-149 | 0 for an empty ledger; on a consistent ledger, the number of answer entries across all buckets |
| ProgressStore.GetTotalCorrect | denki-kakomon/src/stores/progressStore.ts:151-162 | 0 for an empty ledger; on a consistent ledger, at least the number of entries whose latest answer is correct |
| Percent.RoundedPercent | denki-kakomon/src/stores/progressStore.ts:132 | `Math.round(part / whole * 100)` as an integer: within half a unit of the exact percentage, 0 for an empty whole, and within 0..100 when 0 <= part <= whole |
| Percent.FullPercent | denki-kakomon/src/stores/examStore.ts:129 | all of n out of n rounds to exactly 100 |
| Percent.NoPercent | denki-kakomon/src/stores/examStore.ts:129 | none out of any total rounds to 0 |
| ExamStore.StartExam | denki-kakomon/src/stores/examStore.ts:25-40 | a fresh session at index 0 with no answers or bookmarks, the configured time, status in-progress, the given questions and start time, and the previous result cleared |
| ExamStore.AnswerQuestion | denki-kakomon/src/stores/examStore.ts:42-52 | without a session nothing changes; otherwise only that question's answer is set, whatever the status, and everything else is kept |
| ExamStore.Clamp | denki-kakomon/src/stores/examStore.ts:57 | the index is clamped into [0, count-1]; an in-range index is kept; an empty list gives 0 |
| ExamStore.GoToQuestion | denki-kakomon/src/stores/examStore.ts:54-62 | only the current index changes, to the requested index clamped into the question list (0 for an empty list); without a session nothing changes |
| ExamStore.GoToSettles | denki-kakomon/src/stores/examStore.ts:54-62 | going to a question twice is going there once, and going to the question already shown changes nothing |
| ExamStore.NextQuestion | denki-kakomon/src/stores/examStore.ts:64-70 | before the last question only the index changes, by exactly one forward (a negative index lands on 0); at or past the last question, or without a session, nothing changes |
| ExamStore.PrevQuestion | denki-kakomon/src/stores/examStore.ts:72-78 | after the first question only the index changes, by exactly one back (an index past the end lands on the last question); at or before the first question, or without a session, nothing changes |
| ExamStore.PrevUndoesNext | denki-kakomon/src/stores/examStore.ts:64-78 | before the last question, next then previous restores the store |
| ExamStore.ToggleBookmark | denki-kakomon/src/stores/examStore.ts:80-93 | flips membership of only the given question in the bookmark set |
| ExamStore.ToggleBookmarkTwice | denki-kakomon/src/stores/examStore.ts:80-93 | toggling the same question twice restores the store |
| ExamStore.Tick | denki-kakomon/src/stores/examStore.ts:95-108 | without a session, or when not in progress, nothing changes; otherwise one second elapses, and a result of at most 0 becomes 0 with status time-up, so time never goes negative |
| ExamStore.CountdownReachesTimeUp | denki-kakomon/src/stores/examStore.ts:95-108 | a session with T seconds left has T-k seconds after k < T ticks and is time-up at 0 after T or more ticks |
| ExamStore.StoppedClockStays | denki-kakomon/src/stores/examStore.ts:97 | any number of ticks leave a stopped or absent session unchanged |
| ExamStore.Grade | denki-kakomon/src/stores/examStore.ts:115-120 | one record per question: an unanswered question shows '' and is wrong; it is correct exactly when the stored answer equals the key |
| ExamStore.GradeAll | denki-kakomon/src/stores/examStore.ts:115-120 | one record per question, in question order |
| ExamStore.CorrectCount | denki-kakomon/src/stores/examStore.ts:122 | the count is at most the number of records; it is the full number iff every record is correct, and 0 iff none is |
| ExamStore.SubmitExam | denki-kakomon/src/stores/examStore.ts:110-141 | fails with "No exam in progress" exactly when there is no session; otherwise marks it completed and returns the graded records, correct count, accuracy within 0..100, the elapsed seconds rounded, and the config's identifiers |
| ExamStore.SubmitTwiceSameInstant | denki-kakomon/src/stores/examStore.ts:110-141 | submitting again at the same instant regrades and reproduces the same store and result (no completed-status guard) |
| ExamStore.SubmitUnansweredScoresZero | denki-kakomon/src/stores/examStore.ts:115-129 | submitting straight after a start scores 0 with every selection '' |
| ExamStore.SubmitAllCorrectScoresFull | denki-kakomon/src/stores/examStore.ts:115-129 | answering every question with its key scores all questions and accuracy 100 |
| ExamStore.ResetExam | denki-kakomon/src/stores/examStore.ts:143-145 | clears both the session and the result |
| Timer.NewTimer | denki-kakomon/src/hooks/useTimer.ts:26-34 | starts with the initial seconds, thresholds defaulting to 600 and 300, running only when auto-start is requested |
| Timer.Interval | denki-kakomon/src/hooks/useTimer.ts:53-63 | a stopped timer is unchanged; from more than 1 second one second elapses; from at most 1 it becomes 0, stops and fires the expiry callback |
| Timer.CountdownFiresOnce | denki-kakomon/src/hooks/useTimer.ts:53-63 | k firings from T seconds leave T-k seconds and no callback when k < T, and otherwise 0 seconds, stopped, with exactly one callback |
| Timer.PausedStays | denki-kakomon/src/hooks/useTimer.ts:47-51 | a paused timer is unchanged by any number of firings and fires nothing |
| Timer.Start | denki-kakomon/src/hooks/useTimer.ts:68 | only the running flag changes, to on |
| Timer.Pause | denki-kakomon/src/hooks/useTimer.ts:69 | stops without changing the remaining time |
| Timer.Resume | denki-kakomon/src/hooks/useTimer.ts:70 | only the running flag changes, to on |
| Timer.Reset | denki-kakomon/src/hooks/useTimer.ts:71-74 | restores the initial seconds and stops, and changes nothing else |
| Timer.ResumeUndoesPause | denki-kakomon/src/hooks/useTimer.ts:69-70 | pausing then resuming a running timer restores it |
| Timer.RestartAfterExpiryFiresAgain | denki-kakomon/src/hooks/useTimer.ts:55-59 | after expiry at 0, starting again and firing once calls the expiry callback a second time |
| Timer.PhaseOf | denki-kakomon/src/hooks/useTimer.ts:76-83 | expired iff at most 0 left, critical iff within the critical threshold, warning iff above it but within the warning threshold, normal otherwise |
| Timer.PhaseMonotone | denki-kakomon/src/hooks/useTimer.ts:76-83 | with less time left the phase is never less urgent, for any thresholds |
| Timer.PercentRemaining | denki-kakomon/src/hooks/useTimer.ts:92 | 0 when the initial time is not positive; otherwise remaining/initial*100, within 0..100 while 0 <= remaining <= initial |
| ClockText.JsRem | denki-kakomon/src/hooks/useTimer.ts:86-87 | JavaScript's `%`, which truncates: it agrees with the mathematical remainder for non-negative operands and is non-positive for negative ones |
| ClockText.Field | denki-kakomon/src/hooks/useTimer.ts:89-90 | `String(n).padStart(2, '0')` is at least two characters |
| ClockText.TwoDigits | denki-kakomon/src/hooks/useTimer.ts:89-90 | a field below 100 is exactly two characters |
| ClockText.FieldsBounded | denki-kakomon/src/hooks/useTimer.ts:85-87 | below 100 hours, hours < 100 and minutes and seconds < 60; hours are 0 exactly below 3600 seconds |
| ClockText.ClockArithmetic | denki-kakomon/src/hooks/useTimer.ts:85-87 | h*3600 + m*60 + s gives back the remaining seconds |
| ClockText.FormatShape | denki-kakomon/src/hooks/useTimer.ts:85-90 | below an hour the text is `MM:SS` (5 characters, colon at 2); from an hour up to 100 hours it is `HH:MM:SS` |
| ClockText.FormatRoundTrip | denki-kakomon/src/hooks/useTimer.ts:85-90 | reading the formatted text back as a clock gives the remaining seconds, for every non-negative time |
| ClockText.NegativeTimeText | denki-kakomon/src/hooks/useTimer.ts:85-90 | a negative remaining time prints with negative fields (`-1:-5` for -5) |
| Settings.SetTheme | denki-kakomon/src/stores/settingsStore.ts:27-32 | sets exactly the theme |
| Settings.SetFontSize | denki-kakomon/src/stores/settingsStore.ts:33 | sets exactly the font size |
| Settings.ToggleSound | denki-kakomon/src/stores/settingsStore.ts:34 | flips the sound flag and nothing else |
| Settings.ToggleAutoSubmit | denki-kakomon/src/stores/settingsStore.ts:35 | flips the auto-submit flag and nothing else |
| Settings.ToggleShuffleChoices | denki-kakomon/src/stores/settingsStore.ts:36 | flips the shuffle flag and nothing else |
| Settings.TogglesAreInvolutions | denki-kakomon/src/stores/settingsStore.ts:34-36 | each toggle applied twice restores the settings |
| Settings.SettersCommute | denki-kakomon/src/stores/settingsStore.ts:27-33 | the theme and font-size setters commute, and setting a value twice equals setting it once |
| QuestionCard.Mount | denki-kakomon/src/components/exam/QuestionCard.tsx:26 | a card mounts unrevealed |
| QuestionCard.HandleSelect | denki-kakomon/src/components/exam/QuestionCard.tsx:31-38 | a click is passed on exactly in exam mode or when no answer exists, with the clicked label; the card becomes revealed iff it was already revealed or a practice click was passed on |
| QuestionCard.PracticeAnswerIsFinal | denki-kakomon/src/components/exam/QuestionCard.tsx:31-99 | in practice mode the first click is passed on; once stored, the explanation shows, the choices are disabled, and a second click changes nothing |
| QuestionCard.ExamNeverReveals | denki-kakomon/src/components/exam/QuestionCard.tsx:28-34 | in exam mode every click is passed on and the explanation never shows |
| QuestionCard.StyleOf | denki-kakomon/src/components/exam/QuestionCard.tsx:40-58 | before a reveal only the pick is highlighted; afterwards the key glows, a wrong pick shakes, and the other choices are dimmed |
| QuestionCard.RevealMarksKeyAndPick | denki-kakomon/src/components/exam/QuestionCard.tsx:50-57 | after a reveal some choice glows; a correct pick means nothing shakes, and a wrong pick among the choices shakes |
| QuestionCard.Verdict | denki-kakomon/src/components/exam/QuestionCard.tsx:110-115 | the banner appears iff the explanation shows; it reads correct iff the selection equals the key, and otherwise names the key |
| ExplanationPanel.Classify | denki-kakomon/src/components/exam/ExplanationPanel.tsx:25-40 | each line gets the first class matching in the order `## `, `### `, `- `, `$$…$$`, `\|`, paragraph, break; markers are removed, a formula loses every `$`, table rows and paragraphs are verbatim, and a break is exactly an empty line |
| ExplanationPanel.MarkerChars | denki-kakomon/src/components/exam/ExplanationPanel.tsx:25-30 | a `### ` line has `#` as its third character, so the `## ` test cannot take it |
| ExplanationPanel.Render | denki-kakomon/src/components/exam/ExplanationPanel.tsx:24-41 | one block per newline-separated line (newline count plus one), each the classification of its line |
| ExplanationPanel.ClassifyRoundTrip | denki-kakomon/src/components/exam/ExplanationPanel.tsx:25-40 | putting the marker back on any non-formula line's block restores the line |
| ExplanationPanel.FormulaRoundTrip | denki-kakomon/src/components/exam/ExplanationPanel.tsx:34-36 | a `$$body$$` line without other `$` and not caught earlier is a formula with exactly that body |
| ExplanationPanel.RenderRoundTrip | denki-kakomon/src/components/exam/ExplanationPanel.tsx:24-41 | for a text with no formula lines, joining the re-marked blocks gives back the text |
| Sandbox.FirstRedMatch | localcrow/security/sandbox.py:103-105 | the first dangerous pattern, in table order, that matches; none iff no pattern matches |
| Sandbox.FindInjection | localcrow/security/sandbox.py:63-68 | the first position holding `;`, `\|`, a backtick, `&&` or `$(`, or none when no such position exists |
| Sandbox.CheckInjection | localcrow/security/sandbox.py:161-172 | reports injection iff one of the chaining operators occurs |
| Sandbox.AfterLast | localcrow/security/sandbox.py:121 | the part after the last separator: a suffix free of the separator, the whole name when it has none |
| Sandbox.DropExtension | localcrow/security/sandbox.py:123-126 | at most one `.exe`/`.bat`/`.cmd`/`.com` is cut; other names are kept |
| Sandbox.BareName | localcrow/security/sandbox.py:117-126 | the bare executable name contains neither `/` nor `\` |
| Sandbox.BareNameIgnoresDirectory | localcrow/security/sandbox.py:119-121 | a directory prefix does not change the bare name |
| Sandbox.Classify | localcrow/security/sandbox.py:89-158 | blocked iff the command is empty, matches a dangerous pattern, has malformed quoting or no tokens, or names a RED command; safe iff not blocked and the call is a GREEN name or GREEN git/ollama subcommand; confirm otherwise |
| Sandbox.CallTier | localcrow/security/sandbox.py:128-158 | blocked iff the bare name is RED; safe iff it is not RED and the call is read-only (a GREEN name, or git/ollama with a GREEN subcommand); confirm otherwise |
| Sandbox.YellowNeverSafe | localcrow/security/sandbox.py:150-158 | a write command is never classed safe |
| Sandbox.YellowIsNotGreen | localcrow/security/sandbox.py:29-52 | the tier tables do not overlap on write commands |
| Sandbox.UnknownAsksFirst | localcrow/security/sandbox.py:157-158 | a name in no table, once past the blocking checks, asks for confirmation |
| Sandbox.BlockReason | localcrow/security/sandbox.py:216-236 | the reason names the first dangerous pattern, else malformed quoting, else the RED name, else the generic policy |
| Sandbox.Validate | localcrow/security/sandbox.py:174-209 | "Empty command" for blank input; any chaining operator is blocked before classification; otherwise the classification, and a command the classification blocks carries `BlockReason` of the stripped command; the reason is absent iff the command is not blocked |
| Sandbox.ChainingIsBlocked | localcrow/security/sandbox.py:194-200 | any command with `;` in it is blocked with the injection reason, whatever its tier |
| ToolCalls.Walk | localcrow/bot/client.py:353-377 | the walk from a position finds the first brace that brings the depth to 0 outside strings, or none exists |
| ToolCalls.MatchingBrace | localcrow/bot/client.py:353-377 | the balancing brace of a walk is the first index where the depth returns to 0, outside strings; none when the object never balances |
| ToolCalls.FirstSpan | localcrow/bot/client.py:350-377 | the first object starts at the first `{` and ends at its balancing brace; none iff there is no `{` or it never balances |
| ToolCalls.ExtractFirstJson | localcrow/bot/client.py:348-377 | only the first balanced slice is parsed: its parse, or nothing, and no later object is tried |
| ToolCalls.ExtractFirstIgnoresSuffix | localcrow/bot/client.py:348-377 | text after the first balanced object changes neither the span nor the parse |
| ToolCalls.InsideStringInert | localcrow/bot/client.py:357-367 | inside a string, characters other than quote and backslash leave the walk's state unchanged |
| ToolCalls.StringLiteralBraces | localcrow/bot/client.py:357-372 | braces inside a quoted string do not count: `{"…{…"}` balances at its last brace |
| ToolCalls.Normalise | localcrow/bot/client.py:389-405 | a recovered call always has a non-empty command |
| ToolCalls.NormaliseShapes | localcrow/bot/client.py:338-342 | each of the three documented shapes normalises back to the call it encodes |
| ToolCalls.NestedReasonFallsBack | localcrow/bot/client.py:391-394 | a nested call without its own reason takes the outer reason |
| ToolCalls.NonStringNonDictIgnored | localcrow/bot/client.py:399-402 | an `execute_command` that is neither string nor dict is ignored in favour of the top-level fields |
| ToolCalls.TryParseToolCall | localcrow/bot/client.py:379-412 | a recovered call always has a non-empty command |
| ToolCalls.FencedBlockWins | localcrow/bot/client.py:379-382 | when the fenced block holds an object, that object decides the call |
| ToolCalls.FenceFallsBack | localcrow/bot/client.py:383-385 | when the fenced block yields no object the whole text is searched, as if there were no block |
| ToolCalls.Spans | localcrow/bot/client.py:425-456 | the objects the multi-call scan visits are balanced, start with `{`, lie in order and do not overlap |
| ToolCalls.CallOf | localcrow/bot/client.py:458-479 | one object yields at most one call, with a non-empty command |
| ToolCalls.ExtractAll | localcrow/bot/client.py:415-483 | every call returned has a non-empty command |
| ToolCalls.ExtractAllIsCallsOfSpans | localcrow/bot/client.py:423-483 | the calls are exactly those of the visited objects, left to right, so there are at most as many calls as objects |
| ToolCalls.ScanStep | localcrow/bot/client.py:425-481 | one loop round takes the object at the next `{` and resumes after its closing brace |
| ToolCalls.FirstCallAgrees | localcrow/bot/client.py:331-483 | without a fenced block, the single-call parser's result is the first call of the multi-call scan |
| SendSplit.Cut | localcrow/bot/client.py:794-802 | a cut splits the rest without loss into a non-empty chunk of at most 2000. A rest of at most 2000 characters is sent whole. A longer rest is cut at its last newline below index 2000 exactly when such a newline lies beyond index 1500, and that newline then starts the rest; otherwise it is cut at 2000 |
| SendSplit.Split | localcrow/bot/client.py:788-805 | the chunks are those of cutting the text again and again by that rule; they concatenate to the text, there are none for empty text, every chunk has 1..2000 characters, all but the last are longer than 1500, and a chunk after a short one starts with a newline |
| Prompts.SystemPrompt | localcrow/llm/prompts.py:103-119 | the fast prompt iff the mode is "fast"; the planning prompt for "planning" and for every unknown mode |
| Prompts.TableLookup | localcrow/llm/prompts.py:103-106 | the prompt table maps "planning" and "fast" to their prompts and nothing else |
| Prompts.Tools | localcrow/llm/prompts.py:121-130 | the tool list iff the mode is "planning", nothing otherwise |
| Prompts.ToolsOnlyWithPlanning | localcrow/llm/prompts.py:112-130 | tools come only with the planning prompt, never with the fast one |
| Prompts.UnknownModeFallsBack | localcrow/llm/prompts.py:112-130 | an unknown mode gets the planning prompt and no tools |
| Prompts.ToolMatchesParser | localcrow/llm/prompts.py:65-97 | the only tool is `execute_command` and it requires both of its parameters, which are exactly the keys the text parser reads |
| Comparator.Debracket | projects/price_sniper/src/comparator.py:142 | the listed bracket characters become spaces, everything else is kept |
| Comparator.Collapse | projects/price_sniper/src/comparator.py:143 | whitespace runs become single spaces: the result has no two adjacent blanks, starts as the input starts (a blank for leading space, else the same character), and holds no other characters |
| Comparator.WordsCollapse | projects/price_sniper/src/comparator.py:143 | collapsing whitespace keeps the sequence of words |
| Comparator.Normalize | projects/price_sniper/src/comparator.py:135-144 | the normalised name has no brackets, no upper-case ASCII letters and only plain spaces as whitespace |
| Comparator.NormalizeWords | projects/price_sniper/src/comparator.py:140-144 | the normalised name has the words of the lower-cased, de-bracketed name |
| Comparator.Score | projects/price_sniper/src/comparator.py:100-102 | the overlap/union score lies in [0, 1] |
| Comparator.ScoreSymmetric | projects/price_sniper/src/comparator.py:100-102 | the score does not depend on argument order |
| Comparator.ScoreSelf | projects/price_sniper/src/comparator.py:100-102 | a non-empty word set scores 1 against itself |
| Comparator.ScoreDisjoint | projects/price_sniper/src/comparator.py:100-102 | disjoint word sets score 0 |
| Comparator.Scores | projects/price_sniper/src/comparator.py:98-102 | one score per Amazon listing, in order |
| Comparator.BestFrom | projects/price_sniper/src/comparator.py:95-109 | the loop ends at the best eligible listing (score above 0.3, dearer than the source), or at none when none is eligible |
| Comparator.BestMatch | projects/price_sniper/src/comparator.py:84-109 | fewer than two distinct words never match; otherwise the result has the highest eligible score and beats every earlier listing strictly, so ties go to the earliest; none iff no listing is eligible |
| Comparator.BestIsUnique | projects/price_sniper/src/comparator.py:104-107 | the best eligible listing is unique |
| Comparator.Trunc | projects/price_sniper/src/comparator.py:118 | `int()` truncates toward zero |
| Comparator.RoundHalfEven | projects/price_sniper/src/comparator.py:121 | rounds to an integer within one half |
| Comparator.Round2 | projects/price_sniper/src/comparator.py:121 | rounds to two decimals, within 0.005 |
| Comparator.FeeBounds | projects/price_sniper/src/comparator.py:118 | the fee is the rate's share of the price, rounded down to whole yen |
| Comparator.CalculateProfit | projects/price_sniper/src/comparator.py:111-121 | net profit plus fee, purchase and shipping is the Amazon price; the percent is within 0.005 of net/purchase*100, and 0 for a purchase price of at most 0 |
| Comparator.DefaultProfitExample | projects/price_sniper/src/comparator.py:30-40 | with the default settings, buying at 5000 and selling at 10000 nets 3500, 70% |
| Comparator.OpportunityOf | projects/price_sniper/src/comparator.py:59-78 | an opportunity meets both thresholds, is for that source and an Amazon listing, and has a positive gross profit equal to the price difference |
| Comparator.Found | projects/price_sniper/src/comparator.py:57-78 | keeps only the opportunities that exist, in order |
| Comparator.FoundComplete | projects/price_sniper/src/comparator.py:57-78 | every existing opportunity is kept |
| Comparator.Yields | projects/price_sniper/src/comparator.py:59-78 | one outcome per source listing, in order |
| Comparator.Candidates | projects/price_sniper/src/comparator.py:57-78 | every candidate is the opportunity of one of the sources |
| Comparator.Insert | projects/price_sniper/src/comparator.py:80 | inserting keeps the list sorted by descending net profit and is a permutation plus the new element |
| Comparator.SortByNet | projects/price_sniper/src/comparator.py:80 | the result is sorted by descending net profit and is a permutation of the input |
| Comparator.InsertStable | projects/price_sniper/src/comparator.py:80 | the inserted entry lands after every entry of equal net profit |
| Comparator.SortStable | projects/price_sniper/src/comparator.py:80 | the sort is stable: for every net profit, the entries earning it keep their input order |
| Comparator.CompareStable | projects/price_sniper/src/comparator.py:59-82 | opportunities of equal net profit are reported in the order of their source listings |
| Comparator.Compare | projects/price_sniper/src/comparator.py:42-82 | an empty input gives []; otherwise the result holds exactly the opportunities the source listings yield (the same multiset as the candidates), sorted by descending net profit, each the opportunity of its own source listing, meeting both thresholds with a positive gross profit |
| Comparator.AtMostOnePerSource | projects/price_sniper/src/comparator.py:59-78 | an opportunity occurs in the result no more often than its source listing occurs among the sources |
| Comparator.CompareComplete | projects/price_sniper/src/comparator.py:59-80 | every source that yields an opportunity appears in the result |
| BaseSite.Digits | projects/price_sniper/src/sites/base_site.py:119 | keeps only digit characters, all of them digits |
| BaseSite.DigitsAppend | projects/price_sniper/src/sites/base_site.py:119 | digit extraction distributes over concatenation |
| BaseSite.NonDigitIgnored | projects/price_sniper/src/sites/base_site.py:119-120 | inserting a non-digit anywhere does not change the price |
| BaseSite.ParsePriceText | projects/price_sniper/src/sites/base_site.py:114-120 | 0 when the text has no digit; otherwise the number its digits spell in decimal |
| BaseSite.PriceRoundTrip | projects/price_sniper/src/sites/base_site.py:114-120 | a number written in decimal between non-digit text reads back as itself |
| BaseSite.NoDigitsIsZero | projects/price_sniper/src/sites/base_site.py:120 | a text without digits reads as 0 |
| BaseSite.DocumentedExamples | projects/price_sniper/src/sites/base_site.py:116 | '¥1,234' and '1,234円' both read as 1234 |
| BaseSite.SafeGoto | projects/price_sniper/src/sites/base_site.py:99-112 | succeeds iff some attempt below the retry limit succeeds, stopping at the first success; at most the limit attempts are made; a sleep separates attempts and none follows the last |
| BaseSite.Head | projects/price_sniper/src/sites/mercari.py:61 | `items[:max_results]` is the prefix of the given length, or the whole list |
| BaseSite.KeepPriced | projects/price_sniper/src/sites/mercari.py:61-65 | keeps only parsed listings with a positive price |
| BaseSite.PricedListingKept | projects/price_sniper/src/sites/mercari.py:63-65 | every parsed listing with a positive price is kept |
| BaseSite.CollectListings | projects/price_sniper/src/sites/yahoo.py:45-49 | at most `max_results` listings, each with a positive price |
| Mercari.FirstLabel | projects/price_sniper/src/sites/mercari.py:173-176 | the first table label, in declaration order, that occurs in the text, or none when no label occurs |
| Mercari.ParseCondition | projects/price_sniper/src/sites/mercari.py:170-176 | always one of the five conditions; the condition of the first label in table order that occurs in the text, and "unknown" iff no label occurs |
| Mercari.ReadBack | projects/price_sniper/src/sites/mercari.py:173-175 | a label that contains no earlier label reads back as its own condition |
| Mercari.LabelsReadBack | projects/price_sniper/src/sites/mercari.py:13-20 | every label of the table reads back as its own condition |
| Mercari.ItemUrl | projects/price_sniper/src/sites/mercari.py:136-137 | a non-empty link not starting with "http" becomes `BASE_URL` + link; an empty link stays empty and an http link is kept |
| Mercari.ItemUrlIdempotent | projects/price_sniper/src/sites/mercari.py:137 | making a URL absolute twice changes nothing more |
| Yahoo.ParseConditionAsWritten | projects/price_sniper/src/sites/yahoo.py:164-175 | always one of the five conditions, each iff its test is the first in source order to succeed: "new" iff 新品 or 未使用 occurs; "like_new", "good" and "acceptable" iff every earlier test fails and their own (未使用に近い; 目立った傷や汚れなし; 中古 or 傷) succeeds; "unknown" iff none does |
| Yahoo.LikeNewUnreachable | projects/price_sniper/src/sites/yahoo.py:167-170 | the reading as written never gives "like_new" |
| Yahoo.NearlyUnusedReadAsNew | projects/price_sniper/src/sites/yahoo.py:167-170 | 未使用に近い itself is read as "new" |
| Yahoo.ParseCondition | projects/price_sniper/src/sites/yahoo.py:164-175 | corrected reading: "like_new" iff the text holds 未使用に近い; always one of the five conditions |
| Yahoo.CorrectedReading | projects/price_sniper/src/sites/yahoo.py:167-170 | the corrected reading gives like_new for the label and agrees with the written one on every text without 未使用に近い |
| Yahoo.ItemUrl | projects/price_sniper/src/sites/yahoo.py:130-131 | an http link is kept; every other link, the empty one included, becomes `BASE_URL` + link |
| Yahoo.ItemUrlIdempotent | projects/price_sniper/src/sites/yahoo.py:131 | making a URL absolute twice changes nothing more |
| Yahoo.EmptyLinkDiffers | projects/price_sniper/src/sites/yahoo.py:131 | an empty link becomes the site's front page here but stays empty on Mercari |
| Workflow.Matching | projects/ai_manga_factory/src/workflow_modifier.py:37-41 | the positions of exactly the dict nodes with that class, increasing |
| Workflow.FindNodes | projects/ai_manga_factory/src/workflow_modifier.py:32-41 | the ids at the matching positions, in template order |
| Workflow.FoundExactly | projects/ai_manga_factory/src/workflow_modifier.py:37-41 | an id is found iff some node with that id is a dict of that class |
| Workflow.FoundDistinct | projects/ai_manga_factory/src/workflow_modifier.py:37-41 | with unique ids, the found ids are distinct |
| Workflow.FoundIsDict | projects/ai_manga_factory/src/workflow_modifier.py:40 | every found node is a dict |
| Workflow.SetInput | projects/ai_manga_factory/src/workflow_modifier.py:72-80 | a missing or None node is a no-op; any other non-dict node, or non-dict `inputs`, is a TypeError; otherwise `inputs[key]` becomes the value, `inputs` is created when absent, and every other node and input is unchanged |
| Workflow.MissingNodeNoOp | projects/ai_manga_factory/src/workflow_modifier.py:74-77 | setting an input on a missing node changes nothing |
| Workflow.SetPositivePrompt | projects/ai_manga_factory/src/workflow_modifier.py:43-45 | writes the `text` input and nothing else; a TypeError exactly when the node exists, is not None and is not a dict or has non-dict `inputs` |
| Workflow.SetNegativePrompt | projects/ai_manga_factory/src/workflow_modifier.py:47-49 | writes the `text` input and nothing else; a TypeError exactly when the node exists, is not None and is not a dict or has non-dict `inputs` |
| Workflow.ActualSeed | projects/ai_manga_factory/src/workflow_modifier.py:55 | a seed of at least 0 is kept; a negative one becomes the draw, in [0, 2^63-1] |
| Workflow.SetSeed | projects/ai_manga_factory/src/workflow_modifier.py:51-57 | writes the actual seed as the `seed` input and nothing else; a TypeError exactly when the node exists, is not None and is not a dict or has non-dict `inputs` |
| Workflow.SetImageSize | projects/ai_manga_factory/src/workflow_modifier.py:59-62 | writes both `width` and `height` and nothing else; a TypeError exactly when the node exists, is not None and is not a dict or has non-dict `inputs`, and then on the first write |
| Workflow.SetCheckpoint | projects/ai_manga_factory/src/workflow_modifier.py:64-66 | writes `ckpt_name` and nothing else; a TypeError exactly when the node exists, is not None and is not a dict or has non-dict `inputs` |
| Workflow.SetOutputPrefix | projects/ai_manga_factory/src/workflow_modifier.py:68-70 | writes `filename_prefix` and nothing else; a TypeError exactly when the node exists, is not None and is not a dict or has non-dict `inputs` |
| Workflow.SameShapeSameNodes | projects/ai_manga_factory/src/workflow_modifier.py:72-80 | edits never change which nodes a class search finds |
| Workflow.ApplyWrites | projects/ai_manga_factory/src/workflow_modifier.py:72-80 | a sequence of input writes keeps every id, class and dict-ness |
| Workflow.Untouched | projects/ai_manga_factory/src/workflow_modifier.py:72-80 | an input no write addresses keeps its value |
| Workflow.LastWriteWins | projects/ai_manga_factory/src/workflow_modifier.py:72-80 | an input holds the value of the last write that addresses it |
| JobQueue.PageSlots | projects/ai_manga_factory/src/queue_manager.py:74-76 | one slot per panel, numbered from 1 on every page, with the page record's number |
| JobQueue.JobIdInjective | projects/ai_manga_factory/src/queue_manager.py:79 | different counters give different `job_NNNN` ids |
| JobQueue.Expand | projects/ai_manga_factory/src/queue_manager.py:72-89 | one job per panel in chapter/page/panel order, the k-th job numbered k and built from the k-th panel |
| JobQueue.OneJobPerPanel | projects/ai_manga_factory/src/queue_manager.py:72-89 | the number of jobs is the number of panels in the scenario |
| JobQueue.ExpandedIdsDistinct | projects/ai_manga_factory/src/queue_manager.py:77-79 | the expanded jobs have pairwise different ids |
| JobQueue.BarePanelDefaults | projects/ai_manga_factory/src/queue_manager.py:84-88 | a panel without optional fields gives seed -1, no checkpoint, 1024x1024 and status pending |
| JobQueue.Bump | projects/ai_manga_factory/src/queue_manager.py:223 | counting one job raises the total by one |
| JobQueue.GetStatus | projects/ai_manga_factory/src/queue_manager.py:217-224 | each counter is the number of jobs in that status, and the counters sum to the number of jobs |
| JobQueue.CountsSum | projects/ai_manga_factory/src/queue_manager.py:217-224 | the five per-status counts sum to the number of jobs |
| JobQueue.PromptWrites | projects/ai_manga_factory/src/queue_manager.py:137-141 | prompt wiring writes only `text` inputs |
| JobQueue.OtherWrites | projects/ai_manga_factory/src/queue_manager.py:143-153 | seed, size and prefix wiring never write `text` or `ckpt_name` |
| JobQueue.SetJobCheckpoint | projects/ai_manga_factory/src/queue_manager.py:155-159 | checkpoint inputs change only when the job has a checkpoint and a loader exists; the first loader then gets it |
| JobQueue.CheckpointKeepsText | projects/ai_manga_factory/src/queue_manager.py:155-159 | checkpoint wiring never changes a `text` input |
| JobQueue.TwoPrompts | projects/ai_manga_factory/src/queue_manager.py:137-139 | with two or more CLIP nodes the first gets the positive and the second the negative prompt |
| JobQueue.OnePrompt | projects/ai_manga_factory/src/queue_manager.py:140-141 | with one CLIP node it gets the positive prompt |
| JobQueue.NoPrompt | projects/ai_manga_factory/src/queue_manager.py:136-141 | with no CLIP node no `text` input changes |
| JobQueue.WireEffects | projects/ai_manga_factory/src/queue_manager.py:127-159 | wiring a template: the prompts go to the first two CLIP nodes, the checkpoint is set only when the job has one and a loader exists, and nodes outside the wiring keep their prompts |
| Config.LoadData | projects/shared_lib/config_loader.py:38-45 | an empty or false-valued document reads as `{}`, anything else as itself |
| Config.Step | projects/shared_lib/config_loader.py:67-73 | one path segment succeeds only on a dict holding that key with a non-None value |
| Config.Lookup | projects/shared_lib/config_loader.py:65-74 | a successful walk over a non-empty path never yields None |
| Config.LookupStops | projects/shared_lib/config_loader.py:70-73 | once a prefix of the path fails, the whole path fails |
| Config.NonDictStops | projects/shared_lib/config_loader.py:68-71 | a non-dict intermediate fails the lookup |
| Config.Get | projects/shared_lib/config_loader.py:47-74 | an environment variable with the exact key wins; failing that, the upper-cased key; otherwise the dotted path through the data, or the default |
| Config.Require | projects/shared_lib/config_loader.py:76-81 | fails exactly when the key resolves to nothing; otherwise returns the resolved non-None value |
| Config.ResolveNotNull | projects/shared_lib/config_loader.py:72-74 | a resolved value is never None |
| Config.FalsyValueKept | projects/shared_lib/config_loader.py:71-74 | a present value is returned even when it is false to Python, not replaced by the default |
| Config.EnvironmentWins | projects/shared_lib/config_loader.py:57-59 | with the key in the environment, the data does not matter |
| Config.PlainKey | projects/shared_lib/config_loader.py:65 | a key without dots is a one-segment path |
| LlmClient.CleanReply | projects/shared_lib/llm_client.py:74-80 | an unfenced reply is returned stripped |
| LlmClient.ExtractJson | projects/shared_lib/llm_client.py:72-82 | fails exactly when the cleaned reply does not parse, and otherwise returns it |
| LlmClient.FencedRoundTrip | projects/shared_lib/llm_client.py:74-80 | a reply fenced as ```tag … ``` gives back exactly its body, whatever the tag |
| LlmClient.FencedIsStripped | projects/shared_lib/llm_client.py:74-75 | a fenced reply is left whole by stripping and starts with the fence |
| LlmClient.CreateClient | projects/shared_lib/llm_client.py:136-166 | a client is built exactly when the `llm` section (empty when absent) is a dict naming "claude" or "gemini" and that backend's key variable is set and non-empty; it carries that key, and the configured model when it is true to Python, the backend's default otherwise |
| LlmClient.Build | projects/shared_lib/llm_client.py:148-164 | succeeds iff the backend's key variable is set and non-empty; uses the model when it is true to Python, otherwise the default |
| LlmClient.DefaultsToClaude | projects/shared_lib/llm_client.py:144-155 | without an `llm` section Claude is used with its default model, and the call succeeds iff its key is set |
| LlmClient.UnknownBackendRefused | projects/shared_lib/llm_client.py:166 | an unknown backend is refused, keys or no keys |

## Left out

- Browser scraping, HTTP, Discord, Ollama, ComfyUI, file and YAML/JSON reading are I/O and are not modelled. Navigation success, the parsed YAML document and the scraped item records come in as parameters.
- `clone` of the workflow modifier needs no model. Templates are immutable values and every edit returns a new template, so edits to a copy never reach the original.
- `QueueManager.run` and `_process_job` are not modelled beyond the wiring step. Their semaphore concurrency, monitoring, downloads and status transitions are asynchronous I/O.
- The zustand `persist` layer and localStorage are not modelled.
- `progressStore` mutates the shared `emptyProgress` object in place, so `resetProgress` in the running app can hand back a non-empty ledger. The model gives the functional meaning: reset returns the empty ledger.
- Clock readings (`Date.now`, ISO timestamps) are parameters. The random seed draw of `set_seed` is a parameter in [0, 2^63-1].
- `useTimer`'s `setInterval`/`useEffect` scheduling is not modelled: a firing is an explicit step, and the expiry callback is counted.
- Timer.PercentRemaining: the percentage is an exact rational, not a binary float.
- Comparator.CalculateProfit: the percentage is an exact rational rounded half-to-even. It is promised only within 0.005 of the exact value, because Python rounds binary floats.
- Comparator.Fee: the fee rate is an exact rational, so binary-float error in `price * pct / 100` is not modelled.
- Percent.RoundedPercent: `Math.round(c / t * 100)` is computed exactly on integers, with halves rounded up. JavaScript divides in binary floats, so at a half-point that is not representable it can round the other way: 29 of 200 gives 14.499999999999998 and rounds to 14 in JavaScript, while the model gives 15.
- Sandbox.BareName: the executable name is lower-cased in ASCII only. Python's `str.lower` is Unicode-aware and maps, for instance, the Kelvin sign in `tas\u212Akill` to `k`, so Python blocks that name as RED while the model asks for confirmation.
- Text.Lower and Text.Upper map ASCII letters only. Python's `lower`/`upper` also map other scripts, so comparator names and upper-cased configuration keys outside ASCII are not case-mapped.
- BaseSite.Digits: ASCII and full-width digits are the digits. Python's `\d` and `int()` also accept the other Unicode decimal digits.
- Sandbox.FirstRedMatch: the four dangerous regular expressions and `shlex.split` are oracles, so the patterns' own matching is not modelled.
- `CONFIRM_TIMEOUT_SECONDS` and the confirmation flow are I/O and are not modelled.
- ToolCalls.ExtractFirstJson: `json.loads` and the fenced-block regular expression are oracles. A slice that starts with `{` and ends with its balancing `}` parses, if at all, to a dict, so the oracle returns a dict or nothing.
- Json numbers are integers: floats in workflow templates, configuration or tool calls are not modelled.
- ToolCalls.Normalise: `str()` of a list or dict is the `containerRepr` oracle.
- LlmClient.ExtractJson: `json.loads` is the `loads` oracle.
- LlmClient.CreateClient: the Claude and Gemini SDK clients are a record holding backend, key and model.
- JobQueue.Expand: scenario records are typed. A panel without `positive_prompt`/`negative_prompt`, or a page without `page`, would raise `KeyError` in Python and is not modelled.
- JobQueue.GetStatus: status is one of the five values. Python would add a counter for any other status string, which the code never assigns.
- The exam status values `paused` and `not-started` exist in the type but are never produced by `examStore`.
- `ExplanationPanel` is modelled for its per-line classification only. Summary, formula, key points, images and references are plain rendering.
- The remaining JSX of `QuestionCard` (header, images, class names) is presentation. Choice styles are modelled as an enumeration.
- `format_alert` is string formatting for notifications and is not modelled.
- `ArbitrageOpportunity.found_at` is a timestamp parameter.

Behaviour of the code worth noting, which the model follows:

- `submitExam` regrades on every call and does not check whether the session is already completed.
- `answerQuestion` has no status guard.
- The timer fires its expiry callback again when restarted at 0.
- `startExam` accepts an empty question list.
- `resetProgress` reuses the shared initial object, as noted above.

## Findings

| source | as written | input that shows it | evidently intended | confidence | as-written member | corrected member |
|---|---|---|---|---|---|---|
| projects/price_sniper/src/sites/yahoo.py:167-170 | the test for 未使用 comes before the test for 未使用に近い, which contains it, so the like-new branch is dead | the condition text 未使用に近い reads as "new" | 未使用に近い reads as "like_new", like Mercari's table does | high, not executed | Yahoo.LikeNewUnreachable | Yahoo.CorrectedReading |
