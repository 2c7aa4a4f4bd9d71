# koi-shell: verified models of the shell's algorithmic and concurrent kernels

koi-shell is an interactive shell written in Go. Around its I/O sit kernels that have to be right on
every input or in every interleaving. This project models them in Dafny 4.11 and proves what they are
for. `dafny verify dfyconfig.toml` checks everything.

The kernels that change state in place keep that form here: classes with fields, arrays, loops with
invariants. Each such method is proved against a specification function over values, and the laws of
the kernel are lemmas about those functions. The concurrent protocols are state machines over their
critical sections: `Enabled`, `Next`, an invariant kept by every step, and theorems over all runs.

| file | component | main results |
|---|---|---|
| `Terminal.dfy`, `Render.dfy` | `internal/editor/render.go` | the diff renderer shows what a full redraw would, for every sequence of calls |
| `Layout.dfy` | `internal/editor/render.go` | greedy wrapping and the division-based cursor agree exactly when no glyph straddles the right edge |
| `ViPairs.dfy`, `ViWords.dfy`, `ViCounts.dfy`, `ViOperators.dfy` | `internal/editor/vi.go` | pair objects are sound, complete and innermost; word motions are exact; counts multiply; operators take exactly their span, or whole lines |
| `Buffer.dfy`, `KillRing.dfy` | `internal/editor/buffer.go`, `killring.go`, `editor.go` | what each kill takes; a run of kills is undone by one yank; yank-pop cycles |
| `Jobs.dfy`, `JobLog.dfy`, `JobProgress.dfy` | `internal/jobs/table_unix.go` | one waiter for each process, in every interleaving; what Done means; what state and status tell; waiters come to rest |
| `Rpc.dfy` | `internal/acp/acp.go` | responses reach the call they answer, once, in wire order with notifications; requests get the answer they are owed |
| `Pool.dfy` | `internal/builtins/parallel.go` | output does not depend on the schedule; fail-fast's verdict does not either |
| `History.dfy` | `internal/history/history.go` | concurrent sessions lose, duplicate and reorder nothing |
| `Lcs.dfy` | `internal/compat/bashsuite.go` | two swapped rows compute the longest common subsequence |
| `Umask.dfy` | `internal/builtins/umask_unix.go` | the one-pass scanner is the grammar's evaluation |
| `Utf8.dfy`, `ShellQuote.dfy` | `internal/builtins/printf.go` | `%q` output reads back as the same word exactly for NUL-free strings |
| `PrintfReuse.dfy`, `FormatTrees.dfy`, `FormatPasses.dfy` | `internal/builtins/printf.go` | format reuse hands out arguments in windows of one for each star and verb of the format's tree, and each pass writes what the tree does |
| `Dotenv.dfy` | `cmd/koi-dotenv/dotenv.go` | parsing inverts writing, with the exact condition on raw line breaks |
| `Columns.dfy` | `internal/editor/complete.go` | where each candidate stands, and that rows fit |
| `NativeConfig.dfy` | `internal/promptengine/nativeconfig.go`, `config.go` | saving and loading, with the exact condition for a setting |
| `Text.dfy`, `Trimming.dfy`, `Arith.dfy`, `Option.dfy` | Go's `strings` package, division | shared functions and their laws |

## Where the code does less than its intent

Each of these has a failing input and the exact condition, as lemmas.

- `frame` divides the width left of the cursor by the screen width. A double-width glyph that does not
  fit at the end of a row makes it name a cell too early (`Layout.WideGlyphMisplacesCursor`); in front of
  a visible glyph it is right exactly when no glyph up to there straddles the edge
  (`Layout.FrameFindsCursor`), and at the end of a line exactly when none on it does and its last row is
  not full (`Layout.FrameFindsLineEnd`). At the exact right edge of the last line the cursor row is outside
  the frame (`Layout.FullLineCursorOutside`, `Layout.CursorInsideFrame`), and the next draw is off by a row
  exactly when the region does not start on the terminal's first row (`Render.DrawAfterRightEdge`).
- A repeatable kill with a count above one makes a ring entry of each repetition that removes something,
  so one yank gives it all back exactly if the second repetition finds nothing
  (`KillRings.CountedKillUnit`, `KillRings.TwoWordsTwoEntries`). Kills to an end of the line run once
  whatever the count, and one yank always undoes them (`KillRings.LineKillIsUndone`).
- While its line is still open a job can be Done with a process alive, though only if a command joined
  its group while nothing but a child left behind kept the group there
  (`Jobs.DoneIsEarlyWithOutsider`, `Jobs.DoneMeansGone`).
- A delivered answer can be lost when the agent exits right after it: while a call has its answer on the
  channel and still waits, exactly when Serve has returned (`Rpc.AnswerCanLoseToExit`,
  `Rpc.AnswerLostExactlyByExit`).
- A history file that ends in a torn line swallows the entry appended next, exactly when the torn bytes
  are not blank (`History.TornWriteSwallowsNext`, `History.TornTail`).
- `cc` on an empty last line cuts nothing and so does not insert, an empty command included; every other
  `cc` does (`ViOperators.ChangeOfEmptyLine`, `ViOperators.OperatorOverLines`).
- A dotenv value with raw line breaks loses trailing whitespace of its first line and carriage returns
  at the end of later ones (`Dotenv.SpaceBeforeBreakIsLost`, `Dotenv.SeenIsMeant`).
- A candidate after only empty ones on its row starts at column 0 instead of its column's edge
  (`Columns.EmptyCandidateMisplaces`, `Columns.ItemPosition`).
- A setting survives saving and loading exactly when its key is as the store spells it, is free of
  `=` and newlines and does not start with `#`; a scalar must not be under a list's key nor hold a
  newline; a list must be, and its elements must be words that, joined, do not look quoted
  (`NativeConfig.ScalarUnderListKeyIsLost`, `NativeConfig.OneSettingComesBack`,
  `NativeConfig.ListComesBack`).

## Model

| member | source | states |
|---|---|---|
| Render.Session | internal/editor/render.go:126-184 | For any sequence of `render`, `finish`, `clearScreen` and shell output between lines in which no frame with its cursor outside is drawn over, the screen, the cursor and the region's origin are those of a renderer that remembers nothing and redraws everything |
| Render.DrawNeedsHome | internal/editor/render.go:126-165 | Over a region that shows, a draw equals a full redraw if and only if the recorded cursor row leads home to the region's first row |
| Render.DrawAfterRightEdge | internal/editor/render.go:126-165 | After a frame whose cursor was at the exact right edge the next draw is right if and only if the region starts on the terminal's first row |
| Render.Renderer.Draw | internal/editor/render.go:126-165 | One diff draw leaves every row, and the cursor, as erasing from the origin and redrawing would; the recorded cursor row is the real one exactly when it lies inside the frame |
| Render.Renderer.Paint | internal/editor/render.go:129-146 | The loop writes homing and then, for each row, nothing but the way down if it was drawn the same before, and leaves exactly the new rows on the screen |
| Render.PaintReaches | internal/editor/render.go:129-146 | Those commands put the new rows on the screen and touch no other, wherever they home to the region's first row |
| Render.Renderer.Finish | internal/editor/render.go:170-177 | Output after it starts on the first line under the region, and nothing on the screen changes |
| Render.Renderer.ClearScreen | internal/editor/render.go:180-184 | The whole screen is blank and the region starts at the top |
| Render.FrameComplete | internal/editor/render.go:148-151 | With leftovers of a taller frame cleared, the region shows the new frame and everything below it is blank |
| Layout.WrapLine | internal/editor/render.go:82-107 | The loop is greedy wrapping |
| Layout.WrapConcat | internal/editor/render.go:82-107 | The rows, joined, are the line: wrapping drops, repeats and reorders nothing |
| Layout.WrapFits | internal/editor/render.go:82-107 | Every row fits the width unless a single visible token on it is wider than the screen |
| Layout.MakeFrame | internal/editor/render.go:113-122 | The frame's rows are all lines wrapped in order, and its cursor cell the division of the width left of the cursor |
| Layout.DivisionExact | internal/editor/render.go:82-122 | For a token the wrapping loop places, quotient and remainder of the width before it name its row and column if and only if no token up to it straddles a row's end |
| Layout.FrameFindsCursor | internal/editor/render.go:113-122 | The same for the frame of several lines: the cursor cell is where the token at the cursor is printed, if and only if nothing straddles up to there; on one column, if and only if nothing in front is wider than the screen |
| Layout.FrameFindsLineEnd | internal/editor/render.go:113-122 | With the cursor at the end of its line, the cell is the one after its last, if and only if nothing on the line straddles and its last row is not full |
| Layout.ReachExact | internal/editor/render.go:82-107 | The rows of a line reach at least its width, and exactly its width if and only if nothing straddles |
| Layout.ColumnExact | internal/editor/render.go:82-122 | On a screen of one column the division is right if and only if nothing in front is wider than the screen |
| Layout.NarrowNeverStraddles | internal/editor/render.go:82-122 | Lines of single-column tokens meet that condition for every cursor |
| Layout.CursorInsideFrame | internal/editor/render.go:113-122 | The cursor row is inside the frame if and only if the cursor is not at the end of a last line that fills its rows |
| Layout.WideGlyphMisplacesCursor | internal/editor/render.go:113-122 | A concrete line with a double-width glyph on which the division is wrong |
| Layout.FullLineCursorOutside | internal/editor/render.go:113-122 | A concrete full line whose cursor row is below its rows |
| ViPairs.PairSpan | internal/editor/vi.go:553-611 | Succeeds if and only if a pair with balanced interior encloses the cursor, and returns the innermost; for equal delimiters, the first quote pair on the line that ends at or after the cursor |
| ViPairs.ScansMeet | internal/editor/vi.go:574-611 | The leftward and the forward depth scan agree: the closer found belongs to the opener found, encloses the cursor, and no pair is nearer; and if the forward scan finds none there is none |
| ViPairs.InnermostUnique | internal/editor/vi.go:574-611 | At most one pair is innermost |
| ViPairs.QuoteSpan | internal/editor/vi.go:553-573 | Quotes on the line are paired from its start, and the first pair reaching the cursor is chosen |
| ViPairs.SpanDelimits | internal/editor/vi.go:553-611 | An inner span is what stands between the delimiters, the span around it has both |
| ViWords.WordForward | internal/editor/vi.go:851-866 | `w` goes to the least word start after the cursor, or the end |
| ViWords.WordBack | internal/editor/vi.go:869-882 | `b` goes to the greatest word start before the cursor, or 0 |
| ViWords.WordEndForward | internal/editor/vi.go:885-902 | `e` goes to the least word end after the cursor, or the last index |
| ViWords.StartsExactly | internal/editor/vi.go:835-848 | A WORD starts at a non-blank after a blank, a word also where word characters meet others |
| ViWords.EndsExactly | internal/editor/vi.go:835-848 | The same for ends |
| ViCounts.CountsMultiply | internal/editor/vi.go:178-213 | `a op b key`, `op a*b key` and `a*b op key` leave the same text, cursor, register and mode, for every operator, the motions w, b, e in both classes, h, l and $, the doubled operator, and all positive counts |
| ViCounts.DeleteWords | internal/editor/vi.go:303-323 | `d n w` removes and registers exactly the text up to the n-th word start ahead |
| ViCounts.DigitsCount | internal/editor/vi.go:178-183 | Typing the decimal digits of n makes n the pending count |
| ViCounts.ViEditor.DispatchKey | internal/editor/vi.go:142-253 | A press of Escape, a digit, 0, an operator or one of those motions in place is the specification's step on text, cursor, register, mode and pending state |
| ViCounts.ViEditor.Operate | internal/editor/vi.go:470-501 | Delete, change and yank over a span, charwise or linewise, in place |
| ViCounts.HopsExactly | internal/editor/vi.go:255-280 | h goes back and l ahead by a grapheme but never over a line break, and $ is at the next one |
| ViOperators.OperatorOverMotion | internal/editor/vi.go:178-501 | For d, c and y, any count, and the motions w, b, e in both classes, h, l, $ and 0: the register gets exactly the span between the cursor and where the motion leads, ahead or behind (with `cw` taken for `ce`); d and c remove exactly it; the cursor stands at its start; c inserts and y changes neither text nor mode; an empty span does nothing |
| ViOperators.OperatorOverLines | internal/editor/vi.go:457-501 | dd, cc and yy with a count: of the text split into lines, exactly that many from the cursor's on, or all there are, go to the register; dd leaves the lines around them, cc an empty line where a line ending was cut; an empty last line is no span |
| ViOperators.ChangeOfEmptyLine | internal/editor/vi.go:470-475 | A concrete `cc` that stays in normal mode |
| ViOperators.MotionOnlyMoves | internal/editor/vi.go:178-323 | A motion with a count and no operator moves the cursor to its target, on a character, and changes nothing else |
| Buffers.Buffer.DeleteRange | internal/editor/buffer.go:111-123 | Removes and returns exactly the clamped range and moves the cursor with the text |
| Buffers.Buffer.Insert | internal/editor/buffer.go:30-37 | Splices at the cursor and leaves the cursor after it |
| Buffers.Buffer.KillToWhitespace | internal/editor/buffer.go:137-146 | Removes back over spaces, then back over non-spaces |
| KillRings.KillSpanExact | internal/editor/buffer.go:111-185 | Each kill removes the one span that is the rest of the line or its break, the line up to the cursor, the blanks and the non-blanks before it, or the separators and the word before or after it |
| KillRings.KillRunReversible | internal/editor/editor.go:513-523 | After any keys, if the last was a kill, text before the cursor + ring top + text after it is the text at the last push, and one yank restores it |
| KillRings.KillRunYanksBack | internal/editor/editor.go:572-606 | A run of kills that each remove something is one ring entry, undone by one yank |
| KillRings.CountedKillUnit | internal/editor/editor.go:464-480 | A kill under any numeric argument is undone by one yank if and only if it ran once, or its second repetition removed nothing, or it did not run and there is nothing to yank |
| KillRings.LineKillIsUndone | internal/editor/readline2.go:89-120 | The kills to the ends of the line, which no count repeats, are always undone by one yank |
| KillRings.TwoWordsTwoEntries | internal/editor/readline2.go:89-120 | A concrete text of two words, killed backward with a count of 2, that one yank does not restore |
| KillRings.YankPopsCycle | internal/editor/editor.go:597-620 | k yank-pops show the entry k places back, cyclically; a full cycle restores ring and text |
| KillRings.RotatedByIs | internal/editor/killring.go:50-58 | k rotations bring the entry k places back to the top, and n of n change nothing |
| KillRings.KillRing.Coalesce | internal/editor/killring.go:24-38 | The new text joins the top entry, before or after it, or starts the ring |
| KillRings.KillRing.Push | internal/editor/killring.go:12-20 | A non-empty entry is appended, the oldest dropped over the cap |
| KillRings.Editor.PressKey | internal/editor/editor.go:383-480 | A key in place is the specification's step: argument digits are events of their own, and a command runs as often as its argument and the table of repeatable bindings say, with the this/last flags handed over once |
| KillRings.NumberCounts | internal/editor/editor.go:383-480 | A number typed in front of a command is its count, negative behind a minus sign; a minus sign alone counts for minus one, and a second one for nothing |
| KillRings.CharacterTyped | internal/editor/editor.go:464-523 | A character is typed as often as the absolute value of its count, and ends runs of kills and yanks |
| Jobs.OneWaiter | internal/jobs/table_unix.go:234-293 | In every interleaving an unreaped process has its handler or the group reaper, never both, and after EndLine the reaper; live counts the unbooked processes; a closed Done job has none and is not listed; listed are exactly the filed jobs not Done; IDs are never reused |
| Jobs.NextKeepsInv | internal/jobs/table_unix.go:457-568 | Every step of shell, handlers, reaper and kernel keeps the invariant behind that |
| Jobs.ErrorsNeverEnabled | internal/jobs/table_unix.go:460-568 | The error branches of the two wait loops are never reached |
| Jobs.NoReaperError | internal/jobs/table_unix.go:535-568 | A waiting reaper always has a process left to wait for |
| Jobs.NothingLeft | internal/jobs/table_unix.go:234-275 | When a line's handlers are gone and it is not stopped, no process is left |
| Jobs.DoneMeansGone | internal/jobs/table_unix.go:353-438 | In every reachable state, open lines included, a Done job has processes if and only if one joined its group while only a process the shell does not wait for kept it there; without such processes Done means none is left |
| Jobs.DoneIsEarlyWithOutsider | internal/jobs/table_unix.go:508-519 | A concrete run in which an open line's job is Done with one process alive |
| JobLog.BooksAreTold | internal/jobs/table_unix.go:353-568 | After any run a job's state, status and group follow from what was recorded of it: Stopped since a stop, Running since its last resumption, Done since the exit of its last process; the status is the one booked last, and is how that process ended; the group is the first process's |
| JobProgress.NobodyIsStuck | internal/jobs/table_unix.go:457-568 | What a waiter has seen it can book, what there is to report it can be told, and a line whose handlers are gone can end |
| JobProgress.WaitersSettle | internal/jobs/table_unix.go:457-568 | With nothing new from kernel or user no run of the waiters and the line is longer than a measure of what is left to book |
| JobProgress.ReportedOnce | internal/jobs/table_unix.go:460-568 | A stop or an end of a process is reported once |
| JobProgress.ResumeContinues | internal/jobs/table_unix.go:660-686 | Resuming continues every stopped process of the job, and no other |
| JobProgress.IdsAreConsecutive | internal/jobs/table_unix.go:234-275 | Job ids are given out as 1, 2, 3 and so on |
| Jobs.Table.EndLine | internal/jobs/table_unix.go:234-275 | Files a job that is stopped or has processes and is not filed yet, and leaves the table alone otherwise |
| Jobs.Table.RecordDone | internal/jobs/table_unix.go:508-519 | Counts a process down; the last one makes the job Done and delists it in the same step |
| Jobs.Job.EnsureReaper | internal/jobs/table_unix.go:523-533 | Starts a reaper exactly if none runs and processes are left |
| Rpc.RoutingIsExact | internal/acp/acp.go:151-282 | In every interleaving a call's channel gets at most one message: the first response with its id since it registered, delivered after every earlier notification was handled; what Call returns is that message |
| Rpc.DeliverNeverBlocks | internal/acp/acp.go:221-232 | The channel in deliver's hand always has room, cancelled calls included |
| Rpc.NoAnswerIsLost | internal/acp/acp.go:221-282 | While a call waits with nothing delivered or under way, no response for it has been read |
| Rpc.RequestsAreAnswered | internal/acp/acp.go:171-219 | Every request read gets one answer, with its own id: the handler's text, `{}` for none, the handler's own error, -32603 for any other failure, -32601 without a handler; inline, the k-th answer is to the k-th request; otherwise the answers are those, in some order; notifications are handled in wire order |
| Rpc.PendingIsEmptied | internal/acp/acp.go:235-282 | Calls that ended other than by the agent's exit leave nothing pending |
| Rpc.AnswerLostExactlyByExit | internal/acp/acp.go:262-282 | In every run, an answer on the channel of a call that still waits can be lost, without a cancellation or a return of Serve from then on before the call takes it, if and only if Serve has returned |
| Rpc.WaitsOrAnswered | internal/acp/acp.go:262-282 | While Serve runs, a waiting call that is not cancelled waits on or is answered |
| Rpc.AnswerCanLoseToExit | internal/acp/acp.go:262-282 | A run in which a delivered answer and the end of Serve can both be chosen |
| Rpc.NextKeepsInv | internal/acp/acp.go:151-282 | Every step of callers, reader and answering goroutines keeps the invariant behind these |
| Rpc.DecimalIsInjective | internal/acp/acp.go:239-242 | Two calls never have the same id on the wire |
| Rpc.Conn.Deliver | internal/acp/acp.go:221-232 | The pending channel of the message's id, and no other, receives it, and is pending no more |
| Pool.ScheduleDoesNotShow | internal/builtins/parallel.go:172-234 | Without fail-fast or an interrupt every interleaving ends with the maximum status and, with `--collect`, the task outputs in input order on both streams |
| Pool.OutputInOrder | internal/builtins/parallel.go:172-234 | The same of whatever the tasks did, even under fail-fast or an interrupt, and every task is done |
| Pool.FailFastVerdict | internal/builtins/parallel.go:201-213 | With any number of workers the status is 0 if and only if every task's is, and then every task ran |
| Pool.OneWorkerStopsAtOnce | internal/builtins/parallel.go:196-213 | With `-j 1 --fail-fast` the tasks up to the first failure are executed and all later ones report 130 |
| Pool.ClosedOnce | internal/builtins/parallel.go:196-213 | A done channel is closed by the one worker holding its task, never twice |
| Pool.RunsAreBounded | internal/builtins/parallel.go:172-234 | No run takes more steps than a measure of what is left at its start |
| Pool.NoDeadlock | internal/builtins/parallel.go:172-234 | Until runPool returns some step can be taken |
| Pool.WorstIsMaximum | internal/builtins/parallel.go:226-232 | The folded status bounds every status and is one of them |
| Pool.TasksDiffer | internal/builtins/parallel.go:132-145 | Different inputs never become the same command, wherever the template puts them |
| Pool.TaskGetsItsInput | internal/builtins/parallel.go:132-145 | A task's command is the template's tokens in order with every placeholder replaced, and the input behind them if and only if there is no placeholder |
| Pool.TaskArgv | internal/builtins/parallel.go:132-145 | The loop computes the instantiated template |
| History.SessionsAgree | internal/history/history.go:79-212 | From a file of whole lines, in every interleaving of opens, appends, reloads of any length and foreign lines, a session's position is a line boundary; it has others' decodable lines before it in file order, its own of the whole file in file order, and nothing else or twice |
| History.NothingLostOrTwice | internal/history/history.go:140-212 | Every step keeps that invariant for all sessions at once |
| History.ReloadSeesAll | internal/history/history.go:140-163 | After a reload to the end, a session has exactly the entries of the whole file, others' and its own each in file order |
| History.ReloadAppends | internal/history/history.go:140-163 | A reload leaves what was there in front, puts what it read of others behind it in the order of their lines, and then keeps the last 10000 |
| History.NewsAreRecalledFirst | internal/history/history.go:140-163 | After a reload that read something, the most recent command recalled is the last one it read |
| History.ConsumeLines | internal/history/history.go:107-127 | Takes in the decodable entries of the complete lines, but for the skipped session's, and counts the bytes of those lines |
| History.EntriesAppend | internal/history/history.go:107-127 | What follows a line boundary is read on its own |
| History.TornTail | internal/history/history.go:180-212 | After a torn last line an appended entry can be read if and only if the torn bytes are blank; otherwise it is lost and nothing else is |
| History.TornWriteSwallowsNext | internal/history/history.go:180-212 | A concrete torn line after which the next entry is lost |
| History.LawfulCodecExists | internal/history/history.go:107-127 | The laws assumed of the codec can be met |
| History.HistoryStore.Append | internal/history/history.go:180-212 | Which entries are skipped and why; a stored one is one whole line at the end, and moves the position only if nobody wrote in between |
| History.HistoryStore.Reload | internal/history/history.go:140-163 | Advances over the complete lines read, appends other sessions' entries, keeps the newest 10000 |
| History.Scan | internal/history/history.go:340-359 | The n-th most recent distinct matching command, which exists exactly when enough distinct commands match |
| History.NthUnique | internal/history/history.go:340-359 | There is only one n-th |
| History.NthCovers | internal/history/history.go:340-359 | Every matching command is offered, at its most recent position |
| Lcs.Agreement | internal/compat/bashsuite.go:292-316 | The swapped, never cleared rows give the length of a longest common subsequence of the two outputs' lines |
| Lcs.CellIsLongest | internal/compat/bashsuite.go:292-316 | The recurrence's last cell is reached by a common subsequence and exceeded by none |
| Lcs.LongestUnique | internal/compat/bashsuite.go:292-316 | That length is unique |
| Umask.ParseSymbolicUmask | internal/builtins/umask_unix.go:147-243 | The one-pass scanner returns what parsing to a tree and evaluating it would, errors included |
| Umask.SymbolicMode | internal/builtins/umask_unix.go:129-243 | A string is accepted if and only if it is a printed tree, and the mask is the complement of folding the tree's actions, as set operations on permission bits, over the permissions in force |
| Umask.ParsePrint | internal/builtins/umask_unix.go:129-146 | A printed tree parses back to itself |
| Umask.ParsedIsPrinted | internal/builtins/umask_unix.go:129-146 | Whatever parses is the print of its tree |
| Umask.EvalReads | internal/builtins/umask_unix.go:147-243 | The arithmetic on nine bits is the set evaluation |
| Umask.ParseUmask | internal/builtins/umask_unix.go:112-127 | Octal up to 4095 by value, else symbolic, with each error |
| Umask.OctalTextReads | internal/builtins/umask_unix.go:93-127 | A mask listed in octal is read back as the same mask |
| Umask.BitsAreOctal | internal/builtins/umask_unix.go:129-146 | Which permission each bit of a mask takes away |
| Umask.UsualMask | internal/builtins/umask_unix.go:129-243 | `u=rwx,g=rx,o=` is 027 under any mask |
| Umask.SymbolicUmask | internal/builtins/umask_unix.go:260-281 | Lists what remains allowed, as a mode of three clauses |
| Umask.RerunRestores | internal/builtins/umask_unix.go:260-281 | That listing, run again under any mask, restores the mask it lists |
| ShellQuote.QuoteReadsBack | internal/builtins/printf.go:787-855 | A reader of sections 2.2 to 2.3 of POSIX.1-2024 XCU, with its own list of the characters that end or change an unquoted word, reads the quoted string as exactly one word equal to the input, if and only if the input has no NUL |
| ShellQuote.BareExactly | internal/builtins/printf.go:843-846 | The input is left as it is if and only if it is not empty, valid UTF-8 without control characters, and has none of those characters |
| ShellQuote.PrintableIsBackslashed | internal/builtins/printf.go:843-854 | Printable input gets a backslash in front of each of those characters, and no other change |
| ShellQuote.NeedsDollarWhen | internal/builtins/printf.go:796-807 | The dollar form is for input that is not valid UTF-8 or has a control character |
| ShellQuote.Quote | internal/builtins/printf.go:787-855 | The loops compute the quoted form: bare, backslashed or dollar-single-quoted |
| Utf8.EncodeDecode | internal/builtins/printf.go:800-850 | Encoding a decoded rune gives its bytes back |
| Utf8.DecodeEncode | internal/builtins/printf.go:800-850 | An encoded scalar value decodes to itself, whatever follows it |
| PrintfReuse.FormatReuse | internal/builtins/printf.go:57-178 | A pass takes a number k of arguments fixed by the format; pass j gets arguments j*k to (j+1)*k; nothing follows a stopped or failed pass; otherwise there are ceil(n/k) passes, at least one, and one when k is 0 |
| FormatTrees.TreeTakes | internal/builtins/printf.go:107-178 | A format printed from a tree is not malformed, and its k is one for each star of a width, precision or time layout and one for each verb |
| FormatTrees.TreeReads | internal/builtins/printf.go:365-429 | A format that is not malformed is the print of such a tree |
| FormatTrees.MalformedExactly | internal/builtins/printf.go:365-429 | So a format is malformed if and only if it is not the print of one |
| FormatTrees.TreeReuse | internal/builtins/printf.go:57-178 | Over a printed format no pass fails, and each gets its window of as many arguments as the tree wants |
| FormatPasses.PassIsTreePass | internal/builtins/printf.go:107-178 | A pass over a printed format writes what its tree does, in order: each character, escape and percent sign once, each directive with the next arguments, stars first and its value last; it ends early exactly where the argument of a `%b` says `\c`, and otherwise where the tree ends |
| FormatPasses.EscapeIs | internal/builtins/printf.go:693-773 | An escape is two characters and then as many digits as there are and can be |
| FormatPasses.StopperIs | internal/builtins/printf.go:665-681 | The argument of a `%b` ends the output if and only if a `\c` stands behind characters and other escapes |
| PrintfReuse.PassConsumes | internal/builtins/printf.go:107-178 | A finished pass counts k arguments, supplied or not |
| PrintfReuse.BadFormatWritesNothing | internal/builtins/printf.go:57-178 | A format error shows in the first pass, and nothing has been written by then |
| PrintfReuse.OnceIsLocal | internal/builtins/printf.go:107-178 | A pass is the same over any arguments that agree on the k it looks at |
| PrintfReuse.Printf | internal/builtins/printf.go:57-102 | The loop writes what the passes write and fails if one of them does |
| PrintfReuse.PrintfOnce | internal/builtins/printf.go:107-178 | One pass by index loop is the recursive reading of the format |
| PrintfReuse.ElementAt | internal/builtins/printf.go:365-409 | Every element of a format takes at least one byte and stays within it |
| PrintfReuse.ScanSpec | internal/builtins/printf.go:365-409 | Flags, width, precision, modifiers, time format and verb, scanned in order |
| PrintfReuse.EscapeWidth | internal/builtins/printf.go:693-773 | Every escape takes at least one byte and stays within the text |
| Dotenv.ParseInvertsWriting | cmd/koi-dotenv/dotenv.go:80-228 | Of a file of double-quoted bindings, each name gets the value last written for it, whole if and only if that value's raw lines have nothing at their ends to trim |
| Dotenv.ParseWritten | cmd/koi-dotenv/dotenv.go:80-165 | The whole file is read, in order, with or without a byte order mark |
| Dotenv.SeenIsMeant | cmd/koi-dotenv/dotenv.go:134-165 | A value comes back if and only if its first raw line has no trailing whitespace and no later line but the last ends in a carriage return |
| Dotenv.SpaceBeforeBreakIsLost | cmd/koi-dotenv/dotenv.go:134-165 | A concrete two-line value that comes back without the space before its break |
| Dotenv.AnyValueCanBeWritten | cmd/koi-dotenv/dotenv.go:199-228 | With the five escapes every value has a form that comes back |
| Dotenv.UnquotedBinding | cmd/koi-dotenv/dotenv.go:185-195 | An unquoted value is read as it stands, blanks around the equals sign and a trailing comment apart |
| Dotenv.SingleQuotedBinding | cmd/koi-dotenv/dotenv.go:134-165 | A single-quoted value is the text between the quotes, backslashes included, over all its lines but for carriage returns before a break |
| Dotenv.LineReads | cmd/koi-dotenv/dotenv.go:86-96 | Whitespace around a line and an export in front come off |
| Dotenv.NamesExactly | cmd/koi-dotenv/dotenv.go:93-129 | What stands before the equals sign, blanks apart, binds nothing if and only if it is not a name: letters, digits and underscores, no digit first |
| Dotenv.UnclosedQuoteCutsTheFile | cmd/koi-dotenv/dotenv.go:95-104 | If reading stops at line i, that line opens a quote that never closes, and the result is the parse of the lines before i |
| Dotenv.FilesAppend | cmd/koi-dotenv/dotenv.go:80-111 | Where no quote is left open, what follows is parsed on its own |
| Dotenv.ParseText | cmd/koi-dotenv/dotenv.go:80-111 | The line loop computes the specification's parse |
| Dotenv.ParseValue | cmd/koi-dotenv/dotenv.go:134-165 | A value, the line it ends on, and whether its quote closed |
| Dotenv.FindClosingQuote | cmd/koi-dotenv/dotenv.go:169-181 | The first quote that no backslash escapes |
| Dotenv.DecodeEscapes | cmd/koi-dotenv/dotenv.go:199-228 | The loop decodes as the specification does |
| Columns.CandidateRows | internal/editor/complete.go:118-142 | Each row is the padded text of every rows-th item |
| Columns.ItemPosition | internal/editor/complete.go:118-142 | In the grid for any width, item i is cell i / rows of row i % rows, of at most `cols`; it starts at that column's edge if and only if it is in the first column or a character precedes it on its row |
| Columns.EmptyCandidateMisplaces | internal/editor/complete.go:118-142 | Two candidates, the first empty, of which the second starts at column 0 |
| Columns.CellsAre | internal/editor/complete.go:129-141 | Cell q of row r is item r + q * rows, for exactly the q that have one |
| Columns.ColumnsSuffice | internal/editor/complete.go:129-131 | The rows are enough for the columns, one fewer would not be, and no row has more cells than columns |
| Columns.GridIs | internal/editor/complete.go:118-131 | Columns are two wider than the widest item, as many as fit the width but at least one; rows are the fewest that hold the items |
| Columns.RowsFitWidth | internal/editor/complete.go:118-142 | When every item fits the width with two columns to spare, so does every row of the grid for that width |
| Columns.CommonPrefix | internal/editor/complete.go:85-97 | The longest common prefix: common, and every common prefix is a prefix of it |
| NativeConfig.SaveLoad | internal/promptengine/nativeconfig.go:82-196 | If every setting meets the condition, loading what was saved gives the same scalars and lists and nothing unsupported, whatever the key order |
| NativeConfig.OneSettingComesBack | internal/promptengine/nativeconfig.go:82-196 | A setting alone comes back if and only if its key and value meet the condition |
| NativeConfig.ScalarUnderListKeyIsLost | internal/promptengine/nativeconfig.go:105-109 | A concrete scalar under a list's key that does not come back |
| NativeConfig.UnquoteQuote | internal/promptengine/nativeconfig.go:124-153 | Quoting is undone for every value, padded or already looking quoted |
| NativeConfig.ListComesBack | internal/promptengine/nativeconfig.go:105-107 | A joined list splits back into itself if and only if its elements are words and the join does not look quoted |
| NativeConfig.LoadIsTame | internal/promptengine/nativeconfig.go:82-113 | No loaded key holds an equals sign or a newline, and no loaded value a newline |
| NativeConfig.LoadConfigFile | internal/promptengine/nativeconfig.go:82-113 | The line loop fills the store as the specification's fold does, and reports the lines that are no settings |
| NativeConfig.LastLineWins | internal/promptengine/nativeconfig.go:82-113 | In a loaded file a key has what the last line that sets it says: a list if it ends in `_PROMPT_ELEMENTS`, else a scalar |
| NativeConfig.OthersAreReported | internal/promptengine/nativeconfig.go:82-113 | The lines reported are exactly those that are no settings, by number, once each and in order |
| NativeConfig.QuotesComeOff | internal/promptengine/nativeconfig.go:115-132 | Matching quotes and the blanks outside them come off, and nothing between them changes |
| NativeConfig.QuotedOnlyIfNeeded | internal/promptengine/nativeconfig.go:134-153 | A value is written in quotes if and only if it would not come back without them |
| NativeConfig.SaveNativeConfig | internal/promptengine/nativeconfig.go:176-185 | The loop writes the header and one line for each key |
| NativeConfig.Config.Merge | internal/promptengine/config.go:201-215 | What the other layer sets wins, and a key changes kind with it |
| NativeConfig.LayersAssociate | internal/promptengine/config.go:201-215 | Layers may be merged in any grouping, and a key stays one kind |
| NativeConfig.Config.Set | internal/promptengine/config.go:52-56 | Sets the scalar under the normal key and drops a list there |
| NativeConfig.SpellingsAgree | internal/promptengine/config.go:43-49 | Any case, surrounding blanks, and any one of the three prefixes or none spell the same key |
| NativeConfig.SettingIsFound | internal/promptengine/config.go:43-80 | A setting is found under every spelling of its key, and no other has changed |
| NativeConfig.ListIsFound | internal/promptengine/config.go:43-80 | The same for a list |
| NativeConfig.LayeredAt | internal/promptengine/config.go:201-215 | Each key has what the upper layer sets, or else what the lower one does |

## Left out

- Terminal: an unbounded grid of fixed width; no scrolling, resize (`setWidth`), pending wrap or colour state carried between rows. What each control function does is told by cells in `Terminals.CellsAfter`, `CursorAfter` and `ImageAt`, from ECMA-48.
- Graphemes: `nextToken` and the segmentation library are not part of this model; a line is a sequence of tokens with a width each, escapes being of width 0.
- Render.Session: empty frames, and a draw over a frame whose cursor row was outside it, are excluded; `Layout.CursorInsideFrame` says which frames those are and `Render.DrawAfterRightEdge` what such a draw does.
- Layout.DivisionExact: tokens wider than the screen are left to `Layout.ColumnExact`; on a screen of two columns or more no glyph is.
- Layout.CursorInsideFrame: lines with a double-width glyph on a screen of one column are excluded.
- Vi: counts, operators, the motions named above and pair objects only; marks, registers beyond one, paste and history keys are not modelled. Counts are unbounded integers.
- ViCounts.CountsMultiply: finds, `^`, `gg`, G and text objects are not among the motions; G reads only the count typed last, so for it the counts do not multiply.
- ViCounts.ViEditor.DispatchKey: other keys of the layer are not modelled.
- ViCounts.ViEditor.Operate: the kill-ring entry and the undo record are not modelled.
- ViOperators.OperatorOverMotion: where a motion leads is `ViCounts.Target`, of which the word motions are `ViWords`' own; text objects and finds are not among them.
- ViPairs.PairSpan: distinct delimiters require the cursor on a character, as the code indexes the buffer there.
- Editor: movements are given by where they end, counted or not; undo, highlighting, completion hand-over, `yankLastArg`, and vi deletes feeding the kill ring are not modelled.
- Word and space classes come from Unicode tables in the program; here they are parameters of the buffer, and `unicode.IsSpace` is written out where trimming depends on it.
- Jobs: foreground lines only; background pipelines, capture, a spawn that fails after filing, terminal ownership and the race of a second stop with resume are left out.
- Rpc.RequestsAreAnswered: a reply whose write fails counts as an answer; the agent is gone then.
- Rpc: cancellation and write errors can happen at any point; handlers are functions of method and parameters; a request written in part is not modelled, nor is 64-bit wrap-around of the id counter.
- Pool: streaming output (line-prefixed, under a lock) and reading inputs from stdin are left out; a killed task may leave any result.
- History: `json` is a codec whose lines hold no newline, which gives an entry with a command back behind blanks and an error behind anything else; commands that are not valid UTF-8 do not meet that. Seek plus write of a line is one step, and session ids are unique.
- ShellQuote: the reader refuses `\x`, `\c` and octal escapes beyond a byte, none of which the quoting writes.
- Dotenv.LineReads: a line whose name is `export` itself with a blank behind it is excluded, as the code takes that name off.
- PrintfReuse: rendering of conversions and escapes is not modelled, only which arguments they get; numeric complaints, write errors and the call without a format are left out.
- Dotenv: strings are sequences of Unicode characters, so invalid UTF-8 is left out; finding the file and its size limit are I/O.
- NativeConfig.SaveLoad: proved for settings that all meet the condition; the converse is proved for a setting alone, as one setting's line can happen to set another's key.
- NativeConfig: the scanner's 64 KiB limit on a line is not modelled; upper-casing is a function on characters; writing through a temporary file is I/O.
- Columns: the list of at most 60 candidates and its ellipsis are left out.
- Prompt segments, presets, scrubbing rules, benchmarks and the compatibility corpora are data or presentation.
