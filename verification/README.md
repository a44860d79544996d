# LC Seedshotter: the log-tail trigger loop

LC Seedshotter watches the game's `Player.log`. Each time the log gains a
line containing `Players finished generating the new floor`, it takes a
screenshot of the focused window. This project models the part of
`src/app.rs` that decides when to take that screenshot:

- the watch session of `run_seedshotter`. It opens the log and remembers
  its length as the byte offset `pos`. It then handles watcher
  notifications one at a time: it stops on an `Other` event, skips events
  about other files, and skips events that leave the file length equal to
  `pos`. Otherwise it seeks to `pos`, sets `pos` to the file length, and
  fires one capture for each line of the new span that holds the phrase;
- the "should stop" flag behind the Start and Stop buttons, and the
  running status the window shows.

The modules:

- `Bytes`: the byte type, LF and CR, and ASCII encoding of the phrase.
- `Text`: `Lines` splits bytes into lines the way Rust's
  `BufRead::lines` does at src/app.rs:233-234. Each line ends at LF. The
  LF is dropped, and so is a CR just before it. A last segment with no
  LF is still a line. The module also has the inverse, `JoinLines`.
- `Trigger`: substring containment and `Matching`, the lines that fire.
- `Tail`: one read from an offset. `ToEnd` is the program's reader.
  `WholeLines` is the corrected reader from the finding below.
- `Session`: `Open`, `Step` and `Run`. `Run` is a fold of `Step` over
  notifications: the `for res in rx` loop at src/app.rs:212-248.
  `Refresh` is the part of a step that looks at the file
  (src/app.rs:223-244). The module also holds the lemmas about a single
  step and about the fold.
- `Batching`: theorems about a file that only grows.
- `PartialLine`: the counterexample for the finding.
- `Controls`: the Start/Stop flag.

Both readers share one `Step`. Every step lemma taking a `reader` holds
for both of them.

The environment enters as inputs:

- path resolution (`path::absolute`) is a function parameter `absolute`;
- each notification comes with a `FileView`: the bytes the open handle
  sees, plus where a look at the file fails, if it does;
- a capture is an entry appended to the `shots` trace. The entry is the
  line that fired it.

The program's design promises three things the code does not do:
errors while watching are reported and watching goes on, Start refuses
a second session, and the tailer yields complete lines only. Where the
code and that design disagree, the model follows the code:

- Errors while watching: a failing path resolution, length query, seek
  or line read returns the error from `run_seedshotter` (`?`, lines
  219-235), which ends the session. For these I/O failures the model
  ends the session with `Aborted`. A failing capture or save panics the
  thread; this is not modelled (see "## Left out").
- A second session: the code has no guard, so every Start press spawns
  one more session (`Controls.StartWhileRunning`).
- Complete lines: the code also reads an unfinished last line, and then
  moves `pos` past it. See "## Findings".
- A non-`Other` event whose path list is empty makes `paths[0]` panic
  (line 219). The model ends the session with `Aborted(EventWithoutPath)`.
- If the file is truncated and then rewritten to a length below `pos`
  before one notification is handled, `pos` drops to the new length and
  the new lines are never scanned. The design's truncation policy does
  the same (`Session.ProcessedReadsToEnd`).

## Model

| member | source | states |
|---|---|---|
| Session.Open | src/app.rs:175-191 | a session starts only if the capture provider exists, the path resolves, the file opens, its length is known and the watch is set up. Each of these failures is reported; the first two get their own error. A started session watches the resolved absolute path, and its offset is the file's length at start, with no captures |
| Batching.OpenedScannedNothing | src/app.rs:182-183 | at start nothing of the file has been scanned: the scanned region from the initial offset to `pos` is empty |
| Session.Step | src/app.rs:212-248 | a session that has closed or aborted ignores every later notification; a step never changes the watched path and never takes a capture back |
| Session.Refresh | src/app.rs:223-244 | looking at the watched file never changes the watched path and only appends captures. It either keeps the session's status or aborts, and a healthy look never aborts |
| Session.HealthyStep | src/app.rs:212-244 | on a healthy file, a step reads from `pos` exactly when the session is watching, the event names the watched file and the length differs from `pos`. The read sets `pos` to the reader's next offset and appends that read's trigger lines. Any other step keeps `pos` and the captures |
| Session.WatchErrorIgnored | src/app.rs:246 | a watcher error leaves the state unchanged, whatever the file holds |
| Session.OtherCloses | src/app.rs:215-217 | an `Other` event closes a watching session and leaves `pos` and the captures unchanged |
| Session.OtherEndsRun | src/app.rs:212-218 | after an `Other` event, nothing later is processed: the run's result is the state just before that event, marked closed |
| Session.IgnorableRun | src/app.rs:219-225 | any run of watcher errors, events about other files, and events that leave the watched file's length at `pos` leaves the session exactly as it was |
| Session.RunFinished | src/app.rs:212-218 | a loop that has ended stays as it is over any further notifications |
| Session.OtherPathIgnored | src/app.rs:219-221 | an event whose first path resolves to a different absolute path leaves the state unchanged, and the result does not depend on the file's contents (no read) |
| Session.UnresolvedAborts | src/app.rs:219 | an event with no path, or whose path cannot be resolved, ends the session with an error; `pos` and the captures stay as they were |
| Session.UnchangedLengthIgnored | src/app.rs:222-225 | an event on the watched file whose length equals `pos` leaves the state unchanged |
| Session.FaultsAbort | src/app.rs:223-235 | a failing length query, seek, second length query or line read ends the session with that error; only a failing line read has already fired the captures for the lines before it |
| Session.ProcessedReadsToEnd | src/app.rs:227-244 | a processed event sets `pos` to the file length. The captures gained are exactly the trigger lines of the bytes from the old `pos` to end of file, in file order. On truncation below `pos` no line is scanned and `pos` drops to the new length |
| Session.OffsetMonotone | src/app.rs:223-231 | `pos` never decreases and never exceeds the length it was read from. On truncation it becomes the new length, unless the step aborts. A session still watching never has `pos` past the file length |
| Session.RunAppend | src/app.rs:212-248 | the loop over two runs of notifications equals the loop over the first continued over the second |
| Session.RunKeepsShots | src/app.rs:234-243 | over any run, captures are only appended and every capture is of a line containing the phrase |
| Tail.Read | src/app.rs:227-234 | a read never moves the offset past the file length or backwards over readable bytes; past end of file it reads nothing. The program's reader yields the lines from the offset to end of file. The corrected reader yields only complete lines and stops before the unfinished last line |
| Text.LinesAppend | src/app.rs:233-234 | the lines of bytes ending in LF, followed by more bytes, are the lines of each part concatenated |
| Text.LinesOfJoin | src/app.rs:233-234 | reading back lines written each with an LF gives exactly those lines |
| Text.JoinOfLines | src/app.rs:233-234 | bytes ending in LF with no CR are the join of their own lines |
| Text.LinesShape | src/app.rs:233-234 | no line contains LF, and no line is longer than the bytes it came from |
| Trigger.Matching | src/app.rs:234-235 | the lines that fire all contain the phrase, every input line that contains it is among them, and there are no more of them than input lines |
| Trigger.MatchingAppend | src/app.rs:234-243 | splitting a batch of lines in two fires the same captures in the same order |
| Trigger.MatchingCount | src/app.rs:234-243 | the number of captures equals the number of lines that contain the phrase, counted independently |
| Batching.RunScans | src/app.rs:212-248 | over a file that only grows, the captures are exactly the trigger lines between the initial offset and the final `pos`, in file order, each fired once. This needs every look at the file to end on a line boundary, except with the corrected reader |
| Batching.CapturesIndependentOfBatching | src/app.rs:223-243 | two runs over differently batched appends, ending at the same offset of the same file, fire the same captures |
| Batching.RunReachesEnd | src/app.rs:228-231 | when every event names the watched file, the session keeps watching and `pos` ends at the length of the file last seen |
| Batching.AppendedLinesFireOnce | src/app.rs:223-243 | whole lines appended after start, reported in any batches: the captures are exactly the appended lines that contain the phrase, one each, in order |
| Batching.WholeLinesCatchUp | src/app.rs:228-234 | with the corrected reader, `pos` only moves forward, over whole lines, and ends at the start of the unfinished last line of the file last seen: no line feed follows it |
| Batching.WholeLinesAnyBatching | src/app.rs:228-243 | with the corrected reader, appended lines fire one capture per trigger line, however their bytes are split across notifications |
| PartialLine.ToEndMissesSplitLine | src/app.rs:228-243 | the program's reader fires nothing for a line written in two parts that are each shorter than the phrase |
| PartialLine.WholeLinesFiresSplitLine | src/app.rs:228-243 | the corrected reader fires such a line exactly once |
| PartialLine.SplitTriggerLine | src/app.rs:228-243 | on an empty log, first 20 bytes of the trigger line, then the whole line: the file holds one trigger line, the program fires no capture, and the corrected reader fires one |
| Controls.Initial | src/app.rs:37 | the application starts not running, with no session launched |
| Controls.Click | src/app.rs:140-157 | Start makes the status running and launches one session; Stop makes it not running and launches none |
| Controls.StopIdempotent | src/app.rs:152-156 | a second Stop changes nothing, and Stop when not running changes nothing |
| Controls.StartWhileRunning | src/app.rs:140-150 | Start while running launches another session instead of failing |
| Controls.ClicksAppend | src/app.rs:140-157 | button presses fold: pressing `a` then `b` is pressing `a + b` |
| Controls.ClicksStatus | src/app.rs:140-161 | after any presses from start-up, the window shows running exactly when the last press was Start, and one session was launched per Start press |

## Left out

- The egui/eframe window, menus and theme buttons, the file-picker dialogs and `execute` are UI glue and async foreign calls.
- Serde persistence of the application state and `new` are a library-driven I/O boundary.
- Watcher setup is one input (`watchOk`). The `parent().unwrap()` panic for a path with no parent is not modelled.
- Screen capture and PNG saving are represented by the `shots` trace. A failing capture or save panics in the code; this is not modelled.
- Session.Open: the missing-provider panic is modelled as the error `NoCaptureProvider`, not as a panic.
- The waker thread, the condition variable, thread spawning and `Arc`/`Mutex` sharing are concurrency. The model treats the waker's `Other` event as an ordinary input, and the Start/Stop flag is modelled apart from the session it wakes.
- The window shows "running" after Start even when the session fails to start, because the flag is not tied to the session's outcome. The model shows this only in that `Controls` does not depend on `Session.Open`.
- Each file view is atomic within a step: the model leaves out the file growing between the length query and the read.
- A line that is not valid UTF-8 fails the read. The model represents this by the fault `LineFails` rather than decoding UTF-8. For valid UTF-8, byte-substring containment equals string containment.
- The channel closing, when every sender is dropped, is not modelled. A run that uses up its notifications stays `Watching`.
- The printed log messages are not modelled.

## Findings

| source | as written | input that shows it | evidently intended | confidence | as-written member | corrected member |
|---|---|---|---|---|---|---|
| src/app.rs:228-243 | after the seek, every line up to end of file is scanned, including an unfinished last line, and `pos` moves to the file length past it | log empty at start; one look sees the first 20 bytes of the trigger line, the next look sees the whole line with its LF | each trigger line fires one capture, however its bytes are split across writes. The reader should scan complete lines only and keep `pos` at the start of the unfinished line | not executed | PartialLine.ToEndMissesSplitLine | Batching.WholeLinesAnyBatching |
