# cosmicterm screen engine and PTY reader, modelled in Dafny

This project models two parts of cosmicterm, a small GPU terminal emulator
written in Rust.

**The screen engine, `TerminalInner` (src/terminal.rs).** Its state is:

- a list of text lines;
- a cursor (column `cursor_x`, row `cursor_y`);
- an optional viewport size;
- a dirty flag that tells the renderer to redraw.

The `vte` tokenizer turns the shell's output into events, and four callbacks
handle them:

- `print` writes a character at the cursor;
- `execute` handles line feed, carriage return and backspace;
- `csi_dispatch` handles CUP (`H`/`f`), ED (`J`), EL (`K`), DSR (`n`) and
  CUU/CUD/CUF/CUB (`A`–`D`);
- `osc_dispatch` only logs.

Around the callbacks sit:

- `move_cursor`, which clamps the cursor to the buffer;
- `write`, which sends bytes to the shell and turns a lone backspace into DEL;
- `as_text`, which joins the last `rows` lines with newlines;
- `clear_dirty`;
- the size assignment of `Terminal::resize`.

**The PTY reader loop (the thread started by `Session::start_reader` in
src/pty.rs).** It appends each read to a carry-over buffer. When the whole
buffer is well-formed UTF-8 it sends all of it. Otherwise it sends the
longest well-formed prefix, if there is one, and keeps the rest for the next
read. End of file and read errors end the loop.

The model is split into modules:

- `Common`: byte and `u16` types, `Option`, saturating subtraction, `IndexOf`
  and `Flatten`.
- `Utf8`: well-formed UTF-8 following the grammar of section 4 of RFC 3629.
  It also defines the longest well-formed prefix, which is what
  `Utf8Error::valid_up_to` reports.
- `PtyReader`: one loop iteration as a function `ReaderStep` and the whole
  loop over a sequence of reads as `ReaderRun`. The imperative loop
  `ReadLoop`, with its step `CarryOver`, is proved equal to `ReaderRun`.
- `Text`: `join("\n")`, the split at newlines that inverts it, and their
  round trips.
- `Report`: the cursor position report `ESC [ row ; col R` as
  `format!("\x1b[{};{}R", ..)` renders it, and a parser that reads it back.
- `ScreenModel`: the engine's state as a value, and one function per handler.
- `Terminal`: the class `TerminalInner`, with the same fields and one method
  per handler. The methods update the fields step by step, and each method's
  contract equates the new state with the matching `ScreenModel` function of
  the old state. The PTY writer channel is the field `outbox`, to which
  `Write` appends.
- `ScreenProperties`: the properties of the handlers, proved about
  `ScreenModel`.
- `Scenarios`: concrete runs of the model.

A panic inside a handler is an outcome of the model. The handler runs with the
terminal's mutex held, so the panic poisons the mutex and every later
`lock().expect(..)` panics too. `ScreenModel` therefore returns `Poisoned`,
and the class methods return `ok == false`. The only panic the model
represents is `move_cursor` indexing a row when there are no lines
(src/terminal.rs:165). The `.expect(..)` in `write` can panic too, as the
last point below explains; the model does not represent that one.

Several behaviours of the code differ from what a user of an ordinary
terminal, or a reader of ECMA-48, would expect. The model follows the code:

- **A line feed never creates a line.** Only `print` grows the buffer
  (src/terminal.rs:175-177); a line feed only moves the cursor and, once the
  cursor row reaches `MAX_LINES` (1000), drops the front line and keeps the
  cursor on row 999 (src/terminal.rs:212-219). So 1001 line feeds from an
  empty buffer leave no lines at all, with the cursor on row 999
  (`Scenarios.ThousandAndOneLineFeeds`).
- **`MAX_LINES` does not bound the buffer.** Only the line feed handler
  clamps the cursor row. CUP does not (src/terminal.rs:250-257), so a CUP to
  row 5000 followed by a character makes the buffer 5000 lines long
  (`Scenarios.FarCursorGrowsBuffer`).
- **ED mode 0 erases the whole cursor row.** The loop clears every row from
  the cursor row on before the code keeps the first `cursor_x` characters of
  the cursor row (src/terminal.rs:264-270), so that row ends up empty, where
  ECMA-48 keeps the characters before the cursor.
- **DSR with a parameter echoes the parameter.** With a parameter, DSR
  reports the first and second subparameters of the first group instead of
  the cursor (src/terminal.rs:334-339). The usual query `ESC [ 6 n` is
  therefore answered with `ESC [ 6 ; 1 R` (`Scenarios.StatusReportSix`).
  Only a DSR event with no parameter groups, or an empty first group, reports
  the cursor position, one-based. Which byte sequences the `vte` tokenizer
  hands over in that form is decided by the tokenizer, which is not modelled.
- **`as_text` with no size.** Before the first resize, `as_text` returns the
  empty string rather than all lines (src/terminal.rs:118-120).
- **Writes after the writer thread has stopped.** The writer thread ends on a
  failed write or flush (src/pty.rs:154-161), and its receiver goes with it.
  After that, the channel send in `write` fails and its `.expect(..)`
  panics (src/terminal.rs:147).

## Model

| member | source | states |
|---|---|---|
| Utf8.CharLen | src/pty.rs:113 | the length of the well-formed character a byte string starts with: at most 4, equal to the width its lead byte announces, 0 when the string does not start with a complete well-formed character |
| Utf8.Width | src/pty.rs:113 | the length a lead byte announces: 1 exactly for ASCII, 0 exactly for the bytes no character starts with (0x80-0xC1, 0xF5-0xFF), at most 4 |
| Utf8.ValidAppend | src/pty.rs:113-134 | the concatenation of two well-formed strings is well-formed |
| Utf8.ValidUpToIsValid | src/pty.rs:123-127 | the prefix `valid_up_to` measures is well-formed UTF-8 |
| Utf8.ValidUpTo | src/pty.rs:122-123 | `valid_up_to`: at most the buffer length; `ValidUpToIsValid` and `ValidUpToIsLongest` state that it is the length of the longest well-formed prefix |
| Utf8.ValidUpToIsLongest | src/pty.rs:123 | no longer prefix is well-formed |
| Utf8.ValidIffValidUpToAll | src/pty.rs:113-123 | `from_utf8` succeeds (`Valid`, well-formed UTF-8 as section 4 of RFC 3629 defines it) exactly when the longest well-formed prefix is the whole buffer |
| Utf8.ValidCancel | src/pty.rs:134 | removing a well-formed prefix from a well-formed string leaves a well-formed string |
| Utf8.BadLeadHasNoValidPrefix | src/pty.rs:135-137 | a buffer whose first byte cannot start a character has no non-empty well-formed prefix |
| PtyReader.ReaderStep | src/pty.rs:106-144 | one iteration: stops exactly on end of file or a read error (`IsStop`, lines 108 and 141-143); the bytes sent followed by the bytes kept are the old carry-over followed by the bytes read; what is sent is non-empty, well-formed text |
| PtyReader.ReaderStepCases | src/pty.rs:113-137 | a well-formed buffer is sent whole and nothing is kept; otherwise exactly the longest well-formed prefix is sent and the rest kept; with no well-formed prefix nothing is sent and everything is kept |
| PtyReader.ReaderRun | src/pty.rs:106-145 | the loop over a sequence of reads consumes at most all of them |
| PtyReader.ReaderRunStops | src/pty.rs:106-108 | the loop ends at an end of file or a read error, or when the reads run out |
| PtyReader.ReaderRunUsesData | src/pty.rs:107-110 | every read the loop consumed before stopping delivered data |
| PtyReader.ReaderRunConserves | src/pty.rs:110-134 | across any number of reads, the chunks sent followed by the carry-over are exactly the bytes read: none lost or duplicated |
| PtyReader.ReaderRunChunksValid | src/pty.rs:113-130 | every chunk sent is non-empty, well-formed UTF-8, so the lossy conversion never replaces anything |
| PtyReader.ReaderRunChunkValid | src/pty.rs:126-128 | the same, for the chunk at any index |
| PtyReader.ValidStreamDrains | src/pty.rs:110-120 | a well-formed stream, however it is cut into reads, is delivered completely: nothing is left over and the chunks spell out the stream |
| PtyReader.BadLeadNeverDrains | src/pty.rs:135-137 | a carry-over that starts with a byte no character can start with is never drained: nothing more is sent and every new byte piles up behind it |
| PtyReader.CarryOver | src/pty.rs:110-137 | the imperative iteration (extend, test the whole buffer, else split at `valid_up_to`) computes `ReaderStep` |
| PtyReader.ReadLoop | src/pty.rs:103-145 | the imperative loop, starting from an empty carry-over, computes `ReaderRun` |
| Text.SplitJoin | src/terminal.rs:121-124 | splitting joined lines at newlines gives the lines back when none contains a newline |
| Text.JoinSplit | src/terminal.rs:124 | joining the pieces of a split gives the text back |
| Text.SplitNoNewlines | src/terminal.rs:124 | no piece of a split contains a newline |
| Text.Join | src/terminal.rs:124 | no lines join to the empty string; the first line begins the text, followed by a newline when more lines follow |
| Report.Decimal | src/terminal.rs:332 | `{}` of an unsigned number: a non-empty string of decimal digits with no leading zero |
| Report.CursorReport | src/terminal.rs:332 | the report is at least six bytes, begins with `ESC [` and ends with `R` |
| Report.DecimalRoundTrip | src/terminal.rs:332 | the digits denote the number |
| Report.ReportRoundTrip | src/terminal.rs:332-338 | a cursor position report reads back as the position it reports, so distinct positions give distinct reports |
| ScreenModel.PutChar | src/terminal.rs:179-203 | the row after `print`: `c` at column `x`; characters before it kept, with the gap from the old end padded with spaces; characters after it kept; length `max(len, x+1)` |
| Common.SatSub | src/terminal.rs:255-256 | `saturating_sub`: `a - b` when `a >= b`, otherwise 0 |
| ScreenModel.Take | src/terminal.rs:269 | the first `min(n, len)` characters of a row, as `chars().take(n)` |
| ScreenModel.Skip | src/terminal.rs:279 | all but the first `n` characters of a row, as `chars().skip(n)` |
| ScreenModel.DropFront | src/terminal.rs:216 | `lines.pop_front()`: the last `len - 1` lines, in order, and no lines from an empty buffer |
| ScreenModel.PrintChar | src/terminal.rs:173-207 | the buffer grows to `max(len, cursor_y+1)` lines; the cursor row is `PutChar` of the old row; every other row is unchanged (new rows empty); `cursor_x` goes up by 1; dirty is set |
| ScreenModel.Initial | src/terminal.rs:95-105 | a fresh engine shows no text, needs no redraw and has sent nothing |
| ScreenModel.Apply | src/terminal.rs:172-384 | an event reaches its callback, and the callback panics exactly when it is a cursor move (CUU, CUD, CUF, CUB) on a buffer with no lines |
| ScreenModel.CsiDispatch | src/terminal.rs:242-384 | dispatches on the final character and sets the dirty flag, panicking exactly when a cursor move (A-D) meets a buffer with no lines; the routing is stated by `ScreenProperties.CsiDispatchRoutes`, `ReportEnqueued` and `CursorMoveBounds` |
| ScreenModel.Run | src/terminal.rs:107-111 | handles the events in order and stops at the first panic; stated by `ScreenProperties.RunConcat`, `RunWithoutMovesRuns` and `Terminal.TerminalInner.Feed` |
| ScreenModel.Resize | src/terminal.rs:43 | the size becomes `(cols, rows)` and nothing else changes |
| ScreenModel.ClearDirty | src/terminal.rs:131-133 | the dirty flag is cleared and nothing else changes |
| ScreenModel.Visible | src/terminal.rs:115-123 | the lines `as_text` shows: the last `min(len, rows)` lines, in order, where `rows` is the viewport height or 0 with no size (`Rows`) |
| ScreenModel.AsText | src/terminal.rs:113-125 | empty with no size or no lines; otherwise it starts with the first visible line |
| ScreenModel.ExecuteByte | src/terminal.rs:209-232 | line feed: column 0, next row; on reaching MAX_LINES the front line is dropped (nothing on an empty buffer) and the row becomes 999. Carriage return: column 0. Backspace: column down by one, saturating at 0. Other bytes: only the dirty flag |
| ScreenModel.Write | src/terminal.rs:135-148 | nothing is sent for empty data, DEL for a lone backspace, other data verbatim |
| ScreenModel.MoveCursor | src/terminal.rs:150-169 | panics exactly when there are no lines; otherwise the row is `min(y, len-1)` and the column `min(x, chars in that row)`, and nothing else changes |
| ScreenModel.FirstSub | src/terminal.rs:252-253 | the first subparameter of group `i`, or the default when the group is absent or empty |
| ScreenModel.Count | src/terminal.rs:344-347 | the repeat count of the cursor moves: the first parameter, or 1 when it is absent or 0 |
| ScreenModel.CursorPosition | src/terminal.rs:250-257 | CUP: row = first parameter − 1 and column = second parameter − 1, both defaulting to 1 and saturating at 0; the lines are not touched and the cursor is not clamped |
| ScreenModel.EraseBelow | src/terminal.rs:262-271 | ED 0: rows before the cursor row are kept, the buffer is cut to `cursor_y+1` rows, and the cursor row, if any, is left empty |
| ScreenModel.EraseAbove | src/terminal.rs:273-281 | ED 1: the number of rows is kept, every row before the cursor row is empty, the cursor row loses its first `cursor_x` characters, and later rows are kept |
| ScreenModel.EraseDisplay | src/terminal.rs:258-289 | ED: mode 0 is `EraseBelow`; mode 1 is `EraseAbove`; modes 2 and 3 leave no lines and the cursor at (0,0); other modes change nothing |
| ScreenModel.ErasedRow | src/terminal.rs:293-324 | EL's effect on the cursor row: mode 0 keeps its first `cursor_x` characters, mode 1 drops them, mode 2 empties it, other modes leave it |
| ScreenModel.EraseLine | src/terminal.rs:291-325 | EL changes only the cursor row, and only when it exists; neither cursor field changes |
| ScreenModel.ReportedPosition | src/terminal.rs:327-341 | DSR reports the cursor, one-based, when there are no parameters or the first group is empty; otherwise subparameters 0 and 1 of the first group, the second defaulting to 1 |
| ScreenProperties.LineFeedEviction | src/terminal.rs:212-219 | `n` line feeds never add lines: they evict the oldest lines first, in order, one per line feed that finds the cursor on row 999 or below; the cursor ends at column 0 on row `min(cursor_y+n, 999)` |
| ScreenProperties.CsiDispatchRoutes | src/terminal.rs:242-384 | CUP takes its position from the first two groups; ED and EL take their mode from the first subparameter of the first group, default 0; any final character other than H, f, J, K, n, A-D changes nothing but the dirty flag |
| ScreenProperties.RunConcat | src/terminal.rs:107-111 | handling two batches of events one after the other is handling their concatenation; after a panic nothing more happens |
| ScreenProperties.RunWithoutMovesRuns | src/terminal.rs:150-169 | a sequence of events with no cursor move never panics |
| ScreenProperties.EvictedStep | src/terminal.rs:215-218 | the first line feed evicts a line exactly when the cursor is already on row 999 or below |
| ScreenProperties.EventMarksDirty | src/terminal.rs:206 | `print`, `execute` and `csi_dispatch` set the dirty flag (lines 206, 231 and 383); `osc_dispatch` changes nothing |
| ScreenProperties.DirtyStaysSet | src/terminal.rs:131-133 | no sequence of events clears the dirty flag; only `clear_dirty` does |
| ScreenProperties.ClearDirtyOnlyClears | src/terminal.rs:131-133 | `clear_dirty` clears the flag and changes nothing else |
| ScreenProperties.OnlyPrintGrows | src/terminal.rs:175-177 | no event other than `print` adds lines |
| ScreenProperties.CursorMoveBounds | src/terminal.rs:343-377 | CUU/CUD/CUF/CUB panic exactly on an empty buffer; otherwise the lines are untouched, the cursor moves by `max(1, p)` (saturating) in its direction and is then clamped onto an existing row, at most one past its last character |
| ScreenProperties.CursorPositionUnclamped | src/terminal.rs:250-257 | CUP with explicit row and column puts the cursor there, one-based, even outside the buffer |
| ScreenProperties.ReportEnqueued | src/terminal.rs:327-341 | DSR appends exactly one report of `ReportedPosition` to what was sent; the report reads back as that position; lines and cursor are untouched |
| ScreenProperties.ApplyAppends | src/terminal.rs:135-148 | one event only appends to what was sent, and everything sent stays non-empty and never a lone backspace |
| ScreenProperties.OutboxAppendOnly | src/terminal.rs:135-148 | the same over any sequence of events |
| ScreenProperties.WriteForwards | src/terminal.rs:139-147 | `write` keeps what was sent well-formed and forwards non-empty data, with a lone backspace turned into DEL |
| ScreenProperties.EraseDisplayIdempotent | src/terminal.rs:258-289 | ED in modes 0, 2 and 3 has nothing left to erase the second time |
| ScreenProperties.EraseLineIdempotent | src/terminal.rs:291-325 | EL in modes 0 and 2 has nothing left to erase the second time |
| ScreenProperties.AsTextSplits | src/terminal.rs:113-125 | splitting `as_text` at newlines gives back exactly the visible lines when at least one is visible and no line holds a newline |
| ScreenProperties.ResizeIdempotent | src/terminal.rs:43 | setting the same size twice equals setting it once, so `as_text` is the same; only the size changes |
| ScreenProperties.ApplyKeepsNoNewlines | src/terminal.rs:173-232 | no handler puts a newline into a line unless a newline character is printed |
| ScreenProperties.RunKeepsNoNewlines | src/terminal.rs:107-111 | the same over any sequence of events that prints no newline |
| Terminal.TerminalInner.constructor | src/terminal.rs:95-105 | a new engine has no lines, the cursor at (0,0), no size, a clean dirty flag and nothing sent |
| Terminal.TerminalInner.IsDirty | src/terminal.rs:127-129 | reports the dirty flag |
| Terminal.TerminalInner.ClearDirty | src/terminal.rs:131-133 | the new state is `ScreenModel.ClearDirty` of the old one |
| Terminal.TerminalInner.Resize | src/terminal.rs:40-45 | the new state is the old one with the size set |
| Terminal.TerminalInner.Write | src/terminal.rs:135-148 | the new state is `ScreenModel.Write` of the old one |
| Terminal.TerminalInner.MoveCursor | src/terminal.rs:150-169 | succeeds exactly when `ScreenModel.MoveCursor` does and then reaches its state; on the panic the cursor fields hold `x` and 0 |
| Terminal.TerminalInner.Print | src/terminal.rs:173-207 | resizing the buffer, padding the row and pushing or replacing the character in place gives `ScreenModel.PrintChar` of the old state |
| Terminal.TerminalInner.Execute | src/terminal.rs:209-232 | the field updates give `ScreenModel.ExecuteByte` of the old state |
| Terminal.TerminalInner.OscDispatch | src/terminal.rs:234-240 | the state is unchanged |
| Terminal.ClearFrom | src/terminal.rs:264-266 | clears every row from `y` on and keeps the others |
| Terminal.ClearBefore | src/terminal.rs:275-277 | clears every row before `y` and keeps the others |
| Terminal.TerminalInner.EraseInDisplay | src/terminal.rs:258-289 | the clearing loops, truncation and prefix give `ScreenModel.EraseDisplay` of the old state |
| Terminal.TerminalInner.EraseInLine | src/terminal.rs:291-325 | gives `ScreenModel.EraseLine` of the old state |
| Terminal.TerminalInner.CsiDispatch | src/terminal.rs:242-384 | succeeds exactly when `ScreenModel.CsiDispatch` does, and then reaches its state |
| Terminal.TerminalInner.Dispatch | src/terminal.rs:172-384 | one event handed to its callback reaches `ScreenModel.Apply` of the old state, or panics exactly when that does |
| Terminal.TerminalInner.Feed | src/terminal.rs:107-111 | handling the events in order reaches `ScreenModel.Run` of the old state, or stops at the first panic exactly when that does |
| Scenarios.HelloCrLf | src/terminal.rs:173-232 | "Hello\r\n" on a fresh engine gives the single line "Hello" and the cursor at column 0, row 1 |
| Scenarios.EraseEntireScreen | src/terminal.rs:283-288 | `ESC [ 2 J` leaves no lines and the cursor at (0,0) |
| Scenarios.CursorPositionFiveTen | src/terminal.rs:250-257 | `ESC [ 5 ; 10 H` puts the cursor on row 4, column 9 |
| Scenarios.OverwriteInPlace | src/terminal.rs:188-205 | `ESC [ 1 ; 2 H` then 'X' turns "abc" into "aXc" with the cursor at column 2 |
| Scenarios.ThousandAndOneLineFeeds | src/terminal.rs:212-219 | 1001 line feeds on a fresh engine leave no lines and the cursor on row 999 |
| Scenarios.FarCursorGrowsBuffer | src/terminal.rs:175-177 | CUP to row 5000 and one character make the buffer 5000 lines long |
| Scenarios.CursorUpOnEmptyBuffer | src/terminal.rs:162-166 | a CUU event with no parameter groups on an empty buffer panics |
| Scenarios.NoSizeNoText | src/terminal.rs:118-120 | without a size `as_text` is empty whatever the lines |
| Scenarios.ReportAfterHello | src/terminal.rs:330-333 | a DSR event with no parameter groups, with the cursor at (0,1), sends `ESC [ 2 ; 1 R` |
| Scenarios.StatusReportSix | src/terminal.rs:334-339 | `ESC [ 6 n` sends `ESC [ 6 ; 1 R` whatever the cursor |
| Scenarios.SplitCharacter | src/pty.rs:110-137 | a character split across two reads at any point is sent as the same single chunk as when it arrives in one read |

## Left out

- `TerminalInner` keeps the empty default bodies of the other `vte::Perform` callbacks (`esc_dispatch`, `hook`, `put`, `unhook`). They change nothing, not even the dirty flag, so they are not events of the model.
- The `vte` tokenizer (`Parser::advance`, src/terminal.rs:107-111) is a foreign crate. `Feed` takes the events it would produce. The CSI `intermediates` and `ignore` arguments are left out, because `csi_dispatch` never reads them.
- Threads, mutexes and channels are not modelled. This covers the `Terminal` lock wrappers and `start_feeding` (src/terminal.rs:17-74) and the reader and writer threads (src/pty.rs:100-164). The PTY writer channel is the append-only field `outbox`. `start_feeding` hands each chunk the reader sends to `feed_bytes` (src/terminal.rs:71), whose `vte` parser turns the bytes into events; since that parser is not modelled, the model does not connect the reader's chunks to the events `Feed` handles.
- `start_feeding` skips empty outputs (src/terminal.rs:65-67). There is nothing to skip, because the reader never sends an empty chunk (`PtyReader.ReaderStep`).
- The reader loop also ends when the channel's receiver is gone (src/pty.rs:117-119, 130-132). The model has no receiver, so every send succeeds.
- The read buffer is fixed at 4096 bytes (src/pty.rs:104). The model lets a read deliver any number of bytes, which includes every read the buffer allows.
- PTY and process setup (`PtySession::spawn`, `get_shell`, `openpty`, `DEFAULT_ENV`) are operating system calls. So is the `pty.resize` call in `Terminal::resize` (src/terminal.rs:44): only the size assignment is modelled.
- The writer thread's I/O (`write_all`, `flush`) is not modelled. Neither is the panic of `write`'s `.expect(..)` once that thread has stopped (src/terminal.rs:147). `Write` always appends to `outbox`.
- `Terminal::cursor` (src/terminal.rs:47-50) only reads the two cursor fields, which `Model()` exposes.
- Logging (`tracing::debug!`, `eprintln!`) is left out. That includes the OSC payload, which `osc_dispatch` only logs.
- `usize` arithmetic is modelled with unbounded naturals. The wrap-around of `cursor_x += 1` and `cursor_y + 1` at 2^64 cannot be reached with realistic input, and `saturating_add` never saturates below that bound.
- What happens after a panic is not modelled: the model stops at `Poisoned`. It does not describe how other threads react to the poisoned mutex.
- src/application.rs, src/window.rs and src/main.rs (windowing, rendering and key mapping) are not part of this model.
