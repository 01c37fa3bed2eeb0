# explode: a Dafny model of the terminal-trace printer

`explode` reads a ttyrec recording and prints one line per terminal event. The
bytes of each frame go through the `vte` parser. The parser calls back into a
`Printer`, which keeps the printable characters seen since the last line it
printed. Every dispatching callback (all but `print`, `put` and `unhook`)
first prints the pending run, if there is one, as one `TEXT "<run>"` line,
then prints its own line; `put` and `unhook` print nothing:

- `CTRL X`, where `X` is the control byte plus 0x40;
- `ESC [i] f`;
- `CSI [i] <params> c`;
- `OSC "p1" ; "p2"`;
- `DCS [i] <params>`.

Here `[i]` is the first intermediate byte and a space, when there is one. The
driver prints `FRAME n` before each frame, numbered from 1, with an empty line
before every header except the first.

This project models the printer and the driver loop over the callbacks.

- `events.dfy` (`Events`) holds one `Event` value per `vte::Perform` call. A
  frame is a list of events.
- `trace_line.dfy` (`TraceLines`) holds the printed lines as a datatype and
  `Format`, the text each `println!` produces for them.
- `ParseLine` in the same module reads that text back. It is used to prove
  that no two distinct readable lines print the same text. A line is readable
  when no OSC parameter in it contains `"`; OSC parameters holding `"` can
  collide.
- `decimal.dfy` (`Decimal`) holds the decimal rendering of `i64::to_string`
  and of the frame counter.
- `join.dfy` (`Joining`) holds `[String]::join` and the splitting that undoes
  it.
- `printer.dfy` (`Printer`) holds the printer state, the pending run plus the
  lines printed so far. Each callback is one `Step`; `Run` folds `Step` over a
  list of callbacks.
- `driver.dfy` (`Driver`) holds the frame loop of `main`. `Explode` and
  `Output` are the functional description of it. `ExplodeTrace` is the loop
  written as `main` writes it.
- `scenarios.dfy` (`Scenarios`) holds concrete recordings and the exact lines
  printed for them.

Nothing flushes the printer at a frame boundary or at the end of input. A
trailing run of text is never printed, and text pending at the end of a frame
is printed after the next frame's header. `Driver.ExplodeNextFrame` states that
each frame is fed to the printer exactly as the earlier frames left it.
`Driver.ExplodeConserves` states that every `TEXT` line is directly followed by
the dispatch line that flushed it. The scenarios `TrailingTextStaysPending` and
`TextCrossesFrames` show both on concrete input. `explode` prints the trace and
writes nothing else.

## Model

| member | source | states |
|---|---|---|
| `Printer.Append` | src/bin/explode.rs:9-11 | `print` puts its character at the end of the pending run and prints no line |
| `Printer.Flush` | src/bin/explode.rs:13-18 | after a flush nothing is pending; an empty run prints nothing; a non-empty run is printed as one `TEXT` line holding exactly that run, after the lines already printed |
| `Printer.DispatchLine` | src/bin/explode.rs:26-82 | each dispatching callback prints its own kind of line: `execute` a `CTRL` line showing the byte plus 0x40, `esc_dispatch` an `ESC` line with its first intermediate and its final byte, `csi_dispatch` a `CSI` line with its first intermediate, all its parameters in order and its action, `osc_dispatch` an `OSC` line with all its parameters, `hook` a `DCS` line with its first intermediate and all its parameters |
| `Events.FirstIntermediate` | src/bin/explode.rs:39-46 | the intermediate column shows the first intermediate byte, and is absent exactly when there are no intermediates |
| `Printer.RunPrintsOnly` | src/bin/explode.rs:9-11 | a run of `print` callbacks adds exactly their characters, in order, to the end of the pending run and prints no line |
| `Printer.FlushKeeps` | src/bin/explode.rs:13-18 | flushing loses and invents no character: printed text plus pending text is unchanged; it never prints an empty `TEXT` line and never a dispatch line |
| `Printer.Step` | src/bin/explode.rs:22-29 | `print` extends the pending run by its character; `put` and `unhook` change nothing; every dispatching callback leaves the run empty |
| `Printer.StepEmits` | src/bin/explode.rs:26-82 | a callback only appends lines; a dispatching callback appends its own line, preceded only by at most one non-empty `TEXT` line; printing and no-op callbacks append nothing |
| `Printer.StepConserves` | src/bin/explode.rs:22-24 | after any callback, printed text plus pending text has grown by exactly the printed character, or not at all |
| `Printer.RunConserves` | src/bin/explode.rs:9-24 | over any list of callbacks, the `TEXT` lines plus the pending run hold exactly the characters of the `print` calls, in order |
| `Printer.RunDispatchOrder` | src/bin/explode.rs:26-82 | the dispatch lines appear one per dispatching callback, in callback order |
| `Printer.RunKeepsTextInvariants` | src/bin/explode.rs:13-18 | no `TEXT` line is ever empty, and every `TEXT` line is directly followed by the line of the callback that flushed it |
| `TraceLines.CtrlLetter` | src/bin/explode.rs:26-29 | the letter shown by `execute` has code `b + 0x40`; defined for `b <= 0xBF`, where the `u8` addition cannot overflow |
| `Scenarios.ControlLetters` | src/bin/explode.rs:28 | 0x07 prints as `G`, 0x1B as `[` and 0x0A as `J` |
| `Printer.EscFirstIntermediateOnly` | src/bin/explode.rs:31-47 | two ESC dispatches with the same final byte print the same line exactly when their first intermediates agree; the parameters, later intermediates and the ignore flag never show |
| `Printer.CsiFirstIntermediateOnly` | src/bin/explode.rs:49-65 | two CSI dispatches with the same parameters and action print the same line exactly when their first intermediates agree |
| `Printer.DcsFirstIntermediateOnly` | src/bin/explode.rs:72-82 | two `hook` calls with the same parameters print the same line exactly when their first intermediates agree |
| `Decimal.IntToString` | src/bin/explode.rs:90 | a parameter renders as decimal digits, with a leading `-` exactly for negative values and no leading zero: zero is exactly `0`, and a `-` is never followed by `0`; `Decimal.IntRoundTrip` reads it back |
| `Joining.Join` | src/bin/explode.rs:92 | joining no pieces gives the empty string, and a join starts with its first piece; `Joining.SplitJoin` undoes it |
| `TraceLines.ParamStr` | src/bin/explode.rs:87-93 | the parameter string is empty exactly when there are no parameters, and otherwise starts with a digit or a minus sign |
| `TraceLines.ParamStrRoundTrip` | src/bin/explode.rs:87-93 | the parameters can be read back from their string, all of them and in their order |
| `TraceLines.ParamStrSeparators` | src/bin/explode.rs:92 | `n` parameters are joined with exactly `n - 1` separators |
| `Decimal.IntRoundTrip` | src/bin/explode.rs:90 | reading back the decimal rendering of any integer gives that integer |
| `Decimal.NatToString` | src/bin/explode.rs:127 | a frame number renders as decimal digits with no leading zero: zero is exactly `0`; `Decimal.NatRoundTrip` reads it back |
| `Decimal.IntToStringInjective` | src/bin/explode.rs:90 | distinct parameters render differently |
| `Joining.SplitJoin` | src/bin/explode.rs:92 | splitting a join at its separator gives back the pieces, when no piece contains the separator's first character |
| `Scenarios.BareCsi` | src/bin/explode.rs:59 | a CSI dispatch with no parameters and no intermediate prints `CSI  c`, with two spaces |
| `TraceLines.OscParamStr` | src/bin/explode.rs:95-101 | the OSC string is empty exactly when there are no parameters, and otherwise opens with a double quote |
| `TraceLines.QuotedJoin` | src/bin/explode.rs:95-101 | the OSC string is a quote, the parameters joined by `" ; "` including the inner quotes, and a closing quote |
| `TraceLines.OscParamStrRoundTrip` | src/bin/explode.rs:95-101 | the OSC parameters can be read back from their string, in order, when none contains a double quote |
| `TraceLines.OscParamStrAmbiguous` | src/bin/explode.rs:98 | quotes inside a parameter are not escaped, so one parameter `a" ; "b` prints like the two parameters `a` and `b` |
| `Scenarios.OscTitle` | src/bin/explode.rs:67-70 | the OSC parameters `0` and `t` print as `OSC "0" ; "t"` |
| `TraceLines.Format` | src/bin/explode.rs:15-79 | a printed line is empty exactly when it is the blank line between frames |
| `TraceLines.FormatKeyword` | src/bin/explode.rs:15-79 | every line opens with the word of its kind (`TEXT "`, `CTRL `, `ESC `, `CSI `, `OSC `, `DCS `, `FRAME `), and two lines open with the same word exactly when they are of the same kind |
| `TraceLines.FormatRoundTrip` | src/bin/explode.rs:13-82 | every printed line can be read back to the event line it came from |
| `TraceLines.FormatInjective` | src/bin/explode.rs:13-82 | two lines print the same text exactly when they are the same line |
| `TraceLines.FormatEmptyText` | src/bin/explode.rs:16 | only the empty run would print as `TEXT ""` |
| `Driver.Feed` | src/bin/explode.rs:129-131 | taking a frame's callbacks one at a time, in order, ends in the state the fold `Run` describes |
| `Driver.ExplodeTrace` | src/bin/explode.rs:114-133 | the loop of `main` prints exactly the lines of `Output` and leaves exactly the pending run of `Explode` unprinted |
| `Driver.ExplodeFrameHeaders` | src/bin/explode.rs:123-128 | the frame headers are numbered 1, 2, 3, … one per frame; an empty line precedes every header except the first, and nothing else |
| `Driver.ExplodeFromSnoc` | src/bin/explode.rs:123-131 | from any printer state and frame number, one more frame is fed, after its own header, to the state all earlier frames left |
| `Driver.ExplodeNextFrame` | src/bin/explode.rs:123-131 | frame `k + 1` is fed to the printer exactly as frames 1 to `k` left it, pending run included, right after the header `FRAME k + 1` |
| `Driver.ExplodeFrameLines` | src/bin/explode.rs:123-131 | the trace of frames 1 to `k + 1` is the trace of frames 1 to `k`, then the header of frame `k + 1`, then only text and dispatch lines whose dispatch lines are those of frame `k + 1`'s callbacks, in order |
| `Driver.ExplodeConserves` | src/bin/explode.rs:117-133 | the printed `TEXT` lines followed by the final pending run are exactly the printable characters of all frames; every `TEXT` line is directly followed by the dispatch line that flushed it, so no run is printed at a frame boundary or at the end |
| `Driver.ExplodeDispatchOrder` | src/bin/explode.rs:117-133 | across frames, one dispatch line per dispatching callback, in order; no `TEXT` line is empty and each is followed by its flushing callback's line |
| `Driver.OutputNoEmptyText` | src/bin/explode.rs:13-18 | no printed line is `TEXT ""` |
| `Scenarios.TrailingTextStaysPending` | src/bin/explode.rs:117-133 | a recording that ends in text prints only its header; the text stays pending |
| `Scenarios.TextCrossesFrames` | src/bin/explode.rs:123-131 | text pending at the end of frame 1 is printed after the header of frame 2, by that frame's first dispatch |
| `Scenarios.EmptyFrames` | src/bin/explode.rs:124-127 | two empty frames print `FRAME 1`, an empty line and `FRAME 2` |
| `Scenarios.RedTextOutput` | src/bin/explode.rs:22-65 | `a`, the SGR sequence for red, `b` and a bell print `FRAME 1`, `TEXT "a"`, `CSI 31 m`, `TEXT "b"`, `CTRL G` |

## Left out

- `src/main.rs` is not part of this model. It is the interactive pty passthrough and consists of I/O and concurrency code only.
- The `vte` byte classifier is an external crate. The model takes the callbacks it makes as input, so escape sequences split across frames arrive already assembled.
- `ttyrec` framing, the 4096-byte `File::read` loop, `env_logger` setup and the `unwrap` exits on I/O errors are external code or I/O. The input is a list of frames, each a list of callbacks.
- `String::from_utf8_lossy` in `osc_param_str` is not modelled. OSC parameters arrive as already-decoded strings.
- `println!` writes to standard output. The model keeps the lines as a list, and `Output` gives their text without the newline.
- TraceLines.CtrlLetter: requires `b <= 0xBF`. For larger bytes the `u8` addition in `execute` panics in debug builds and wraps in release builds. The parser only reports C0 and C1 controls, so neither case is modelled.
- Driver.ExplodeFrameHeaders: the frame counter is an `i32` in the code and a `nat` here. Overflow after 2^31 - 1 frames is not modelled.
- TraceLines.FormatRoundTrip: requires that no OSC parameter contains a double quote. `osc_param_str` does not escape quotes, and `TraceLines.OscParamStrAmbiguous` shows two different callbacks that print the same line. `TEXT` lines need no such condition, because the run is read up to the final quote.
- TraceLines.OscParamStrRoundTrip: requires that no parameter contains a double quote, for the same reason.
- TraceLines.FormatInjective: requires the same of both lines, for the same reason.
- The ESC parameters and every `ignore` flag are carried in the events but never printed. The `...FirstIntermediateOnly` lemmas state this.
