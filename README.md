# Atari Breakout: stream-to-logger redirect and main loop

This project models the two sequential parts of the Atari Breakout game's
runtime in Dafny and proves properties of them.

Part 1 is the `StreamToLogger` redirect. The game replaces standard output
and standard error with this object. Each `write` joins the pending
partial line to the new text and splits the result the way Python's
`str.splitlines(True)` does. Every segment ending in `'\n'` goes to the
logger, right-stripped, at the stream's level. Every other segment is
appended back to the line buffer. `flush` logs the leftover partial line,
if there is one, and empties the buffer.

- `pystr.dfy` (module `PyStr`) gives Python's `splitlines(True)` and
  `rstrip()`. It covers every boundary `splitlines` knows: `\n`, `\r`,
  `\r\n`, `\v`, `\f`, `\x1c`-`\x1e`, `\x85`, U+2028 and U+2029. It also
  covers every character `str.isspace` accepts.
- `logging.dfy` (module `Logging`) holds the logger and the stream as
  classes. The logger is reduced to the list of `log(level, msg)` calls it
  received. The stream has the `linebuf` field and the fixed
  `logger`/`logLevel`. `Write` has the source's `for` loop over the
  segments. Its contract ties the new buffer and the new log to the
  functions `Leftover` and `Messages` of the combined text, and the
  lemmas prove what those functions promise.

The proofs also pin down one behaviour: the line order is kept only when
`'\n'` is the only boundary in the text. A `\r` makes `splitlines` end a
segment that the emit test (`line[-1] == "\n"`) does not emit. That
segment is then put back into the buffer ahead of later text. For
`"a\rb\nc"` the stream logs `"b"` and keeps `"a\rc"`
(`CarriageReturnReorders`).

Part 2 is the main loop (`mainloop.dfy`, module `MainLoop`). The `running`
flag is driven by per-frame batches of events. The loop's input is a
sequence of `Frame` values. Each holds the event batch, the set of keys
held down, and the rectangles the sprite group's `draw` reports. The
loop's pygame and logging side effects are recorded as a log of `Call`
values. The main loop in `atari_breakout/__main__.py` still updates, draws
and presents in the iteration in which the quit event arrives: lines 74-78
run whatever the events were. `QuitIterationCompletes` proves this.

## Model

| member | source | states |
|---|---|---|
| `PyStr.SplitLines` | atari_breakout/logging.py:30 | every segment is non-empty, and a line boundary can only be its last character (or the `\r` of a final `\r\n`); every segment except the last ends with a boundary; a segment ending in `\r` is never followed by one starting with `\n`, so `\r\n` stays one boundary; the segments concatenate back to the text |
| `PyStr.RStrip` | atari_breakout/logging.py:37 | the result is a prefix of the input and does not end in whitespace; everything cut off is whitespace |
| `PyStr.NewlineEndsSegment` | atari_breakout/logging.py:30-36 | a `splitlines` segment that contains `'\n'` ends with `'\n'` |
| `PyStr.NoBoundarySingleLine` | atari_breakout/logging.py:28-30 | a text with no line boundary splits into itself alone, or into nothing when it is empty |
| `Logging.Logger.Log` | atari_breakout/logging.py:37 | a log call appends exactly one record, with that level and that message |
| `Logging.StreamToLogger.constructor` | atari_breakout/logging.py:21-24 | a fresh stream keeps the given logger and level and has an empty buffer |
| `Logging.StreamToLogger.WithDefaultLevel` | atari_breakout/logging.py:21-24 | a stream built without a level has level INFO (20) and an empty buffer |
| `Logging.StreamToLogger.Write` | atari_breakout/logging.py:26-39 | the new buffer is the concatenation of the segments of `linebuf + buf` that do not end in `'\n'`; the logger receives, in order, one call per segment that does end in `'\n'`, with that segment right-stripped and with the stream's level; afterwards the buffer holds no `'\n'` |
| `Logging.StreamToLogger.Flush` | atari_breakout/logging.py:41-45 | a non-empty buffer is logged once, right-stripped, at the stream's level; an empty one logs nothing; either way the buffer is left empty |
| `Logging.LeftoverHasNoNewline` | atari_breakout/logging.py:30-39 | whatever a write puts back into the buffer contains no `'\n'` |
| `Logging.NoNewlineAllBuffered` | atari_breakout/logging.py:30-39 | when the segments hold no `'\n'`, none is logged and all of them, in order, become the buffer |
| `Logging.NewlineLogged` | atari_breakout/logging.py:30-37 | when the segments hold a `'\n'`, at least one is logged |
| `Logging.WriteLogsIffNewline` | atari_breakout/logging.py:28-39 | a write logs something exactly when `linebuf + buf` contains `'\n'`; when it does not, the buffer becomes `linebuf + buf` |
| `Logging.OnlyNewlineConserves` | atari_breakout/logging.py:28-39 | when `'\n'` is the only line boundary in the text, the logged segments before stripping, followed by the new buffer, give back `linebuf + buf` exactly |
| `Logging.CarriageReturnReorders` | atari_breakout/logging.py:30-39 | for `"a\rb\nc"` the segments are `"a\r"`, `"b\n"`, `"c"`; only `"b"` is logged and the buffer becomes `"a\rc"` |
| `Logging.WriteEmptyKeepsState` | atari_breakout/logging.py:26-39 | `write("")` leaves the buffer and the log unchanged |
| `Logging.FlushTwice` | atari_breakout/logging.py:41-45 | two flushes in a row log what one flush logs; the second changes nothing |
| `MainLoop.FirstQuit` | atari_breakout/__main__.py:55-65 | the result is the index of the first frame whose batch holds `QUIT` or an Escape key-down; every earlier batch holds neither |
| `MainLoop.HandleEvents` | atari_breakout/__main__.py:60-65 | every event of the batch is examined, even after a quit event; `running` ends up false exactly when it was false already or the batch holds `QUIT` or `KEYDOWN` with `K_ESCAPE`; other keys and other events leave it as it was, and nothing sets it back to true |
| `MainLoop.RunLoop` | atari_breakout/__main__.py:55-82 | the loop runs every frame up to and including the first one whose batch quits, and stops there with `running` false; with no quit event it goes on through every supplied frame with `running` true; the call log is one block of iteration calls per iteration run, then the warning and the shutdown once the loop has stopped |
| `MainLoop.LoopCallsShape` | atari_breakout/__main__.py:56-78 | the calls of `n` iterations form `n` blocks of six; block `k` is tick(60), get events, get pressed keys, update, draw, present the rects of frame `k`'s draw |
| `MainLoop.LoopCallsCounts` | atari_breakout/__main__.py:74-78 | `n` iterations update the sprites exactly `n` times and draw them exactly `n` times, and never shut down |
| `MainLoop.ShutdownOnce` | atari_breakout/__main__.py:80-82 | once the loop has stopped, the log holds exactly one shutdown |
| `MainLoop.QuitIterationCompletes` | atari_breakout/__main__.py:55-82 | the iteration whose batch quits still ends with update, draw and present of its rects, and the closing warning and shutdown come right after it |
| `MainLoop.PressedIrrelevant` | atari_breakout/__main__.py:67-71 | frames that differ only in the keys held down give the same stopping point and the same call log |

## Left out

- `logging.setup()` (atari_breakout/logging.py:48-92) is left out. It is I/O and global library configuration: a rotating log file, coloredlogs styles, the logs directory, and the swap of `sys.stdout`/`sys.stderr`.
- `_monkeypatch_trace` and the `DEBUG` environment parse (atari_breakout/logging.py:12-15, 95-104) are left out. They are thin wrappers over library code that is not part of this model.
- The logging library is left out: level filtering, handlers and formatting. The model's `Logger` only records each call made to it.
- `Write` accepts only text. The source's `buf: Any` would fail inside Python on a non-string, and that failure is not modelled.
- atari_breakout/utils.py (`load_image`, `load_sound`) is not part of this model. It wraps pygame image and sound decoding, and its only logic is a colour-key branch and a no-mixer fallback.
- atari_breakout/__init__.py is left out. It only loads `.env` and sets up logging.
- All pygame setup in `main` is left out (atari_breakout/__main__.py:18-51): display, caption, icon, background, font, mouse grab.
- `clock.tick(60)` is logged as a call. Its waiting is not modelled.
- The sprite group `LayeredDirty` lives inside pygame. Its `update` and `draw` are logged as calls, and the rectangles `draw` returns come from the input `Frame`.
- `display.update` is logged as a call with those rectangles. Nothing is drawn.
- `MainLoop.RunLoop`: the source loop runs forever when no quit event arrives. The model runs on a finite sequence of frames and also stops when they are used up, still with `running` true and without shutting down.
- The `log.info` calls before the loop (atari_breakout/__main__.py:19, 54) are not logged. The closing `log.warning` is.
- `Logging.WriteEmptyKeepsState`: this requires the stream's invariant (no `'\n'` in the buffer), which every constructor, `Write` and `Flush` establish.
