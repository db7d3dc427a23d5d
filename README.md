# Servo telemetry console — a Dafny model

The system is a desktop console for a two-valve test stand. An Arduino reports
the oxidizer and fuel servo positions as text lines on a serial port and
accepts text commands. The console has three parts, each modelled here.

- **The serial link manager** (`ArduinoConnection`, serialCon.py). A reader
  thread strips each line from the device and queues it for the display. It
  also appends the line's words to a CSV log, at most once every 20 ms. A
  writer thread sends queued commands to the device. `connect` and
  `disconnect` start and stop the link.
- **The display** (`MainWindow`, GUI.py). Every tick drains the reader queue.
  Each line that holds exactly two integers becomes a sample, time-stamped
  from the first accepted sample. Samples join an append-only history, and a
  thinned copy of the history is drawn. Typed commands are stripped and sent
  with a newline. Typing `6969` enables the ignition button.
- **Port selection** (`find_port`, main.py). The program takes the preferred
  port if one is given. Otherwise it takes the first port that looks like an
  Arduino, and otherwise the first port of all.

Files:

- `wrappers.dfy`: `Option` (Python's `None`) and `Outcome` (return normally or
  raise).
- `text.dfy`: the Python string built-ins the code relies on, as functions with
  their properties:
  - `str.strip`, `str.split()`, `int()`, ASCII `str.lower`, and substring `in`.
- `port_select.dfy`: `find_port`, as a recursive first-match function over a
  port list passed in as a parameter.
- `serial_con.dfy`: `ArduinoConnection`, as a class.
  - Each loop iteration of the reader and writer threads is one method.
  - The device is modelled as a present/absent flag plus the trace of
    payloads written to it.
  - The CSV file is modelled as a sequence of token lists.
  - The class invariant `Valid()` has three parts:
    - The link is up exactly when the threads exist and have not been told to
      stop.
    - The device has received a prefix of everything sent, in order, and the
      rest is still queued. The ghost field `sent` records everything sent.
    - Logged rows are at least 20 ms apart. The ghost field `logTimes` records
      when each row was logged.
- `gui.dfy`:
  - the line parser;
  - the history and the drain, specified by the functions `Ingest` and `Drain`;
  - decimation (`Decimate`, built on `s[::step]` = `EveryNth`);
  - command normalisation;
  - `MainWindow`, as a class whose `update_graph` drain loop is proved
    against `Drain`.

Time is in integer milliseconds, read from a clock passed in by the caller.

Behaviour taken from the code as written:

- **The CSV log is not filtered.** The reader thread queues every non-empty
  stripped line and logs it, unparsed, whenever 20 ms have passed since the
  last logged line, so the log may contain lines the display rejects.
  Only the display parses lines.
- **Button commands get no newline.** Button clicks send their command with no
  trailing newline. Typed commands always end in exactly one.
- **A dead branch in `return_pressed`.** The `endswith("\n")` check in
  `return_pressed` never skips the append. `strip()` has already removed every
  trailing newline. The model keeps the branch, and `NormaliseCommand`'s
  contract shows that it is never taken.
- **`find_port` can return `""` or `None`.** The first matching port is
  reported as `p.device or ""`, so a match with no device name gives `""`.
  The fallback returns `ports[0].device` as it is, which may be `None`.
- **The typed ignition code is also sent.** `6969` enables the ignition
  button, and `6969\n` is still sent to the device.

## Model

| member | source | states |
|---|---|---|
| Text.TrimStartSpec | serialCon.py:65 | `lstrip` drops only a leading whitespace run. The result is a suffix of the input, everything dropped is whitespace, and the result does not start with whitespace. |
| Text.TrimEndSpec | serialCon.py:65 | `rstrip` drops only a trailing whitespace run. The result is a prefix of the input, everything dropped is whitespace, and the result does not end with whitespace. |
| Text.StripEnds | GUI.py:81 | A stripped string is empty, or it neither starts nor ends with whitespace. |
| Text.StripInfix | serialCon.py:65 | `strip()` keeps one contiguous slice of its input. The parts removed on either side are whitespace only. |
| Text.SplitWords | serialCon.py:75 | Every word produced by `split()` is non-empty and holds no whitespace. |
| Text.SplitKeepsText | serialCon.py:75 | The words of `split()`, concatenated, are the input with its whitespace removed. Nothing else is lost or added. |
| Text.SplitJoinSpaced | serialCon.py:75 | Round trip: splitting words joined by single blanks gives back those words. |
| Text.SplitCons | GUI.py:112 | A word between leading whitespace and a whitespace-led rest is the first word of the split. |
| Text.SplitOfStrip | GUI.py:112 | `s.strip().split()` gives the same words as `s.split()`. |
| Text.ParseIntRoundTrip | GUI.py:113-114 | Round trip: `int(str(n)) == n` for every integer `n`. |
| Text.Contains | main.py:16 | `sub in s` holds exactly when `sub` occurs in `s` at some position. |
| Text.LowerSpec | main.py:15 | `lower()` leaves no ASCII upper-case letter, maps each one to its lower-case partner, keeps every other character, and is idempotent. |
| Text.LowerOccurs | main.py:15-16 | A word found in a string is found, lowered, at the same place in the lowered string. |
| PortSelection.DescriptionAnyCase | main.py:15-16 | A port whose description contains `arduino` in any ASCII case passes the test. |
| PortSelection.FirstMatch | main.py:13-17 | The result is `None` exactly when no port passes the test. Otherwise it is the first passing port's device, with a missing device read as `""`. |
| PortSelection.FindPort | main.py:8-21 | A non-empty preferred name is returned unchanged. Otherwise the result is the first matching port's device. Failing that, it is the first port's device, or `None` for an empty list. Any result is the preferred name or a listed device. |
| SerialCon.SpacedSpan | serialCon.py:72-76 | Rows in a spaced log are at least 20 ms apart per gap from the first to the last. |
| SerialCon.LogRowsBound | serialCon.py:72-76 | Rows logged within a window of `hi - lo` ms number at most `(hi - lo) / 20 + 1`. |
| SerialCon.ArduinoConnection.constructor | serialCon.py:11-27 | A new link is down, with empty queues, an empty log and an empty device trace. `last_log_time` is the creation time. |
| SerialCon.ArduinoConnection.Connect | serialCon.py:29-42 | On an open link, `connect` does nothing. A failed open changes nothing and reports `Failed to open <port>: <error>`. A successful open clears the stop flag and starts both threads. Queues, log and trace are untouched. |
| SerialCon.ArduinoConnection.Disconnect | serialCon.py:44-57 | On an absent link, `disconnect` does nothing. Otherwise it sets the stop flag and leaves the link absent, with queues, log and trace untouched. |
| SerialCon.ArduinoConnection.Send | serialCon.py:87-88 | The payload joins the back of the writer queue. Nothing else changes, and the FIFO invariant is kept. |
| SerialCon.ArduinoConnection.ReaderStep | serialCon.py:59-76 | After the stop flag, the step ends and changes nothing. An empty read changes nothing. A non-empty stripped line is queued whether or not it is logged. `split()` of the line is logged, with `last_log_time` set to now, exactly when 20 ms have passed. Otherwise the log and `last_log_time` are unchanged. |
| SerialCon.ArduinoConnection.WriterStep | serialCon.py:78-85 | After the stop flag, or with an empty queue, nothing changes. Otherwise exactly the front payload is written to the device and removed from the queue. |
| SerialCon.ArduinoConnection.PollReaderQueue | GUI.py:103-106 | `get_nowait` returns the front line and removes it. On an empty queue it returns `None` and changes nothing. |
| Gui.ParseReadingAccepts | GUI.py:111-116 | A line yields a sample exactly when its words are two integer literals. The first word gives the oxidizer position and the second the fuel position. |
| Gui.ParsePadded | GUI.py:111-116 | Two integers with any whitespace around and between them parse back to exactly those integers, in that order. |
| Gui.ParseEmpty | GUI.py:108-109 | An empty line yields no sample. |
| Gui.ParseAllAt | GUI.py:102-116 | Entry `k` of the parsed queue is line `k` parsed. Queue order is kept. |
| Gui.IngestAligned | GUI.py:118-127 | Handling one line keeps the three lists equal in length. It also keeps the origin set exactly when there are samples, and the first time stamp at 0. |
| Gui.DrainAligned | GUI.py:102-127 | A whole drain keeps the history aligned in the same way. |
| Gui.DrainPrefixStep | GUI.py:102-128 | Draining `i + 1` lines is draining `i` lines and then handling line `i`. Some line has been accepted exactly when one had been before or line `i` is. |
| Gui.DrainAppends | GUI.py:124-127 | The history is append-only. The old lists are prefixes of the new ones, and the positions added are exactly those of the accepted lines, in queue order. |
| Gui.DrainStart | GUI.py:120-122 | Once set, `start_ms` never changes. An unset one becomes set exactly when some line is accepted. |
| Gui.IngestMonotone | GUI.py:119-122 | With a clock reading no earlier than the last sample, a new time stamp keeps the time list in order. |
| Gui.DrainMonotone | GUI.py:119-122 | With a clock that never goes back, the time stamps after a drain are non-decreasing and never negative. |
| Gui.EveryNth | GUI.py:144-146 | `s[::step]` has `ceil(len(s) / step)` elements. |
| Gui.EveryNthAt | GUI.py:144-146 | Element `i` of `s[::step]` is element `i * step` of `s`. |
| Gui.DecimatedCount | GUI.py:134-142 | Above 2000 samples, the stride is `n // 2000`, and between 2000 and 3999 points are drawn. |
| Gui.DecimateAt | GUI.py:141-146 | Above 2000 samples, drawn point `i` is sample `i * stride`. |
| Gui.DecimateShape | GUI.py:134-146 | Up to 2000 samples, everything is drawn. Above that, 2000 to 3999 points are drawn, at multiples of the stride. |
| Gui.DecimateBelowTwiceTarget | GUI.py:134-146 | Below 4000 samples the stride is 1, so every sample is drawn. |
| Gui.DecimateSameLength | GUI.py:144-146 | Equal-length lists stay equal in length once decimated. |
| Gui.NormaliseCommand | GUI.py:81-89 | A blank line gives nothing to send. Any other line gives its stripped text plus one newline. |
| Gui.MainWindow.constructor | GUI.py:14-57 | A new window has no time origin and an empty history. The ignition button is disabled and the input is empty. |
| Gui.MainWindow.RecordSample | GUI.py:118-127 | An accepted sample is appended as `Ingest` says. The first sample fixes the time origin. |
| Gui.MainWindow.ConsumeLine | GUI.py:108-128 | A dequeued line is handled as `Ingest` of its parse. A line is accepted exactly when it parses. |
| Gui.MainWindow.TakeLine | GUI.py:103-127 | One pass of the drain loop. With an empty queue it reports the end and changes nothing. Otherwise it removes the front line and handles it. The link's other state is untouched. |
| Gui.MainWindow.DrainReaderQueue | GUI.py:101-128 | The loop empties the reader queue, and the history becomes `Drain` of the parsed queue. It reports whether any line was accepted. The link's other state is untouched. |
| Gui.MainWindow.Redraw | GUI.py:133-146 | Both curves get the decimated history, as three equal-length series. The history is unchanged. |
| Gui.MainWindow.UpdateGraph | GUI.py:99-150 | The queue is emptied and the history becomes `Drain` of it. The plot is left alone when no line was accepted and redrawn otherwise. |
| Gui.MainWindow.ButtonClicked | GUI.py:57-62 | A click sends that button's fixed command, with no newline. A click on the ignition button while it is disabled sends nothing. |
| Gui.MainWindow.ReturnPressed | GUI.py:80-93 | Typing `6969` enables ignition for good. A blank line sends nothing and stays in the box. Any other line is sent once, stripped and ending in one newline, and the box is cleared. |

## Left out

- Threads, `join(timeout=1)` and the blocking `get(timeout=0.2)`. The reader
  and writer loops are modelled one iteration at a time. An empty writer queue
  stands for a timed-out wait.
- Interleavings between the threads and the GUI timer are not modelled, and
  neither is a thread running after `disconnect` has cleared `self.arduino`.
- `serial.Serial` open, `readline`, `write` and `close`. The open's outcome is
  a parameter of `Connect`, a read is a parameter of `ReaderStep`, a write is
  an entry of the trace `written`, and a failing close is ignored as in the
  source.
- Failing reads and writes: in the model `readline` and `write` never fail.
  In the source the port is opened with `write_timeout=0.1`, so `write` can
  raise; the exception ends the writer thread and the payload it had already
  taken off the writer queue is lost. A raising `readline` likewise ends the
  reader thread. SerialCon.ArduinoConnection.WriterStep and the invariant
  `written + writerQueue == sent` in `Valid()` (each payload written once, in
  order) therefore hold only while no write fails, and
  SerialCon.ArduinoConnection.ReaderStep has no failing case.
- Gui.MainWindow.SetInputText stands for the operator typing into the
  command box (`QLineEdit`). It models no code of the program and has no row
  above.
- The `is_open` attribute of an existing device: the model takes a present
  device to be open.
- `baud` and `timeout` reach only the `serial.Serial` open at
  serialCon.py:33, which the model replaces by `Connect`'s `openError`
  parameter; `debug` is never used.
- UTF-8 decoding with `errors="ignore"`: lines arrive already decoded.
- The CSV file handle, `csv.writer` quoting and `flush`: the log is a
  sequence of token lists.
- Floating-point clocks (`time.time()`, `perf_counter()`). Time is integer
  milliseconds passed in, and the throttle `now - last >= 0.02` s becomes
  `now - last >= 20`.
- Gui.MainWindow.UpdateGraph: the clock is given as one reading per queued
  line, used only when that line is accepted, instead of being read inside
  the loop.
- Text.ParseInt: `int()` is restricted to an optional ASCII sign followed by
  ASCII digits. Underscores, surrounding whitespace inside a token and
  non-ASCII digits are not modelled, nor is the 4300-digit limit on decimal
  strings in Python 3.10.7 and later: a longer token raises `ValueError` in
  the source and the line is dropped, while the model accepts it.
- Text.Lower: `str.lower` is modelled for ASCII letters only.
- The bytes variant of `send`: payloads are strings.
- All PyQt5 and pyqtgraph widgets, plot styling, the `QTimer` wiring and the
  numpy conversion. The plot is the three series last given to it.
- `main()`: deleting the CSV file, calling `list_ports`, the Qt event loop and
  the cleanup. The port list is a parameter of `FindPort`.
