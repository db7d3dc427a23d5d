/** The serial link manager (serialCon.py, `ArduinoConnection`), one step at a
    time: the reader and writer threads become one method per loop iteration,
    the serial device becomes a present/absent flag plus a trace of what was
    written to it, and the CSV file becomes a sequence of rows. Time is in
    integer milliseconds and is passed in by the caller. */
module SerialCon {
  import opened Wrappers
  import opened Text

  /** Least gap between two CSV rows: `now - last_log_time >= 0.02` seconds. */
  const MinLogIntervalMs: int := 20

  /** Consecutive times at least the minimum log interval apart. */
  predicate Spaced(ts: seq<int>) {
    forall i :: 0 < i < |ts| ==> ts[i - 1] + MinLogIntervalMs <= ts[i]
  }

  /** The first and last of a spaced sequence of log times are at least one
      interval per gap apart. */
  lemma {:induction false} SpacedSpan(ts: seq<int>)
    requires Spaced(ts) && ts != []
    ensures ts[0] + MinLogIntervalMs * (|ts| - 1) <= ts[|ts| - 1]
    decreases |ts|
  {
    if |ts| > 1 {
      var init := ts[..|ts| - 1];
      assert Spaced(init);
      SpacedSpan(init);
    }
  }

  /** Rows logged at times within `[lo, hi]` number at most one per interval,
      plus one: a burst arriving faster than the interval is mostly not logged. */
  lemma LogRowsBound(ts: seq<int>, lo: int, hi: int)
    requires Spaced(ts) && lo <= hi
    requires forall i :: 0 <= i < |ts| ==> lo <= ts[i] <= hi
    ensures MinLogIntervalMs * (|ts| - 1) <= hi - lo
    ensures |ts| <= (hi - lo) / MinLogIntervalMs + 1
  {
    if ts != [] {
      SpacedSpan(ts);
      var k := |ts| - 1;
      assert lo <= ts[0] && ts[k] <= hi;
      assert 20 * k <= hi - lo;
      assert k <= (hi - lo) / 20;
    }
  }

  /** Everything about a link except its reader queue. */
  datatype LinkRest = LinkRest(connected: bool, threadsStarted: bool, stopFlag: bool,
                               writerQueue: seq<string>, lastLogTime: int, log: seq<seq<string>>,
                               written: seq<string>, sent: seq<string>, logTimes: seq<int>)

  class ArduinoConnection {
    /** The device name the link opens. */
    const port: string
    /** `self.arduino is not None`: the serial device is open. */
    var connected: bool
    /** The reader and writer threads have been created (`self.reader_thread` is set). */
    var threadsStarted: bool
    /** `self.stop_event` is set. */
    var stopFlag: bool
    /** `self.reader_queue`, front first. */
    var readerQueue: seq<string>
    /** `self.writer_queue`, front first. */
    var writerQueue: seq<string>
    /** `self.last_log_time`, in milliseconds. */
    var lastLogTime: int
    /** The rows appended to the CSV log, oldest first. */
    var log: seq<seq<string>>
    /** The payloads passed to the device's `write`, oldest first. */
    var written: seq<string>
    /** Everything ever passed to `send`, oldest first. */
    ghost var sent: seq<string>
    /** The time at which each CSV row was appended. */
    ghost var logTimes: seq<int>

    /** The link is open exactly while the threads exist and have not been told
        to stop; the device has received a prefix of what was sent, in order,
        and the rest is still queued; CSV rows are at least the minimum
        interval apart and the last one was written at `lastLogTime`. */
    ghost predicate Valid()
      reads this
    {
      (connected <==> threadsStarted && !stopFlag) &&
      written + writerQueue == sent &&
      |logTimes| == |log| && Spaced(logTimes) &&
      (logTimes != [] ==> logTimes[|logTimes| - 1] == lastLogTime)
    }

    /** The state that draining the reader queue leaves alone. */
    ghost function Rest(): LinkRest
      reads this
    {
      LinkRest(connected, threadsStarted, stopFlag, writerQueue, lastLogTime, log, written, sent, logTimes)
    }

    /** `ArduinoConnection(port)`, created at clock reading `nowMs`. */
    constructor (port: string, nowMs: int)
      ensures Valid()
      ensures this.port == port && !connected && !threadsStarted && !stopFlag
      ensures readerQueue == [] && writerQueue == [] && sent == []
      ensures lastLogTime == nowMs && log == [] && written == []
    {
      this.port := port;
      connected, threadsStarted, stopFlag := false, false, false;
      readerQueue, writerQueue := [], [];
      lastLogTime := nowMs;
      log, written := [], [];
      sent, logTimes := [], [];
    }

    /** `connect()`. `openError` is `None` when the device opens and otherwise
        the text of the `SerialException` it raised. An open link is left alone;
        a failed open changes nothing and is reported; a successful one clears
        the stop flag and starts the threads. */
    method Connect(openError: Option<string>) returns (r: Outcome<string>)
      requires Valid()
      modifies this
      ensures Valid()
      ensures old(connected) ==> r == Pass && unchanged(this)
      ensures !old(connected) && openError.Some? ==>
                r == Fail("Failed to open " + port + ": " + openError.value) && unchanged(this)
      ensures !old(connected) && openError.None? ==>
                r == Pass && connected && threadsStarted && !stopFlag &&
                readerQueue == old(readerQueue) && writerQueue == old(writerQueue) &&
                lastLogTime == old(lastLogTime) && log == old(log) && written == old(written) &&
                sent == old(sent) && logTimes == old(logTimes)
    {
      if connected {
        return Pass;
      }
      if openError.Some? {
        return Fail("Failed to open " + port + ": " + openError.value);
      }
      connected := true;
      stopFlag := false;
      threadsStarted := true;
      r := Pass;
    }

    /** `disconnect()`: nothing to do when the link is absent; otherwise the
        stop flag is set and the link ends absent (a failing close is ignored). */
    method Disconnect()
      requires Valid()
      modifies this
      ensures Valid()
      ensures !old(connected) ==> unchanged(this)
      ensures old(connected) ==>
                !connected && stopFlag && threadsStarted &&
                readerQueue == old(readerQueue) && writerQueue == old(writerQueue) &&
                lastLogTime == old(lastLogTime) && log == old(log) && written == old(written) &&
                sent == old(sent) && logTimes == old(logTimes)
    {
      if !connected {
        return;
      }
      stopFlag := true;
      connected := false;
    }

    /** `send(data)`: the payload joins the back of the writer queue. */
    method Send(data: string)
      requires Valid()
      modifies this
      ensures Valid()
      ensures writerQueue == old(writerQueue) + [data] && sent == old(sent) + [data]
      ensures connected == old(connected) && threadsStarted == old(threadsStarted) && stopFlag == old(stopFlag)
      ensures readerQueue == old(readerQueue) && lastLogTime == old(lastLogTime)
      ensures log == old(log) && written == old(written) && logTimes == old(logTimes)
    {
      writerQueue := writerQueue + [data];
      sent := sent + [data];
    }

    /** One iteration of `_reader_loop`. `raw` is what `readline()` returned
        (already decoded) and `nowMs` the clock reading taken after it. The
        result is false when the loop has seen the stop flag and ended. */
    method ReaderStep(raw: string, nowMs: int) returns (running: bool)
      requires Valid() && threadsStarted
      modifies this
      ensures Valid()
      ensures running == !old(stopFlag)
      ensures old(stopFlag) ==> unchanged(this)
      ensures !old(stopFlag) ==>
                readerQueue == old(readerQueue) + (if Strip(raw) == [] then [] else [Strip(raw)])
      ensures !old(stopFlag) && Strip(raw) != [] && nowMs - old(lastLogTime) >= MinLogIntervalMs ==>
                log == old(log) + [Split(Strip(raw))] && logTimes == old(logTimes) + [nowMs] &&
                lastLogTime == nowMs
      ensures old(stopFlag) || Strip(raw) == [] || nowMs - old(lastLogTime) < MinLogIntervalMs ==>
                log == old(log) && logTimes == old(logTimes) && lastLogTime == old(lastLogTime)
      ensures connected == old(connected) && threadsStarted == old(threadsStarted) && stopFlag == old(stopFlag)
      ensures writerQueue == old(writerQueue) && written == old(written) && sent == old(sent)
    {
      if stopFlag {
        return false;
      }
      running := true;
      if raw == [] {
        return;
      }
      var line := Strip(raw);
      if line != [] {
        readerQueue := readerQueue + [line];
        if nowMs - lastLogTime >= MinLogIntervalMs {
          ghost var ts := logTimes + [nowMs];
          assert forall i :: 0 < i < |ts| - 1 ==> ts[i - 1] + MinLogIntervalMs <= ts[i];
          assert Spaced(ts);
          lastLogTime := nowMs;
          log := log + [Split(line)];
          logTimes := ts;
        }
      }
    }

    /** One iteration of `_writer_loop`: the front of the writer queue, if any,
        goes to the device. An empty queue (the 0.2 s wait timed out) changes
        nothing. The result is false when the loop has seen the stop flag. */
    method WriterStep() returns (running: bool)
      requires Valid() && threadsStarted
      modifies this
      ensures Valid()
      ensures running == !old(stopFlag)
      ensures old(stopFlag) || old(writerQueue) == [] ==> unchanged(this)
      ensures !old(stopFlag) && old(writerQueue) != [] ==>
                written == old(written) + [old(writerQueue)[0]] && writerQueue == old(writerQueue)[1..]
      ensures connected == old(connected) && threadsStarted == old(threadsStarted) && stopFlag == old(stopFlag)
      ensures readerQueue == old(readerQueue) && lastLogTime == old(lastLogTime)
      ensures log == old(log) && sent == old(sent) && logTimes == old(logTimes)
    {
      if stopFlag {
        return false;
      }
      running := true;
      if writerQueue == [] {
        return;
      }
      var data := writerQueue[0];
      writerQueue := writerQueue[1..];
      written := written + [data];
    }

    /** `reader_queue.get_nowait()`: the front line, or `None` (`queue.Empty`). */
    method PollReaderQueue() returns (item: Option<string>)
      modifies this
      ensures old(readerQueue) == [] ==> item == None && unchanged(this)
      ensures old(readerQueue) != [] ==> item == Some(old(readerQueue)[0]) && readerQueue == old(readerQueue)[1..]
      ensures Rest() == old(Rest())
    {
      if readerQueue == [] {
        return None;
      }
      item := Some(readerQueue[0]);
      readerQueue := readerQueue[1..];
    }
  }
}
