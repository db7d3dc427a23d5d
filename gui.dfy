/** The display side (GUI.py, `MainWindow`): turning queued device lines into
    the telemetry history, thinning the history for drawing, and turning what
    the operator types or clicks into commands for the link. Widgets, plot
    styling and the timer that calls `update_graph` every 20 ms are not part
    of this model; the monotonic clock is passed in, in milliseconds. */
module Gui {
  import opened Wrappers
  import opened Text
  import opened SerialCon

  // ---------------------------------------------------------------------
  // Parsing one queued line

  /** One accepted device line: the oxidizer and the fuel servo positions. */
  datatype Reading = Reading(ox: int, fuel: int)

  /** The `try` block of the drain loop: the stripped line split at
      whitespace, which must give exactly two tokens that `int()` accepts. */
  function ParseReading(raw: string): Option<Reading> {
    var tokens := Split(Strip(raw));
    if |tokens| != 2 then None
    else
      var ox := ParseInt(tokens[0]);
      var fuel := ParseInt(tokens[1]);
      if ox.None? || fuel.None? then None else Some(Reading(ox.value, fuel.value))
  }

  /** A line yields a reading exactly when its whitespace-separated words are
      two integer literals; the first is the oxidizer position, the second the
      fuel position. Leading and trailing whitespace play no part. */
  lemma ParseReadingAccepts(raw: string)
    ensures ParseReading(raw).Some? <==>
              |Split(raw)| == 2 && IsIntLiteral(Split(raw)[0]) && IsIntLiteral(Split(raw)[1])
    ensures ParseReading(raw).Some? ==>
              ParseInt(Split(raw)[0]) == Some(ParseReading(raw).value.ox) &&
              ParseInt(Split(raw)[1]) == Some(ParseReading(raw).value.fuel)
  {
    SplitOfStrip(raw);
  }

  /** A line made of two integers, with any whitespace before, between (at
      least one character) and after them, yields exactly those integers,
      the first as the oxidizer position. */
  lemma ParsePadded(ox: int, fuel: int, lead: string, gap: string, trail: string)
    requires AllSpace(lead) && AllSpace(gap) && AllSpace(trail) && gap != []
    ensures ParseReading(lead + IntToString(ox) + gap + IntToString(fuel) + trail) == Some(Reading(ox, fuel))
  {
    var a, b := IntToString(ox), IntToString(fuel);
    var line := lead + a + gap + b + trail;
    assert line == lead + a + (gap + b + trail);
    SplitCons(lead, a, gap + b + trail);
    SplitCons(gap, b, trail);
    SplitSpaces(trail, []);
    assert trail + [] == trail;
    assert Split(line) == [a, b];
    SplitOfStrip(line);
    ParseIntRoundTrip(ox);
    ParseIntRoundTrip(fuel);
  }

  // ---------------------------------------------------------------------
  // The telemetry history and the drain loop

  /** An empty line is rejected. */
  lemma ParseEmpty()
    ensures ParseReading([]) == None
  {
    assert Strip([]) == [];
    assert Split([]) == [];
  }

  /** What the drain loop makes of each queued line, in queue order. */
  function ParseAll(lines: seq<string>): (ps: seq<Option<Reading>>)
    ensures |ps| == |lines|
    decreases |lines|
  {
    if lines == [] then []
    else ParseAll(lines[..|lines| - 1]) + [ParseReading(lines[|lines| - 1])]
  }

  /** Entry `k` of the parsed queue is line `k` parsed. */
  lemma {:induction false} ParseAllAt(lines: seq<string>, k: nat)
    requires k < |lines|
    ensures ParseAll(lines)[k] == ParseReading(lines[k])
    decreases |lines|
  {
    if k < |lines| - 1 {
      ParseAllAt(lines[..|lines| - 1], k);
    }
  }

  /** The accepted readings, in order. */
  function Readings(ps: seq<Option<Reading>>): seq<Reading> {
    if ps == [] then []
    else (match ps[0] case Some(rd) => [rd] case None => []) + Readings(ps[1..])
  }

  function OxColumn(rs: seq<Reading>): seq<int> {
    seq(|rs|, i requires 0 <= i < |rs| => rs[i].ox)
  }

  function FuelColumn(rs: seq<Reading>): seq<int> {
    seq(|rs|, i requires 0 <= i < |rs| => rs[i].fuel)
  }

  lemma {:induction false} ReadingsSnoc(ps: seq<Option<Reading>>, p: Option<Reading>)
    ensures Readings(ps + [p]) == Readings(ps) + (match p case Some(rd) => [rd] case None => [])
    decreases |ps|
  {
    if ps == [] {
      assert ps + [p] == [p];
    } else {
      assert (ps + [p])[0] == ps[0];
      assert (ps + [p])[1..] == ps[1..] + [p];
      ReadingsSnoc(ps[1..], p);
    }
  }

  /** `start_ms` and the three history lists `data_time`, `fuel_pos`, `ox_pos`. */
  datatype History = History(start: Option<int>, time: seq<int>, fuel: seq<int>, ox: seq<int>)

  /** The three lists have one entry per accepted sample; the time origin is
      set exactly when there is a sample, and the first sample is at time 0. */
  predicate Aligned(h: History) {
    |h.time| == |h.fuel| == |h.ox| &&
    (h.start.None? <==> h.time == []) &&
    (h.time != [] ==> h.time[0] == 0)
  }

  /** The drain loop's body for one parsed line handled at clock reading
      `nowMs`: an accepted line appends one sample stamped relative to the
      time origin, which the first accepted line fixes. */
  function Ingest(h: History, p: Option<Reading>, nowMs: int): History {
    match p
    case None => h
    case Some(rd) =>
      var start := h.start.GetOr(nowMs);
      History(Some(start), h.time + [nowMs - start], h.fuel + [rd.fuel], h.ox + [rd.ox])
  }

  /** The whole drain loop over the parsed queue `ps`; `clock[k]` is the clock
      reading while line `k` is handled. */
  function Drain(h: History, ps: seq<Option<Reading>>, clock: seq<int>): History
    requires |clock| == |ps|
    decreases |ps|
  {
    if ps == [] then h
    else
      var n := |ps| - 1;
      Ingest(Drain(h, ps[..n], clock[..n]), ps[n], clock[n])
  }

  /** Ingesting a line keeps the history aligned. */
  lemma IngestAligned(h: History, p: Option<Reading>, nowMs: int)
    requires Aligned(h)
    ensures Aligned(Ingest(h, p, nowMs))
  {
  }

  /** The whole drain keeps the history aligned. */
  lemma {:induction false} DrainAligned(h: History, ps: seq<Option<Reading>>, clock: seq<int>)
    requires |clock| == |ps| && Aligned(h)
    ensures Aligned(Drain(h, ps, clock))
    decreases |ps|
  {
    if ps != [] {
      var n := |ps| - 1;
      DrainAligned(h, ps[..n], clock[..n]);
      IngestAligned(Drain(h, ps[..n], clock[..n]), ps[n], clock[n]);
    }
  }

  /** Draining one more line ingests it on top of what was drained before. */
  lemma DrainSnoc(h: History, ps: seq<Option<Reading>>, clock: seq<int>, p: Option<Reading>, t: int)
    requires |clock| == |ps|
    ensures Drain(h, ps + [p], clock + [t]) == Ingest(Drain(h, ps, clock), p, t)
  {
    assert (ps + [p])[..|ps|] == ps;
    assert (clock + [t])[..|ps|] == clock;
  }

  /** Draining the first `i + 1` lines of a queue is draining the first `i`
      and then ingesting line `i`. */
  lemma DrainPrefixStep(h: History, lines: seq<string>, clock: seq<int>, i: nat)
    requires i < |lines| == |clock|
    ensures Drain(h, ParseAll(lines[..i + 1]), clock[..i + 1]) ==
            Ingest(Drain(h, ParseAll(lines[..i]), clock[..i]), ParseReading(lines[i]), clock[i])
    ensures Readings(ParseAll(lines[..i + 1])) != [] <==>
            Readings(ParseAll(lines[..i])) != [] || ParseReading(lines[i]).Some?
  {
    var done := ParseAll(lines[..i]);
    assert lines[..i + 1][..i] == lines[..i];
    assert ParseAll(lines[..i + 1]) == done + [ParseReading(lines[i])];
    assert clock[..i + 1] == clock[..i] + [clock[i]];
    DrainSnoc(h, done, clock[..i], ParseReading(lines[i]), clock[i]);
    ReadingsSnoc(done, ParseReading(lines[i]));
  }

  /** The drain only appends: the old history is kept as a prefix, and the
      positions added are exactly those of the accepted lines, in queue order. */
  lemma {:induction false} DrainAppends(h: History, ps: seq<Option<Reading>>, clock: seq<int>)
    requires |clock| == |ps|
    ensures var d, rs := Drain(h, ps, clock), Readings(ps);
            d.ox == h.ox + OxColumn(rs) && d.fuel == h.fuel + FuelColumn(rs) &&
            |d.time| == |h.time| + |rs| && d.time[..|h.time|] == h.time
    decreases |ps|
  {
    if ps == [] {
      assert h.ox + [] == h.ox && h.fuel + [] == h.fuel;
    } else {
      var n := |ps| - 1;
      DrainAppends(h, ps[..n], clock[..n]);
      assert ps == ps[..n] + [ps[n]];
      ReadingsSnoc(ps[..n], ps[n]);
      var rs := Readings(ps[..n]);
      match ps[n]
      case None =>
      case Some(rd) =>
        assert OxColumn(rs + [rd]) == OxColumn(rs) + [rd.ox];
        assert FuelColumn(rs + [rd]) == FuelColumn(rs) + [rd.fuel];
    }
  }

  /** The time origin is fixed once: a history that has one keeps it, and one
      that has none gets one exactly when some line is accepted. */
  lemma {:induction false} DrainStart(h: History, ps: seq<Option<Reading>>, clock: seq<int>)
    requires |clock| == |ps|
    ensures h.start.Some? ==> Drain(h, ps, clock).start == h.start
    ensures h.start.None? ==> (Drain(h, ps, clock).start.None? <==> Readings(ps) == [])
    decreases |ps|
  {
    if ps != [] {
      var n := |ps| - 1;
      DrainStart(h, ps[..n], clock[..n]);
      assert ps == ps[..n] + [ps[n]];
      ReadingsSnoc(ps[..n], ps[n]);
    }
  }

  predicate Sorted(s: seq<int>) {
    forall i, j :: 0 <= i < j < |s| ==> s[i] <= s[j]
  }

  /** A clock reading no earlier than the last sample's time stamp. */
  predicate ClockAfter(h: History, nowMs: int) {
    h.start.Some? && h.time != [] ==> h.time[|h.time| - 1] <= nowMs - h.start.value
  }

  /** One ingest at a clock reading no earlier than the last time stamp
      keeps the time stamps in order. */
  lemma IngestMonotone(h: History, p: Option<Reading>, nowMs: int)
    requires Aligned(h) && Sorted(h.time) && ClockAfter(h, nowMs)
    ensures var d := Ingest(h, p, nowMs); Sorted(d.time) && ClockAfter(d, nowMs)
  {
    if p.Some? {
      var t := nowMs - h.start.GetOr(nowMs);
      var d := Ingest(h, p, nowMs);
      assert d.time == h.time + [t];
      assert forall i :: 0 <= i < |h.time| ==> h.time[i] <= t by {
        if h.time != [] {
          assert h.time[|h.time| - 1] <= t;
        }
      }
    }
  }

  /** With a clock that never goes back, time stamps never decrease and are
      never negative, so the history is in time order. */
  lemma {:induction false} DrainMonotone(h: History, ps: seq<Option<Reading>>, clock: seq<int>)
    requires |clock| == |ps| && Aligned(h) && Sorted(h.time) && Sorted(clock)
    requires clock != [] ==> ClockAfter(h, clock[0])
    ensures var d := Drain(h, ps, clock);
            Sorted(d.time) && (forall i :: 0 <= i < |d.time| ==> 0 <= d.time[i]) &&
            (clock != [] ==> ClockAfter(d, clock[|clock| - 1]))
    decreases |ps|
  {
    var d := Drain(h, ps, clock);
    DrainAligned(h, ps, clock);
    if ps != [] {
      var n := |ps| - 1;
      var p := Drain(h, ps[..n], clock[..n]);
      DrainAligned(h, ps[..n], clock[..n]);
      DrainMonotone(h, ps[..n], clock[..n]);
      assert ClockAfter(p, clock[n]) by {
        if n > 0 {
          assert ClockAfter(p, clock[n - 1]);
          assert clock[n - 1] <= clock[n];
        }
      }
      IngestMonotone(p, ps[n], clock[n]);
    }
    assert d.time != [] ==> forall i :: 0 <= i < |d.time| ==> d.time[0] <= d.time[i];
  }

  // ---------------------------------------------------------------------
  // Decimation for drawing

  /** `TARGET_DRAW_POINTS`. */
  const TargetDrawPoints: nat := 2000

  /** `max(1, n // TARGET_DRAW_POINTS)`. */
  function Stride(n: nat): (k: nat)
    ensures k >= 1
  {
    if n / TargetDrawPoints > 1 then n / TargetDrawPoints else 1
  }

  lemma MulMono(x: int, y: int, d: nat)
    requires x <= y
    ensures x * d <= y * d
  {
    assert (y - x) * d >= 0;
    assert (y - x) * d == y * d - x * d;
  }

  lemma DivLower(a: int, d: int, k: int)
    requires d > 0 && k * d <= a
    ensures k <= a / d
  {
    var q, m := a / d, a % d;
    assert a == q * d + m && m < d;
    if q < k {
      MulMono(q, k - 1, d);
      assert false;
    }
  }

  lemma DivUpper(a: int, d: int, k: int)
    requires d > 0 && 0 <= a < k * d
    ensures a / d < k
  {
    var q, m := a / d, a % d;
    assert a == q * d + m && 0 <= m;
    if q >= k {
      MulMono(k, q, d);
      assert false;
    }
  }

  lemma DivStep(x: nat, d: nat)
    requires d > 0
    ensures (x + d) / d == x / d + 1
  {
    var q, m := x / d, x % d;
    assert x == q * d + m;
    assert x + d == (q + 1) * d + m;
    DivLower(x + d, d, q + 1);
    DivUpper(x + d, d, q + 2);
  }

  /** `s[::step]`: every `step`-th element, starting with the first. */
  function EveryNth<T>(s: seq<T>, step: nat): (r: seq<T>)
    requires step >= 1
    ensures |r| == (|s| + step - 1) / step
    decreases |s|
  {
    if s == [] then []
    else if |s| <= step then
      DivLower(|s| + step - 1, step, 1);
      DivUpper(|s| + step - 1, step, 2);
      [s[0]]
    else
      DivStep(|s| - 1, step);
      [s[0]] + EveryNth(s[step..], step)
  }

  /** Element `i` of `s[::step]` is element `i * step` of `s`. */
  lemma {:induction false} EveryNthAt<T>(s: seq<T>, step: nat, i: nat)
    requires step >= 1 && i < |EveryNth(s, step)|
    ensures i * step < |s| && EveryNth(s, step)[i] == s[i * step]
    decreases |s|
  {
    if i > 0 {
      assert |s| > step;
      EveryNthAt(s[step..], step, i - 1);
      assert (i - 1) * step + step == i * step;
    }
  }

  /** The number of points drawn for a history of length `n`. */
  function DrawnCount(n: nat): nat {
    if n <= TargetDrawPoints then n else (n + Stride(n) - 1) / Stride(n)
  }

  /** The series handed to the plot: the whole history when it has at most
      `TargetDrawPoints` entries, every `Stride`-th entry otherwise. */
  function Decimate<T>(s: seq<T>): seq<T> {
    if |s| <= TargetDrawPoints then s else EveryNth(s, Stride(|s|))
  }

  /** The number of points drawn depends only on the number recorded. */
  lemma DecimateLength<T>(s: seq<T>)
    ensures |Decimate(s)| == DrawnCount(|s|)
  {
  }

  /** Series of equal length stay of equal length once decimated. */
  lemma DecimateSameLength<T, U>(a: seq<T>, b: seq<U>)
    requires |a| == |b|
    ensures |Decimate(a)| == |Decimate(b)|
  {
    DecimateLength(a);
    DecimateLength(b);
  }

  /** A history of more than `TargetDrawPoints` entries is thinned with
      stride `n / TargetDrawPoints` to between 2000 and 3999 points. */
  lemma DecimatedCount(n: nat)
    requires n > TargetDrawPoints
    ensures Stride(n) == n / TargetDrawPoints
    ensures TargetDrawPoints <= DrawnCount(n) < 2 * TargetDrawPoints
  {
    var k, m := n / 2000, n % 2000;
    assert n == 2000 * k + m && 0 <= m < 2000 && k >= 1;
    assert Stride(n) == k;
    DivLower(n + k - 1, k, 2000);
    DivUpper(n + k - 1, k, 4000);
  }

  /** Of a long history, the entries drawn are those at multiples of the stride. */
  lemma DecimateAt<T>(s: seq<T>)
    requires |s| > TargetDrawPoints
    ensures forall i :: 0 <= i < |Decimate(s)| ==> i * Stride(|s|) < |s| && Decimate(s)[i] == s[i * Stride(|s|)]
  {
    var k := Stride(|s|);
    var r := Decimate(s);
    assert r == EveryNth(s, k);
    forall i | 0 <= i < |r|
      ensures i * k < |s| && r[i] == s[i * k]
    {
      EveryNthAt(s, k, i);
    }
  }

  /** What gets drawn: all of a short history; of a long one, the entries at
      multiples of the stride, between 2000 and 3999 of them. */
  lemma DecimateShape<T>(s: seq<T>)
    ensures |s| <= TargetDrawPoints ==> Decimate(s) == s
    ensures |s| > TargetDrawPoints ==>
              TargetDrawPoints <= |Decimate(s)| < 2 * TargetDrawPoints &&
              forall i :: 0 <= i < |Decimate(s)| ==> i * Stride(|s|) < |s| && Decimate(s)[i] == s[i * Stride(|s|)]
  {
    if |s| > TargetDrawPoints {
      DecimatedCount(|s|);
      DecimateLength(s);
      DecimateAt(s);
    }
  }

  /** Below twice the target the stride is 1, so the whole history is drawn. */
  lemma DecimateBelowTwiceTarget<T>(s: seq<T>)
    requires |s| < 2 * TargetDrawPoints
    ensures Decimate(s) == s
  {
    if |s| > TargetDrawPoints {
      assert Stride(|s|) == 1;
      var r := Decimate(s);
      assert |r| == |s|;
      forall i | 0 <= i < |s|
        ensures r[i] == s[i]
      {
        EveryNthAt(s, 1, i);
      }
    }
  }

  // ---------------------------------------------------------------------
  // Operator commands

  /** The four buttons; `Ignition` starts disabled. */
  datatype Button = CycleOx | CycleFuel | Ignition | Increment

  /** The payload a button sends: no newline is added. */
  function ButtonCommand(b: Button): string {
    match b
    case CycleOx => "cycleoxvalve 2"
    case CycleFuel => "cyclefuelvalve 2"
    case Ignition => "ignseq 15"
    case Increment => "incrementopen"
  }

  /** The code that enables the ignition button. */
  const IgnitionCode: string := "6969"

  /** `return_pressed`'s treatment of the typed text: the stripped text, which
      must be non-empty, with a newline appended unless it already ends in one. */
  function NormaliseCommand(text: string): (r: Option<string>)
    ensures r.None? <==> Strip(text) == []
    ensures r.Some? ==> r.value == Strip(text) + "\n"
  {
    StripEnds(text);
    var command := Strip(text);
    if command == [] then None
    else if command[|command| - 1] == '\n' then Some(command)
    else Some(command + "\n")
  }

  // ---------------------------------------------------------------------
  // The window

  class MainWindow {
    /** `self.arduino`: the link the window reads from and sends to. */
    const link: ArduinoConnection
    var startMs: Option<int>
    var dataTime: seq<int>
    var fuelPos: seq<int>
    var oxPos: seq<int>
    /** Whether the ignition-sequence button is enabled. */
    var ignitionEnabled: bool
    /** The text in the command line edit. */
    var inputText: string
    /** The x values last given to both curves, and the two y series. */
    var plotTime: seq<int>
    var plotFuel: seq<int>
    var plotOx: seq<int>

    function Recorded(): History
      reads this
    {
      History(startMs, dataTime, fuelPos, oxPos)
    }

    ghost predicate Valid()
      reads this, link
    {
      link.Valid() && Aligned(Recorded()) && |plotTime| == |plotFuel| == |plotOx|
    }

    constructor (connection: ArduinoConnection)
      requires connection.Valid()
      ensures Valid() && link == connection
      ensures startMs == None && dataTime == [] && fuelPos == [] && oxPos == []
      ensures !ignitionEnabled && inputText == []
      ensures plotTime == [] && plotFuel == [] && plotOx == []
    {
      link := connection;
      startMs := None;
      dataTime, fuelPos, oxPos := [], [], [];
      ignitionEnabled := false;
      inputText := [];
      plotTime, plotFuel, plotOx := [], [], [];
    }

    /** One accepted sample joins the history (the end of the drain loop's
        body): the first one fixes the time origin at `nowMs`. */
    method RecordSample(rd: Reading, nowMs: int)
      requires Aligned(Recorded())
      modifies this
      ensures Aligned(Recorded())
      ensures Recorded() == Ingest(old(Recorded()), Some(rd), nowMs)
      ensures ignitionEnabled == old(ignitionEnabled) && inputText == old(inputText)
      ensures plotTime == old(plotTime) && plotFuel == old(plotFuel) && plotOx == old(plotOx)
    {
      if startMs.None? {
        startMs := Some(nowMs);
      }
      var elapsed := nowMs - startMs.value;
      dataTime := dataTime + [elapsed];
      fuelPos := fuelPos + [rd.fuel];
      oxPos := oxPos + [rd.ox];
    }

    /** The operator edits the command line. */
    method SetInputText(text: string)
      requires Valid()
      modifies this
      ensures Valid() && inputText == text
      ensures Recorded() == old(Recorded()) && ignitionEnabled == old(ignitionEnabled)
      ensures plotTime == old(plotTime) && plotFuel == old(plotFuel) && plotOx == old(plotOx)
    {
      inputText := text;
    }

    /** A button click sends that button's command as it is; a click on the
        ignition button while it is disabled does nothing. */
    method ButtonClicked(b: Button)
      requires Valid()
      modifies link
      ensures Valid()
      ensures b == Ignition && !ignitionEnabled ==> unchanged(link)
      ensures b != Ignition || ignitionEnabled ==>
                link.writerQueue == old(link.writerQueue) + [ButtonCommand(b)] &&
                link.sent == old(link.sent) + [ButtonCommand(b)]
      ensures link.connected == old(link.connected) && link.threadsStarted == old(link.threadsStarted)
      ensures link.stopFlag == old(link.stopFlag) && link.lastLogTime == old(link.lastLogTime)
      ensures link.readerQueue == old(link.readerQueue) && link.log == old(link.log) && link.written == old(link.written)
      ensures link.logTimes == old(link.logTimes)
    {
      if b == Ignition && !ignitionEnabled {
        return;
      }
      link.Send(ButtonCommand(b));
    }

    /** `return_pressed`: typing the ignition code enables the ignition button
        for good; a blank line sends nothing and stays in the box; any other
        line is sent once, stripped and ending in one newline, and the box is
        cleared. */
    method ReturnPressed()
      requires Valid()
      modifies this, link
      ensures Valid()
      ensures ignitionEnabled == (old(ignitionEnabled) || Strip(old(inputText)) == IgnitionCode)
      ensures Strip(old(inputText)) == [] ==> inputText == old(inputText) && unchanged(link)
      ensures Strip(old(inputText)) != [] ==>
                inputText == [] &&
                link.writerQueue == old(link.writerQueue) + [Strip(old(inputText)) + "\n"] &&
                link.sent == old(link.sent) + [Strip(old(inputText)) + "\n"]
      ensures Recorded() == old(Recorded())
      ensures plotTime == old(plotTime) && plotFuel == old(plotFuel) && plotOx == old(plotOx)
      ensures link.connected == old(link.connected) && link.threadsStarted == old(link.threadsStarted)
      ensures link.stopFlag == old(link.stopFlag) && link.lastLogTime == old(link.lastLogTime)
      ensures link.readerQueue == old(link.readerQueue) && link.log == old(link.log) && link.written == old(link.written)
      ensures link.logTimes == old(link.logTimes)
    {
      var command := Strip(inputText);
      if command == IgnitionCode {
        ignitionEnabled := true;
      }
      var payload := NormaliseCommand(inputText);
      if payload.None? {
        return;
      }
      link.Send(payload.value);
      inputText := [];
    }

    /** The drain loop's body for one dequeued line read at `nowMs`: an
        empty line is skipped, a line that parses becomes a sample, any
        other line is dropped. */
    method ConsumeLine(raw: string, nowMs: int) returns (accepted: bool)
      requires Aligned(Recorded())
      modifies this
      ensures Aligned(Recorded())
      ensures accepted <==> ParseReading(raw).Some?
      ensures Recorded() == Ingest(old(Recorded()), ParseReading(raw), nowMs)
      ensures ignitionEnabled == old(ignitionEnabled) && inputText == old(inputText)
      ensures plotTime == old(plotTime) && plotFuel == old(plotFuel) && plotOx == old(plotOx)
    {
      if raw == [] {
        ParseEmpty();
        return false;
      }
      var parsed := ParseReading(raw);
      accepted := parsed.Some?;
      if accepted {
        RecordSample(parsed.value, nowMs);
      }
    }

    /** One pass of the drain loop: the front line of the reader queue, if
        any, is taken off and ingested with the clock reading `nowMs`. `more`
        is false when the queue was empty (`queue.Empty`). */
    method TakeLine(nowMs: int) returns (more: bool, accepted: bool)
      requires Aligned(Recorded())
      modifies this, link
      ensures Aligned(Recorded())
      ensures more <==> old(link.readerQueue) != []
      ensures !more ==> !accepted && Recorded() == old(Recorded()) && link.readerQueue == []
      ensures more ==> link.readerQueue == old(link.readerQueue)[1..] &&
                       (accepted <==> ParseReading(old(link.readerQueue)[0]).Some?) &&
                       Recorded() == Ingest(old(Recorded()), ParseReading(old(link.readerQueue)[0]), nowMs)
      ensures ignitionEnabled == old(ignitionEnabled) && inputText == old(inputText)
      ensures plotTime == old(plotTime) && plotFuel == old(plotFuel) && plotOx == old(plotOx)
      ensures link.Rest() == old(link.Rest())
    {
      var item := link.PollReaderQueue();
      if item.None? {
        return false, false;
      }
      more := true;
      accepted := ConsumeLine(item.value, nowMs);
    }

    /** The drain loop of `update_graph`: takes every line off the reader
        queue, front to back, and ingests it (`clock[k]` is the clock reading
        while line `k` is handled). The result says whether any line was
        accepted. */
    method DrainReaderQueue(clock: seq<int>) returns (updated: bool)
      requires link.Valid() && Aligned(Recorded()) && |clock| == |link.readerQueue|
      modifies this, link
      ensures link.Valid() && Aligned(Recorded())
      ensures link.readerQueue == []
      ensures Recorded() == Drain(old(Recorded()), ParseAll(old(link.readerQueue)), clock)
      ensures updated <==> Readings(ParseAll(old(link.readerQueue))) != []
      ensures ignitionEnabled == old(ignitionEnabled) && inputText == old(inputText)
      ensures plotTime == old(plotTime) && plotFuel == old(plotFuel) && plotOx == old(plotOx)
      ensures link.Rest() == old(link.Rest())
    {
      ghost var lines := link.readerQueue;
      ghost var h0 := Recorded();
      updated := false;
      var i := 0;
      while true
        invariant 0 <= i <= |lines| && link.readerQueue == lines[i..]
        invariant Aligned(Recorded())
        invariant Recorded() == Drain(h0, ParseAll(lines[..i]), clock[..i])
        invariant updated <==> Readings(ParseAll(lines[..i])) != []
        invariant ignitionEnabled == old(ignitionEnabled) && inputText == old(inputText)
        invariant plotTime == old(plotTime) && plotFuel == old(plotFuel) && plotOx == old(plotOx)
        invariant link.Rest() == old(link.Rest())
        decreases |lines| - i
      {
        var nowMs := if i < |clock| then clock[i] else 0;
        var more, accepted := TakeLine(nowMs);
        if !more {
          break;
        }
        DrainPrefixStep(h0, lines, clock, i);
        updated := updated || accepted;
        i := i + 1;
      }
      assert lines[..i] == lines;
      assert clock[..i] == clock;
    }

    /** The end of `update_graph`: both curves get the decimated history. */
    method Redraw()
      requires Aligned(Recorded())
      modifies this
      ensures Aligned(Recorded()) && |plotTime| == |plotFuel| == |plotOx|
      ensures plotTime == Decimate(dataTime) && plotFuel == Decimate(fuelPos) && plotOx == Decimate(oxPos)
      ensures Recorded() == old(Recorded())
      ensures ignitionEnabled == old(ignitionEnabled) && inputText == old(inputText)
    {
      DecimateSameLength(dataTime, fuelPos);
      DecimateSameLength(dataTime, oxPos);
      plotTime := Decimate(dataTime);
      plotFuel := Decimate(fuelPos);
      plotOx := Decimate(oxPos);
    }

    /** `update_graph`: drains the reader queue and, when at least one line
        was accepted, hands the decimated history to the plot; otherwise the
        plot is left as it was. */
    method UpdateGraph(clock: seq<int>)
      requires Valid() && |clock| == |link.readerQueue|
      modifies this, link
      ensures Valid()
      ensures link.readerQueue == []
      ensures Recorded() == Drain(old(Recorded()), ParseAll(old(link.readerQueue)), clock)
      ensures Readings(ParseAll(old(link.readerQueue))) == [] ==>
                plotTime == old(plotTime) && plotFuel == old(plotFuel) && plotOx == old(plotOx)
      ensures Readings(ParseAll(old(link.readerQueue))) != [] ==>
                plotTime == Decimate(dataTime) && plotFuel == Decimate(fuelPos) && plotOx == Decimate(oxPos)
      ensures ignitionEnabled == old(ignitionEnabled) && inputText == old(inputText)
      ensures link.Rest() == old(link.Rest())
    {
      var updated := DrainReaderQueue(clock);
      if updated {
        Redraw();
      }
    }
  }
}
