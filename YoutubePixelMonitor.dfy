/**
 * YoutubePixelMonitor: within a daily time window it grabs a frame every
 * second, measures the mean luma of a fixed 50x50 region (clamped to the
 * frame), and prints a message on a rising edge, when the previous measured
 * value was below 200 and the new one is at least 200. The previous value is
 * the only state; it survives the cycles the window gate or a missing frame
 * skips. Any exception inside the loop ends the monitoring.
 */
module YoutubePixelMonitor {
  import opened Wrappers
  import opened Pixels
  import opened Raster

  const RegionX: int := 200
  const RegionY: int := 150
  const RegionWidth: int := 50
  const RegionHeight: int := 50

  /** A rising edge is a step from below this value to this value or above. */
  const BrightnessThreshold: int := 200

  const IntMin: int := -0x8000_0000
  const IntMax: int := 0x7FFF_FFFF

  /** A value of Java's 32-bit `int`. */
  predicate IsInt(v: int)
  {
    IntMin <= v <= IntMax
  }

  /** Java's `int` addition: the exact sum brought back into range modulo 2^32. */
  function AddInt(a: int, b: int): (s: int)
    requires IsInt(a) && IsInt(b)
    ensures IsInt(s)
    ensures (s - (a + b)) % 0x1_0000_0000 == 0
    ensures IsInt(a + b) ==> s == a + b
  {
    var t := a + b;
    if t > IntMax then t - 0x1_0000_0000 else if t < IntMin then t + 0x1_0000_0000 else t
  }

  function Min(a: int, b: int): int
  {
    if a <= b then a else b
  }

  /**
   * The per-pixel luma `0.299 * red + 0.587 * green + 0.114 * blue` as the
   * `long` accumulator receives it: truncated toward zero, here computed
   * exactly in integers.
   */
  function Luma(p: Pixel): (l: nat)
    ensures l <= 255
  {
    (299 * Red(p) + 587 * Green(p) + 114 * Blue(p)) / 1000
  }

  /** The number of indices from lo up to, but not including, hi. */
  function Extent(lo: int, hi: int): nat
  {
    if hi <= lo then 0 else hi - lo
  }

  /** `Math.min(start + size, limit)` with the `int` addition. */
  function RegionEnd(start: int, size: int, limit: nat): int
    requires IsInt(start) && IsInt(size)
  {
    Min(AddInt(start, size), limit)
  }

  /** Arguments with which `getRGB` is never asked for a negative coordinate. */
  predicate ValidRegion(x: int, y: int, w: int, h: int)
  {
    0 <= x <= IntMax && 0 <= y <= IntMax && IsInt(w) && IsInt(h)
  }

  /** How many columns the clamped region covers: those i with x <= i < min(x + w, width). */
  function RegionColumns(img: Frame, x: int, w: int): (c: nat)
    requires 0 <= x <= IntMax && IsInt(w)
    ensures c > 0 ==> x + c == RegionEnd(x, w, img.width) <= img.width
  {
    Extent(x, RegionEnd(x, w, img.width))
  }

  /** How many rows the clamped region covers: those j with y <= j < min(y + h, height). */
  function RegionRows(img: Frame, y: int, h: int): (r: nat)
    requires 0 <= y <= IntMax && IsInt(h)
    ensures r > 0 ==> y + r == RegionEnd(y, h, img.height) <= img.height
  {
    Extent(y, RegionEnd(y, h, img.height))
  }

  /** `pixelCount` after the loops: the clamped region's area. */
  function RegionCount(img: Frame, x: int, y: int, w: int, h: int): nat
    requires ValidRegion(x, y, w, h)
  {
    RegionColumns(img, x, w) * RegionRows(img, y, h)
  }

  /** The value `calculateRegionBrightness` returns: 0 for an empty region, else the integer mean of the truncated lumas. */
  function RegionBrightness(img: Frame, x: int, y: int, w: int, h: int): (avg: nat)
    requires ValidRegion(x, y, w, h)
    ensures RegionCount(img, x, y, w, h) == 0 ==> avg == 0
  {
    var cols, rows := RegionColumns(img, x, w), RegionRows(img, y, h);
    if cols * rows == 0 then 0
    else Block(Luma, img, x, x + cols, y, y + rows) / (cols * rows)
  }

  /** `calculateRegionBrightness`: nested loops over the clamped region adding lumas and counting pixels. */
  method CalculateRegionBrightness(img: Frame, x: int, y: int, w: int, h: int) returns (avg: nat)
    requires ValidRegion(x, y, w, h)
    ensures avg == RegionBrightness(img, x, y, w, h)
  {
    var maxX := Min(AddInt(x, w), img.width);
    var maxY := Min(AddInt(y, h), img.height);
    ghost var cols, rows := Extent(x, maxX), Extent(y, maxY);
    assert cols == RegionColumns(img, x, w) && rows == RegionRows(img, y, h);
    var totalBrightness, pixelCount := 0, 0;
    var j := y;
    while j < maxY
      invariant y <= j <= y + rows
      invariant pixelCount == cols * (j - y)
      invariant cols > 0 && rows > 0 ==> totalBrightness == Block(Luma, img, x, maxX, y, j)
      invariant cols == 0 || rows == 0 ==> totalBrightness == 0
    {
      totalBrightness, pixelCount := AddRow(img, j, x, maxX, totalBrightness, pixelCount);
      NextRow(cols, j - y);
      j := j + 1;
    }
    assert j == y + rows && (cols > 0 ==> maxX == x + cols);
    RegionTotals(img, x, y, w, h, cols, rows, totalBrightness, pixelCount);
    avg := if pixelCount == 0 then 0 else totalBrightness / pixelCount;
  }

  /** The totals the loops end with give `RegionBrightness` under the source's zero-count guard. */
  lemma RegionTotals(img: Frame, x: int, y: int, w: int, h: int, cols: nat, rows: nat, total: nat, count: nat)
    requires ValidRegion(x, y, w, h)
    requires cols == RegionColumns(img, x, w) && rows == RegionRows(img, y, h)
    requires count == cols * rows
    requires cols > 0 && rows > 0 ==> total == Block(Luma, img, x, x + cols, y, y + rows)
    ensures (if count == 0 then 0 else total / count) == RegionBrightness(img, x, y, w, h)
  {
  }

  /** The inner loop of `calculateRegionBrightness`: row j, columns x up to maxX. */
  method AddRow(img: Frame, j: nat, x: nat, maxX: int, total: nat, count: nat) returns (total': nat, count': nat)
    requires j < img.height && maxX <= img.width
    ensures count' == count + Extent(x, maxX)
    ensures total' == total + if maxX <= x then 0 else Span(Luma, img, j, x, maxX)
  {
    total', count' := total, count;
    var i := x;
    while i < maxX
      invariant i == x || x < i <= maxX
      invariant count' == count + (i - x)
      invariant total' == total + if i == x then 0 else Span(Luma, img, j, x, i)
    {
      total' := total' + Luma(At(img, i, j));
      count' := count' + 1;
      i := i + 1;
    }
  }

  lemma NextRow(cols: nat, done: nat)
    ensures cols * done + cols == cols * (done + 1)
  {
  }

  lemma NatQuotientAtMost(s: nat, n: nat, bound: nat)
    requires n > 0 && s <= bound * n
    ensures s / n <= bound
  {
    assert (s / n) * n <= s;
  }

  /** The measured value is a whole number in [0, 255]. */
  lemma RegionBrightnessInRange(img: Frame, x: int, y: int, w: int, h: int)
    requires ValidRegion(x, y, w, h)
    ensures RegionBrightness(img, x, y, w, h) <= 255
  {
    var cols, rows := RegionColumns(img, x, w), RegionRows(img, y, h);
    if cols * rows > 0 {
      BlockBound(Luma, img, x, x + cols, y, y + rows, 255);
      NatQuotientAtMost(Block(Luma, img, x, x + cols, y, y + rows), cols * rows, 255);
    }
  }

  /** A region that starts at or past the right or bottom edge reads no pixel, and the guard makes the result 0. */
  lemma RegionPastEdgeIsZero(img: Frame, x: int, y: int, w: int, h: int)
    requires ValidRegion(x, y, w, h)
    requires x >= img.width || y >= img.height
    ensures RegionCount(img, x, y, w, h) == 0 && RegionBrightness(img, x, y, w, h) == 0
  {
  }

  /** A region that fits in the frame is read in full: w * h pixels. The frame's dimensions are Java `int`s. */
  lemma RegionInsideFrame(img: Frame, x: int, y: int, w: int, h: int)
    requires img.width <= IntMax && img.height <= IntMax
    requires ValidRegion(x, y, w, h) && w >= 0 && h >= 0
    requires x + w <= img.width && y + h <= img.height
    ensures RegionColumns(img, x, w) == w && RegionRows(img, y, h) == h
    ensures RegionCount(img, x, y, w, h) == w * h
  {
  }

  /** A width so large that `x + w` wraps to a negative `int` clamps the region to nothing. */
  lemma WrappedWidthReadsNothing(img: Frame, x: int, y: int, w: int, h: int)
    requires ValidRegion(x, y, w, h) && x + w > IntMax
    ensures RegionColumns(img, x, w) == 0 && RegionBrightness(img, x, y, w, h) == 0
  {
  }

  /** The fixed region: 50 x 50 pixels on frames of at least 250 x 200, nothing on frames at most 200 wide or 150 high. */
  lemma DefaultRegion(img: Frame)
    ensures img.width >= 250 && img.height >= 200 ==> RegionCount(img, RegionX, RegionY, RegionWidth, RegionHeight) == 2500
    ensures img.width <= 200 || img.height <= 150 ==> RegionBrightness(img, RegionX, RegionY, RegionWidth, RegionHeight) == 0
  {
  }

  lemma GreyLuma(p: Pixel, v: nat)
    requires Grey(p, v)
    ensures Luma(p) == v
  {
    assert 299 * v + 587 * v + 114 * v == 1000 * v;
  }

  /** A non-empty region whose pixels all have r = g = b = v measures exactly v. */
  lemma UniformRegion(img: Frame, x: int, y: int, w: int, h: int, v: nat)
    requires ValidRegion(x, y, w, h) && RegionColumns(img, x, w) > 0 && RegionRows(img, y, h) > 0
    requires forall i, j :: x <= i < x + RegionColumns(img, x, w) && y <= j < y + RegionRows(img, y, h) ==> Grey(At(img, i, j), v)
    ensures RegionBrightness(img, x, y, w, h) == v
  {
    var cols, rows := RegionColumns(img, x, w), RegionRows(img, y, h);
    forall i, j | x <= i < x + cols && y <= j < y + rows
      ensures Luma(At(img, i, j)) == v
    {
      GreyLuma(At(img, i, j), v);
    }
    BlockUniform(Luma, img, x, x + cols, y, y + rows, v);
    var n := cols * rows;
    MulAtLeast(cols, rows);
    var total := v * n;
    assert total == v * n + 0;
    DivUnique(total, v, 0, n);
  }

  /** Integer division is determined by the quotient and remainder it must produce. */
  lemma DivUnique(x: int, m: int, r: int, n: int)
    requires n > 0 && 0 <= r < n && x == m * n + r
    ensures x / n == m
  {
    var q, s := x / n, x % n;
    assert x == q * n + s;
    assert (q - m) * n == r - s;
    if q > m {
      MulAtLeast(q - m, n);
    } else if q < m {
      MulAtLeast(m - q, n);
    }
  }

  lemma MulAtLeast(k: int, n: int)
    requires k >= 1 && n > 0
    ensures k * n >= n
  {
  }

  // ---------------------------------------------------------------------
  // Time of day and the window gate

  const NanosPerDay: int := 86_400_000_000_000
  const NanosPerMinute: int := 60_000_000_000

  /** A `LocalTime`, as its nanosecond of the day; `isBefore` and `isAfter` compare exactly these. */
  type TimeOfDay = t: int | 0 <= t < NanosPerDay

  /** `LocalTime.of(hour, minute)`; `None` where it throws a `DateTimeException`. */
  function LocalTimeOf(hour: int, minute: int): (t: Option<TimeOfDay>)
    ensures t.Some? <==> 0 <= hour < 24 && 0 <= minute < 60
  {
    if 0 <= hour < 24 && 0 <= minute < 60 then Some((hour * 60 + minute) * NanosPerMinute) else None
  }

  /** The gate lets a cycle through unless `currentTime.isBefore(startTime) || currentTime.isAfter(endTime)`. */
  predicate InWindow(now: TimeOfDay, start: TimeOfDay, end: TimeOfDay): (open: bool)
    ensures open <==> start <= now <= end
  {
    !(now < start) && !(now > end)
  }

  /** The gate is inclusive at both ends: it is open from start to end, those two instants included. */
  lemma WindowInclusive(now: TimeOfDay, start: TimeOfDay, end: TimeOfDay)
    ensures InWindow(now, start, end) <==> start <= now <= end
    ensures start <= end ==> InWindow(start, start, end) && InWindow(end, start, end)
  {
  }

  // ---------------------------------------------------------------------
  // The monitoring loop

  /** `LocalDateTime.now()`: a date (as a day number) and a time of day. */
  datatype DateTime = DateTime(date: int, time: TimeOfDay)

  /**
   * One pass of the loop: the `now` it reads, what `grabber.grabImage()` and
   * the conversion would yield (null, an exception, or a frame), and whether
   * the sleep that closes the pass is interrupted.
   */
  datatype Tick = Tick(now: DateTime, capture: Capture, interrupted: bool)

  /** After a pass: the new `prevBrightness`, the message printed (stamped with `now`), and whether the loop ended. */
  datatype Step = Step(prev: int, event: Option<DateTime>, halt: bool)

  /** The rising-edge rule: a step up across the threshold, never from a value already at or above it. */
  predicate Rises(prev: int, avg: int): (rises: bool)
    ensures rises ==> prev < avg
    ensures prev >= BrightnessThreshold || avg < BrightnessThreshold ==> !rises
    ensures prev < BrightnessThreshold <= avg ==> rises
  {
    prev < BrightnessThreshold && avg >= BrightnessThreshold
  }

  /** One pass: a message only for a measured frame, stamped with the pass's `now`; a skipped pass keeps the level. */
  function MonitorStep(start: TimeOfDay, end: TimeOfDay, prev: int, t: Tick): (s: Step)
    ensures s.event.Some? ==> InWindow(t.now.time, start, end) && t.capture.Captured? && s.event.value == t.now
    ensures !InWindow(t.now.time, start, end) || t.capture.NoFrame? ==> s == Step(prev, None, t.interrupted)
    ensures s.halt <==> t.interrupted || (InWindow(t.now.time, start, end) && t.capture.CaptureError?)
  {
    if !InWindow(t.now.time, start, end) then Step(prev, None, t.interrupted)
    else match t.capture
      case NoFrame => Step(prev, None, t.interrupted)
      case CaptureError => Step(prev, None, true)
      case Captured(img) =>
        var avg := RegionBrightness(img, RegionX, RegionY, RegionWidth, RegionHeight);
        Step(avg, if Rises(prev, avg) then Some(t.now) else None, t.interrupted)
  }

  /** The messages printed over a trace of passes, from the given `prevBrightness`, until the loop ends. */
  function MonitorRun(start: TimeOfDay, end: TimeOfDay, prev: int, ticks: seq<Tick>): seq<DateTime>
    decreases |ticks|
  {
    if ticks == [] then []
    else
      var s := MonitorStep(start, end, prev, ticks[0]);
      ToSeq(s.event) + if s.halt then [] else MonitorRun(start, end, s.prev, ticks[1..])
  }

  lemma MonitorRunFrom(start: TimeOfDay, end: TimeOfDay, prev: int, ticks: seq<Tick>, k: nat)
    requires k < |ticks|
    ensures MonitorRun(start, end, prev, ticks[k..])
         == var s := MonitorStep(start, end, prev, ticks[k]);
            ToSeq(s.event) + if s.halt then [] else MonitorRun(start, end, s.prev, ticks[k + 1..])
  {
    assert ticks[k..][0] == ticks[k] && ticks[k..][1..] == ticks[k + 1..];
  }

  /** One pass moves its message from the remaining run to the messages printed so far. */
  lemma AdvanceRun(start: TimeOfDay, end: TimeOfDay, prev: int, ticks: seq<Tick>, k: nat, s: Step, events: seq<DateTime>, whole: seq<DateTime>)
    requires k < |ticks| && s == MonitorStep(start, end, prev, ticks[k])
    requires events + MonitorRun(start, end, prev, ticks[k..]) == whole
    ensures s.halt ==> events + ToSeq(s.event) == whole
    ensures !s.halt ==> (events + ToSeq(s.event)) + MonitorRun(start, end, s.prev, ticks[k + 1..]) == whole
  {
    MonitorRunFrom(start, end, prev, ticks, k);
    if !s.halt {
      assert events + (ToSeq(s.event) + MonitorRun(start, end, s.prev, ticks[k + 1..])) == whole;
    }
  }

  /** The brightness a pass measures and the message it prints, read off the pass's own statements. */
  method Poll(start: TimeOfDay, end: TimeOfDay, prevBrightness: int, tick: Tick) returns (s: Step)
    ensures s == MonitorStep(start, end, prevBrightness, tick)
  {
    var currentTime := tick.now.time;
    if currentTime < start || currentTime > end {
      return Step(prevBrightness, None, tick.interrupted);
    }
    match tick.capture
    case NoFrame =>
      s := Step(prevBrightness, None, tick.interrupted);
    case CaptureError =>
      s := Step(prevBrightness, None, true);
    case Captured(image) =>
      var avgBrightness := CalculateRegionBrightness(image, RegionX, RegionY, RegionWidth, RegionHeight);
      var message := None;
      if prevBrightness < BrightnessThreshold && avgBrightness >= BrightnessThreshold {
        message := Some(tick.now);
      }
      s := Step(avgBrightness, message, tick.interrupted);
  }

  /** The static state of the program: the window `valitseAika` sets. */
  class PixelMonitor {
    var startTime: Option<TimeOfDay>
    var endTime: Option<TimeOfDay>

    /** Before `valitseAika` runs both static fields are null. */
    constructor ()
      ensures startTime == None && endTime == None
    {
      startTime, endTime := None, None;
    }

    /**
     * `valitseAika` ("choose the time") sets the window from the hours and
     * minutes and ignores the date. `ok` is false where `LocalTime.of` throws;
     * a valid start is then already stored while the end keeps its old value.
     */
    method ValitseAika(date: int, startHour: int, startMinute: int, endHour: int, endMinute: int) returns (ok: bool)
      modifies this
      ensures ok <==> LocalTimeOf(startHour, startMinute).Some? && LocalTimeOf(endHour, endMinute).Some?
      ensures startTime == if LocalTimeOf(startHour, startMinute).Some? then LocalTimeOf(startHour, startMinute) else old(startTime)
      ensures endTime == if ok then LocalTimeOf(endHour, endMinute) else old(endTime)
    {
      var s := LocalTimeOf(startHour, startMinute);
      if s.None? {
        return false;
      }
      startTime := s;
      var e := LocalTimeOf(endHour, endMinute);
      if e.None? {
        return false;
      }
      endTime := e;
      ok := true;
    }

    /**
     * `monitorPixels` over a finite trace of passes. `started` says whether
     * `grabber.start()` succeeded; if it throws, the loop never runs. With a
     * field still null the gate's comparison throws a `NullPointerException`
     * (with only the end null, at the first pass not before the start), which
     * the handler catches, before anything can be printed.
     */
    method MonitorPixels(started: bool, ticks: seq<Tick>) returns (events: seq<DateTime>)
      ensures events == if started && startTime.Some? && endTime.Some? then MonitorRun(startTime.value, endTime.value, 0, ticks) else []
    {
      events := [];
      if !started || startTime.None? || endTime.None? {
        return;
      }
      var start, end := startTime.value, endTime.value;
      var prevBrightness := 0;
      var k := 0;
      assert ticks[0..] == ticks;
      while k < |ticks|
        invariant 0 <= k <= |ticks|
        invariant events + MonitorRun(start, end, prevBrightness, ticks[k..]) == MonitorRun(start, end, 0, ticks)
      {
        var s := Poll(start, end, prevBrightness, ticks[k]);
        AdvanceRun(start, end, prevBrightness, ticks, k, s, events, MonitorRun(start, end, 0, ticks));
        events := events + ToSeq(s.event);
        if s.halt {
          break;
        }
        prevBrightness := s.prev;
        k := k + 1;
      }
    }
  }

  /** `main`: the window is set to 20:30-20:40 (the comment beside it speaks of 09:00-17:00). */
  method Setup(today: int) returns (m: PixelMonitor)
    ensures fresh(m)
    ensures m.startTime == Some(1230 * NanosPerMinute) && m.endTime == Some(1240 * NanosPerMinute)
  {
    m := new PixelMonitor();
    var ok := m.ValitseAika(today, 20, 30, 20, 40);
  }

  // ---------------------------------------------------------------------
  // What the loop sees: the sampled values, and the rising edges in them

  /** The (time, brightness) pairs of the passes that measured a frame, up to the end of the loop. */
  function Samples(start: TimeOfDay, end: TimeOfDay, ticks: seq<Tick>): seq<(DateTime, int)>
  {
    if ticks == [] then []
    else
      var t := ticks[0];
      var rest := if t.interrupted then [] else Samples(start, end, ticks[1..]);
      if !InWindow(t.now.time, start, end) then rest
      else match t.capture
        case NoFrame => rest
        case CaptureError => []
        case Captured(img) => [(t.now, RegionBrightness(img, RegionX, RegionY, RegionWidth, RegionHeight))] + rest
  }

  /** The stamps of the samples that rise to the threshold from below, starting from the level `prev`. */
  function RisingEdges<T>(prev: int, samples: seq<(T, int)>): seq<T>
    decreases |samples|
  {
    if samples == [] then []
    else (if Rises(prev, samples[0].1) then [samples[0].0] else []) + RisingEdges(samples[0].1, samples[1..])
  }

  /** The level after a run of samples: the last sample's value, or `prev` when there is none. */
  function LastLevel<T>(prev: int, samples: seq<(T, int)>): int
  {
    if samples == [] then prev else samples[|samples| - 1].1
  }

  /**
   * The loop prints exactly at the rising edges of the sampled values:
   * skipped passes (outside the window, or without a frame) neither print nor
   * change `prevBrightness`, so the comparison is always with the last value
   * actually measured, however long ago.
   */
  lemma {:induction false} RunIsRisingEdgesOfSamples(start: TimeOfDay, end: TimeOfDay, prev: int, ticks: seq<Tick>)
    ensures MonitorRun(start, end, prev, ticks) == RisingEdges(prev, Samples(start, end, ticks))
    decreases |ticks|
  {
    if ticks != [] {
      var t := ticks[0];
      var s := MonitorStep(start, end, prev, t);
      if !s.halt {
        RunIsRisingEdgesOfSamples(start, end, s.prev, ticks[1..]);
      }
      if InWindow(t.now.time, start, end) && t.capture.Captured? {
        var avg := RegionBrightness(t.capture.frame, RegionX, RegionY, RegionWidth, RegionHeight);
        var rest := if t.interrupted then [] else Samples(start, end, ticks[1..]);
        assert Samples(start, end, ticks) == [(t.now, avg)] + rest;
        assert ([(t.now, avg)] + rest)[1..] == rest;
      }
    }
  }

  /** Splitting the samples splits the edges, the second part starting from the first part's last level. */
  lemma {:induction false} RisingEdgesAppend<T>(prev: int, a: seq<(T, int)>, b: seq<(T, int)>)
    ensures RisingEdges(prev, a + b) == RisingEdges(prev, a) + RisingEdges(LastLevel(prev, a), b)
    decreases |a|
  {
    if a == [] {
      assert a + b == b;
    } else {
      var head, tail := a[0], a[1..];
      assert (a + b)[0] == head && (a + b)[1..] == tail + b;
      RisingEdgesAppend(head.1, tail, b);
      assert LastLevel(prev, a) == LastLevel(head.1, tail) by {
        if tail != [] {
          assert tail[|tail| - 1] == a[|a| - 1];
        }
      }
    }
  }

  lemma {:induction false} NoEdgeWhileBright<T>(prev: int, samples: seq<(T, int)>)
    requires prev >= BrightnessThreshold
    requires forall k :: 0 <= k < |samples| ==> samples[k].1 >= BrightnessThreshold
    ensures RisingEdges(prev, samples) == []
    decreases |samples|
  {
    if samples != [] {
      NoEdgeWhileBright(samples[0].1, samples[1..]);
    }
  }

  /** A sustained bright run entered from below prints once, at its first sample. */
  lemma SustainedBrightPrintsOnce<T>(prev: int, samples: seq<(T, int)>)
    requires prev < BrightnessThreshold && |samples| > 0
    requires forall k :: 0 <= k < |samples| ==> samples[k].1 >= BrightnessThreshold
    ensures RisingEdges(prev, samples) == [samples[0].0]
  {
    NoEdgeWhileBright(samples[0].1, samples[1..]);
  }

  /** A dip below the threshold re-arms the detector: the next bright sample prints again. */
  lemma DipRearms<T>(prev: int, a: seq<(T, int)>, dip: (T, int), bright: (T, int))
    requires dip.1 < BrightnessThreshold <= bright.1
    ensures RisingEdges(prev, a + [dip, bright]) == RisingEdges(prev, a) + [bright.0]
  {
    RisingEdgesAppend(prev, a, [dip, bright]);
    var tail := [dip, bright][1..];
    assert tail == [bright] && tail[1..] == [];
    assert RisingEdges(bright.1, tail[1..]) == [];
    assert RisingEdges(dip.1, tail) == [bright.0];
    assert RisingEdges(LastLevel(prev, a), [dip, bright]) == [bright.0];
  }

  /** The samples 0, 250, 250, 100, 210 print at positions 1 and 4. */
  lemma ExampleTrace()
    ensures RisingEdges(0, [(0, 0), (1, 250), (2, 250), (3, 100), (4, 210)]) == [1, 4]
  {
    var s: seq<(int, int)> := [(0, 0), (1, 250), (2, 250), (3, 100), (4, 210)];
    assert s[1..] == [(1, 250), (2, 250), (3, 100), (4, 210)];
    assert s[1..][1..] == [(2, 250), (3, 100), (4, 210)];
    assert s[1..][1..][1..] == [(3, 100), (4, 210)];
    assert s[1..][1..][1..][1..] == [(4, 210)];
    assert s[1..][1..][1..][1..][1..] == [];
  }

  /** With the start after the end (say 23:00-04:00) the gate never opens: there is no wrap past midnight. */
  lemma {:induction false} InvertedWindowNeverSamples(start: TimeOfDay, end: TimeOfDay, prev: int, ticks: seq<Tick>)
    requires start > end
    ensures Samples(start, end, ticks) == []
    ensures MonitorRun(start, end, prev, ticks) == []
    decreases |ticks|
  {
    if ticks != [] {
      InvertedWindowNeverSamples(start, end, prev, ticks[1..]);
      assert !InWindow(ticks[0].now.time, start, end);
    }
    RunIsRisingEdgesOfSamples(start, end, prev, ticks);
  }

  /** A pass the gate or a null frame skips, and whose sleep is not interrupted. */
  predicate Skipped(start: TimeOfDay, end: TimeOfDay, t: Tick)
  {
    !t.interrupted && (!InWindow(t.now.time, start, end) || t.capture.NoFrame?)
  }

  /** Skipped passes change nothing: neither what is printed later nor the level it is compared with. */
  lemma {:induction false} SkippedPassesInvisible(start: TimeOfDay, end: TimeOfDay, prev: int, a: seq<Tick>, b: seq<Tick>)
    requires forall k :: 0 <= k < |a| ==> Skipped(start, end, a[k])
    ensures MonitorRun(start, end, prev, a + b) == MonitorRun(start, end, prev, b)
    decreases |a|
  {
    if a == [] {
      assert a + b == b;
    } else {
      assert (a + b)[0] == a[0] && (a + b)[1..] == a[1..] + b;
      assert MonitorStep(start, end, prev, a[0]) == Step(prev, None, false);
      SkippedPassesInvisible(start, end, prev, a[1..], b);
    }
  }
}
