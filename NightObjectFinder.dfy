/**
 * NightObjectFinder's `startMonitoring`: once a minute, and only while the
 * Helsinki hour falls in the night window 23:00-04:00, it takes a snapshot and
 * reports it when its average brightness is above 10.0. Nothing is remembered
 * from one cycle to the next, so every qualifying cycle reports (a level
 * trigger). An exception only skips the cycle; an interrupted sleep ends the loop.
 */
module NightObjectFinder {
  import opened Wrappers
  import opened Raster
  import opened ChannelAverage

  const NightStartHour: int := 23
  const NightEndHour: int := 4

  /** `isNightTime` for the hour the clock shows: the window wraps past midnight. */
  function IsNightTime(hour: int): (night: bool)
    ensures night <==> hour >= NightStartHour || hour < NightEndHour
    ensures 0 <= hour < 24 ==> (night <==> hour in {23, 0, 1, 2, 3})
  {
    if hour >= NightStartHour then true else hour < NightEndHour
  }

  /** Of the 24 hours of a day exactly 23, 0, 1, 2 and 3 are night; 22 and 4 are not. */
  lemma NightHours()
    ensures (set h | 0 <= h < 24 && IsNightTime(h)) == {23, 0, 1, 2, 3}
    ensures !IsNightTime(22) && !IsNightTime(4)
  {
    var night := set h | 0 <= h < 24 && IsNightTime(h);
    forall h ensures h in night <==> h in {23, 0, 1, 2, 3} {
    }
  }

  /**
   * One pass of the loop: the hour `isNightTime` reads, what the snapshot
   * request would yield, the wall-clock time printed with a detection, and
   * whether the sleep that closes the pass is interrupted.
   */
  datatype Cycle = Cycle(hour: int, capture: Capture, clock: int, interrupted: bool)

  /** Whether the pass took a snapshot at all, and what it reported. */
  datatype Outcome = Outcome(sampled: bool, report: Option<Detection>)

  function MonitorCycle(c: Cycle): (o: Outcome)
    ensures o.sampled <==> IsNightTime(c.hour)
    ensures o.report.Some? ==> o.sampled && c.capture.Captured? && o.report.value.time == c.clock
  {
    if IsNightTime(c.hour) then Outcome(true, SnapshotReport(c.clock, c.capture)) else Outcome(false, None)
  }

  /** One cycle samples iff it is night, and reports iff it is night and the snapshot's average is above 10.0. */
  lemma CycleReportsIffBrightNight(c: Cycle)
    ensures MonitorCycle(c).sampled <==> c.hour >= 23 || c.hour < 4
    ensures MonitorCycle(c).report.Some?
        <==> IsNightTime(c.hour) && c.capture.Captured? && FrameSum(c.capture.frame) > 10 * Components(c.capture.frame)
    ensures MonitorCycle(c).report.Some? ==>
              AverageOf(c.capture.frame).Mean? &&
              MonitorCycle(c).report.value == Detection(c.clock, AverageOf(c.capture.frame).value)
  {
    ReportIffBright(c.clock, c.capture);
  }

  /** During the day the snapshot is never requested: whatever it would have been, the cycle is the same and silent. */
  lemma DaytimeIgnoresCapture(c: Cycle, other: Capture)
    requires !IsNightTime(c.hour)
    ensures MonitorCycle(c) == MonitorCycle(c.(capture := other)) == Outcome(false, None)
  {
  }

  /** No pass of the trace ends in an interrupted sleep. */
  predicate Uninterrupted(cs: seq<Cycle>)
  {
    forall k :: 0 <= k < |cs| ==> !cs[k].interrupted
  }

  /** The detections printed over a trace of passes, up to and including the first pass whose sleep is interrupted. */
  function MonitorRun(cs: seq<Cycle>): seq<Detection>
  {
    if cs == [] then []
    else ToSeq(MonitorCycle(cs[0]).report) + if cs[0].interrupted then [] else MonitorRun(cs[1..])
  }

  lemma MonitorRunFrom(cs: seq<Cycle>, k: nat)
    requires k < |cs|
    ensures MonitorRun(cs[k..])
         == ToSeq(MonitorCycle(cs[k]).report) + if cs[k].interrupted then [] else MonitorRun(cs[k + 1..])
  {
    assert cs[k..][0] == cs[k] && cs[k..][1..] == cs[k + 1..];
  }

  /** One pass moves its report from the remaining run to the reports printed so far. */
  lemma AdvanceRun(cs: seq<Cycle>, k: nat, o: Outcome, events: seq<Detection>, whole: seq<Detection>)
    requires k < |cs| && o == MonitorCycle(cs[k])
    requires events + MonitorRun(cs[k..]) == whole
    ensures cs[k].interrupted ==> events + ToSeq(o.report) == whole
    ensures !cs[k].interrupted ==> (events + ToSeq(o.report)) + MonitorRun(cs[k + 1..]) == whole
  {
    var now, rest := ToSeq(o.report), if cs[k].interrupted then [] else MonitorRun(cs[k + 1..]);
    MonitorRunFrom(cs, k);
    assert MonitorRun(cs[k..]) == now + rest;
    assert events + (now + rest) == (events + now) + rest;
  }

  /** The `if (isNightTime())` block of one pass. */
  method MonitorPass(c: Cycle) returns (o: Outcome)
    ensures o == MonitorCycle(c)
  {
    o := Outcome(false, None);
    if IsNightTime(c.hour) {
      var d := EvaluateSnapshot(c.clock, c.capture);
      o := Outcome(true, d);
    }
  }

  /** `startMonitoring`, run over a finite trace of passes. */
  method StartMonitoring(cs: seq<Cycle>) returns (events: seq<Detection>)
    ensures events == MonitorRun(cs)
  {
    events := [];
    var k := 0;
    while k < |cs|
      invariant 0 <= k <= |cs|
      invariant events + MonitorRun(cs[k..]) == MonitorRun(cs)
    {
      var o := MonitorPass(cs[k]);
      AdvanceRun(cs, k, o, events, MonitorRun(cs));
      events := events + ToSeq(o.report);
      if cs[k].interrupted {
        break;
      }
      k := k + 1;
    }
  }

  /** What a trace reports is what its parts report: the loop carries nothing from one pass to the next. */
  lemma {:induction false} MonitorRunAppend(a: seq<Cycle>, b: seq<Cycle>)
    requires Uninterrupted(a)
    ensures MonitorRun(a + b) == MonitorRun(a) + MonitorRun(b)
  {
    if a == [] {
      assert a + b == b;
    } else {
      assert (a + b)[0] == a[0] && (a + b)[1..] == a[1..] + b;
      assert !a[0].interrupted;
      MonitorRunAppend(a[1..], b);
    }
  }

  /** Level policy: a bright night pass reports, whatever passes came before it. */
  lemma BrightNightAlwaysReports(a: seq<Cycle>, c: Cycle)
    requires Uninterrupted(a)
    requires IsNightTime(c.hour) && c.capture.Captured? && Exceeds(AverageOf(c.capture.frame))
    ensures MonitorRun(a + [c]) == MonitorRun(a) + [Detection(c.clock, AverageOf(c.capture.frame).value)]
  {
    MonitorRunAppend(a, [c]);
    assert [c][1..] == [];
    assert MonitorCycle(c).report == Some(Detection(c.clock, AverageOf(c.capture.frame).value));
  }

  /**
   * A pass outside the night window, or a night pass whose snapshot is null or
   * throws, reports nothing and the loop goes on with the next pass.
   */
  lemma SilentPassContinues(a: seq<Cycle>, c: Cycle, b: seq<Cycle>)
    requires Uninterrupted(a) && !c.interrupted
    requires !IsNightTime(c.hour) || !c.capture.Captured?
    ensures MonitorRun(a + [c] + b) == MonitorRun(a) + MonitorRun(b)
  {
    var rest := [c] + b;
    assert a + [c] + b == a + rest;
    MonitorRunAppend(a, rest);
    assert rest[0] == c && rest[1..] == b;
    assert MonitorCycle(c).report == None;
    assert MonitorRun(rest) == ToSeq(MonitorCycle(c).report) + MonitorRun(b);
    assert MonitorRun(rest) == MonitorRun(b);
  }

  /** An interrupted sleep ends the loop after the pass it closes. */
  lemma InterruptEndsMonitoring(a: seq<Cycle>, c: Cycle, b: seq<Cycle>)
    requires Uninterrupted(a) && c.interrupted
    ensures MonitorRun(a + [c] + b) == MonitorRun(a) + ToSeq(MonitorCycle(c).report)
  {
    var rest := [c] + b;
    assert a + [c] + b == a + rest;
    MonitorRunAppend(a, rest);
    assert rest[0] == c;
    assert MonitorRun(rest) == ToSeq(MonitorCycle(c).report);
  }
}
