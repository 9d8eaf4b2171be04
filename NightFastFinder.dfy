/**
 * NightFastFinder's `snapshotLoop`: every five seconds of real time it wakes,
 * reads the player's media time, asks the player for a snapshot and reports
 * the snapshot when its average brightness is above 10.0. A missing snapshot
 * or an exception only skips the cycle; an interrupted sleep ends the loop.
 */
module NightFastFinder {
  import opened Wrappers
  import opened Raster
  import opened ChannelAverage

  /**
   * What one wake-up of the loop meets: either the sleep was interrupted, or
   * it read `mediaPlayer.status().time()` and the snapshot request gave
   * `capture` (a null image, an exception, or an image).
   */
  datatype Wake = Interrupted | Woke(mediaTime: int, capture: Capture)

  /** No wake-up in the trace is an interrupted sleep. */
  predicate Uninterrupted(wakes: seq<Wake>)
  {
    forall k :: 0 <= k < |wakes| ==> wakes[k].Woke?
  }

  /** The detections the loop prints over a trace of wake-ups, up to the first interrupted sleep. */
  function SnapshotRun(wakes: seq<Wake>): seq<Detection>
  {
    if wakes == [] then []
    else match wakes[0]
      case Interrupted => []
      case Woke(t, c) => ToSeq(SnapshotReport(t, c)) + SnapshotRun(wakes[1..])
  }

  /** `snapshotLoop`, run over a finite trace of wake-ups. */
  method SnapshotLoop(wakes: seq<Wake>) returns (events: seq<Detection>)
    ensures events == SnapshotRun(wakes)
  {
    events := [];
    var k := 0;
    while k < |wakes|
      invariant 0 <= k <= |wakes|
      invariant events + SnapshotRun(wakes[k..]) == SnapshotRun(wakes)
    {
      var wake := wakes[k];
      SnapshotRunFrom(wakes, k);
      if wake.Interrupted? {
        break;
      }
      var d := EvaluateSnapshot(wake.mediaTime, wake.capture);
      assert SnapshotRun(wakes) == events + (ToSeq(d) + SnapshotRun(wakes[k + 1..]));
      events := events + ToSeq(d);
      k := k + 1;
    }
  }

  lemma SnapshotRunFrom(wakes: seq<Wake>, k: nat)
    requires k < |wakes|
    ensures SnapshotRun(wakes[k..]) == match wakes[k]
      case Interrupted => []
      case Woke(t, c) => ToSeq(SnapshotReport(t, c)) + SnapshotRun(wakes[k + 1..])
  {
    assert wakes[k..][0] == wakes[k] && wakes[k..][1..] == wakes[k + 1..];
  }

  /** Cycles do not influence each other: the loop keeps no state between them. */
  lemma {:induction false} SnapshotRunAppend(a: seq<Wake>, b: seq<Wake>)
    requires Uninterrupted(a)
    ensures SnapshotRun(a + b) == SnapshotRun(a) + SnapshotRun(b)
  {
    if a == [] {
      assert a + b == b;
    } else {
      assert (a + b)[0] == a[0] && (a + b)[1..] == a[1..] + b;
      assert a[0].Woke?;
      SnapshotRunAppend(a[1..], b);
    }
  }

  /** A null snapshot or a snapshot exception reports nothing, and the loop goes on with the next cycle. */
  lemma MissedSnapshotIsSkipped(a: seq<Wake>, t: int, c: Capture, b: seq<Wake>)
    requires Uninterrupted(a) && !c.Captured?
    ensures SnapshotRun(a + [Woke(t, c)] + b) == SnapshotRun(a) + SnapshotRun(b)
  {
    var rest := [Woke(t, c)] + b;
    assert a + [Woke(t, c)] + b == a + rest;
    SnapshotRunAppend(a, rest);
    assert rest[0] == Woke(t, c) && rest[1..] == b;
    assert SnapshotReport(t, c) == None;
    assert SnapshotRun(rest) == SnapshotRun(b);
  }

  /** An interrupted sleep ends the loop: nothing after it is ever reported. */
  lemma InterruptEndsLoop(a: seq<Wake>, b: seq<Wake>)
    requires Uninterrupted(a)
    ensures SnapshotRun(a + [Interrupted] + b) == SnapshotRun(a)
  {
    SnapshotRunAppend(a, [Interrupted] + b);
    assert a + [Interrupted] + b == a + ([Interrupted] + b);
  }

  /** Three missed snapshots in a row do not prevent the detection of a bright frame that follows. */
  lemma MissedThenBright(t0: int, t1: int, t2: int, t3: int, img: Frame)
    requires Exceeds(AverageOf(img))
    ensures SnapshotRun([Woke(t0, NoFrame), Woke(t1, CaptureError), Woke(t2, NoFrame), Woke(t3, Captured(img))])
         == [Detection(t3, AverageOf(img).value)]
  {
    var w3 := [Woke(t3, Captured(img))];
    var w2 := [Woke(t2, NoFrame)] + w3;
    var w1 := [Woke(t1, CaptureError)] + w2;
    var w0 := [Woke(t0, NoFrame)] + w1;
    assert SnapshotReport(t3, Captured(img)) == Some(Detection(t3, AverageOf(img).value));
    assert w3[1..] == [];
    assert w2[1..] == w3 && w1[1..] == w2 && w0[1..] == w1;
    assert SnapshotRun(w3) == [Detection(t3, AverageOf(img).value)];
    assert SnapshotRun(w2) == SnapshotRun(w3);
    assert SnapshotRun(w1) == SnapshotRun(w2);
    assert SnapshotRun(w0) == SnapshotRun(w1);
    assert w0 == [Woke(t0, NoFrame), Woke(t1, CaptureError), Woke(t2, NoFrame), Woke(t3, Captured(img))];
  }
}
