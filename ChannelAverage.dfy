/**
 * `computeAverageBrightness`, which NightFastFinder and NightObjectFinder carry
 * as two identical copies: the unweighted mean of all red, green and blue
 * samples of a whole frame, and the `> 10.0` test both programs apply to it.
 */
module ChannelAverage {
  import opened Wrappers
  import opened Pixels
  import opened Raster

  /** Both programs report a detection when the average is strictly above this. */
  const BrightnessThreshold: real := 10.0

  /** r + g + b of one pixel, the amount the inner loop adds. */
  function ChannelSum(p: Pixel): (s: nat)
    ensures s <= 765
  {
    Red(p) + Green(p) + Blue(p)
  }

  /** The sum of r + g + b over every pixel of the frame. */
  function FrameSum(img: Frame): nat
  {
    Block(ChannelSum, img, 0, img.width, 0, img.height)
  }

  /** The number of channel samples, `(long) w * h * 3`. */
  function Components(img: Frame): nat
  {
    img.width * img.height * 3
  }

  /**
   * The double the source returns: `0.0 / 0.0` is NaN for a frame without
   * pixels; otherwise the quotient, modelled as an exact real.
   */
  datatype Average = NaN | Mean(value: real)

  function AverageOf(img: Frame): Average
  {
    if Components(img) == 0 then NaN else Mean(FrameSum(img) as real / Components(img) as real)
  }

  /** `avg > BRIGHTNESS_THRESHOLD`; a Java comparison with NaN is false. */
  predicate Exceeds(avg: Average)
  {
    avg.Mean? && avg.value > BrightnessThreshold
  }

  /** A detection as printed: the time the program stamps it with and the measured brightness. */
  datatype Detection = Detection(time: int, brightness: real)

  /** The nested loops of `computeAverageBrightness`, row by row and within a row column by column. */
  method ComputeAverageBrightness(img: Frame) returns (avg: Average)
    ensures avg == AverageOf(img)
  {
    var sum := 0;
    var w, h := img.width, img.height;
    var totalComponents := w * h * 3;
    for y := 0 to h
      invariant sum == Block(ChannelSum, img, 0, w, 0, y)
    {
      for x := 0 to w
        invariant sum == Block(ChannelSum, img, 0, w, 0, y) + Span(ChannelSum, img, y, 0, x)
      {
        var rgb := At(img, x, y);
        var r, g, b := Red(rgb), Green(rgb), Blue(rgb);
        sum := sum + (r + g + b);
      }
    }
    if totalComponents == 0 {
      avg := NaN;
    } else {
      avg := Mean(sum as real / totalComponents as real);
    }
  }

  /**
   * The `try` block both night finders run on a snapshot: a missing
   * snapshot or an exception reports nothing; an image is reported, with the
   * time stamp the program prints, when its average exceeds the threshold.
   */
  function SnapshotReport(stamp: int, capture: Capture): (d: Option<Detection>)
    ensures d.Some? ==> capture.Captured? && d.value.time == stamp && Exceeds(AverageOf(capture.frame))
  {
    match capture
    case NoFrame => None
    case CaptureError => None
    case Captured(img) =>
      var avg := AverageOf(img);
      if Exceeds(avg) then Some(Detection(stamp, avg.value)) else None
  }

  /**
   * A snapshot is reported, with the given stamp, exactly when a snapshot
   * arrived whose channel sum is above ten times its number of channel
   * samples; a null snapshot or an exception reports nothing.
   */
  lemma ReportIffBright(stamp: int, capture: Capture)
    ensures SnapshotReport(stamp, capture).Some?
        <==> capture.Captured? && FrameSum(capture.frame) > 10 * Components(capture.frame)
    ensures SnapshotReport(stamp, capture).Some? ==>
              AverageOf(capture.frame).Mean? &&
              SnapshotReport(stamp, capture).value == Detection(stamp, AverageOf(capture.frame).value)
  {
    if capture.Captured? {
      ExceedsIffSumAbove(capture.frame);
    }
  }

  /** The `try` block as statements: average the snapshot, if there is one, and decide whether to report it. */
  method EvaluateSnapshot(stamp: int, capture: Capture) returns (d: Option<Detection>)
    ensures d == SnapshotReport(stamp, capture)
  {
    d := None;
    if capture.Captured? {
      var avgB := ComputeAverageBrightness(capture.frame);
      if Exceeds(avgB) {
        d := Some(Detection(stamp, avgB.value));
      }
    }
  }

  /** `0 <= sum <= 765 * w * h`. */
  lemma FrameSumBound(img: Frame)
    ensures FrameSum(img) <= 255 * Components(img)
  {
    BlockBound(ChannelSum, img, 0, img.width, 0, img.height, 765);
  }

  /** For a frame with at least one pixel the average is a number in [0, 255]. */
  lemma AverageInRange(img: Frame)
    requires img.width > 0 && img.height > 0
    ensures AverageOf(img).Mean?
    ensures 0.0 <= AverageOf(img).value <= 255.0
  {
    FrameSumBound(img);
    QuotientAtMost(FrameSum(img) as real, Components(img) as real, 255.0);
  }

  /** A frame without pixels has a NaN average, which never exceeds the threshold. */
  lemma EmptyFrameIsNaN(img: Frame)
    requires img.width == 0 || img.height == 0
    ensures AverageOf(img) == NaN && !Exceeds(AverageOf(img))
  {
  }

  /** A non-empty frame whose every pixel has r = g = b = v averages exactly v. */
  lemma UniformAverage(img: Frame, v: nat)
    requires img.width > 0 && img.height > 0
    requires forall i, j :: 0 <= i < img.width && 0 <= j < img.height ==> Grey(At(img, i, j), v)
    ensures AverageOf(img) == Mean(v as real)
  {
    forall i, j | 0 <= i < img.width && 0 <= j < img.height
      ensures ChannelSum(At(img, i, j)) == 3 * v
    {
      assert Grey(At(img, i, j), v);
    }
    BlockUniform(ChannelSum, img, 0, img.width, 0, img.height, 3 * v);
    UniformQuotient(FrameSum(img), img.width * img.height, v);
  }

  /**
   * The detection test `avg > 10.0` holds iff `sum > 10 * w * h * 3`; in
   * particular an average of exactly 10.0 does not fire, and neither does NaN.
   */
  lemma ExceedsIffSumAbove(img: Frame)
    ensures Exceeds(AverageOf(img)) <==> FrameSum(img) > 10 * Components(img)
  {
    if Components(img) == 0 {
      FrameSumBound(img);
    } else {
      QuotientAtMost(FrameSum(img) as real, Components(img) as real, BrightnessThreshold);
    }
  }

  lemma QuotientAtMost(s: real, t: real, c: real)
    requires t > 0.0
    ensures s / t <= c <==> s <= c * t
  {
    var q := s / t;
    assert q * t == s;
    if q <= c {
      assert (c - q) * t >= 0.0;
    } else {
      assert (q - c) * t > 0.0;
    }
  }

  lemma UniformQuotient(sum: nat, n: nat, v: nat)
    requires n > 0 && sum == 3 * v * n
    ensures sum as real / (n * 3) as real == v as real
  {
    var t := n * 3;
    assert sum == v * t;
    assert sum as real == v as real * t as real;
    QuotientOfMultiple(v as real, t as real);
  }

  lemma QuotientOfMultiple(v: real, t: real)
    requires t > 0.0
    ensures (v * t) / t == v
  {
    var q := (v * t) / t;
    assert q * t == v * t;
    assert (q - v) * t == 0.0;
  }

  /** The alpha byte of the pixels never changes the average. */
  lemma AlphaDoesNotMatter(a: Frame, b: Frame)
    requires a.width == b.width && a.height == b.height
    requires forall i, j :: 0 <= i < a.width && 0 <= j < a.height ==> At(a, i, j) & ColourMask == At(b, i, j) & ColourMask
    ensures AverageOf(a) == AverageOf(b)
  {
    forall i, j | 0 <= i < a.width && 0 <= j < a.height
      ensures ChannelSum(At(a, i, j)) == ChannelSum(At(b, i, j))
    {
      AlphaIgnored(At(a, i, j), At(b, i, j));
    }
    BlockAgree(ChannelSum, a, b, 0, a.width, 0, a.height);
  }
}
