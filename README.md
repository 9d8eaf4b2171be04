# Passing-car finder: brightness detectors

The car finder watches a live camera stream and reports when the picture, or a
part of it, gets bright, which at night means passing headlights. It has three
detectors:

- **NightFastFinder** wakes every five seconds. It takes a snapshot of the
  player and averages all red, green and blue samples of the frame. It prints
  the player's media time when that average is above 10.0. A missing snapshot
  or an exception skips the cycle. An interrupted sleep ends the loop.
- **NightObjectFinder** runs the same test once a minute. It only does so while
  the Helsinki hour is in the night window 23:00-04:00, which wraps past
  midnight. It keeps no state, so every bright night cycle reports (a level
  trigger).
- **YoutubePixelMonitor** runs within a daily window that `valitseAika` sets.
  About once a second it grabs a frame and takes the integer mean luma of a
  50x50 region at (200, 150), clamped to the frame. It prints on a rising edge
  only: the previous measured value was below 200 and the new one is at least
  200. The previous value survives the passes that the window or a missing
  frame skips. Any exception in the loop ends the monitoring.

The model is split into modules:

- `Pixels`: packed ARGB words and channel extraction.
- `Raster`: frames, and sums of a per-pixel quantity over rectangles, added
  row by row as the nested loops do.
- `ChannelAverage`: `computeAverageBrightness` and the `> 10.0` report. Both
  night finders carry this code as identical copies; it is modelled once.
- `NightFastFinder`, `NightObjectFinder` and `YoutubePixelMonitor`: one module
  per program.
- `Wrappers`: `Option` and its conversion to a sequence.

Each of the infinite loops is a method over a finite trace of what the
environment supplies on each pass. A pass supplies:

- the clock reading,
- the snapshot, which is a null image, an exception or a frame,
- whether the sleep is interrupted.

Each loop method is proved equal to a recursive function of the trace. The
properties the programs rely on are then proved as lemmas about that function.

`YoutubePixelMonitor`'s two static fields are a class, `PixelMonitor`.
`ValitseAika` updates the fields. `MonitorPixels` reads them.

The main results:

- the night window is exactly the hours 23, 0, 1, 2 and 3;
- a snapshot is reported exactly when its channel sum exceeds ten times its
  number of channel samples;
- the region monitor prints exactly at the rising edges of the sequence of
  values it actually measured (`RunIsRisingEdgesOfSamples`).

## Model

| member | source | states |
|---|---|---|
| `Pixels.Channel` | engine/carfinder/src/main/java/fi/haagahelia/NightFastFinder.java:137-140 | a channel `(rgb >> k) & 0xFF` is a value in 0..255 |
| `Pixels.UnpackPack` | engine/carfinder/src/main/java/fi/haagahelia/YoutubePixelMonitor.java:89-92 | the shifts and masks give back exactly the red, green and blue bytes packed into a pixel, whatever its alpha |
| `Pixels.AlphaIgnored` | engine/carfinder/src/main/java/fi/haagahelia/NightObjectFinder.java:113-116 | two pixels that agree in their low 24 bits have the same red, green and blue |
| `Raster.BlockBound` | engine/carfinder/src/main/java/fi/haagahelia/NightFastFinder.java:135-143 | a per-pixel quantity bounded by b sums over a rectangle to at most b times its pixel count |
| `Raster.BlockUniform` | engine/carfinder/src/main/java/fi/haagahelia/NightObjectFinder.java:111-119 | a quantity equal to v at every pixel of a rectangle sums to v times its pixel count |
| `Raster.BlockAgree` | engine/carfinder/src/main/java/fi/haagahelia/NightObjectFinder.java:111-119 | the row-by-row sum depends only on the values at the rectangle's pixels |
| `ChannelAverage.ChannelSum` | engine/carfinder/src/main/java/fi/haagahelia/NightFastFinder.java:141 | the amount added per pixel, r + g + b, is at most 765 |
| `ChannelAverage.ComputeAverageBrightness` | engine/carfinder/src/main/java/fi/haagahelia/NightFastFinder.java:129-145 | the nested loops return the sum of r + g + b over all pixels divided by w * h * 3, and NaN for a frame without pixels |
| `ChannelAverage.FrameSumBound` | engine/carfinder/src/main/java/fi/haagahelia/NightObjectFinder.java:106-119 | the channel sum is at most 255 times the number of channel samples |
| `ChannelAverage.AverageInRange` | engine/carfinder/src/main/java/fi/haagahelia/NightObjectFinder.java:102-121 | for a frame with pixels the average is a number in [0, 255] |
| `ChannelAverage.EmptyFrameIsNaN` | engine/carfinder/src/main/java/fi/haagahelia/NightFastFinder.java:132-144 | a frame with no pixels gives 0.0 / 0.0, which is NaN and never exceeds the threshold |
| `ChannelAverage.UniformAverage` | engine/carfinder/src/main/java/fi/haagahelia/NightObjectFinder.java:103-120 | a frame whose pixels all have r = g = b = v averages exactly v |
| `ChannelAverage.ExceedsIffSumAbove` | engine/carfinder/src/main/java/fi/haagahelia/NightFastFinder.java:115 | `avgB > 10.0` holds iff the channel sum is above 10 times the number of channel samples |
| `ChannelAverage.AlphaDoesNotMatter` | engine/carfinder/src/main/java/fi/haagahelia/NightFastFinder.java:136-141 | frames that differ only in alpha have the same average |
| `ChannelAverage.ReportIffBright` | engine/carfinder/src/main/java/fi/haagahelia/NightFastFinder.java:112-119 | a snapshot is reported iff an image arrived whose channel sum is above 10 times its sample count; the report carries the stamp and the average |
| `ChannelAverage.SnapshotReport` | engine/carfinder/src/main/java/fi/haagahelia/NightFastFinder.java:112-119 | the reference for the try block: a report only for an image whose average exceeds 10.0, stamped with the given time |
| `ChannelAverage.EvaluateSnapshot` | engine/carfinder/src/main/java/fi/haagahelia/NightFastFinder.java:111-122 | the try block: null image or exception reports nothing, an image is averaged and reported when above the threshold |
| `NightFastFinder.SnapshotLoop` | engine/carfinder/src/main/java/fi/haagahelia/NightFastFinder.java:98-124 | the loop prints, in order, the reports of every wake-up before the first interrupted sleep |
| `NightFastFinder.SnapshotRunAppend` | engine/carfinder/src/main/java/fi/haagahelia/NightFastFinder.java:98-124 | the loop keeps no state: the reports of a trace are the reports of its parts |
| `NightFastFinder.MissedSnapshotIsSkipped` | engine/carfinder/src/main/java/fi/haagahelia/NightFastFinder.java:112-122 | a null snapshot or a snapshot exception reports nothing and the loop goes on |
| `NightFastFinder.InterruptEndsLoop` | engine/carfinder/src/main/java/fi/haagahelia/NightFastFinder.java:100-105 | an interrupted sleep ends the loop; nothing after it is reported |
| `NightFastFinder.MissedThenBright` | engine/carfinder/src/main/java/fi/haagahelia/NightFastFinder.java:111-122 | three failed snapshots followed by a bright frame report exactly that frame |
| `NightObjectFinder.NightHours` | engine/carfinder/src/main/java/fi/haagahelia/NightObjectFinder.java:93-100 | of the hours 0..23 exactly 23, 0, 1, 2 and 3 are night; 22 and 4 are not |
| `NightObjectFinder.IsNightTime` | engine/carfinder/src/main/java/fi/haagahelia/NightObjectFinder.java:93-100 | night iff hour >= 23 or hour < 4, the window wrapping past midnight; within 0..23 exactly the hours 23, 0, 1, 2, 3 |
| `NightObjectFinder.MonitorCycle` | engine/carfinder/src/main/java/fi/haagahelia/NightObjectFinder.java:64-78 | the reference for one pass: it samples iff it is night, and a report needs a night pass, an image, and carries the Helsinki clock |
| `NightObjectFinder.CycleReportsIffBrightNight` | engine/carfinder/src/main/java/fi/haagahelia/NightObjectFinder.java:64-78 | a pass samples iff hour >= 23 or hour < 4, and reports iff it is night and the snapshot is bright, stamped with the Helsinki clock |
| `NightObjectFinder.DaytimeIgnoresCapture` | engine/carfinder/src/main/java/fi/haagahelia/NightObjectFinder.java:63-78 | by day the snapshot is never requested: the pass is silent whatever the snapshot would be |
| `NightObjectFinder.MonitorPass` | engine/carfinder/src/main/java/fi/haagahelia/NightObjectFinder.java:64-78 | the statements of the `if (isNightTime())` block produce the pass's outcome |
| `NightObjectFinder.StartMonitoring` | engine/carfinder/src/main/java/fi/haagahelia/NightObjectFinder.java:61-87 | the loop prints the report of every pass up to and including the one whose sleep is interrupted |
| `NightObjectFinder.MonitorRunAppend` | engine/carfinder/src/main/java/fi/haagahelia/NightObjectFinder.java:61-87 | the loop keeps no state between passes: the reports of a trace are the reports of its parts |
| `NightObjectFinder.BrightNightAlwaysReports` | engine/carfinder/src/main/java/fi/haagahelia/NightObjectFinder.java:64-73 | level trigger: a bright night pass reports, whatever came before it |
| `NightObjectFinder.SilentPassContinues` | engine/carfinder/src/main/java/fi/haagahelia/NightObjectFinder.java:64-81 | a daytime pass, or a night pass with a null or failed snapshot, reports nothing and the loop goes on |
| `NightObjectFinder.InterruptEndsMonitoring` | engine/carfinder/src/main/java/fi/haagahelia/NightObjectFinder.java:80-85 | an interrupted sleep ends the loop after the pass it closes |
| `YoutubePixelMonitor.AddInt` | engine/carfinder/src/main/java/fi/haagahelia/YoutubePixelMonitor.java:81-82 | `x + w` on `int`: within range, congruent to the exact sum modulo 2^32, and equal to it when it fits |
| `YoutubePixelMonitor.Luma` | engine/carfinder/src/main/java/fi/haagahelia/YoutubePixelMonitor.java:94-95 | the luma a pixel adds to the accumulator is at most 255 |
| `YoutubePixelMonitor.RegionColumns` | engine/carfinder/src/main/java/fi/haagahelia/YoutubePixelMonitor.java:81 | a non-empty column range ends at `min(x + w, width)`, inside the frame |
| `YoutubePixelMonitor.RegionRows` | engine/carfinder/src/main/java/fi/haagahelia/YoutubePixelMonitor.java:82 | a non-empty row range ends at `min(y + h, height)`, inside the frame |
| `YoutubePixelMonitor.RegionBrightness` | engine/carfinder/src/main/java/fi/haagahelia/YoutubePixelMonitor.java:81-99 | the reference value the loops are proved equal to; its own contract: a clamped region with no pixel gives 0, the `pixelCount == 0` guard |
| `YoutubePixelMonitor.CalculateRegionBrightness` | engine/carfinder/src/main/java/fi/haagahelia/YoutubePixelMonitor.java:80-100 | the loops return 0 for an empty clamped region, else the sum of the truncated lumas divided by the pixel count, in integers |
| `YoutubePixelMonitor.AddRow` | engine/carfinder/src/main/java/fi/haagahelia/YoutubePixelMonitor.java:88-97 | the inner loop adds the lumas of row j from x up to maxX and counts those pixels |
| `YoutubePixelMonitor.RegionBrightnessInRange` | engine/carfinder/src/main/java/fi/haagahelia/YoutubePixelMonitor.java:99 | the returned value is a whole number in [0, 255] |
| `YoutubePixelMonitor.RegionPastEdgeIsZero` | engine/carfinder/src/main/java/fi/haagahelia/YoutubePixelMonitor.java:81-99 | a region starting at or past the right or bottom edge reads no pixel and returns 0 |
| `YoutubePixelMonitor.RegionInsideFrame` | engine/carfinder/src/main/java/fi/haagahelia/YoutubePixelMonitor.java:81-96 | a region that fits in the frame reads exactly w * h pixels |
| `YoutubePixelMonitor.WrappedWidthReadsNothing` | engine/carfinder/src/main/java/fi/haagahelia/YoutubePixelMonitor.java:81 | a width for which `x + w` overflows `int` gives an empty region and the value 0 |
| `YoutubePixelMonitor.DefaultRegion` | engine/carfinder/src/main/java/fi/haagahelia/YoutubePixelMonitor.java:14-17 | the fixed region is 2500 pixels on frames of at least 250 x 200, and reads nothing on frames at most 200 wide or 150 high |
| `YoutubePixelMonitor.GreyLuma` | engine/carfinder/src/main/java/fi/haagahelia/YoutubePixelMonitor.java:94 | since 0.299 + 0.587 + 0.114 = 1, a grey pixel of level v has luma v |
| `YoutubePixelMonitor.UniformRegion` | engine/carfinder/src/main/java/fi/haagahelia/YoutubePixelMonitor.java:87-99 | a non-empty region of grey level v measures exactly v |
| `YoutubePixelMonitor.LocalTimeOf` | engine/carfinder/src/main/java/fi/haagahelia/YoutubePixelMonitor.java:34-35 | `LocalTime.of` gives a time exactly for hours 0..23 and minutes 0..59 |
| `YoutubePixelMonitor.InWindow` | engine/carfinder/src/main/java/fi/haagahelia/YoutubePixelMonitor.java:48 | the gate, neither `isBefore(startTime)` nor `isAfter(endTime)`, is open iff start <= now <= end |
| `YoutubePixelMonitor.WindowInclusive` | engine/carfinder/src/main/java/fi/haagahelia/YoutubePixelMonitor.java:48 | the gate is open exactly from start to end, both instants included |
| `YoutubePixelMonitor.Rises` | engine/carfinder/src/main/java/fi/haagahelia/YoutubePixelMonitor.java:62 | a rising edge is a step up that crosses 200 from below: never from a value at or above 200, never to a value below it, always when it crosses |
| `YoutubePixelMonitor.MonitorStep` | engine/carfinder/src/main/java/fi/haagahelia/YoutubePixelMonitor.java:45-67 | the reference for one pass: a message only for a frame measured inside the window, stamped with `now`; a gated or null-frame pass keeps the previous value; the loop ends on an exception or an interrupted sleep |
| `YoutubePixelMonitor.Poll` | engine/carfinder/src/main/java/fi/haagahelia/YoutubePixelMonitor.java:45-67 | one pass: gate, grab, measure, compare with the previous value, then the new previous value |
| `YoutubePixelMonitor.PixelMonitor.constructor` | engine/carfinder/src/main/java/fi/haagahelia/YoutubePixelMonitor.java:21-22 | both window fields start out null |
| `YoutubePixelMonitor.PixelMonitor.ValitseAika` | engine/carfinder/src/main/java/fi/haagahelia/YoutubePixelMonitor.java:33-36 | sets the window from hours and minutes, ignoring the date; an invalid start changes nothing, an invalid end leaves the new start in place |
| `YoutubePixelMonitor.PixelMonitor.MonitorPixels` | engine/carfinder/src/main/java/fi/haagahelia/YoutubePixelMonitor.java:38-78 | the loop, started from a previous value of 0, prints the edge messages of the trace up to the first exception or interrupted sleep; nothing when the grabber does not start or a window field is null |
| `YoutubePixelMonitor.Setup` | engine/carfinder/src/main/java/fi/haagahelia/YoutubePixelMonitor.java:24-25 | `main` sets the window to 20:30-20:40 |
| `YoutubePixelMonitor.RunIsRisingEdgesOfSamples` | engine/carfinder/src/main/java/fi/haagahelia/YoutubePixelMonitor.java:42-67 | the loop prints exactly at the rising edges of the values it measured; skipped passes neither print nor change the previous value |
| `YoutubePixelMonitor.RisingEdgesAppend` | engine/carfinder/src/main/java/fi/haagahelia/YoutubePixelMonitor.java:62-66 | the edges of a concatenation are the edges of each part, the second starting from the first part's last value |
| `YoutubePixelMonitor.NoEdgeWhileBright` | engine/carfinder/src/main/java/fi/haagahelia/YoutubePixelMonitor.java:62-66 | while the value stays at or above 200, nothing more is printed |
| `YoutubePixelMonitor.SustainedBrightPrintsOnce` | engine/carfinder/src/main/java/fi/haagahelia/YoutubePixelMonitor.java:62-66 | a bright run entered from below prints once, at its first sample |
| `YoutubePixelMonitor.DipRearms` | engine/carfinder/src/main/java/fi/haagahelia/YoutubePixelMonitor.java:62-66 | a dip below 200 re-arms the detector: the next bright sample prints |
| `YoutubePixelMonitor.ExampleTrace` | engine/carfinder/src/main/java/fi/haagahelia/YoutubePixelMonitor.java:62-66 | the samples 0, 250, 250, 100, 210 print at the second and the fifth |
| `YoutubePixelMonitor.InvertedWindowNeverSamples` | engine/carfinder/src/main/java/fi/haagahelia/YoutubePixelMonitor.java:48-51 | with the start after the end the gate never opens: the window does not wrap past midnight |
| `YoutubePixelMonitor.SkippedPassesInvisible` | engine/carfinder/src/main/java/fi/haagahelia/YoutubePixelMonitor.java:48-57 | passes outside the window or without a frame change neither what is printed later nor the value it is compared with |

## Left out

- The player and the UI: VLCJ discovery, the Swing frame, playback of the URL and the playback rate (`PLAYBACK_RATE`) are not modelled. `YoutubeSnapshot.java` is not part of this model.
- The FFmpeg grabber's lifecycle: `grabber.start()` becomes the `started` flag, and `grabber.stop()` in the `finally` block has no observable effect here.
- Clocks, sleeps and threads: the clock readings (media time, Helsinki hour, `LocalDateTime.now()`) and the interruption of each sleep are fields of the trace. The intervals of 5 s, 1 min and 1 s are not modelled. `snapshotLoop`'s own thread is not modelled.
- Output formatting: a printed line is modelled as its timestamp and, for the night finders, the average; `printf`'s `%.2f` rounding and the message texts are left out.
- Floating point: the channel average is an exact real, and 0.0 / 0.0 is NaN. `Luma` is the exact integer floor of (299 r + 587 g + 114 b) / 1000. The source computes the luma in `double` and truncates when it adds it to the `long` total; rounding there can move a value that is exactly an integer down by one.
- `YoutubePixelMonitor.GreyLuma`: holds for the exact luma only. The `double` expression for a grey pixel can fall just below v and truncate to v - 1.
- `YoutubePixelMonitor.UniformRegion`: holds for the exact luma only, for the same reason.
- Integer widths: `long` overflow of the sums (a frame of more than about 10^16 pixels) is not modelled. `(long) w * h * 3` is exact. `x + w` and `y + h` wrap as Java `int`s.
- `YoutubePixelMonitor.CalculateRegionBrightness` requires x, y >= 0 (`ValidRegion`), as do `YoutubePixelMonitor.RegionColumns`, `YoutubePixelMonitor.RegionRows` and `YoutubePixelMonitor.RegionBrightness`. `getRGB` would throw for a negative coordinate of a non-empty region; the only caller passes 200 and 150.
- `YoutubePixelMonitor.RegionInsideFrame` requires frame dimensions within Java's `int` range, as `BufferedImage` guarantees.
- The comment beside `main`'s call of `valitseAika` says 09:00-17:00, but the call sets 20:30-20:40. The model follows the code (`Setup`).
- The loops run forever in the source. The model runs them over finite traces; a trace that ends is a prefix of a run.
