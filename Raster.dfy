/**
 * Decoded frames and sums of a per-pixel quantity over rectangles of them.
 * `At(img, i, j)` is `img.getRGB(i, j)`: column i of row j.
 */
module Raster {
  import opened Pixels

  datatype Image = Image(width: nat, height: nat, rows: seq<seq<Pixel>>)

  /** Every row holds exactly `width` pixels and there are `height` rows. */
  predicate WellFormed(img: Image)
  {
    |img.rows| == img.height && forall j :: 0 <= j < |img.rows| ==> |img.rows[j]| == img.width
  }

  /** A frame the decoder hands over: a well-formed raster. */
  type Frame = img: Image | WellFormed(img) witness Image(0, 0, [])

  /** What one attempt to obtain a frame yields: nothing (a null reference), an exception, or a frame. */
  datatype Capture = NoFrame | CaptureError | Captured(frame: Frame)

  function At(img: Frame, i: nat, j: nat): Pixel
    requires i < img.width && j < img.height
  {
    img.rows[j][i]
  }

  /** The sum of f over columns x0..x1-1 of row j. */
  function Span(f: Pixel -> nat, img: Frame, j: nat, x0: nat, x1: nat): nat
    requires j < img.height && x0 <= x1 <= img.width
    decreases x1 - x0
  {
    if x1 == x0 then 0 else Span(f, img, j, x0, x1 - 1) + f(At(img, x1 - 1, j))
  }

  /** The sum of f over columns x0..x1-1 of rows y0..y1-1, row by row as the source's nested loops add it. */
  function Block(f: Pixel -> nat, img: Frame, x0: nat, x1: nat, y0: nat, y1: nat): nat
    requires x0 <= x1 <= img.width && y0 <= y1 <= img.height
    decreases y1 - y0
  {
    if y1 == y0 then 0 else Block(f, img, x0, x1, y0, y1 - 1) + Span(f, img, y1 - 1, x0, x1)
  }

  lemma {:induction false} SpanBound(f: Pixel -> nat, img: Frame, j: nat, x0: nat, x1: nat, bound: nat)
    requires j < img.height && x0 <= x1 <= img.width
    requires forall i :: x0 <= i < x1 ==> f(At(img, i, j)) <= bound
    ensures Span(f, img, j, x0, x1) <= bound * (x1 - x0)
    decreases x1 - x0
  {
    if x1 > x0 {
      SpanBound(f, img, j, x0, x1 - 1, bound);
      assert bound * (x1 - x0) == bound * (x1 - 1 - x0) + bound;
    }
  }

  /** A per-pixel quantity bounded by `bound` sums to at most `bound` times the number of pixels. */
  lemma {:induction false} BlockBound(f: Pixel -> nat, img: Frame, x0: nat, x1: nat, y0: nat, y1: nat, bound: nat)
    requires x0 <= x1 <= img.width && y0 <= y1 <= img.height
    requires forall i, j :: x0 <= i < x1 && y0 <= j < y1 ==> f(At(img, i, j)) <= bound
    ensures Block(f, img, x0, x1, y0, y1) <= bound * ((x1 - x0) * (y1 - y0))
    decreases y1 - y0
  {
    if y1 > y0 {
      var cols, above := x1 - x0, y1 - 1 - y0;
      BlockBound(f, img, x0, x1, y0, y1 - 1, bound);
      SpanBound(f, img, y1 - 1, x0, x1, bound);
      assert y1 - y0 == above + 1;
      AreaStep(bound, cols, above);
    }
  }

  lemma {:induction false} SpanUniform(f: Pixel -> nat, img: Frame, j: nat, x0: nat, x1: nat, v: nat)
    requires j < img.height && x0 <= x1 <= img.width
    requires forall i :: x0 <= i < x1 ==> f(At(img, i, j)) == v
    ensures Span(f, img, j, x0, x1) == v * (x1 - x0)
    decreases x1 - x0
  {
    if x1 > x0 {
      SpanUniform(f, img, j, x0, x1 - 1, v);
    }
  }

  /** A quantity that is `v` at every pixel of the rectangle sums to `v` times its pixel count. */
  lemma {:induction false} BlockUniform(f: Pixel -> nat, img: Frame, x0: nat, x1: nat, y0: nat, y1: nat, v: nat)
    requires x0 <= x1 <= img.width && y0 <= y1 <= img.height
    requires forall i, j :: x0 <= i < x1 && y0 <= j < y1 ==> f(At(img, i, j)) == v
    ensures Block(f, img, x0, x1, y0, y1) == v * ((x1 - x0) * (y1 - y0))
    decreases y1 - y0
  {
    if y1 > y0 {
      var cols, above := x1 - x0, y1 - 1 - y0;
      BlockUniform(f, img, x0, x1, y0, y1 - 1, v);
      SpanUniform(f, img, y1 - 1, x0, x1, v);
      assert y1 - y0 == above + 1;
      AreaStep(v, cols, above);
    }
  }

  lemma {:induction false} SpanAgree(f: Pixel -> nat, a: Frame, b: Frame, j: nat, x0: nat, x1: nat)
    requires a.width == b.width && a.height == b.height
    requires j < a.height && x0 <= x1 <= a.width
    requires forall i :: x0 <= i < x1 ==> f(At(a, i, j)) == f(At(b, i, j))
    ensures Span(f, a, j, x0, x1) == Span(f, b, j, x0, x1)
    decreases x1 - x0
  {
    if x1 > x0 {
      SpanAgree(f, a, b, j, x0, x1 - 1);
    }
  }

  /** The sum depends only on the values f takes on the rectangle's pixels. */
  lemma {:induction false} BlockAgree(f: Pixel -> nat, a: Frame, b: Frame, x0: nat, x1: nat, y0: nat, y1: nat)
    requires a.width == b.width && a.height == b.height
    requires x0 <= x1 <= a.width && y0 <= y1 <= a.height
    requires forall i, j :: x0 <= i < x1 && y0 <= j < y1 ==> f(At(a, i, j)) == f(At(b, i, j))
    ensures Block(f, a, x0, x1, y0, y1) == Block(f, b, x0, x1, y0, y1)
    decreases y1 - y0
  {
    if y1 > y0 {
      BlockAgree(f, a, b, x0, x1, y0, y1 - 1);
      SpanAgree(f, a, b, y1 - 1, x0, x1);
    }
  }

  /** One more row of `cols` pixels, each weighing `a`. */
  lemma AreaStep(a: nat, cols: nat, above: nat)
    ensures a * (cols * (above + 1)) == a * (cols * above) + a * cols
  {
    assert cols * (above + 1) == cols * above + cols;
  }
}
