/**
 * The per-pixel images of the silhouette and depth captures, and the pixel
 * grid the photo capture hands to the lens-distortion resampler.
 *
 * Both images are indexed `[row, column]`. The renderer's depth buffer has
 * its origin at the bottom-left, so output row `row` shows buffer row
 * `height - row - 1`.
 */
module Frames {
  import opened Geometry
  import opened Viz

  newtype Byte = x: int | 0 <= x < 256

  /** One pixel of an 8-bit, three-channel colour image. */
  datatype Rgb = Rgb(b: Byte, g: Byte, r: Byte)

  const Black: Rgb := Rgb(0, 0, 0)
  const White: Rgb := Rgb(255, 255, 255)

  /** The buffer row shown at output row `row` (the vertical flip). */
  function FlippedRow(r: Renderer, row: int): int {
    r.height - row - 1
  }

  /** The silhouette pixel at `[row, col]`: black over background, white over geometry. */
  function MaskAt(r: Renderer, row: int, col: int): Rgb {
    if r.depth(Pixel(col, FlippedRow(r, row))) == Background then Black else White
  }

  /**
   * The vertical flip is its own inverse: window pixel (x, y) is shown at
   * output row `height - y - 1`, where the mask is white exactly when the
   * buffer has geometry at (x, y).
   */
  lemma MaskMarksGeometry(r: Renderer, x: int, y: int)
    requires r.InWindow(Pixel(x, y))
    ensures 0 <= FlippedRow(r, y) < r.height
    ensures MaskAt(r, FlippedRow(r, y), x) == White <==> r.depth(Pixel(x, y)) != Background
    ensures MaskAt(r, FlippedRow(r, y), x) == Black <==> r.depth(Pixel(x, y)) == Background
  {
  }

  /** On an empty scene the silhouette is entirely black. */
  lemma EmptySceneIsBlack(r: Renderer)
    requires forall px :: r.depth(px) == Background
    ensures forall row, col :: MaskAt(r, row, col) == Black
  {
  }

  /**
   * The silhouette loop: every pixel of a window-sized image is written,
   * black or white according to the depth buffer at the flipped row.
   */
  method RenderMask(r: Renderer) returns (screen: array2<Rgb>)
    ensures fresh(screen)
    ensures screen.Length0 == r.height && screen.Length1 == r.width
    ensures forall row, col :: 0 <= row < r.height && 0 <= col < r.width ==>
              screen[row, col] == MaskAt(r, row, col)
  {
    screen := new Rgb[r.height, r.width];
    for i := 0 to r.height
      invariant forall row, col :: 0 <= row < i && 0 <= col < r.width ==>
                  screen[row, col] == MaskAt(r, row, col)
    {
      for j := 0 to r.width
        invariant forall row, col :: 0 <= row < i && 0 <= col < r.width ==>
                    screen[row, col] == MaskAt(r, row, col)
        invariant forall col :: 0 <= col < j ==> screen[i, col] == MaskAt(r, i, col)
      {
        if r.depth(Pixel(j, r.height - i - 1)) == Background {
          screen[i, j] := Black;
        } else {
          screen[i, j] := White;
        }
      }
    }
  }

  /**
   * Metric depth from a normalised depth-buffer value `d` under clip planes
   * `near` and `far`, inverting the perspective depth mapping.
   */
  function MetricDepth(d: real, near: real, far: real): real
    requires 0.0 < near < far && 0.0 <= d <= 1.0
  {
    DenominatorBounds(d, near, far);
    (2.0 * near * far) / Denominator(d, near, far)
  }

  /** The denominator of the metric-depth formula. */
  function Denominator(d: real, near: real, far: real): real {
    far + near - (2.0 * d - 1.0) * (far - near)
  }

  /** The denominator lies between `2 near` and `2 far`, so it is never zero. */
  lemma DenominatorBounds(d: real, near: real, far: real)
    requires 0.0 < near < far && 0.0 <= d <= 1.0
    ensures 2.0 * near <= Denominator(d, near, far) <= 2.0 * far
    ensures d == 0.0 ==> Denominator(d, near, far) == 2.0 * far
    ensures d == 1.0 ==> Denominator(d, near, far) == 2.0 * near
  {
    var w := far - near;
    var dw := d * w;
    assert (2.0 * d - 1.0) * w == 2.0 * dw - w;
    ScaleMonotone(d, 1.0, w);
    ScaleMonotone(0.0, d, w);
    assert 0.0 <= dw <= w;
  }

  /** The denominator shrinks as the buffer value grows. */
  lemma DenominatorDecreasing(d1: real, d2: real, near: real, far: real)
    requires near < far && d1 < d2
    ensures Denominator(d2, near, far) < Denominator(d1, near, far)
  {
    var w := far - near;
    var dw1, dw2 := d1 * w, d2 * w;
    assert (2.0 * d1 - 1.0) * w == 2.0 * dw1 - w;
    assert (2.0 * d2 - 1.0) * w == 2.0 * dw2 - w;
    ScaleStrict(d1, d2, w);
  }

  /** Scaling by a non-negative factor keeps order. */
  lemma ScaleMonotone(a: real, b: real, c: real)
    requires a <= b && c >= 0.0
    ensures a * c <= b * c
  {
    assert b * c - a * c == (b - a) * c;
  }

  /** Scaling by a positive factor keeps strict order. */
  lemma ScaleStrict(a: real, b: real, c: real)
    requires a < b && c > 0.0
    ensures a * c < b * c
  {
    assert b * c - a * c == (b - a) * c;
  }

  /** The normalised depth-buffer value of metric depth `m` (the forward perspective mapping). */
  function WindowDepth(m: real, near: real, far: real): real
    requires m > 0.0 && near < far
  {
    ((far + near - 2.0 * near * far / m) / (far - near) + 1.0) / 2.0
  }

  /**
   * Metric depth of a buffer value lies between the clip planes: the near
   * plane for d = 0, the far plane for d = 1.
   */
  lemma MetricDepthBounds(d: real, near: real, far: real)
    requires 0.0 < near < far && 0.0 <= d <= 1.0
    ensures near <= MetricDepth(d, near, far) <= far
    ensures d == 0.0 ==> MetricDepth(d, near, far) == near
    ensures d == 1.0 ==> MetricDepth(d, near, far) == far
  {
    var den := Denominator(d, near, far);
    var num := 2.0 * near * far;
    DenominatorBounds(d, near, far);
    ScaleMonotone(den, 2.0 * far, near);
    assert den * near <= num;
    QuotientAtLeast(num, den, near);
    ScaleMonotone(2.0 * near, den, far);
    assert num <= den * far;
    QuotientAtMost(num, den, far);
    if d == 0.0 {
      QuotientOfProduct(2.0 * near, far);
    }
    if d == 1.0 {
      QuotientOfProduct(2.0 * far, near);
    }
  }

  /** A quotient is at least `c` when the numerator is at least `c` times the denominator. */
  lemma QuotientAtLeast(num: real, den: real, c: real)
    requires den > 0.0 && den * c <= num
    ensures c <= num / den
  {
    var q := num / den;
    assert q * den == num;
    if q < c {
      ScaleStrict(q, c, den);
    }
  }

  /** A quotient is at most `c` when the numerator is at most `c` times the denominator. */
  lemma QuotientAtMost(num: real, den: real, c: real)
    requires den > 0.0 && num <= den * c
    ensures num / den <= c
  {
    var q := num / den;
    assert q * den == num;
    if c < q {
      ScaleStrict(c, q, den);
    }
  }

  lemma QuotientOfProduct(a: real, b: real)
    requires a != 0.0
    ensures (a * b) / a == b
  {
  }

  /** A positive numerator over a greater denominator gives a smaller quotient. */
  lemma QuotientAntitone(num: real, a: real, b: real)
    requires num > 0.0 && 0.0 < a < b
    ensures num / b < num / a
  {
    var qa, qb := num / a, num / b;
    assert qa * a == num && qb * b == num;
    assert qb > 0.0;
    if qa <= qb {
      ScaleStrict(a, b, qb);
      ScaleMonotone(qa, qb, a);
    }
  }

  /** Converting a buffer value to metric depth and back gives the buffer value. */
  lemma MetricDepthInverse(d: real, near: real, far: real)
    requires 0.0 < near < far && 0.0 <= d <= 1.0
    ensures MetricDepth(d, near, far) > 0.0
    ensures WindowDepth(MetricDepth(d, near, far), near, far) == d
  {
    var den := Denominator(d, near, far);
    var num := 2.0 * near * far;
    DenominatorBounds(d, near, far);
    var m := MetricDepth(d, near, far);
    assert m == num / den;
    DivByQuotient(num, den);
    assert num / m == den;
    assert far + near - den == (2.0 * d - 1.0) * (far - near);
    DivCancel(2.0 * d - 1.0, far - near);
  }

  lemma DivCancel(a: real, b: real)
    requires b != 0.0
    ensures (a * b) / b == a
  {
  }

  lemma DivByQuotient(num: real, den: real)
    requires num > 0.0 && den > 0.0
    ensures num / den > 0.0 && num / (num / den) == den
  {
    var q := num / den;
    assert q * den == num;
  }

  /** Points farther into the buffer have greater metric depth. */
  lemma MetricDepthIncreasing(d1: real, d2: real, near: real, far: real)
    requires 0.0 < near < far && 0.0 <= d1 < d2 <= 1.0
    ensures MetricDepth(d1, near, far) < MetricDepth(d2, near, far)
  {
    DenominatorBounds(d2, near, far);
    DenominatorDecreasing(d1, d2, near, far);
    QuotientAntitone(2.0 * near * far, Denominator(d2, near, far), Denominator(d1, near, far));
  }

  /** With near = 0.1 and far = 100, buffer depth 0.5 is 20 / 100.1, about 0.1998, in metres. */
  lemma MetricDepthExample()
    ensures MetricDepth(0.5, 0.1, 100.0) == 20.0 / 100.1
  {
  }

  /** The depth-map pixel at `[row, col]`: zero over background, metric depth over geometry. */
  function DepthMapAt(r: Renderer, row: int, col: int): real
    requires r.WellFormed()
  {
    var d := r.depth(Pixel(col, FlippedRow(r, row)));
    if d == Background then 0.0 else MetricDepth(d, r.near, r.far)
  }

  /**
   * A depth-map pixel is zero exactly over background; over geometry it lies
   * between the clip planes and converts back to the buffer value.
   */
  lemma DepthMapMeaning(r: Renderer, row: int, col: int)
    requires r.WellFormed()
    ensures var d := r.depth(Pixel(col, FlippedRow(r, row)));
            (DepthMapAt(r, row, col) == 0.0 <==> d == Background) &&
            (d != Background ==>
               r.near <= DepthMapAt(r, row, col) <= r.far &&
               WindowDepth(DepthMapAt(r, row, col), r.near, r.far) == d)
  {
    var d := r.depth(Pixel(col, FlippedRow(r, row)));
    if d != Background {
      MetricDepthBounds(d, r.near, r.far);
      MetricDepthInverse(d, r.near, r.far);
    }
  }

  /**
   * The depth loop: a zero-filled window-sized map in which each non-background
   * buffer pixel (j, i) writes its metric depth at row `height - i - 1`.
   */
  method RenderDepthMap(r: Renderer) returns (depth: array2<real>)
    requires r.WellFormed()
    ensures fresh(depth)
    ensures depth.Length0 == r.height && depth.Length1 == r.width
    ensures forall row, col :: 0 <= row < r.height && 0 <= col < r.width ==>
              depth[row, col] == DepthMapAt(r, row, col)
  {
    depth := new real[r.height, r.width]((_, _) => 0.0);
    for i := 0 to r.height
      invariant forall row, col :: 0 <= row < r.height && 0 <= col < r.width ==>
                  depth[row, col] == if FlippedRow(r, row) < i then DepthMapAt(r, row, col) else 0.0
    {
      for j := 0 to r.width
        invariant forall row, col :: 0 <= row < r.height && 0 <= col < r.width ==>
                    depth[row, col] ==
                      if FlippedRow(r, row) < i || (FlippedRow(r, row) == i && col < j)
                      then DepthMapAt(r, row, col) else 0.0
      {
        var d := r.depth(Pixel(j, i));
        if d == Background {
          continue;
        }
        depth[r.height - i - 1, j] := MetricDepth(d, r.near, r.far);
      }
    }
  }

  /** Row-major position `i * cols + j` holds column `j` and row `i`. */
  lemma RowMajor(i: nat, j: nat, cols: nat)
    requires j < cols
    ensures (i * cols + j) / cols == i && (i * cols + j) % cols == j
  {
    var k := i * cols + j;
    var q, m := k / cols, k % cols;
    assert k == q * cols + m && 0 <= m < cols;
    assert q * cols - i * cols == (q - i) * cols;
    var e := q - i;
    assert e * cols == j - m;
    if e >= 1 {
      MulAtLeast(e, cols);
    } else if e <= -1 {
      MulAtLeast(-e, cols);
    }
  }

  lemma MulAtLeast(e: int, c: nat)
    requires e >= 1
    ensures e * c >= c
  {
    assert e * c - c == (e - 1) * c;
  }

  /**
   * The grid of source pixels for the distortion resampler: every pixel of a
   * `rows x cols` image as (column, row), row by row.
   */
  method PixelGrid(rows: nat, cols: nat) returns (grid: seq<Point2>)
    ensures |grid| == rows * cols
    ensures forall k :: 0 <= k < |grid| ==> grid[k] == Point2((k % cols) as real, (k / cols) as real)
  {
    grid := [];
    for i := 0 to rows
      invariant |grid| == i * cols
      invariant forall k :: 0 <= k < |grid| ==> grid[k] == Point2((k % cols) as real, (k / cols) as real)
    {
      for j := 0 to cols
        invariant |grid| == i * cols + j
        invariant forall k :: 0 <= k < |grid| ==> grid[k] == Point2((k % cols) as real, (k / cols) as real)
      {
        RowMajor(i, j, cols);
        grid := grid + [Point2(j as real, i as real)];
      }
    }
  }
}
