/** Bresenham line drawing: `line` of src/main.cpp. The image is left out;
    the method returns, in order, the pixels it passes to `image.set`. */
module Line {

  function Abs(n: int): (r: nat)
    ensures r == n || r == -n
  {
    if n < 0 then -n else n
  }

  function Max(a: int, b: int): (r: int)
    ensures r >= a && r >= b && (r == a || r == b)
  {
    if a < b then b else a
  }

  /** One call `image.set(x, y, color)`. */
  datatype Pixel = Pixel(x: int, y: int)

  /** The line after the two swaps: a is the major axis, b the minor one,
      and steep says whether they are y and x of the image. */
  datatype Setup = Setup(steep: bool, a0: int, b0: int, a1: int, b1: int)

  /** The swaps at the top of `line`. The major axis is the one with the
      larger extent, and it runs from a0 up to a1. */
  function Orient(x0: int, y0: int, x1: int, y1: int): (s: Setup)
    ensures s.steep <==> Abs(x0 - x1) < Abs(y0 - y1)
    ensures s.a0 <= s.a1 && Abs(s.b1 - s.b0) <= s.a1 - s.a0
    ensures s.a1 - s.a0 == Max(Abs(x1 - x0), Abs(y1 - y0))
    ensures !s.steep ==> (s.a0, s.b0, s.a1, s.b1) in {(x0, y0, x1, y1), (x1, y1, x0, y0)}
    ensures s.steep ==> (s.a0, s.b0, s.a1, s.b1) in {(y0, x0, y1, x1), (y1, x1, y0, x0)}
  {
    var steep := Abs(x0 - x1) < Abs(y0 - y1);
    var (a0, b0, a1, b1) := if steep then (y0, x0, y1, x1) else (x0, y0, x1, y1);
    if a0 > a1 then Setup(steep, a1, b1, a0, b0) else Setup(steep, a0, b0, a1, b1)
  }

  /** The pixel for major coordinate a and minor coordinate b, in the
      image's own orientation: a steep line is plotted as set(b, a). */
  function Plot(s: Setup, a: int, b: int): (p: Pixel)
    ensures s.steep ==> p == Pixel(b, a)
    ensures !s.steep ==> p == Pixel(a, b)
  {
    if s.steep then Pixel(b, a) else Pixel(a, b)
  }

  function Major(s: Setup, p: Pixel): int {
    if s.steep then p.y else p.x
  }

  function Minor(s: Setup, p: Pixel): int {
    if s.steep then p.x else p.y
  }

  /** How far b lies from b0 in the direction of b1; the loop steps y by
      +1 when y1 > y0 and by -1 otherwise. */
  function Offset(s: Setup, b: int): int {
    if s.b1 > s.b0 then b - s.b0 else s.b0 - b
  }

  /** Twice the distance, in units of 1 / dx, between the ideal minor
      offset k * dy / dx at step k and the offset m plotted. */
  function ErrorTerm(k: int, m: int, dx: int, ady: int): int {
    2 * k * ady - 2 * dx * m
  }

  /** m is the rounding of k * ady / dx to the nearest integer, halves
      rounded down. A line of one pixel has offset 0. */
  predicate Nearest(k: int, m: int, dx: int, ady: int) {
    if dx == 0 then m == 0 else -dx < ErrorTerm(k, m, dx, ady) <= dx
  }

  /** Pixel k of the line: major coordinate a0 + k and the nearest minor
      coordinate to the ideal line through (a0, b0) and (a1, b1). */
  predicate OnLine(s: Setup, k: int, p: Pixel) {
    && Major(s, p) == s.a0 + k
    && Nearest(k, Offset(s, Minor(s, p)), s.a1 - s.a0, Abs(s.b1 - s.b0))
  }

  /** What `line` draws: one pixel per major coordinate from a0 to a1, each
      the nearest to the ideal line. */
  predicate NearestLine(x0: int, y0: int, x1: int, y1: int, pixels: seq<Pixel>) {
    var s := Orient(x0, y0, x1, y1);
    && |pixels| == s.a1 - s.a0 + 1
    && forall k :: 0 <= k < |pixels| ==> OnLine(s, k, pixels[k])
  }

  /** One turn of the loop keeps the error within (-dx, dx]. */
  lemma DrawStep(k: int, m: int, dx: int, ady: int, e: int)
    requires 0 <= ady <= dx && e == ErrorTerm(k, m, dx, ady)
    requires -dx <= e <= dx && (0 < dx ==> -dx < e)
    ensures e + 2 * ady > dx ==>
              e + 2 * ady - dx * 2 == ErrorTerm(k + 1, m + 1, dx, ady) && -dx < e + 2 * ady - dx * 2 <= dx
    ensures e + 2 * ady <= dx ==>
              e + 2 * ady == ErrorTerm(k + 1, m, dx, ady) && -dx <= e + 2 * ady && (0 < dx ==> -dx < e + 2 * ady)
  {
    ErrorShift(k, m, 1, dx, ady);
    ErrorShift(k, m, 0, dx, ady);
  }

  /** The pixel plotted at step k is on the line when the error term is in
      range. */
  lemma PlotOnLine(s: Setup, k: int, b: int, e: int)
    requires s.a0 <= s.a1 && Abs(s.b1 - s.b0) <= s.a1 - s.a0
    requires e == ErrorTerm(k, Offset(s, b), s.a1 - s.a0, Abs(s.b1 - s.b0))
    requires -(s.a1 - s.a0) <= e <= s.a1 - s.a0 && (s.a0 < s.a1 ==> -(s.a1 - s.a0) < e)
    requires s.a0 == s.a1 ==> b == s.b0
    ensures OnLine(s, k, Plot(s, s.a0 + k, b))
  {
  }

  /** The swaps at the top of `line`, done on its parameters. */
  method Swap(x0: int, y0: int, x1: int, y1: int) returns (steep: bool, ax0: int, ay0: int, ax1: int, ay1: int)
    ensures Setup(steep, ax0, ay0, ax1, ay1) == Orient(x0, y0, x1, y1)
  {
    ax0, ay0, ax1, ay1 := x0, y0, x1, y1;
    steep := false;
    if Abs(ax0 - ax1) < Abs(ay0 - ay1) {
      ax0, ay0 := ay0, ax0;
      ax1, ay1 := ay1, ax1;
      steep := true;
    }
    if ax0 > ax1 {
      ax0, ax1 := ax1, ax0;
      ay0, ay1 := ay1, ay0;
    }
  }

  /** `line`, returning the arguments of its `image.set` calls in order. */
  method Draw(x0: int, y0: int, x1: int, y1: int) returns (pixels: seq<Pixel>)
    ensures NearestLine(x0, y0, x1, y1, pixels)
  {
    var steep, ax0, ay0, ax1, ay1 := Swap(x0, y0, x1, y1);
    ghost var s := Setup(steep, ax0, ay0, ax1, ay1);
    var dx := ax1 - ax0;
    var dy := ay1 - ay0;
    var derror2 := Abs(dy) * 2;
    var error2 := 0;
    var y := ay0;
    var x := ax0;
    ghost var m := 0;
    pixels := [];
    while x <= ax1
      invariant ax0 <= x <= ax1 + 1 && |pixels| == x - ax0
      invariant m == Offset(s, y) && error2 == ErrorTerm(x - ax0, m, dx, Abs(dy))
      invariant -dx <= error2 <= dx && (0 < dx ==> -dx < error2)
      invariant dx == 0 ==> y == ay0
      invariant forall k :: 0 <= k < |pixels| ==> OnLine(s, k, pixels[k])
    {
      PlotOnLine(s, x - ax0, y, error2);
      if !steep {
        pixels := pixels + [Pixel(x, y)];
      } else {
        pixels := pixels + [Pixel(y, x)];
      }
      DrawStep(x - ax0, m, dx, Abs(dy), error2);
      error2 := error2 + derror2;
      if error2 > dx {
        y := y + (if ay1 > ay0 then 1 else -1);
        error2 := error2 - dx * 2;
        m := m + 1;
      }
      x := x + 1;
    }
  }

  // ---------------------------------------------------------------------
  // Properties of the line drawn
  // ---------------------------------------------------------------------

  /** Multiplying by a positive factor keeps order. */
  lemma ScaleMonotone(a: int, b: int, c: int)
    requires a > 0 && b <= c
    ensures a * b <= a * c
  {
    assert a * c - a * b == a * (c - b);
  }

  /** A multiple 2 * d * q of 2 * d strictly between -2 * d * lo and
      2 * d * hi has lo < q < hi. */
  lemma MultipleBetween(d: int, q: int, lo: int, hi: int)
    requires d > 0 && 2 * d * lo < 2 * d * q < 2 * d * hi
    ensures lo < q < hi
  {
    if q <= lo {
      ScaleMonotone(2 * d, q, lo);
    }
    if q >= hi {
      ScaleMonotone(2 * d, hi, q);
    }
  }

  /** Moving one step along the major axis and d along the minor one. */
  lemma ErrorShift(k: int, m: int, d: int, dx: int, ady: int)
    ensures ErrorTerm(k + 1, m + d, dx, ady) == ErrorTerm(k, m, dx, ady) + 2 * ady - 2 * dx * d
  {
    assert 2 * (k + 1) * ady == 2 * k * ady + 2 * ady;
    assert 2 * dx * (m + d) == 2 * dx * m + 2 * dx * d;
  }

  /** The nearest offset at each step is unique. */
  lemma NearestUnique(k: int, m: int, m': int, dx: int, ady: int)
    requires Nearest(k, m, dx, ady) && Nearest(k, m', dx, ady)
    ensures m == m'
  {
    if dx != 0 {
      assert 2 * dx * m' - 2 * dx * m == 2 * dx * (m' - m);
      assert 2 * dx * (m' - m) == ErrorTerm(k, m, dx, ady) - ErrorTerm(k, m', dx, ady);
      MultipleBetween(dx, m' - m, -1, 1);
    }
  }

  /** NearestLine determines the pixels: any two sequences that satisfy it
      are equal, so it is a complete specification of `line`. */
  lemma NearestLineUnique(x0: int, y0: int, x1: int, y1: int, p: seq<Pixel>, q: seq<Pixel>)
    requires NearestLine(x0, y0, x1, y1, p) && NearestLine(x0, y0, x1, y1, q)
    ensures p == q
  {
    var s := Orient(x0, y0, x1, y1);
    forall k | 0 <= k < |p|
      ensures p[k] == q[k]
    {
      assert OnLine(s, k, p[k]) && OnLine(s, k, q[k]);
      NearestUnique(k, Offset(s, Minor(s, p[k])), Offset(s, Minor(s, q[k])), s.a1 - s.a0, Abs(s.b1 - s.b0));
    }
  }

  /** The pixel count is one more than the larger extent of the line. */
  lemma LineLength(x0: int, y0: int, x1: int, y1: int, pixels: seq<Pixel>)
    requires NearestLine(x0, y0, x1, y1, pixels)
    ensures |pixels| == Max(Abs(x1 - x0), Abs(y1 - y0)) + 1
    ensures forall k :: 0 <= k < |pixels| ==> Major(Orient(x0, y0, x1, y1), pixels[k]) == Orient(x0, y0, x1, y1).a0 + k
  {
  }

  /** The first pixel is (a0, b0) and the last (a1, b1). */
  lemma LineEnds(s: Setup, pixels: seq<Pixel>)
    requires s.a0 <= s.a1 && Abs(s.b1 - s.b0) <= s.a1 - s.a0
    requires |pixels| == s.a1 - s.a0 + 1
    requires forall k :: 0 <= k < |pixels| ==> OnLine(s, k, pixels[k])
    ensures pixels[0] == Plot(s, s.a0, s.b0)
    ensures pixels[|pixels| - 1] == Plot(s, s.a1, s.b1)
  {
    var dx, ady := s.a1 - s.a0, Abs(s.b1 - s.b0);
    assert OnLine(s, 0, pixels[0]);
    assert Nearest(0, 0, dx, ady);
    NearestUnique(0, Offset(s, Minor(s, pixels[0])), 0, dx, ady);
    assert OnLine(s, dx, pixels[dx]);
    assert ErrorTerm(dx, ady, dx, ady) == 0;
    assert Nearest(dx, ady, dx, ady);
    NearestUnique(dx, Offset(s, Minor(s, pixels[dx])), ady, dx, ady);
  }

  /** Both end points passed to `line` are plotted. */
  lemma LineEndpoints(x0: int, y0: int, x1: int, y1: int, pixels: seq<Pixel>)
    requires NearestLine(x0, y0, x1, y1, pixels)
    ensures Pixel(x0, y0) in pixels && Pixel(x1, y1) in pixels
  {
    var s := Orient(x0, y0, x1, y1);
    LineEnds(s, pixels);
    assert pixels[0] in pixels && pixels[|pixels| - 1] in pixels;
  }

  /** Between two steps the minor offset grows by 0 or 1. */
  lemma OffsetStep(k: int, m: int, m': int, dx: int, ady: int)
    requires 0 <= ady <= dx && Nearest(k, m, dx, ady) && Nearest(k + 1, m', dx, ady)
    ensures m' == m || m' == m + 1
  {
    if dx != 0 {
      var d := m' - m;
      ErrorShift(k, m, d, dx, ady);
      MultipleBetween(dx, d, -1, 2);
    }
  }

  /** Consecutive pixels are one apart along the major axis, and along the
      minor axis they stay or move by one toward b1. */
  lemma LineSteps(x0: int, y0: int, x1: int, y1: int, pixels: seq<Pixel>, k: nat)
    requires NearestLine(x0, y0, x1, y1, pixels) && k + 1 < |pixels|
    ensures var s := Orient(x0, y0, x1, y1);
            && Major(s, pixels[k + 1]) == Major(s, pixels[k]) + 1
            && Minor(s, pixels[k + 1]) - Minor(s, pixels[k]) in {0, if s.b1 > s.b0 then 1 else -1}
  {
    var s := Orient(x0, y0, x1, y1);
    assert OnLine(s, k, pixels[k]) && OnLine(s, k + 1, pixels[k + 1]);
    OffsetStep(k, Offset(s, Minor(s, pixels[k])), Offset(s, Minor(s, pixels[k + 1])),
               s.a1 - s.a0, Abs(s.b1 - s.b0));
  }
}
