/** The drawing primitives of src/rendering/software_renderer.c: clipped pixels, Bresenham's line
    and the midpoint circle, each proved to paint exactly a set of pixels given by a closed form.
    The pixel at offset y * width + x is `pixels[y, x]` here. */
module Renderer {
  import opened Arith

  type Color = nat

  function Abs(a: int): nat {
    if a < 0 then -a else a
  }

  function Max(a: nat, b: nat): nat {
    if a < b then b else a
  }

  class Framebuffer {
    const width: nat
    const height: nat
    const pixels: array2<Color>

    ghost predicate Valid() {
      pixels.Length0 == height && pixels.Length1 == width
    }

    predicate Inside(x: int, y: int) {
      0 <= x < width && 0 <= y < height
    }

    constructor (width: nat, height: nat)
      requires width > 0 && height > 0
      ensures Valid() && this.width == width && this.height == height && fresh(pixels)
      ensures forall x, y :: Inside(x, y) ==> pixels[y, x] == 0
    {
      this.width, this.height := width, height;
      pixels := new Color[height, width]((_, _) => 0);
    }

    /** `framebuffer_set_pixel`: off-screen writes are ignored. */
    method SetPixel(x: int, y: int, color: Color)
      requires Valid()
      modifies pixels
      ensures forall px, py :: Inside(px, py) ==>
        pixels[py, px] == if px == x && py == y then color else old(pixels[py, px])
    {
      if x < 0 || x >= width || y < 0 || y >= height {
        return;
      }
      pixels[y, x] := color;
    }
  }

  // ----- the line ------------------------------------------------------------------------------

  /** How far the minor axis has moved after t of `major` steps: t * minor / major, rounded to the
      nearest integer, halves upward. */
  function Minor(t: nat, major: nat, minor: nat): nat {
    if major == 0 then 0 else (2 * t * minor + major) / (2 * major)
  }

  /** Steps along x and along y after t steps along the longer axis. */
  function Along(t: nat, dx: nat, dy: nat): (nat, nat) {
    if dx >= dy then (t, Minor(t, dx, dy)) else (Minor(t, dy, dx), t)
  }

  function Toward(from: int, to: int): int {
    if from < to then 1 else -1
  }

  /** The t-th pixel of the line. */
  function LinePoint(x0: int, y0: int, x1: int, y1: int, t: nat): (int, int) {
    var (i, j) := Along(t, Abs(x1 - x0), Abs(y1 - y0));
    (x0 + Toward(x0, x1) * i, y0 + Toward(y0, y1) * j)
  }

  function LineLength(x0: int, y0: int, x1: int, y1: int): nat {
    Max(Abs(x1 - x0), Abs(y1 - y0))
  }

  /** Each pixel is within half a pixel of the ideal line on the minor axis. */
  lemma {:induction false} MinorWithinHalf(t: nat, major: nat, minor: nat)
    requires major > 0
    ensures var j := Minor(t, major, minor); 0 - major < 2 * (j * major - t * minor) <= major
  {
    var n := 2 * t * minor + major;
    var j := n / (2 * major);
    assert n == 2 * major * j + n % (2 * major);
    assert 2 * major * j == 2 * (j * major) && 2 * t * minor == 2 * (t * minor);
  }

  /** That bound determines the pixel. */
  lemma {:induction false} MinorUnique(t: nat, major: nat, minor: nat, j: nat)
    requires major > 0 && 0 - major < 2 * (j * major - t * minor) <= major
    ensures Minor(t, major, minor) == j
  {
    var n := 2 * t * minor + major;
    assert 2 * major * j == 2 * (j * major) && 2 * t * minor == 2 * (t * minor);
    DivModUnique(n, 2 * major, j, n - 2 * major * j);
  }

  /** One step further along the major axis, the minor axis moves by one exactly when the doubled
      error, were it not moved, would reach the threshold. */
  lemma {:induction false} MinorStep(t: nat, major: nat, minor: nat)
    requires 0 < major && minor <= major
    ensures var j := Minor(t, major, minor);
            Minor(t + 1, major, minor) == if 2 * (j * major) + major <= 2 * (t * minor) + 2 * minor then j + 1 else j
  {
    var j := Minor(t, major, minor);
    MinorWithinHalf(t, major, minor);
    assert (t + 1) * minor == t * minor + minor && (j + 1) * major == j * major + major;
    if 2 * (j * major) + major <= 2 * (t * minor) + 2 * minor {
      MinorUnique(t + 1, major, minor, j + 1);
    } else {
      MinorUnique(t + 1, major, minor, j);
    }
  }

  lemma {:induction false} MinorEnds(major: nat, minor: nat)
    requires minor <= major
    ensures Minor(0, major, minor) == 0 && Minor(major, major, minor) == minor
  {
    if major > 0 {
      assert 0 * minor == 0 && minor * major == major * minor;
      MinorUnique(0, major, minor, 0);
      MinorUnique(major, major, minor, minor);
    }
  }

  /** The error term of the code at step t. */
  function Error(t: nat, dx: nat, dy: nat): int {
    Along(t, dx, dy).1 * dx - Along(t, dx, dy).0 * dy + dx - dy
  }

  /** The tests and bounds of the loop are linear in the two products. */
  lemma {:induction false} ErrorNearXMajor(t: nat, dx: nat, dy: nat, j: nat)
    requires dx >= dy && dx > 0 && j == Minor(t, dx, dy)
    ensures var e2 := 2 * (j * dx - t * dy + dx - dy);
            && e2 >= 0 - dy && (e2 <= dx <==> 2 * (j * dx) + dx <= 2 * (t * dy) + 2 * dy)
            && 0 - 3 * dx <= e2 <= 3 * dx
  {
    MinorWithinHalf(t, dx, dy);
  }

  lemma {:induction false} ErrorNearYMajor(t: nat, dx: nat, dy: nat, i: nat)
    requires dx < dy && i == Minor(t, dy, dx)
    ensures var e2 := 2 * (t * dx - i * dy + dx - dy);
            && e2 <= dx && (e2 >= 0 - dy <==> 2 * (i * dy) + dy <= 2 * (t * dx) + 2 * dx)
            && 0 - 3 * dy <= e2 <= 3 * dy
  {
    MinorWithinHalf(t, dy, dx);
  }

  /** One turn of the loop: both tests of the code, and what they do to the position. */
  lemma {:induction false} LineStep(t: nat, dx: nat, dy: nat)
    requires t < Max(dx, dy)
    ensures var (i, j) := Along(t, dx, dy);
            var e2 := 2 * Error(t, dx, dy);
            Along(t + 1, dx, dy) == (if e2 >= 0 - dy then i + 1 else i, if e2 <= dx then j + 1 else j)
  {
    if dx >= dy {
      MinorStep(t, dx, dy);
      ErrorNearXMajor(t, dx, dy, Minor(t, dx, dy));
    } else {
      MinorStep(t, dy, dx);
      ErrorNearYMajor(t, dx, dy, Minor(t, dy, dx));
    }
  }

  /** The error term never exceeds three halves of the longer side. */
  lemma {:induction false} ErrorBound(t: nat, dx: nat, dy: nat)
    ensures Abs(2 * Error(t, dx, dy)) <= 3 * Max(dx, dy)
  {
    if dx >= dy && dx > 0 {
      ErrorNearXMajor(t, dx, dy, Minor(t, dx, dy));
    } else if dx < dy {
      ErrorNearYMajor(t, dx, dy, Minor(t, dy, dx));
    }
  }

  lemma {:induction false} ErrorStep(t: nat, dx: nat, dy: nat)
    requires t < Max(dx, dy)
    ensures var e := Error(t, dx, dy);
            Error(t + 1, dx, dy) == e + (if 2 * e >= 0 - dy then 0 - dy else 0) + (if 2 * e <= dx then dx else 0)
  {
    LineStep(t, dx, dy);
    var (i, j) := Along(t, dx, dy);
    assert (i + 1) * dy == i * dy + dy && (j + 1) * dx == j * dx + dx;
  }

  lemma {:induction false} StepBy(from: int, to: int)
    ensures Toward(from, to) * Abs(to - from) == to - from
    ensures Toward(from, to) == 1 || Toward(from, to) == -1
  {
  }

  lemma {:induction false} ReachesAt(a: int, b: int, t: nat)
    ensures t <= Abs(b - a) ==> (a + Toward(a, b) * t == b <==> t == Abs(b - a))
  {
    if a < b {
      assert Toward(a, b) * t == t;
    } else {
      assert Toward(a, b) * t == 0 - t;
    }
  }

  /** The line starts at its first end point and reaches the second after exactly the longer side's
      number of steps, not before. */
  lemma {:induction false} LineEnds(x0: int, y0: int, x1: int, y1: int, t: nat)
    requires t <= LineLength(x0, y0, x1, y1)
    ensures LinePoint(x0, y0, x1, y1, 0) == (x0, y0)
    ensures LinePoint(x0, y0, x1, y1, t) == (x1, y1) <==> t == LineLength(x0, y0, x1, y1)
  {
    var dx, dy := Abs(x1 - x0), Abs(y1 - y0);
    StepBy(x0, x1);
    StepBy(y0, y1);
    if dx >= dy {
      MinorEnds(dx, dy);
      ReachesAt(x0, x1, t);
    } else {
      MinorEnds(dy, dx);
      ReachesAt(y0, y1, t);
    }
  }

  lemma {:induction false} LinePointStep(x0: int, y0: int, x1: int, y1: int, t: nat)
    requires t < LineLength(x0, y0, x1, y1)
    ensures var dx, dy := Abs(x1 - x0), Abs(y1 - y0);
            var e2 := 2 * Error(t, dx, dy);
            var (x, y) := LinePoint(x0, y0, x1, y1, t);
            LinePoint(x0, y0, x1, y1, t + 1) ==
            (x + (if e2 >= 0 - dy then Toward(x0, x1) else 0), y + (if e2 <= dx then Toward(y0, y1) else 0))
  {
    LineStep(t, Abs(x1 - x0), Abs(y1 - y0));
    StepBy(x0, x1);
    StepBy(y0, y1);
  }

  /** Consecutive pixels are neighbours, diagonals included, and never the same. */
  lemma {:induction false} LineIsConnected(x0: int, y0: int, x1: int, y1: int, t: nat)
    requires t < LineLength(x0, y0, x1, y1)
    ensures var (x, y) := LinePoint(x0, y0, x1, y1, t);
            var (x', y') := LinePoint(x0, y0, x1, y1, t + 1);
            Max(Abs(x' - x), Abs(y' - y)) == 1
  {
    LineStep(t, Abs(x1 - x0), Abs(y1 - y0));
    LinePointStep(x0, y0, x1, y1, t);
  }

  /** Every intermediate value of the loop fits in an `int` when three times the longer side does. */
  lemma {:induction false} LineStaysInInt(x0: int, y0: int, x1: int, y1: int, t: nat)
    requires 3 * LineLength(x0, y0, x1, y1) <= 0x7FFF_FFFF
    ensures var dx, dy := Abs(x1 - x0), Abs(y1 - y0);
            var e := Error(t, dx, dy);
            && Abs(2 * e) <= 0x7FFF_FFFF && Abs(e - dy) <= 0x7FFF_FFFF && Abs(e - dy + dx) <= 0x7FFF_FFFF
            && Abs(e + dx) <= 0x7FFF_FFFF
  {
    ErrorBound(t, Abs(x1 - x0), Abs(y1 - y0));
  }

  /** The pixels of the line, in the order in which they are drawn. */
  function LinePixels(x0: int, y0: int, x1: int, y1: int): seq<(int, int)> {
    seq(LineLength(x0, y0, x1, y1) + 1, t requires 0 <= t => LinePoint(x0, y0, x1, y1, t))
  }

  ghost predicate ItineraryStep(pts: seq<(int, int)>, errs: seq<int>, dx: int, dy: int, sx: int, sy: int, t: nat)
    requires t + 1 < |pts| == |errs|
  {
    var e2 := 2 * errs[t];
    && pts[t + 1] == (pts[t].0 + (if e2 >= dy then sx else 0), pts[t].1 + (if e2 <= dx then sy else 0))
    && errs[t + 1] == errs[t] + (if e2 >= dy then dy else 0) + (if e2 <= dx then dx else 0)
  }

  /** What the loop of `framebuffer_line` needs to know of the points and the errors along the way. */
  ghost predicate Itinerary(
    pts: seq<(int, int)>, errs: seq<int>, dx: int, dy: int, sx: int, sy: int, x1: int, y1: int) {
    && |pts| == |errs| > 0
    && (forall t :: 0 <= t < |pts| ==> (pts[t] == (x1, y1) <==> t == |pts| - 1))
    && (forall t :: 0 <= t < |pts| - 1 ==> ItineraryStep(pts, errs, dx, dy, sx, sy, t))
  }

  function LineErrors(x0: int, y0: int, x1: int, y1: int): seq<int> {
    seq(LineLength(x0, y0, x1, y1) + 1, t requires 0 <= t => Error(t, Abs(x1 - x0), Abs(y1 - y0)))
  }

  lemma {:induction false} LineItineraryStep(x0: int, y0: int, x1: int, y1: int, t: nat)
    requires t < LineLength(x0, y0, x1, y1)
    ensures ItineraryStep(LinePixels(x0, y0, x1, y1), LineErrors(x0, y0, x1, y1),
                          Abs(x1 - x0), 0 - Abs(y1 - y0), Toward(x0, x1), Toward(y0, y1), t)
  {
    LinePointStep(x0, y0, x1, y1, t);
    ErrorStep(t, Abs(x1 - x0), Abs(y1 - y0));
  }

  function Min(a: nat, b: nat): nat {
    if a < b then a else b
  }

  lemma {:induction false} FirstError(x0: int, y0: int, x1: int, y1: int)
    ensures Error(0, Abs(x1 - x0), Abs(y1 - y0)) == Abs(x1 - x0) - Abs(y1 - y0)
  {
    var dx, dy := Abs(x1 - x0), Abs(y1 - y0);
    MinorEnds(Max(dx, dy), Min(dx, dy));
  }

  lemma {:induction false} LineItinerary(x0: int, y0: int, x1: int, y1: int)
    ensures Itinerary(LinePixels(x0, y0, x1, y1), LineErrors(x0, y0, x1, y1),
                      Abs(x1 - x0), 0 - Abs(y1 - y0), Toward(x0, x1), Toward(y0, y1), x1, y1)
    ensures LinePixels(x0, y0, x1, y1)[0] == (x0, y0)
    ensures LineErrors(x0, y0, x1, y1)[0] == Abs(x1 - x0) - Abs(y1 - y0)
  {
    LineEnds(x0, y0, x1, y1, 0);
    FirstError(x0, y0, x1, y1);
    var pts, n := LinePixels(x0, y0, x1, y1), LineLength(x0, y0, x1, y1);
    forall t | 0 <= t <= n
      ensures pts[t] == (x1, y1) <==> t == n
      ensures t < n ==> ItineraryStep(pts, LineErrors(x0, y0, x1, y1),
                                      Abs(x1 - x0), 0 - Abs(y1 - y0), Toward(x0, x1), Toward(y0, y1), t)
    {
      LineEnds(x0, y0, x1, y1, t);
      if t < n {
        LineItineraryStep(x0, y0, x1, y1, t);
      }
    }
  }

  /** The loop of `framebuffer_line`. */
  method FollowLine(fb: Framebuffer, x0: int, y0: int, x1: int, y1: int, dx: int, dy: int, sx: int, sy: int,
                    color: Color, ghost pts: seq<(int, int)>, ghost errs: seq<int>)
    requires fb.Valid() && Itinerary(pts, errs, dx, dy, sx, sy, x1, y1)
    requires pts[0] == (x0, y0) && errs[0] == dx + dy
    modifies fb.pixels
    ensures forall px, py :: fb.Inside(px, py) ==>
      fb.pixels[py, px] == if (px, py) in pts then color else old(fb.pixels[py, px])
  {
    var err := dx + dy;
    var x, y := x0, y0;
    ghost var t := 0;
    while true
      invariant 0 <= t < |pts| && (x, y) == pts[t] && err == errs[t]
      invariant forall px, py :: fb.Inside(px, py) ==>
        fb.pixels[py, px] == if (px, py) in pts[..t] then color else old(fb.pixels[py, px])
      decreases |pts| - t
    {
      fb.SetPixel(x, y, color);
      assert pts[..t + 1] == pts[..t] + [pts[t]];
      assert forall p :: p in pts[..t + 1] <==> p in pts[..t] || p == pts[t];
      if x == x1 && y == y1 {
        assert pts[..t + 1] == pts;
        break;
      }
      assert ItineraryStep(pts, errs, dx, dy, sx, sy, t);
      var e2 := 2 * err;
      if e2 >= dy {
        err := err + dy;
        x := x + sx;
      }
      if e2 <= dx {
        err := err + dx;
        y := y + sy;
      }
      t := t + 1;
    }
  }

  /** `framebuffer_line`: the pixels of the line, and only those, take the colour. */
  method DrawLine(fb: Framebuffer, x0: int, y0: int, x1: int, y1: int, color: Color)
    requires fb.Valid()
    modifies fb.pixels
    ensures forall px, py :: fb.Inside(px, py) ==>
      fb.pixels[py, px] == if (px, py) in LinePixels(x0, y0, x1, y1) then color else old(fb.pixels[py, px])
  {
    var dx, sx := Abs(x1 - x0), if x0 < x1 then 1 else -1;
    var dy, sy := 0 - Abs(y1 - y0), if y0 < y1 then 1 else -1;
    LineItinerary(x0, y0, x1, y1);
    FollowLine(fb, x0, y0, x1, y1, dx, dy, sx, sy, color, LinePixels(x0, y0, x1, y1), LineErrors(x0, y0, x1, y1));
  }

  // ----- the circle ----------------------------------------------------------------------------

  /** In the octant 0 <= y <= x, the pixel of row y nearest the circle: the whole number x with
      x - 1/2 <= sqrt(r^2 - y^2) < x + 1/2, up to the quarter that squares of integers cannot tell. */
  ghost predicate OnOctant(x: int, y: int, r: int) {
    && 0 <= y <= x && 0 <= r
    && if r == 0 then x == 0 else x * x - x <= r * r - y * y < x * x + x
  }

  /** The same, in all eight octants, as an offset from the centre. */
  ghost predicate OnCircle(dx: int, dy: int, r: int) {
    OnOctant(Max(Abs(dx), Abs(dy)), Min(Abs(dx), Abs(dy)), r)
  }

  /** Every plotted octant point is within x of the true circle, in squared distance. */
  lemma {:induction false} CircleError(x: int, y: int, r: int)
    requires OnOctant(x, y, r)
    ensures 0 - x <= x * x + y * y - r * r <= x
  {
  }

  /** The drawn set is closed under the eight reflections about the centre. */
  lemma {:induction false} CircleSymmetry(dx: int, dy: int, r: int)
    ensures OnCircle(dx, dy, r) == OnCircle(-dx, dy, r) == OnCircle(dx, -dy, r) == OnCircle(dy, dx, r)
  {
  }

  lemma {:induction false} MulMonotone(a: int, b: int, c: int)
    requires a <= b && 0 <= c
    ensures a * c <= b * c
  {
    assert b * c == a * c + (b - a) * c;
  }

  lemma {:induction false} SquareMonotone(a: int, b: int)
    requires 0 <= a < b
    ensures a * a < b * b && a * a + a <= b * b - b
  {
    MulMonotone(a + 1, b, b - 1);
    MulMonotone(a, b - 1, a + 1);
    assert a * (a + 1) == a * a + a && (a + 1) * (b - 1) == (b - 1) * (a + 1) && b * (b - 1) == b * b - b;
  }

  /** Each row of the octant has at most one pixel. */
  lemma {:induction false} OctantUnique(x: int, x': int, y: int, r: int)
    requires OnOctant(x, y, r) && OnOctant(x', y, r)
    ensures x == x'
  {
    if x < x' {
      SquareMonotone(x, x');
    } else if x' < x {
      SquareMonotone(x', x);
    }
  }

  /** The walk of `framebuffer_circle` at row y: the decision variable is the midpoint's defect, and
      (x, y) is the octant's pixel of this row as long as the octant lasts. */
  ghost predicate AtRow(x: int, y: int, d: int, r: int) {
    && 0 <= y && -1 <= x <= r && d == (y + 1) * (y + 1) + x * x - x - r * r
    && (r == 0 ==> (y == 0 && x == 0) || (y >= 1 && x < y))
    && (r > 0 ==> 0 <= x && r * r - y * y < x * x + x)
    && (y <= x ==> OnOctant(x, y, r))
  }

  lemma {:induction false} NextRow(x: int, y: int, d: int, r: int)
    requires AtRow(x, y, d, r) && y <= x
    ensures if d <= 0 then AtRow(x, y + 1, d + 2 * (y + 1) + 1, r)
            else AtRow(x - 1, y + 1, d + 2 * (y + 1 - (x - 1)) + 1, r)
  {
    assert (y + 2) * (y + 2) == (y + 1) * (y + 1) + 2 * (y + 1) + 1;
    assert (y + 1) * (y + 1) == y * y + 2 * y + 1;
    assert (x - 1) * (x - 1) == x * x - 2 * x + 1;
  }

  /** Nothing of the octant is left once x < y. */
  lemma {:induction false} OctantDone(x: int, y: int, d: int, r: int, x': int, y': int)
    requires AtRow(x, y, d, r) && x < y <= y'
    ensures !OnOctant(x', y', r)
  {
    if OnOctant(x', y', r) {
      MulMonotone(y, y', y);
      MulMonotone(y, y', y');
      if r > 0 {
        SquareMonotone(x, x');
      }
    }
  }

  /** The decision variable stays within twice the radius. */
  lemma {:induction false} DecisionBound(x: int, y: int, d: int, r: int)
    requires AtRow(x, y, d, r) && y <= x
    ensures Abs(d) <= 2 * r + 1
  {
    assert (y + 1) * (y + 1) == y * y + 2 * y + 1;
  }

  /** The offsets painted before row y. */
  ghost predicate Painted(dx: int, dy: int, r: int, y: int) {
    OnCircle(dx, dy, r) && Min(Abs(dx), Abs(dy)) < y
  }

  /** The eight reflections of (x, y), as the code writes them. */
  predicate Reflected(dx: int, dy: int, x: int, y: int) {
    || (dx, dy) == (x, y) || (dx, dy) == (-x, y) || (dx, dy) == (x, -y) || (dx, dy) == (-x, -y)
    || (dx, dy) == (y, x) || (dx, dy) == (-y, x) || (dx, dy) == (y, -x) || (dx, dy) == (-y, -x)
  }

  lemma {:induction false} PaintRow(x: int, y: int, d: int, r: int, dx: int, dy: int)
    requires AtRow(x, y, d, r) && y <= x
    ensures Painted(dx, dy, r, y + 1) <==> Painted(dx, dy, r, y) || Reflected(dx, dy, x, y)
  {
    var a, b := Max(Abs(dx), Abs(dy)), Min(Abs(dx), Abs(dy));
    if OnOctant(a, b, r) && b == y {
      OctantUnique(a, x, y, r);
    }
    assert Reflected(dx, dy, x, y) <==> a == x && b == y;
  }

  function Eight(x: int, y: int): set<(int, int)> {
    {(x, y), (-x, y), (x, -y), (-x, -y), (y, x), (-y, x), (y, -x), (-y, -x)}
  }

  /** `done` holds the offsets painted before row y. */
  ghost predicate PaintedSet(done: set<(int, int)>, r: int, y: int) {
    forall dx, dy :: (dx, dy) in done <==> Painted(dx, dy, r, y)
  }

  lemma {:induction false} PaintedSetGrows(done: set<(int, int)>, x: int, y: int, d: int, r: int)
    requires AtRow(x, y, d, r) && y <= x && PaintedSet(done, r, y)
    ensures PaintedSet(done + Eight(x, y), r, y + 1)
  {
    forall dx, dy
      ensures (dx, dy) in done + Eight(x, y) <==> Painted(dx, dy, r, y + 1)
    {
      assert (dx, dy) in Eight(x, y) <==> Reflected(dx, dy, x, y);
      assert (dx, dy) in done <==> Painted(dx, dy, r, y);
      PaintRow(x, y, d, r, dx, dy);
    }
  }

  lemma {:induction false} AllPainted(x: int, y: int, d: int, r: int, dx: int, dy: int)
    requires x < y && (r >= 0 ==> AtRow(x, y, d, r))
    ensures Painted(dx, dy, r, y) <==> OnCircle(dx, dy, r)
  {
    var a, b := Max(Abs(dx), Abs(dy)), Min(Abs(dx), Abs(dy));
    if r >= 0 && b >= y {
      OctantDone(x, y, d, r, a, b);
    }
  }

  lemma {:induction false} PaintedSetIsCircle(done: set<(int, int)>, x: int, y: int, d: int, r: int)
    requires x < y && (r >= 0 ==> AtRow(x, y, d, r)) && PaintedSet(done, r, y)
    ensures forall dx, dy :: (dx, dy) in done <==> OnCircle(dx, dy, r)
  {
    forall dx, dy
      ensures (dx, dy) in done <==> OnCircle(dx, dy, r)
    {
      AllPainted(x, y, d, r, dx, dy);
    }
  }

  /** The eight calls of `framebuffer_set_pixel` in one turn of the loop. */
  method PlotEight(fb: Framebuffer, cx: int, cy: int, x: int, y: int, color: Color)
    requires fb.Valid()
    modifies fb.pixels
    ensures forall px, py :: fb.Inside(px, py) ==>
      fb.pixels[py, px] == if (px - cx, py - cy) in Eight(x, y) then color else old(fb.pixels[py, px])
  {
    fb.SetPixel(cx + x, cy + y, color);
    fb.SetPixel(cx - x, cy + y, color);
    fb.SetPixel(cx + x, cy - y, color);
    fb.SetPixel(cx - x, cy - y, color);
    fb.SetPixel(cx + y, cy + x, color);
    fb.SetPixel(cx - y, cy + x, color);
    fb.SetPixel(cx + y, cy - x, color);
    fb.SetPixel(cx - y, cy - x, color);
  }

  /** The loop of `framebuffer_circle`. */
  method FollowCircle(fb: Framebuffer, cx: int, cy: int, r: int, color: Color) returns (ghost done: set<(int, int)>)
    requires fb.Valid()
    modifies fb.pixels
    ensures forall px, py :: fb.Inside(px, py) ==>
      fb.pixels[py, px] == if (px - cx, py - cy) in done then color else old(fb.pixels[py, px])
    ensures forall dx, dy :: (dx, dy) in done <==> OnCircle(dx, dy, r)
  {
    var x, y, d := r, 0, 1 - r;
    done := {};
    while x >= y
      invariant if r >= 0 then AtRow(x, y, d, r) else x < y
      invariant PaintedSet(done, r, y)
      invariant forall px, py :: fb.Inside(px, py) ==>
        fb.pixels[py, px] == if (px - cx, py - cy) in done then color else old(fb.pixels[py, px])
      decreases x - y
    {
      PlotEight(fb, cx, cy, x, y, color);
      PaintedSetGrows(done, x, y, d, r);
      done := done + Eight(x, y);
      NextRow(x, y, d, r);
      y := y + 1;
      if d <= 0 {
        d := d + 2 * y + 1;
      } else {
        x := x - 1;
        d := d + 2 * (y - x) + 1;
      }
    }
    PaintedSetIsCircle(done, x, y, d, r);
  }

  /** `framebuffer_circle`: the pixels of the circle, and only those, take the colour; a negative
      radius draws nothing. */
  method DrawCircle(fb: Framebuffer, cx: int, cy: int, r: int, color: Color)
    requires fb.Valid()
    modifies fb.pixels
    ensures forall px, py :: fb.Inside(px, py) ==>
      fb.pixels[py, px] == if OnCircle(px - cx, py - cy, r) then color else old(fb.pixels[py, px])
  {
    ghost var done := FollowCircle(fb, cx, cy, r, color);
    assert forall px, py :: fb.Inside(px, py) ==> ((px - cx, py - cy) in done <==> OnCircle(px - cx, py - cy, r));
  }
}
