/** When the drawing code of src/rendering/software_renderer.c computes only values that fit in an
    `int`: an exact condition on the two side lengths of a line, and a sufficient one for a circle. */
module IntRange {
  import opened Arith
  import opened Renderer

  const INT_MAX: int := 0x7FFF_FFFF
  const INT_MIN: int := -0x8000_0000

  predicate Int(v: int) {
    INT_MIN <= v <= INT_MAX
  }

  /** The values of one turn of the loop: the doubled error, and the error after each update. */
  predicate TurnFits(dx: nat, dy: nat, t: nat) {
    var e := Error(t, dx, dy);
    var e' := if 2 * e >= 0 - dy then e - dy else e;
    Int(2 * e) && Int(e') && (2 * e <= dx ==> Int(e' + dx))
  }

  /** The side lengths, the first error and every turn before the last pixel. */
  predicate LineFits(dx: nat, dy: nat) {
    && Int(dx) && Int(dy) && Int(dx - dy)
    && forall t :: 0 <= t < Max(dx, dy) ==> TurnFits(dx, dy, t)
  }

  // ----- greatest common divisors --------------------------------------------------------------

  function Gcd(a: nat, b: nat): (g: nat)
    ensures a > 0 ==> g > 0
    decreases b
  {
    if b == 0 then a else if a % b == 0 then b else Gcd(b, a % b)
  }

  lemma {:induction false} GcdDivides(a: nat, b: nat) returns (p: nat, q: nat)
    requires a > 0
    ensures a == Gcd(a, b) * p && b == Gcd(a, b) * q
    decreases b
  {
    var g := Gcd(a, b);
    if b == 0 {
      p, q := 1, 0;
    } else if a % b == 0 {
      p, q := a / b, 1;
      assert a == b * (a / b);
    } else {
      var p', q' := GcdDivides(b, a % b);
      p, q := p' * (a / b) + q', p';
      assert g * p == (g * p') * (a / b) + g * q';
    }
  }

  lemma {:induction false} Bezout(a: nat, b: nat) returns (u: int, v: int)
    requires a > 0
    ensures Gcd(a, b) == u * a + v * b
    decreases b
  {
    if b == 0 {
      u, v := 1, 0;
    } else if a % b == 0 {
      u, v := 0, 1;
    } else {
      var u', v' := Bezout(b, a % b);
      u, v := v', u' - v' * (a / b);
      assert v' * (a % b) == v' * a - v' * ((a / b) * b);
      assert v * b == u' * b - v' * ((a / b) * b);
    }
  }

  // ----- the residues of the line --------------------------------------------------------------

  /** How far the t-th pixel is off the ideal line, in units of 1 / major. */
  function Residue(t: nat, major: nat, minor: nat): int {
    Minor(t, major, minor) * major - t * minor
  }

  predicate InHalfRange(r: int, major: nat) {
    0 - major < 2 * r <= major
  }

  lemma {:induction false} CommonFactor(g: int, p: int, q: int, j: int, t: int)
    ensures g * (j * p - t * q) == j * (g * p) - t * (g * q)
  {
    assert g * (j * p - t * q) == g * (j * p) - g * (t * q);
    assert g * (j * p) == j * (g * p) && g * (t * q) == t * (g * q);
  }

  lemma {:induction false} ResidueIsMultiple(t: nat, major: nat, minor: nat, g: nat) returns (k: int)
    requires minor <= major && major > 0 && g == Gcd(major, minor)
    ensures Residue(t, major, minor) == g * k && InHalfRange(g * k, major)
  {
    var p, q := GcdDivides(major, minor);
    var j := Minor(t, major, minor);
    k := j * p - t * q;
    CommonFactor(g, p, q, j, t);
    MinorWithinHalf(t, major, minor);
  }

  lemma {:induction false} Scaled(g: int, u: int, v: int, k: int, major: int, minor: int)
    requires g == u * major + v * minor
    ensures g * k == (k * u) * major + (k * v) * minor
  {
    assert g * k == (u * major) * k + (v * minor) * k;
    assert (u * major) * k == (k * u) * major && (v * minor) * k == (k * v) * minor;
  }

  lemma {:induction false} ClosesUp(r: int, a: int, b: int, major: int, minor: int, w: int, t: int)
    requires r == a * major + b * minor && b + major * w + t == 0
    ensures r + t * minor == (a - w * minor) * major
  {
    assert t * minor == (0 - b - major * w) * minor == 0 - b * minor - (major * w) * minor;
    assert (a - w * minor) * major == a * major - (w * minor) * major;
    assert (w * minor) * major == (major * w) * minor;
  }

  lemma {:induction false} NotNegative(r: int, t: nat, major: nat, minor: nat, j: int)
    requires major > 0 && r + t * minor == j * major && 0 - major < r
    ensures j >= 0
  {
    assert t * minor >= 0;
    if j < 0 { MulStep(major, j, 0); }
  }

  lemma {:induction false} Landing(r: int, a: int, b: int, major: nat, minor: nat) returns (t: nat)
    requires minor <= major && major > 0 && r == a * major + b * minor && InHalfRange(r, major)
    ensures t < major && Residue(t, major, minor) == r
  {
    var n := 0 - b;
    t := n % major;
    var w := n / major;
    ClosesUp(r, a, b, major, minor, w, t);
    var j := a - w * minor;
    NotNegative(r, t, major, minor, j);
    MinorUnique(t, major, minor, j);
  }

  /** Every multiple of the greatest common divisor in range is the residue of some pixel. */
  lemma {:induction false} ResidueReached(k: int, major: nat, minor: nat, g: nat) returns (t: nat)
    requires minor <= major && major > 0 && g == Gcd(major, minor) && InHalfRange(g * k, major)
    ensures t < major && Residue(t, major, minor) == g * k
  {
    var u, v := Bezout(major, minor);
    Scaled(g, u, v, k, major, minor);
    t := Landing(g * k, k * u, k * v, major, minor);
  }

  /** The largest residue, and the largest one below half. */
  function Top(major: nat, g: nat): int
    requires g > 0
  {
    g * (major / (2 * g))
  }

  function Low(major: nat, g: nat): int
    requires g > 0
  {
    g * ((major - 1) / (2 * g))
  }

  lemma {:induction false} MultipleBounds(g: nat, k: int, m: int)
    requires g > 0 && 2 * (g * k) <= m
    ensures g * k <= g * (m / (2 * g))
  {
    assert 2 * g * k == 2 * (g * k);
    QuotientIsLargest(m, 2 * g, k);
    if k < m / (2 * g) { MulStep(g, k, m / (2 * g)); }
  }

  lemma {:induction false} LargestMultiple(g: nat, m: int)
    requires g > 0
    ensures m - 2 * g < 2 * (g * (m / (2 * g))) <= m
  {
    var k := m / (2 * g);
    assert m == (2 * g) * k + m % (2 * g);
    assert (2 * g) * k == 2 * (g * k);
  }

  lemma {:induction false} Negated(g: int, k: int)
    ensures g * (0 - k) == 0 - g * k
  {
  }

  lemma {:induction false} ResidueBounds(t: nat, major: nat, minor: nat, g: nat)
    requires minor <= major && major > 0 && g == Gcd(major, minor)
    ensures 0 - Low(major, g) <= Residue(t, major, minor) <= Top(major, g)
    ensures InHalfRange(Residue(t, major, minor), major)
  {
    var k := ResidueIsMultiple(t, major, minor, g);
    MultipleBounds(g, k, major);
    Negated(g, k);
    MultipleBounds(g, 0 - k, major - 1);
  }

  lemma {:induction false} DivisorFits(g: nat, p: nat, major: nat)
    requires major == g * p && major > 0
    ensures g <= major
  {
    if g > major { MulStep(g, 0, p); }
  }

  lemma {:induction false} TopReached(major: nat, minor: nat, g: nat) returns (t: nat)
    requires minor <= major && major > 0 && g == Gcd(major, minor)
    ensures t < major && Residue(t, major, minor) == Top(major, g)
  {
    var p, _ := GcdDivides(major, minor);
    DivisorFits(g, p, major);
    LargestMultiple(g, major);
    t := ResidueReached(major / (2 * g), major, minor, g);
  }

  lemma {:induction false} LowReached(major: nat, minor: nat, g: nat) returns (t: nat)
    requires minor <= major && major > 0 && g == Gcd(major, minor)
    ensures t < major && Residue(t, major, minor) == 0 - Low(major, g)
  {
    var p, _ := GcdDivides(major, minor);
    DivisorFits(g, p, major);
    LargestMultiple(g, major - 1);
    var k := (major - 1) / (2 * g);
    Negated(g, k);
    t := ResidueReached(0 - k, major, minor, g);
  }

  // ----- the exact condition -------------------------------------------------------------------

  /** The two tests for a line at least as wide as high. */
  predicate WideFits(dx: nat, dy: nat)
    requires dy <= dx && dx > 0
  {
    var g := Gcd(dx, dy);
    2 * (dx - dy + Top(dx, g)) <= INT_MAX && dx - 2 * dy - Low(dx, g) >= INT_MIN
  }

  /** The two tests for a line higher than wide. */
  predicate HighFits(dx: nat, dy: nat)
    requires dx < dy
  {
    var g := Gcd(dy, dx);
    2 * (dx - dy - Top(dy, g)) >= INT_MIN && dx - 2 * dy - g * ((2 * dx - dy) / (2 * g)) >= INT_MIN
  }

  predicate SidesFit(dx: nat, dy: nat) {
    && dx <= INT_MAX && dy <= INT_MAX
    && (if dx < dy then HighFits(dx, dy) else dx > 0 ==> WideFits(dx, dy))
  }

  lemma {:induction false} WideError(t: nat, dx: nat, dy: nat)
    requires dy <= dx && dx > 0
    ensures Error(t, dx, dy) == Residue(t, dx, dy) + dx - dy
  {
  }

  lemma {:induction false} HighError(t: nat, dx: nat, dy: nat)
    requires dx < dy
    ensures Error(t, dx, dy) == dx - dy - Residue(t, dy, dx)
  {
  }

  lemma {:induction false} WideIff(dx: nat, dy: nat)
    requires dy <= dx <= INT_MAX && dx > 0
    ensures LineFits(dx, dy) <==> WideFits(dx, dy)
  {
    var g := Gcd(dx, dy);
    if WideFits(dx, dy) {
      forall t | 0 <= t < Max(dx, dy)
        ensures TurnFits(dx, dy, t)
      {
        WideError(t, dx, dy);
        ResidueBounds(t, dx, dy, g);
        WideError(t + 1, dx, dy);
        ResidueBounds(t + 1, dx, dy, g);
        ErrorStep(t, dx, dy);
      }
    }
    if LineFits(dx, dy) {
      var top := TopReached(dx, dy, g);
      WideError(top, dx, dy);
      assert TurnFits(dx, dy, top);
      var low := LowReached(dx, dy, g);
      WideError(low, dx, dy);
      ResidueBounds(low, dx, dy, g);
      assert TurnFits(dx, dy, low);
    }
  }

  lemma {:induction false} ReachedBelow(dx: nat, dy: nat, g: nat, k: int) returns (t: nat)
    requires 0 < dx < dy && g == Gcd(dy, dx) && k == (2 * dx - dy) / (2 * g)
    ensures t < dy && Residue(t, dy, dx) == g * k && 2 * (g * k) <= 2 * dx - dy
  {
    var _, q := GcdDivides(dy, dx);
    DivisorFits(g, q, dx);
    LargestMultiple(g, 2 * dx - dy);
    t := ResidueReached(k, dy, dx, g);
  }

  /** The lowest value between the two updates of a high line. */
  lemma {:induction false} LowestStep(dx: nat, dy: nat, g: nat)
    requires dx < dy <= INT_MAX && g == Gcd(dy, dx) && LineFits(dx, dy)
    ensures dx - 2 * dy - g * ((2 * dx - dy) / (2 * g)) >= INT_MIN
  {
    var k := (2 * dx - dy) / (2 * g);
    if dx == 0 {
      DivModUnique(0 - dy, 2 * dy, -1, dy);
    } else {
      var t := ReachedBelow(dx, dy, g, k);
      HighError(t, dx, dy);
      assert TurnFits(dx, dy, t);
    }
  }

  lemma {:induction false} HighIff(dx: nat, dy: nat)
    requires dx < dy <= INT_MAX
    ensures LineFits(dx, dy) <==> HighFits(dx, dy)
  {
    var g := Gcd(dy, dx);
    if HighFits(dx, dy) {
      forall t | 0 <= t < Max(dx, dy)
        ensures TurnFits(dx, dy, t)
      {
        HighError(t, dx, dy);
        ResidueBounds(t, dy, dx, g);
        HighError(t + 1, dx, dy);
        ResidueBounds(t + 1, dy, dx, g);
        ErrorStep(t, dx, dy);
        var k := ResidueIsMultiple(t, dy, dx, g);
        if 2 * (g * k) <= 2 * dx - dy { MultipleBounds(g, k, 2 * dx - dy); }
      }
    }
    if LineFits(dx, dy) {
      var top := TopReached(dy, dx, g);
      HighError(top, dx, dy);
      assert TurnFits(dx, dy, top);
      LowestStep(dx, dy, g);
    }
  }

  /** Every value that `framebuffer_line` computes fits in an `int` exactly when the side lengths
      pass two tests, which involve their greatest common divisor. */
  lemma {:induction false} LineFitsIff(dx: nat, dy: nat)
    ensures LineFits(dx, dy) <==> SidesFit(dx, dy)
  {
    if dx <= INT_MAX && dy <= INT_MAX {
      if dx < dy {
        HighIff(dx, dy);
      } else if dx > 0 {
        WideIff(dx, dy);
      }
    }
  }

  /** Far-apart end points overflow: a flat line of 2^30 steps, for one. */
  lemma {:induction false} FlatLineFitsIff(dx: nat)
    ensures LineFits(dx, 0) <==> dx <= 0x3FFF_FFFF
  {
    LineFitsIff(dx, 0);
    if dx > 0 {
      DivModUnique(dx, 2 * dx, 0, dx);
      DivModUnique(dx - 1, 2 * dx, 0, dx - 1);
    }
  }

  /** An upright line may be one step longer than a flat one. */
  lemma {:induction false} UprightLineFitsIff(dy: nat)
    ensures LineFits(0, dy) <==> dy <= 0x4000_0000
  {
    LineFitsIff(0, dy);
    if dy > 0 {
      DivModUnique(dy, 2 * dy, 0, dy);
      DivModUnique(dy - 1, 2 * dy, 0, dy - 1);
      DivModUnique(0 - dy, 2 * dy, -1, dy);
    }
  }

  // ----- the circle ----------------------------------------------------------------------------

  /** The values of one turn of `framebuffer_circle`. */
  predicate CircleTurnFits(cx: int, cy: int, x: int, y: int, d: int) {
    && Int(cx + x) && Int(cx - x) && Int(cy + y) && Int(cy - y)
    && Int(cx + y) && Int(cx - y) && Int(cy + x) && Int(cy - x)
    && if d <= 0 then Int(2 * (y + 1) + 1) && Int(d + 2 * (y + 1) + 1)
       else Int(2 * (y + 1 - (x - 1)) + 1) && Int(d + 2 * (y + 1 - (x - 1)) + 1)
  }

  /** It is enough that the circle's bounding box fits and that twice the radius has a little room. */
  lemma {:induction false} CircleStaysInInt(cx: int, cy: int, x: int, y: int, d: int, r: int)
    requires AtRow(x, y, d, r) && y <= x && 2 * r + 6 <= INT_MAX
    requires Int(cx + r) && Int(cx - r) && Int(cy + r) && Int(cy - r)
    ensures CircleTurnFits(cx, cy, x, y, d)
  {
    DecisionBound(x, y, d, r);
  }

  /** The whole part of the square root. */
  function Root(r: nat): (s: nat)
    ensures s * s <= r < (s + 1) * (s + 1)
  {
    if r == 0 then 0
    else
      var s := Root(r - 1);
      if (s + 1) * (s + 1) <= r then
        assert (s + 2) * (s + 2) == (s + 1) * (s + 1) + 2 * s + 3;
        s + 1
      else s
  }

  datatype Turn = Turn(x: int, y: nat, d: int)

  function NextTurn(t: Turn): Turn {
    var y := t.y + 1;
    if t.d <= 0 then Turn(t.x, y, t.d + 2 * y + 1) else Turn(t.x - 1, y, t.d + 2 * (y - (t.x - 1)) + 1)
  }

  /** The variables of `framebuffer_circle` after n turns. */
  function TurnAt(r: int, n: nat): (t: Turn)
    ensures t.y == n
  {
    if n == 0 then Turn(r, 0, 1 - r) else NextTurn(TurnAt(r, n - 1))
  }

  predicate TurnFitsAt(cx: int, cy: int, r: int, n: nat) {
    var t := TurnAt(r, n);
    t.x >= n ==> CircleTurnFits(cx, cy, t.x, n, t.d)
  }

  /** The first decision and every turn of the loop. */
  ghost predicate CircleFits(cx: int, cy: int, r: int) {
    Int(1 - r) && forall n: nat :: TurnFitsAt(cx, cy, r, n)
  }

  /** The bounding box, and the first step inwards, at the row of the root of r. */
  predicate BoxFits(cx: int, cy: int, r: nat) {
    && Int(cx + r) && Int(cx - r) && Int(cy + r) && Int(cy - r)
    && 2 * (Root(r) - r) + 5 >= INT_MIN
  }

  lemma {:induction false} SquareUpTo(a: nat, b: nat)
    requires a <= b
    ensures a * a <= b * b
  {
    MulMonotone(a, b, a);
    MulMonotone(a, b, b);
  }

  lemma {:induction false} StraightOn(t: Turn, r: nat, n: nat, s: nat)
    requires 0 < n <= s && s * s <= r && t == Turn(r, n - 1, n * n - r)
    ensures NextTurn(t) == Turn(r, n, (n + 1) * (n + 1) - r)
  {
    SquareUpTo(n, s);
    assert (n + 1) * (n + 1) == n * n + 2 * n + 1;
  }

  /** While y is at most the root of r the circle goes straight. */
  lemma {:induction false} StraightTurn(r: nat, n: nat)
    requires n <= Root(r)
    ensures TurnAt(r, n) == Turn(r, n, (n + 1) * (n + 1) - r)
  {
    if n > 0 {
      StraightTurn(r, n - 1);
      StraightOn(TurnAt(r, n - 1), r, n, Root(r));
    }
  }

  ghost predicate OnCourse(t: Turn, r: int) {
    AtRow(t.x, t.y, t.d, r)
  }

  lemma {:induction false} FirstOnCourse(r: nat)
    ensures OnCourse(Turn(r, 0, 1 - r), r)
  {
  }

  lemma {:induction false} NextOnCourse(t: Turn, r: int)
    requires OnCourse(t, r) && t.y <= t.x
    ensures OnCourse(NextTurn(t), r)
  {
    NextRow(t.x, t.y, t.d, r);
  }

  lemma {:induction false} FormerTurn(r: int, n: nat)
    requires n > 0 && TurnAt(r, n).x >= n
    ensures TurnAt(r, n - 1).x >= n - 1
  {
  }

  lemma {:induction false} TurnsStayOnCircle(r: nat, n: nat)
    requires n == 0 || TurnAt(r, n - 1).x >= n - 1
    ensures OnCourse(TurnAt(r, n), r)
  {
    if n > 0 {
      if n > 1 { FormerTurn(r, n - 1); }
      TurnsStayOnCircle(r, n - 1);
      NextOnCourse(TurnAt(r, n - 1), r);
    } else {
      FirstOnCourse(r);
    }
  }

  /** Past the root the circle has stepped inwards at least once. */
  lemma {:induction false} BentTurn(r: nat, n: nat)
    requires n > Root(r)
    ensures TurnAt(r, n).x < r
    decreases n
  {
    var s := Root(r);
    if n == s + 1 {
      StraightTurn(r, s);
    } else {
      BentTurn(r, n - 1);
    }
  }

  lemma {:induction false} RootIsSmall(r: nat)
    requires r <= INT_MAX
    ensures Root(r) <= 46340
  {
    if Root(r) > 46340 { SquareUpTo(46341, Root(r)); }
  }

  lemma {:induction false} RowIsSmall(x: int, y: nat, r: nat)
    requires OnOctant(x, y, r) && r <= 0x4000_0000 + 46343
    ensures y <= 0x4000_0000 - 4
  {
    assert x * (x - 1) == x * x - x;
    if y > 0x4000_0000 - 4 {
      SquareUpTo(y, x);
      SquareUpTo(r, 0x4000_0000 + 46343);
      SquareUpTo(0x4000_0000 - 3, y);
      MulMonotone(0x4000_0000 - 4, x - 1, x);
      MulMonotone(0x4000_0000 - 3, x, 0x4000_0000 - 4);
    }
  }

  lemma {:induction false} TurnInInt(cx: int, cy: int, x: int, y: nat, d: int, r: nat)
    requires BoxFits(cx, cy, r) && AtRow(x, y, d, r) && y <= x && y <= 0x4000_0000 - 4
    requires if y <= Root(r) then x == r && d == (y + 1) * (y + 1) - r else x < r
    ensures CircleTurnFits(cx, cy, x, y, d)
  {
    assert (y + 1) * (y + 1) == y * y + 2 * y + 1;
    if d > 0 && y < Root(r) {
      SquareUpTo(y + 1, Root(r));
    }
  }

  /** On the straight part x is r; past it the row is beyond the root. */
  lemma {:induction false} EveryTurnFits(cx: int, cy: int, r: nat, n: nat)
    requires BoxFits(cx, cy, r)
    ensures TurnFitsAt(cx, cy, r, n)
  {
    var t := TurnAt(r, n);
    if t.x >= n {
      if n > 0 { FormerTurn(r, n); }
      TurnsStayOnCircle(r, n);
      if n <= Root(r) { StraightTurn(r, n); }
      if n > Root(r) { BentTurn(r, n); }
      RootIsSmall(r);
      RowIsSmall(t.x, n, r);
      TurnInInt(cx, cy, t.x, n, t.d, r);
    }
  }

  lemma {:induction false} RootAtMost(r: nat)
    ensures Root(r) <= r
  {
    assert (r + 1) * (r + 1) == r * r + 2 * r + 1;
    if Root(r) > r { SquareUpTo(r + 1, Root(r)); }
  }

  lemma {:induction false} NoTurn(r: int, n: nat)
    requires r < 0
    ensures TurnAt(r, n).x < n
  {
    if n > 0 { NoTurn(r, n - 1); }
  }

  /** The first turn spans the bounding box, the turn at the root steps inwards. */
  lemma {:induction false} TwoTurnsTell(cx: int, cy: int, r: nat)
    requires TurnFitsAt(cx, cy, r, 0) && TurnFitsAt(cx, cy, r, Root(r))
    ensures BoxFits(cx, cy, r)
  {
    var s := Root(r);
    StraightTurn(r, s);
    RootAtMost(r);
    assert (s + 1) * (s + 1) - r > 0;
  }

  /** Every value that `framebuffer_circle` computes fits in an `int` exactly when the bounding box
      does and the first step inwards does; for a negative radius only the first decision counts. */
  lemma {:induction false} CircleFitsIff(cx: int, cy: int, r: int)
    ensures CircleFits(cx, cy, r) <==> if r < 0 then Int(1 - r) else BoxFits(cx, cy, r)
  {
    if r < 0 {
      forall n: nat
        ensures TurnFitsAt(cx, cy, r, n)
      {
        NoTurn(r, n);
      }
    } else if CircleFits(cx, cy, r) {
      assert TurnFitsAt(cx, cy, r, 0) && TurnFitsAt(cx, cy, r, Root(r));
      TwoTurnsTell(cx, cy, r);
    } else if BoxFits(cx, cy, r) {
      forall n: nat
        ensures TurnFitsAt(cx, cy, r, n)
      {
        EveryTurnFits(cx, cy, r, n);
      }
    }
  }
}
