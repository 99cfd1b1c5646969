/** The points of the line loop: its error-term state after k steps in closed form, and what that says about the line. */
module Lines {

  type Point = (int, int)

  function Abs(n: int): nat {
    if n < 0 then -n else n
  }

  function Max(a: nat, b: nat): nat {
    if a < b then b else a
  }

  /** n / d to the nearest integer, halves upwards. */
  function Round(n: nat, d: nat): nat {
    if d == 0 then 0 else (2 * n + d) / (2 * d)
  }

  lemma RoundIsNearest(n: nat, d: nat)
    requires d > 0
    ensures 2 * (Round(n, d) * d) - d <= 2 * n < 2 * (Round(n, d) * d) + d
  {
    var b := Round(n, d);
    assert (2 * d) * b <= 2 * n + d < (2 * d) * b + 2 * d;
    assert (2 * d) * b == 2 * (b * d);
  }

  lemma Cancel(a: int, b: int, d: nat)
    requires a * d < b * d + d
    ensures a <= b
  {
    if a > b {
      Times(b + 1, a, d);
    }
  }

  lemma Times(a: int, b: int, d: nat)
    requires a <= b
    ensures a * d <= b * d
  {
  }

  lemma NearestIsRound(n: nat, d: nat, b: nat)
    requires d > 0 && 2 * (b * d) - d <= 2 * n < 2 * (b * d) + d
    ensures Round(n, d) == b
  {
    RoundIsNearest(n, d);
    Cancel(Round(n, d), b, d);
    Cancel(b, Round(n, d), d);
  }

  // ---- The loop's state -------------------------------------------------------------------------

  /** Steps taken in x and in y after k turns, for extents dx and dy. */
  function StepsX(dx: nat, dy: nat, k: nat): nat {
    if dx >= dy then k else Round(k * dx, dy)
  }

  function StepsY(dx: nat, dy: nat, k: nat): nat {
    if dx >= dy then Round(k * dy, dx) else k
  }

  /** The error term after k turns. */
  function ErrorAt(dx: nat, dy: nat, k: nat): int {
    (StepsY(dx, dy, k) + 1) * dx - (StepsX(dx, dy, k) + 1) * dy
  }

  /** One more step along an axis of extent `major` moves the rounded minor coordinate by at most one,
      and the comparison of the doubled error term decides which. */
  lemma RoundSteps(minor: nat, major: nat, k: nat)
    requires minor <= major && major > 0
    ensures var b, b' := Round(k * minor, major), Round((k + 1) * minor, major);
      && b' == (if 2 * ((b + 1) * major - (k + 1) * minor) <= major then b + 1 else b)
      && 2 * ((b + 1) * major) > 2 * ((k + 1) * minor) - minor
  {
    var n, b := k * minor, Round(k * minor, major);
    var q := b * major;
    RoundIsNearest(n, major);
    assert (b + 1) * major == q + major;
    assert (k + 1) * minor == n + minor;
    if 2 * ((b + 1) * major - (k + 1) * minor) <= major {
      NearestIsRound(n + minor, major, b + 1);
    } else {
      NearestIsRound(n + minor, major, b);
    }
  }

  /** The two comparisons of the loop body lead from the state after k turns to the state after k + 1. */
  lemma TurnIsNext(dx: nat, dy: nat, k: nat)
    requires k < Max(dx, dy)
    ensures var e2 := 2 * ErrorAt(dx, dy, k);
      var stepX, stepY := e2 >= 0 - dy, e2 <= dx;
      && StepsX(dx, dy, k + 1) == StepsX(dx, dy, k) + (if stepX then 1 else 0)
      && StepsY(dx, dy, k + 1) == StepsY(dx, dy, k) + (if stepY then 1 else 0)
      && ErrorAt(dx, dy, k + 1) == ErrorAt(dx, dy, k) + (if stepX then 0 - dy else 0) + (if stepY then dx else 0)
  {
    hide Round;
    var a, b := StepsX(dx, dy, k), StepsY(dx, dy, k);
    assert (a + 2) * dy == (a + 1) * dy + dy && (b + 2) * dx == (b + 1) * dx + dx;
    if dx >= dy {
      RoundSteps(dy, dx, k);
    } else {
      RoundSteps(dx, dy, k);
      RoundMirror(dx, dy, k);
    }
  }

  /** For a steep line the x comparison is the mirrored one, with ties going the same way. */
  lemma RoundMirror(dx: nat, dy: nat, k: nat)
    requires dx < dy
    ensures var a := Round(k * dx, dy);
      2 * ((k + 1) * dx - (a + 1) * dy) >= 0 - dy <==> 2 * ((a + 1) * dy - (k + 1) * dx) <= dy
  {
  }

  // ---- The line ---------------------------------------------------------------------------------

  function Sign(from: int, to: int): int {
    if from < to then 1 else -1
  }

  /** How many turns the loop takes. */
  function Turns(x0: int, y0: int, x1: int, y1: int): nat {
    Max(Abs(x1 - x0), Abs(y1 - y0))
  }

  /** The point plotted in turn k: k steps along the longer axis, and the ideal position rounded along the other. */
  function LinePoint(x0: int, y0: int, x1: int, y1: int, k: nat): Point {
    var dx, dy := Abs(x1 - x0), Abs(y1 - y0);
    (x0 + Sign(x0, x1) * StepsX(dx, dy, k), y0 + Sign(y0, y1) * StepsY(dx, dy, k))
  }

  function LinePoints(x0: int, y0: int, x1: int, y1: int): (r: seq<Point>)
    ensures |r| == Turns(x0, y0, x1, y1) + 1
  {
    seq(Turns(x0, y0, x1, y1) + 1, k requires 0 <= k => LinePoint(x0, y0, x1, y1, k))
  }

  lemma RoundOfMultiple(n: nat, d: nat)
    requires d > 0
    ensures Round(n * d, d) == n
  {
    NearestIsRound(n * d, d, n);
  }

  lemma RoundGrows(m: nat, n: nat, d: nat)
    requires d > 0 && m <= n
    ensures Round(m, d) <= Round(n, d)
  {
    RoundIsNearest(m, d);
    RoundIsNearest(n, d);
    Cancel(Round(m, d), Round(n, d), d);
  }

  lemma StepsAtStart(dx: nat, dy: nat)
    ensures StepsX(dx, dy, 0) == 0 == StepsY(dx, dy, 0)
    ensures ErrorAt(dx, dy, 0) == dx - dy
  {
    if dx > 0 { RoundOfMultiple(0, dx); }
    if dy > 0 { RoundOfMultiple(0, dy); }
  }

  /** At the last turn, and not before, both extents are used up. */
  lemma StepsAtEnd(dx: nat, dy: nat, k: nat)
    requires k <= Max(dx, dy)
    ensures StepsX(dx, dy, k) <= dx && StepsY(dx, dy, k) <= dy
    ensures StepsX(dx, dy, k) == dx && StepsY(dx, dy, k) == dy <==> k == Max(dx, dy)
  {
    hide Round;
    if dx >= dy > 0 {
      Times(k, dx, dy);
      RoundOfMultiple(dy, dx);
      RoundGrows(k * dy, dx * dy, dx);
    } else if dx < dy {
      Times(k, dy, dx);
      RoundOfMultiple(dx, dy);
      RoundGrows(k * dx, dy * dx, dy);
    } else {
      FlatSteps(dx, k);
    }
  }

  lemma FlatSteps(dx: nat, k: nat)
    ensures StepsX(dx, 0, k) == k && StepsY(dx, 0, k) == 0
  {
    if dx > 0 {
      RoundOfMultiple(0, dx);
      assert k * 0 == 0 * dx == 0;
    }
  }

  /** The line starts and ends at the given points. */
  lemma LineEnds(x0: int, y0: int, x1: int, y1: int)
    ensures LinePoint(x0, y0, x1, y1, 0) == (x0, y0)
    ensures LinePoint(x0, y0, x1, y1, Turns(x0, y0, x1, y1)) == (x1, y1)
  {
    StepsAtStart(Abs(x1 - x0), Abs(y1 - y0));
    StepsAtEnd(Abs(x1 - x0), Abs(y1 - y0), Turns(x0, y0, x1, y1));
  }

  /** The end point is not reached before the last turn. */
  lemma LineEndsOnce(x0: int, y0: int, x1: int, y1: int, k: nat)
    requires k <= Turns(x0, y0, x1, y1)
    ensures LinePoint(x0, y0, x1, y1, k) == (x1, y1) <==> k == Turns(x0, y0, x1, y1)
  {
    StepsAtEnd(Abs(x1 - x0), Abs(y1 - y0), k);
  }

  /** What the loop body does to the point and the error term is what one turn does. */
  lemma LineTurn(x0: int, y0: int, x1: int, y1: int, k: nat)
    requires k < Turns(x0, y0, x1, y1)
    ensures var dx, dy := Abs(x1 - x0), Abs(y1 - y0);
      var err, (x, y) := ErrorAt(dx, dy, k), LinePoint(x0, y0, x1, y1, k);
      var stepX, stepY := 2 * err >= 0 - dy, 2 * err <= dx;
      && LinePoint(x0, y0, x1, y1, k + 1)
         == (x + (if stepX then Sign(x0, x1) else 0), y + (if stepY then Sign(y0, y1) else 0))
      && ErrorAt(dx, dy, k + 1) == err + (if stepX then 0 - dy else 0) + (if stepY then dx else 0)
  {
    hide StepsX, StepsY, ErrorAt;
    TurnIsNext(Abs(x1 - x0), Abs(y1 - y0), k);
  }

  predicate Between(a: int, n: int, b: int) {
    a <= n <= b || b <= n <= a
  }

  /** The line stays in the bounding box of its ends. */
  lemma LineInBox(x0: int, y0: int, x1: int, y1: int, k: nat)
    requires k <= Turns(x0, y0, x1, y1)
    ensures var (x, y) := LinePoint(x0, y0, x1, y1, k);
      Between(x0, x, x1) && Between(y0, y, y1)
  {
    StepsAtEnd(Abs(x1 - x0), Abs(y1 - y0), k);
  }

  /** Each point is a neighbour of the one before, one step on along the longer axis. */
  lemma LineIsConnected(x0: int, y0: int, x1: int, y1: int, k: nat)
    requires k < Turns(x0, y0, x1, y1)
    ensures var (x, y), (x', y') := LinePoint(x0, y0, x1, y1, k), LinePoint(x0, y0, x1, y1, k + 1);
      && Abs(x' - x) <= 1 && Abs(y' - y) <= 1
      && if Abs(x1 - x0) >= Abs(y1 - y0) then x' == x + Sign(x0, x1) else y' == y + Sign(y0, y1)
  {
    hide Round;
    TurnIsNext(Abs(x1 - x0), Abs(y1 - y0), k);
  }

  /** Every point is within half a pixel of the ideal line along the shorter axis, and no other is: it is the pixel
      the ideal line rounds to, halves away from the start. */
  lemma LineIsExact(x0: int, y0: int, x1: int, y1: int, k: nat)
    requires k <= Turns(x0, y0, x1, y1)
    ensures var dx, dy := Abs(x1 - x0), Abs(y1 - y0);
      var (x, y) := LinePoint(x0, y0, x1, y1, k);
      var a, b := Abs(x - x0), Abs(y - y0);
      if dx >= dy then a == k && (dx > 0 ==> 0 - dx <= 2 * (a * dy - b * dx) < dx)
      else b == k && 0 - dy <= 2 * (b * dx - a * dy) < dy
  {
    hide Abs, StepsX, StepsY, LinePoint;
    var dx, dy := Abs(x1 - x0), Abs(y1 - y0);
    OffsetsAreSteps(x0, y0, x1, y1, k);
    if dx >= dy {
      FlatIsExact(dx, dy, k);
    } else {
      SteepIsExact(dx, dy, k);
    }
  }

  /** The distances from the start are the steps taken. */
  lemma OffsetsAreSteps(x0: int, y0: int, x1: int, y1: int, k: nat)
    ensures var dx, dy := Abs(x1 - x0), Abs(y1 - y0);
      var (x, y) := LinePoint(x0, y0, x1, y1, k);
      Abs(x - x0) == StepsX(dx, dy, k) && Abs(y - y0) == StepsY(dx, dy, k)
  {
    hide StepsX, StepsY;
    var dx, dy := Abs(x1 - x0), Abs(y1 - y0);
    SignedSteps(x0, x1, StepsX(dx, dy, k));
    SignedSteps(y0, y1, StepsY(dx, dy, k));
  }

  lemma SignedSteps(from: int, to: int, n: nat)
    ensures Abs(Sign(from, to) * n) == n
  {
    if from < to {
      assert Sign(from, to) * n == n;
    } else {
      assert Sign(from, to) * n == 0 - n;
    }
  }

  /** Where x is the longer axis, y is within half a pixel. */
  lemma FlatIsExact(dx: nat, dy: nat, k: nat)
    requires dx >= dy
    ensures var a, b := StepsX(dx, dy, k), StepsY(dx, dy, k);
      a == k && (dx > 0 ==> 0 - dx <= 2 * (a * dy - b * dx) < dx)
  {
    hide Round;
    if dx > 0 {
      RoundIsNearest(k * dy, dx);
    }
  }

  lemma SteepIsExact(dx: nat, dy: nat, k: nat)
    requires dx < dy
    ensures var a, b := StepsX(dx, dy, k), StepsY(dx, dy, k);
      b == k && 0 - dy <= 2 * (b * dx - a * dy) < dy
  {
    hide Round;
    RoundIsNearest(k * dx, dy);
  }

  /** Exactly the pixels of the bounding box that are within half a pixel of the ideal line are on the line; halves go away
      from the start. `a` and `b` are the steps from the start, towards the end. */
  lemma OnLineIff(x0: int, y0: int, x1: int, y1: int, p: Point)
    ensures var dx, dy := Abs(x1 - x0), Abs(y1 - y0);
      var a, b := (p.0 - x0) * Sign(x0, x1), (p.1 - y0) * Sign(y0, y1);
      p in LinePoints(x0, y0, x1, y1) <==>
        if dx >= dy then 0 <= a <= dx && if dx == 0 then b == 0 else 0 - dx <= 2 * (a * dy - b * dx) < dx
        else 0 <= b <= dy && 0 - dy <= 2 * (b * dx - a * dy) < dy
  {
    hide Abs, Sign, StepsX, StepsY;
    var dx, dy := Abs(x1 - x0), Abs(y1 - y0);
    var a, b := (p.0 - x0) * Sign(x0, x1), (p.1 - y0) * Sign(y0, y1);
    var points := LinePoints(x0, y0, x1, y1);
    SignsCancel(x0, x1, p.0 - x0);
    SignsCancel(y0, y1, p.1 - y0);
    if p in points {
      var k :| 0 <= k < |points| && points[k] == p;
      SignsCancel(x0, x1, StepsX(dx, dy, k));
      SignsCancel(y0, y1, StepsY(dx, dy, k));
      NearIff(dx, dy, a, b, k);
    }
    if NearLine(dx, dy, a, b) {
      var k := StepsFor(dx, dy, a, b);
      assert points[k] == (x0 + Sign(x0, x1) * a, y0 + Sign(y0, y1) * b);
    }
  }

  predicate NearLine(dx: nat, dy: nat, a: int, b: int) {
    if dx >= dy then 0 <= a <= dx && if dx == 0 then b == 0 else 0 - dx <= 2 * (a * dy - b * dx) < dx
    else 0 <= b <= dy && 0 - dy <= 2 * (b * dx - a * dy) < dy
  }

  lemma SignsCancel(from: int, to: int, n: int)
    ensures n * Sign(from, to) == Sign(from, to) * n && Sign(from, to) * (Sign(from, to) * n) == n
  {
  }

  lemma NearIff(dx: nat, dy: nat, a: int, b: int, k: nat)
    requires k <= Max(dx, dy) && a == StepsX(dx, dy, k) && b == StepsY(dx, dy, k)
    ensures NearLine(dx, dy, a, b)
  {
    hide Round;
    if dx >= dy {
      FlatIsExact(dx, dy, k);
    } else {
      SteepIsExact(dx, dy, k);
    }
    StepsAtEnd(dx, dy, k);
  }

  /** The turn that reaches a pixel near the line. */
  lemma StepsFor(dx: nat, dy: nat, a: int, b: int) returns (k: nat)
    requires NearLine(dx, dy, a, b)
    ensures k <= Max(dx, dy) && StepsX(dx, dy, k) == a && StepsY(dx, dy, k) == b
  {
    if dx >= dy {
      k := a;
      if dx > 0 {
        RoundedMinor(k, dy, dx, b);
      }
    } else {
      k := b;
      RoundedMinor(k, dx, dy, a);
    }
  }

  lemma RoundedMinor(k: nat, minor: nat, major: nat, b: int)
    requires major > 0 && 0 - major <= 2 * (k * minor - b * major) < major
    ensures b >= 0 && Round(k * minor, major) == b
  {
    hide Round;
    var n := k * minor;
    assert n >= 0;
    Cancel(0, b, major);
    NearestIsRound(n, major, b);
  }
}
