/** The offsets the circle loop visits, and how far from the radius they lie. */
module Circles {
  import opened Lines

  /** `(int)sqrt(n)` */
  function SquareRoot(n: nat): (r: nat)
    ensures r * r <= n < (r + 1) * (r + 1)
  {
    if n == 0 then 0
    else
      var r := SquareRoot(n - 1);
      if (r + 1) * (r + 1) <= n then r + 1 else r
  }

  /** The radius of the circle around a point through another: their distance, rounded down. */
  function Radius(x0: int, y0: int, x1: int, y1: int): (r: nat)
    ensures r * r <= (x1 - x0) * (x1 - x0) + (y1 - y0) * (y1 - y0) < (r + 1) * (r + 1)
  {
    SquareIsPositive(x1 - x0);
    SquareIsPositive(y1 - y0);
    SquareRoot((x1 - x0) * (x1 - x0) + (y1 - y0) * (y1 - y0))
  }

  /** The offsets the circle loop visits in one octant, from a state of the loop on. */
  function OctantFrom(x: int, y: int, err: int): seq<Point>
    decreases x + 1 - y
  {
    if x < y then []
    else if err <= 0 then [(x, y)] + OctantFrom(x, y + 1, err + 2 * (y + 1) + 1)
    else [(x, y)] + OctantFrom(x - 1, y + 1, err - (2 * (x - 1) + 1))
  }

  /** Along an octant from (x, y) on, y counts up by one, x never rises and falls by at most one, y never passes x,
      and the last offset is a neighbour of the diagonal: the eight octants leave no gap. */
  predicate OctantOk(o: seq<Point>, x: int, y: int) {
    && (o == [] <==> x < y)
    && (o != [] ==> o[0] == (x, y) && o[|o| - 1].0 - o[|o| - 1].1 <= 1)
    && (forall k :: 0 <= k < |o| ==> o[k].1 == y + k && o[k].1 <= o[k].0 <= x)
    && (forall k :: 0 < k < |o| ==> o[k - 1].0 - 1 <= o[k].0 <= o[k - 1].0)
  }

  lemma OctantCons(o: seq<Point>, x: int, y: int, x': int)
    requires OctantOk(o, x', y + 1) && x - 1 <= x' <= x && y <= x
    ensures OctantOk([(x, y)] + o, x, y)
  {
    var all := [(x, y)] + o;
    assert forall k :: 0 < k < |all| ==> all[k] == o[k - 1];
  }

  lemma {:induction false} OctantShape(x: int, y: int, err: int)
    ensures OctantOk(OctantFrom(x, y, err), x, y)
    decreases x + 1 - y
  {
    hide OctantOk;
    if x < y {
      OctantDone(x, y);
    } else {
      var x', err' := if err <= 0 then x else x - 1, if err <= 0 then err + 2 * (y + 1) + 1 else err - (2 * (x - 1) + 1);
      OctantShape(x', y + 1, err');
      OctantCons(OctantFrom(x', y + 1, err'), x, y, x');
    }
  }

  lemma OctantDone(x: int, y: int)
    requires x < y
    ensures OctantOk([], x, y)
  {
  }

  lemma OctantStarts(r: nat)
    ensures OctantFrom(r, 0, 0) != [] && OctantFrom(r, 0, 0)[0] == (r as int, 0)
  {
  }

  // ---- Distance from the centre -----------------------------------------------------------------

  /** What the loop keeps for a circle of radius r. Twice the steps taken in x never exceed those in y, and the error
      term stays close to the squared distance: too small by at most twice the steps, too large by growing amounts. */
  predicate Reached(r: nat, x: int, y: int, err: int) {
    ReachedBy(r, x, y, err, r * r, x * x, y * y, (r - x) * (r - x))
  }

  /** The same with the squares of r, x, y and of the steps taken in x given. */
  predicate ReachedBy(r: nat, x: int, y: int, err: int, rr: int, xx: int, yy: int, bb: int) {
    var b := r - x;
    && 0 <= b && 2 * b <= y
    && (err > 0 && x >= y ==> 2 * b + 1 <= y)
    && 0 - 2 * x <= err <= 2 * y + 1
    && xx + yy - rr + 2 * b + 2 * y >= err + 2 * bb + 5 * b
  }

  /** The squared distance of an offset is above that of the radius less one. */
  predicate Outside(r: nat, p: Point) {
    p.0 * p.0 + p.1 * p.1 > (r - 1) * (r - 1)
  }

  lemma TurnStaysReached(r: nat, x: int, y: int, err: int)
    requires Reached(r, x, y, err) && y <= x
    ensures if err <= 0 then Reached(r, x, y + 1, err + 2 * (y + 1) + 1) else Reached(r, x - 1, y + 1, err - (2 * (x - 1) + 1))
    ensures Outside(r, (x, y)) ==> if err <= 0 then Outside(r, (x, y + 1)) else Outside(r, (x - 1, y + 1))
  {
    if err <= 0 {
      StepUp(r, x, y, err);
    } else {
      StepIn(r, x, y, err);
    }
  }

  lemma StepUp(r: nat, x: int, y: int, err: int)
    requires Reached(r, x, y, err) && err <= 0
    ensures Reached(r, x, y + 1, err + 2 * (y + 1) + 1)
    ensures Outside(r, (x, y)) ==> Outside(r, (x, y + 1))
  {
    assert (y + 1) * (y + 1) == y * y + 2 * y + 1;
  }

  lemma StepIn(r: nat, x: int, y: int, err: int)
    requires Reached(r, x, y, err) && err > 0 && y <= x
    ensures Reached(r, x - 1, y + 1, err - (2 * (x - 1) + 1)) && Outside(r, (x - 1, y + 1))
  {
    var b := r - x;
    var rr, xx, yy, bb := r * r, x * x, y * y, b * b;
    NextSquares(x, y);
    NextSquares(r, b);
    SquareIsPositive(b);
    assert r - (x - 1) == b + 1;
    assert ReachedBy(r, x - 1, y + 1, err - (2 * (x - 1) + 1), rr, xx - 2 * x + 1, yy + 2 * y + 1, bb + 2 * b + 1);
    assert xx - 2 * x + 1 + (yy + 2 * y + 1) > rr - 2 * r + 1;
  }

  lemma SquareIsPositive(n: int)
    ensures n * n >= 0
  {
  }

  /** No offset falls inside the circle of the radius less one. */
  lemma {:induction false} OctantStaysOutside(r: nat, x: int, y: int, err: int)
    requires Reached(r, x, y, err) && Outside(r, (x, y))
    ensures forall p :: p in OctantFrom(x, y, err) ==> Outside(r, p)
    decreases x + 1 - y
  {
    hide Outside, Reached;
    if y <= x {
      TurnStaysReached(r, x, y, err);
      if err <= 0 {
        OctantStaysOutside(r, x, y + 1, err + 2 * (y + 1) + 1);
      } else {
        OctantStaysOutside(r, x - 1, y + 1, err - (2 * (x - 1) + 1));
      }
    }
  }

  /** The last offset is reached with the invariant, and lies on the diagonal or with x about to be stepped. */
  lemma {:induction false} LastIsReached(r: nat, x: int, y: int, err: int) returns (e: int)
    requires Reached(r, x, y, err) && y <= x
    ensures var o := OctantFrom(x, y, err);
      o != [] && var (x', y') := o[|o| - 1]; Reached(r, x', y', e) && if e > 0 then x' <= y' + 1 else x' == y'
    decreases x + 1 - y
  {
    hide Reached;
    TurnStaysReached(r, x, y, err);
    OctantShape(x, y, err);
    var x', err' := if err <= 0 then x else x - 1, if err <= 0 then err + 2 * (y + 1) + 1 else err - (2 * (x - 1) + 1);
    if y + 1 <= x' {
      e := LastIsReached(r, x', y + 1, err');
    } else {
      e := err;
    }
  }

  /** From radius 31 on the loop ends outside the circle of the radius plus one: the error term has drifted too far. */
  lemma LastIsFar(r: nat, x: int, y: int, err: int)
    requires r >= 31 && Reached(r, x, y, err) && y <= x && if err > 0 then x <= y + 1 else x == y
    ensures x * x + y * y > (r + 1) * (r + 1)
  {
    var b := r - x;
    var far, xx, yy, bb := (r + 1) * (r + 1), x * x, y * y, b * b;
    assert far == r * r + 2 * r + 1;
    assert ReachedBy(r, x, y, err, r * r, xx, yy, bb);
    if xx + yy <= far {
      Square(x, y);
      NearDiagonal(y, r + 1);
      StepsAreMany(r, b);
    }
  }

  lemma Square(a: int, m: int)
    requires a >= m >= 0
    ensures a * a >= m * m
  {
  }

  /** A point below the diagonal of a circle of radius s has y at most 5 / 7 of s. */
  lemma NearDiagonal(y: nat, s: nat)
    requires s > 0
    ensures 2 * (y * y) <= s * s ==> 7 * y <= 5 * s
  {
    var yy, ss := y * y, s * s;
    if 7 * y > 5 * s {
      Square(7 * y, 5 * s);
      assert 7 * y * (7 * y) == 49 * yy && 5 * s * (5 * s) == 25 * ss && ss > 0;
    }
  }

  lemma StepsAreMany(r: nat, b: int)
    requires r >= 31
    ensures 7 * b >= 2 * r - 12 ==> 7 * (2 * (b * b) + 3 * b) > 24 * r + 10
    ensures 7 * b >= 2 * r - 5 ==> 7 * (2 * (b * b) + 3 * b) > 34 * r + 27
  {
    var bb := b * b;
    SquareAbove(7 * b);
    assert 7 * b * (7 * b) == 49 * bb;
  }

  /** A square lies above its tangent at 50. */
  lemma SquareAbove(a: int)
    ensures a * a >= 100 * a - 2500
  {
    assert (a - 50) * (a - 50) == a * a - 100 * a + 2500;
  }

  // ---- The radii that stay near -----------------------------------------------------------------

  /** Some offset from a state of the loop on has a squared distance above the bound; `q` is that of (x, y). */
  function Exceeds(x: int, y: int, err: int, q: int, bound: int): bool
    decreases x + 1 - y
  {
    if x < y then false
    else if q > bound then true
    else if err <= 0 then Exceeds(x, y + 1, err + 2 * y + 3, q + 2 * y + 1, bound)
    else Exceeds(x - 1, y + 1, err - 2 * x + 1, q + 2 * y - 2 * x + 2, bound)
  }

  lemma {:induction false} ExceedsIff(x: int, y: int, err: int, bound: int)
    ensures Exceeds(x, y, err, x * x + y * y, bound) <==> !AllWithin(OctantFrom(x, y, err), bound)
    decreases x + 1 - y
  {
    hide AllWithin;
    if x < y {
      NoneWithin(bound);
    } else {
      var x', err' := if err <= 0 then x else x - 1, if err <= 0 then err + 2 * (y + 1) + 1 else err - (2 * (x - 1) + 1);
      ExceedsIff(x', y + 1, err', bound);
      FirstWithin((x, y), OctantFrom(x', y + 1, err'), bound);
      NextSquares(x, y);
    }
  }

  lemma NextSquares(x: int, y: int)
    ensures (y + 1) * (y + 1) == y * y + 2 * y + 1 && (x - 1) * (x - 1) == x * x - 2 * x + 1
  {
  }

  predicate AllWithin(o: seq<Point>, bound: int) {
    forall p :: p in o ==> p.0 * p.0 + p.1 * p.1 <= bound
  }

  lemma NoneWithin(bound: int)
    ensures AllWithin([], bound)
  {
  }

  lemma FirstWithin(p: Point, o: seq<Point>, bound: int)
    ensures AllWithin([p] + o, bound) <==> p.0 * p.0 + p.1 * p.1 <= bound && AllWithin(o, bound)
  {
    var all := [p] + o;
    assert forall q :: q in all <==> q == p || q in o;
  }

  /** Every offset is within one pixel of the radius, on the outside. */
  predicate StaysNear(r: nat) {
    AllWithin(OctantFrom(r, 0, 0), (r + 1) * (r + 1))
  }

  lemma SmallRadii(r: nat)
    requires r < 31
    ensures Exceeds(r, 0, 0, r * r, (r + 1) * (r + 1)) <==> r == 13 || r >= 16
  {
    hide Exceeds;
    RadiiTo7();
    RadiiTo12();
    Radius13();
    Radius14();
    Radius15();
    Radius16();
    Radius17();
    Radius18();
    Radius19();
    Radius20();
    Radius21();
    Radius22();
    Radius23();
    Radius24();
    Radius25();
    Radius26();
    Radius27();
    Radius28();
    Radius29();
    Radius30();
  }

  lemma RadiiTo7()
    ensures !Exceeds(0, 0, 0, 0, 1) && !Exceeds(1, 0, 0, 1, 4) && !Exceeds(2, 0, 0, 4, 9) && !Exceeds(3, 0, 0, 9, 16)
    ensures !Exceeds(4, 0, 0, 16, 25) && !Exceeds(5, 0, 0, 25, 36) && !Exceeds(6, 0, 0, 36, 49) && !Exceeds(7, 0, 0, 49, 64)
  {
    assert !Exceeds(5, 5, -5, 50, 64);
  }

  lemma RadiiTo12()
    ensures !Exceeds(8, 0, 0, 64, 81) && !Exceeds(9, 0, 0, 81, 100) && !Exceeds(10, 0, 0, 100, 121) && !Exceeds(11, 0, 0, 121, 144)
    ensures !Exceeds(12, 0, 0, 144, 169)
  {
    assert !Exceeds(6, 5, -9, 61, 81);
    assert !Exceeds(7, 5, -13, 74, 100);
    assert !Exceeds(9, 5, 11, 106, 121);
    assert !Exceeds(10, 5, 9, 125, 144);
    assert !Exceeds(11, 5, 7, 146, 169);
  }

  lemma Radius13()
    ensures Exceeds(13, 0, 0, 169, 196)
  {
    assert Exceeds(10, 10, 14, 200, 196) && Exceeds(12, 5, 5, 169, 196);
  }

  lemma Radius14()
    ensures !Exceeds(14, 0, 0, 196, 225)
  {
    assert !Exceeds(11, 10, 8, 221, 225) && !Exceeds(13, 5, 3, 194, 225);
  }

  lemma Radius15()
    ensures !Exceeds(15, 0, 0, 225, 256)
  {
    assert !Exceeds(12, 10, 2, 244, 256) && !Exceeds(14, 5, 1, 221, 256);
  }

  lemma Radius16()
    ensures Exceeds(16, 0, 0, 256, 289)
  {
    assert Exceeds(13, 10, -8, 269, 289) && Exceeds(15, 5, -1, 250, 289);
  }

  lemma Radius17()
    ensures Exceeds(17, 0, 0, 289, 324)
  {
    assert Exceeds(14, 10, -14, 296, 324) && Exceeds(16, 5, -3, 281, 324);
  }

  lemma Radius18()
    ensures Exceeds(18, 0, 0, 324, 361)
  {
    assert Exceeds(15, 10, -20, 325, 361) && Exceeds(17, 5, -5, 314, 361);
  }

  lemma Radius19()
    ensures Exceeds(19, 0, 0, 361, 400)
  {
    assert Exceeds(16, 10, -26, 356, 400) && Exceeds(18, 5, -7, 349, 400);
  }

  lemma Radius20()
    ensures Exceeds(20, 0, 0, 400, 441)
  {
    assert Exceeds(17, 10, -32, 389, 441) && Exceeds(19, 5, -9, 386, 441);
  }

  lemma Radius21()
    ensures Exceeds(21, 0, 0, 441, 484)
  {
    assert Exceeds(19, 10, 20, 461, 484) && Exceeds(20, 5, -11, 425, 484);
  }

  lemma Radius22()
    ensures Exceeds(22, 0, 0, 484, 529)
  {
    assert Exceeds(20, 10, 14, 500, 529) && Exceeds(21, 5, -13, 466, 529);
  }

  lemma Radius23()
    ensures Exceeds(23, 0, 0, 529, 576)
  {
    assert Exceeds(19, 15, 13, 586, 576) && Exceeds(21, 10, 10, 541, 576) && Exceeds(22, 5, -15, 509, 576);
  }

  lemma Radius24()
    ensures Exceeds(24, 0, 0, 576, 625)
  {
    assert Exceeds(20, 15, 5, 625, 625) && Exceeds(22, 10, 6, 584, 625) && Exceeds(23, 5, -17, 554, 625);
  }

  lemma Radius25()
    ensures Exceeds(25, 0, 0, 625, 676)
  {
    assert Exceeds(21, 15, -3, 666, 676) && Exceeds(23, 10, 2, 629, 676) && Exceeds(24, 5, -19, 601, 676);
  }

  lemma Radius26()
    ensures Exceeds(26, 0, 0, 676, 729)
  {
    assert Exceeds(22, 15, -13, 709, 729) && Exceeds(24, 10, -2, 676, 729) && Exceeds(25, 5, -21, 650, 729);
  }

  lemma Radius27()
    ensures Exceeds(27, 0, 0, 729, 784)
  {
    assert Exceeds(23, 15, -23, 754, 784) && Exceeds(25, 10, -6, 725, 784) && Exceeds(26, 5, -23, 701, 784);
  }

  lemma Radius28()
    ensures Exceeds(28, 0, 0, 784, 841)
  {
    assert Exceeds(24, 15, -31, 801, 841) && Exceeds(26, 10, -10, 776, 841) && Exceeds(27, 5, -25, 754, 841);
  }

  lemma Radius29()
    ensures Exceeds(29, 0, 0, 841, 900)
  {
    assert Exceeds(25, 15, -39, 850, 900) && Exceeds(27, 10, -14, 829, 900) && Exceeds(28, 5, -27, 809, 900);
  }

  lemma Radius30()
    ensures Exceeds(30, 0, 0, 900, 961)
  {
    assert Exceeds(26, 15, -49, 901, 961) && Exceeds(28, 10, -20, 884, 961) && Exceeds(29, 5, -29, 866, 961);
  }

  /** The plotted circle keeps outside the circle of the radius less one; it keeps inside that of the radius plus one for
      exactly the radii up to 12, 14 and 15. */
  lemma CircleDistance(r: nat)
    ensures r > 0 ==> forall p :: p in OctantFrom(r, 0, 0) ==> p.0 * p.0 + p.1 * p.1 > (r - 1) * (r - 1)
    ensures StaysNear(r) <==> r <= 12 || r == 14 || r == 15
  {
    hide OctantFrom, Exceeds, Reached;
    assert r * r + 0 * 0 == r * r;
    assert r * r + 0 * 0 == r * r;
    StartIsReached(r);
    if r > 0 {
      OctantStaysOutside(r, r, 0, 0);
      assert forall p :: p in OctantFrom(r, 0, 0) ==> Outside(r, p);
    }
    if r < 31 {
      SmallRadii(r);
      ExceedsIff(r, 0, 0, (r + 1) * (r + 1));
    } else {
      var e := LastIsReached(r, r, 0, 0);
      var o := OctantFrom(r, 0, 0);
      var last := o[|o| - 1];
      OctantShape(r, 0, 0);
      LastIsFar(r, last.0, last.1, e);
      assert last in o;
    }
  }

  lemma StartIsReached(r: nat)
    ensures Reached(r, r, 0, 0) && (r > 0 ==> Outside(r, (r, 0)))
  {
    assert (r - 1) * (r - 1) == r * r - 2 * r + 1;
  }
}
