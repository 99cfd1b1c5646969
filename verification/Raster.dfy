/** The rasteriser over the nibble-packed framebuffer. */
module Raster {
  import opened Lines
  import opened Circles

  const WIDTH := 256
  const HEIGHT := 64
  const SCREEN_BYTES := 8192

  predicate OnScreen(x: int, y: int) {
    0 <= x < WIDTH && 0 <= y < HEIGHT
  }

  /** Byte of a pixel: two pixels a byte, 128 bytes a row. */
  function ByteIndex(x: int, y: int): (i: nat)
    requires OnScreen(x, y)
    ensures i < SCREEN_BYTES
  {
    y * 128 + x / 2
  }

  /** The 4-bit value of a pixel: even columns in the low nibble, odd ones in the high. */
  function PixelOf(bytes: seq<bv8>, x: int, y: int): bv8
    requires |bytes| == SCREEN_BYTES && OnScreen(x, y)
  {
    var b := bytes[ByteIndex(x, y)];
    if x % 2 == 1 then b >> 4 else b & 0x0f
  }

  /** `colour & 0x0f` */
  function Nibble(colour: int): (n: bv8)
    ensures n <= 0x0f
  {
    (colour % 16) as bv8
  }

  /** The picture after painting points, in one colour, over the picture before: those on screen have the colour,
      every other pixel is as it was. */
  ghost predicate Painted(before: seq<bv8>, after: seq<bv8>, points: seq<Point>, colour: int)
    requires |before| == |after| == SCREEN_BYTES
  {
    forall x, y :: OnScreen(x, y) ==>
      PixelOf(after, x, y) == if (x, y) in points then Nibble(colour) else PixelOf(before, x, y)
  }

  function WithPixel(b: bv8, odd: bool, n: bv8): bv8
    requires n <= 0x0f
  {
    var mask: bv8 := if odd then 0xf0 else 0x0f;
    (b & !mask) | (if odd then n << 4 else n)
  }

  lemma NibblesAreIndependent(b: bv8, n: bv8)
    requires n <= 0x0f
    ensures WithPixel(b, true, n) >> 4 == n && WithPixel(b, true, n) & 0x0f == b & 0x0f
    ensures WithPixel(b, false, n) & 0x0f == n && WithPixel(b, false, n) >> 4 == b >> 4
  {
  }

  lemma SameByte(x: int, y: int, x': int, y': int)
    requires OnScreen(x, y) && OnScreen(x', y')
    ensures ByteIndex(x, y) == ByteIndex(x', y') <==> y == y' && x / 2 == x' / 2
  {
  }

  lemma OnePixelPainted(before: seq<bv8>, x: int, y: int, colour: int)
    requires |before| == SCREEN_BYTES && OnScreen(x, y)
    ensures var i := ByteIndex(x, y);
      Painted(before, before[i := WithPixel(before[i], x % 2 == 1, Nibble(colour))], [(x, y)], colour)
  {
    hide Nibble, WithPixel, ByteIndex;
    var i, n := ByteIndex(x, y), Nibble(colour);
    var after := before[i := WithPixel(before[i], x % 2 == 1, n)];
    NibblesAreIndependent(before[i], n);
    forall x', y' | OnScreen(x', y')
      ensures PixelOf(after, x', y') == if (x', y') in [(x, y)] then n else PixelOf(before, x', y')
    {
      SameByte(x, y, x', y');
      assert (x', y') in [(x, y)] <==> x' == x && y' == y;
    }
  }

  lemma NothingPainted(before: seq<bv8>, points: seq<Point>, colour: int)
    requires |before| == SCREEN_BYTES
    requires forall p :: p in points ==> !OnScreen(p.0, p.1)
    ensures Painted(before, before, points, colour)
  {
  }

  lemma PaintedTwice(before: seq<bv8>, mid: seq<bv8>, after: seq<bv8>, a: seq<Point>, b: seq<Point>, colour: int)
    requires |before| == |mid| == |after| == SCREEN_BYTES
    requires Painted(before, mid, a, colour) && Painted(mid, after, b, colour)
    ensures Painted(before, after, a + b, colour)
  {
    hide PixelOf, Nibble;
  }

  /** A byte is its two nibbles. */
  lemma BytesAreNibbles(b: bv8)
    ensures (b >> 4) as int == b as int / 16 && (b & 0x0f) as int == b as int % 16
  {
  }

  lemma NibbleOfColour(colour: int)
    ensures (Nibble(colour) as int - colour) % 16 == 0 && Nibble(colour) as int < 16
  {
  }

  /** Writing a pixel puts the colour modulo 16 into one half of the byte and keeps the other. */
  lemma ByteTakesColour(b: bv8, odd: bool, colour: int)
    ensures var was, now := b as int, WithPixel(b, odd, Nibble(colour)) as int;
      if odd then now % 16 == was % 16 && (now / 16 - colour) % 16 == 0 else now / 16 == was / 16 && (now % 16 - colour) % 16 == 0
  {
    hide WithPixel, Nibble;
    var r := WithPixel(b, odd, Nibble(colour));
    NibblesAreIndependent(b, Nibble(colour));
    BytesAreNibbles(b);
    BytesAreNibbles(r);
    NibbleOfColour(colour);
  }

  /** The masking of `set_pixel`. */
  method NewByte(b: bv8, odd: bool, colour: int) returns (r: bv8)
    ensures r == WithPixel(b, odd, Nibble(colour))
  {
    hide Nibble;
    var mask: bv8 := if odd then 0xf0 else 0x0f;
    var shifted := if odd then Nibble(colour) << 4 else Nibble(colour);
    r := (b & !mask) | shifted;
  }

  /** `set_pixel`: one pixel and no neighbour; nothing off screen. Pixels lie two to a byte and 128 bytes to a row, an even
      column in the low half. */
  method SetPixel(screen: array<bv8>, x: int, y: int, colour: int)
    requires screen.Length == SCREEN_BYTES
    modifies screen
    ensures Painted(old(screen[..]), screen[..], [(x, y)], colour)
    ensures !(0 <= x < 256 && 0 <= y < 64) ==> screen[..] == old(screen[..])
    ensures 0 <= x < 256 && 0 <= y < 64 ==>
      var i := y * 128 + x / 2;
      var was, now := old(screen[i]) as int, screen[i] as int;
      && (forall j :: 0 <= j < screen.Length && j != i ==> screen[j] == old(screen[j]))
      && if x % 2 == 1 then now % 16 == was % 16 && (now / 16 - colour) % 16 == 0
         else now / 16 == was / 16 && (now % 16 - colour) % 16 == 0
  {
    hide Painted, Nibble, WithPixel;
    if x < 0 || x >= 256 || y < 0 || y >= 64 {
      NothingPainted(screen[..], [(x, y)], colour);
      return;
    }
    var byteIndex := y * 128 + x / 2;
    OnePixelPainted(screen[..], x, y, colour);
    var byte := NewByte(screen[byteIndex], x % 2 == 1, colour);
    screen[byteIndex] := byte;
    ByteTakesColour(old(screen[byteIndex]), x % 2 == 1, colour);
    assert screen[..] == old(screen[..])[byteIndex := WithPixel(old(screen[byteIndex]), x % 2 == 1, Nibble(colour))];
  }

  // ---- Line -------------------------------------------------------------------------------------

  /** The line loop plots exactly the points of the exact line, and stops. */
  method DrawLine(screen: array<bv8>, startX: int, startY: int, x1: int, y1: int, colour: int)
    requires screen.Length == SCREEN_BYTES
    modifies screen
    ensures Painted(old(screen[..]), screen[..], LinePoints(startX, startY, x1, y1), colour)
  {
    hide Painted, LinePoint, ErrorAt;
    var x0, y0 := startX, startY;
    var dx, sx := Abs(x1 - x0), if x0 < x1 then 1 else -1;
    var dy, sy := 0 - Abs(y1 - y0), if y0 < y1 then 1 else -1;
    var err := dx + dy;
    ghost var n, all, k: nat := Turns(startX, startY, x1, y1), LinePoints(startX, startY, x1, y1), 0;
    StepsAtStart(dx, -dy);
    LineEnds(startX, startY, x1, y1);
    NothingPainted(screen[..], all[..0], colour);
    while true
      invariant k <= n && Painted(old(screen[..]), screen[..], all[..k], colour)
      invariant (x0, y0) == LinePoint(startX, startY, x1, y1, k) && err == ErrorAt(dx, -dy, k)
      decreases n - k
    {
      ghost var before := screen[..];
      SetPixel(screen, x0, y0, colour);
      PaintedTwice(old(screen[..]), before, screen[..], all[..k], [(x0, y0)], colour);
      assert all[..k] + [(x0, y0)] == all[..k + 1];
      LineEndsOnce(startX, startY, x1, y1, k);
      if x0 == x1 && y0 == y1 {
        break;
      }
      LineTurn(startX, startY, x1, y1, k);
      var e2 := 2 * err;
      if e2 >= dy {
        err := err + dy;
        x0 := x0 + sx;
      }
      if e2 <= dx {
        err := err + dx;
        y0 := y0 + sy;
      }
      k := k + 1;
    }
    assert all[..n + 1] == all;
  }

  // ---- Box --------------------------------------------------------------------------------------

  function BoxPoints(x0: int, y0: int, x1: int, y1: int): seq<Point> {
    LinePoints(x0, y0, x1, y0) + LinePoints(x1, y0, x1, y1) + LinePoints(x1, y1, x0, y1) + LinePoints(x0, y1, x0, y0)
  }

  method DrawBox(screen: array<bv8>, x0: int, y0: int, x1: int, y1: int, colour: int)
    requires screen.Length == SCREEN_BYTES
    modifies screen
    ensures Painted(old(screen[..]), screen[..], BoxPoints(x0, y0, x1, y1), colour)
  {
    hide Painted, LinePoints;
    DrawLine(screen, x0, y0, x1, y0, colour);
    ghost var p1 := screen[..];
    DrawLine(screen, x1, y0, x1, y1, colour);
    ghost var p2 := screen[..];
    PaintedTwice(old(screen[..]), p1, p2, LinePoints(x0, y0, x1, y0), LinePoints(x1, y0, x1, y1), colour);
    DrawLine(screen, x1, y1, x0, y1, colour);
    ghost var p3 := screen[..];
    PaintedTwice(old(screen[..]), p2, p3, LinePoints(x0, y0, x1, y0) + LinePoints(x1, y0, x1, y1), LinePoints(x1, y1, x0, y1), colour);
    DrawLine(screen, x0, y1, x0, y0, colour);
    PaintedTwice(old(screen[..]), p3, screen[..], LinePoints(x0, y0, x1, y0) + LinePoints(x1, y0, x1, y1) + LinePoints(x1, y1, x0, y1),
                 LinePoints(x0, y1, x0, y0), colour);
  }

  lemma HorizontalLine(x0: int, x1: int, y: int, p: Point)
    ensures p in LinePoints(x0, y, x1, y) <==> p.1 == y && Between(x0, p.0, x1)
  {
    hide StepsX, StepsY;
    var all := LinePoints(x0, y, x1, y);
    forall k | 0 <= k < |all| ensures all[k] == (x0 + Sign(x0, x1) * k, y) {
      FlatSteps(Abs(x1 - x0), k);
    }
    if p.1 == y && Between(x0, p.0, x1) {
      assert all[Abs(p.0 - x0)] == p;
    }
  }

  lemma VerticalLine(x: int, y0: int, y1: int, p: Point)
    ensures p in LinePoints(x, y0, x, y1) <==> p.0 == x && Between(y0, p.1, y1)
  {
    hide StepsX, StepsY;
    var all := LinePoints(x, y0, x, y1);
    forall k | 0 <= k < |all| ensures all[k] == (x, y0 + Sign(y0, y1) * k) {
      UprightSteps(Abs(y1 - y0), k);
    }
    if p.0 == x && Between(y0, p.1, y1) {
      assert all[Abs(p.1 - y0)] == p;
    }
  }

  lemma UprightSteps(dy: nat, k: nat)
    requires k <= dy
    ensures StepsX(0, dy, k) == 0 && StepsY(0, dy, k) == k
  {
    if dy > 0 {
      RoundOfMultiple(0, dy);
      assert k * 0 == 0 * dy == 0;
    }
  }

  /** The four lines of a box are its perimeter. */
  lemma BoxIsPerimeter(x0: int, y0: int, x1: int, y1: int, p: Point)
    ensures p in BoxPoints(x0, y0, x1, y1) <==>
      Between(x0, p.0, x1) && Between(y0, p.1, y1) && (p.0 == x0 || p.0 == x1 || p.1 == y0 || p.1 == y1)
  {
    hide LinePoints;
    HorizontalLine(x0, x1, y0, p);
    VerticalLine(x1, y0, y1, p);
    HorizontalLine(x1, x0, y1, p);
    VerticalLine(x0, y1, y0, p);
  }

  // ---- Rectangle --------------------------------------------------------------------------------

  ghost predicate FilledBlock(before: seq<bv8>, after: seq<bv8>, loX: int, hiX: int, loY: int, hiY: int, colour: int)
    requires |before| == |after| == SCREEN_BYTES
  {
    forall x, y :: OnScreen(x, y) ==>
      PixelOf(after, x, y) == if loX <= x <= hiX && loY <= y <= hiY then Nibble(colour) else PixelOf(before, x, y)
  }

  lemma FilledOnce(before: seq<bv8>, mid: seq<bv8>, after: seq<bv8>, loX: int, x: int, y: int, colour: int)
    requires |before| == |mid| == |after| == SCREEN_BYTES && loX <= x
    requires FilledBlock(before, mid, loX, x - 1, y, y, colour) && Painted(mid, after, [(x, y)], colour)
    ensures FilledBlock(before, after, loX, x, y, y, colour)
  {
    hide PixelOf, Nibble;
    forall x', y' | OnScreen(x', y')
      ensures PixelOf(after, x', y') == if loX <= x' <= x && y' == y then Nibble(colour) else PixelOf(before, x', y')
    {
      assert (x', y') in [(x, y)] <==> x' == x && y' == y;
    }
  }

  lemma FilledRow(before: seq<bv8>, mid: seq<bv8>, after: seq<bv8>, loX: int, hiX: int, loY: int, y: int, colour: int)
    requires |before| == |mid| == |after| == SCREEN_BYTES && loY <= y
    requires FilledBlock(before, mid, loX, hiX, loY, y - 1, colour) && FilledBlock(mid, after, loX, hiX, y, y, colour)
    ensures FilledBlock(before, after, loX, hiX, loY, y, colour)
  {
    hide PixelOf, Nibble;
  }

  lemma FilledNothing(before: seq<bv8>, loX: int, hiX: int, loY: int, hiY: int, colour: int)
    requires |before| == SCREEN_BYTES && (hiX < loX || hiY < loY)
    ensures FilledBlock(before, before, loX, hiX, loY, hiY, colour)
  {
  }

  /** The rectangle loops set exactly the part of the rectangle that is on screen. */
  method DrawRectangle(screen: array<bv8>, x0: int, y0: int, x1: int, y1: int, colour: int)
    requires screen.Length == SCREEN_BYTES
    modifies screen
    ensures forall x, y :: OnScreen(x, y) ==>
      PixelOf(screen[..], x, y)
        == if Between(x0, x, x1) && Between(y0, y, y1) then Nibble(colour) else PixelOf(old(screen[..]), x, y)
  {
    var loX, hiX := if x0 <= x1 then x0 else x1, if x0 <= x1 then x1 else x0;
    var loY, hiY := if y0 <= y1 then y0 else y1, if y0 <= y1 then y1 else y0;
    FillRows(screen, loX, hiX, loY, hiY, colour);
    assert forall x :: Between(x0, x, x1) <==> loX <= x <= hiX;
    assert forall y :: Between(y0, y, y1) <==> loY <= y <= hiY;
  }

  method FillRows(screen: array<bv8>, loX: int, hiX: int, loY: int, hiY: int, colour: int)
    requires screen.Length == SCREEN_BYTES && loX <= hiX && loY <= hiY
    modifies screen
    ensures FilledBlock(old(screen[..]), screen[..], loX, hiX, loY, hiY, colour)
  {
    hide FilledBlock;
    FilledNothing(screen[..], loX, hiX, loY, loY - 1, colour);
    var y := loY;
    while y <= hiY
      invariant loY <= y <= hiY + 1
      invariant FilledBlock(old(screen[..]), screen[..], loX, hiX, loY, y - 1, colour)
    {
      ghost var before := screen[..];
      FillRow(screen, loX, hiX, y, colour);
      FilledRow(old(screen[..]), before, screen[..], loX, hiX, loY, y, colour);
      y := y + 1;
    }
  }

  method FillRow(screen: array<bv8>, loX: int, hiX: int, y: int, colour: int)
    requires screen.Length == SCREEN_BYTES && loX <= hiX
    modifies screen
    ensures FilledBlock(old(screen[..]), screen[..], loX, hiX, y, y, colour)
  {
    hide FilledBlock, Painted;
    FilledNothing(screen[..], loX, loX - 1, y, y, colour);
    var x := loX;
    while x <= hiX
      invariant loX <= x <= hiX + 1
      invariant FilledBlock(old(screen[..]), screen[..], loX, x - 1, y, y, colour)
    {
      ghost var before := screen[..];
      SetPixel(screen, x, y, colour);
      FilledOnce(old(screen[..]), before, screen[..], loX, x, y, colour);
      x := x + 1;
    }
  }

  // ---- Circle -----------------------------------------------------------------------------------

  /** The eight pixels plotted for one offset. */
  function Eight(cx: int, cy: int, p: Point): seq<Point> {
    var (x, y) := p;
    [(cx + x, cy + y), (cx + y, cy + x), (cx - y, cy + x), (cx - x, cy + y),
     (cx - x, cy - y), (cx - y, cy - x), (cx + y, cy - x), (cx + x, cy - y)]
  }

  function EightOfAll(cx: int, cy: int, octant: seq<Point>): seq<Point> {
    if octant == [] then [] else Eight(cx, cy, octant[0]) + EightOfAll(cx, cy, octant[1..])
  }

  function CirclePoints(cx: int, cy: int, r: nat): seq<Point> {
    EightOfAll(cx, cy, OctantFrom(r, 0, 0))
  }

  method PlotEight(screen: array<bv8>, cx: int, cy: int, x: int, y: int, colour: int)
    requires screen.Length == SCREEN_BYTES
    modifies screen
    ensures Painted(old(screen[..]), screen[..], Eight(cx, cy, (x, y)), colour)
  {
    hide Painted;
    ghost var start := screen[..];
    ghost var points := Eight(cx, cy, (x, y));
    SetPixel(screen, cx + x, cy + y, colour);
    ghost var s1 := screen[..];
    SetPixel(screen, cx + y, cy + x, colour);
    ghost var s2 := screen[..];
    PaintedTwice(start, s1, s2, [points[0]], [points[1]], colour);
    SetPixel(screen, cx - y, cy + x, colour);
    ghost var s3 := screen[..];
    PaintedTwice(start, s2, s3, [points[0]] + [points[1]], [points[2]], colour);
    SetPixel(screen, cx - x, cy + y, colour);
    ghost var s4 := screen[..];
    PaintedTwice(start, s3, s4, [points[0]] + [points[1]] + [points[2]], [points[3]], colour);
    SetPixel(screen, cx - x, cy - y, colour);
    ghost var s5 := screen[..];
    SetPixel(screen, cx - y, cy - x, colour);
    ghost var s6 := screen[..];
    PaintedTwice(s4, s5, s6, [points[4]], [points[5]], colour);
    SetPixel(screen, cx + y, cy - x, colour);
    ghost var s7 := screen[..];
    PaintedTwice(s4, s6, s7, [points[4]] + [points[5]], [points[6]], colour);
    SetPixel(screen, cx + x, cy - y, colour);
    PaintedTwice(s4, s7, screen[..], [points[4]] + [points[5]] + [points[6]], [points[7]], colour);
    PaintedTwice(start, s4, screen[..], [points[0]] + [points[1]] + [points[2]] + [points[3]],
                 [points[4]] + [points[5]] + [points[6]] + [points[7]], colour);
    assert points == [points[0]] + [points[1]] + [points[2]] + [points[3]]
                   + ([points[4]] + [points[5]] + [points[6]] + [points[7]]);
  }

  method DrawCircle(screen: array<bv8>, cx: int, cy: int, r: nat, colour: int)
    requires screen.Length == SCREEN_BYTES
    modifies screen
    ensures Painted(old(screen[..]), screen[..], CirclePoints(cx, cy, r), colour)
  {
    hide Painted, Eight;
    var x: int, y: int, err: int := r, 0, 0;
    ghost var done: seq<Point>, all := [], CirclePoints(cx, cy, r);
    NothingPainted(screen[..], done, colour);
    assert done + all == all;
    while x >= y
      invariant Painted(old(screen[..]), screen[..], done, colour)
      invariant all == done + EightOfAll(cx, cy, OctantFrom(x, y, err))
      decreases x + 1 - y
    {
      ghost var before, rest := screen[..], OctantFrom(x, y, err);
      PlotEight(screen, cx, cy, x, y, colour);
      PaintedTwice(old(screen[..]), before, screen[..], done, Eight(cx, cy, (x, y)), colour);
      assert rest[0] == (x, y);
      done := done + Eight(cx, cy, (x, y));
      assert all == done + EightOfAll(cx, cy, rest[1..]);
      y := y + 1;
      if err <= 0 {
        err := err + 2 * y + 1;
      } else {
        x := x - 1;
        err := err - (2 * x + 1);
      }
      assert rest[1..] == OctantFrom(x, y, err);
    }
    assert done + [] == done;
  }

  lemma EightIsSymmetric(cx: int, cy: int, p: Point, a: int, b: int)
    requires 0 <= p.1 <= p.0
    ensures (cx + a, cy + b) in Eight(cx, cy, p) <==> p == (Max(Abs(a), Abs(b)), if Abs(a) < Abs(b) then Abs(a) else Abs(b))
  {
  }

  lemma {:induction false} EightOfAllIsSymmetric(cx: int, cy: int, octant: seq<Point>, a: int, b: int)
    requires forall k :: 0 <= k < |octant| ==> 0 <= octant[k].1 <= octant[k].0
    ensures (cx + a, cy + b) in EightOfAll(cx, cy, octant)
       <==> (Max(Abs(a), Abs(b)), if Abs(a) < Abs(b) then Abs(a) else Abs(b)) in octant
    decreases octant
  {
    hide Eight;
    if octant != [] {
      EightIsSymmetric(cx, cy, octant[0], a, b);
      EightOfAllIsSymmetric(cx, cy, octant[1..], a, b);
      assert octant == [octant[0]] + octant[1..];
    }
  }

  /** A pixel is on the circle exactly when the pixel mirrored into the first octant is an offset of the loop: the
      circle is closed under all eight symmetries. It stays in the square of its radius and touches its sides. */
  lemma CircleIsSymmetric(cx: int, cy: int, r: nat, a: int, b: int)
    ensures (cx + a, cy + b) in CirclePoints(cx, cy, r)
       <==> (Max(Abs(a), Abs(b)), if Abs(a) < Abs(b) then Abs(a) else Abs(b)) in OctantFrom(r, 0, 0)
    ensures (cx + a, cy + b) in CirclePoints(cx, cy, r) ==> Abs(a) <= r && Abs(b) <= r
    ensures (cx + r, cy) in CirclePoints(cx, cy, r)
  {
    hide OctantFrom, EightOfAll;
    OctantShape(r, 0, 0);
    EightOfAllIsSymmetric(cx, cy, OctantFrom(r, 0, 0), a, b);
    EightOfAllIsSymmetric(cx, cy, OctantFrom(r, 0, 0), r, 0);
    OctantStarts(r);
  }

  // ---- Dispatch ---------------------------------------------------------------------------------

  datatype Shape = PointShape | LineShape | BoxShape | RectangleShape | CircleShape

  /** The pixels a shape covers. A circle has its second point to its radius. */
  ghost predicate Covers(shape: Shape, x0: int, y0: int, x1: int, y1: int, p: Point) {
    match shape
    case PointShape => p == (x0, y0)
    case LineShape => exists k: nat :: k <= Turns(x0, y0, x1, y1) && p == LinePoint(x0, y0, x1, y1, k)
    case BoxShape => Between(x0, p.0, x1) && Between(y0, p.1, y1) && (p.0 == x0 || p.0 == x1 || p.1 == y0 || p.1 == y1)
    case RectangleShape => Between(x0, p.0, x1) && Between(y0, p.1, y1)
    case CircleShape => (Max(Abs(p.0 - x0), Abs(p.1 - y0)), Min(Abs(p.0 - x0), Abs(p.1 - y0))) in OctantFrom(Radius(x0, y0, x1, y1), 0, 0)
  }

  function Min(a: nat, b: nat): nat {
    if a < b then a else b
  }

  /** `NT_drawShapeI`: exactly the covered pixels that are on screen get the colour, modulo 16. */
  method DrawShape(screen: array<bv8>, shape: Shape, x0: int, y0: int, x1: int, y1: int, colour: int)
    requires screen.Length == SCREEN_BYTES
    modifies screen
    ensures forall x, y :: OnScreen(x, y) ==>
      PixelOf(screen[..], x, y)
        == if Covers(shape, x0, y0, x1, y1, (x, y)) then Nibble(colour) else PixelOf(old(screen[..]), x, y)
    ensures forall x, y :: OnScreen(x, y) && Covers(shape, x0, y0, x1, y1, (x, y)) ==>
      var p := PixelOf(screen[..], x, y) as int; p < 16 && (p - colour) % 16 == 0
  {
    NibbleOfColour(colour);
    hide PixelOf, Nibble, LinePoints, BoxPoints, CirclePoints, Painted, Covers;
    match shape
    case PointShape =>
      SetPixel(screen, x0, y0, colour);
      PointIsCovered(x0, y0, x1, y1);
      PaintedIsCovered(old(screen[..]), screen[..], [(x0, y0)], shape, x0, y0, x1, y1, colour);
    case LineShape =>
      DrawLine(screen, x0, y0, x1, y1, colour);
      LineIsCovered(x0, y0, x1, y1);
      PaintedIsCovered(old(screen[..]), screen[..], LinePoints(x0, y0, x1, y1), shape, x0, y0, x1, y1, colour);
    case BoxShape =>
      DrawBox(screen, x0, y0, x1, y1, colour);
      BoxIsCovered(x0, y0, x1, y1);
      PaintedIsCovered(old(screen[..]), screen[..], BoxPoints(x0, y0, x1, y1), shape, x0, y0, x1, y1, colour);
    case RectangleShape =>
      DrawRectangle(screen, x0, y0, x1, y1, colour);
      RectangleIsCovered(x0, y0, x1, y1);
    case CircleShape =>
      var r := Radius(x0, y0, x1, y1);
      DrawCircle(screen, x0, y0, r, colour);
      CircleIsCovered(x0, y0, x1, y1);
      PaintedIsCovered(old(screen[..]), screen[..], CirclePoints(x0, y0, r), shape, x0, y0, x1, y1, colour);
  }

  /** Painting the covered points gives exactly the covered pixels the colour. */
  lemma PaintedIsCovered(before: seq<bv8>, after: seq<bv8>, points: seq<Point>, shape: Shape, x0: int, y0: int, x1: int, y1: int, colour: int)
    requires |before| == |after| == SCREEN_BYTES && Painted(before, after, points, colour)
    requires forall p :: p in points <==> Covers(shape, x0, y0, x1, y1, p)
    ensures forall x, y :: OnScreen(x, y) ==>
      PixelOf(after, x, y) == if Covers(shape, x0, y0, x1, y1, (x, y)) then Nibble(colour) else PixelOf(before, x, y)
  {
    hide PixelOf, Nibble, Covers;
  }

  lemma PointIsCovered(x0: int, y0: int, x1: int, y1: int)
    ensures forall p :: p in [(x0, y0)] <==> Covers(PointShape, x0, y0, x1, y1, p)
  {
  }

  lemma LineIsCovered(x0: int, y0: int, x1: int, y1: int)
    ensures forall p :: p in LinePoints(x0, y0, x1, y1) <==> Covers(LineShape, x0, y0, x1, y1, p)
  {
    hide LinePoint;
    var points := LinePoints(x0, y0, x1, y1);
    forall p | p in points ensures Covers(LineShape, x0, y0, x1, y1, p) {
      var k :| 0 <= k < |points| && points[k] == p;
    }
    forall p | Covers(LineShape, x0, y0, x1, y1, p) ensures p in points {
      var k: nat :| k <= Turns(x0, y0, x1, y1) && p == LinePoint(x0, y0, x1, y1, k);
      assert points[k] == p;
    }
  }

  lemma BoxIsCovered(x0: int, y0: int, x1: int, y1: int)
    ensures forall p :: p in BoxPoints(x0, y0, x1, y1) <==> Covers(BoxShape, x0, y0, x1, y1, p)
  {
    forall p ensures p in BoxPoints(x0, y0, x1, y1) <==> Covers(BoxShape, x0, y0, x1, y1, p) {
      BoxIsPerimeter(x0, y0, x1, y1, p);
    }
  }

  lemma RectangleIsCovered(x0: int, y0: int, x1: int, y1: int)
    ensures forall x, y :: Between(x0, x, x1) && Between(y0, y, y1) <==> Covers(RectangleShape, x0, y0, x1, y1, (x, y))
  {
  }

  lemma CircleIsCovered(x0: int, y0: int, x1: int, y1: int)
    ensures forall p :: p in CirclePoints(x0, y0, Radius(x0, y0, x1, y1)) <==> Covers(CircleShape, x0, y0, x1, y1, p)
  {
    hide Radius, OctantFrom, CirclePoints;
    forall p: Point ensures p in CirclePoints(x0, y0, Radius(x0, y0, x1, y1)) <==> Covers(CircleShape, x0, y0, x1, y1, p) {
      CircleIsSymmetric(x0, y0, Radius(x0, y0, x1, y1), p.0 - x0, p.1 - y0);
      assert (x0 + (p.0 - x0), y0 + (p.1 - y0)) == p;
    }
  }

  /** What the shapes are: a point its pixel, a line the pixels of its box within half a pixel of it, a box its perimeter, a
      rectangle its area, and a circle, with a radius rounded down from the distance of its points, pixels outside the
      circle of the radius less one, in the square of the radius, touching that on all four sides. */
  lemma ShapesAre(x0: int, y0: int, x1: int, y1: int, p: Point)
    ensures Covers(PointShape, x0, y0, x1, y1, p) <==> p.0 == x0 && p.1 == y0
    ensures var a, b := (p.0 - x0) * Sign(x0, x1), (p.1 - y0) * Sign(y0, y1);
      Covers(LineShape, x0, y0, x1, y1, p) <==> NearLine(Abs(x1 - x0), Abs(y1 - y0), a, b)
    ensures Covers(BoxShape, x0, y0, x1, y1, p) <==>
      Covers(RectangleShape, x0, y0, x1, y1, p) && (p.0 == x0 || p.0 == x1 || p.1 == y0 || p.1 == y1)
    ensures Covers(RectangleShape, x0, y0, x1, y1, p) <==> (x0 <= p.0 <= x1 || x1 <= p.0 <= x0) && (y0 <= p.1 <= y1 || y1 <= p.1 <= y0)
    ensures var r := Radius(x0, y0, x1, y1);
      && Covers(CircleShape, x0, y0, x1, y1, (x0 + r, y0)) && Covers(CircleShape, x0, y0, x1, y1, (x0 - r, y0))
      && Covers(CircleShape, x0, y0, x1, y1, (x0, y0 + r)) && Covers(CircleShape, x0, y0, x1, y1, (x0, y0 - r))
      && (Covers(CircleShape, x0, y0, x1, y1, p) ==>
           && Abs(p.0 - x0) <= r && Abs(p.1 - y0) <= r
           && (r > 0 ==> (p.0 - x0) * (p.0 - x0) + (p.1 - y0) * (p.1 - y0) > (r - 1) * (r - 1)))
  {
    LineIsCovered(x0, y0, x1, y1);
    OnLineIff(x0, y0, x1, y1, p);
    CircleIs(x0, y0, x1, y1, p);
    hide LinePoints, LinePoint, OctantFrom, Radius, Abs, Sign, Turns;
  }

  lemma CircleIs(x0: int, y0: int, x1: int, y1: int, p: Point)
    ensures var r := Radius(x0, y0, x1, y1);
      && Covers(CircleShape, x0, y0, x1, y1, (x0 + r, y0)) && Covers(CircleShape, x0, y0, x1, y1, (x0 - r, y0))
      && Covers(CircleShape, x0, y0, x1, y1, (x0, y0 + r)) && Covers(CircleShape, x0, y0, x1, y1, (x0, y0 - r))
      && (Covers(CircleShape, x0, y0, x1, y1, p) ==>
           && Abs(p.0 - x0) <= r && Abs(p.1 - y0) <= r
           && (r > 0 ==> (p.0 - x0) * (p.0 - x0) + (p.1 - y0) * (p.1 - y0) > (r - 1) * (r - 1)))
  {
    hide OctantFrom, Radius, Abs, Max, Min;
    var r := Radius(x0, y0, x1, y1);
    OctantStarts(r);
    assert (r as int, 0) in OctantFrom(r, 0, 0);
    SidesFold(r);
    if Covers(CircleShape, x0, y0, x1, y1, p) {
      CoveredIsNear(x0, y0, x1, y1, p);
    }
  }

  lemma SidesFold(r: nat)
    ensures Abs(r) == r && Abs(0 - r) == r && Abs(0) == 0 && Max(r, 0) == r && Max(0, r) == r && Min(r, 0) == 0 && Min(0, r) == 0
  {
  }

  lemma CoveredIsNear(x0: int, y0: int, x1: int, y1: int, p: Point)
    requires Covers(CircleShape, x0, y0, x1, y1, p)
    ensures var r := Radius(x0, y0, x1, y1);
      && Abs(p.0 - x0) <= r && Abs(p.1 - y0) <= r
      && (r > 0 ==> (p.0 - x0) * (p.0 - x0) + (p.1 - y0) * (p.1 - y0) > (r - 1) * (r - 1))
  {
    hide OctantFrom, Radius, CirclePoints;
    var r := Radius(x0, y0, x1, y1);
    CircleIsSymmetric(x0, y0, r, p.0 - x0, p.1 - y0);
    CircleDistance(r);
    SameSquare(p.0 - x0);
    SameSquare(p.1 - y0);
    hide Abs;
  }

  lemma SameSquare(n: int)
    ensures Abs(n) * Abs(n) == n * n
  {
  }
}
