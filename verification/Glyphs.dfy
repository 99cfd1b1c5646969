/** Nearest-template decoding of the glyphs of a screen dump. */
module Glyphs {

  const GLYPH_W := 6
  const GLYPH_H := 8
  const SCREEN_W := 256

  datatype Glyph = Glyph(ch: char, bmp: seq<nat>)

  /** `_cell`: the bits of a glyph-sized block of the screen, row by row. */
  function Cell(screen: seq<nat>, x0: nat, y0: nat): (r: seq<nat>)
    requires (y0 + GLYPH_H - 1) * SCREEN_W + x0 + GLYPH_W <= |screen|
    ensures |r| == GLYPH_W * GLYPH_H
  {
    seq(GLYPH_W * GLYPH_H, k requires 0 <= k < GLYPH_W * GLYPH_H =>
      BlockInside(x0, y0, k, |screen|);
      if screen[(y0 + k / GLYPH_W) * SCREEN_W + (x0 + k % GLYPH_W)] != 0 then 1 else 0)
  }

  lemma BlockInside(x0: nat, y0: nat, k: nat, size: nat)
    requires (y0 + GLYPH_H - 1) * SCREEN_W + x0 + GLYPH_W <= size && k < GLYPH_W * GLYPH_H
    ensures (y0 + k / GLYPH_W) * SCREEN_W + (x0 + k % GLYPH_W) < size
  {
    assert k / GLYPH_W <= GLYPH_H - 1;
  }

  /** Places where two bit lists agree, as far as the shorter one goes. */
  function Score(a: seq<nat>, b: seq<nat>): nat {
    if a == [] || b == [] then 0 else (if a[0] == b[0] then 1 else 0) + Score(a[1..], b[1..])
  }

  /** Places where two bit lists of one length differ. */
  function Hamming(a: seq<nat>, b: seq<nat>): (h: nat)
    requires |a| == |b|
  {
    if a == [] then 0 else (if a[0] == b[0] then 0 else 1) + Hamming(a[1..], b[1..])
  }

  lemma {:induction false} ScoreIsDistance(a: seq<nat>, b: seq<nat>)
    requires |a| == |b|
    ensures Score(a, b) + Hamming(a, b) == |a|
  {
    if a != [] {
      ScoreIsDistance(a[1..], b[1..]);
    }
  }

  /** Where one list is longer, its rest does not count. */
  lemma {:induction false} RestDoesNotCount(a: seq<nat>, b: seq<nat>)
    requires |a| <= |b|
    ensures Score(a, b) == Score(a, b[..|a|]) && Score(b, a) == Score(b[..|a|], a)
  {
    if a != [] {
      RestDoesNotCount(a[1..], b[1..]);
      assert b[..|a|][1..] == b[1..][..|a| - 1];
    }
  }

  lemma {:induction false} Triangle(a: seq<nat>, b: seq<nat>, c: seq<nat>)
    requires |a| == |b| == |c|
    ensures Hamming(a, c) <= Hamming(a, b) + Hamming(b, c)
  {
    if a != [] {
      Triangle(a[1..], b[1..], c[1..]);
    }
  }

  lemma {:induction false} HammingSymmetric(a: seq<nat>, b: seq<nat>)
    requires |a| == |b|
    ensures Hamming(a, b) == Hamming(b, a)
    ensures Hamming(a, b) == 0 <==> a == b
  {
    if a != [] {
      HammingSymmetric(a[1..], b[1..]);
      assert a == [a[0]] + a[1..] && b == [b[0]] + b[1..];
    }
  }

  /** Glyph i agrees best with the cell, and no glyph before it agrees as well. */
  ghost predicate FirstBest(cell: seq<nat>, font: seq<Glyph>, i: nat)
    requires i < |font|
  {
    && (forall j :: 0 <= j < |font| ==> Score(cell, font[j].bmp) <= Score(cell, font[i].bmp))
    && (forall j :: 0 <= j < i ==> Score(cell, font[j].bmp) < Score(cell, font[i].bmp))
  }

  /** The generator sum of `_match_glyph`. */
  method Agreement(cell: seq<nat>, bmp: seq<nat>) returns (score: nat)
    ensures score == Score(cell, bmp)
  {
    score := 0;
    var k := 0;
    while k < |cell| && k < |bmp|
      invariant k <= |cell| && k <= |bmp|
      invariant score + Score(cell[k..], bmp[k..]) == Score(cell, bmp)
    {
      assert cell[k..][1..] == cell[k + 1..] && bmp[k..][1..] == bmp[k + 1..];
      if cell[k] == bmp[k] {
        score := score + 1;
      }
      k := k + 1;
    }
  }

  /** `_match_glyph`: the first glyph of the font that agrees best, `#` for an empty font. */
  method MatchGlyph(cell: seq<nat>, font: seq<Glyph>) returns (best: char, ghost at: nat)
    ensures font == [] ==> best == '#'
    ensures font != [] ==> at < |font| && FirstBest(cell, font, at) && best == font[at].ch
    ensures forall j :: 0 <= j < at < |font| ==> Score(cell, font[j].bmp) < Score(cell, font[at].bmp)
    ensures forall j :: 0 <= at < j < |font| ==> Score(cell, font[j].bmp) <= Score(cell, font[at].bmp)
  {
    var bestScore: int := -1;
    best, at := '#', 0;
    for k := 0 to |font|
      invariant if k == 0 then bestScore == -1 && best == '#'
                else at < k && best == font[at].ch && bestScore == Score(cell, font[at].bmp)
      invariant forall j :: 0 <= j < k ==> Score(cell, font[j].bmp) <= bestScore
      invariant k > 0 ==> forall j :: 0 <= j < at ==> Score(cell, font[j].bmp) < bestScore
    {
      var score := Agreement(cell, font[k].bmp);
      if score > bestScore {
        best, bestScore, at := font[k].ch, score, k;
      }
    }
  }

  /** Bitmaps of one size, any two of them at least d apart. */
  predicate Separated(font: seq<Glyph>, size: nat, d: nat) {
    && (forall j :: 0 <= j < |font| ==> |font[j].bmp| == size)
    && (forall i, j :: 0 <= i < j < |font| ==> Hamming(font[i].bmp, font[j].bmp) >= d)
  }

  /** A cell with fewer than d/2 flipped pixels is decoded to its glyph, wherever that stands in the font. */
  lemma FlippedCellIsDecoded(cell: seq<nat>, font: seq<Glyph>, d: nat, g: nat, at: nat)
    requires g < |font| && at < |font| && Separated(font, |cell|, d)
    requires 2 * Hamming(cell, font[g].bmp) < d
    requires FirstBest(cell, font, at)
    ensures at == g
  {
    hide Hamming, Score;
    if at != g {
      var a, b := font[g].bmp, font[at].bmp;
      HammingSymmetric(a, b);
      HammingSymmetric(a, cell);
      Triangle(a, cell, b);
      ScoreIsDistance(cell, a);
      ScoreIsDistance(cell, b);
    }
  }

  /** Decoding a noisy cell with the loop. */
  method DecodeCell(cell: seq<nat>, font: seq<Glyph>, ghost d: nat, ghost g: nat) returns (ch: char)
    requires g < |font| && Separated(font, |cell|, d) && 2 * Hamming(cell, font[g].bmp) < d
    ensures ch == font[g].ch
  {
    ghost var at;
    ch, at := MatchGlyph(cell, font);
    FlippedCellIsDecoded(cell, font, d, g, at);
  }

  /** Pixel (x, y) of the block is lit exactly if the bitmap has it. */
  predicate PixelShows(screen: seq<nat>, x0: nat, y0: nat, bmp: seq<nat>, x: nat, y: nat)
    requires |bmp| == GLYPH_W * GLYPH_H && x < GLYPH_W && y < GLYPH_H
  {
    var at := (y0 + y) * 256 + x0 + x;
    at < |screen| && bmp[y * 6 + x] == if screen[at] != 0 then 1 else 0
  }

  /** A block of the screen that shows a 0/1 bitmap is read as that bitmap, whatever the lit pixels' brightness. */
  lemma CellReadsBitmap(screen: seq<nat>, x0: nat, y0: nat, bmp: seq<nat>)
    requires (y0 + GLYPH_H - 1) * SCREEN_W + x0 + GLYPH_W <= |screen| && |bmp| == GLYPH_W * GLYPH_H
    ensures Cell(screen, x0, y0) == bmp
       <==> forall x, y :: 0 <= x < GLYPH_W && 0 <= y < GLYPH_H ==> PixelShows(screen, x0, y0, bmp, x, y)
  {
    hide PixelShows, Cell;
    if Cell(screen, x0, y0) == bmp {
      forall x, y | 0 <= x < GLYPH_W && 0 <= y < GLYPH_H ensures PixelShows(screen, x0, y0, bmp, x, y) {
        CellAt(screen, x0, y0, bmp, x, y);
      }
    }
    if forall x, y :: 0 <= x < GLYPH_W && 0 <= y < GLYPH_H ==> PixelShows(screen, x0, y0, bmp, x, y) {
      forall k | 0 <= k < |bmp| ensures Cell(screen, x0, y0)[k] == bmp[k] {
        PlaceOf(k);
        assert PixelShows(screen, x0, y0, bmp, k % GLYPH_W, k / GLYPH_W);
        CellAt(screen, x0, y0, bmp, k % GLYPH_W, k / GLYPH_W);
      }
    }
  }

  lemma PlaceOf(k: nat)
    requires k < GLYPH_W * GLYPH_H
    ensures k % GLYPH_W < GLYPH_W && k / GLYPH_W < GLYPH_H && k / GLYPH_W * GLYPH_W + k % GLYPH_W == k
  {
  }

  lemma CellAt(screen: seq<nat>, x0: nat, y0: nat, bmp: seq<nat>, x: nat, y: nat)
    requires (y0 + GLYPH_H - 1) * SCREEN_W + x0 + GLYPH_W <= |screen| && |bmp| == GLYPH_W * GLYPH_H
    requires x < GLYPH_W && y < GLYPH_H
    ensures Cell(screen, x0, y0)[y * GLYPH_W + x] == bmp[y * GLYPH_W + x] <==> PixelShows(screen, x0, y0, bmp, x, y)
  {
    var k := y * GLYPH_W + x;
    assert k % GLYPH_W == x && k / GLYPH_W == y;
    BlockInside(x0, y0, k, |screen|);
  }
}
