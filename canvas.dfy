/** The frame canvas: a height-by-width grid of glyphs, filled with one glyph
    (`fill`) and overwritten by unclipped blits (`draw`). */
module Canvas {

  /** A glyph matrix, row by row. */
  type Grid = seq<seq<char>>

  /** `g` has `h` rows of `w` glyphs each. */
  predicate IsGrid(g: Grid, h: int, w: int)
  {
    |g| == h && forall r :: 0 <= r < |g| ==> |g[r]| == w
  }

  /** The grid `fill({ width: w, height: h }, ch)` builds. */
  function Filled(h: nat, w: nat, ch: char): (g: Grid)
  {
    seq(h, r => seq(w, c => ch))
  }

  /** `row` with `src` written over it from column `x` on. */
  function BlitRow(src: seq<char>, x: int, row: seq<char>): (r: seq<char>)
    ensures |r| == |row|
  {
    seq(|row|, c requires 0 <= c < |row| => if x <= c < x + |src| then src[c - x] else row[c])
  }

  /** `g` with `buf` written over it, row `dy` of `buf` at row `y + dy` and
      column `x`: the grid `draw(buf, { x, y }, canvas)` leaves. */
  function Blit(buf: Grid, x: int, y: int, g: Grid): (r: Grid)
    ensures |r| == |g| && forall k :: 0 <= k < |g| ==> |r[k]| == |g[k]|
  {
    seq(|g|, k requires 0 <= k < |g| => if y <= k < y + |buf| then BlitRow(buf[k - y], x, g[k]) else g[k])
  }

  /** Every cell `draw` writes lies inside an `h`-by-`w` canvas. */
  predicate FitsIn(buf: Grid, x: int, y: int, h: int, w: int)
  {
    forall dy :: 0 <= dy < |buf| && |buf[dy]| > 0 ==>
      0 <= y + dy < h && 0 <= x && x + |buf[dy]| <= w
  }

  /** A blit changes exactly the covered cells: those take the buffer's glyph,
      all others keep theirs. */
  lemma BlitAt(buf: Grid, x: int, y: int, g: Grid, r: int, c: int)
    requires 0 <= r < |g| && 0 <= c < |g[r]|
    ensures Blit(buf, x, y, g)[r][c] ==
      if y <= r < y + |buf| && x <= c < x + |buf[r - y]| then buf[r - y][c - x] else g[r][c]
  {
  }

  /** Blitting a single glyph sets one cell. */
  lemma BlitGlyph(ch: char, x: int, y: int, g: Grid)
    requires 0 <= y < |g| && 0 <= x < |g[y]|
    ensures Blit([[ch]], x, y, g) == g[y := g[y][x := ch]]
  {
    var r := Blit([[ch]], x, y, g);
    forall k | 0 <= k < |g| ensures r[k] == g[y := g[y][x := ch]][k] {
      if k == y {
        assert r[k] == BlitRow([ch], x, g[k]);
      }
    }
  }

  /** The contents of a canvas as a grid. */
  function Cells(a: array2<char>): (g: Grid)
    reads a
    ensures IsGrid(g, a.Length0, a.Length1)
  {
    seq(a.Length0, r requires 0 <= r < a.Length0 reads a =>
      seq(a.Length1, c requires 0 <= c < a.Length1 reads a => a[r, c]))
  }

  /** A canvas whose every cell agrees with `g` holds `g`. */
  lemma CellsAre(a: array2<char>, g: Grid)
    requires IsGrid(g, a.Length0, a.Length1)
    requires forall r, c :: 0 <= r < a.Length0 && 0 <= c < a.Length1 ==> a[r, c] == g[r][c]
    ensures Cells(a) == g
  {
    var cells := Cells(a);
    forall r | 0 <= r < a.Length0 ensures cells[r] == g[r] {
      assert |cells[r]| == |g[r]|;
      forall c | 0 <= c < a.Length1 ensures cells[r][c] == g[r][c] {
      }
    }
  }

  /** `fill`: a fresh canvas, one row at a time, every cell `ch`. */
  method Fill(h: nat, w: nat, ch: char) returns (canvas: array2<char>)
    ensures fresh(canvas) && canvas.Length0 == h && canvas.Length1 == w
    ensures Cells(canvas) == Filled(h, w, ch)
  {
    canvas := new char[h, w];
    for r := 0 to h
      invariant forall i, j :: 0 <= i < r && 0 <= j < w ==> canvas[i, j] == ch
    {
      for c := 0 to w
        invariant forall i, j :: 0 <= i < r && 0 <= j < w ==> canvas[i, j] == ch
        invariant forall j :: 0 <= j < c ==> canvas[r, j] == ch
      {
        canvas[r, c] := ch;
      }
    }
    CellsAre(canvas, Filled(h, w, ch));
  }

  /** One row of `draw`: copies `src` into row `r` from column `x` on. */
  method DrawLine(src: seq<char>, x: int, r: int, canvas: array2<char>)
    requires |src| > 0 ==> 0 <= r < canvas.Length0 && 0 <= x && x + |src| <= canvas.Length1
    modifies canvas
    ensures forall i, j :: 0 <= i < canvas.Length0 && 0 <= j < canvas.Length1 ==>
      canvas[i, j] == if i == r && x <= j < x + |src| then src[j - x] else old(canvas[i, j])
  {
    for dx := 0 to |src|
      invariant forall i, j :: 0 <= i < canvas.Length0 && 0 <= j < canvas.Length1 ==>
        canvas[i, j] == if i == r && x <= j < x + dx then src[j - x] else old(canvas[i, j])
    {
      canvas[r, x + dx] := src[dx];
    }
  }

  /** `draw`: copies every cell of `buf` onto the canvas at (`x`, `y`),
      overwriting in place; callers keep every write inside the canvas. */
  method Draw(buf: Grid, x: int, y: int, canvas: array2<char>)
    requires FitsIn(buf, x, y, canvas.Length0, canvas.Length1)
    modifies canvas
    ensures Cells(canvas) == Blit(buf, x, y, old(Cells(canvas)))
  {
    ghost var g0 := Cells(canvas);
    for dy := 0 to |buf|
      invariant forall i, j :: 0 <= i < canvas.Length0 && 0 <= j < canvas.Length1 ==>
        canvas[i, j] == if y <= i < y + dy && x <= j < x + |buf[i - y]| then buf[i - y][j - x] else g0[i][j]
    {
      DrawLine(buf[dy], x, y + dy, canvas);
    }
    ghost var target := Blit(buf, x, y, g0);
    forall i, j | 0 <= i < canvas.Length0 && 0 <= j < canvas.Length1
      ensures canvas[i, j] == target[i][j]
    {
      BlitAt(buf, x, y, g0, i, j);
    }
    CellsAre(canvas, target);
  }
}
