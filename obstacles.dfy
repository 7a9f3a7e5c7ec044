/** Obstacle gates: spawning paired top/bottom columns as the field scrolls,
    choosing each column's cutoff, despawning columns that have scrolled
    fully off the left edge, and the rows each column is drawn at. */
module Obstacles {
  import opened Text
  import opened Canvas
  import opened Columns

  const TopColumnOverdraw: int := 1
  const BottomColumnOverdraw: int := 2
  const MinColumnMiddleHeight: int := 1
  const SidePadding: int := 10

  /** A column: leftmost world-space offset and filler row count. */
  datatype Column = Column(x: int, middleHeight: nat)

  /** One spawned gate: the top and bottom column pushed together. */
  datatype Gate = Gate(top: Column, bottom: Column)

  /** The random draws of one spawn run: iteration k draws `distance(k)`,
      then (when it spawns) `gap(k)` and `gapY(k)`. */
  datatype Rng = Rng(distance: nat -> int, gap: nat -> int, gapY: nat -> int)

  /** The inclusive ranges `randRange` draws from. */
  ghost predicate RngOk(rng: Rng, usable: int)
  {
    forall k: nat :: 25 <= rng.distance(k) <= 50 && 10 <= rng.gap(k) <= 20 && 0 <= rng.gapY(k) <= usable - rng.gap(k)
  }

  /** `TOP_COLUMN_BASELINE_HEIGHT` and `BOTTOM_COLUMN_BASELINE_HEIGHT`. */
  function TopBaselineHeight(): (n: int) { |TopColumn(0, 0).value| }
  function BottomBaselineHeight(): (n: int) { |BottomColumn(0, 0).value| }

  /** `usableColumnHeight` for a window `h` rows high. */
  function UsableColumnHeight(h: int): (u: int)
    ensures u == h - 35
  {
    BandsWellFormed();
    BaselineHeights();
    h - |HeaderSpec| + TopColumnOverdraw - |FooterSpec| + BottomColumnOverdraw
      - TopBaselineHeight() - BottomBaselineHeight() - MinColumnMiddleHeight * 2
  }

  /** `usableWidth`: the largest `x` drawn without a right cutoff. */
  function UsableWidth(w: int): (uw: int)
  {
    w - SidePadding * 2 - ColumnWidth
  }

  /** `state.topColumns.at(-1)?.x ?? (size.width - 100)`. */
  function LastX(tops: seq<Column>, w: int): (last: int)
  {
    if |tops| == 0 then w - 100 else tops[|tops| - 1].x
  }

  /** The gates the spawn loop pushes, starting after `lastX` with draw k. */
  function Spawned(lastX: int, k: nat, rng: Rng, w: int, usable: int): (gates: seq<Gate>)
    requires RngOk(rng, usable)
    decreases w - lastX
  {
    var x := lastX + ColumnWidth + rng.distance(k);
    if x > w then []
    else
      var gap, gapY := rng.gap(k), rng.gapY(k);
      [Gate(Column(x, gapY + MinColumnMiddleHeight), Column(x, usable - gapY - gap + MinColumnMiddleHeight))]
        + Spawned(x, k + 1, rng, w, usable)
  }

  function TopsOf(gates: seq<Gate>): (r: seq<Column>)
    ensures |r| == |gates|
  {
    seq(|gates|, i requires 0 <= i < |gates| => gates[i].top)
  }

  function BottomsOf(gates: seq<Gate>): (r: seq<Column>)
    ensures |r| == |gates|
  {
    seq(|gates|, i requires 0 <= i < |gates| => gates[i].bottom)
  }

  /** The cutoff of a column at `x`: its own `x` when off the left edge,
      the overhang past `usableWidth` when off the right edge, else 0. A
      column past `usableWidth` is cut so that its right edge stays one
      cell right of where an uncut column at `usableWidth` ends. */
  function Cutoff(x: int, usableWidth: int): (cutoff: int)
    ensures x < 0 ==> cutoff == x
    ensures 0 <= x <= usableWidth ==> cutoff == 0
    ensures 0 <= x && x > usableWidth ==> x + ColumnWidth - cutoff == usableWidth + ColumnWidth + 1
  {
    if x < 0 then x else if x > usableWidth then x - usableWidth - 1 else 0
  }

  /** The buffer rendered for a column in a window `w` cells wide. */
  function Buffer(kind: Kind, c: Column, w: int): (buf: Grid)
  {
    ColumnBuffer(kind, c.middleHeight, Cutoff(c.x, UsableWidth(w)))
  }

  /** The render loop's despawn test: `x < 0 && buf[0].length === 0`. */
  predicate Despawns(kind: Kind, c: Column, w: int)
  {
    c.x < 0 && |Buffer(kind, c, w)[0]| == 0
  }

  /** A column despawns exactly when it has scrolled 14 or more cells past
      the left edge. */
  lemma DespawnsIff(kind: Kind, c: Column, w: int)
    ensures Despawns(kind, c, w) <==> c.x <= -ColumnWidth
  {
  }

  /** A column survives the render pass. */
  predicate Keeps(c: Column)
  {
    c.x > -ColumnWidth
  }

  /** The list filtered to `x > -14`, in order. */
  function Survivors(cols: seq<Column>): (r: seq<Column>)
    ensures |r| <= |cols|
  {
    if |cols| == 0 then []
    else Survivors(cols[..|cols| - 1]) + (if Keeps(cols[|cols| - 1]) then [cols[|cols| - 1]] else [])
  }

  /** Row a column's buffer is drawn at: `header.length - TOP_COLUMN_OVERDRAW`
      for a top column, `size.height - buf.length - BOTTOM_COLUMN_OVERDRAW`
      for a bottom column. */
  function DrawRow(kind: Kind, c: Column, w: int, h: int): (row: int)
  {
    if kind == Top then |HeaderSpec| - TopColumnOverdraw
    else h - |Buffer(kind, c, w)| - BottomColumnOverdraw
  }

  /** Column a buffer is drawn at: `SIDE_PADDING + Math.max(0, x)`. */
  function DrawColumn(c: Column): (col: int)
  {
    SidePadding + if c.x < 0 then 0 else c.x
  }

  /** The grid after the render loop over `cols` draws every survivor in order. */
  function DrawColumns(kind: Kind, cols: seq<Column>, w: int, h: int, g: Grid): (r: Grid)
    ensures |r| == |g| && forall k :: 0 <= k < |g| ==> |r[k]| == |g[k]|
  {
    if |cols| == 0 then g
    else
      var before := DrawColumns(kind, cols[..|cols| - 1], w, h, g);
      var c := cols[|cols| - 1];
      if Keeps(c) then Blit(Buffer(kind, c, w), DrawColumn(c), DrawRow(kind, c, w, h), before) else before
  }

  /** Rows a column's buffer has (its clipping never changes this). */
  function ColumnHeight(kind: Kind, middleHeight: nat): (rows: int)
  {
    middleHeight + if kind == Top then 11 else 12
  }

  /** Rows between the bottom of a gate's top buffer and the top of its
      bottom buffer. */
  function Opening(t: Column, b: Column, h: int): (gap: int)
  {
    (h - ColumnHeight(Bottom, b.middleHeight) - BottomColumnOverdraw)
      - (9 - TopColumnOverdraw + ColumnHeight(Top, t.middleHeight))
  }

  /** The opening is measured between the rows the two buffers are drawn at. */
  lemma OpeningIsBetweenDrawRows(t: Column, b: Column, w: int, h: int)
    ensures Opening(t, b, h) == DrawRow(Bottom, b, w, h) - (DrawRow(Top, t, w, h) + |Buffer(Top, t, w)|)
  {
    BandsWellFormed();
  }

  /** A gate whose both columns have filler and whose opening is one of the
      gap sizes `randRange(10, 20)` can draw. */
  predicate GateOk(t: Column, b: Column, h: int)
  {
    1 <= t.middleHeight && 1 <= b.middleHeight && 10 <= Opening(t, b, h) <= 20
  }

  /** Equal length and same `x` at every index. */
  predicate Paired(tops: seq<Column>, bottoms: seq<Column>)
  {
    |tops| == |bottoms| && forall i :: 0 <= i < |tops| ==> tops[i].x == bottoms[i].x
  }

  predicate IncreasingX(cols: seq<Column>)
  {
    forall i, j :: 0 <= i < j < |cols| ==> cols[i].x < cols[j].x
  }

  predicate BoundedX(cols: seq<Column>, w: int)
  {
    forall i :: 0 <= i < |cols| ==> cols[i].x <= w
  }

  predicate GatesOk(tops: seq<Column>, bottoms: seq<Column>, h: int)
    requires |tops| == |bottoms|
  {
    forall i :: 0 <= i < |tops| ==> GateOk(tops[i], bottoms[i], h)
  }

  /** The column lists' invariant: equal length, index-paired on `x`, `x`
      strictly increasing and never past the window's right edge, and every
      gate well formed. */
  predicate ColumnsOk(tops: seq<Column>, bottoms: seq<Column>, w: int, h: int)
  {
    Paired(tops, bottoms) && IncreasingX(tops) && BoundedX(tops, w) && GatesOk(tops, bottoms, h)
  }

  /** `for (const column of columns) column.x--`. */
  function Scrolled(cols: seq<Column>): (r: seq<Column>)
    ensures |r| == |cols|
  {
    seq(|cols|, i requires 0 <= i < |cols| => cols[i].(x := cols[i].x - 1))
  }

  /** What the spawn loop promises about gate j: both columns share `x`,
      which is the previous `x` plus 14 plus that iteration's distance and
      never exceeds `w`; each column has filler, and the filler heights add up
      with that iteration's gap to `usable + 2`. */
  lemma {:induction false} SpawnedAt(lastX: int, k: nat, rng: Rng, w: int, usable: int, j: int)
    requires RngOk(rng, usable)
    requires 0 <= j < |Spawned(lastX, k, rng, w, usable)|
    ensures var gates := Spawned(lastX, k, rng, w, usable);
      var g := gates[j];
      && g.top.x == g.bottom.x
      && g.top.x == (if j == 0 then lastX else gates[j - 1].top.x) + ColumnWidth + rng.distance(k + j)
      && g.top.x <= w
      && 1 <= g.top.middleHeight && 1 <= g.bottom.middleHeight
      && g.top.middleHeight + g.bottom.middleHeight + rng.gap(k + j) == usable + 2
    decreases j
  {
    var gates := Spawned(lastX, k, rng, w, usable);
    var x := lastX + ColumnWidth + rng.distance(k);
    if j > 0 {
      var rest := Spawned(x, k + 1, rng, w, usable);
      assert gates == gates[..1] + rest;
      SpawnedAt(x, k + 1, rng, w, usable, j - 1);
      assert gates[j] == rest[j - 1];
      assert k + 1 + (j - 1) == k + j;
      if j > 1 {
        assert gates[j - 1] == rest[j - 2];
      }
    }
  }

  /** The spawn loop stops because the next candidate would pass `w`. */
  lemma {:induction false} SpawnedStops(lastX: int, k: nat, rng: Rng, w: int, usable: int)
    requires RngOk(rng, usable)
    ensures var gates := Spawned(lastX, k, rng, w, usable);
      (if |gates| == 0 then lastX else gates[|gates| - 1].top.x) + ColumnWidth + rng.distance(k + |gates|) > w
    decreases w - lastX
  {
    var x := lastX + ColumnWidth + rng.distance(k);
    if x <= w {
      SpawnedStops(x, k + 1, rng, w, usable);
      var gates := Spawned(lastX, k, rng, w, usable);
      var rest := Spawned(x, k + 1, rng, w, usable);
      assert gates == [gates[0]] + rest;
      assert (k + 1) + |rest| == k + |gates|;
    }
  }

  /** Exactly `gap` rows separate a spawned gate's top buffer from its bottom
      buffer, given the rows they are drawn at. */
  lemma SpawnedOpening(lastX: int, k: nat, rng: Rng, w: int, h: int, j: int)
    requires RngOk(rng, UsableColumnHeight(h))
    requires 0 <= j < |Spawned(lastX, k, rng, w, UsableColumnHeight(h))|
    ensures var g := Spawned(lastX, k, rng, w, UsableColumnHeight(h))[j];
      && Opening(g.top, g.bottom, h) == rng.gap(k + j)
      && DrawRow(Bottom, g.bottom, w, h) - (DrawRow(Top, g.top, w, h) + |Buffer(Top, g.top, w)|) == rng.gap(k + j)
  {
    SpawnedAt(lastX, k, rng, w, UsableColumnHeight(h), j);
    var g := Spawned(lastX, k, rng, w, UsableColumnHeight(h))[j];
    OpeningIsBetweenDrawRows(g.top, g.bottom, w, h);
  }

  /** Spawning keeps the column lists' invariant. */
  lemma SpawnKeepsColumnsOk(tops: seq<Column>, bottoms: seq<Column>, rng: Rng, w: int, h: int)
    requires ColumnsOk(tops, bottoms, w, h)
    requires RngOk(rng, UsableColumnHeight(h))
    ensures var gates := Spawned(LastX(tops, w), 0, rng, w, UsableColumnHeight(h));
      ColumnsOk(tops + TopsOf(gates), bottoms + BottomsOf(gates), w, h)
  {
    var usable := UsableColumnHeight(h);
    var last := LastX(tops, w);
    var gates := Spawned(last, 0, rng, w, usable);
    forall j | 0 <= j < |gates|
      ensures gates[j].top.x == gates[j].bottom.x && gates[j].top.x <= w
      ensures GateOk(gates[j].top, gates[j].bottom, h)
      ensures j > 0 ==> gates[j - 1].top.x < gates[j].top.x
      ensures j == 0 ==> last < gates[j].top.x
    {
      SpawnedAt(last, 0, rng, w, usable, j);
      SpawnedOpening(last, 0, rng, w, h, j);
    }
    forall i | 0 <= i < |tops| ensures tops[i].x <= last {
    }
    AppendChain(tops, bottoms, gates, last, w, h);
  }

  /** Appending a chain of well-formed gates, each right of its predecessor
      and the first right of every listed column, keeps the invariant. */
  lemma AppendChain(tops: seq<Column>, bottoms: seq<Column>, gates: seq<Gate>, last: int, w: int, h: int)
    requires ColumnsOk(tops, bottoms, w, h)
    requires forall i :: 0 <= i < |tops| ==> tops[i].x <= last
    requires forall j :: 0 <= j < |gates| ==> gates[j].top.x == gates[j].bottom.x && gates[j].top.x <= w
    requires forall j :: 0 <= j < |gates| ==> GateOk(gates[j].top, gates[j].bottom, h)
    requires forall j :: 0 < j < |gates| ==> gates[j - 1].top.x < gates[j].top.x
    requires |gates| > 0 ==> last < gates[0].top.x
    ensures ColumnsOk(tops + TopsOf(gates), bottoms + BottomsOf(gates), w, h)
  {
    var t, b := tops + TopsOf(gates), bottoms + BottomsOf(gates);
    assert Paired(t, b) by {
      forall i | 0 <= i < |t| ensures t[i].x == b[i].x {
        if i >= |tops| {
          assert t[i] == gates[i - |tops|].top && b[i] == gates[i - |tops|].bottom;
        }
      }
    }
    assert BoundedX(t, w) by {
      forall i | 0 <= i < |t| ensures t[i].x <= w {
        if i >= |tops| {
          assert t[i] == gates[i - |tops|].top;
        }
      }
    }
    assert GatesOk(t, b, h) by {
      forall i | 0 <= i < |t| ensures GateOk(t[i], b[i], h) {
        if i >= |tops| {
          assert t[i] == gates[i - |tops|].top && b[i] == gates[i - |tops|].bottom;
        }
      }
    }
    assert IncreasingX(t) by {
      forall i, j | 0 <= i < j < |t| ensures t[i].x < t[j].x {
        if j < |tops| {
        } else {
          assert t[j] == gates[j - |tops|].top;
          GrowsFrom(gates, last, j - |tops|);
          if i >= |tops| {
            assert t[i] == gates[i - |tops|].top;
            Increasing(gates, i - |tops|, j - |tops|);
          }
        }
      }
    }
  }

  /** Every gate lies above `lastX` when each lies above its predecessor and
      the first one above `lastX`. */
  lemma {:induction false} GrowsFrom(gates: seq<Gate>, lastX: int, j: int)
    requires forall i :: 0 < i < |gates| ==> gates[i - 1].top.x < gates[i].top.x
    requires |gates| > 0 ==> lastX < gates[0].top.x
    requires 0 <= j < |gates|
    ensures lastX < gates[j].top.x
  {
    if j > 0 {
      GrowsFrom(gates, lastX, j - 1);
    }
  }

  /** Consecutive growth gives growth between any two gates. */
  lemma {:induction false} Increasing(gates: seq<Gate>, i: int, j: int)
    requires forall k :: 0 < k < |gates| ==> gates[k - 1].top.x < gates[k].top.x
    requires 0 <= i < j < |gates|
    ensures gates[i].top.x < gates[j].top.x
    decreases j - i
  {
    if i + 1 < j {
      Increasing(gates, i, j - 1);
    }
  }

  /** The surviving columns are exactly those of `cols` with `x > -14`. */
  lemma {:induction false} SurvivorsAre(cols: seq<Column>)
    ensures forall c :: c in Survivors(cols) <==> c in cols && Keeps(c)
    ensures (forall i :: 0 <= i < |cols| ==> Keeps(cols[i])) ==> Survivors(cols) == cols
  {
    if |cols| > 0 {
      SurvivorsAre(cols[..|cols| - 1]);
      assert cols == cols[..|cols| - 1] + [cols[|cols| - 1]];
    }
  }

  /** A prefix of well-formed lists is well formed. */
  lemma ColumnsOkPrefix(tops: seq<Column>, bottoms: seq<Column>, w: int, h: int, n: int)
    requires ColumnsOk(tops, bottoms, w, h) && 0 <= n <= |tops|
    ensures ColumnsOk(tops[..n], bottoms[..n], w, h)
  {
    assert forall i :: 0 <= i < n ==> tops[..n][i] == tops[i] && bottoms[..n][i] == bottoms[i];
  }

  /** Appending one gate above every `x` keeps the lists well formed. */
  lemma ColumnsOkAppend(tops: seq<Column>, bottoms: seq<Column>, t: Column, b: Column, w: int, h: int)
    requires ColumnsOk(tops, bottoms, w, h)
    requires t.x == b.x && t.x <= w && GateOk(t, b, h)
    requires forall i :: 0 <= i < |tops| ==> tops[i].x < t.x
    ensures ColumnsOk(tops + [t], bottoms + [b], w, h)
  {
    var t', b' := tops + [t], bottoms + [b];
    assert forall i :: 0 <= i < |tops| ==> t'[i] == tops[i] && b'[i] == bottoms[i];
    assert IncreasingX(t') by {
      forall i, j | 0 <= i < j < |t'| ensures t'[i].x < t'[j].x {
        if j == |tops| {
          assert t'[j] == t;
        }
      }
    }
  }

  /** Filtering both lists keeps the invariant: pairs share `x`, so a pair is
      kept or dropped as a whole. */
  lemma {:induction false} SurvivorsKeepColumnsOk(tops: seq<Column>, bottoms: seq<Column>, w: int, h: int)
    requires ColumnsOk(tops, bottoms, w, h)
    ensures ColumnsOk(Survivors(tops), Survivors(bottoms), w, h)
  {
    if |tops| > 0 {
      var n := |tops| - 1;
      ColumnsOkPrefix(tops, bottoms, w, h, n);
      SurvivorsKeepColumnsOk(tops[..n], bottoms[..n], w, h);
      assert tops[..n] + [tops[n]] == tops;
      assert Keeps(tops[n]) == Keeps(bottoms[n]);
      if Keeps(tops[n]) {
        KeptLastOk(tops, bottoms, w, h);
      }
    }
  }

  /** The last gate, when kept, lies right of every survivor before it. */
  lemma KeptLastOk(tops: seq<Column>, bottoms: seq<Column>, w: int, h: int)
    requires ColumnsOk(tops, bottoms, w, h) && |tops| > 0
    requires var n := |tops| - 1; ColumnsOk(Survivors(tops[..n]), Survivors(bottoms[..n]), w, h)
    ensures var n := |tops| - 1;
      ColumnsOk(Survivors(tops[..n]) + [tops[n]], Survivors(bottoms[..n]) + [bottoms[n]], w, h)
  {
    var n := |tops| - 1;
    var st, sb := Survivors(tops[..n]), Survivors(bottoms[..n]);
    SurvivorsAre(tops[..n]);
    forall i | 0 <= i < |st| ensures st[i].x < tops[n].x {
      assert st[i] in st;
      var k :| 0 <= k < n && tops[..n][k] == st[i];
    }
    ColumnsOkAppend(st, sb, tops[n], bottoms[n], w, h);
  }

  /** Scrolling moves every column one cell left and keeps the invariant. */
  lemma ScrollKeepsColumnsOk(tops: seq<Column>, bottoms: seq<Column>, w: int, h: int)
    requires ColumnsOk(tops, bottoms, w, h)
    ensures ColumnsOk(Scrolled(tops), Scrolled(bottoms), w, h)
  {
    forall i | 0 <= i < |tops| ensures GateOk(Scrolled(tops)[i], Scrolled(bottoms)[i], h) {
      assert Scrolled(tops)[i].middleHeight == tops[i].middleHeight;
      assert Scrolled(bottoms)[i].middleHeight == bottoms[i].middleHeight;
    }
  }

  /** A column of a well-formed gate is drawn inside the canvas, given the
      right cutoff: every non-empty row lies within the window. */
  lemma ColumnFits(kind: Kind, c: Column, w: int, h: int)
    requires w >= 24 && c.x <= w
    requires kind == Top ==> 19 + c.middleHeight <= h
    requires kind == Bottom ==> 14 + c.middleHeight <= h
    ensures FitsIn(Buffer(kind, c, w), DrawColumn(c), DrawRow(kind, c, w, h), h, w)
  {
    BandsWellFormed();
  }

  /** A well-formed gate's columns are short enough to be drawn. */
  lemma GateHeights(t: Column, b: Column, h: int)
    requires GateOk(t, b, h)
    ensures 19 + t.middleHeight <= h && 14 + b.middleHeight <= h
  {
    BandsWellFormed();
  }

  /** One spawn iteration: the first gate spawned after `tops` sits right
      after its last column, and the rest follow it. */
  lemma SpawnStep(tops: seq<Column>, bottoms: seq<Column>, k: nat, rng: Rng, w: int, usable: int)
    requires RngOk(rng, usable)
    requires LastX(tops, w) + ColumnWidth + rng.distance(k) <= w
    ensures var x := LastX(tops, w) + ColumnWidth + rng.distance(k);
      var t := Column(x, rng.gapY(k) + MinColumnMiddleHeight);
      var b := Column(x, usable - rng.gapY(k) - rng.gap(k) + MinColumnMiddleHeight);
      var rest := Spawned(x, k + 1, rng, w, usable);
      && LastX(tops + [t], w) == x
      && tops + TopsOf(Spawned(LastX(tops, w), k, rng, w, usable)) == (tops + [t]) + TopsOf(rest)
      && bottoms + BottomsOf(Spawned(LastX(tops, w), k, rng, w, usable)) == (bottoms + [b]) + BottomsOf(rest)
  {
    var x := LastX(tops, w) + ColumnWidth + rng.distance(k);
    var t := Column(x, rng.gapY(k) + MinColumnMiddleHeight);
    var b := Column(x, usable - rng.gapY(k) - rng.gap(k) + MinColumnMiddleHeight);
    var rest := Spawned(x, k + 1, rng, w, usable);
    var all := Spawned(LastX(tops, w), k, rng, w, usable);
    assert all == [Gate(t, b)] + rest;
    OfCons(Gate(t, b), rest);
  }

  /** Splitting the first gate off a chain splits its top and its bottom
      column off the two column lists. */
  lemma OfCons(g: Gate, rest: seq<Gate>)
    ensures TopsOf([g] + rest) == [g.top] + TopsOf(rest)
    ensures BottomsOf([g] + rest) == [g.bottom] + BottomsOf(rest)
  {
    var all := [g] + rest;
    assert forall i :: 0 < i < |all| ==> all[i] == rest[i - 1];
  }

  /** One step of a render loop over `cols`: column j is kept and drawn or
      dropped. */
  lemma DrawColumnsStep(kind: Kind, cols: seq<Column>, j: int, w: int, h: int, g: Grid)
    requires 0 <= j < |cols|
    ensures Keeps(cols[j]) ==> Survivors(cols[..j + 1]) == Survivors(cols[..j]) + [cols[j]]
    ensures !Keeps(cols[j]) ==> Survivors(cols[..j + 1]) == Survivors(cols[..j])
    ensures Keeps(cols[j]) ==> (DrawColumns(kind, cols[..j + 1], w, h, g) ==
      Blit(Buffer(kind, cols[j], w), DrawColumn(cols[j]), DrawRow(kind, cols[j], w, h), DrawColumns(kind, cols[..j], w, h, g)))
    ensures !Keeps(cols[j]) ==> DrawColumns(kind, cols[..j + 1], w, h, g) == DrawColumns(kind, cols[..j], w, h, g)
  {
    assert cols[..j + 1][..j] == cols[..j];
    assert cols[..j + 1][j] == cols[j];
  }

  /** The splice of a render loop: with the visited survivors `s` followed
      by the unvisited rest, the loop's index `|s|` points at the first
      unvisited column; splicing it out leaves `s` and the remainder, and
      stepping past it leaves `s` extended by it. */
  lemma Splice(s: seq<Column>, rest: seq<Column>)
    requires |rest| > 0
    ensures var cur := s + rest;
      && cur[|s|] == rest[0]
      && cur[..|s|] + cur[|s| + 1..] == s + rest[1..]
      && cur == (s + [rest[0]]) + rest[1..]
  {
    var cur := s + rest;
    assert cur[..|s|] == s;
    assert cur[|s| + 1..] == rest[1..];
  }

  /** Gate j of well-formed lists can be drawn without writing off the
      canvas. */
  lemma GateFits(tops: seq<Column>, bottoms: seq<Column>, w: int, h: int, j: int)
    requires ColumnsOk(tops, bottoms, w, h) && w >= 24 && 0 <= j < |tops|
    ensures FitsIn(Buffer(Top, tops[j], w), DrawColumn(tops[j]), DrawRow(Top, tops[j], w, h), h, w)
    ensures FitsIn(Buffer(Bottom, bottoms[j], w), DrawColumn(bottoms[j]), DrawRow(Bottom, bottoms[j], w, h), h, w)
  {
    GateHeights(tops[j], bottoms[j], h);
    ColumnFits(Top, tops[j], w, h);
    ColumnFits(Bottom, bottoms[j], w, h);
  }
}
