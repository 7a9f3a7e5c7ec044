/** The game's single state object and the procedures that update it in
    place: spawning, the two column render loops with their despawn splice,
    the clamp-and-collision loop, `render`, `tick` and `onActivate`. Each is
    proved to leave exactly the world the matching function of module Game
    computes from the old one. */
module Loop {
  import opened Wrappers
  import opened Text
  import opened Canvas
  import opened Columns
  import opened Obstacles
  import opened Body
  import opened Game

  /** The spawn loop: push gate after gate, each `distance` cells after the
      last column (or after `w - 100` when there is none), until the next
      one would start past the right edge `w`. */
  method SpawnGates(tops0: seq<Column>, bottoms0: seq<Column>, rng: Rng, w: int, usable: int)
      returns (tops: seq<Column>, bottoms: seq<Column>)
    requires RngOk(rng, usable)
    ensures var gates := Spawned(LastX(tops0, w), 0, rng, w, usable);
      tops == tops0 + TopsOf(gates) && bottoms == bottoms0 + BottomsOf(gates)
  {
    ghost var all := Spawned(LastX(tops0, w), 0, rng, w, usable);
    tops, bottoms := tops0, bottoms0;
    var k: nat := 0;
    while true
      invariant tops0 + TopsOf(all) == tops + TopsOf(Spawned(LastX(tops, w), k, rng, w, usable))
      invariant bottoms0 + BottomsOf(all) == bottoms + BottomsOf(Spawned(LastX(tops, w), k, rng, w, usable))
      decreases w - LastX(tops, w)
    {
      var distance := rng.distance(k);
      var lastColumnX := if |tops| == 0 then w - 100 else tops[|tops| - 1].x;
      if lastColumnX + ColumnWidth + distance > w {
        assert Spawned(lastColumnX, k, rng, w, usable) == [];
        break;
      }
      var gap := rng.gap(k);
      var gapY := rng.gapY(k);
      var x := lastColumnX + ColumnWidth + distance;
      SpawnStep(tops, bottoms, k, rng, w, usable);
      tops := tops + [Column(x, gapY + MinColumnMiddleHeight)];
      bottoms := bottoms + [Column(x, usable - gapY - gap + MinColumnMiddleHeight)];
      k := k + 1;
      assert LastX(tops, w) == x;
    }
  }

  /** Every column of `cols` can be drawn as `kind` without writing off an
      `h`-by-`w` canvas. */
  ghost predicate Drawable(kind: Kind, cols: seq<Column>, w: int, h: int)
  {
    forall j :: 0 <= j < |cols| ==> FitsIn(Buffer(kind, cols[j], w), DrawColumn(cols[j]), DrawRow(kind, cols[j], w, h), h, w)
  }

  /** Well-formed lists are drawable. */
  lemma GatesDrawable(tops: seq<Column>, bottoms: seq<Column>, w: int, h: int)
    requires ColumnsOk(tops, bottoms, w, h) && w >= 24
    ensures Drawable(Top, tops, w, h) && Drawable(Bottom, bottoms, w, h)
  {
    forall j | 0 <= j < |tops|
      ensures FitsIn(Buffer(Top, tops[j], w), DrawColumn(tops[j]), DrawRow(Top, tops[j], w, h), h, w)
      ensures FitsIn(Buffer(Bottom, bottoms[j], w), DrawColumn(bottoms[j]), DrawRow(Bottom, bottoms[j], w, h), h, w)
    {
      GateFits(tops, bottoms, w, h, j);
    }
  }

  /** The body of a render loop for one column: build its buffer, clipped
      at the edges, and draw it unless the despawn test holds. */
  method RenderColumn(kind: Kind, c: Column, canvas: array2<char>, w: int, h: int) returns (despawn: bool)
    requires canvas.Length0 == h && canvas.Length1 == w
    requires FitsIn(Buffer(kind, c, w), DrawColumn(c), DrawRow(kind, c, w, h), h, w)
    modifies canvas
    ensures despawn == !Keeps(c)
    ensures Cells(canvas) == if despawn then old(Cells(canvas))
      else Blit(Buffer(kind, c, w), DrawColumn(c), DrawRow(kind, c, w, h), old(Cells(canvas)))
  {
    var usableWidth := w - SidePadding * 2 - ColumnWidth;
    var buf := if kind == Top then TopColumn(c.middleHeight, Cutoff(c.x, usableWidth)).value
      else BottomColumn(c.middleHeight, Cutoff(c.x, usableWidth)).value;
    assert buf == Buffer(kind, c, w);
    DespawnsIff(kind, c, w);
    despawn := c.x < 0 && |buf[0]| == 0;
    if !despawn {
      Draw(buf, DrawColumn(c), DrawRow(kind, c, w, h), canvas);
    }
  }

  /** A render loop over one column list: walk it with an index, splicing
      out each column that despawns and drawing every other one; the list
      that is left is returned. */
  method RenderColumns(kind: Kind, cols: seq<Column>, canvas: array2<char>, w: int, h: int) returns (kept: seq<Column>)
    requires canvas.Length0 == h && canvas.Length1 == w && Drawable(kind, cols, w, h)
    modifies canvas
    ensures kept == Survivors(cols)
    ensures Cells(canvas) == DrawColumns(kind, cols, w, h, old(Cells(canvas)))
  {
    ghost var g0 := Cells(canvas);
    kept := cols;
    var i := 0;
    ghost var j := 0;
    while i < |kept|
      invariant 0 <= j <= |cols|
      invariant kept == Survivors(cols[..j]) + cols[j..]
      invariant i == |Survivors(cols[..j])|
      invariant Cells(canvas) == DrawColumns(kind, cols[..j], w, h, g0)
      decreases |cols| - j
    {
      assert cols[j..][0] == cols[j] && cols[j..][1..] == cols[j + 1..];
      Splice(Survivors(cols[..j]), cols[j..]);
      assert kept[i] == cols[j];
      DrawColumnsStep(kind, cols, j, w, h, g0);
      var despawn := RenderColumn(kind, kept[i], canvas, w, h);
      if despawn {
        kept := kept[..i] + kept[i + 1..];
      } else {
        assert |Survivors(cols[..j + 1])| == i + 1;
        i := i + 1;
      }
      j := j + 1;
    }
    assert j == |cols| by {
      assert |kept| == i + |cols[j..]|;
    }
    assert cols[..j] == cols && cols[j..] == [];
  }

  /** One iteration of the collision loop, for segment i: clamp it into
      [top, bottom] (zeroing the velocity when the head is clamped), sample
      the canvas where it was before the clamp, and stop on a row off the
      canvas (where the source throws, `Fault`) or on a hit while playing
      (`Collided`); otherwise draw its glyph there and go on (`Finished`). */
  method CheckSegment(i: int, ys: array<real>, vy: real, over: Option<int>, canvas: array2<char>, now: int, top: int, bottom: int)
      returns (velocity: real, outcome: PassOutcome)
    requires 0 <= i < ys.Length == SegmentCount && Sampleable(Cells(canvas))
    modifies ys, canvas
    ensures var p := PassFrom(i, old(ys[..]), vy, over, old(Cells(canvas)), now, top, bottom);
      && Sampleable(Cells(canvas))
      && (outcome == Finished ==> p == PassFrom(i + 1, ys[..], velocity, over, Cells(canvas), now, top, bottom))
      && (outcome != Finished ==> p == Pass(ys[..], velocity, if outcome == Collided then Some(now) else over, Cells(canvas), outcome, i))
  {
    ghost var ys0, g := ys[..], Cells(canvas);
    PassStep(i, ys0, vy, over, g, now, top, bottom);
    velocity := vy;
    var roundY := Round(ys[i]);
    var x := 32 - i;
    if ys[i] <= top as real {
      ys[i] := top as real;
      if i == 0 { velocity := 0.0; }
    } else if ys[i] >= bottom as real {
      ys[i] := bottom as real;
      if i == 0 { velocity := 0.0; }
    }
    assert ys[..] == Settle(ys0, i, top, bottom);
    if roundY < 0 || roundY >= canvas.Length0 {
      return velocity, Fault;
    }
    var glyph := canvas[roundY, x];
    var isColliding := (glyph != ' ' && roundY > top && roundY < bottom) || glyph == '|';
    assert glyph == g[roundY][SegmentX(i)];
    if over.None? && isColliding {
      return velocity, Collided;
    }
    ghost var ys1 := ys[..];
    Draw([[SegmentText[|SegmentText| - i - 1]]], x, roundY, canvas);
    BlitGlyph(SegmentGlyph(i), SegmentX(i), roundY, g);
    assert ys[..] == ys1;
    outcome := Finished;
  }

  /** The collision loop over every segment, stopping early on a fault or
      a collision. */
  method CheckCollisions(ys: array<real>, vy: real, over: Option<int>, canvas: array2<char>, now: int, top: int, bottom: int)
      returns (velocity: real, outcome: PassOutcome)
    requires ys.Length == SegmentCount && Sampleable(Cells(canvas))
    modifies ys, canvas
    ensures var p := PassFrom(0, old(ys[..]), vy, over, old(Cells(canvas)), now, top, bottom);
      && ys[..] == p.ys && velocity == p.vy && p.gameOverAt == (if outcome == Collided then Some(now) else over)
      && Cells(canvas) == p.grid && outcome == p.outcome
  {
    ghost var pass := PassFrom(0, ys[..], vy, over, Cells(canvas), now, top, bottom);
    velocity := vy;
    outcome := Finished;
    var i := 0;
    while i < ys.Length
      invariant 0 <= i <= SegmentCount && Sampleable(Cells(canvas)) && outcome == Finished
      invariant PassFrom(i, ys[..], velocity, over, Cells(canvas), now, top, bottom) == pass
      decreases SegmentCount - i
    {
      velocity, outcome := CheckSegment(i, ys, velocity, over, canvas, now, top, bottom);
      if outcome != Finished {
        return;
      }
      i := i + 1;
    }
    assert pass == Pass(ys[..], velocity, over, Cells(canvas), Finished, i);
  }

  /** The tension loop, second segment to last: each moves a quarter of the
      way towards its already updated predecessor. */
  method PullTaut(ys: array<real>)
    modifies ys
    ensures ys[..] == Tensioned(old(ys[..]))
  {
    if ys.Length == 0 {
      return;
    }
    ghost var ys0 := ys[..];
    for i := 1 to ys.Length
      invariant ys[..i] == Tensioned(ys0[..i])
      invariant forall k :: i <= k < ys.Length ==> ys[k] == ys0[k]
    {
      ghost var before := ys[..i];
      TensionedSnoc(ys0, i);
      var diff := ys[i - 1] - ys[i];
      ys[i] := ys[i] + diff * Tension;
      assert ys[..i] == before;
      assert ys[..i + 1] == before + [ys[i]];
    }
    assert ys0[..ys.Length] == ys0;
  }

  /** The box's lines, placed where the source's centring puts them, lie
      at the box's corner and inside the canvas. */
  lemma BoxPlacement(w: int, h: int, m: seq<string>)
    requires SizeOk(w, h) && m == GameOverRows()
    ensures |m| > 0
    ensures Round(w as real / 2.0) - Round(|m[0]| as real / 2.0) == BoxX(w)
    ensures Round(h as real / 2.0) - Round(|m| as real / 2.0) == BoxY(h)
    ensures FitsIn(m, BoxX(w), BoxY(h), h, w)
  {
    GameOverWidths();
    BoxFits(w, h);
  }

  /** `fill` the canvas with spaces and draw the header at the top and the
      footer at the bottom. */
  method DrawBackground(w: int, h: int) returns (canvas: array2<char>)
    requires SizeOk(w, h)
    ensures fresh(canvas) && canvas.Length0 == h && canvas.Length1 == w
    ensures Cells(canvas) == Background(w, h)
  {
    canvas := Fill(h, w, ' ');
    BandsWellFormed();
    var header := GenHeaderFooter(HeaderSpec, w);
    assert header.value == HeaderRows(w);
    Draw(header.value, 0, 0, canvas);
    var footer := GenHeaderFooter(FooterSpec, w);
    assert footer.value == FooterRows(w);
    Draw(footer.value, 0, h - |footer.value|, canvas);
  }

  /** The game-over box, centred with `Math.round` on both axes. */
  method DrawGameOver(canvas: array2<char>, w: int, h: int)
    requires SizeOk(w, h) && canvas.Length0 == h && canvas.Length1 == w
    modifies canvas
    ensures Cells(canvas) == Blit(GameOverRows(), BoxX(w), BoxY(h), old(Cells(canvas)))
  {
    ghost var g0, rows, boxX, boxY := Cells(canvas), GameOverRows(), BoxX(w), BoxY(h);
    var gameOver := StringToMatrix(GameOverText());
    GameOverBoxShape();
    var x := Round(w as real / 2.0) - Round(|gameOver[0]| as real / 2.0);
    var y := Round(h as real / 2.0) - Round(|gameOver| as real / 2.0);
    BoxPlacement(w, h, gameOver);
    Draw(gameOver, x, y, canvas);
    assert gameOver == rows && x == boxX && y == boxY;
    assert Cells(canvas) == Blit(rows, boxX, boxY, g0);
  }

  class GameState {
    /** The window size, measured once. */
    const width: int
    const height: int
    var topColumns: seq<Column>
    var bottomColumns: seq<Column>
    var vy: real
    var segmentYs: array<real>
    var gameOverAt: Option<int>

    /** The fields as a world value. */
    function Current(): (wd: World)
      reads this, segmentYs
    {
      World(topColumns, bottomColumns, segmentYs[..], vy, gameOverAt)
    }

    ghost predicate Valid()
      reads this, segmentYs
    {
      SizeOk(width, height) && WorldOk(Current(), width, height)
    }

    /** The state `initialState()` builds when the script loads. */
    constructor (w: int, h: int)
      requires SizeOk(w, h)
      ensures width == w && height == h && Current() == Initial(h) && Valid()
    {
      width, height := w, h;
      topColumns, bottomColumns := [], [];
      vy := 0.0;
      segmentYs := new real[|SegmentText|](_ => Round(h as real / 2.0) as real);
      gameOverAt := None;
      new;
      assert segmentYs[..] == Initial(h).ys;
    }

    /** `Object.assign(state, initialState())`: fresh lists and a fresh
        segment array. */
    method Reset()
      requires SizeOk(width, height)
      modifies this
      ensures Current() == Initial(height) && fresh(segmentYs) && Valid()
    {
      topColumns, bottomColumns := [], [];
      vy := 0.0;
      segmentYs := new real[|SegmentText|](_ => Round(height as real / 2.0) as real);
      gameOverAt := None;
      assert segmentYs[..] == Initial(height).ys;
    }

    /** The spawn step of `render()`, on the state's lists. */
    method Spawn(rng: Rng)
      requires DrawsOk(rng, height)
      modifies this
      ensures var gates := Spawned(LastX(old(topColumns), width), 0, rng, width, UsableColumnHeight(height));
        topColumns == old(topColumns) + TopsOf(gates) && bottomColumns == old(bottomColumns) + BottomsOf(gates)
      ensures segmentYs == old(segmentYs) && vy == old(vy) && gameOverAt == old(gameOverAt)
    {
      topColumns, bottomColumns := SpawnGates(topColumns, bottomColumns, rng, width, UsableColumnHeight(height));
    }

    /** The top column loop: despawn (splice out) each column that has
        scrolled fully off the left edge, draw every other one below the
        header. `bottoms` is the list the top list is paired with. */
    method RenderTopColumns(canvas: array2<char>, ghost bottoms: seq<Column>)
      requires SizeOk(width, height) && ColumnsOk(topColumns, bottoms, width, height)
      requires canvas.Length0 == height && canvas.Length1 == width
      modifies this, canvas
      ensures topColumns == Survivors(old(topColumns))
      ensures Cells(canvas) == DrawColumns(Top, old(topColumns), width, height, old(Cells(canvas)))
      ensures bottomColumns == old(bottomColumns) && segmentYs == old(segmentYs) && vy == old(vy) && gameOverAt == old(gameOverAt)
    {
      GatesDrawable(topColumns, bottoms, width, height);
      topColumns := RenderColumns(Top, topColumns, canvas, width, height);
    }

    /** The bottom column loop, the same over the bottom list, each column
        drawn so its last row sits two rows into the footer. `tops` is the
        list the bottom list is paired with. */
    method RenderBottomColumns(canvas: array2<char>, ghost tops: seq<Column>)
      requires SizeOk(width, height) && ColumnsOk(tops, bottomColumns, width, height)
      requires canvas.Length0 == height && canvas.Length1 == width
      modifies this, canvas
      ensures bottomColumns == Survivors(old(bottomColumns))
      ensures Cells(canvas) == DrawColumns(Bottom, old(bottomColumns), width, height, old(Cells(canvas)))
      ensures topColumns == old(topColumns) && segmentYs == old(segmentYs) && vy == old(vy) && gameOverAt == old(gameOverAt)
    {
      GatesDrawable(tops, bottomColumns, width, height);
      bottomColumns := RenderColumns(Bottom, bottomColumns, canvas, width, height);
    }

    /** The collision pass over the state's segments, recording the time of
        a collision. */
    method CollisionPass(canvas: array2<char>, now: int) returns (outcome: PassOutcome)
      requires SizeOk(width, height) && segmentYs.Length == SegmentCount
      requires canvas.Length0 == height && canvas.Length1 == width
      modifies this, segmentYs, canvas
      ensures var p := PassFrom(0, old(segmentYs[..]), old(vy), old(gameOverAt), old(Cells(canvas)), now, PlayTop(), PlayBottom(height));
        && segmentYs[..] == p.ys && vy == p.vy && gameOverAt == p.gameOverAt && Cells(canvas) == p.grid && outcome == p.outcome
      ensures topColumns == old(topColumns) && bottomColumns == old(bottomColumns) && segmentYs == old(segmentYs)
    {
      var velocity;
      velocity, outcome := CheckCollisions(segmentYs, vy, gameOverAt, canvas, now, |HeaderSpec|, height - |FooterSpec|);
      vy := velocity;
      if outcome == Collided {
        gameOverAt := Some(now);
      }
    }

    /** The spawn step and both column loops of `render()`. */
    method SpawnAndDraw(rng: Rng, canvas: array2<char>)
      requires Valid() && DrawsOk(rng, height)
      requires canvas.Length0 == height && canvas.Length1 == width
      modifies this, canvas
      ensures var gates := Spawned(LastX(old(topColumns), width), 0, rng, width, UsableColumnHeight(height));
        var tops, bottoms := old(topColumns) + TopsOf(gates), old(bottomColumns) + BottomsOf(gates);
        && topColumns == Survivors(tops) && bottomColumns == Survivors(bottoms)
        && Cells(canvas) == DrawColumns(Bottom, bottoms, width, height, DrawColumns(Top, tops, width, height, old(Cells(canvas))))
      ensures segmentYs == old(segmentYs) && vy == old(vy) && gameOverAt == old(gameOverAt)
    {
      ghost var w0 := Current();
      Spawn(rng);
      SpawnKeepsColumnsOk(w0.tops, w0.bottoms, rng, width, height);
      ghost var tops, bottoms := topColumns, bottomColumns;
      RenderTopColumns(canvas, bottoms);
      RenderBottomColumns(canvas, tops);
    }

    /** One `render()` up to its recursive call, on a fresh canvas. */
    method RenderOnce(rng: Rng, now: int) returns (outcome: PassOutcome, canvas: array2<char>)
      requires Valid() && DrawsOk(rng, height)
      modifies this, segmentYs
      ensures var f := Game.RenderOnce(old(Current()), rng, now, width, height);
        Current() == f.world && Cells(canvas) == f.grid && outcome == f.outcome
      ensures fresh(canvas) && segmentYs == old(segmentYs) && Valid()
    {
      ghost var w0 := Current();
      canvas := DrawBackground(width, height);
      SpawnAndDraw(rng, canvas);
      ghost var gates := Spawned(LastX(w0.tops, width), 0, rng, width, UsableColumnHeight(height));
      ghost var tops, bottoms := w0.tops + TopsOf(gates), w0.bottoms + BottomsOf(gates);
      assert Cells(canvas) == Scene(tops, bottoms, width, height);
      SpawnKeepsColumnsOk(w0.tops, w0.bottoms, rng, width, height);
      SurvivorsKeepColumnsOk(tops, bottoms, width, height);
      outcome := CollisionPass(canvas, now);
      if outcome == Finished && gameOverAt.Some? {
        DrawGameOver(canvas, width, height);
      }
    }

    /** `render()`: a pass that collides renders again, and the frame text
        is written only when a pass gets through. */
    method Render(rng: Rng, rerun: Rng, now: int) returns (outcome: PassOutcome, shown: Option<string>)
      requires Valid() && DrawsOk(rng, height) && DrawsOk(rerun, height)
      modifies this, segmentYs
      ensures var f := Game.Render(old(Current()), rng, rerun, now, width, height);
        Current() == f.world && outcome == f.outcome
        && shown == if f.outcome == Finished then Some(Serialise(f.grid)) else None
      ensures segmentYs == old(segmentYs) && Valid()
    {
      var canvas;
      outcome, canvas := RenderOnce(rng, now);
      if outcome == Collided {
        outcome, canvas := RenderOnce(rerun, now);
      }
      shown := if outcome == Finished then Some(Serialise(Cells(canvas))) else None;
    }

    /** `for (const column of ...) column.x--` over both lists. */
    method Scroll()
      modifies this
      ensures topColumns == Scrolled(old(topColumns)) && bottomColumns == Scrolled(old(bottomColumns))
      ensures segmentYs == old(segmentYs) && vy == old(vy) && gameOverAt == old(gameOverAt)
    {
      ghost var t0, b0 := topColumns, bottomColumns;
      for i := 0 to |topColumns|
        invariant |topColumns| == |t0| && bottomColumns == b0
        invariant forall k :: 0 <= k < |t0| ==> topColumns[k] == if k < i then t0[k].(x := t0[k].x - 1) else t0[k]
        invariant segmentYs == old(segmentYs) && vy == old(vy) && gameOverAt == old(gameOverAt)
      {
        topColumns := topColumns[i := topColumns[i].(x := topColumns[i].x - 1)];
      }
      for i := 0 to |bottomColumns|
        invariant |bottomColumns| == |b0| && topColumns == Scrolled(t0)
        invariant forall k :: 0 <= k < |b0| ==> bottomColumns[k] == if k < i then b0[k].(x := b0[k].x - 1) else b0[k]
        invariant segmentYs == old(segmentYs) && vy == old(vy) && gameOverAt == old(gameOverAt)
      {
        bottomColumns := bottomColumns[i := bottomColumns[i].(x := bottomColumns[i].x - 1)];
      }
    }

    /** The delay line, gravity and the head's move: every trailing segment
        takes its predecessor's old height, the velocity grows by gravity and
        the head moves by the new velocity. */
    method Advance()
      requires segmentYs.Length == SegmentCount
      modifies this, segmentYs
      ensures segmentYs[..] == Advanced(old(segmentYs[..]), old(vy)) && vy == old(vy) + Gravity
      ensures topColumns == old(topColumns) && bottomColumns == old(bottomColumns)
      ensures segmentYs == old(segmentYs) && gameOverAt == old(gameOverAt)
    {
      var oldYs := segmentYs[..];
      for i := 1 to segmentYs.Length
        modifies segmentYs
        invariant segmentYs[0] == oldYs[0]
        invariant forall k :: 1 <= k < i ==> segmentYs[k] == oldYs[k - 1]
        invariant forall k :: i <= k < SegmentCount ==> segmentYs[k] == oldYs[k]
      {
        segmentYs[i] := oldYs[i - 1];
      }
      vy := vy + Gravity;
      segmentYs[0] := segmentYs[0] + vy;
      assert segmentYs[..] == Advanced(oldYs, old(vy));
    }

    /** The tension loop over the state's segments. */
    method ApplyTension()
      requires segmentYs.Length == SegmentCount
      modifies segmentYs
      ensures segmentYs[..] == Tensioned(old(segmentYs[..]))
    {
      PullTaut(segmentYs);
    }

    /** The part of `tick()` before its first render: scroll every column,
        then move the body. */
    method Move()
      requires Valid()
      modifies this, segmentYs
      ensures Current() == Moved(old(Current()), width, height)
      ensures segmentYs == old(segmentYs) && Valid()
    {
      ScrollKeepsColumnsOk(topColumns, bottomColumns, width, height);
      Scroll();
      Advance();
    }

    /** `tick()`. */
    method Tick(d: TickDraws, now: int) returns (result: TickOutcome)
      requires Valid() && TickDrawsOk(d, height)
      modifies this, segmentYs
      ensures var s := Game.Tick(old(Current()), d, now, width, height);
        Current() == s.world && result == s.outcome
      ensures segmentYs == old(segmentYs) && Valid()
    {
      if gameOverAt.Some? {
        return Frozen;
      }
      Move();
      ghost var m := Current();
      ghost var f1 := Game.Render(m, d.first, d.firstRerun, now, width, height);
      var outcome, shown := Render(d.first, d.firstRerun, now);
      if outcome == Fault {
        return Aborted;
      }
      ApplyTension();
      ghost var t := Current();
      assert t == f1.world.(ys := Tensioned(f1.world.ys));
      ghost var f2 := Game.Render(t, d.second, d.secondRerun, now, width, height);
      outcome, shown := Render(d.second, d.secondRerun, now);
      if outcome == Fault {
        return Aborted;
      }
      RerunNeverCollides(t, d.second, d.secondRerun, now, width, height);
      return Displayed(shown.value);
    }

    /** `onActivate()` at time `now`. */
    method OnActivate(now: int, rng: Rng, rerun: Rng) returns (press: Press)
      requires Valid() && DrawsOk(rng, height) && DrawsOk(rerun, height)
      modifies this, segmentYs
      ensures var a := Game.Activate(old(Current()), now, rng, rerun, width, height);
        Current() == a.world && press == a.press
      ensures (segmentYs == old(segmentYs) || fresh(segmentYs)) && Valid()
    {
      if gameOverAt.Some? {
        if now - gameOverAt.value < 1000 {
          return Ignored;
        }
        Reset();
        var outcome, shown := Render(rng, rerun, now);
        return Restarted(shown);
      } else {
        vy := JumpVelocity;
        return Jumped;
      }
    }
  }
}
