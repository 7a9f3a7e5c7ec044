/** The game loop: the world the loop keeps between frames, one render pass,
    the 60 ms tick and the activate handler, as functions of the world. The
    in-place state object that runs them is in module Loop. */
module Game {
  import opened Wrappers
  import opened Text
  import opened Canvas
  import opened Columns
  import opened Obstacles
  import opened Body

  /** The game state's fields as one value. */
  datatype World = World(tops: seq<Column>, bottoms: seq<Column>, ys: seq<real>, vy: real, gameOverAt: Option<int>)

  /** Windows the model covers: the game-over box fits across, and the
      usable column height (h - 35) is at least the largest gap, 20, so
      every gap `randRange(10, 20)` draws leaves `randRange(0, usable - gap)`
      a non-empty range. */
  predicate SizeOk(w: int, h: int)
  {
    w >= 41 && h >= 55
  }

  /** What the loop keeps true of the world: paired, ordered, drawable
      gates and one height per body segment. */
  predicate WorldOk(wd: World, w: int, h: int)
  {
    ColumnsOk(wd.tops, wd.bottoms, w, h) && |wd.ys| == SegmentCount
  }

  /** Collision pass bounds: the header's height and the footer's top row. */
  function PlayTop(): (top: int)
    ensures top == 9
  {
    BandsWellFormed();
    |HeaderSpec|
  }

  function PlayBottom(h: int): (bottom: int)
    ensures bottom == h - 4
  {
    BandsWellFormed();
    h - |FooterSpec|
  }

  /** Every segment lies between the bands, inclusive. */
  predicate Settled(ys: seq<real>, h: int)
  {
    forall j :: 0 <= j < |ys| ==> PlayTop() as real <= ys[j] <= PlayBottom(h) as real
  }

  /** Rows of `genHeaderFooter(spec, size)` when every fill is non-empty and
      every piece pair fits: one row per piece, each exactly `w` cells. */
  lemma BandRowsShape(spec: seq<Segment>, w: int)
    requires forall k :: 0 <= k < |spec| ==> |spec[k].fill| > 0 && |spec[k].left| + |spec[k].right| <= w
    ensures |BandRows(spec, w)| == |spec|
    ensures forall k :: 0 <= k < |spec| ==> |BandRows(spec, w)[k]| == w
  {
    forall k | 0 <= k < |spec| ensures |BandRows(spec, w)[k]| == w {
      BandRowShape(spec[k], w);
    }
  }

  /** The header and footer of a window `w` cells wide. */
  function HeaderRows(w: int): (rows: seq<string>)
    requires w >= 24
    ensures |rows| == 9 && forall k :: 0 <= k < |rows| ==> |rows[k]| == w
  {
    BandsWellFormed();
    BandRowsShape(HeaderSpec, w);
    BandRows(HeaderSpec, w)
  }

  function FooterRows(w: int): (rows: seq<string>)
    requires w >= 24
    ensures |rows| == 4 && forall k :: 0 <= k < |rows| ==> |rows[k]| == w
  {
    BandsWellFormed();
    BandRowsShape(FooterSpec, w);
    BandRows(FooterSpec, w)
  }

  /** A blank canvas with the header drawn at the top and the footer at the
      bottom. */
  function Background(w: int, h: int): (g: Grid)
    requires SizeOk(w, h)
    ensures IsGrid(g, h, w)
  {
    var footer := FooterRows(w);
    Blit(footer, 0, h - |footer|, Blit(HeaderRows(w), 0, 0, Filled(h, w, ' ')))
  }

  /** `n` copies of one glyph. */
  function Run(n: nat, ch: char): (s: string)
    ensures |s| == n && forall i :: 0 <= i < n ==> s[i] == ch
  {
    seq(n, _ => ch)
  }

  /** A line of the box's frame: four blanks each side of a 33-cell frame
      whose 31 inner cells are `inner`'s. */
  function BoxLine(left: char, inner: string, right: char): (line: string)
  {
    Run(4, ' ') + [left] + inner + [right] + Run(4, ' ')
  }

  /** `text` centred in the frame's 31 inner cells. */
  function Centred(text: string, pad: nat): (centred: string)
  {
    Run(pad, ' ') + text + Run(pad, ' ')
  }

  /** The lines of the game-over box; the last is what `slice(1, -1)` leaves
      of the template's closing indentation. */
  function GameOverRows(): (rows: seq<string>)
  {
    var blank := Run(41, ' ');
    var empty := BoxLine('│', Run(31, ' '), '│');
    [ blank, blank,
      BoxLine('┌', Run(31, '─'), '┐'),
      empty,
      BoxLine('│', Centred("GAME OVER", 11), '│'),
      empty,
      BoxLine('│', Centred("Press SPACE to play again", 3), '│'),
      empty,
      BoxLine('└', Run(31, '─'), '┘'),
      blank, blank,
      Run(3, ' ') ]
  }

  /** The game-over text as the template holds it after `slice(1, -1)`. */
  function GameOverText(): (text: string)
  {
    Serialise(GameOverRows())
  }

  /** `stringToMatrix` gives back the box's lines. */
  lemma GameOverBoxShape()
    ensures StringToMatrix(GameOverText()) == GameOverRows()
  {
    var rows := GameOverRows();
    forall k | 0 <= k < |rows| ensures '\n' !in rows[k] {
      LineClean(k);
    }
    StringToMatrixSerialise(rows);
  }

  /** Twelve lines: eleven of 41 cells and a final one of three. */
  lemma GameOverWidths()
    ensures |GameOverRows()| == 12 && |GameOverRows()[11]| == 3
    ensures forall k :: 0 <= k < 11 ==> |GameOverRows()[k]| == 41
  {
  }

  /** No line of the box holds a line break. */
  lemma LineClean(k: int)
    requires 0 <= k < 12
    ensures '\n' !in GameOverRows()[k]
  {
    var rows := GameOverRows();
    if k == 4 {
      assert '\n' !in "GAME OVER";
    } else if k == 6 {
      assert '\n' !in "Press SPACE to play again";
    }
  }

  /** Where the box is drawn: centred by `Math.round` on both axes. */
  function BoxX(w: int): (x: int)
  {
    Round(w as real / 2.0) - Round(|GameOverRows()[0]| as real / 2.0)
  }

  function BoxY(h: int): (y: int)
  {
    Round(h as real / 2.0) - Round(|GameOverRows()| as real / 2.0)
  }

  /** The box's corner is `ceil(w / 2) - 21`, `ceil(h / 2) - 6`, and the box
      then lies inside every window the model covers. */
  lemma BoxFits(w: int, h: int)
    requires SizeOk(w, h)
    ensures BoxX(w) == (w + 1) / 2 - 21 && BoxY(h) == (h + 1) / 2 - 6
    ensures FitsIn(GameOverRows(), BoxX(w), BoxY(h), h, w)
  {
    GameOverWidths();
    HalfRound(w);
    HalfRound(h);
    HalfRound(41);
    HalfRound(12);
  }

  /** `Math.round(n / 2)` for a whole `n` rounds halves up. */
  lemma HalfRound(n: int)
    requires n >= 0
    ensures Round(n as real / 2.0) == (n + 1) / 2
  {
    var q := (n + 1) / 2;
    if n % 2 == 0 {
      assert n == 2 * q;
      assert n as real / 2.0 + 0.5 == q as real + 0.5;
    } else {
      assert n == 2 * q - 1;
      assert n as real / 2.0 + 0.5 == q as real;
    }
  }

  /** What one `render()` call leaves: the world, the canvas it composed, and
      how its collision pass ended. */
  datatype Frame = Frame(world: World, grid: Grid, outcome: PassOutcome)

  /** The random draws a render needs are in range. */
  ghost predicate DrawsOk(rng: Rng, h: int)
  {
    RngOk(rng, UsableColumnHeight(h))
  }

  /** In every window the model covers the largest gap can be drawn: a
      gap of 20 at offset 0 is in range, so the ranges above exclude no
      draw `randRange` can make. */
  lemma LargestGapDrawable(w: int, h: int)
    requires SizeOk(w, h)
    ensures DrawsOk(Rng(_ => 25, _ => 20, _ => 0), h)
  {
  }

  /** The canvas after the bands and every surviving column are drawn,
      before the collision pass, for already spawned lists. */
  function Scene(tops: seq<Column>, bottoms: seq<Column>, w: int, h: int): (g: Grid)
    requires SizeOk(w, h)
    ensures IsGrid(g, h, w)
  {
    DrawColumns(Bottom, bottoms, w, h, DrawColumns(Top, tops, w, h, Background(w, h)))
  }

  /** One `render()` up to its recursive call: spawn gates up to the right
      edge, draw and despawn the columns, run the collision pass, and draw
      the game-over box when the pass got through with the game over. */
  function RenderOnce(wd: World, rng: Rng, now: int, w: int, h: int): (f: Frame)
    requires SizeOk(w, h) && WorldOk(wd, w, h) && DrawsOk(rng, h)
    ensures WorldOk(f.world, w, h) && IsGrid(f.grid, h, w)
  {
    var gates := Spawned(LastX(wd.tops, w), 0, rng, w, UsableColumnHeight(h));
    var tops, bottoms := wd.tops + TopsOf(gates), wd.bottoms + BottomsOf(gates);
    SpawnKeepsColumnsOk(wd.tops, wd.bottoms, rng, w, h);
    SurvivorsKeepColumnsOk(tops, bottoms, w, h);
    var p := PassFrom(0, wd.ys, wd.vy, wd.gameOverAt, Scene(tops, bottoms, w, h), now, PlayTop(), PlayBottom(h));
    var grid := if p.outcome == Finished && p.gameOverAt.Some? then Blit(GameOverRows(), BoxX(w), BoxY(h), p.grid) else p.grid;
    Frame(World(Survivors(tops), Survivors(bottoms), p.ys, p.vy, p.gameOverAt), grid, p.outcome)
  }

  /** `render()`: a pass that collides renders once more (with its own
      draws) and that second call's result stands. */
  function Render(wd: World, rng: Rng, rerun: Rng, now: int, w: int, h: int): (f: Frame)
    requires SizeOk(w, h) && WorldOk(wd, w, h) && DrawsOk(rng, h) && DrawsOk(rerun, h)
    ensures WorldOk(f.world, w, h) && IsGrid(f.grid, h, w)
  {
    var first := RenderOnce(wd, rng, now, w, h);
    if first.outcome == Collided then RenderOnce(first.world, rerun, now, w, h) else first
  }

  /** The draws of one tick: one set per `render()` call it can make. */
  datatype TickDraws = TickDraws(first: Rng, firstRerun: Rng, second: Rng, secondRerun: Rng)

  ghost predicate TickDrawsOk(d: TickDraws, h: int)
  {
    DrawsOk(d.first, h) && DrawsOk(d.firstRerun, h) && DrawsOk(d.second, h) && DrawsOk(d.secondRerun, h)
  }

  /** How a tick ended: nothing done (game over), thrown out of a render, or
      the frame text the last render wrote. */
  datatype TickOutcome = Frozen | Aborted | Displayed(text: string)

  datatype Step = Step(world: World, outcome: TickOutcome)

  /** The world after the scroll, the delay line and gravity; it keeps the
      invariant. */
  function Moved(wd: World, w: int, h: int): (m: World)
    requires WorldOk(wd, w, h)
    ensures WorldOk(m, w, h)
  {
    ScrollKeepsColumnsOk(wd.tops, wd.bottoms, w, h);
    World(Scrolled(wd.tops), Scrolled(wd.bottoms), Advanced(wd.ys, wd.vy), wd.vy + Gravity, wd.gameOverAt)
  }

  /** The tick's second render, after tension. */
  function Second(f1: Frame, d: TickDraws, now: int, w: int, h: int): (f2: Frame)
    requires SizeOk(w, h) && WorldOk(f1.world, w, h) && TickDrawsOk(d, h)
  {
    Render(f1.world.(ys := Tensioned(f1.world.ys)), d.second, d.secondRerun, now, w, h)
  }

  /** `tick()`: frozen once the game is over; otherwise scroll, move, render
      (which checks collisions), apply tension, render again. An exception
      in a render abandons the rest of the tick. */
  function Tick(wd: World, d: TickDraws, now: int, w: int, h: int): (s: Step)
    requires SizeOk(w, h) && WorldOk(wd, w, h) && TickDrawsOk(d, h)
    ensures WorldOk(s.world, w, h)
  {
    if wd.gameOverAt.Some? then Step(wd, Frozen)
    else
      var f1 := Render(Moved(wd, w, h), d.first, d.firstRerun, now, w, h);
      if f1.outcome == Fault then Step(f1.world, Aborted)
      else
        var f2 := Second(f1, d, now, w, h);
        if f2.outcome == Fault then Step(f2.world, Aborted)
        else Step(f2.world, Displayed(Serialise(f2.grid)))
  }

  /** `initialState()`: no columns, at rest, not over, every segment at
      `Math.round(height / 2)`. */
  function Initial(h: int): (start: World)
  {
    World([], [], seq(SegmentCount, _ => Round(h as real / 2.0) as real), 0.0, None)
  }

  /** What a press did: jumped, ignored (within a second of the game ending),
      or restarted, with the text of the frame the restart rendered when
      that render got through. */
  datatype Press = Jumped | Ignored | Restarted(text: Option<string>)

  datatype Activation = Activation(world: World, press: Press)

  /** `onActivate()` at time `now`. */
  function Activate(wd: World, now: int, rng: Rng, rerun: Rng, w: int, h: int): (a: Activation)
    requires SizeOk(w, h) && WorldOk(wd, w, h) && DrawsOk(rng, h) && DrawsOk(rerun, h)
    ensures WorldOk(a.world, w, h)
  {
    match wd.gameOverAt
    case None => Activation(wd.(vy := JumpVelocity), Jumped)
    case Some(at) =>
      if now - at < 1000 then Activation(wd, Ignored)
      else
        var f := Render(Initial(h), rng, rerun, now, w, h);
        Activation(f.world, Restarted(if f.outcome == Finished then Some(Serialise(f.grid)) else None))
  }

  /** A collision sets `gameOverAt` to the collision time, so the rerun's
      pass cannot collide: a render never ends in a collision, and a render
      whose first pass collided leaves the game over at `now`. */
  lemma RerunNeverCollides(wd: World, rng: Rng, rerun: Rng, now: int, w: int, h: int)
    requires SizeOk(w, h) && WorldOk(wd, w, h) && DrawsOk(rng, h) && DrawsOk(rerun, h)
    ensures Render(wd, rng, rerun, now, w, h).outcome != Collided
    ensures RenderOnce(wd, rng, now, w, h).outcome == Collided ==>
      wd.gameOverAt.None? && Render(wd, rng, rerun, now, w, h).world.gameOverAt == Some(now)
  {
    var first := RenderOnce(wd, rng, now, w, h);
    RenderGameOver(wd, rng, now, w, h);
    if first.outcome == Collided {
      RenderGameOver(first.world, rerun, now, w, h);
    }
  }

  /** One render pass writes `gameOverAt` only on a collision, which needs it
      unset and sets it to `now`. */
  lemma RenderGameOver(wd: World, rng: Rng, now: int, w: int, h: int)
    requires SizeOk(w, h) && WorldOk(wd, w, h) && DrawsOk(rng, h)
    ensures var f := RenderOnce(wd, rng, now, w, h);
      && f.world.gameOverAt == (if f.outcome == Collided then Some(now) else wd.gameOverAt)
      && (f.outcome == Collided ==> wd.gameOverAt.None?)
  {
    var gates := Spawned(LastX(wd.tops, w), 0, rng, w, UsableColumnHeight(h));
    var tops, bottoms := wd.tops + TopsOf(gates), wd.bottoms + BottomsOf(gates);
    PassGameOver(0, wd.ys, wd.vy, wd.gameOverAt, Scene(tops, bottoms, w, h), now, PlayTop(), PlayBottom(h));
  }

  /** A render that gets through leaves every segment between the bands. */
  lemma RenderSettles(wd: World, rng: Rng, now: int, w: int, h: int)
    requires SizeOk(w, h) && WorldOk(wd, w, h) && DrawsOk(rng, h)
    ensures var f := RenderOnce(wd, rng, now, w, h);
      f.outcome == Finished ==> Settled(f.world.ys, h)
  {
    var gates := Spawned(LastX(wd.tops, w), 0, rng, w, UsableColumnHeight(h));
    var tops, bottoms := wd.tops + TopsOf(gates), wd.bottoms + BottomsOf(gates);
    PassFinishedSettles(wd.ys, wd.vy, wd.gameOverAt, Scene(tops, bottoms, w, h), now, PlayTop(), PlayBottom(h));
  }

  /** A render leaves heights that are already between the bands as they are. */
  lemma RenderKeepsSettled(wd: World, rng: Rng, now: int, w: int, h: int)
    requires SizeOk(w, h) && WorldOk(wd, w, h) && DrawsOk(rng, h) && Settled(wd.ys, h)
    ensures RenderOnce(wd, rng, now, w, h).world.ys == wd.ys
  {
    var gates := Spawned(LastX(wd.tops, w), 0, rng, w, UsableColumnHeight(h));
    var tops, bottoms := wd.tops + TopsOf(gates), wd.bottoms + BottomsOf(gates);
    PassKeepsSettled(wd.ys, wd.vy, wd.gameOverAt, Scene(tops, bottoms, w, h), now, PlayTop(), PlayBottom(h));
  }

  /** A render faults only when some segment's sample row is off the canvas:
      with every segment rounding to a row of the window, it gets through
      unless it collides. */
  lemma RenderInside(wd: World, rng: Rng, now: int, w: int, h: int)
    requires SizeOk(w, h) && WorldOk(wd, w, h) && DrawsOk(rng, h)
    requires forall j :: 0 <= j < |wd.ys| ==> 0 <= Round(wd.ys[j]) < h
    ensures RenderOnce(wd, rng, now, w, h).outcome != Fault
  {
    var gates := Spawned(LastX(wd.tops, w), 0, rng, w, UsableColumnHeight(h));
    var tops, bottoms := wd.tops + TopsOf(gates), wd.bottoms + BottomsOf(gates);
    PassStopsOn(0, wd.ys, wd.vy, wd.gameOverAt, Scene(tops, bottoms, w, h), now, PlayTop(), PlayBottom(h));
  }

  /** Once the game is over a tick changes nothing; before that, only a
      collision in one of its renders ends the game, at `now`. */
  lemma TickGameOver(wd: World, d: TickDraws, now: int, w: int, h: int)
    requires SizeOk(w, h) && WorldOk(wd, w, h) && TickDrawsOk(d, h)
    ensures var s := Tick(wd, d, now, w, h);
      && (wd.gameOverAt.Some? ==> s == Step(wd, Frozen))
      && (wd.gameOverAt.None? ==> s.outcome != Frozen && (s.world.gameOverAt.None? || s.world.gameOverAt == Some(now)))
  {
    if wd.gameOverAt.None? {
      var m := Moved(wd, w, h);
      RenderKeepsOrSetsNow(m, d.first, d.firstRerun, now, w, h);
      var f1 := Render(m, d.first, d.firstRerun, now, w, h);
      if f1.outcome != Fault {
        RenderKeepsOrSetsNow(f1.world.(ys := Tensioned(f1.world.ys)), d.second, d.secondRerun, now, w, h);
      }
    }
  }

  /** A render leaves `gameOverAt` as it was or sets it to `now`. */
  lemma RenderKeepsOrSetsNow(wd: World, rng: Rng, rerun: Rng, now: int, w: int, h: int)
    requires SizeOk(w, h) && WorldOk(wd, w, h) && DrawsOk(rng, h) && DrawsOk(rerun, h)
    ensures var g := Render(wd, rng, rerun, now, w, h).world.gameOverAt;
      g == wd.gameOverAt || g == Some(now)
  {
    RerunNeverCollides(wd, rng, rerun, now, w, h);
    var first := RenderOnce(wd, rng, now, w, h);
    RenderGameOver(wd, rng, now, w, h);
    if first.outcome == Collided {
      RenderGameOver(first.world, rerun, now, w, h);
    }
  }

  /** A tick while playing ends with its first render when that throws, and
      otherwise with its second. */
  lemma TickEnds(wd: World, d: TickDraws, now: int, w: int, h: int)
    requires SizeOk(w, h) && WorldOk(wd, w, h) && TickDrawsOk(d, h) && wd.gameOverAt.None?
    ensures var f1 := Render(Moved(wd, w, h), d.first, d.firstRerun, now, w, h);
      Tick(wd, d, now, w, h) ==
        if f1.outcome == Fault then Step(f1.world, Aborted)
        else var f2 := Second(f1, d, now, w, h);
          if f2.outcome == Fault then Step(f2.world, Aborted) else Step(f2.world, Displayed(Serialise(f2.grid)))
  {
  }

  /** A tick that displays a frame leaves every segment between the bands. */
  lemma TickDisplaysSettled(wd: World, d: TickDraws, now: int, w: int, h: int)
    requires SizeOk(w, h) && WorldOk(wd, w, h) && TickDrawsOk(d, h)
    ensures var s := Tick(wd, d, now, w, h);
      s.outcome.Displayed? ==> Settled(s.world.ys, h)
  {
    if wd.gameOverAt.None? {
      TickEnds(wd, d, now, w, h);
      var f1 := Render(Moved(wd, w, h), d.first, d.firstRerun, now, w, h);
      if f1.outcome != Fault {
        var t := f1.world.(ys := Tensioned(f1.world.ys));
        RenderRerunSettles(t, d.second, d.secondRerun, now, w, h);
        RerunNeverCollides(t, d.second, d.secondRerun, now, w, h);
      }
    }
  }

  /** A render that gets through, on its first or its second pass, leaves
      every segment between the bands. */
  lemma RenderRerunSettles(wd: World, rng: Rng, rerun: Rng, now: int, w: int, h: int)
    requires SizeOk(w, h) && WorldOk(wd, w, h) && DrawsOk(rng, h) && DrawsOk(rerun, h)
    ensures var f := Render(wd, rng, rerun, now, w, h);
      f.outcome == Finished ==> Settled(f.world.ys, h)
  {
    var first := RenderOnce(wd, rng, now, w, h);
    RenderSettles(wd, rng, now, w, h);
    if first.outcome == Collided {
      RenderSettles(first.world, rerun, now, w, h);
    }
  }

  /** The start state is valid, settled at mid-height, and every segment
      rounds to that same row. */
  lemma InitialOk(w: int, h: int)
    requires SizeOk(w, h)
    ensures WorldOk(Initial(h), w, h) && Settled(Initial(h).ys, h)
    ensures forall j :: 0 <= j < SegmentCount ==> Initial(h).ys[j] == ((h + 1) / 2) as real && Round(Initial(h).ys[j]) == (h + 1) / 2
  {
    HalfRound(h);
    var y := ((h + 1) / 2) as real;
    forall j | 0 <= j < SegmentCount ensures Round(Initial(h).ys[j]) == (h + 1) / 2 {
      assert Initial(h).ys[j] == y;
      assert (y + 0.5).Floor == (h + 1) / 2;
    }
  }

  /** A press while playing sets the jump velocity and nothing else; a press
      within a second of the game ending does nothing; any later press
      restarts from the start state, and the restart's render always gets
      through to a frame. */
  lemma ActivateCases(wd: World, now: int, rng: Rng, rerun: Rng, w: int, h: int)
    requires SizeOk(w, h) && WorldOk(wd, w, h) && DrawsOk(rng, h) && DrawsOk(rerun, h)
    ensures var a := Activate(wd, now, rng, rerun, w, h);
      && (wd.gameOverAt.None? ==> a.press == Jumped && a.world == wd.(vy := JumpVelocity))
      && (wd.gameOverAt.Some? && now - wd.gameOverAt.value < 1000 ==> a.press == Ignored && a.world == wd)
      && (wd.gameOverAt.Some? && now - wd.gameOverAt.value >= 1000 ==>
        a.press.Restarted? && a.press.text.Some? && a.world == Render(Initial(h), rng, rerun, now, w, h).world)
  {
    if wd.gameOverAt.Some? && now - wd.gameOverAt.value >= 1000 {
      InitialOk(w, h);
      RestartGetsThrough(Initial(h), rng, rerun, now, w, h);
    }
  }

  /** A render of the start state never faults, and neither does the rerun
      after a collision at the start. */
  lemma RestartGetsThrough(wd: World, rng: Rng, rerun: Rng, now: int, w: int, h: int)
    requires SizeOk(w, h) && wd == Initial(h) && DrawsOk(rng, h) && DrawsOk(rerun, h)
    ensures WorldOk(wd, w, h)
    ensures Render(wd, rng, rerun, now, w, h).outcome == Finished
  {
    InitialOk(w, h);
    RenderInside(wd, rng, now, w, h);
    RerunNeverCollides(wd, rng, rerun, now, w, h);
    var first := RenderOnce(wd, rng, now, w, h);
    if first.outcome == Collided {
      RenderKeepsSettled(wd, rng, now, w, h);
      RenderInside(first.world, rerun, now, w, h);
    }
  }
}
