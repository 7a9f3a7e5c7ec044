/** The player body: ten segment heights trailing the head, gravity on the
    head's velocity, the tension pass, and the clamp-and-collision pass that
    samples the composed canvas at each segment. */
module Body {
  import opened Wrappers
  import opened Canvas

  /** The label drawn as the body, last glyph at the head. */
  const SegmentText: string := "corinthium"
  const SegmentCount: int := 10

  const Gravity: real := 0.3
  const JumpVelocity: real := -2.5
  const Tension: real := 0.25

  /** `Math.round`: the nearest integer, halves rounded up. */
  function Round(y: real): (n: int)
  {
    (y + 0.5).Floor
  }

  /** `Math.round(y)` is the integer nearest to `y`, a half rounded up. */
  lemma RoundIsNearest(y: real)
    ensures y - 0.5 < Round(y) as real <= y + 0.5
  {
  }

  /** Canvas column sampled and drawn by segment i. */
  function SegmentX(i: int): (x: int)
  {
    32 - i
  }

  /** Glyph drawn for segment i: `SEGMENT_TEXT[SEGMENT_TEXT.length - i - 1]`. */
  function SegmentGlyph(i: int): (glyph: char)
    requires 0 <= i < SegmentCount
  {
    SegmentText[|SegmentText| - i - 1]
  }

  /** The delay line and head move of `tick`: segment i takes the old height
      of segment i - 1, and the head moves by the velocity after gravity. */
  function Advanced(ys: seq<real>, vy: real): (r: seq<real>)
    requires |ys| > 0
    ensures |r| == |ys|
    ensures r[0] == ys[0] + vy + Gravity
    ensures forall i :: 1 <= i < |ys| ==> r[i] == ys[i - 1]
  {
    [ys[0] + (vy + Gravity)] + ys[..|ys| - 1]
  }

  /** The tension pass, run first to last: each trailing segment moves a
      quarter of the way towards its already updated predecessor. */
  function Tensioned(ys: seq<real>): (r: seq<real>)
    ensures |r| == |ys|
    ensures |ys| > 0 ==> r[0] == ys[0]
  {
    if |ys| <= 1 then ys
    else
      var p := Tensioned(ys[..|ys| - 1]);
      var y := ys[|ys| - 1];
      p + [y + (p[|p| - 1] - y) * Tension]
  }

  /** Tension on one more segment appends that segment pulled towards the
      last tensioned one. */
  lemma TensionedSnoc(ys: seq<real>, i: int)
    requires 1 <= i < |ys|
    ensures var p := Tensioned(ys[..i]);
      Tensioned(ys[..i + 1]) == p + [ys[i] + (p[i - 1] - ys[i]) * Tension]
  {
    assert ys[..i + 1][..i] == ys[..i];
  }

  /** Tension keeps the head, sets every other segment to
      0.75 y[i] + 0.25 y'[i - 1], which lies between its old height and its
      updated predecessor, and leaves it three quarters as far from that
      predecessor as it was. */
  lemma {:induction false} TensionedAt(ys: seq<real>, i: int)
    requires 0 <= i < |ys|
    ensures var r := Tensioned(ys);
      && (i == 0 ==> r[0] == ys[0])
      && (i > 0 ==>
        && r[i] == 0.75 * ys[i] + 0.25 * r[i - 1]
        && (ys[i] <= r[i] <= r[i - 1] || r[i - 1] <= r[i] <= ys[i])
        && r[i] - r[i - 1] == 0.75 * (ys[i] - r[i - 1]))
    decreases |ys|
  {
    if |ys| > 1 {
      var n := |ys| - 1;
      if i < n {
        TensionedAt(ys[..n], i);
        if i > 0 {
          assert Tensioned(ys)[i - 1] == Tensioned(ys[..n])[i - 1];
        }
      }
    }
  }

  /** Tension keeps every segment inside [lo, hi]. */
  lemma {:induction false} TensionedWithin(ys: seq<real>, lo: real, hi: real)
    requires forall i :: 0 <= i < |ys| ==> lo <= ys[i] <= hi
    ensures forall i :: 0 <= i < |ys| ==> lo <= Tensioned(ys)[i] <= hi
  {
    forall i | 0 <= i < |ys| ensures lo <= Tensioned(ys)[i] <= hi {
      WithinAt(ys, lo, hi, i);
    }
  }

  lemma {:induction false} WithinAt(ys: seq<real>, lo: real, hi: real, i: int)
    requires forall i :: 0 <= i < |ys| ==> lo <= ys[i] <= hi
    requires 0 <= i < |ys|
    ensures lo <= Tensioned(ys)[i] <= hi
  {
    TensionedAt(ys, i);
    if i > 0 {
      WithinAt(ys, lo, hi, i - 1);
    }
  }

  /** A segment clamped into [top, bottom]. */
  function Clamped(y: real, top: int, bottom: int): (clamped: real)
  {
    if y <= top as real then top as real else if y >= bottom as real then bottom as real else y
  }

  /** The collision rule: a non-blank glyph strictly between the bands, or
      the vertical bar anywhere. */
  predicate Colliding(glyph: char, row: int, top: int, bottom: int)
  {
    (glyph != ' ' && row > top && row < bottom) || glyph == '|'
  }

  /** A glyph set inside the play field is hit; a blank is never hit. */
  lemma CollisionRule(glyph: char, row: int, top: int, bottom: int)
    ensures glyph != ' ' && top < row < bottom ==> Colliding(glyph, row, top, bottom)
    ensures glyph == ' ' ==> !Colliding(glyph, row, top, bottom)
    ensures glyph == '|' ==> Colliding(glyph, row, top, bottom)
    ensures Colliding(glyph, row, top, bottom) && glyph != '|' ==> top < row < bottom
  {
  }

  /** How a collision pass ended: every segment examined, a collision found
      (the caller renders again), or a sample row outside the canvas
      (`canvas[roundY]` is undefined and reading it throws). */
  datatype PassOutcome = Finished | Collided | Fault

  /** The state a pass leaves; `at` is the segment it stopped on. */
  datatype Pass = Pass(ys: seq<real>, vy: real, gameOverAt: Option<int>, grid: Grid, outcome: PassOutcome, at: nat)

  /** The grids a pass can sample: every row reaches past column 32. */
  predicate Sampleable(g: Grid)
  {
    forall r :: 0 <= r < |g| ==> |g[r]| > 32
  }

  /** Whether a sample row lies inside the canvas. */
  predicate Inside(row: int, grid: Grid)
  {
    0 <= row < |grid|
  }

  /** Whether segment i, sampling `row`, collides while playing. */
  predicate Hit(i: int, row: int, over: Option<int>, grid: Grid, top: int, bottom: int)
    requires Sampleable(grid) && 0 <= row < |grid| && 0 <= i < SegmentCount
  {
    over.None? && Colliding(grid[row][SegmentX(i)], row, top, bottom)
  }

  /** The heights after segment i is clamped into [top, bottom]. */
  function Settle(ys: seq<real>, i: int, top: int, bottom: int): (r: seq<real>)
    requires 0 <= i < |ys|
    ensures |r| == |ys|
  {
    ys[i := Clamped(ys[i], top, bottom)]
  }

  /** The velocity after segment i's clamp: zeroed when the head is clamped. */
  function Velocity(ys: seq<real>, vy: real, i: int, top: int, bottom: int): (v: real)
    requires 0 <= i < |ys|
  {
    if i == 0 && (ys[0] <= top as real || ys[0] >= bottom as real) then 0.0 else vy
  }

  /** The canvas after segment i's glyph is written at `row`. */
  function Stamp(grid: Grid, i: int, row: int): (g: Grid)
    requires Sampleable(grid) && 0 <= row < |grid| && 0 <= i < SegmentCount
    ensures Sampleable(g) && |g| == |grid| && forall r :: 0 <= r < |grid| ==> |g[r]| == |grid[r]|
  {
    grid[row := grid[row][SegmentX(i) := SegmentGlyph(i)]]
  }

  /** The collision loop from segment i on. */
  function PassFrom(i: nat, ys: seq<real>, vy: real, over: Option<int>, grid: Grid, now: int, top: int, bottom: int): (p: Pass)
    requires i <= |ys| == SegmentCount && Sampleable(grid)
    ensures |p.ys| == |ys| && i <= p.at <= |ys| && (p.outcome == Finished <==> p.at == |ys|)
    ensures |p.grid| == |grid| && forall r :: 0 <= r < |grid| ==> |p.grid[r]| == |grid[r]|
    decreases |ys| - i
  {
    if i == |ys| then Pass(ys, vy, over, grid, Finished, i)
    else
      var roundY := Round(ys[i]);
      var ys' := Settle(ys, i, top, bottom);
      var vy' := Velocity(ys, vy, i, top, bottom);
      if !Inside(roundY, grid) then Pass(ys', vy', over, grid, Fault, i)
      else if Hit(i, roundY, over, grid, top, bottom) then
        Pass(ys', vy', Some(now), grid, Collided, i)
      else PassFrom(i + 1, ys', vy', over, Stamp(grid, i, roundY), now, top, bottom)
  }

  /** One segment of the pass: either it stops there (a row off the canvas,
      or a hit while playing) or it goes on from the next segment with this
      one clamped and drawn. */
  lemma PassStep(i: nat, ys: seq<real>, vy: real, over: Option<int>, grid: Grid, now: int, top: int, bottom: int)
    requires i < |ys| == SegmentCount && Sampleable(grid)
    ensures var roundY := Round(ys[i]);
      var ys', vy' := Settle(ys, i, top, bottom), Velocity(ys, vy, i, top, bottom);
      var p := PassFrom(i, ys, vy, over, grid, now, top, bottom);
      && (!Inside(roundY, grid) ==> p == Pass(ys', vy', over, grid, Fault, i))
      && (Inside(roundY, grid) && Hit(i, roundY, over, grid, top, bottom) ==> p == Pass(ys', vy', Some(now), grid, Collided, i))
      && (Inside(roundY, grid) && !Hit(i, roundY, over, grid, top, bottom) ==>
            p == PassFrom(i + 1, ys', vy', over, Stamp(grid, i, roundY), now, top, bottom))
  {
  }

  /** Segment j's clamp examines and rewrites segment j only: every segment
      from i up to the one the pass stopped on is clamped into [top, bottom],
      every other keeps its height. */
  lemma {:induction false} PassClamps(i: nat, ys: seq<real>, vy: real, over: Option<int>, grid: Grid, now: int, top: int, bottom: int, j: int)
    requires i <= |ys| == SegmentCount && Sampleable(grid) && 0 <= j < |ys|
    ensures var p := PassFrom(i, ys, vy, over, grid, now, top, bottom);
      p.ys[j] == if i <= j <= p.at then Clamped(ys[j], top, bottom) else ys[j]
    decreases |ys| - i
  {
    if i < |ys| {
      PassStep(i, ys, vy, over, grid, now, top, bottom);
      var roundY := Round(ys[i]);
      if Inside(roundY, grid) && !Hit(i, roundY, over, grid, top, bottom) {
        var ys' := Settle(ys, i, top, bottom);
        var vy' := Velocity(ys, vy, i, top, bottom);
        var g' := Stamp(grid, i, roundY);
        var q := PassFrom(i + 1, ys', vy', over, g', now, top, bottom);
        PassClamps(i + 1, ys', vy', over, g', now, top, bottom, j);
        ClampedStep(i, ys, ys', q.at, j, top, bottom, q.ys[j]);
      }
    }
  }

  /** The clamp test of `PassClamps` one segment earlier: segment i was
      clamped in `ys'`, and the later segments up to `at` left `y`. */
  lemma ClampedStep(i: nat, ys: seq<real>, ys': seq<real>, at: int, j: int, top: int, bottom: int, y: real)
    requires i < |ys| == |ys'| && i + 1 <= at && 0 <= j < |ys|
    requires ys' == ys[i := Clamped(ys[i], top, bottom)]
    requires y == if i + 1 <= j <= at then Clamped(ys'[j], top, bottom) else ys'[j]
    ensures y == if i <= j <= at then Clamped(ys[j], top, bottom) else ys[j]
  {
  }

  /** `vy` is zeroed exactly when the head is clamped, and no later segment
      touches it. */
  lemma {:induction false} PassVelocity(i: nat, ys: seq<real>, vy: real, over: Option<int>, grid: Grid, now: int, top: int, bottom: int)
    requires i <= |ys| == SegmentCount && Sampleable(grid)
    ensures var p := PassFrom(i, ys, vy, over, grid, now, top, bottom);
      p.vy == if i == 0 && (ys[0] <= top as real || ys[0] >= bottom as real) then 0.0 else vy
    decreases |ys| - i
  {
    if i < |ys| {
      var roundY := Round(ys[i]);
      var ys' := Settle(ys, i, top, bottom);
      var vy' := Velocity(ys, vy, i, top, bottom);
      if Inside(roundY, grid) && !Hit(i, roundY, over, grid, top, bottom) {
        var g' := Stamp(grid, i, roundY);
        PassVelocity(i + 1, ys', vy', over, g', now, top, bottom);
      }
    }
  }

  /** `gameOverAt` is written only when it was unset, to `now`, and only by
      the collision that ends the pass. */
  lemma {:induction false} PassGameOver(i: nat, ys: seq<real>, vy: real, over: Option<int>, grid: Grid, now: int, top: int, bottom: int)
    requires i <= |ys| == SegmentCount && Sampleable(grid)
    ensures var p := PassFrom(i, ys, vy, over, grid, now, top, bottom);
      && p.gameOverAt == (if p.outcome == Collided then Some(now) else over)
      && (p.outcome == Collided ==> over.None?)
    decreases |ys| - i
  {
    if i < |ys| {
      var roundY := Round(ys[i]);
      var ys' := Settle(ys, i, top, bottom);
      var vy' := Velocity(ys, vy, i, top, bottom);
      if Inside(roundY, grid) && !Hit(i, roundY, over, grid, top, bottom) {
        var g' := Stamp(grid, i, roundY);
        PassGameOver(i + 1, ys', vy', over, g', now, top, bottom);
      }
    }
  }

  /** Segment j samples only canvas column 32 - j, which no earlier segment
      draws on, so every segment the pass got past sampled a row inside the
      canvas it was given, without a hit. */
  lemma {:induction false} PassSampledBefore(i: nat, ys: seq<real>, vy: real, over: Option<int>, grid: Grid, now: int, top: int, bottom: int, j: int)
    requires i <= |ys| == SegmentCount && Sampleable(grid)
    requires i <= j < PassFrom(i, ys, vy, over, grid, now, top, bottom).at
    ensures Inside(Round(ys[j]), grid)
    ensures !Hit(j, Round(ys[j]), over, grid, top, bottom)
    decreases |ys| - i
  {
    var roundY := Round(ys[i]);
    var ys' := Settle(ys, i, top, bottom);
    var vy' := Velocity(ys, vy, i, top, bottom);
    if j > i {
      var g' := Stamp(grid, i, roundY);
      PassSampledBefore(i + 1, ys', vy', over, g', now, top, bottom, j);
    }
  }

  /** The pass stops on the first segment whose sample row is outside the
      canvas (Fault) or whose sampled glyph collides while playing
      (Collided), judged on the canvas it was given. */
  lemma {:induction false} PassStopsOn(i: nat, ys: seq<real>, vy: real, over: Option<int>, grid: Grid, now: int, top: int, bottom: int)
    requires i <= |ys| == SegmentCount && Sampleable(grid)
    ensures var p := PassFrom(i, ys, vy, over, grid, now, top, bottom);
      && (p.outcome == Fault ==> !Inside(Round(ys[p.at]), grid))
      && (p.outcome == Collided ==> Inside(Round(ys[p.at]), grid) && Hit(p.at, Round(ys[p.at]), over, grid, top, bottom))
    decreases |ys| - i
  {
    if i < |ys| {
      var roundY := Round(ys[i]);
      var ys' := Settle(ys, i, top, bottom);
      var vy' := Velocity(ys, vy, i, top, bottom);
      if Inside(roundY, grid) && !Hit(i, roundY, over, grid, top, bottom) {
        var g' := Stamp(grid, i, roundY);
        var p := PassFrom(i + 1, ys', vy', over, g', now, top, bottom);
        assert PassFrom(i, ys, vy, over, grid, now, top, bottom) == p;
        PassStopsOn(i + 1, ys', vy', over, g', now, top, bottom);
        if p.outcome != Finished {
          var row := Round(ys[p.at]);
          assert ys'[p.at] == ys[p.at];
          if p.outcome == Collided {
            assert g'[row][SegmentX(p.at)] == grid[row][SegmentX(p.at)];
          }
        }
      }
    }
  }

  /** The pass draws glyph j at (round(y[j]), 32 - j) for each segment it got
      past, and leaves every other cell as it was. */
  lemma {:induction false} PassDraws(i: nat, ys: seq<real>, vy: real, over: Option<int>, grid: Grid, now: int, top: int, bottom: int, r: int, c: int)
    requires i <= |ys| == SegmentCount && Sampleable(grid)
    requires 0 <= r < |grid| && 0 <= c < |grid[r]|
    ensures var p := PassFrom(i, ys, vy, over, grid, now, top, bottom);
      p.grid[r][c] == if i <= SegmentX(c) < p.at && r == Round(ys[SegmentX(c)]) then SegmentGlyph(SegmentX(c)) else grid[r][c]
    decreases |ys| - i
  {
    if i < |ys| {
      PassStep(i, ys, vy, over, grid, now, top, bottom);
      var roundY := Round(ys[i]);
      if Inside(roundY, grid) && !Hit(i, roundY, over, grid, top, bottom) {
        var ys' := Settle(ys, i, top, bottom);
        var vy' := Velocity(ys, vy, i, top, bottom);
        var g' := Stamp(grid, i, roundY);
        var q := PassFrom(i + 1, ys', vy', over, g', now, top, bottom);
        PassDraws(i + 1, ys', vy', over, g', now, top, bottom, r, c);
        StampAt(grid, i, roundY, r, c);
        DrawnStep(i, ys, ys', q.at, r, c, grid[r][c], g'[r][c], q.grid[r][c]);
      }
    }
  }

  /** The cell test of `PassDraws` one segment earlier: segment i wrote
      `stamped` over `before`, and the later segments up to `at` left `cell`. */
  lemma DrawnStep(i: nat, ys: seq<real>, ys': seq<real>, at: int, r: int, c: int, before: char, stamped: char, cell: char)
    requires i < |ys| == |ys'| == SegmentCount && i + 1 <= at <= |ys|
    requires forall k :: 0 <= k < |ys| && k != i ==> ys'[k] == ys[k]
    requires stamped == if r == Round(ys[i]) && c == SegmentX(i) then SegmentGlyph(i) else before
    requires cell == if i + 1 <= SegmentX(c) < at && r == Round(ys'[SegmentX(c)]) then SegmentGlyph(SegmentX(c)) else stamped
    ensures cell == if i <= SegmentX(c) < at && r == Round(ys[SegmentX(c)]) then SegmentGlyph(SegmentX(c)) else before
  {
  }

  /** Writing segment i's glyph at `row` changes the one cell (row, 32 - i). */
  lemma StampAt(grid: Grid, i: int, row: int, r: int, c: int)
    requires Sampleable(grid) && 0 <= row < |grid| && 0 <= i < SegmentCount
    requires 0 <= r < |grid| && 0 <= c < |grid[r]|
    ensures Stamp(grid, i, row)[r][c] == if r == row && c == SegmentX(i) then SegmentGlyph(i) else grid[r][c]
  {
  }

  /** A pass that examines every segment leaves all of them in
      [top, bottom]. */
  lemma PassFinishedSettles(ys: seq<real>, vy: real, over: Option<int>, grid: Grid, now: int, top: int, bottom: int)
    requires |ys| == SegmentCount && Sampleable(grid) && top <= bottom
    ensures var p := PassFrom(0, ys, vy, over, grid, now, top, bottom);
      p.outcome == Finished ==> forall j :: 0 <= j < |ys| ==> top as real <= p.ys[j] <= bottom as real
  {
    var p := PassFrom(0, ys, vy, over, grid, now, top, bottom);
    forall j | 0 <= j < |ys| ensures p.outcome == Finished ==> top as real <= p.ys[j] <= bottom as real {
      PassClamps(0, ys, vy, over, grid, now, top, bottom, j);
    }
  }

  /** Heights already in [top, bottom] come out of a pass unchanged. */
  lemma PassKeepsSettled(ys: seq<real>, vy: real, over: Option<int>, grid: Grid, now: int, top: int, bottom: int)
    requires |ys| == SegmentCount && Sampleable(grid)
    requires forall j :: 0 <= j < |ys| ==> top as real <= ys[j] <= bottom as real
    ensures PassFrom(0, ys, vy, over, grid, now, top, bottom).ys == ys
  {
    var p := PassFrom(0, ys, vy, over, grid, now, top, bottom);
    forall j | 0 <= j < |ys| ensures p.ys[j] == ys[j] {
      PassClamps(0, ys, vy, over, grid, now, top, bottom, j);
    }
  }
}
