/** Obstacle column art (`topColumn` / `bottomColumn`): a cap block,
    `middleHeight` filler rows and a base block, all 14 cells wide, then
    clipped horizontally by a signed cutoff with a barrier glyph at the cut. */
module Columns {
  import opened Wrappers
  import opened Text
  import opened Canvas

  const ColumnWidth: int := 14

  /** Which of the two column shapes. */
  datatype Kind = Top | Bottom

  /** Which edge a cutoff clips: negative cutoffs clip the left edge. */
  datatype Side = Left | Right

  /** The cap of a top-mounted column (six rows). */
  const TopCap: seq<string> := [
    "|____________|",
    "|============|",
    " *\\________/* ",
    "   {      }   ",
    "   )      (   ",
    "  `--------'  "
  ]

  /** The base of a top-mounted column (five rows). */
  const TopBase: seq<string> := [
    "  ==========  ",
    "  `\\/%_%-\\/,  ",
    " )\\/-%\\/%_\\/( ",
    "(@..@.%%.@..@)",
    "^^^^^^^^^^^^^^"
  ]

  /** The cap of a bottom-mounted column (five rows). */
  const BottomCap: seq<string> := [
    "______________",
    "(@..@.%%.@..@)",
    " )U-U%U.%U_U( ",
    "  ,U%U_U%-U`  ",
    "  ==========  "
  ]

  /** The base of a bottom-mounted column (seven rows). */
  const BottomBase: seq<string> := [
    "  ,________,  ",
    "   )      (   ",
    "   {      }   ",
    " _/________\\_ ",
    "|____________|",
    "| ---------- |",
    "|____________|"
  ]

  /** The filler row repeated `middleHeight` times. */
  const Filler: string := "   ||||||||   "

  function Cap(kind: Kind): (rows: seq<string>)
  {
    if kind == Top then TopCap else BottomCap
  }

  function Base(kind: Kind): (rows: seq<string>)
  {
    if kind == Top then TopBase else BottomBase
  }

  /** `[...top, ...middle, ...bottom]` before clipping. */
  function ColumnArt(kind: Kind, middleHeight: nat): (art: Grid)
  {
    Cap(kind) + seq(middleHeight, _ => Filler) + Base(kind)
  }

  /** Every row of the fixed art is 14 cells wide, and the art has
      11 + middleHeight (top) or 12 + middleHeight (bottom) rows. */
  lemma ColumnArtShape(kind: Kind, middleHeight: nat)
    ensures |ColumnArt(kind, middleHeight)| == middleHeight + (if kind == Top then 11 else 12)
    ensures forall k :: 0 <= k < |ColumnArt(kind, middleHeight)| ==> |ColumnArt(kind, middleHeight)[k]| == ColumnWidth
  {
    var art := ColumnArt(kind, middleHeight);
    var cap, base := Cap(kind), Base(kind);
    assert forall k :: 0 <= k < |cap| ==> |cap[k]| == ColumnWidth;
    assert forall k :: 0 <= k < |base| ==> |base[k]| == ColumnWidth;
    forall k | 0 <= k < |art| ensures |art[k]| == ColumnWidth {
      if k < |cap| {
        assert art[k] == cap[k];
      } else if k < |cap| + middleHeight {
        assert art[k] == Filler;
      } else {
        assert art[k] == base[k - |cap| - middleHeight];
      }
    }
  }

  /** The glyph that closes a clipped row `i` of a column with `n` rows. */
  function Barrier(kind: Kind, side: Side, i: int, n: int): (glyph: char)
  {
    match (kind, side)
    case (Top, Left) => if i == 0 then '|' else if i == n - 1 then '`' else '('
    case (Top, Right) => if i == 0 then '|' else if i == n - 1 then '\'' else ')'
    case (Bottom, Left) => if i == 0 then ',' else if i >= n - 2 then '|' else '('
    case (Bottom, Right) => if i == 0 then '\\' else if i >= n - 2 then '|' else ')'
  }

  /** One row after the cutoff: `[barrier, ...line.slice(-cutoff + 1)]` for a
      negative cutoff, `[...line.slice(0, -cutoff - 1), barrier]` for a
      positive one, empty once the cutoff reaches the row's width. */
  function ClipRow(kind: Kind, line: string, i: int, n: int, cutoff: int): (clipped: string)
  {
    if cutoff < 0 then
      if cutoff <= -|line| then [] else [Barrier(kind, Left, i, n)] + line[-cutoff + 1..]
    else if cutoff > 0 then
      if cutoff >= |line| then [] else line[..|line| - cutoff - 1] + [Barrier(kind, Right, i, n)]
    else line
  }

  function Clip(kind: Kind, rows: Grid, cutoff: int): (r: Grid)
    ensures |r| == |rows|
  {
    seq(|rows|, i requires 0 <= i < |rows| => ClipRow(kind, rows[i], i, |rows|, cutoff))
  }

  /** Width of every row once clipped by `cutoff`. */
  function ClippedWidth(cutoff: int): (width: int)
  {
    if cutoff <= -ColumnWidth || cutoff >= ColumnWidth then 0
    else if cutoff < 0 then ColumnWidth + cutoff
    else if cutoff > 0 then ColumnWidth - cutoff
    else ColumnWidth
  }

  /** Builds the art, throws unless every row is 14 cells wide, then clips. */
  function BuildColumn(kind: Kind, middleHeight: nat, cutoff: int): (buf: Result<Grid, ArtError>)
  {
    var column := ColumnArt(kind, middleHeight);
    if exists k :: 0 <= k < |column| && |column[k]| != ColumnWidth then
      Failure(if kind == Top then InvalidTopColumnWidth else InvalidBottomColumnWidth)
    else Success(Clip(kind, column, cutoff))
  }

  /** `topColumn(middleHeight, cutoff)`: never throws; 11 + middleHeight rows,
      each `ClippedWidth(cutoff)` cells. */
  function TopColumn(middleHeight: nat, cutoff: int): (r: Result<Grid, ArtError>)
    ensures r.Success?
    ensures |r.value| == 11 + middleHeight
    ensures forall k :: 0 <= k < |r.value| ==> |r.value[k]| == ClippedWidth(cutoff)
  {
    ColumnArtShape(Top, middleHeight);
    BuildColumn(Top, middleHeight, cutoff)
  }

  /** `bottomColumn(middleHeight, cutoff)`: never throws; 12 + middleHeight
      rows, each `ClippedWidth(cutoff)` cells. */
  function BottomColumn(middleHeight: nat, cutoff: int): (r: Result<Grid, ArtError>)
    ensures r.Success?
    ensures |r.value| == 12 + middleHeight
    ensures forall k :: 0 <= k < |r.value| ==> |r.value[k]| == ClippedWidth(cutoff)
  {
    ColumnArtShape(Bottom, middleHeight);
    BuildColumn(Bottom, middleHeight, cutoff)
  }

  /** The buffer of either kind. */
  function ColumnBuffer(kind: Kind, middleHeight: nat, cutoff: int): (r: Grid)
    ensures |r| == middleHeight + (if kind == Top then 11 else 12)
    ensures forall k :: 0 <= k < |r| ==> |r[k]| == ClippedWidth(cutoff)
  {
    if kind == Top then TopColumn(middleHeight, cutoff).value else BottomColumn(middleHeight, cutoff).value
  }

  /** With no cutoff the buffer is the full art. */
  lemma UnclippedIsArt(kind: Kind, middleHeight: nat)
    ensures ColumnBuffer(kind, middleHeight, 0) == ColumnArt(kind, middleHeight)
  {
    ColumnArtShape(kind, middleHeight);
  }

  /** A left-clipped row is the barrier followed by the art's cells from
      column |cutoff| + 1 on; a right-clipped row is the art's first
      13 - cutoff cells followed by the barrier. The barrier of a top column
      is '|' on row 0, '`' or '\'' on the last row and '(' or ')' between;
      that of a bottom column is ',' or '\\' on row 0, '|' on the last two
      rows and '(' or ')' between. */
  lemma ClippedRows(kind: Kind, middleHeight: nat, cutoff: int, k: int)
    requires 0 < cutoff < ColumnWidth || -ColumnWidth < cutoff < 0
    requires 0 <= k < |ColumnArt(kind, middleHeight)|
    ensures var n := |ColumnArt(kind, middleHeight)|;
      var line := ColumnBuffer(kind, middleHeight, 0)[k];
      var row := ColumnBuffer(kind, middleHeight, cutoff)[k];
      var glyph := if cutoff < 0 then row[0] else row[|row| - 1];
      && |line| == ColumnWidth
      && (cutoff < 0 ==> row == [glyph] + line[-cutoff + 1..])
      && (cutoff > 0 ==> row == line[..ColumnWidth - cutoff - 1] + [glyph])
      && (kind == Top && cutoff < 0 ==> glyph == if k == 0 then '|' else if k == n - 1 then '`' else '(')
      && (kind == Top && cutoff > 0 ==> glyph == if k == 0 then '|' else if k == n - 1 then '\'' else ')')
      && (kind == Bottom && cutoff < 0 ==> glyph == if k == 0 then ',' else if k >= n - 2 then '|' else '(')
      && (kind == Bottom && cutoff > 0 ==> glyph == if k == 0 then '\\' else if k >= n - 2 then '|' else ')')
  {
    ColumnArtShape(kind, middleHeight);
    UnclippedIsArt(kind, middleHeight);
  }

  /** With |cutoff| >= 14 every row is empty. */
  lemma FullyClipped(kind: Kind, middleHeight: nat, cutoff: int)
    requires cutoff <= -ColumnWidth || cutoff >= ColumnWidth
    ensures forall k :: 0 <= k < |ColumnBuffer(kind, middleHeight, cutoff)| ==> ColumnBuffer(kind, middleHeight, cutoff)[k] == []
  {
  }

  /** The fixed part of each column: `topColumn(0, 0).length` is 11 and
      `bottomColumn(0, 0).length` is 12. */
  lemma BaselineHeights()
    ensures |TopColumn(0, 0).value| == 11 && |BottomColumn(0, 0).value| == 12
  {
  }
}
