/** Text helpers of game.js: splitting a template string into a glyph matrix,
    joining a glyph matrix back into the text that is displayed, and the
    header and footer bands built from (left, fill, right) pieces. */
module Text {
  import opened Wrappers

  /** The errors game.js throws while building art. */
  datatype ArtError = MismatchedLeftRight | InvalidTopColumnWidth | InvalidBottomColumnWidth

  /** Number of line breaks in `s`. */
  function Newlines(s: string): (count: nat)
  {
    if |s| == 0 then 0 else (if s[0] == '\n' then 1 else 0) + Newlines(s[1..])
  }

  /** `stringToMatrix`: `string.split('\n')`, each line spread into its glyphs.
      A string with k line breaks gives k + 1 rows, none holding a line break. */
  function StringToMatrix(s: string): (rows: seq<string>)
    ensures |rows| == Newlines(s) + 1
    ensures forall k :: 0 <= k < |rows| ==> '\n' !in rows[k]
  {
    if |s| == 0 then [""]
    else
      var rest := StringToMatrix(s[1..]);
      if s[0] == '\n' then [""] + rest
      else [[s[0]] + rest[0]] + rest[1..]
  }

  /** The serialisation of a frame: each row joined, rows joined with '\n'. */
  function Serialise(rows: seq<string>): (text: string)
  {
    if |rows| == 0 then ""
    else if |rows| == 1 then rows[0]
    else rows[0] + "\n" + Serialise(rows[1..])
  }

  /** Joining the split rows gives back the text. */
  lemma {:induction false} SerialiseStringToMatrix(s: string)
    ensures Serialise(StringToMatrix(s)) == s
  {
    if |s| > 0 {
      var rest := StringToMatrix(s[1..]);
      SerialiseStringToMatrix(s[1..]);
      if s[0] == '\n' {
        assert StringToMatrix(s) == [""] + rest;
        assert ([""] + rest)[1..] == rest;
        assert s == "\n" + s[1..];
      } else if |rest| == 1 {
        assert s == [s[0]] + s[1..];
      } else {
        assert rest[1..][1..] == rest[2..];
        assert ([[s[0]] + rest[0]] + rest[1..])[1..] == rest[1..];
        assert s == [s[0]] + s[1..];
      }
    }
  }

  /** Splitting a line without a break in front of some text glues the line to
      the first row of that text. */
  lemma {:induction false} StringToMatrixPrefix(line: string, t: string)
    requires '\n' !in line
    ensures var rt := StringToMatrix(t);
      StringToMatrix(line + t) == [line + rt[0]] + rt[1..]
  {
    if |line| > 0 {
      var rt := StringToMatrix(t);
      StringToMatrixPrefix(line[1..], t);
      assert (line + t)[1..] == line[1..] + t;
      assert (line + t)[0] == line[0] && line[0] != '\n';
      var rest := StringToMatrix(line[1..] + t);
      assert rest == [line[1..] + rt[0]] + rt[1..];
      assert StringToMatrix(line + t) == [[line[0]] + rest[0]] + rest[1..];
      assert line == [line[0]] + line[1..];
      assert [line[0]] + (line[1..] + rt[0]) == line + rt[0];
      assert rest[1..] == rt[1..];
    } else {
      var rt := StringToMatrix(t);
      assert line + t == t;
      assert line + rt[0] == rt[0];
      assert rt == [rt[0]] + rt[1..];
    }
  }

  /** Splitting the serialisation of at least one break-free row gives back
      the rows. */
  lemma {:induction false} StringToMatrixSerialise(rows: seq<string>)
    requires |rows| >= 1
    requires forall k :: 0 <= k < |rows| ==> '\n' !in rows[k]
    ensures StringToMatrix(Serialise(rows)) == rows
  {
    if |rows| == 1 {
      StringToMatrixPrefix(rows[0], "");
      assert rows[0] + "" == rows[0];
    } else {
      var tail := Serialise(rows[1..]);
      StringToMatrixSerialise(rows[1..]);
      StringToMatrixPrefix(rows[0], "\n" + tail);
      assert ("\n" + tail)[1..] == tail;
      assert ("\n" + tail)[0] == '\n';
      assert StringToMatrix("\n" + tail) == [""] + StringToMatrix(tail);
      assert StringToMatrix("\n" + tail) == [""] + rows[1..];
      assert Serialise(rows) == rows[0] + "\n" + tail;
      assert rows[0] + "" == rows[0];
      assert rows[0] + "\n" + tail == rows[0] + ("\n" + tail);
      assert rows == [rows[0]] + rows[1..];
    }
  }

  /** The first `n` glyphs of `fill` repeated forever (empty when n <= 0). */
  function Cycle(fill: string, n: int): (repeated: string)
    requires n > 0 ==> |fill| > 0
    decreases n
  {
    if n <= 0 then "" else Cycle(fill, n - 1) + [fill[(n - 1) % |fill|]]
  }

  /** `Cycle` has max(n, 0) glyphs and glyph i is `fill[i % |fill|]`. */
  lemma {:induction false} CycleAt(fill: string, n: int)
    requires n > 0 ==> |fill| > 0
    ensures |Cycle(fill, n)| == if n > 0 then n else 0
    ensures forall i :: 0 <= i < |Cycle(fill, n)| ==> Cycle(fill, n)[i] == fill[i % |fill|]
    decreases n
  {
    if n > 0 {
      CycleAt(fill, n - 1);
    }
  }

  /** `repeatTrunc`: a loop appending `fill[i % fill.length]` for i below `width`. */
  method RepeatTrunc(fill: string, width: int) returns (r: string)
    requires width > 0 ==> |fill| > 0
    ensures r == Cycle(fill, width)
  {
    r := "";
    var i := 0;
    while i < width
      invariant 0 <= i && (width > 0 ==> i <= width) && (width <= 0 ==> i == 0)
      invariant r == Cycle(fill, i)
    {
      r := r + [fill[i % |fill|]];
      i := i + 1;
    }
    assert i == width || (width <= 0 && i == 0);
  }

  /** One row of a header or footer: left piece, repeated fill, right piece. */
  datatype Segment = Segment(left: string, fill: string, right: string)

  /** A segment can be repeated across `width` cells. */
  predicate Fillable(s: Segment, width: int)
  {
    width - |s.left| - |s.right| > 0 ==> |s.fill| > 0
  }

  /** The row `left + repeatTrunc(fill, width - left.length - right.length) + right`. */
  function BandRow(s: Segment, width: int): (row: string)
    requires Fillable(s, width)
  {
    s.left + Cycle(s.fill, width - |s.left| - |s.right|) + s.right
  }

  /** A band row is exactly `width` cells when both pieces fit, and it starts
      with the left piece, ends with the right piece and cycles the fill between. */
  lemma BandRowShape(s: Segment, width: int)
    requires Fillable(s, width) && |s.left| + |s.right| <= width
    ensures |BandRow(s, width)| == width
    ensures BandRow(s, width)[..|s.left|] == s.left
    ensures BandRow(s, width)[width - |s.right|..] == s.right
    ensures forall i :: |s.left| <= i < width - |s.right| ==>
      BandRow(s, width)[i] == s.fill[(i - |s.left|) % |s.fill|]
  {
    CycleAt(s.fill, width - |s.left| - |s.right|);
  }

  /** Every piece has equal left and right lengths. */
  predicate Balanced(spec: seq<Segment>)
  {
    forall k :: 0 <= k < |spec| ==> |spec[k].left| == |spec[k].right|
  }

  /** All the rows of a band, as `genHeaderFooter` returns them when it does
      not throw. */
  function BandRows(spec: seq<Segment>, width: int): (rows: seq<string>)
    requires forall k :: 0 <= k < |spec| ==> Fillable(spec[k], width)
  {
    seq(|spec|, k requires 0 <= k < |spec| => BandRow(spec[k], width))
  }

  /** `genHeaderFooter`: one row per piece; throws on the first piece whose
      left and right lengths differ. */
  method GenHeaderFooter(spec: seq<Segment>, width: int) returns (r: Result<seq<string>, ArtError>)
    requires forall k :: 0 <= k < |spec| ==> Fillable(spec[k], width)
    ensures r.Failure? <==> !Balanced(spec)
    ensures r.Failure? ==> r.error == MismatchedLeftRight
    ensures r.Success? ==> r.value == BandRows(spec, width)
  {
    var canvas: seq<string> := [];
    for k := 0 to |spec|
      invariant Balanced(spec[..k])
      invariant canvas == BandRows(spec[..k], width)
    {
      var s := spec[k];
      if |s.left| != |s.right| {
        assert !Balanced(spec);
        return Failure(MismatchedLeftRight);
      }
      var middle := RepeatTrunc(s.fill, width - |s.left| - |s.right|);
      canvas := canvas + [s.left + middle + s.right];
      assert spec[..k + 1][..k] == spec[..k];
    }
    assert spec[..|spec|] == spec;
    return Success(canvas);
  }

  /** The nine header pieces of game.js. */
  const HeaderSpec: seq<Segment> := [
    Segment("|----", "----(*)----", "----|"),
    Segment(" \\", "_", "/ "),
    Segment(" @-/  | ", "V   ", " |  \\-@ "),
    Segment("      ", "=", "      "),
    Segment("      ||||  ", "  ||||  ", "  ||||      "),
    Segment("    __|", "_", "|__    "),
    Segment("    \\", "=", "/    "),
    Segment("       |", "=", "|       "),
    Segment("         |", "_", "|         ")
  ]

  /** The four footer pieces of game.js. */
  const FooterSpec: seq<Segment> := [
    Segment("  |", "-", "|  "),
    Segment(" /", "_", "\\ "),
    Segment("|", " ", "|"),
    Segment("|", "_", "|")
  ]

  /** Neither band throws, every fill is non-empty and no piece pair is wider
      than 24 cells, so both bands are exactly `width` wide from width 24 on. */
  lemma BandsWellFormed()
    ensures |HeaderSpec| == 9 && |FooterSpec| == 4
    ensures Balanced(HeaderSpec) && Balanced(FooterSpec)
    ensures forall k :: 0 <= k < |HeaderSpec| ==> |HeaderSpec[k].fill| > 0 && |HeaderSpec[k].left| + |HeaderSpec[k].right| <= 24
    ensures forall k :: 0 <= k < |FooterSpec| ==> |FooterSpec[k].fill| > 0 && |FooterSpec[k].left| + |FooterSpec[k].right| <= 24
  {
  }
}
