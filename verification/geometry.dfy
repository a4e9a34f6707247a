/**
 The geometry derived from the rows: the canvas size (`getCanvasWidth`,
 `getCanvasHeight`) and the position of every thumbnail (`getPositions`).
 */
module Geometry {
  import opened Thumbs

  /** Every row holds a thumbnail, so each row has a first element to take the height from. */
  predicate AllNonEmpty(rows: seq<Row>)
  {
    forall i :: 0 <= i < |rows| ==> rows[i] != []
  }

  /** Sum of each row's height, taken from its first thumbnail, accumulated left to right. */
  function SumHeights(rows: seq<Row>): real
    requires AllNonEmpty(rows)
  {
    if rows == [] then 0.0
    else SumHeights(rows[..|rows| - 1]) + rows[|rows| - 1][0].height
  }

  /** Adding one more row to a prefix adds that row's height. */
  lemma {:induction false} SumHeightsStep(rows: seq<Row>, i: nat)
    requires AllNonEmpty(rows) && i < |rows|
    ensures SumHeights(rows[..i + 1]) == SumHeights(rows[..i]) + rows[i][0].height
  {
    assert rows[..i + 1][..i] == rows[..i];
  }

  // ---------------------------------------------------------------------------
  // Canvas size.

  /**
   `getCanvasWidth`: the widths of the first row, half a spacing per thumbnail
   of that row rounded up, and a spacing on either side. The first row alone
   decides; it may be empty, but there must be one.

   Measured against the positions: an empty first row gives two spacings, and
   otherwise the width reserves `ceil(n/2) + 2` spacings for a first row of `n`
   thumbnails where the positions use `n` up to its right edge.
   */
  function CanvasWidth(rows: seq<Row>, spacing: real): (w: real)
    requires |rows| > 0
    ensures rows[0] == [] ==> w == 2.0 * spacing
    ensures rows[0] != [] ==>
              w - RightEdge(rows[0], spacing) == (CeilHalf(|rows[0]|) + 2 - |rows[0]|) as real * spacing
  {
    var additionalSpace := CeilHalf(|rows[0]|) as real * spacing + spacing * 2.0;
    SumWidths(rows[0]) + additionalSpace
  }

  /**
   `getCanvasHeight`: the height of every row, half a spacing per row rounded
   up, and an outer margin of two spacings, or one when there is at most one row.

   Measured against the positions: no rows give one spacing, and otherwise the
   height reserves `ceil(m/2)` spacings plus that margin for `m` rows where the
   positions use `m` down to the last row's bottom edge.
   */
  function CanvasHeight(rows: seq<Row>, spacing: real): (h: real)
    requires AllNonEmpty(rows)
    ensures rows == [] ==> h == spacing
    ensures rows != [] ==>
              h - BottomEdge(rows, spacing)
              == (CeilHalf(|rows|) + (if |rows| > 1 then 2 else 1) - |rows|) as real * spacing
  {
    var additionalSpace := CeilHalf(|rows|) as real * spacing
                           + (if |rows| > 1 then spacing * 2.0 else spacing);
    SumHeights(rows) + additionalSpace
  }

  // ---------------------------------------------------------------------------
  // Positions.

  datatype Position = Position(x: real, y: real)

  /** Closed form of the x cursor before thumbnail `j` of a row: a spacing before each thumbnail up to it, plus the widths before it. */
  function XAt(row: Row, j: nat, spacing: real): real
    requires j <= |row|
  {
    (j + 1) as real * spacing + SumWidths(row[..j])
  }

  /** Closed form of the y cursor before row `i`: a spacing before each row up to it, plus the heights of the rows before it. */
  function YAt(rows: seq<Row>, i: nat, spacing: real): real
    requires AllNonEmpty(rows) && i <= |rows|
  {
    (i + 1) as real * spacing + SumHeights(rows[..i])
  }

  /** The x cursor starts at one spacing and advances by each thumbnail's width plus a spacing. */
  lemma {:induction false} XRecurrence(row: Row, spacing: real)
    ensures XAt(row, 0, spacing) == spacing
    ensures forall j :: 0 <= j < |row| ==>
              XAt(row, j + 1, spacing) == XAt(row, j, spacing) + row[j].width + spacing
  {
    forall j | 0 <= j < |row|
      ensures XAt(row, j + 1, spacing) == XAt(row, j, spacing) + row[j].width + spacing
    {
      SumWidthsStep(row, j);
    }
  }

  /** The y cursor starts at one spacing and advances by each row's height plus a spacing. */
  lemma {:induction false} YRecurrence(rows: seq<Row>, spacing: real)
    requires AllNonEmpty(rows)
    ensures YAt(rows, 0, spacing) == spacing
    ensures forall i :: 0 <= i < |rows| ==>
              YAt(rows, i + 1, spacing) == YAt(rows, i, spacing) + rows[i][0].height + spacing
  {
    forall i | 0 <= i < |rows|
      ensures YAt(rows, i + 1, spacing) == YAt(rows, i, spacing) + rows[i][0].height + spacing
    {
      SumHeightsStep(rows, i);
    }
  }

  /** With positive heights and a non-negative spacing the y cursor strictly increases from row to row. */
  lemma {:induction false} YIncreasing(rows: seq<Row>, spacing: real, i: nat, k: nat)
    requires AllNonEmpty(rows)
    requires forall r :: 0 <= r < |rows| ==> rows[r][0].height > 0.0
    requires spacing >= 0.0
    requires i < k <= |rows|
    ensures YAt(rows, i, spacing) < YAt(rows, k, spacing)
    decreases k - i
  {
    YRecurrence(rows, spacing);
    if i + 1 < k {
      YIncreasing(rows, spacing, i + 1, k);
    }
  }

  /**
   `getPositions`: a y cursor starting at one spacing and, per row, an x cursor
   starting at one spacing; each thumbnail is placed at the cursors, x advances
   by the thumbnail's width plus a spacing, and y by the row's height plus a
   spacing once the row is done.
   */
  method GetPositions(rows: seq<Row>, spacing: real) returns (positions: seq<seq<Position>>)
    requires AllNonEmpty(rows)
    ensures |positions| == |rows|
    ensures forall i :: 0 <= i < |rows| ==> |positions[i]| == |rows[i]|
    ensures forall i, j :: 0 <= i < |rows| && 0 <= j < |rows[i]| ==>
              positions[i][j] == Position(XAt(rows[i], j, spacing), YAt(rows, i, spacing))
  {
    positions := [];
    var y := spacing;
    YRecurrence(rows, spacing);
    for i := 0 to |rows|
      invariant |positions| == i
      invariant y == YAt(rows, i, spacing)
      invariant forall a :: 0 <= a < i ==> |positions[a]| == |rows[a]|
      invariant forall a, b :: 0 <= a < i && 0 <= b < |rows[a]| ==>
                  positions[a][b] == Position(XAt(rows[a], b, spacing), YAt(rows, a, spacing))
    {
      var row := rows[i];
      var x := spacing;
      var position: seq<Position> := [];
      XRecurrence(row, spacing);
      for j := 0 to |row|
        invariant |position| == j
        invariant x == XAt(row, j, spacing)
        invariant forall b :: 0 <= b < j ==> position[b] == Position(XAt(row, b, spacing), y)
      {
        position := position + [Position(x, y)];
        x := x + row[j].width + spacing;
      }
      y := y + row[0].height + spacing;
      positions := positions + [position];
    }
  }

  // ---------------------------------------------------------------------------
  // Edges of the placed thumbnails. The canvas is not promised to contain
  // every thumbnail; the canvas functions above state how much room they leave
  // past these edges, and the lemmas below say exactly when that is enough.

  /**
   Right edge of the last thumbnail of a non-empty row: one spacing before each
   thumbnail, plus all the widths.
   */
  function RightEdge(row: Row, spacing: real): (e: real)
    requires row != []
    ensures e == |row| as real * spacing + SumWidths(row)
  {
    SumWidthsStep(row, |row| - 1);
    assert row[..|row|] == row;
    XAt(row, |row| - 1, spacing) + row[|row| - 1].width
  }

  /**
   Bottom edge of the last row as the code measures rows: the bottom of the
   last row's first thumbnail, the height the y cursor advances by. It is one
   spacing above each row plus all those first-thumbnail heights; a later,
   taller thumbnail of the row reaches further down.
   */
  function BottomEdge(rows: seq<Row>, spacing: real): (e: real)
    requires AllNonEmpty(rows) && rows != []
    ensures e == |rows| as real * spacing + SumHeights(rows)
  {
    YAt(rows, |rows| - 1, spacing) + rows[|rows| - 1][0].height
  }

  /**
   With a positive spacing, the first row's right edge lies inside the canvas
   width exactly when that row has at most five thumbnails. A later row wider
   than the first can still reach past the canvas.
   */
  lemma {:induction false} FirstRowInsideIff(rows: seq<Row>, spacing: real)
    requires |rows| > 0 && rows[0] != [] && spacing > 0.0
    ensures RightEdge(rows[0], spacing) <= CanvasWidth(rows, spacing) <==> |rows[0]| <= 5
  {
    SlackSign(CeilHalf(|rows[0]|) + 2 - |rows[0]|, spacing);
  }

  /**
   With a positive spacing, the bottom of the last row's first thumbnail lies
   inside the canvas height exactly when there are at most five rows. A
   thumbnail taller than its row's first can still reach past the canvas, as
   `TallerThumbnailOutside` shows.
   */
  lemma {:induction false} LastRowInsideIff(rows: seq<Row>, spacing: real)
    requires AllNonEmpty(rows) && rows != [] && spacing > 0.0
    ensures BottomEdge(rows, spacing) <= CanvasHeight(rows, spacing) <==> |rows| <= 5
  {
    SlackSign(CeilHalf(|rows|) + (if |rows| > 1 then 2 else 1) - |rows|, spacing);
  }

  /**
   One row of two thumbnails, the second taller than the first: the canvas
   height reserves room for the first one's height only, so the second one's
   bottom lies below the canvas.
   */
  lemma TallerThumbnailOutside()
    ensures var rows := [[Thumb(500.0, 100.0, []), Thumb(400.0, 300.0, [])]];
            && CanvasHeight(rows, 10.0) == 120.0
            && YAt(rows, 0, 10.0) + rows[0][1].height == 310.0
  {
    var rows := [[Thumb(500.0, 100.0, []), Thumb(400.0, 300.0, [])]];
    assert rows[..0] == [];
  }

  lemma {:induction false} SlackSign(c: int, spacing: real)
    requires spacing > 0.0
    ensures c as real * spacing >= 0.0 <==> c >= 0
  {
    if c < 0 {
      assert c as real * spacing <= -1.0 * spacing;
    }
  }

  /** Positive thumbnail sizes and a non-negative spacing give a canvas of positive size. */
  lemma {:induction false} CanvasPositive(rows: seq<Row>, spacing: real)
    requires AllNonEmpty(rows) && rows != [] && spacing >= 0.0
    requires forall i, j :: 0 <= i < |rows| && 0 <= j < |rows[i]| ==>
               rows[i][j].width > 0.0 && rows[i][j].height > 0.0
    ensures CanvasWidth(rows, spacing) > 0.0
    ensures CanvasHeight(rows, spacing) > 0.0
  {
    assert forall j :: 0 <= j < |rows[0]| ==> rows[0][j].width > 0.0;
    SumWidthsPositive(rows[0]);
    SumHeightsPositive(rows);
  }

  lemma {:induction false} SumHeightsPositive(rows: seq<Row>)
    requires AllNonEmpty(rows)
    requires forall i :: 0 <= i < |rows| ==> rows[i][0].height > 0.0
    ensures rows != [] ==> SumHeights(rows) > 0.0
    ensures SumHeights(rows) >= 0.0
  {
    if rows != [] {
      SumHeightsPositive(rows[..|rows| - 1]);
    }
  }
}
