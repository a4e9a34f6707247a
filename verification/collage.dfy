/**
 The layout part of `createCollage`: rows, then canvas height, canvas width
 and positions, with the fixed spacing of 10 and target row height of 300.
 Fetching, measuring, drawing and encoding happen outside this model.
 */
module Collage {
  import opened Thumbs
  import opened RowLayout
  import opened Geometry

  const Spacing: real := 10.0
  const TargetRowHeight: real := 300.0

  /** The thumbnails the packer returns for this collage. */
  function Packed(photos: seq<SizedPhoto>, maxWidth: real, columnsCount: int,
                  findIdealNodeSearch: (real, real) -> int,
                  computeRowLayout: PackRequest -> seq<Thumb>): seq<Thumb>
  {
    computeRowLayout(PackRequest(maxWidth,
      SearchLimit(columnsCount, maxWidth, TargetRowHeight, findIdealNodeSearch),
      TargetRowHeight, 0.0, photos))
  }

  /**
   The canvas-size and position code can read every row's first thumbnail
   exactly when the packer returned something and its first thumbnail on its
   own does not round to more than the container width; otherwise the rows are
   empty or begin with an empty row.
   */
  lemma {:induction false} GeometryDefinedIff(thumbs: seq<Thumb>, containerWidth: real,
                                              spacing: real, rows: seq<Row>)
    requires IsRowLayout(thumbs, containerWidth, spacing, rows)
    ensures (rows != [] && AllNonEmpty(rows))
            <==> (thumbs != [] && Round(thumbs[0].width) as real <= containerWidth)
  {
    if rows != [] && thumbs != [] && Round(thumbs[0].width) as real <= containerWidth {
      forall i | 0 <= i < |rows| ensures rows[i] != [] {
        if i > 0 {
          assert EmptyOnlyFirst(rows);
        }
      }
    }
  }

  /**
   Lines 81-84 of `createCollage`: the row layout, the canvas height and width,
   and the positions, each as the corresponding function or method defines it.
   */
  method LayoutCollage(photos: seq<SizedPhoto>, maxWidth: real, columnsCount: int,
                       findIdealNodeSearch: (real, real) -> int,
                       computeRowLayout: PackRequest -> seq<Thumb>)
    returns (rows: seq<Row>, canvasHeight: real, canvasWidth: real,
             positions: seq<seq<Position>>)
    requires Packed(photos, maxWidth, columnsCount, findIdealNodeSearch, computeRowLayout) != []
    requires Round(Packed(photos, maxWidth, columnsCount, findIdealNodeSearch,
                          computeRowLayout)[0].width) as real <= maxWidth
    ensures IsRowLayout(Packed(photos, maxWidth, columnsCount, findIdealNodeSearch, computeRowLayout),
                        maxWidth, Spacing, rows)
    ensures rows != [] && AllNonEmpty(rows)
    ensures canvasHeight == CanvasHeight(rows, Spacing)
    ensures canvasWidth == CanvasWidth(rows, Spacing)
    ensures |positions| == |rows|
    ensures forall i :: 0 <= i < |rows| ==> |positions[i]| == |rows[i]|
    ensures forall i, j :: 0 <= i < |rows| && 0 <= j < |rows[i]| ==>
              positions[i][j] == Position(XAt(rows[i], j, Spacing), YAt(rows, i, Spacing))
  {
    rows := GetRowLayout(photos, maxWidth, columnsCount, TargetRowHeight, Spacing,
                         findIdealNodeSearch, computeRowLayout);
    GeometryDefinedIff(Packed(photos, maxWidth, columnsCount, findIdealNodeSearch, computeRowLayout),
                       maxWidth, Spacing, rows);
    canvasHeight := CanvasHeight(rows, Spacing);
    canvasWidth := CanvasWidth(rows, Spacing);
    positions := GetPositions(rows, Spacing);
  }
}
