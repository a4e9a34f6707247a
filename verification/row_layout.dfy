/**
 `getRowLayout`: the choice of the packer's search limit, and the pass that
 re-buckets the packer's flat thumbnail list into rows, closing a row as soon
 as the rounded running width would exceed the container, and widening a lone
 thumbnail in the final row by the spacing.
 */
module RowLayout {
  import opened Thumbs

  /** The record `computeRowLayout` receives. */
  datatype PackRequest = PackRequest(
    containerWidth: real,
    limitNodeSearch: int,
    targetRowHeight: real,
    margin: real,
    photos: seq<SizedPhoto>)

  /** A photo with the natural size measured for it before layout. */
  datatype SizedPhoto = SizedPhoto(photo: Photo, width: real, height: real)

  /**
   The lookahead handed to the packer. Two when the container is narrower than
   450, else what `findIdealNodeSearch` proposes; a non-zero `columnsCount`
   (JavaScript truthiness, so a negative one too) overrides both.
   */
  function SearchLimit(columnsCount: int, containerWidth: real, targetRowHeight: real,
                       findIdealNodeSearch: (real, real) -> int): (limit: int)
    ensures columnsCount != 0 ==> limit == columnsCount
    ensures columnsCount == 0 && containerWidth < 450.0 ==> limit == 2
    ensures columnsCount == 0 && containerWidth >= 450.0 ==>
              limit == findIdealNodeSearch(containerWidth, targetRowHeight)
  {
    var limitNodeSearch := if containerWidth >= 450.0
                           then findIdealNodeSearch(containerWidth, targetRowHeight)
                           else 2;
    if columnsCount != 0 then columnsCount else limitNodeSearch
  }

  // ---------------------------------------------------------------------------
  // What the re-bucketing pass guarantees of its rows.

  /** The final row holds exactly one thumbnail. */
  predicate LoneLast(rows: seq<Row>)
  {
    |rows| > 0 && |rows[|rows| - 1]| == 1
  }

  /**
   The rows hold the input thumbnails in order, none left out or repeated; the
   only change is that a lone thumbnail in the final row is `spacing` wider.
   */
  predicate Covers(thumbs: seq<Thumb>, spacing: real, rows: seq<Row>)
  {
    if LoneLast(rows) then thumbs != [] && Flatten(rows) == WidenLast(thumbs, spacing)
    else Flatten(rows) == thumbs
  }

  /** Only the first row may be empty. */
  predicate EmptyOnlyFirst(rows: seq<Row>)
  {
    forall i :: 0 < i < |rows| ==> rows[i] != []
  }

  /**
   There are rows exactly when there are thumbnails, and the first row is empty
   exactly when the first thumbnail on its own rounds to more than the container.
   */
  predicate FirstRowEmptyIff(thumbs: seq<Thumb>, containerWidth: real, rows: seq<Row>)
  {
    && (rows == [] <==> thumbs == [])
    && (|rows| > 0 && |thumbs| > 0 ==>
          (rows[0] == [] <==> Round(thumbs[0].width) as real > containerWidth))
  }

  /**
   Every thumbnail that joined a row after the row's first one joined without
   overflow: each prefix of two or more thumbnails, hence the whole row when it
   has two or more, rounds to at most the container width.
   */
  predicate RowsFit(containerWidth: real, rows: seq<Row>)
  {
    forall i, j :: 0 <= i < |rows| && 2 <= j <= |rows[i]| ==>
      Round(SumWidths(rows[i][..j])) as real <= containerWidth
  }

  /**
   Row `i` was closed on overflow: adding the packer's thumbnail that starts
   row `i + 1` would have made row `i` round to more than the container width.
   */
  predicate OverflowsInto(thumbs: seq<Thumb>, containerWidth: real, rows: seq<Row>, i: nat)
    requires i < |rows|
  {
    && Start(rows, i + 1) < |thumbs|
    && Round(SumWidths(rows[i]) + thumbs[Start(rows, i + 1)].width) as real > containerWidth
  }

  /** A row is closed only on overflow, and the overflowing thumbnail starts the next row. */
  predicate RowsBreak(thumbs: seq<Thumb>, containerWidth: real, rows: seq<Row>)
  {
    forall i :: 0 <= i < |rows| - 1 ==> OverflowsInto(thumbs, containerWidth, rows, i)
  }

  /** All of the above together. */
  predicate IsRowLayout(thumbs: seq<Thumb>, containerWidth: real, spacing: real, rows: seq<Row>)
  {
    && Covers(thumbs, spacing, rows)
    && EmptyOnlyFirst(rows)
    && FirstRowEmptyIff(thumbs, containerWidth, rows)
    && RowsFit(containerWidth, rows)
    && RowsBreak(thumbs, containerWidth, rows)
  }

  // ---------------------------------------------------------------------------
  // The pass itself.

  /**
   What holds after the first `k` thumbnails have been scanned: `rows` are the
   rows closed so far and `currentRow` the one being filled.
   */
  ghost predicate Scanned(thumbs: seq<Thumb>, containerWidth: real, k: nat,
                          rows: seq<Row>, currentRow: Row)
  {
    && ScannedPrefix(thumbs, k, rows, currentRow)
    && ScannedFirstRow(thumbs, containerWidth, k, rows)
    && RowsFit(containerWidth, rows + [currentRow])
    && ScannedBreaks(thumbs, containerWidth, rows)
  }

  /** The closed rows and the open row together hold the scanned thumbnails. */
  ghost predicate ScannedPrefix(thumbs: seq<Thumb>, k: nat, rows: seq<Row>, currentRow: Row)
  {
    && k <= |thumbs|
    && Flatten(rows) + currentRow == thumbs[..k]
    && (currentRow == [] <==> k == 0)
    && (|rows| > 0 ==> k > 0)
  }

  ghost predicate ScannedFirstRow(thumbs: seq<Thumb>, containerWidth: real, k: nat, rows: seq<Row>)
  {
    && k <= |thumbs|
    && EmptyOnlyFirst(rows)
    && (|rows| > 0 && k > 0 ==> (rows[0] == [] <==> Round(thumbs[0].width) as real > containerWidth))
    && (|rows| == 0 && k > 0 ==> Round(thumbs[0].width) as real <= containerWidth)
  }

  ghost predicate ScannedBreaks(thumbs: seq<Thumb>, containerWidth: real, rows: seq<Row>)
  {
    forall i :: 0 <= i < |rows| ==> OverflowsInto(thumbs, containerWidth, rows, i)
  }

  lemma {:induction false} ScannedInit(thumbs: seq<Thumb>, containerWidth: real)
    ensures Scanned(thumbs, containerWidth, 0, [], [])
  {
  }

  /** The next thumbnail overflows: the current row is closed and the thumbnail starts a new one. */
  lemma {:induction false} ScannedOverflow(thumbs: seq<Thumb>, containerWidth: real, k: nat,
                                           rows: seq<Row>, currentRow: Row)
    requires k < |thumbs| && Scanned(thumbs, containerWidth, k, rows, currentRow)
    requires Round(SumWidths(currentRow) + thumbs[k].width) as real > containerWidth
    ensures Scanned(thumbs, containerWidth, k + 1, rows + [currentRow], [thumbs[k]])
  {
    PrefixOverflow(thumbs, k, rows, currentRow);
    FirstRowOverflow(thumbs, containerWidth, k, rows, currentRow);
    FitOverflow(containerWidth, rows, currentRow, thumbs[k]);
    BreaksOverflow(thumbs, containerWidth, k, rows, currentRow);
  }

  lemma {:induction false} PrefixOverflow(thumbs: seq<Thumb>, k: nat, rows: seq<Row>, currentRow: Row)
    requires k < |thumbs| && ScannedPrefix(thumbs, k, rows, currentRow)
    ensures ScannedPrefix(thumbs, k + 1, rows + [currentRow], [thumbs[k]])
  {
    assert thumbs[..k + 1] == thumbs[..k] + [thumbs[k]];
    FlattenSnoc(rows, currentRow);
  }

  lemma {:induction false} FirstRowOverflow(thumbs: seq<Thumb>, containerWidth: real, k: nat,
                                            rows: seq<Row>, currentRow: Row)
    requires k < |thumbs| && ScannedPrefix(thumbs, k, rows, currentRow)
    requires ScannedFirstRow(thumbs, containerWidth, k, rows)
    requires Round(SumWidths(currentRow) + thumbs[k].width) as real > containerWidth
    ensures ScannedFirstRow(thumbs, containerWidth, k + 1, rows + [currentRow])
  {
    var rows' := rows + [currentRow];
    forall i | 0 < i < |rows'| ensures rows'[i] != [] {
      if i < |rows| { assert rows'[i] == rows[i]; }
    }
  }

  lemma {:induction false} FitOverflow(containerWidth: real, rows: seq<Row>, currentRow: Row, thumb: Thumb)
    requires RowsFit(containerWidth, rows + [currentRow])
    ensures RowsFit(containerWidth, rows + [currentRow] + [[thumb]])
  {
    var rows' := rows + [currentRow] + [[thumb]];
    forall i, j | 0 <= i < |rows'| && 2 <= j <= |rows'[i]|
      ensures Round(SumWidths(rows'[i][..j])) as real <= containerWidth
    {
      assert rows'[i] == (rows + [currentRow])[i];
    }
  }

  lemma {:induction false} BreaksOverflow(thumbs: seq<Thumb>, containerWidth: real, k: nat,
                                          rows: seq<Row>, currentRow: Row)
    requires k < |thumbs| && ScannedPrefix(thumbs, k, rows, currentRow)
    requires ScannedBreaks(thumbs, containerWidth, rows)
    requires Round(SumWidths(currentRow) + thumbs[k].width) as real > containerWidth
    ensures ScannedBreaks(thumbs, containerWidth, rows + [currentRow])
  {
    var rows' := rows + [currentRow];
    forall i | 0 <= i < |rows'| ensures OverflowsInto(thumbs, containerWidth, rows', i) {
      if i < |rows| {
        assert OverflowsInto(thumbs, containerWidth, rows, i);
        StartSnoc(rows, currentRow, i + 1);
        assert rows'[i] == rows[i];
      } else {
        FlattenSnoc(rows, currentRow);
        StartAll(rows');
      }
    }
  }

  /** The next thumbnail fits: it joins the current row. */
  lemma {:induction false} ScannedExtend(thumbs: seq<Thumb>, containerWidth: real, k: nat,
                                         rows: seq<Row>, currentRow: Row)
    requires k < |thumbs| && Scanned(thumbs, containerWidth, k, rows, currentRow)
    requires Round(SumWidths(currentRow) + thumbs[k].width) as real <= containerWidth
    ensures Scanned(thumbs, containerWidth, k + 1, rows, currentRow + [thumbs[k]])
  {
    assert thumbs[..k + 1] == thumbs[..k] + [thumbs[k]];
    FitExtend(containerWidth, rows, currentRow, thumbs[k]);
  }

  lemma {:induction false} FitExtend(containerWidth: real, rows: seq<Row>, currentRow: Row, thumb: Thumb)
    requires RowsFit(containerWidth, rows + [currentRow])
    requires Round(SumWidths(currentRow) + thumb.width) as real <= containerWidth
    ensures RowsFit(containerWidth, rows + [currentRow + [thumb]])
  {
    var row' := currentRow + [thumb];
    assert row'[..|currentRow|] == currentRow;
    forall i, j | 0 <= i < |rows + [row']| && 2 <= j <= |(rows + [row'])[i]|
      ensures Round(SumWidths((rows + [row'])[i][..j])) as real <= containerWidth
    {
      if i < |rows| {
        assert (rows + [row'])[i] == (rows + [currentRow])[i];
      } else if j <= |currentRow| {
        assert row'[..j] == currentRow[..j];
        assert (rows + [currentRow])[i] == currentRow;
      } else {
        assert row'[..j] == row';
      }
    }
  }

  /**
   The rows once the scan is over: a lone final thumbnail widened, an empty
   final row dropped. This is the function form of the last two statements of
   `Rebucket`, which are kept as statements there to follow the source; the
   proof about the finished scan is stated over this function.
   */
  function Closed(rows: seq<Row>, currentRow: Row, spacing: real): seq<Row>
  {
    var last := if |currentRow| == 1 then [Widen(currentRow[0], spacing)] else currentRow;
    if |last| > 0 then rows + [last] else rows
  }

  /** After the scan, closing the open row yields a row layout. */
  lemma {:induction false} ScannedFinish(thumbs: seq<Thumb>, containerWidth: real, spacing: real,
                                         rows: seq<Row>, currentRow: Row)
    requires Scanned(thumbs, containerWidth, |thumbs|, rows, currentRow)
    ensures IsRowLayout(thumbs, containerWidth, spacing, Closed(rows, currentRow, spacing))
  {
    assert thumbs[..|thumbs|] == thumbs;
    FinishCovers(thumbs, spacing, rows, currentRow);
    FinishFit(containerWidth, spacing, rows, currentRow);
    FinishBreaks(thumbs, containerWidth, spacing, rows, currentRow);
    var rows' := Closed(rows, currentRow, spacing);
    forall i | 0 < i < |rows'| ensures rows'[i] != [] {
      if i < |rows| { assert rows'[i] == rows[i]; }
    }
  }

  lemma {:induction false} FinishCovers(thumbs: seq<Thumb>, spacing: real, rows: seq<Row>, currentRow: Row)
    requires Flatten(rows) + currentRow == thumbs
    requires currentRow == [] ==> rows == []
    ensures Covers(thumbs, spacing, Closed(rows, currentRow, spacing))
  {
    if currentRow != [] {
      var last := if |currentRow| == 1 then [Widen(currentRow[0], spacing)] else currentRow;
      FlattenSnoc(rows, last);
      if |currentRow| == 1 {
        assert Flatten(rows) == thumbs[..|thumbs| - 1];
      }
    }
  }

  lemma {:induction false} FinishFit(containerWidth: real, spacing: real, rows: seq<Row>, currentRow: Row)
    requires RowsFit(containerWidth, rows + [currentRow])
    ensures RowsFit(containerWidth, Closed(rows, currentRow, spacing))
  {
    var rows' := Closed(rows, currentRow, spacing);
    forall i, j | 0 <= i < |rows'| && 2 <= j <= |rows'[i]|
      ensures Round(SumWidths(rows'[i][..j])) as real <= containerWidth
    {
      assert rows'[i] == (rows + [currentRow])[i];
    }
  }

  lemma {:induction false} FinishBreaks(thumbs: seq<Thumb>, containerWidth: real, spacing: real,
                                        rows: seq<Row>, currentRow: Row)
    requires ScannedBreaks(thumbs, containerWidth, rows)
    ensures RowsBreak(thumbs, containerWidth, Closed(rows, currentRow, spacing))
  {
    var rows' := Closed(rows, currentRow, spacing);
    forall i | 0 <= i < |rows'| - 1 ensures OverflowsInto(thumbs, containerWidth, rows', i) {
      assert OverflowsInto(thumbs, containerWidth, rows, i);
      if rows' != rows {
        StartSnoc(rows, rows'[|rows'| - 1], i + 1);
        assert rows'[i] == rows[i];
      }
    }
  }

  /**
   Walks the thumbnails with a running width, starting a new row whenever the
   rounded running width plus the next thumbnail would exceed the container,
   then widens a lone final thumbnail and keeps the final row if non-empty.
   */
  method Rebucket(thumbs: seq<Thumb>, containerWidth: real, spacing: real)
    returns (rows: seq<Row>)
    ensures Covers(thumbs, spacing, rows)
    ensures EmptyOnlyFirst(rows)
    ensures FirstRowEmptyIff(thumbs, containerWidth, rows)
    ensures RowsFit(containerWidth, rows)
    ensures RowsBreak(thumbs, containerWidth, rows)
  {
    rows := [];
    var currentRow: Row := [];
    var width := 0.0;
    ScannedInit(thumbs, containerWidth);
    for k := 0 to |thumbs|
      invariant width == SumWidths(currentRow)
      invariant Scanned(thumbs, containerWidth, k, rows, currentRow)
    {
      var thumb := thumbs[k];
      if Round(width + thumb.width) as real > containerWidth {
        ScannedOverflow(thumbs, containerWidth, k, rows, currentRow);
        rows := rows + [currentRow];
        currentRow := [];
        width := thumb.width;
        assert SumWidths([thumb]) == SumWidths([]) + thumb.width;
      } else {
        ScannedExtend(thumbs, containerWidth, k, rows, currentRow);
        width := width + thumb.width;
        assert (currentRow + [thumb])[..|currentRow|] == currentRow;
      }
      currentRow := currentRow + [thumb];
    }
    ScannedFinish(thumbs, containerWidth, spacing, rows, currentRow);
    if |currentRow| == 1 {
      currentRow := [Widen(currentRow[0], spacing)];
    }
    if |currentRow| > 0 {
      rows := rows + [currentRow];
    }
  }

  /**
   `getRowLayout`: asks the packer for thumbnails with the chosen search limit
   and a zero margin, then re-buckets them into rows.
   */
  method GetRowLayout(photos: seq<SizedPhoto>, containerWidth: real, columnsCount: int,
                      targetRowHeight: real, spacing: real,
                      findIdealNodeSearch: (real, real) -> int,
                      computeRowLayout: PackRequest -> seq<Thumb>)
    returns (rows: seq<Row>)
    ensures IsRowLayout(
              computeRowLayout(PackRequest(containerWidth,
                SearchLimit(columnsCount, containerWidth, targetRowHeight, findIdealNodeSearch),
                targetRowHeight, 0.0, photos)),
              containerWidth, spacing, rows)
  {
    var limitNodeSearch := SearchLimit(columnsCount, containerWidth, targetRowHeight,
                                       findIdealNodeSearch);
    var thumbs := computeRowLayout(PackRequest(containerWidth, limitNodeSearch,
                                               targetRowHeight, 0.0, photos));
    rows := Rebucket(thumbs, containerWidth, spacing);
  }
}
