/**
 Consequences of the guarantees of the re-bucketing pass: where each row sits
 in the packer's output, which thumbnails are changed, and that the guarantees
 pin the output down, so two row lists that both satisfy them for the same
 thumbnails, container width and spacing are the same list. The properties
 stated for `RowLayout.Rebucket` are thus a complete description of what
 `getRowLayout` does after packing.
 */
module RowLayoutFacts {
  import opened Thumbs
  import opened RowLayout

  /**
   Where row `i` of a row layout sits in the input: rows start and end inside
   the thumbnail list, and every row is the matching slice of it, except a lone
   final thumbnail, which is the last input thumbnail widened.
   */
  lemma {:induction false} RowOfLayout(thumbs: seq<Thumb>, containerWidth: real, spacing: real,
                                       rows: seq<Row>, i: nat)
    requires IsRowLayout(thumbs, containerWidth, spacing, rows)
    requires i < |rows|
    ensures Start(rows, i + 1) == Start(rows, i) + |rows[i]| <= |thumbs|
    ensures Start(rows, |rows|) == |thumbs|
    ensures LoneLast(rows) && i == |rows| - 1 ==>
              Start(rows, i) == |thumbs| - 1 && rows[i] == [Widen(thumbs[|thumbs| - 1], spacing)]
    ensures !(LoneLast(rows) && i == |rows| - 1) ==>
              rows[i] == thumbs[Start(rows, i)..Start(rows, i + 1)]
  {
    RowIsSlice(rows, i);
    StartAll(rows);
    var n := |thumbs|;
    if LoneLast(rows) {
      var w := WidenLast(thumbs, spacing);
      assert Flatten(rows) == w;
      RowIsSlice(rows, |rows| - 1);
      if i == |rows| - 1 {
        assert w[n - 1..n] == [w[n - 1]];
      } else {
        StartMonotone(rows, i + 1, |rows| - 1);
        assert w[Start(rows, i)..Start(rows, i + 1)] == w[..n - 1][Start(rows, i)..Start(rows, i + 1)];
        assert thumbs[Start(rows, i)..Start(rows, i + 1)]
            == thumbs[..n - 1][Start(rows, i)..Start(rows, i + 1)];
      }
    }
  }

  /**
   Thumbnail `j` of row `i` is the packer's thumbnail at the same place in the
   flat list, untouched, except that a lone thumbnail in the final row is
   `spacing` wider; heights and photos never change.
   */
  lemma {:induction false} ThumbOfLayout(thumbs: seq<Thumb>, containerWidth: real, spacing: real,
                                         rows: seq<Row>, i: nat, j: nat)
    requires IsRowLayout(thumbs, containerWidth, spacing, rows)
    requires i < |rows| && j < |rows[i]|
    ensures Start(rows, i) + j < |thumbs|
    ensures rows[i][j] == if LoneLast(rows) && i == |rows| - 1
                          then Widen(thumbs[Start(rows, i) + j], spacing)
                          else thumbs[Start(rows, i) + j]
  {
    RowOfLayout(thumbs, containerWidth, spacing, rows, i);
  }

  /** A row starts before the end of the input unless it is empty. */
  lemma {:induction false} NonEmptyRowStartsInside(thumbs: seq<Thumb>, containerWidth: real,
                                                   spacing: real, rows: seq<Row>, i: nat)
    requires IsRowLayout(thumbs, containerWidth, spacing, rows)
    requires i < |rows| && rows[i] != []
    ensures Start(rows, i) < |thumbs|
  {
    RowOfLayout(thumbs, containerWidth, spacing, rows, i);
  }

  /**
   Two row layouts whose row `m` starts at the same thumbnail give that row the
   same length: a shorter row would have been closed although the next
   thumbnail fitted, or would not reach the end of the input.
   */
  lemma {:induction false} RowNotShorter(thumbs: seq<Thumb>, containerWidth: real, spacing: real,
                                         r1: seq<Row>, r2: seq<Row>, m: nat)
    requires IsRowLayout(thumbs, containerWidth, spacing, r1)
    requires IsRowLayout(thumbs, containerWidth, spacing, r2)
    requires m < |r1| && m < |r2| && Start(r1, m) == Start(r2, m)
    ensures |r1[m]| >= |r2[m]|
  {
    if |r1[m]| < |r2[m]| {
      var s := Start(r1, m);
      var l1 := |r1[m]|;
      RowOfLayout(thumbs, containerWidth, spacing, r1, m);
      RowOfLayout(thumbs, containerWidth, spacing, r2, m);
      if l1 == 0 {
        assert false;
      } else if m == |r1| - 1 {
        assert false;
      } else {
        assert OverflowsInto(thumbs, containerWidth, r1, m);
        assert r1[m] == thumbs[s..s + l1];
        assert r2[m] == thumbs[s..Start(r2, m + 1)];
        assert r2[m][..l1] == r1[m];
        assert r2[m][l1] == thumbs[s + l1];
        SumWidthsStep(r2[m], l1);
        assert false;
      }
    }
  }

  /** Two row layouts of the same input agree on their first `m` rows. */
  lemma {:induction false} LayoutPrefixUnique(thumbs: seq<Thumb>, containerWidth: real, spacing: real,
                                              r1: seq<Row>, r2: seq<Row>, m: nat)
    requires IsRowLayout(thumbs, containerWidth, spacing, r1)
    requires IsRowLayout(thumbs, containerWidth, spacing, r2)
    requires m <= |r1| && m <= |r2|
    ensures r1[..m] == r2[..m]
  {
    if m > 0 {
      var i := m - 1;
      LayoutPrefixUnique(thumbs, containerWidth, spacing, r1, r2, i);
      StartPrefix(r1, r2, i);
      RowNotShorter(thumbs, containerWidth, spacing, r1, r2, i);
      RowNotShorter(thumbs, containerWidth, spacing, r2, r1, i);
      RowOfLayout(thumbs, containerWidth, spacing, r1, i);
      RowOfLayout(thumbs, containerWidth, spacing, r2, i);
      if LoneLast(r1) && i == |r1| - 1 {
        LoneRowIsLast(thumbs, containerWidth, spacing, r2, i);
      } else if LoneLast(r2) && i == |r2| - 1 {
        LoneRowIsLast(thumbs, containerWidth, spacing, r1, i);
      }
      assert r1[i] == r2[i];
      assert r1[..m] == r1[..i] + [r1[i]];
      assert r2[..m] == r2[..i] + [r2[i]];
    }
  }

  /** A one-thumbnail row that starts at the last input thumbnail is the final row. */
  lemma {:induction false} LoneRowIsLast(thumbs: seq<Thumb>, containerWidth: real, spacing: real,
                                         rows: seq<Row>, i: nat)
    requires IsRowLayout(thumbs, containerWidth, spacing, rows)
    requires i < |rows| && |rows[i]| == 1 && Start(rows, i) == |thumbs| - 1
    ensures i == |rows| - 1 && LoneLast(rows)
  {
    RowOfLayout(thumbs, containerWidth, spacing, rows, i);
    if i < |rows| - 1 {
      RowOfLayout(thumbs, containerWidth, spacing, rows, i + 1);
      assert false;
    }
  }

  /** The guarantees of the re-bucketing pass determine its result. */
  lemma {:induction false} LayoutUnique(thumbs: seq<Thumb>, containerWidth: real, spacing: real,
                                        r1: seq<Row>, r2: seq<Row>)
    requires IsRowLayout(thumbs, containerWidth, spacing, r1)
    requires IsRowLayout(thumbs, containerWidth, spacing, r2)
    ensures r1 == r2
  {
    if |r1| < |r2| {
      LongerLayoutImpossible(thumbs, containerWidth, spacing, r1, r2);
    } else if |r2| < |r1| {
      LongerLayoutImpossible(thumbs, containerWidth, spacing, r2, r1);
    } else {
      LayoutPrefixUnique(thumbs, containerWidth, spacing, r1, r2, |r1|);
      assert r1 == r1[..|r1|] && r2 == r2[..|r2|];
    }
  }

  lemma {:induction false} LongerLayoutImpossible(thumbs: seq<Thumb>, containerWidth: real,
                                                  spacing: real, r1: seq<Row>, r2: seq<Row>)
    requires IsRowLayout(thumbs, containerWidth, spacing, r1)
    requires IsRowLayout(thumbs, containerWidth, spacing, r2)
    ensures |r2| <= |r1|
  {
    if |r1| < |r2| {
      var m := |r1|;
      if m > 0 {
        LayoutPrefixUnique(thumbs, containerWidth, spacing, r1, r2, m);
        StartPrefix(r1, r2, m);
        RowOfLayout(thumbs, containerWidth, spacing, r1, m - 1);
        NonEmptyRowStartsInside(thumbs, containerWidth, spacing, r2, m);
        assert false;
      }
    }
  }

  /**
   A single thumbnail ends up alone in the last row, widened by the spacing;
   when on its own it rounds to more than the container width, an empty row
   comes before it.
   */
  lemma {:induction false} SingleThumbnailLayout(t: Thumb, containerWidth: real, spacing: real,
                                                 rows: seq<Row>)
    requires IsRowLayout([t], containerWidth, spacing, rows)
    ensures rows == if Round(t.width) as real > containerWidth
                    then [[], [Widen(t, spacing)]]
                    else [[Widen(t, spacing)]]
  {
    if Round(t.width) as real > containerWidth {
      SingleOverflowing(t, containerWidth, spacing);
      LayoutUnique([t], containerWidth, spacing, rows, [[], [Widen(t, spacing)]]);
    } else {
      SingleFitting(t, containerWidth, spacing);
      LayoutUnique([t], containerWidth, spacing, rows, [[Widen(t, spacing)]]);
    }
  }

  lemma {:induction false} SingleFitting(t: Thumb, containerWidth: real, spacing: real)
    requires Round(t.width) as real <= containerWidth
    ensures IsRowLayout([t], containerWidth, spacing, [[Widen(t, spacing)]])
  {
    var w := Widen(t, spacing);
    var rows: seq<Row> := [[w]];
    assert rows == [] + [[w]];
    FlattenSnoc([], [w]);
    assert WidenLast([t], spacing) == [w];
  }

  lemma {:induction false} SingleOverflowing(t: Thumb, containerWidth: real, spacing: real)
    requires Round(t.width) as real > containerWidth
    ensures IsRowLayout([t], containerWidth, spacing, [[], [Widen(t, spacing)]])
  {
    var w := Widen(t, spacing);
    var empty: seq<Row> := [[]];
    var rows: seq<Row> := [[], [w]];
    assert empty == [] + empty;
    FlattenSnoc([], []);
    assert rows == empty + [[w]];
    FlattenSnoc(empty, [w]);
    assert WidenLast([t], spacing) == [w];
    assert rows[..1] == empty;
    assert Start(rows, 1) == 0;
    assert OverflowsInto([t], containerWidth, rows, 0);
  }
}
