/**
 Thumbnails as the row packer hands them over, and the arithmetic the
 layout code does on them: JavaScript's `Math.round`, running sums of widths
 and heights, and the flattening of a row list back into one sequence.
 */
module Thumbs {

  /** The already-resolved image data a thumbnail refers to; never inspected. */
  type Photo = seq<bv8>

  /** A scaled thumbnail `{width, height, photo}` produced by the packer. */
  datatype Thumb = Thumb(width: real, height: real, photo: Photo)

  type Row = seq<Thumb>

  /** JavaScript `Math.round`: the nearest integer, halves rounded up. */
  function Round(v: real): (r: int)
    ensures r as real - 0.5 <= v < r as real + 0.5
  {
    (v + 0.5).Floor
  }

  /** `Math.ceil(n / 2)` on a non-negative integer count. */
  function CeilHalf(n: nat): (r: nat)
    ensures n <= 2 * r <= n + 1
  {
    (n + 1) / 2
  }

  /** Left-to-right sum of the widths, as `reduce((w, e) => w + e.width, 0)` accumulates it. */
  function SumWidths(row: Row): real
  {
    if row == [] then 0.0 else SumWidths(row[..|row| - 1]) + row[|row| - 1].width
  }

  /** Adding one more thumbnail to a prefix adds its width to the sum. */
  lemma SumWidthsStep(row: Row, j: nat)
    requires j < |row|
    ensures SumWidths(row[..j + 1]) == SumWidths(row[..j]) + row[j].width
  {
    assert row[..j + 1][..j] == row[..j];
  }

  lemma {:induction false} SumWidthsPositive(row: Row)
    requires forall k :: 0 <= k < |row| ==> row[k].width > 0.0
    ensures row != [] ==> SumWidths(row) > 0.0
    ensures SumWidths(row) >= 0.0
  {
    if row != [] {
      SumWidthsPositive(row[..|row| - 1]);
    }
  }

  /** The rows laid end to end, in order. */
  function Flatten(rows: seq<Row>): seq<Thumb>
  {
    if rows == [] then [] else Flatten(rows[..|rows| - 1]) + rows[|rows| - 1]
  }

  lemma FlattenSnoc(rows: seq<Row>, row: Row)
    ensures Flatten(rows + [row]) == Flatten(rows) + row
  {
    assert (rows + [row])[..|rows|] == rows;
  }

  lemma {:induction false} FlattenAppend(a: seq<Row>, b: seq<Row>)
    ensures Flatten(a + b) == Flatten(a) + Flatten(b)
    decreases |b|
  {
    if b != [] {
      var b' := b[..|b| - 1];
      var last := b[|b| - 1];
      assert a + b == (a + b') + [last];
      assert b == b' + [last];
      FlattenSnoc(a + b', last);
      FlattenSnoc(b', last);
      FlattenAppend(a, b');
    } else {
      assert a + b == a;
    }
  }

  /** Index, in the flattened sequence, at which row `i` begins. */
  function Start(rows: seq<Row>, i: nat): nat
    requires i <= |rows|
  {
    |Flatten(rows[..i])|
  }

  /**
   Row `i` is exactly the slice of the flattened rows between its start and
   the next row's start.
   */
  lemma RowIsSlice(rows: seq<Row>, i: nat)
    requires i < |rows|
    ensures Start(rows, i + 1) == Start(rows, i) + |rows[i]|
    ensures Start(rows, i + 1) <= |Flatten(rows)|
    ensures Flatten(rows)[Start(rows, i)..Start(rows, i + 1)] == rows[i]
  {
    assert rows[..i + 1] == rows[..i] + [rows[i]];
    FlattenSnoc(rows[..i], rows[i]);
    assert rows == rows[..i + 1] + rows[i + 1..];
    FlattenAppend(rows[..i + 1], rows[i + 1..]);
  }

  lemma StartAll(rows: seq<Row>)
    ensures Start(rows, |rows|) == |Flatten(rows)|
  {
    assert rows[..|rows|] == rows;
  }

  /** Later rows start no earlier. */
  lemma StartMonotone(rows: seq<Row>, a: nat, b: nat)
    requires a <= b <= |rows|
    ensures Start(rows, a) <= Start(rows, b)
  {
    assert rows[..b] == rows[..a] + rows[a..b];
    FlattenAppend(rows[..a], rows[a..b]);
  }

  /** The start of row `i` depends only on the rows before it. */
  lemma StartPrefix(r1: seq<Row>, r2: seq<Row>, i: nat)
    requires i <= |r1| && i <= |r2| && r1[..i] == r2[..i]
    ensures Start(r1, i) == Start(r2, i)
  {
  }

  /** The start of row `i` does not move when further rows are appended. */
  lemma StartSnoc(rows: seq<Row>, row: Row, i: nat)
    requires i <= |rows|
    ensures Start(rows + [row], i) == Start(rows, i)
  {
    assert (rows + [row])[..i] == rows[..i];
  }

  /** A thumbnail whose width has grown by `extra`; height and photo are kept. */
  function Widen(t: Thumb, extra: real): (r: Thumb)
    ensures r.width == t.width + extra && r.height == t.height && r.photo == t.photo
  {
    t.(width := t.width + extra)
  }

  /** The sequence with its final thumbnail widened by `extra`, every other one unchanged. */
  function WidenLast(s: seq<Thumb>, extra: real): (r: seq<Thumb>)
    requires s != []
    ensures |r| == |s|
    ensures r[..|s| - 1] == s[..|s| - 1]
    ensures r[|s| - 1] == Widen(s[|s| - 1], extra)
  {
    s[..|s| - 1] + [Widen(s[|s| - 1], extra)]
  }
}
