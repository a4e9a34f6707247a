# image-collage layout, modelled in Dafny

This project models the layout arithmetic of `image-collage`. That is the
code in `src/index.js` that runs after the justified-layout packer has scaled
every photo to a thumbnail `{width, height, photo}`, and before anything is
drawn. It has four parts:

- **Search limit** (`RowLayout.SearchLimit`). This is the lookahead handed to
  the packer. A non-zero `columnsCount` wins. Otherwise the limit is 2 for a
  container narrower than 450, and `findIdealNodeSearch(containerWidth,
  targetRowHeight)` for a wider one.
- **Re-bucketing** (`RowLayout.Rebucket`, called by `RowLayout.GetRowLayout`).
  This walks the packer's flat list with a running width. It closes the
  current row as soon as `Math.round(width + thumb.width)` exceeds the
  container width, and the overflowing thumbnail then starts the next row. At
  the end, a final row that holds exactly one thumbnail has that thumbnail
  widened by `spacing`, and the final row is kept if it is non-empty. The
  method's postconditions are five predicates:
  - `Covers`: order and coverage; only the lone trailing thumbnail may change.
  - `EmptyOnlyFirst`: only the first row may be empty.
  - `FirstRowEmptyIff`: the first row is empty exactly when the first
    thumbnail alone rounds above the container width.
  - `RowsFit`: every prefix of two or more thumbnails of a row rounds to at
    most the container width.
  - `RowsBreak`: every row was closed on overflow.

  `RowLayoutFacts.LayoutUnique` proves that these five predicates together
  determine the rows completely.
- **Canvas size** (`Geometry.CanvasWidth`, `Geometry.CanvasHeight`). These
  use the closed-form sums of `getCanvasWidth` and `getCanvasHeight`. The
  canvas is not promised to contain every thumbnail. Instead, the functions'
  contracts give the exact room the canvas leaves beyond the first row's
  right edge, and beyond the bottom of the last row's first thumbnail (the
  height the y cursor advances by). With a positive spacing, that room is
  non-negative exactly when there are at most five thumbnails in the first
  row, or at most five rows. Rows are cut by width alone, so a row can mix
  heights; a thumbnail taller than its row's first, or a row wider than the
  first, can still reach past the canvas.
- **Positions** (`Geometry.GetPositions`). This uses the two cursors of
  `getPositions`. The method's contract gives the closed forms:
  - `x = (j+1)·spacing + widths before j`
  - `y = (i+1)·spacing + heights of the earlier rows`

  Lemmas prove the cursor recurrences, and that `y` strictly increases when
  heights are positive.

`Collage.LayoutCollage` chains these parts the way lines 81-84 of
`createCollage` do, with spacing 10 and target row height 300.
`Collage.GeometryDefinedIff` states when that chain reads only rows that
exist: the packer returned at least one thumbnail, and its first thumbnail
alone does not round above the container width. Otherwise the rows are empty
(`getCanvasWidth` reads `rows[0]`), or they begin with an empty row
(`getCanvasHeight` reads `row[0].height`).

Numbers are Dafny `real`s with exact arithmetic. `Math.round(v)` is
`(v + 0.5).Floor`, which is JavaScript's rounding (halves go up).
`Math.ceil(n / 2)` on a count is `(n + 1) / 2`.

The packer `computeRowLayout` and `findIdealNodeSearch` live in files that
are not part of this model. They appear as function-valued parameters, so
nothing is assumed about them. The packer receives a `PackRequest` record
with the same fields as the object literal at `src/index.js:15-21`.

Points where the code's behaviour is easy to misread:

- The overflow test rounds the unrounded running sum plus the next width
  (`src/index.js:28`); rounded widths are never added up.
- A first thumbnail that alone rounds above the container width closes the
  still-empty first row, so the result then begins with an empty row
  (`src/index.js:24-30`).
- `getCanvasHeight` on an empty row list returns `spacing`
  (`src/index.js:52-53`), so `Geometry.CanvasHeight` only requires every row to
  be non-empty.
- `columnsCount || limitNodeSearch` (`src/index.js:17`) follows JavaScript
  truthiness: any non-zero `columnsCount`, negative ones included, overrides
  the computed limit.

Helpers that model source lines without a row of their own below:
`Thumbs.SumWidths` and `Geometry.SumHeights` are the left-to-right `reduce`
sums of `src/index.js:48` and `src/index.js:53`, and `RowLayout.Closed` is
the final step of `src/index.js:38-41` in function form, over which
`RowLayout.ScannedFinish` is stated.

## Model

| member | source | states |
|---|---|---|
| `Thumbs.Round` | src/index.js:28 | `Math.round`: the result is the integer r with r - 1/2 <= v < r + 1/2 |
| `Thumbs.CeilHalf` | src/index.js:47 | `Math.ceil(n/2)` on a count: the r with n <= 2r <= n + 1 |
| `Thumbs.WidenLast` | src/index.js:38-39 | widening the final thumbnail changes only that thumbnail, and only its width, by the given amount |
| `RowLayout.SearchLimit` | src/index.js:9-17 | a non-zero `columnsCount` is the limit; otherwise the limit is 2 below a container width of 450 and `findIdealNodeSearch(containerWidth, targetRowHeight)` from 450 up |
| `RowLayout.ScannedOverflow` | src/index.js:28-31 | closing the current row when the rounded running width plus the next thumbnail exceeds the container, and starting a new row with that thumbnail, keeps the scan invariant (coverage, fit, break, first-row facts) |
| `RowLayout.ScannedExtend` | src/index.js:32-35 | appending a thumbnail that fits to the current row keeps the scan invariant |
| `RowLayout.ScannedFinish` | src/index.js:38-41 | after the scan, widening a lone final thumbnail by `spacing` and keeping a non-empty final row yields rows with all five layout guarantees |
| `RowLayout.Rebucket` | src/index.js:23-43 | the rows are the input in order, with no thumbnail lost or repeated, and only a lone trailing thumbnail is `spacing` wider; there are rows exactly when there are thumbnails; only the first row may be empty, and it is empty exactly when the first thumbnail alone rounds above the container width; every prefix of two or more thumbnails of a row rounds to at most the container width; every row was closed because the next input thumbnail would have overflowed it |
| `RowLayout.GetRowLayout` | src/index.js:8-44 | the rows are a re-bucketing, with all five guarantees, of exactly what the packer returns for the chosen search limit, a zero margin and the given photos |
| `RowLayoutFacts.RowOfLayout` | src/index.js:27-41 | in any such layout, row i is the slice of the packer's list between its start and the next row's start, except a lone last row, which is the last input thumbnail widened |
| `RowLayoutFacts.ThumbOfLayout` | src/index.js:35-40 | thumbnail j of row i is the packer's thumbnail at the same flat index; heights and photos are unchanged, and the width is unchanged except for a lone trailing thumbnail, which gains `spacing` |
| `RowLayoutFacts.RowNotShorter` | src/index.js:28-35 | two layouts whose row m starts at the same thumbnail give it in one no fewer thumbnails than in the other (so, by symmetry, the same length), because a row is closed only on overflow and every joining thumbnail fitted |
| `RowLayoutFacts.LayoutUnique` | src/index.js:23-43 | the five guarantees determine the rows: two row lists that satisfy them for the same input, container width and spacing are equal |
| `RowLayoutFacts.SingleThumbnailLayout` | src/index.js:24-41 | a single thumbnail becomes a lone last row, widened by `spacing`, preceded by an empty row exactly when it alone rounds above the container width |
| `Geometry.XRecurrence` | src/index.js:61-64 | the x cursor starts at `spacing` and advances by each thumbnail's width plus `spacing` |
| `Geometry.YRecurrence` | src/index.js:57-67 | the y cursor starts at `spacing` and advances by each row's first-thumbnail height plus `spacing` |
| `Geometry.YIncreasing` | src/index.js:57-67 | with positive heights and non-negative spacing, the y cursor strictly increases from row to row |
| `Geometry.GetPositions` | src/index.js:56-70 | positions have the shape of the rows; thumbnail j of row i sits at x = (j+1)·spacing + the widths before it, y = (i+1)·spacing + the heights of the rows before it |
| `Geometry.CanvasWidth` | src/index.js:46-48 | `getCanvasWidth` is the first row's widths plus `ceil(n/2)·spacing + 2·spacing` for a first row of n thumbnails; measured against the positions, an empty first row gives `2·spacing`, and otherwise the width exceeds the right edge of the first row's last thumbnail by exactly `(ceil(n/2) + 2 - n)·spacing` |
| `Geometry.RightEdge` | src/index.js:61-64 | the right edge of a row's last thumbnail is `n·spacing` plus the sum of the row's widths |
| `Geometry.FirstRowInsideIff` | src/index.js:46-48 | with a positive spacing, the first row's right edge lies inside the canvas width exactly when it has at most five thumbnails |
| `Geometry.CanvasHeight` | src/index.js:51-54 | `getCanvasHeight` is the sum of the rows' first-thumbnail heights plus `ceil(m/2)·spacing` plus a margin of `2·spacing` for more than one row, `spacing` otherwise; measured against the positions, no rows give `spacing`, and otherwise the height exceeds the last row's bottom edge by exactly `(ceil(m/2) + margin - m)·spacing`, margin 2 or 1 |
| `Geometry.BottomEdge` | src/index.js:57-67 | the bottom of the last row's first thumbnail (the code's measure of a row's height) is `m·spacing` plus the sum of the rows' first-thumbnail heights |
| `Geometry.LastRowInsideIff` | src/index.js:51-54 | with a positive spacing, the bottom of the last row's first thumbnail lies inside the canvas height exactly when there are at most five rows |
| `Geometry.TallerThumbnailOutside` | src/index.js:51-67 | a row of a 100-high thumbnail followed by a 300-high one, spacing 10, gets a canvas 120 high while the second thumbnail's bottom is at 310 |
| `Geometry.CanvasPositive` | src/index.js:46-54 | positive thumbnail sizes and a non-negative spacing give a canvas of positive width and height |
| `Collage.GeometryDefinedIff` | src/index.js:41-53 | for any row layout, every row (and at least one) exists for the canvas and position code exactly when the packer returned a thumbnail and the first one alone does not round above the container width |
| `Collage.LayoutCollage` | src/index.js:81-84 | with spacing 10 and target height 300, the rows carry all five layout guarantees for the packer's output, they are all non-empty, and the canvas size and positions are those of the rows |

## Left out

- Fetching sources (`getPhoto`), probing sizes (`image-size`), the concurrent
  `Promise.all` fan-out, canvas allocation, `drawImage` and `toBuffer` encoding
  (src/index.js:73-80, 86-98) are I/O and rendering. They are outside the
  layout arithmetic.
- `computeRowLayout` and `findIdealNodeSearch` (src/index.js:4-5) are not part
  of this model. They are function-valued parameters with no assumed
  behaviour.
- IEEE floating point is not modelled. Widths, heights and sums are exact
  reals, so rounding drift in the running sum is not captured.
- The mutation `currentRow[0].width += spacing` also changes the object that
  the packer's list holds. The model returns a new thumbnail value instead,
  because nothing reads the packer's list afterwards.
- `getCanvasWidth` on an empty row list, and `getCanvasHeight` and
  `getPositions` on a list with an empty row, throw a `TypeError` in
  JavaScript. These cases are excluded by `requires` rather than modelled as
  errors. `Collage.GeometryDefinedIff` says exactly when they arise.
- Canvas containment is not stated, because the code does not promise it.
  `Geometry.FirstRowInsideIff` and `Geometry.LastRowInsideIff` state exactly
  when the first row's right edge and the bottom of the last row's first
  thumbnail lie inside. The code sizes the canvas by the first row's width and
  each row's first height only, so a row wider than the first or a thumbnail
  taller than its row's first can still fall outside
  (`Geometry.TallerThumbnailOutside`).
- The commented-out alternative x start (src/index.js:60) is not modelled.
- The default arguments `targetRowHeight = 300` and `spacing = 0` are not
  modelled. Every caller passes these values explicitly here.
