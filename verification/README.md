# Homogeneous-coordinate geometry kernel: canvas, matrix and tuple model

This project models three small, exact pieces of a Rust geometry kernel that sits
under a ray tracer. Each piece is stated over Dafny `real` in place of `f64`.

- **Canvas** (`src/canvas.rs`). A `height × width` grid of pixels. `new` fills it
  with black. `(row, col)` indexing reads and writes one pixel. `to_ppm` writes
  the PPM-style text: the header `P6`, then `width height`, then `255`, then one
  line per row holding the colour strings separated by single spaces, with the
  rows joined by newlines and one trailing newline.
  The model is module `Canvases`. `ToPpm` follows the code's loop step by step:
  each cell gets a space after it unless its index is `width - 1`. `PpmText` is
  the reference layout: the header, then each row's colour strings joined by
  spaces, then the rows joined by newlines. The method is proved to produce
  exactly the reference text. The lemmas about `PpmText` give its line structure,
  its field structure and the dimensions as they read back.
- **Matrix** (`src/matrix.rs`). `new(rows, columns)` panics unless both are at
  least one; otherwise it gives a zero-filled grid. `(i, j)` indexing reads and
  writes one entry. The model is module `Matrices`. The panic becomes a
  `Failure(InvalidDimensions)` result.
- **Tuples** (`src/point.rs`, `src/vector.rs`, and the tests in `src/lib.rs`).
  A point or vector is one 4-tuple `(x, y, z, w)`. `build_point` sets `w = 1`,
  `build_vector` sets `w = 0`, and `is_point` is `w == 1`. The operators `+`,
  `-`, unary `-`, `* k`, `/ k` and `dot` act as the tests in `src/lib.rs`
  require. `dot` fails when its receiver is a point. The model is module
  `Tuples`.

Shared pieces:
- `Grid` holds the rectangular `seq<seq<T>>` that both `Vec<Vec<_>>` fields are.
  It provides fill-with-a-value and single-cell update with its frame property.
- `Text` holds decimal rendering of `usize`, `join` and its inverse, split.
  The round-trip lemmas live there.
- `Wrappers` holds the failure result.

How the code's choices are modelled:
- The colour-to-text conversion is not part of this model. Every serialisation
  member takes it as a parameter `show: Color -> string`. The serialiser and
  `PpmTextIsJoinedLines` hold for any conversion. The line layout `PpmLines`
  holds for any conversion whose strings contain no newline.
  `RowFieldsAreColors` also needs them to contain no space.
- The real conversion writes three numbers separated by spaces (the expected
  output in `src/canvas.rs:110-113` has three numbers per pixel). So the row
  theorem `RowFields` (for width ≥ 1) splits each colour string into its own pieces rather than
  assuming colour strings contain no spaces.
- When the canvas has no rows, the joined body is the empty string. The output
  is then the header followed by one lone newline. `PpmLines` shows this as a
  single empty body line.
- The canvas writes the tag `P6`, which Netpbm reserves for binary pixel data,
  above a plain-text body. The tests fix the tag as `P6`, so the model keeps it.
- The operators of the tuple type are not in `src/point.rs` or `src/vector.rs`.
  `src/lib.rs` imports `build_point` from the vector module, which does not
  define it. The tests in `src/lib.rs` are the only statement of the operators,
  and the model defines them to meet those tests. All four components take part,
  `w` included, so the point/vector tag follows the arithmetic. `Dot` includes
  the `w·w` term. For a vector receiver this term is zero, and `Dot`'s contract
  states the three-component sum.

## Model

| member | source | states |
|---|---|---|
| Canvases.New | src/canvas.rs:13-20 | a new canvas has the requested height and width, exactly `height` rows of `width` pixels, and every pixel black |
| Canvases.Get | src/canvas.rs:53-55 | `canvas[(row, col)]` is defined exactly where the nested `Vec`s are, which on a valid canvas means row < height and col < width |
| Canvases.Set | src/canvas.rs:58-62 | writing one pixel keeps width, height and the shape of the pixel rows, so the canvas invariant survives |
| Canvases.InBoundsIffBelowDimensions | src/canvas.rs:50-62 | on a valid canvas, indexing does not panic exactly when row < height and col < width |
| Canvases.GetAfterSet | src/canvas.rs:50-62 | reading a pixel just written returns that pixel |
| Canvases.GetAfterSetOther | src/canvas.rs:58-62 | writing one pixel leaves every other pixel unchanged |
| Canvases.WritingPixelsExample | src/canvas.rs:83-97 | the four writes of the test read back as written |
| Canvases.PpmText | src/canvas.rs:23-47 | the output starts with the header `P6\n<width> <height>\n255\n` and ends with a newline |
| Canvases.ToPpm | src/canvas.rs:23-47 | the loop that appends a space after every cell except the one at index width − 1, followed by the newline join, produces exactly the reference layout |
| Canvases.PpmTextIsJoinedLines | src/canvas.rs:26-46 | the output is the header lines, then the body lines, then an empty last piece, joined by newlines |
| Canvases.PpmLines | src/canvas.rs:26-46 | when no colour string contains a newline: split at newlines, the output is exactly `P6`, `<width> <height>`, `255`, then one line per row in row order (one empty line when height is 0), then the empty remainder after the single final newline |
| Canvases.RowFields | src/canvas.rs:31-44 | for width ≥ 1: split at spaces, row i's line is the pieces of its pixels' colour strings in column order: one space between neighbours and none after the last |
| Canvases.RowFieldsAreColors | src/canvas.rs:31-44 | when colour strings have no spaces, the fields of row i are exactly its pixels' colour strings in column order |
| Canvases.HeaderDimensions | src/canvas.rs:27 | the dimensions line splits into two digit strings that read back as width and height |
| Canvases.EmptyCanvasText | src/canvas.rs:46 | a canvas with no rows serialises to the header plus one lone newline |
| Canvases.PpmTextDependsOnColors | src/canvas.rs:23-47 | two valid canvases with equal dimensions and equal pixel colours serialise identically |
| Grid.Fill | src/canvas.rs:14 | `vec![vec![v; cols]; rows]` is rows × cols with v in every cell |
| Grid.Update | src/matrix.rs:26-29 | a cell write keeps the grid's shape, stores the value and leaves every other cell unchanged |
| Grid.UpdateKeepsRect | src/canvas.rs:58-61 | a rectangular grid stays rectangular with the same dimensions after a cell write |
| Text.NatToString | src/canvas.rs:27 | `to_string` of a count is a non-empty digit string with no leading zero |
| Text.ParseNatToString | src/canvas.rs:27 | the decimal rendering reads back as the same number |
| Text.NatToStringInjective | src/canvas.rs:27 | different dimensions render differently |
| Text.Join | src/canvas.rs:46 | `join` of n ≥ 1 parts adds exactly n − 1 separator characters to the parts' total length, and starts with the first part |
| Text.Split | src/canvas.rs:46 | the inverse view of `join`: cutting text at every separator always yields at least one piece, keeping an empty last piece after a final separator |
| Text.JoinSnoc | src/canvas.rs:36-43 | appending one more cell to a joined row adds exactly one separator before it |
| Text.JoinAppend | src/canvas.rs:46 | joining two non-empty lists puts exactly one separator between them |
| Text.SplitAtSeparator | src/canvas.rs:46 | a separator cuts the text into the pieces on either side of it |
| Text.SplitJoinFlat | src/canvas.rs:46 | splitting a joined list gives the pieces of each part, in order |
| Text.SplitJoin | src/canvas.rs:46 | join then split is the identity on lists of separator-free parts |
| Text.JoinSplit | src/canvas.rs:46 | split then join is the identity on every string |
| Text.JoinAvoids | src/canvas.rs:33-43 | a character that is neither the separator nor in any part does not occur in the join |
| Matrices.New | src/matrix.rs:9-16 | fails with InvalidDimensions exactly when rows < 1 or columns < 1; otherwise a rows × columns matrix with every entry 0 |
| Matrices.Get | src/matrix.rs:21-23 | `m[(i, j)]` is defined exactly where the nested `Vec`s are, which on a rows × columns matrix means i < rows and j < columns |
| Matrices.Set | src/matrix.rs:26-30 | writing an entry keeps the matrix's shape, so any rows × columns shape it had survives |
| Matrices.InBoundsIffBelowShape | src/matrix.rs:18-29 | on a rows × columns matrix, indexing does not panic exactly when i < rows and j < columns |
| Matrices.GetAfterSet | src/matrix.rs:18-29 | reading an entry just written returns the written value |
| Matrices.GetAfterSetOther | src/matrix.rs:26-29 | writing one entry leaves every other entry unchanged |
| Matrices.SetOwnValue | src/matrix.rs:26-29 | writing back the value an entry already holds changes nothing |
| Matrices.SetTwice | src/matrix.rs:26-29 | a second write to the same entry overrides the first |
| Matrices.SetCommutes | src/matrix.rs:26-29 | writes to different entries can be done in either order |
| Matrices.NewMatrixExample | src/matrix.rs:36-42 | a new 4 × 4 matrix with (0, 0) set to 1 reads 1 there |
| Tuples.IsPoint | src/lib.rs:10-42 | `is_point` holds exactly when w = 1, so a point is never also a vector |
| Tuples.BuildPoint | src/point.rs:8-15 | a built point is a point, not a vector, and holds x, y, z exactly as given |
| Tuples.BuildVector | src/vector.rs:8-15 | a built vector is a vector, never a point, and holds x, y, z exactly as given |
| Tuples.Add | src/lib.rs:16-37 | point + vector and vector + point are points, vector + vector is a vector, point + point is neither |
| Tuples.Sub | src/lib.rs:59-88 | point − point is a vector, point − vector a point, vector − vector a vector |
| Tuples.Neg | src/lib.rs:90-99 | negation keeps a tuple a vector exactly when it was one, and a negated point is not a point |
| Tuples.Scale | src/lib.rs:101-121 | a scaled vector is a vector |
| Tuples.Div | src/lib.rs:123-143 | a vector divided by a non-zero scalar is a vector |
| Tuples.Dot | src/lib.rs:175-190 | fails exactly when the receiver is a point; for a vector receiver it is x·x′ + y·y′ + z·z′ |
| Tuples.SquaredMagnitude | src/lib.rs:145-158 | the squared length x² + y² + z² is never negative |
| Tuples.AddThenSub | src/lib.rs:16-76 | (a + b) − b = a |
| Tuples.SubThenAdd | src/lib.rs:16-76 | (a − b) + b = a |
| Tuples.AddCommutes | src/lib.rs:16-26 | a + b = b + a, which is why point + vector and vector + point agree |
| Tuples.SubAntisymmetric | src/lib.rs:59-76 | p1 − p2 is the componentwise negation of p2 − p1 |
| Tuples.ZeroMinus | src/lib.rs:78-88 | the zero vector minus v is −v and is a vector |
| Tuples.NegNeg | src/lib.rs:90-99 | negating twice gives back the tuple |
| Tuples.DivAfterScale | src/lib.rs:101-143 | (v * k) / k = v for k ≠ 0 |
| Tuples.ScaleAfterDiv | src/lib.rs:101-143 | (v / k) * k = v for k ≠ 0 |
| Tuples.DivIsScaleByInverse | src/lib.rs:112-143 | dividing by k is scaling by 1/k, which is why v / 2 and v * 0.5 give the same vector in the tests |
| Tuples.DotSymmetric | src/lib.rs:175-182 | the dot product of two vectors does not depend on their order |
| Tuples.DotSelfIsSquaredMagnitude | src/lib.rs:145-182 | a vector dotted with itself is its squared magnitude |
| Tuples.DotLinear | src/lib.rs:175-182 | the dot product with a vector receiver is linear in its argument |
| Tuples.BuiltTuplesExample | src/lib.rs:10-57 | the origin point is a point, the zero vector is not, and (−1.7, 3.5, 0.2) is stored exactly |
| Tuples.AdditionExample | src/lib.rs:16-37 | the two addition tests give (2, 2, 2) as a point and (4, 4, 4) as a vector |
| Tuples.SubtractionExample | src/lib.rs:59-99 | the subtraction and negation tests give the expected vectors |
| Tuples.ScalingExample | src/lib.rs:101-121 | v*3 and v*0.5 give the expected vectors |
| Tuples.DivisionExample | src/lib.rs:123-143 | v/2 and v/0.5 give the expected vectors |
| Tuples.UnitMagnitudeExample | src/lib.rs:145-155 | the unit vectors (0, 0, 1), (0, 1, 0) and (1, 0, 0) of the magnitude test have squared magnitude 1 |
| Tuples.MagnitudeExample | src/lib.rs:145-158 | the test vectors (3, 4, 5) and (−3, −4, −5) have squared magnitude 50 |
| Tuples.DotExample | src/lib.rs:175-190 | (1, 2, 3)·(2, 3, 4) = 20, and dot with a point receiver fails |

## Left out

- Floating point: components are `real`. There is no rounding, NaN or infinity. The tests' `approx_eq` with a tolerance is read as exact equality.
- Tuples.Div: requires k ≠ 0. Division of an `f64` by zero gives infinities or NaN, which `real` cannot represent.
- `magnitude` and `normalized` (`src/lib.rs:145-173`): they need a square root. Only the squared magnitude is modelled, and unit length after normalising is not claimed.
- Tuples.SquaredMagnitude: the contract states only that the value is never negative. That it is zero only for a zero x, y, z part is not proved here; it needs the step that x² + y² + z² = 0 forces each square to 0.
- Text.Split: it is `split` at a separator, not the `lines()` the canvas test uses to read the output; it keeps the empty piece after a final newline, where `lines()` yields none, and it yields one empty piece for the empty string, where `lines()` yields nothing.
- `src/color.rs` defines no string conversion for `Color`: its `impl Color {}` is empty. So the conversion `to_ppm` calls is the parameter `show`, and the concrete numbers in the expected output at `src/canvas.rs:110-113` are not proved.
- `src/color.rs` and `src/pixel.rs` only wrap fields. They appear as the plain datatypes `Color(r, g, b)` and `Pixel(color)`.
- `src/matrix.rs` defines only `new` and `(i, j)` indexing; no other matrix operation is modelled. No cross product appears in `src/lib.rs`, so none is modelled.
- `Point` and `Vector` are two structs in the source. They become one `Tuple` type, since the operators must mix them and only `w` tells them apart.
- `usize` is `nat`. Widths and heights have no upper bound. The expression `width - 1` in `to_ppm` cannot underflow in the model or in the code, because it is only evaluated for a pixel, and a row has pixels only when width ≥ 1.
- Out-of-bounds indexing panics in the source. Here it is a precondition on the `Vec` bounds.
- Rust mechanics are not modelled: `to_ppm` taking `self` by move, the `Clone` and `Debug` derives, `extern crate` and module wiring.
