# MiniRenderer core in Dafny

A model of the core of MiniRenderer, a small CPU rasteriser written in C++,
with proofs about it. Floats are ideal reals: there is no rounding, no NaN and
no infinity. `int` is unbounded except where the source converts a `size_t`
to `int`.

The model has seven modules.

- `Geometry` (`geometry.dfy`) is the fixed-size vector and matrix kernel of
  `include/util/geometry.h`. It covers the dot product, `+`, `-`, scalar `*`
  and `/`, `embed`, `projection`, `cross` and `round`. For matrices it covers
  `column`, `set_column`, `identity`, `get_minor`, `cofactor`, the recursive
  Laplace `det`, `adjugate`, `transpose`, `invert_transpose`, `invert`,
  matrix·vector, matrix·matrix and matrix/scalar. The main results are:
  - the divisor of `invert_transpose` is the determinant;
  - for 2×2 and 3×3 matrices with a nonzero determinant, `invert()` is a
    two-sided inverse.
- `Graphics` (`graphics.dfy`) is `src/graphics.cpp`.
  - The global `View`, `Projection` and `Viewport` matrices are the fields of
    a `Transforms` object. `viewport`, `projection` and `lookat` are its
    methods.
  - `barycentric` is a function with its degenerate-area sentinel.
  - `triangle` is an imperative method over a z-buffer `array<real>` and an
    `Image` class. `Image` is a width×height array of colours.
  - The shader is a function parameter: it takes the barycentric weights and
    gives back (discard, colour). This follows the two-argument call in
    `triangle`.
- `DynamicMatrix` (`dynamic_matrix.dfy`) is the run-time-sized `Matrix` of
  `src/util/geometry.cpp`. It covers the zero constructor, `identity`,
  `transpose`, `operator*` and the Gauss–Jordan `inverse`. `inverse` works on
  the augmented matrix by the source's loops. A ghost matrix `f` goes along,
  with `f·A = left block` and `f·I = right block`. The invariant `Tracks`
  proves that a successful inverse is a two-sided inverse.
- `Line` (`line.dfy`) is the Bresenham `line` of `src/main.cpp`. It returns the
  pixels it passes to `image.set`, in order. The proofs show this is the
  unique line with nearest pixels.
- `Mesh` (`mesh.dfy`) is the OBJ reader and accessors of
  `src/resource/mesh.cpp`, plus the `Mesh::Vertex` struct of
  `include/resource/mesh.h`.
  - Lines come in already tokenised.
  - `Read` is the left fold of the constructor's per-line dispatch.
  - `Tagged` and `FaceCorners` are independent reference definitions per
    prefix.
- `ObjModel` (`obj_model.dfy`) is the older duplicate reader
  `src/resource/model.cpp`. It returns `int` counts and 3-wide `uv`.
- `SceneModel` (`scene_model.dfy`) is the `Model` class of
  `include/resource/model.h`: a mesh, a material and a transform.

## Model

| member | source | states |
|---|---|---|
| Geometry.Min | src/graphics.cpp:51-52 | std::min is a lower bound of both arguments and equals one of them |
| Geometry.Max | src/graphics.cpp:51-52 | std::max is an upper bound of both arguments and equals one of them |
| Geometry.Dot | include/util/geometry.h:86-91 | definition of the accumulation loop; properties in DotSnoc, DotCommutes, DotAddLeft, DotSubLeft, DotScaleLeft, Dot2, Dot3 and Dot4 |
| Geometry.Add | include/util/geometry.h:93-98 | entry i of `lhs + rhs` is `lhs[i] + rhs[i]`; properties in AddThenSub and DotAddLeft |
| Geometry.Sub | include/util/geometry.h:100-105 | entry i of `lhs - rhs` is `lhs[i] - rhs[i]`; properties in AddThenSub and DotSubLeft |
| Geometry.Scale | include/util/geometry.h:107-112 | entry i of `lhs * s` is `lhs[i] * s`; properties in DivUndoesScale and DotScaleLeft |
| Geometry.Div | include/util/geometry.h:114-119 | entry i of `lhs / s` is `lhs[i] / s` for s != 0; properties in DivUndoesScale |
| Geometry.DotSnoc | include/util/geometry.h:86-91 | the dot product of prefixes of length k is the one of length k-1 plus the k-th product (the accumulation loop) |
| Geometry.AddThenSub | include/util/geometry.h:93-105 | `(a + b) - b == a` |
| Geometry.DivUndoesScale | include/util/geometry.h:107-119 | `(v * s) / s == v` for s != 0 |
| Geometry.DotCommutes | include/util/geometry.h:86-91 | `a * b == b * a` |
| Geometry.DotAddLeft | include/util/geometry.h:86-98 | the dot product distributes over `+` |
| Geometry.DotSubLeft | include/util/geometry.h:86-105 | the dot product distributes over `-` |
| Geometry.DotScaleLeft | include/util/geometry.h:86-112 | a scalar factor comes out of the dot product |
| Geometry.Dot3 | include/util/geometry.h:86-91 | the 3-dimensional dot product is the sum of three products |
| Geometry.Dot4 | include/util/geometry.h:86-91 | the 4-dimensional dot product is the sum of four products |
| Geometry.Embed | include/util/geometry.h:121-126 | `embed<l>(v, fill)` has length l, keeps v's components and fills the rest; projecting back to the length of v gives v |
| Geometry.Projection | include/util/geometry.h:128-133 | `projection<l>(v)` is exactly the first l components of v |
| Geometry.Cross | include/util/geometry.h:135-138 | `cross(a, b)` is orthogonal to a and to b under the dot product |
| Geometry.RoundHalfAway | include/util/geometry.h:83 | std::round is within 1/2 of its argument and rounds halves away from zero |
| Geometry.RoundOfInteger | include/util/geometry.h:83 | rounding an integer gives it back |
| Geometry.Round | include/util/geometry.h:26-30 | `round()` applies std::round to every component |
| Geometry.Column | include/util/geometry.h:175-180 | `column(c)` has one entry per row, entry i being `raw[i][c]` |
| Geometry.SetColumn | include/util/geometry.h:182-185 | after `set_column(c, v)`, `column(c) == v` and every other entry is unchanged |
| Geometry.Identity | include/util/geometry.h:187-192 | `identity()` is 1 on the diagonal and 0 elsewhere |
| Geometry.MatVec | include/util/geometry.h:229-234 | entry i of matrix·vector is row i dotted with the vector |
| Geometry.MatMul | include/util/geometry.h:236-242 | entry (i, j) of matrix·matrix is row i dotted with column j |
| Geometry.MatDiv | include/util/geometry.h:244-248 | matrix/scalar divides every row by the scalar; properties in TransposeOfQuotient and InvertIsTransposedAdjugate |
| Geometry.Transpose | include/util/geometry.h:219-224 | `transpose()` is col×row with `ret[i][j] == raw[j][i]` |
| Geometry.TransposeTwice | include/util/geometry.h:219-224 | transposing twice gives the matrix back |
| Geometry.DotUnitRow | include/util/geometry.h:187-192 | a row of the identity picks one entry of a vector |
| Geometry.IdentityMatVec | include/util/geometry.h:229-234 | `identity() * v == v` |
| Geometry.Minor | include/util/geometry.h:196-201 | `get_minor(r, c)` drops row r and column c and keeps the rest in order |
| Geometry.MinorOfTranspose | include/util/geometry.h:196-224 | the (c, r) minor of the transpose is the transpose of the (r, c) minor |
| Geometry.Det | include/util/geometry.h:147-159 | definition: the entry for d = 1, otherwise row 0 dotted with its cofactors; properties in DivisorIsDet, Det2 and Det3 |
| Geometry.Signed | include/util/geometry.h:204 | definition of the factor `(t_row + t_col) % 2 ? -1 : 1`; properties in Cofactor2 and Cofactor3 |
| Geometry.Cofactor | include/util/geometry.h:203-205 | definition: the signed determinant of the minor; properties in Cofactor2, Cofactor3 and CofactorExpansions3 |
| Geometry.CofactorRow | include/util/geometry.h:203-205 | the cofactors of a row, one per column |
| Geometry.Adjugate | include/util/geometry.h:206-211 | `adjugate()[i][j]` is `cofactor(i, j)` |
| Geometry.InvertDivisor | include/util/geometry.h:215 | definition of `tmp = ret[0] * raw[0]`; properties in DivisorIsDet, OneByOneDivisorIsZero, Divisor2 and Divisor3 |
| Geometry.DivisorIsDet | include/util/geometry.h:213-217 | for d >= 2 the divisor `adjugate()[0] * raw[0]` equals the row-0 Laplace `det()` |
| Geometry.OneByOneDivisorIsZero | include/util/geometry.h:147-153 | for d = 1 the model gives the empty minor determinant 0, so its divisor is 0 and the preconditions of InvertTranspose and Invert exclude the 1×1 case, whose instantiation is ill-formed in the source |
| Geometry.InvertTranspose | include/util/geometry.h:213-217 | `invert_transpose()` is a square matrix of the same size; its entries are in InvertTransposeEntry |
| Geometry.InvertTransposeEntry | include/util/geometry.h:213-217 | entry (i, j) of `invert_transpose()` is `cofactor(i, j)` over the divisor |
| Geometry.Invert | include/util/geometry.h:226 | `invert()` is a square matrix of the same size; its entries are in InvertEntry and InvertIsTransposedAdjugate, its inverse law in InvertTwoByTwo and InvertThreeByThree |
| Geometry.InvertEntry | include/util/geometry.h:219-226 | entry (i, j) of `invert()` is `cofactor(j, i)` over the divisor |
| Geometry.TransposeOfQuotient | include/util/geometry.h:219-248 | dividing a matrix by a scalar commutes with `transpose()` |
| Geometry.InvertIsTransposedAdjugate | include/util/geometry.h:213-226 | `invert()` is the transposed adjugate divided by `adjugate()[0] * raw[0]` |
| Geometry.Dot2 | include/util/geometry.h:86-91 | the 2-dimensional dot product is the sum of two products |
| Geometry.CofactorRow2 | include/util/geometry.h:203-205 | the row-0 cofactors of a 2×2 matrix are `m[1][1]` and `-m[1][0]` |
| Geometry.Cofactor2 | include/util/geometry.h:203-205 | every 2×2 cofactor is the opposite entry with sign (-1)^(r+c) |
| Geometry.Det2 | include/util/geometry.h:147-153 | the 2×2 `det()` is `ad - bc` |
| Geometry.Cofactor3 | include/util/geometry.h:203-205 | every 3×3 cofactor is the signed 2×2 determinant of its minor |
| Geometry.Det3 | include/util/geometry.h:147-153 | the 3×3 `det()` is the row-0 expansion into 2×2 determinants |
| Geometry.MatMulEntry2 | include/util/geometry.h:236-242 | a 2×2 product entry written out |
| Geometry.InvertEntry2 | include/util/geometry.h:213-226 | `invert()` of a 2×2 matrix is the swapped and negated entries over the divisor |
| Geometry.RightInverse2 | include/util/geometry.h:236-242 | the 2×2 adjugate formula over `ad - bc` is a right inverse |
| Geometry.LeftInverse2 | include/util/geometry.h:236-242 | the 2×2 adjugate formula over `ad - bc` is a left inverse |
| Geometry.Divisor2 | include/util/geometry.h:213-217 | for 2×2 the divisor equals `det()` and `ad - bc` |
| Geometry.InverseProducts2 | include/util/geometry.h:226 | a 2×2 matrix times `invert()` is the identity, in both orders |
| Geometry.InvertTwoByTwo | include/util/geometry.h:206-226 | for 2×2 with det != 0: divisor == det and `m * m.invert() == m.invert() * m == identity` |
| Geometry.MatMulEntry3 | include/util/geometry.h:236-242 | a 3×3 product entry as a sum of three products |
| Geometry.RightInverseSum3 | include/util/geometry.h:236-242 | row i of m against column j of its scaled transposed cofactors gives the identity entry |
| Geometry.LeftInverseSum3 | include/util/geometry.h:236-242 | row i of the scaled transposed cofactors against column j of m gives the identity entry |
| Geometry.Inverse3 | include/util/geometry.h:236-242 | the transposed cofactor matrix over the determinant is a two-sided 3×3 inverse |
| Geometry.Divisor3 | include/util/geometry.h:213-217 | for 3×3 the divisor equals `det()` and the explicit expansion |
| Geometry.CofactorMatrix3 | include/util/geometry.h:203-211 | the 3×3 cofactors as signed 2×2 determinants |
| Geometry.CofactorExpansions3 | include/util/geometry.h:203-211 | every row and column of a 3×3 matrix against the cofactors of the same or another line gives det or 0 |
| Geometry.InvertIsScaledCofactors3 | include/util/geometry.h:206-226 | `invert()` of a 3×3 matrix is the transposed cofactor matrix over the divisor |
| Geometry.InverseProducts3 | include/util/geometry.h:226 | a 3×3 matrix times `invert()` is the identity, in both orders |
| Geometry.InvertThreeByThree | include/util/geometry.h:206-226 | for 3×3 with det != 0: divisor == det and `m * m.invert() == m.invert() * m == identity` |
| Graphics.ViewportMatrix | src/graphics.cpp:9-17 | `viewport` builds a 4×4 matrix; what it does to points is in ViewportMaps and ViewportCorners |
| Graphics.ViewportMaps | src/graphics.cpp:9-17 | the viewport sends (x', y', z', 1) to (x + w/2·(x'+1), y + h/2·(y'+1), depth/2·(z'+1), 1) with depth 2000 |
| Graphics.ViewportCorners | src/graphics.cpp:9-17 | the viewport sends (-1,-1,-1,1) to (x, y, 0, 1) and (1,1,1,1) to (x+w, y+h, depth, 1) |
| Graphics.ProjectionMatrix | src/graphics.cpp:18-21 | `projection` builds a 4×4 matrix; what it does to points is in ProjectionMaps and ProjectionZeroIsIdentity |
| Graphics.ProjectionMaps | src/graphics.cpp:18-21 | the projection keeps x, y, z of (x, y, z, 1) and sets w to coeff·z + 1 |
| Graphics.ProjectionZeroIsIdentity | src/graphics.cpp:18-21 | `projection(0)` is the identity |
| Graphics.LookAtMatrix | src/graphics.cpp:22-33 | `lookat` builds a 4×4 matrix; what it does to points is in LookAtMaps |
| Graphics.LookAtMaps | src/graphics.cpp:22-33 | the view matrix sends (p, 1) to (x·p - center₀, y·p - center₁, z·p - center₂, 1): basis rows, -center in column 3, row 3 = (0,0,0,1) |
| Graphics.Transforms.constructor | src/graphics.cpp:5-7 | the three global matrices start zero-initialised |
| Graphics.Transforms.SetViewport | src/graphics.cpp:9-17 | `viewport` overwrites Viewport with the viewport matrix and leaves View and Projection unchanged |
| Graphics.Transforms.SetProjection | src/graphics.cpp:18-21 | `projection` overwrites Projection and leaves View and Viewport unchanged |
| Graphics.Transforms.LookAt | src/graphics.cpp:22-33 | `lookat` overwrites View with the matrix of the normalised z, x, y axes and -center, and leaves the others unchanged |
| Graphics.Set | src/graphics.cpp:11-31 | one matrix entry write: entry (r, c) becomes v and every other entry is unchanged |
| Graphics.Degenerate | src/graphics.cpp:39 | definition of the area test `std::abs(ans.z) < 1e-2`; properties in BarycentricDegenerate and ShadeDegenerate |
| Graphics.Barycentric | src/graphics.cpp:35-41 | definition of `barycentric`; properties in BarycentricDegenerate, BarycentricReconstructs, BarycentricCharacterised, WeightsUnique and BarycentricAtVertices |
| Graphics.BarycentricDegenerate | src/graphics.cpp:35-41 | barycentric returns the sentinel (-1,-1,1) exactly when abs(cross z) < 0.01, and its first weight is then negative |
| Graphics.SentinelIsNotWeights | src/graphics.cpp:39-40 | a non-degenerate result is never the sentinel |
| Graphics.WeightsSumToOne | src/graphics.cpp:40 | the three weights of the non-degenerate formula add up to 1 |
| Graphics.BarycentricReconstructs | src/graphics.cpp:35-41 | for a non-degenerate triangle the weights add up to 1 and their weighted sum of a, b, c is p |
| Graphics.WeightsUnique | src/graphics.cpp:35-41 | for a triangle of nonzero area there is only one set of such weights |
| Graphics.BarycentricCharacterised | src/graphics.cpp:35-41 | for a non-degenerate triangle, u is barycentric's result if and only if u reconstructs p |
| Graphics.BarycentricAtVertices | src/graphics.cpp:35-41 | p == a gives (1,0,0), p == b gives (0,1,0) and p == c gives (0,0,1) |
| Graphics.Image.constructor | include/util/tgaImage.h:84 | an image of width w and height h, every pixel one colour |
| Graphics.Image.Set | include/util/tgaImage.h:92 | `set(x, y, c)` succeeds exactly inside the image, then writes only pixel x + y·width; otherwise nothing changes |
| Graphics.PixelIndex | src/graphics.cpp:65 | definition of the buffer index `p.x + p.y * width`; properties in PixelIndexInRange and PixelOfIndex |
| Graphics.PixelIndexInRange | src/graphics.cpp:65 | `p.x + p.y * width` of a pixel inside the image is a buffer index that gives back x and y |
| Graphics.PixelOfIndex | src/graphics.cpp:65 | every buffer index is the index of the pixel (i % width, i / width) |
| Graphics.Trunc | src/graphics.cpp:57-58 | `static_cast<int>` of a float truncates toward zero |
| Graphics.ScreenPoint | src/graphics.cpp:49 | `(inPts[i] / inPts[i][3]).round()` rounds each coordinate of the divide and makes w exactly 1 |
| Graphics.ScreenPoints | src/graphics.cpp:48-49 | the three rounded points, each with w == 1 |
| Graphics.LowestOfIsMinimum | src/graphics.cpp:51 | the running minimum is the least coordinate of the points seen |
| Graphics.HighestOfIsMaximum | src/graphics.cpp:52 | the running maximum is the greatest coordinate of the points seen |
| Graphics.BoundingBox | src/graphics.cpp:44-54 | the box is clamped to [0, width-1] × [0, height-1] |
| Graphics.BoxInsideImage | src/graphics.cpp:44-58 | every pixel the loops visit lies inside the image |
| Graphics.BoxCoversVertices | src/graphics.cpp:44-58 | a vertex on a pixel of the image lies in the box |
| Graphics.BoundsStep | src/graphics.cpp:50-53 | one update of min and max extends the running bounds by one point |
| Graphics.ScreenBox | src/graphics.cpp:44-54 | the first loop of `triangle` computes the rounded points and their clamped box |
| Graphics.WidenBounds | src/graphics.cpp:50-53 | the inner j loop updates min[j] and max[j] by the clamped std::min / std::max |
| Graphics.PixelWeights | src/graphics.cpp:59-60 | definition: barycentric of the three projected screen points at the pixel; properties in InsidePixelReconstructs and ShadeAtVertex |
| Graphics.InterpolatedDepth | src/graphics.cpp:62-64 | definition of the weighted depth; with w == 1 it is `z / w`, see ShadeAtVertex and ShadePixel |
| Graphics.Shade | src/graphics.cpp:59-70 | the depth a pixel keeps never decreases |
| Graphics.InsidePixelReconstructs | src/graphics.cpp:59-61 | a pixel that passes the inside test has true barycentric weights (not the sentinel) |
| Graphics.ShadeWritesOnlyInside | src/graphics.cpp:61-70 | a pixel changes only when it is inside, the shader does not discard, and then depth and colour are both written |
| Graphics.ShadeDegenerate | src/graphics.cpp:59-61 | a degenerate triangle changes no pixel |
| Graphics.ShadeIdempotent | src/graphics.cpp:59-70 | shading a pixel a second time with the same triangle changes nothing more |
| Graphics.ShadeAtVertex | src/graphics.cpp:59-64 | at a vertex the weights are a unit vector and d is the vertex depth: the extra divide by `pts[0][3]` is a no-op |
| Graphics.DivByOne | src/graphics.cpp:59-60 | dividing by w == 1 leaves a point unchanged |
| Graphics.ShadePixel | src/graphics.cpp:62-70 | the loop body writes the shaded depth and colour of pixel i and nothing else |
| Graphics.ScanStart | src/graphics.cpp:57-58 | before the loops nothing is visited |
| Graphics.ScanStep | src/graphics.cpp:58-70 | shading pixel (x, y) moves the scan to (x, y+1) |
| Graphics.ScanColumn | src/graphics.cpp:57-58 | the end of a column moves the scan to the next one |
| Graphics.ScanEnd | src/graphics.cpp:57-58 | past the last column every pixel of the box has been shaded |
| Graphics.Triangle | src/graphics.cpp:43-73 | every z-buffer and image entry inside the clamped box is shaded, every other entry is unchanged, and no z-buffer entry decreases |
| Graphics.ScanBox | src/graphics.cpp:56-72 | the two scan loops shade every pixel of the box and leave the rest unchanged |
| DynamicMatrix.Zeros | src/util/geometry.cpp:4-5 | the constructor gives an n_rows × n_cols matrix of zeros |
| DynamicMatrix.DMatrix.Set | src/util/geometry.cpp:25 | one entry write `result[i][j] = v`: entry (i, j) becomes v and every other entry is unchanged |
| DynamicMatrix.IdentityOf | src/util/geometry.cpp:7-11 | `identity(dim)` is dim × dim with 1 on the diagonal and 0 elsewhere |
| DynamicMatrix.TransposeOf | src/util/geometry.cpp:13-18 | `transpose()` is cols × rows with `result[j][i] == raws[i][j]` |
| DynamicMatrix.TransposeOfTwice | src/util/geometry.cpp:13-18 | transposing twice gives the matrix back |
| DynamicMatrix.Multiply | src/util/geometry.cpp:55-67 | for cols == other.rows, `operator*` is rows × other.cols and each entry is the row·column sum |
| DynamicMatrix.AccumulateEntry | src/util/geometry.cpp:60-63 | the k loop accumulates exactly the row·column sum into entry (i, j) |
| DynamicMatrix.IdentityTimes | src/util/geometry.cpp:55-67 | identity times m is m |
| DynamicMatrix.TimesIdentity | src/util/geometry.cpp:55-67 | m times identity is m |
| DynamicMatrix.IdentityIsUnit | src/util/geometry.cpp:7-11 | the identity is a unit on both sides of `operator*` |
| DynamicMatrix.RowSub | src/util/geometry.cpp:33-35 | subtracting a multiple of a row keeps the shape; its effect is in ProductRowSub, HalvesRowSub and TracksRowSub |
| DynamicMatrix.RowDiv | src/util/geometry.cpp:30 | dividing a row keeps the shape; its effect is in ProductRowDiv, HalvesRowDiv and TracksRowDiv |
| DynamicMatrix.ProductRowSub | src/util/geometry.cpp:31-36 | a row subtraction on a product is the same row subtraction on the left factor |
| DynamicMatrix.ProductRowDiv | src/util/geometry.cpp:30 | a row division on a product is the same row division on the left factor |
| DynamicMatrix.ProductShear | src/util/geometry.cpp:31-36 | a column operation on f undoes the row subtraction on x in f·x |
| DynamicMatrix.ProductRescale | src/util/geometry.cpp:30 | a column scaling of f undoes the row division of x in f·x |
| DynamicMatrix.Augment | src/util/geometry.cpp:23-26 | the augmented matrix is the input on the left and the identity on the right |
| DynamicMatrix.Left | src/util/geometry.cpp:28-48 | the left n×n block of the augmented matrix |
| DynamicMatrix.Right | src/util/geometry.cpp:50-53 | the right n×n block of the augmented matrix |
| DynamicMatrix.HalvesRowSub | src/util/geometry.cpp:33-35 | a row subtraction on the augmented matrix is the same row subtraction on both blocks |
| DynamicMatrix.HalvesRowDiv | src/util/geometry.cpp:30 | a row division on the augmented matrix is the same row division on both blocks |
| DynamicMatrix.TracksStart | src/util/geometry.cpp:23-26 | the augmented input starts the elimination invariant |
| DynamicMatrix.TracksRowSub | src/util/geometry.cpp:31-36 | a row subtraction keeps the elimination invariant |
| DynamicMatrix.TracksRowDiv | src/util/geometry.cpp:30 | a row division keeps the elimination invariant |
| DynamicMatrix.TracksEnd | src/util/geometry.cpp:20-54 | once the left block is the identity, the right block is a two-sided inverse of the input |
| DynamicMatrix.RowDivByOne | src/util/geometry.cpp:30 | dividing by a pivot of 1 changes nothing |
| DynamicMatrix.RowSubZero | src/util/geometry.cpp:33-35 | subtracting with coefficient 0 changes nothing |
| DynamicMatrix.NormaliseStep | src/util/geometry.cpp:29-30 | normalising row i makes its pivot 1, with the columns before it already cleared |
| DynamicMatrix.EliminateBelowStep | src/util/geometry.cpp:31-36 | subtracting row i from row k clears column i in row k and keeps the rows cleared before |
| DynamicMatrix.BelowDone | src/util/geometry.cpp:28-37 | after the k loop column i is cleared below the pivot |
| DynamicMatrix.UpperStart | src/util/geometry.cpp:38-41 | the first pass and the last-row normalisation leave the left block upper triangular with unit diagonal |
| DynamicMatrix.EliminateAboveStep | src/util/geometry.cpp:42-47 | subtracting row i from row k clears column i in row k |
| DynamicMatrix.AboveDone | src/util/geometry.cpp:41-48 | after the k loop column i is cleared above the pivot |
| DynamicMatrix.UpperDone | src/util/geometry.cpp:41-48 | after the second pass the left block is the identity |
| DynamicMatrix.NormaliseRow | src/util/geometry.cpp:30 | the descending j loop divides the entries from the pivot on by the pivot and leaves the earlier ones unchanged (divided by the new 1) |
| DynamicMatrix.SubtractRow | src/util/geometry.cpp:33-35 | the j loop subtracts coeff times row i from row k |
| DynamicMatrix.AugmentOf | src/util/geometry.cpp:23-26 | the augmenting loops build the input next to the identity |
| DynamicMatrix.Pivot | src/util/geometry.cpp:29-30 | normalising row i keeps the invariant and makes column i's pivot 1 |
| DynamicMatrix.Eliminate | src/util/geometry.cpp:31-36 | one elimination keeps the invariant and is the row subtraction with `coeff = result[k][i]` |
| DynamicMatrix.ForwardPass | src/util/geometry.cpp:28-37 | with nonzero pivots the first pass keeps the invariant and clears below the diagonal of the first n-1 columns; an identity input is left unchanged |
| DynamicMatrix.NormaliseLast | src/util/geometry.cpp:39 | normalising the last row makes the left block upper triangular with unit diagonal |
| DynamicMatrix.BackwardPass | src/util/geometry.cpp:41-48 | the second pass keeps the invariant and turns the left block into the identity |
| DynamicMatrix.AugmentIdentity | src/util/geometry.cpp:23-26 | the augmented identity has identity blocks on both sides |
| DynamicMatrix.Truncate | src/util/geometry.cpp:50-53 | the truncation copies the right block into an n×n matrix |
| DynamicMatrix.Inverse | src/util/geometry.cpp:20-54 | a square input gives a result of the same size; when all pivots are nonzero, `A * A.inverse() == A.inverse() * A == identity`; `identity(n).inverse() == identity(n)` |
| Line.Abs | src/main.cpp:9 | std::abs of an int is n or -n and not negative |
| Line.Orient | src/main.cpp:9-17 | after the swaps: steep iff abs(x0-x1) < abs(y0-y1), x0 <= x1, abs(y1-y0) <= x1-x0, x1-x0 == max(abs(x1-x0), abs(y1-y0)), and the endpoints are the original ones in some order |
| Line.Plot | src/main.cpp:24-28 | a steep line is plotted as `set(y, x)`, otherwise as `set(x, y)` |
| Line.DrawStep | src/main.cpp:29-33 | one loop turn keeps `error2 == 2k·abs(dy) - 2dx·m` and -dx < error2 <= dx |
| Line.PlotOnLine | src/main.cpp:23-28 | the pixel set at step k is pixel k of the nearest line |
| Line.Swap | src/main.cpp:8-17 | the swaps compute the orientation of the line |
| Line.Draw | src/main.cpp:7-34 | `line` sets exactly one pixel per major coordinate from x0 to x1, each the nearest to the ideal line, in order |
| Line.ErrorShift | src/main.cpp:29-33 | one step of x with a step d of y changes the error by 2abs(dy) - 2dx·d |
| Line.NearestUnique | src/main.cpp:29-33 | the minor offset at each step is unique |
| Line.NearestLineUnique | src/main.cpp:7-34 | there is only one nearest line for given endpoints |
| Line.LineLength | src/main.cpp:23-28 | exactly max(abs(x1-x0), abs(y1-y0)) + 1 pixels are set, pixel k at major coordinate a0 + k |
| Line.LineEnds | src/main.cpp:23-33 | the first and last pixels are the swapped endpoints |
| Line.LineEndpoints | src/main.cpp:7-34 | both original endpoints are among the pixels set |
| Line.OffsetStep | src/main.cpp:29-33 | between consecutive steps the minor offset grows by 0 or 1 |
| Line.LineSteps | src/main.cpp:29-33 | between consecutive pixels the major coordinate grows by 1 and the minor one changes by 0 or 1 toward y1 |
| Mesh.Vertex.VertIdx | include/resource/mesh.h:16 | definition of `raw[0]`; property in NewVertex |
| Mesh.Vertex.UvIdx | include/resource/mesh.h:17 | definition of `raw[1]`; property in NewVertex |
| Mesh.Vertex.NormalIdx | include/resource/mesh.h:18 | definition of `raw[2]`; property in NewVertex |
| Mesh.NewVertex | include/resource/mesh.h:15-18 | `Vertex(v, uv, n)` has `vertIdx() == v`, `uvIdx() == uv` and `normalIdx() == n` |
| Mesh.Starts | src/resource/mesh.cpp:16 | definition of `!line.compare(0, 2, tag)`; property in TagsExclusive |
| Mesh.TagsExclusive | src/resource/mesh.cpp:16-48 | a line matches at most one of the four prefixes |
| Mesh.FaceOf | src/resource/mesh.cpp:23-33 | definition of the face of an `f` line; property in ReadFace and FaceIndices |
| Mesh.ReadFace | src/resource/mesh.cpp:23-33 | an `f` line gives one vertex per group, each index minus 1 |
| Mesh.Step | src/resource/mesh.cpp:16-48 | definition of the dispatch of one line; properties in StepAppendsOne and TagsExclusive |
| Mesh.Read | src/resource/mesh.cpp:12-49 | definition: the dispatch folded over the lines; properties in ReadSeparates and ReadLines |
| Mesh.StepAppendsOne | src/resource/mesh.cpp:15-48 | one line appends to exactly the sequence of its prefix, keeps the others, and an unmatched line changes nothing |
| Mesh.Tagged | src/resource/mesh.cpp:16-48 | reference definition: the records of the lines with one prefix, in file order; properties in TaggedSnoc and ReadSeparates |
| Mesh.FaceCorners | src/resource/mesh.cpp:23-33 | reference definition: the groups of the `f` lines, in file order; properties in FaceCornersSnoc and ReadSeparates |
| Mesh.Faces | src/resource/mesh.cpp:23-33 | the faces of a sequence of `f` lines, one per line |
| Mesh.TaggedSnoc | src/resource/mesh.cpp:16-48 | the records of one prefix after one more line |
| Mesh.FaceCornersSnoc | src/resource/mesh.cpp:23-33 | the `f` records after one more line |
| Mesh.ReadSeparates | src/resource/mesh.cpp:12-49 | reading a file gives, per sequence, exactly the records of its prefix in file order |
| Mesh.FaceIndices | src/resource/mesh.cpp:27-31 | each stored face triple is the file's 1-based indices minus 1 |
| Mesh.ReadLines | src/resource/mesh.cpp:7-50 | the constructor's loop computes the fold of the dispatch over the lines |
| Mesh.VertIndices | src/resource/mesh.cpp:63-69 | the appending loop collects `vertIdx()` of every vertex of a face, in order |
| Mesh.UvIndices | src/resource/mesh.cpp:70-76 | the appending loop collects `uvIdx()` of every vertex of a face, in order |
| Mesh.NormalIndices | src/resource/mesh.cpp:77-83 | the appending loop collects `normalIdx()` of every vertex of a face, in order |
| Mesh.Mesh.constructor | src/resource/mesh.cpp:7-50 | the mesh holds what the file's lines give, and a failed open leaves every sequence empty |
| Mesh.Mesh.NVerts | src/resource/mesh.cpp:54 | `nverts()` is the number of `v` lines |
| Mesh.Mesh.NFaces | src/resource/mesh.cpp:56 | `nfaces()` is the number of `f` lines |
| Mesh.Mesh.Vert | src/resource/mesh.cpp:58 | `vert(idx)` is the idx-th `v` record |
| Mesh.Mesh.Normal | src/resource/mesh.cpp:60 | `normal(idx)` is the idx-th `vn` record |
| Mesh.Mesh.Uv | src/resource/mesh.cpp:61 | `uv(idx)` is the first two components of the idx-th `vt` record |
| Mesh.Mesh.Face | src/resource/mesh.cpp:85 | `face(idx)` is the idx-th `f` line's groups, shifted to 0-based |
| Mesh.Mesh.FaceVertex | src/resource/mesh.cpp:63-69 | `face_vertex(idx)` has one entry per group of the face, entry k the group's vertex index minus 1 |
| Mesh.Mesh.FaceUv | src/resource/mesh.cpp:70-76 | `face_uv(idx)` has one entry per group of the face, entry k the group's uv index minus 1 |
| Mesh.Mesh.FaceNormal | src/resource/mesh.cpp:77-83 | `face_normal(idx)` has one entry per group of the face, entry k the group's normal index minus 1 |
| ObjModel.IntOfSize | src/resource/model.cpp:54-56 | `static_cast<int>(size_t)` is in int range, congruent modulo 2^32, and exact below 2^31 |
| ObjModel.Model.constructor | src/resource/model.cpp:7-50 | the model holds what the file's lines give, and a failed open leaves it empty |
| ObjModel.Model.NVerts | src/resource/model.cpp:54 | `nverts()` is the number of `v` lines as int |
| ObjModel.Model.NFaces | src/resource/model.cpp:56 | `nfaces()` is the number of `f` lines as int |
| ObjModel.Model.Vert | src/resource/model.cpp:58 | `vert(idx)` is the idx-th `v` record |
| ObjModel.Model.Normal | src/resource/model.cpp:60 | `normal(idx)` is the idx-th `vn` record |
| ObjModel.Model.Uv | src/resource/model.cpp:61 | `uv(idx)` is the full 3-wide idx-th `vt` record |
| ObjModel.Model.Face | src/resource/model.cpp:85 | `face(idx)` is the idx-th `f` line's groups, shifted to 0-based |
| ObjModel.Model.FaceVertex | src/resource/model.cpp:63-69 | `face_vertex(idx)` keeps the face's length and order, entry k the vertex index minus 1 |
| ObjModel.Model.FaceUv | src/resource/model.cpp:70-76 | `face_uv(idx)` keeps the face's length and order, entry k the uv index minus 1 |
| ObjModel.Model.FaceNormal | src/resource/model.cpp:77-83 | `face_normal(idx)` keeps the face's length and order, entry k the normal index minus 1 |
| SceneModel.Model.constructor | include/resource/model.h:11 | a new Model holds the given mesh and material and the identity transform |
| SceneModel.Model.GetMesh | include/resource/model.h:13 | `getMesh()` returns the stored mesh |
| SceneModel.Model.GetMaterial | include/resource/model.h:14 | `getMaterial()` returns the stored material |
| SceneModel.Model.GetTransform | include/resource/model.h:16 | `getTransform()` returns the stored transform |
| SceneModel.Model.SetTransform | include/resource/model.h:17 | after `setTransform(m)` the transform is m and the mesh and material are unchanged |

## Left out

- Floating point: IEEE rounding, NaN and infinity are not modelled. Division by
  zero is excluded by preconditions (`Div`, `MatDiv`, `InvertTranspose`,
  `Invert`, and `Homogeneous`, the w != 0 of every point given to
  `Graphics.Triangle` and `Graphics.ScreenPoints`).
  The −∞ z-buffer start that callers use is not modelled.
- `norm` and `normalize` need `sqrt`. `Transforms.LookAt` takes the
  normalisation as a function parameter. `Vector<2>::normalize` is ill-typed
  (it returns `Vector<3, T>&`) and is not modelled.
- Graphics.Degenerate: the test `std::abs(ans.z) < 1e-2` uses the exact
  real 0.01, not the float nearest to it.
- Graphics.Transforms.LookAt: column 3 is −center, as the source writes it. It
  is not the −R·center of a true view matrix.
- Graphics.Triangle: the shader is a function `weights -> (discard, colour)`,
  following the two-argument call in `triangle`. The three-argument
  `IShader::fragment` declaration and the concrete shaders are not part of
  this model.
- Graphics.Image.Set: `TGAImage::set`'s body is not part of this model. It is
  modelled as a bounds-checked write at index x + y·width that reports
  success. `triangle` writes only pixels inside the image, so it uses the
  array directly.
- TGAImage colours, RLE, reading, writing, flipping and scaling: the colour is
  a type parameter.
- Line.Draw returns the sequence of `image.set` arguments instead of writing
  to an image.
- Line.Draw: unbounded integers stand in for C++ `int`; overflow of
  `std::abs(dy) * 2` and `dx * 2` is not modelled.
- Graphics.Triangle: the z-buffer index `p.x + p.y * width` is an unbounded
  integer; `int` overflow for huge images is not modelled.
- DynamicMatrix.Inverse: a zero pivot makes the source divide by zero. The
  model stops there and returns `ok == false` with a zero matrix. `n == 0` is
  excluded, because the source then indexes row −1. Rows are never swapped,
  as in the source.
- DynamicMatrix.Inverse: `ok` is stated only for the identity input. A
  nonzero-pivot condition on a general input is not given as an if-and-only-if.
- The OBJ readers: opening the file, `std::getline`/`eof` handling and number
  extraction from `istringstream` are not modelled. The input is a sequence of
  already tokenised lines; a failed open is `None`.
- The stream printers `operator<<` in both geometry files are I/O and are not
  modelled.
- `main()` in src/main.cpp is file I/O and program setup, and is outside the
  core.
- Material loading (src/resource/material.cpp) is not part of this model. The
  material of `SceneModel.Model` is a type parameter.
- Mesh and model pointers are kept as references (`Mesh.Mesh?` and a generic
  material value). Ownership and lifetime are not modelled.
- Geometry.Det: the 1×1 instantiation of `adjugate`, `invert_transpose` and
  `invert` is ill-formed in the source, because the generic `dt<0>::det`
  asks for a minor with size_t(-1) rows. The model's Det gives 0 for d = 0,
  and `InvertDivisor(m) != 0.0` in InvertTranspose and Invert excludes the
  1×1 case (OneByOneDivisorIsZero).
- Geometry.InvertTwoByTwo, Geometry.InvertThreeByThree: the inverse law is
  proved for 2×2 and 3×3 only, not for the general d×d case. The 4×4
  Laplace expansion is not proved.
