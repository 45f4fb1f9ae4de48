/** The run-time sized Matrix of src/util/geometry.cpp: an n_rows x n_cols
    grid of reals with identity, transpose, product and a Gauss-Jordan
    inverse on the matrix augmented with the identity. The fixed-size
    kernel of module Geometry supplies the reference definitions
    (Identity, Transpose, MatMul) they are proved against. */
module DynamicMatrix {
  import opened Geometry

  /** Matrix: `raws` holds `rows` rows of `cols` reals each. */
  datatype DMatrix = DMatrix(rows: nat, cols: nat, raws: Matrix) {
    predicate Valid() {
      IsMatrix(raws, rows, cols)
    }

    /** `m[i][j] = v`. */
    function Set(i: nat, j: nat, v: real): (r: DMatrix)
      requires Valid() && i < rows && j < cols
      ensures r.Valid() && r.rows == rows && r.cols == cols
      ensures r.raws[i][j] == v
      ensures forall p, q :: 0 <= p < rows && 0 <= q < cols && (p, q) != (i, j) ==> r.raws[p][q] == raws[p][q]
    {
      DMatrix(rows, cols, raws[i := raws[i][j := v]])
    }
  }

  /** Matrix(n_rows, n_cols): an n_rows x n_cols matrix of zeros. */
  function Zeros(nRows: nat, nCols: nat): (m: DMatrix)
    ensures m.Valid() && m.rows == nRows && m.cols == nCols
    ensures forall i, j :: 0 <= i < nRows && 0 <= j < nCols ==> m.raws[i][j] == 0.0
  {
    DMatrix(nRows, nCols, seq(nRows, i => seq(nCols, j => 0.0)))
  }

  /** Two matrices of the same shape that agree entry by entry are equal. */
  lemma SameEntries(p: Matrix, q: Matrix, rows: nat, cols: nat)
    requires IsMatrix(p, rows, cols) && IsMatrix(q, rows, cols)
    requires forall i, j :: 0 <= i < rows && 0 <= j < cols ==> p[i][j] == q[i][j]
    ensures p == q
  {
    forall i | 0 <= i < rows
      ensures p[i] == q[i]
    {
      assert forall j :: 0 <= j < cols ==> p[i][j] == q[i][j];
    }
  }

  /** Matrix::identity(dim): zeros, then 1 on the diagonal. */
  method IdentityOf(dim: nat) returns (m: DMatrix)
    ensures m.Valid() && m.rows == dim && m.cols == dim
    ensures m.raws == Identity(dim, dim)
  {
    m := Zeros(dim, dim);
    for i := 0 to dim
      invariant m.Valid() && m.rows == dim && m.cols == dim
      invariant forall r, c :: 0 <= r < dim && 0 <= c < dim ==>
                  m.raws[r][c] == if r == c && r < i then 1.0 else 0.0
    {
      m := m.Set(i, i, 1.0);
    }
    SameEntries(m.raws, Identity(dim, dim), dim, dim);
  }

  /** Matrix::transpose(): a cols x rows matrix with result[j][i] = raws[i][j]. */
  method TransposeOf(m: DMatrix) returns (t: DMatrix)
    requires m.Valid()
    ensures t.Valid() && t.rows == m.cols && t.cols == m.rows
    ensures t.raws == Transpose(m.raws, m.cols)
  {
    t := Zeros(m.cols, m.rows);
    for i := 0 to m.rows
      invariant t.Valid() && t.rows == m.cols && t.cols == m.rows
      invariant forall c, r :: 0 <= c < m.cols && 0 <= r < i ==> t.raws[c][r] == m.raws[r][c]
    {
      for j := 0 to m.cols
        invariant t.Valid() && t.rows == m.cols && t.cols == m.rows
        invariant forall c, r :: 0 <= c < m.cols && 0 <= r < i ==> t.raws[c][r] == m.raws[r][c]
        invariant forall c :: 0 <= c < j ==> t.raws[c][i] == m.raws[i][c]
      {
        t := t.Set(j, i, m.raws[i][j]);
      }
    }
    SameEntries(t.raws, Transpose(m.raws, m.cols), m.cols, m.rows);
  }

  /** Transposing twice gives the matrix back. */
  lemma TransposeOfTwice(m: DMatrix)
    requires m.Valid()
    ensures DMatrix(m.rows, m.cols, Transpose(Transpose(m.raws, m.cols), m.rows)) == m
  {
    TransposeTwice(m.raws, m.cols);
  }

  /** operator*: result[i][j] = sum over k of raws[i][k] * other[k][j]. */
  method Multiply(a: DMatrix, b: DMatrix) returns (r: DMatrix)
    requires a.Valid() && b.Valid() && a.cols == b.rows
    ensures r.Valid() && r.rows == a.rows && r.cols == b.cols
    ensures r.raws == MatMul(a.raws, b.raws, b.cols)
  {
    r := Zeros(a.rows, b.cols);
    for i := 0 to a.rows
      invariant r.Valid() && r.rows == a.rows && r.cols == b.cols
      invariant forall p, q :: 0 <= p < i && 0 <= q < b.cols ==> r.raws[p][q] == Dot(a.raws[p], Column(b.raws, q))
    {
      for j := 0 to b.cols
        invariant r.Valid() && r.rows == a.rows && r.cols == b.cols
        invariant forall p, q :: 0 <= p < a.rows && 0 <= q < b.cols && (p < i || (p == i && q < j)) ==>
                    r.raws[p][q] == Dot(a.raws[p], Column(b.raws, q))
      {
        r := AccumulateEntry(a, b, r, i, j);
      }
    }
    SameEntries(r.raws, MatMul(a.raws, b.raws, b.cols), a.rows, b.cols);
  }

  /** The innermost loop of operator*: `result[i][j] = 0`, then
      `result[i][j] += raws[i][k] * other[k][j]` for every k. */
  method AccumulateEntry(a: DMatrix, b: DMatrix, r: DMatrix, i: nat, j: nat) returns (r': DMatrix)
    requires a.Valid() && b.Valid() && a.cols == b.rows
    requires r.Valid() && r.rows == a.rows && r.cols == b.cols && i < a.rows && j < b.cols
    ensures r'.Valid() && r'.rows == r.rows && r'.cols == r.cols
    ensures r'.raws[i][j] == Dot(a.raws[i], Column(b.raws, j))
    ensures forall p, q :: 0 <= p < r.rows && 0 <= q < r.cols && (p, q) != (i, j) ==> r'.raws[p][q] == r.raws[p][q]
  {
    var col := Column(b.raws, j);
    r' := r.Set(i, j, 0.0);
    for k := 0 to a.cols
      invariant r'.Valid() && r'.rows == r.rows && r'.cols == r.cols
      invariant r'.raws[i][j] == Dot(a.raws[i][..k], col[..k])
      invariant forall p, q :: 0 <= p < r.rows && 0 <= q < r.cols && (p, q) != (i, j) ==> r'.raws[p][q] == r.raws[p][q]
    {
      DotSnoc(a.raws[i], col, k + 1);
      r' := r'.Set(i, j, r'.raws[i][j] + a.raws[i][k] * b.raws[k][j]);
    }
    assert a.raws[i][..a.cols] == a.raws[i] && col[..a.cols] == col;
  }

  /** The identity is a left unit of the product. */
  lemma IdentityTimes(m: Matrix, rows: nat, cols: nat)
    requires IsMatrix(m, rows, cols)
    ensures MatMul(Identity(rows, rows), m, cols) == m
  {
    var p := MatMul(Identity(rows, rows), m, cols);
    forall i, j | 0 <= i < rows && 0 <= j < cols
      ensures p[i][j] == m[i][j]
    {
      DotUnitRow(rows, i, Column(m, j));
    }
    SameEntries(p, m, rows, cols);
  }

  /** The identity is a right unit of the product. */
  lemma TimesIdentity(m: Matrix, rows: nat, cols: nat)
    requires IsMatrix(m, rows, cols)
    ensures MatMul(m, Identity(cols, cols), cols) == m
  {
    var p := MatMul(m, Identity(cols, cols), cols);
    forall i, j | 0 <= i < rows && 0 <= j < cols
      ensures p[i][j] == m[i][j]
    {
      var e := Column(Identity(cols, cols), j);
      assert e == Identity(cols, cols)[j];
      DotCommutes(m[i], e);
      DotUnitRow(cols, j, m[i]);
    }
    SameEntries(p, m, rows, cols);
  }

  /** The product of dynamic matrices has the identity as unit on both sides. */
  lemma IdentityIsUnit(m: DMatrix)
    requires m.Valid()
    ensures MatMul(Identity(m.rows, m.rows), m.raws, m.cols) == m.raws
    ensures MatMul(m.raws, Identity(m.cols, m.cols), m.cols) == m.raws
  {
    IdentityTimes(m.raws, m.rows, m.cols);
    TimesIdentity(m.raws, m.rows, m.cols);
  }

  // ---------------------------------------------------------------------
  // Dot products under updates
  // ---------------------------------------------------------------------

  /** Changing entry i of the left factor changes the dot product by the
      difference times the matching entry of the right factor. */
  lemma {:induction false} DotUpdateLeft(u: Vec, v: Vec, i: nat, x: real)
    requires |u| == |v| && i < |u|
    ensures Dot(u[i := x], v) == Dot(u, v) + (x - u[i]) * v[i]
    decreases |u|
  {
    var n := |u| - 1;
    var u' := u[i := x];
    assert u'[..n] == if i == n then u[..n] else u[..n][i := x];
    if i < n {
      DotUpdateLeft(u[..n], v[..n], i, x);
    }
  }

  /** The same for the right factor. */
  lemma DotUpdateRight(u: Vec, v: Vec, k: nat, y: real)
    requires |u| == |v| && k < |u|
    ensures Dot(u, v[k := y]) == Dot(u, v) + u[k] * (y - v[k])
  {
    DotCommutes(u, v[k := y]);
    DotUpdateLeft(v, u, k, y);
    DotCommutes(u, v);
  }

  /** Adding c times entry k to entry i of u while taking c times entry i
      from entry k of v leaves the dot product unchanged. */
  lemma DotShear(u: Vec, v: Vec, i: nat, k: nat, c: real)
    requires |u| == |v| && i < |u| && k < |u| && i != k
    ensures Dot(Shear(u, i, k, c), v[k := v[k] - v[i] * c]) == Dot(u, v)
  {
    var v' := v[k := v[k] - v[i] * c];
    DotUpdateLeft(u, v', i, u[i] + c * u[k]);
    assert v'[i] == v[i];
    DotUpdateRight(u, v, k, v[k] - v[i] * c);
    ShearCancels(u[i], u[k], v[i], v[k], c, Dot(u, v));
  }

  lemma ShearCancels(ui: real, uk: real, vi: real, vk: real, c: real, d: real)
    ensures d + uk * (vk - vi * c - vk) + (ui + c * uk - ui) * vi == d
  {
  }

  /** Multiplying entry i of u by p and dividing entry i of v by p leaves
      the dot product unchanged. */
  lemma DotRescale(u: Vec, v: Vec, i: nat, p: real)
    requires |u| == |v| && i < |u| && p != 0.0
    ensures Dot(Rescale(u, i, p), v[i := v[i] / p]) == Dot(u, v)
  {
    var v' := v[i := v[i] / p];
    DotUpdateLeft(u, v', i, u[i] * p);
    DotUpdateRight(u, v, i, v[i] / p);
    RescaleCancels(u[i], v[i], p);
  }

  lemma RescaleCancels(ui: real, vi: real, p: real)
    requires p != 0.0
    ensures (ui * p - ui) * (vi / p) == ui * vi - ui * (vi / p)
  {
  }

  /** Dot is linear in its left factor: subtracting a multiple of a row. */
  lemma DotSubScaled(a: Vec, b: Vec, c: real, v: Vec)
    requires |a| == |b| == |v|
    ensures Dot(Sub(a, Scale(b, c)), v) == Dot(a, v) - c * Dot(b, v)
  {
    DotSubLeft(a, Scale(b, c), v);
    DotScaleLeft(b, c, v);
  }

  /** Dot is linear in its left factor: dividing a row. */
  lemma {:induction false} DotDivLeft(a: Vec, p: real, v: Vec)
    requires |a| == |v| && p != 0.0
    ensures Dot(Div(a, p), v) == Dot(a, v) / p
    decreases |a|
  {
    if |a| > 0 {
      var n := |a| - 1;
      var d := Div(a, p);
      assert d[..n] == Div(a[..n], p);
      DotDivLeft(a[..n], p, v[..n]);
      QuotientStep(Dot(a[..n], v[..n]), a[n], v[n], p);
    }
  }

  lemma QuotientStep(x: real, y: real, z: real, p: real)
    requires p != 0.0
    ensures x / p + (y / p) * z == (x + y * z) / p
  {
  }

  // ---------------------------------------------------------------------
  // Row and column operations
  // ---------------------------------------------------------------------

  /** `result[k][j] -= result[i][j] * coeff` for every j: row k minus coeff times row i. */
  function RowSub(m: Matrix, k: nat, i: nat, c: real): (r: Matrix)
    requires k < |m| && i < |m| && |m[k]| == |m[i]|
    ensures |r| == |m| && forall t :: 0 <= t < |m| ==> |r[t]| == |m[t]|
  {
    m[k := Sub(m[k], Scale(m[i], c))]
  }

  /** Row i divided by p. */
  function RowDiv(m: Matrix, i: nat, p: real): (r: Matrix)
    requires i < |m| && p != 0.0
    ensures |r| == |m| && forall t :: 0 <= t < |m| ==> |r[t]| == |m[t]|
  {
    m[i := Div(m[i], p)]
  }

  /** Entry i plus c times entry k. */
  function Shear(row: Vec, i: nat, k: nat, c: real): Vec
    requires i < |row| && k < |row|
  {
    row[i := row[i] + c * row[k]]
  }

  /** Entry i times p. */
  function Rescale(row: Vec, i: nat, p: real): Vec
    requires i < |row|
  {
    row[i := row[i] * p]
  }

  /** Column i plus c times column k: the inverse of RowSub acting from the right. */
  function ColAdd(f: Matrix, i: nat, k: nat, c: real): (r: Matrix)
    requires forall t :: 0 <= t < |f| ==> i < |f[t]| && k < |f[t]|
    ensures |r| == |f| && forall t :: 0 <= t < |f| ==> r[t] == Shear(f[t], i, k, c)
  {
    seq(|f|, t requires 0 <= t < |f| => Shear(f[t], i, k, c))
  }

  /** Column i times p: the inverse of RowDiv acting from the right. */
  function ColScale(f: Matrix, i: nat, p: real): (r: Matrix)
    requires forall t :: 0 <= t < |f| ==> i < |f[t]|
    ensures |r| == |f| && forall t :: 0 <= t < |f| ==> r[t] == Rescale(f[t], i, p)
  {
    seq(|f|, t requires 0 <= t < |f| => Rescale(f[t], i, p))
  }

  /** A row operation on the left factor of a product is the same row
      operation on the product. */
  lemma ProductRowSub(r: Matrix, a: Matrix, n: nat, cols: nat, k: nat, i: nat, c: real)
    requires IsMatrix(r, |r|, n) && IsMatrix(a, n, cols) && k < |r| && i < |r|
    ensures MatMul(RowSub(r, k, i, c), a, cols) == RowSub(MatMul(r, a, cols), k, i, c)
  {
    var p, q := MatMul(RowSub(r, k, i, c), a, cols), RowSub(MatMul(r, a, cols), k, i, c);
    forall t, j | 0 <= t < |r| && 0 <= j < cols
      ensures p[t][j] == q[t][j]
    {
      if t == k {
        DotSubScaled(r[k], r[i], c, Column(a, j));
      }
    }
    SameEntries(p, q, |r|, cols);
  }

  lemma ProductRowDiv(r: Matrix, a: Matrix, n: nat, cols: nat, i: nat, d: real)
    requires IsMatrix(r, |r|, n) && IsMatrix(a, n, cols) && i < |r| && d != 0.0
    ensures MatMul(RowDiv(r, i, d), a, cols) == RowDiv(MatMul(r, a, cols), i, d)
  {
    var p, q := MatMul(RowDiv(r, i, d), a, cols), RowDiv(MatMul(r, a, cols), i, d);
    forall t, j | 0 <= t < |r| && 0 <= j < cols
      ensures p[t][j] == q[t][j]
    {
      if t == i {
        DotDivLeft(r[i], d, Column(a, j));
      }
    }
    SameEntries(p, q, |r|, cols);
  }

  /** A row operation on the right factor undone by the matching column
      operation on the left factor leaves the product unchanged. */
  lemma ProductShear(f: Matrix, x: Matrix, n: nat, cols: nat, k: nat, i: nat, c: real)
    requires IsMatrix(f, |f|, n) && IsMatrix(x, n, cols) && k < n && i < n && k != i
    ensures MatMul(ColAdd(f, i, k, c), RowSub(x, k, i, c), cols) == MatMul(f, x, cols)
  {
    var p, q := MatMul(ColAdd(f, i, k, c), RowSub(x, k, i, c), cols), MatMul(f, x, cols);
    forall t, j | 0 <= t < |f| && 0 <= j < cols
      ensures p[t][j] == q[t][j]
    {
      ShearEntry(f, x, n, cols, k, i, c, t, j);
    }
    SameEntries(p, q, |f|, cols);
  }

  lemma ShearEntry(f: Matrix, x: Matrix, n: nat, cols: nat, k: nat, i: nat, c: real, t: nat, j: nat)
    requires IsMatrix(f, |f|, n) && IsMatrix(x, n, cols) && k < n && i < n && k != i
    requires t < |f| && j < cols
    ensures Dot(ColAdd(f, i, k, c)[t], Column(RowSub(x, k, i, c), j)) == Dot(f[t], Column(x, j))
  {
    var col := Column(x, j);
    var col' := Column(RowSub(x, k, i, c), j);
    forall e | 0 <= e < n
      ensures col'[e] == col[k := col[k] - col[i] * c][e]
    {
    }
    assert col' == col[k := col[k] - col[i] * c];
    DotShear(f[t], col, i, k, c);
  }

  lemma ProductRescale(f: Matrix, x: Matrix, n: nat, cols: nat, i: nat, d: real)
    requires IsMatrix(f, |f|, n) && IsMatrix(x, n, cols) && i < n && d != 0.0
    ensures MatMul(ColScale(f, i, d), RowDiv(x, i, d), cols) == MatMul(f, x, cols)
  {
    var p, q := MatMul(ColScale(f, i, d), RowDiv(x, i, d), cols), MatMul(f, x, cols);
    forall t, j | 0 <= t < |f| && 0 <= j < cols
      ensures p[t][j] == q[t][j]
    {
      RescaleEntry(f, x, n, cols, i, d, t, j);
    }
    SameEntries(p, q, |f|, cols);
  }

  lemma RescaleEntry(f: Matrix, x: Matrix, n: nat, cols: nat, i: nat, d: real, t: nat, j: nat)
    requires IsMatrix(f, |f|, n) && IsMatrix(x, n, cols) && i < n && d != 0.0
    requires t < |f| && j < cols
    ensures Dot(ColScale(f, i, d)[t], Column(RowDiv(x, i, d), j)) == Dot(f[t], Column(x, j))
  {
    var col := Column(x, j);
    var col' := Column(RowDiv(x, i, d), j);
    forall e | 0 <= e < n
      ensures col'[e] == col[i := col[i] / d][e]
    {
    }
    assert col' == col[i := col[i] / d];
    DotRescale(f[t], col, i, d);
  }

  // ---------------------------------------------------------------------
  // The augmented matrix of inverse and what elimination keeps
  // ---------------------------------------------------------------------

  /** The square matrix a with the identity of the same size to its right. */
  function Augment(a: Matrix, n: nat): (m: Matrix)
    requires IsMatrix(a, n, n)
    ensures IsMatrix(m, n, 2 * n)
    ensures forall r, c :: 0 <= r < n && 0 <= c < 2 * n ==>
              m[r][c] == if c < n then a[r][c] else if c - n == r then 1.0 else 0.0
  {
    seq(n, r requires 0 <= r < n =>
      seq(2 * n, c requires 0 <= c < 2 * n => if c < n then a[r][c] else if c - n == r then 1.0 else 0.0))
  }

  /** The left n columns of an n x 2n augmented matrix. */
  function Left(m: Matrix, n: nat): (l: Matrix)
    requires IsMatrix(m, n, 2 * n)
    ensures IsMatrix(l, n, n) && forall r :: 0 <= r < n ==> l[r] == m[r][..n]
  {
    seq(n, r requires 0 <= r < n => m[r][..n])
  }

  /** The right n columns of an n x 2n augmented matrix. */
  function Right(m: Matrix, n: nat): (l: Matrix)
    requires IsMatrix(m, n, 2 * n)
    ensures IsMatrix(l, n, n) && forall r :: 0 <= r < n ==> l[r] == m[r][n..]
  {
    seq(n, r requires 0 <= r < n => m[r][n..])
  }

  /** A row operation on the augmented matrix is that operation on both halves. */
  lemma HalvesRowSub(m: Matrix, n: nat, k: nat, i: nat, c: real)
    requires IsMatrix(m, n, 2 * n) && k < n && i < n
    ensures IsMatrix(RowSub(m, k, i, c), n, 2 * n)
    ensures Left(RowSub(m, k, i, c), n) == RowSub(Left(m, n), k, i, c)
    ensures Right(RowSub(m, k, i, c), n) == RowSub(Right(m, n), k, i, c)
  {
    LeftRowSub(m, n, k, i, c);
    RightRowSub(m, n, k, i, c);
  }

  lemma LeftRowSub(m: Matrix, n: nat, k: nat, i: nat, c: real)
    requires IsMatrix(m, n, 2 * n) && k < n && i < n
    ensures IsMatrix(RowSub(m, k, i, c), n, 2 * n)
    ensures Left(RowSub(m, k, i, c), n) == RowSub(Left(m, n), k, i, c)
  {
    var x, y := Left(RowSub(m, k, i, c), n), RowSub(Left(m, n), k, i, c);
    forall r, e | 0 <= r < n && 0 <= e < n
      ensures x[r][e] == y[r][e]
    {
      if r == k {
        assert x[r][e] == m[k][e] - m[i][e] * c;
      }
    }
    SameEntries(x, y, n, n);
  }

  lemma RightRowSub(m: Matrix, n: nat, k: nat, i: nat, c: real)
    requires IsMatrix(m, n, 2 * n) && k < n && i < n
    ensures IsMatrix(RowSub(m, k, i, c), n, 2 * n)
    ensures Right(RowSub(m, k, i, c), n) == RowSub(Right(m, n), k, i, c)
  {
    var x, y := Right(RowSub(m, k, i, c), n), RowSub(Right(m, n), k, i, c);
    forall r | 0 <= r < n
      ensures x[r] == y[r]
    {
      if r == k {
        var row := Sub(m[k], Scale(m[i], c));
        assert x[k] == row[n..];
        assert y[k] == Sub(m[k][n..], Scale(m[i][n..], c));
        assert forall e :: 0 <= e < n ==> row[n..][e] == y[k][e];
      }
    }
  }

  lemma HalvesRowDiv(m: Matrix, n: nat, i: nat, d: real)
    requires IsMatrix(m, n, 2 * n) && i < n && d != 0.0
    ensures IsMatrix(RowDiv(m, i, d), n, 2 * n)
    ensures Left(RowDiv(m, i, d), n) == RowDiv(Left(m, n), i, d)
    ensures Right(RowDiv(m, i, d), n) == RowDiv(Right(m, n), i, d)
  {
    SameEntries(Left(RowDiv(m, i, d), n), RowDiv(Left(m, n), i, d), n, n);
    SameEntries(Right(RowDiv(m, i, d), n), RowDiv(Right(m, n), i, d), n, n);
  }

  /** What elimination keeps, for the matrix a being inverted, the
      augmented matrix m = [L | R] and a ghost matrix f: R * a == L,
      f * L == a and f * R == I. Row operations act on m from the left and
      f records their inverses from the right. */
  ghost predicate Tracks(a: Matrix, m: Matrix, f: Matrix, n: nat)
  {
    && IsMatrix(a, n, n) && IsMatrix(m, n, 2 * n) && IsMatrix(f, n, n)
    && MatMul(Right(m, n), a, n) == Left(m, n)
    && MatMul(f, Left(m, n), n) == a
    && MatMul(f, Right(m, n), n) == Identity(n, n)
  }

  /** [a | I] with f = I satisfies the invariant. */
  lemma TracksStart(a: Matrix, n: nat)
    requires IsMatrix(a, n, n)
    ensures Tracks(a, Augment(a, n), Identity(n, n), n)
  {
    var m := Augment(a, n);
    SameEntries(Left(m, n), a, n, n);
    SameEntries(Right(m, n), Identity(n, n), n, n);
    IdentityTimes(a, n, n);
    IdentityTimes(Identity(n, n), n, n);
  }

  /** Subtracting c times row i from row k keeps the invariant. */
  lemma TracksRowSub(a: Matrix, m: Matrix, f: Matrix, n: nat, k: nat, i: nat, c: real)
    requires Tracks(a, m, f, n) && k < n && i < n && k != i
    ensures Tracks(a, RowSub(m, k, i, c), ColAdd(f, i, k, c), n)
  {
    HalvesRowSub(m, n, k, i, c);
    ProductRowSub(Right(m, n), a, n, n, k, i, c);
    ProductShear(f, Left(m, n), n, n, k, i, c);
    ProductShear(f, Right(m, n), n, n, k, i, c);
  }

  /** Dividing row i by d keeps the invariant. */
  lemma TracksRowDiv(a: Matrix, m: Matrix, f: Matrix, n: nat, i: nat, d: real)
    requires Tracks(a, m, f, n) && i < n && d != 0.0
    ensures Tracks(a, RowDiv(m, i, d), ColScale(f, i, d), n)
  {
    HalvesRowDiv(m, n, i, d);
    ProductRowDiv(Right(m, n), a, n, n, i, d);
    ProductRescale(f, Left(m, n), n, n, i, d);
    ProductRescale(f, Right(m, n), n, n, i, d);
  }

  /** Once the left half is the identity, the right half is a two-sided
      inverse of a: R * a == I, and f == a gives a * R == I. */
  lemma TracksEnd(a: Matrix, m: Matrix, f: Matrix, n: nat)
    requires Tracks(a, m, f, n) && Left(m, n) == Identity(n, n)
    ensures MatMul(Right(m, n), a, n) == Identity(n, n)
    ensures MatMul(a, Right(m, n), n) == Identity(n, n)
  {
    TimesIdentity(f, n, n);
  }

  /** In the identity case no row changes: pivots are 1 and the entries
      eliminated are already 0. */
  lemma RowDivByOne(m: Matrix, i: nat)
    requires i < |m|
    ensures RowDiv(m, i, 1.0) == m
  {
    assert Div(m[i], 1.0) == m[i];
  }

  lemma RowSubZero(m: Matrix, k: nat, i: nat)
    requires k < |m| && i < |m| && |m[k]| == |m[i]|
    ensures RowSub(m, k, i, 0.0) == m
  {
    assert Sub(m[k], Scale(m[i], 0.0)) == m[k];
  }

  // ---------------------------------------------------------------------
  // Shape of the left half during elimination
  // ---------------------------------------------------------------------

  /** The Kronecker delta: the entries of the identity. */
  function Delta(r: int, c: int): (d: real)
    ensures d == 1.0 <==> r == c
    ensures d == 0.0 <==> r != c
  {
    if r == c then 1.0 else 0.0
  }

  /** The first i columns of the left half are those of the identity on
      and below the diagonal. */
  ghost predicate LowerCleared(m: Matrix, n: nat, i: nat)
    requires IsMatrix(m, n, 2 * n) && i <= n
  {
    forall r, c :: 0 <= c < i && c <= r < n ==> m[r][c] == Delta(r, c)
  }

  /** Inside the first pass at pivot i: row i is normalised and rows
      i + 1 .. k - 1 are cleared in column i. */
  ghost predicate BelowCleared(m: Matrix, n: nat, i: nat, k: nat)
    requires IsMatrix(m, n, 2 * n) && i < n
  {
    && LowerCleared(m, n, i)
    && m[i][i] == 1.0
    && forall r :: i < r < k && r < n ==> m[r][i] == 0.0
  }

  /** The left half is upper unitriangular and its columns i .. n - 1 are
      those of the identity. */
  ghost predicate UpperCleared(m: Matrix, n: nat, i: nat)
    requires IsMatrix(m, n, 2 * n) && i <= n
  {
    && LowerCleared(m, n, n)
    && forall r, c :: 0 <= r < n && i <= c < n ==> m[r][c] == Delta(r, c)
  }

  /** Inside the second pass at pivot i: rows k + 1 .. i - 1 are cleared in
      column i. */
  ghost predicate AboveCleared(m: Matrix, n: nat, i: nat, k: int)
    requires IsMatrix(m, n, 2 * n) && i < n
  {
    && UpperCleared(m, n, i + 1)
    && forall r :: k < r < i && 0 <= r ==> m[r][i] == 0.0
  }

  /** Normalising the pivot row starts the elimination below it. */
  lemma NormaliseStep(m: Matrix, n: nat, i: nat)
    requires IsMatrix(m, n, 2 * n) && i < n && LowerCleared(m, n, i) && m[i][i] != 0.0
    ensures IsMatrix(RowDiv(m, i, m[i][i]), n, 2 * n)
    ensures BelowCleared(RowDiv(m, i, m[i][i]), n, i, i + 1)
  {
    var m' := RowDiv(m, i, m[i][i]);
    forall r, c | 0 <= c < i && c <= r < n
      ensures m'[r][c] == Delta(r, c)
    {
      if r == i {
        assert m'[r][c] == m[i][c] / m[i][i];
      }
    }
  }

  /** Clearing row k in the pivot column keeps everything else cleared. */
  lemma EliminateBelowStep(m: Matrix, n: nat, i: nat, k: nat)
    requires IsMatrix(m, n, 2 * n) && i < k < n && BelowCleared(m, n, i, k)
    ensures IsMatrix(RowSub(m, k, i, m[k][i]), n, 2 * n)
    ensures BelowCleared(RowSub(m, k, i, m[k][i]), n, i, k + 1)
  {
    var c := m[k][i];
    var m' := RowSub(m, k, i, c);
    forall r, e | 0 <= e < i && e <= r < n
      ensures m'[r][e] == Delta(r, e)
    {
      if r == k {
        assert m'[r][e] == m[k][e] - m[i][e] * c;
      }
    }
    assert m'[k][i] == m[k][i] - m[i][i] * c;
  }

  /** A fully cleared pivot column extends the lower shape by one column. */
  lemma BelowDone(m: Matrix, n: nat, i: nat)
    requires IsMatrix(m, n, 2 * n) && i < n && BelowCleared(m, n, i, n)
    ensures LowerCleared(m, n, i + 1)
  {
  }

  /** The lower shape for all columns is the start of the second pass. */
  lemma UpperStart(m: Matrix, n: nat)
    requires IsMatrix(m, n, 2 * n) && LowerCleared(m, n, n)
    ensures UpperCleared(m, n, n)
  {
  }

  /** Clearing row k above the pivot keeps everything else cleared. */
  lemma EliminateAboveStep(m: Matrix, n: nat, i: nat, k: nat)
    requires IsMatrix(m, n, 2 * n) && k < i < n && AboveCleared(m, n, i, k)
    ensures IsMatrix(RowSub(m, k, i, m[k][i]), n, 2 * n)
    ensures AboveCleared(RowSub(m, k, i, m[k][i]), n, i, k - 1)
  {
    var c := m[k][i];
    var m' := RowSub(m, k, i, c);
    assert m'[k] == Sub(m[k], Scale(m[i], c));
    forall e | 0 <= e < n
      ensures m'[k][e] == if e == i then 0.0 else m[k][e]
    {
      assert m[i][e] == Delta(i, e);
      assert m'[k][e] == m[k][e] - m[i][e] * c;
    }
  }

  /** A fully cleared column i extends the upper shape by one column. */
  lemma AboveDone(m: Matrix, n: nat, i: nat)
    requires IsMatrix(m, n, 2 * n) && i < n && AboveCleared(m, n, i, -1)
    ensures UpperCleared(m, n, i)
  {
  }

  /** Column 0 needs no second-pass step: the left half is then I. */
  lemma UpperDone(m: Matrix, n: nat)
    requires IsMatrix(m, n, 2 * n) && 1 <= n && UpperCleared(m, n, 1)
    ensures Left(m, n) == Identity(n, n)
  {
    SameEntries(Left(m, n), Identity(n, n), n, n);
  }

  // ---------------------------------------------------------------------
  // Gauss-Jordan inversion
  // ---------------------------------------------------------------------

  /** Divides row i, from its last column down to column lo, by the entry
      at (i, i). Once column i is passed that entry is 1, so entries left of
      the pivot keep their value. */
  method NormaliseRow(m: Matrix, i: nat, lo: nat) returns (m': Matrix)
    requires i < |m| && lo <= i < |m[i]| && m[i][i] != 0.0
    ensures |m'| == |m| && forall t :: 0 <= t < |m| && t != i ==> m'[t] == m[t]
    ensures |m'[i]| == |m[i]|
    ensures forall j :: 0 <= j < |m[i]| ==> m'[i][j] == if i <= j then m[i][j] / m[i][i] else m[i][j]
    ensures (forall j :: 0 <= j < i ==> m[i][j] == 0.0) ==> m' == RowDiv(m, i, m[i][i])
  {
    m' := m;
    var j: int := |m[i]| - 1;
    while j >= lo
      invariant lo - 1 <= j < |m[i]|
      invariant |m'| == |m| && forall t :: 0 <= t < |m| && t != i ==> m'[t] == m[t]
      invariant |m'[i]| == |m[i]|
      invariant forall e :: j < e < |m[i]| ==> m'[i][e] == if i <= e then m[i][e] / m[i][i] else m[i][e]
      invariant forall e :: 0 <= e <= j ==> m'[i][e] == m[i][e]
      decreases j
    {
      m' := m'[i := m'[i][j := m'[i][j] / m'[i][i]]];
      j := j - 1;
    }
    if forall e :: 0 <= e < i ==> m[i][e] == 0.0 {
      assert m'[i] == Div(m[i], m[i][i]);
    }
  }

  /** Subtracts c times row i from row k, column by column. */
  method SubtractRow(m: Matrix, k: nat, i: nat, c: real) returns (m': Matrix)
    requires k < |m| && i < |m| && k != i && |m[k]| == |m[i]|
    ensures m' == RowSub(m, k, i, c)
  {
    m' := m;
    for j := 0 to |m[k]|
      invariant |m'| == |m| && forall t :: 0 <= t < |m| && t != k ==> m'[t] == m[t]
      invariant |m'[k]| == |m[k]|
      invariant forall e :: 0 <= e < j ==> m'[k][e] == m[k][e] - m[i][e] * c
      invariant forall e :: j <= e < |m[k]| ==> m'[k][e] == m[k][e]
    {
      m' := m'[k := m'[k][j := m'[k][j] - m'[i][j] * c]];
    }
    assert m'[k] == Sub(m[k], Scale(m[i], c));
  }

  /** Copies a into the left half of an n x 2n zero matrix and puts ones
      on the diagonal of the right half. */
  method AugmentOf(a: DMatrix) returns (r: DMatrix)
    requires a.Valid() && a.rows == a.cols
    ensures r.Valid() && r.rows == a.rows && r.cols == 2 * a.cols
    ensures r.raws == Augment(a.raws, a.rows)
  {
    var n := a.rows;
    r := Zeros(n, 2 * n);
    for i := 0 to n
      invariant r.Valid() && r.rows == n && r.cols == 2 * n
      invariant forall t, c :: 0 <= t < n && 0 <= c < 2 * n ==>
                  r.raws[t][c] == if t < i && c < n then a.raws[t][c] else 0.0
    {
      for j := 0 to n
        invariant r.Valid() && r.rows == n && r.cols == 2 * n
        invariant forall t, c :: 0 <= t < n && 0 <= c < 2 * n ==>
                    r.raws[t][c] == if (t < i && c < n) || (t == i && c < j) then a.raws[t][c] else 0.0
      {
        r := r.Set(i, j, a.raws[i][j]);
      }
    }
    for i := 0 to n
      invariant r.Valid() && r.rows == n && r.cols == 2 * n
      invariant forall t, c :: 0 <= t < n && 0 <= c < 2 * n ==>
                  r.raws[t][c] == if c < n then a.raws[t][c] else if c - n == t && t < i then 1.0 else 0.0
    {
      r := r.Set(i, i + n, 1.0);
    }
    SameEntries(r.raws, Augment(a.raws, n), n, 2 * n);
  }

  /** Normalises pivot row i from its last column down to column lo, as a
      row division that keeps the invariant. A pivot already equal to 1
      leaves the matrix as it is. */
  method Pivot(ghost a: Matrix, m: Matrix, ghost f: Matrix, n: nat, i: nat, lo: nat)
    returns (m': Matrix, ghost f': Matrix)
    requires i < n && lo <= i && Tracks(a, m, f, n) && LowerCleared(m, n, i) && m[i][i] != 0.0
    ensures Tracks(a, m', f', n) && BelowCleared(m', n, i, i + 1)
    ensures m[i][i] == 1.0 ==> m' == m
  {
    NormaliseStep(m, n, i);
    TracksRowDiv(a, m, f, n, i, m[i][i]);
    f' := ColScale(f, i, m[i][i]);
    if m[i][i] == 1.0 {
      RowDivByOne(m, i);
    }
    m' := NormaliseRow(m, i, lo);
  }

  /** Clears entry (k, i) by subtracting row i scaled by that entry, as a
      row operation that keeps the invariant. */
  method Eliminate(ghost a: Matrix, m: Matrix, ghost f: Matrix, n: nat, k: nat, i: nat)
    returns (m': Matrix, ghost f': Matrix)
    requires k < n && i < n && k != i && Tracks(a, m, f, n)
    ensures Tracks(a, m', f', n) && m' == RowSub(m, k, i, m[k][i])
    ensures m[k][i] == 0.0 ==> m' == m
  {
    var coeff := m[k][i];
    TracksRowSub(a, m, f, n, k, i, coeff);
    f' := ColAdd(f, i, k, coeff);
    if coeff == 0.0 {
      RowSubZero(m, k, i);
    }
    m' := SubtractRow(m, k, i, coeff);
  }

  /** The left half is already the identity: no step changes such a
      matrix. */
  ghost predicate UnitLeft(m: Matrix, n: nat)
    requires IsMatrix(m, n, 2 * n)
  {
    forall r, c :: 0 <= r < n && 0 <= c < n ==> m[r][c] == Delta(r, c)
  }

  /** The first pass: for each pivot but the last, normalise its row and
      clear the column below it. It stops with ok == false at a zero pivot. */
  method ForwardPass(ghost a: Matrix, m: Matrix, ghost f: Matrix, n: nat)
    returns (ok: bool, m': Matrix, ghost f': Matrix)
    requires 1 <= n && Tracks(a, m, f, n)
    ensures ok ==> Tracks(a, m', f', n) && LowerCleared(m', n, n - 1)
    ensures UnitLeft(m, n) ==> ok && m' == m
  {
    m', f' := m, f;
    for i := 0 to n - 1
      invariant Tracks(a, m', f', n) && LowerCleared(m', n, i)
      invariant UnitLeft(m, n) ==> m' == m
    {
      if m'[i][i] == 0.0 {
        ok := false;
        return;
      }
      m', f' := Pivot(a, m', f', n, i, 0);
      for k := i + 1 to n
        invariant Tracks(a, m', f', n) && BelowCleared(m', n, i, k)
        invariant UnitLeft(m, n) ==> m' == m
      {
        EliminateBelowStep(m', n, i, k);
        m', f' := Eliminate(a, m', f', n, k, i);
      }
      BelowDone(m', n, i);
    }
    ok := true;
  }

  /** Normalises the last row from its last column down to the pivot. */
  method NormaliseLast(ghost a: Matrix, m: Matrix, ghost f: Matrix, n: nat)
    returns (ok: bool, m': Matrix, ghost f': Matrix)
    requires 1 <= n && Tracks(a, m, f, n) && LowerCleared(m, n, n - 1)
    ensures ok ==> Tracks(a, m', f', n) && LowerCleared(m', n, n)
    ensures UnitLeft(m, n) ==> ok && m' == m
  {
    m', f' := m, f;
    if m[n - 1][n - 1] == 0.0 {
      ok := false;
      return;
    }
    m', f' := Pivot(a, m, f, n, n - 1, n - 1);
    BelowDone(m', n, n - 1);
    ok := true;
  }

  /** The second pass: for each pivot from the last down to the second,
      clear the column above it. */
  method BackwardPass(ghost a: Matrix, m: Matrix, ghost f: Matrix, n: nat)
    returns (m': Matrix, ghost f': Matrix)
    requires 1 <= n && Tracks(a, m, f, n) && LowerCleared(m, n, n)
    ensures Tracks(a, m', f', n) && Left(m', n) == Identity(n, n)
    ensures UnitLeft(m, n) ==> m' == m
  {
    m', f' := m, f;
    UpperStart(m, n);
    var i := n - 1;
    while i > 0
      invariant 0 <= i < n
      invariant Tracks(a, m', f', n) && UpperCleared(m', n, i + 1)
      invariant UnitLeft(m, n) ==> m' == m
      decreases i
    {
      var k: int := i - 1;
      while k >= 0
        invariant -1 <= k < i
        invariant Tracks(a, m', f', n) && AboveCleared(m', n, i, k)
        invariant UnitLeft(m, n) ==> m' == m
        decreases k
      {
        EliminateAboveStep(m', n, i, k);
        m', f' := Eliminate(a, m', f', n, k, i);
        k := k - 1;
      }
      AboveDone(m', n, i);
      i := i - 1;
    }
    UpperDone(m', n);
  }

  /** [I | I] has the identity on the left and on the right. */
  lemma AugmentIdentity(n: nat)
    ensures UnitLeft(Augment(Identity(n, n), n), n)
    ensures Right(Augment(Identity(n, n), n), n) == Identity(n, n)
  {
    SameEntries(Right(Augment(Identity(n, n), n), n), Identity(n, n), n, n);
  }

  /** Copies the right half of the augmented matrix out. */
  method Truncate(m: Matrix, n: nat) returns (r: DMatrix)
    requires IsMatrix(m, n, 2 * n)
    ensures r.Valid() && r.rows == n && r.cols == n
    ensures r.raws == Right(m, n)
  {
    r := Zeros(n, n);
    for i := 0 to n
      invariant r.Valid() && r.rows == n && r.cols == n
      invariant forall t, c :: 0 <= t < n && 0 <= c < n ==>
                  r.raws[t][c] == if t < i then m[t][c + n] else 0.0
    {
      for j := 0 to n
        invariant r.Valid() && r.rows == n && r.cols == n
        invariant forall t, c :: 0 <= t < n && 0 <= c < n ==>
                    r.raws[t][c] == if t < i || (t == i && c < j) then m[t][c + n] else 0.0
      {
        r := r.Set(i, j, m[i][j + n]);
      }
    }
    SameEntries(r.raws, Right(m, n), n, n);
  }

  /** Inverts a square matrix by Gauss-Jordan elimination on [a | I]
      without row exchanges. When every pivot is non-zero (ok), the result
      is a two-sided inverse of a. The identity is always inverted, to
      itself. */
  method Inverse(a: DMatrix) returns (inv: DMatrix, ok: bool)
    requires a.Valid() && a.rows == a.cols && 1 <= a.rows
    ensures inv.Valid() && inv.rows == a.rows && inv.cols == a.cols
    ensures ok ==> MatMul(inv.raws, a.raws, a.cols) == Identity(a.rows, a.rows)
    ensures ok ==> MatMul(a.raws, inv.raws, a.cols) == Identity(a.rows, a.rows)
    ensures a.raws == Identity(a.rows, a.rows) ==> ok && inv.raws == a.raws
  {
    var n := a.rows;
    var result := AugmentOf(a);
    TracksStart(a.raws, n);
    ghost var f := Identity(n, n);
    var m := result.raws;
    if a.raws == Identity(n, n) {
      AugmentIdentity(n);
    }
    ok, m, f := ForwardPass(a.raws, m, f, n);
    if !ok {
      inv := Zeros(n, n);
      return;
    }
    ok, m, f := NormaliseLast(a.raws, m, f, n);
    if !ok {
      inv := Zeros(n, n);
      return;
    }
    m, f := BackwardPass(a.raws, m, f, n);
    inv := Truncate(m, n);
    TracksEnd(a.raws, m, f, n);
  }
}
