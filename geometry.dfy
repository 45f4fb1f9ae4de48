/** The fixed-size linear algebra kernel of include/util/geometry.h.

    `Vector<d, T>` is a sequence of `d` reals and `Matrix<row, col, T>` the
    sequence of its `row` rows, each of `col` reals. Floats are ideal reals:
    no rounding, no NaN and no infinity. */
module Geometry {

  type Vec = seq<real>
  type Vec3 = v: Vec | |v| == 3 witness [0.0, 0.0, 0.0]
  type Matrix = seq<seq<real>>

  function Abs(x: real): real { if x < 0.0 then -x else x }

  /** std::min(a, b): `b < a ? b : a`. */
  function Min(a: real, b: real): (r: real)
    ensures r <= a && r <= b && (r == a || r == b)
  {
    if b < a then b else a
  }

  /** std::max(a, b): `a < b ? b : a`. */
  function Max(a: real, b: real): (r: real)
    ensures r >= a && r >= b && (r == a || r == b)
  {
    if a < b then b else a
  }

  // ---------------------------------------------------------------------
  // Vectors
  // ---------------------------------------------------------------------

  /** operator*(Vector, Vector): `ret += lhs[i] * rhs[i]` for i = 0 .. d-1. */
  function Dot(a: Vec, b: Vec): real
    requires |a| == |b|
    decreases |a|
  {
    if |a| == 0 then 0.0 else Dot(a[..|a| - 1], b[..|b| - 1]) + a[|a| - 1] * b[|b| - 1]
  }

  /** Dot on a prefix of length k is Dot on the prefix of length k - 1 plus the last product. */
  lemma DotSnoc(a: Vec, b: Vec, k: nat)
    requires |a| == |b| && 0 < k <= |a|
    ensures Dot(a[..k], b[..k]) == Dot(a[..k - 1], b[..k - 1]) + a[k - 1] * b[k - 1]
  {
    assert a[..k][..k - 1] == a[..k - 1] && b[..k][..k - 1] == b[..k - 1];
  }

  function Add(a: Vec, b: Vec): (r: Vec)
    requires |a| == |b|
    ensures |r| == |a| && forall i :: 0 <= i < |a| ==> r[i] == a[i] + b[i]
  {
    seq(|a|, i requires 0 <= i < |a| => a[i] + b[i])
  }

  function Sub(a: Vec, b: Vec): (r: Vec)
    requires |a| == |b|
    ensures |r| == |a| && forall i :: 0 <= i < |a| ==> r[i] == a[i] - b[i]
  {
    seq(|a|, i requires 0 <= i < |a| => a[i] - b[i])
  }

  function Scale(v: Vec, s: real): (r: Vec)
    ensures |r| == |v| && forall i :: 0 <= i < |v| ==> r[i] == v[i] * s
  {
    seq(|v|, i requires 0 <= i < |v| => v[i] * s)
  }

  /** operator/(Vector, U); a float division by zero is outside the model. */
  function Div(v: Vec, s: real): (r: Vec)
    requires s != 0.0
    ensures |r| == |v| && forall i :: 0 <= i < |v| ==> r[i] == v[i] / s
  {
    seq(|v|, i requires 0 <= i < |v| => v[i] / s)
  }

  /** A sum of vectors minus one of them is the other. */
  lemma AddThenSub(a: Vec, b: Vec)
    requires |a| == |b|
    ensures Sub(Add(a, b), b) == a
  {
    assert forall i :: 0 <= i < |a| ==> Sub(Add(a, b), b)[i] == a[i];
  }

  /** Dividing by the factor undoes a scalar multiplication. */
  lemma DivUndoesScale(v: Vec, s: real)
    requires s != 0.0
    ensures Div(Scale(v, s), s) == v
  {
    forall i | 0 <= i < |v|
      ensures Div(Scale(v, s), s)[i] == v[i]
    {
      assert Scale(v, s)[i] / s == (v[i] * s) / s;
    }
  }

  lemma {:induction false} DotCommutes(a: Vec, b: Vec)
    requires |a| == |b|
    ensures Dot(a, b) == Dot(b, a)
    decreases |a|
  {
    if |a| > 0 {
      DotCommutes(a[..|a| - 1], b[..|b| - 1]);
    }
  }

  lemma {:induction false} DotAddLeft(a: Vec, b: Vec, c: Vec)
    requires |a| == |b| == |c|
    ensures Dot(Add(a, b), c) == Dot(a, c) + Dot(b, c)
    decreases |a|
  {
    if |a| > 0 {
      var n := |a| - 1;
      assert Add(a, b)[..n] == Add(a[..n], b[..n]);
      DotAddLeft(a[..n], b[..n], c[..n]);
    }
  }

  lemma {:induction false} DotSubLeft(a: Vec, b: Vec, c: Vec)
    requires |a| == |b| == |c|
    ensures Dot(Sub(a, b), c) == Dot(a, c) - Dot(b, c)
    decreases |a|
  {
    if |a| > 0 {
      var n := |a| - 1;
      assert Sub(a, b)[..n] == Sub(a[..n], b[..n]);
      DotSubLeft(a[..n], b[..n], c[..n]);
    }
  }

  lemma {:induction false} DotScaleLeft(a: Vec, s: real, b: Vec)
    requires |a| == |b|
    ensures Dot(Scale(a, s), b) == s * Dot(a, b)
    decreases |a|
  {
    if |a| > 0 {
      var n := |a| - 1;
      assert forall i :: 0 <= i < n ==> Scale(a, s)[..n][i] == Scale(a[..n], s)[i];
      assert Scale(a, s)[..n] == Scale(a[..n], s);
      DotScaleLeft(a[..n], s, b[..n]);
    }
  }

  /** The dot product of two 3-vectors written out. */
  lemma Dot3(a: Vec, b: Vec)
    requires |a| == |b| == 3
    ensures Dot(a, b) == a[0] * b[0] + a[1] * b[1] + a[2] * b[2]
  {
    assert a[..2][..1] == a[..1] && b[..2][..1] == b[..1];
    assert a[..1][..0] == [] && b[..1][..0] == [];
    assert Dot(a[..1], b[..1]) == a[0] * b[0];
    assert Dot(a[..2], b[..2]) == a[0] * b[0] + a[1] * b[1];
  }

  /** The dot product of two 4-vectors written out. */
  lemma Dot4(a: Vec, b: Vec)
    requires |a| == |b| == 4
    ensures Dot(a, b) == a[0] * b[0] + a[1] * b[1] + a[2] * b[2] + a[3] * b[3]
  {
    Dot3(a[..3], b[..3]);
  }

  /** embed<l>(v, fill): the first d components of v, then `fill`. */
  function Embed(l: nat, v: Vec, fill: real): (r: Vec)
    ensures |r| == l
    ensures forall i :: 0 <= i < l ==> r[i] == if i < |v| then v[i] else fill
    ensures |v| <= l ==> Projection(|v|, r) == v
  {
    seq(l, i requires 0 <= i < l => if i < |v| then v[i] else fill)
  }

  /** projection<l>(v): `ret[i] = v[i]` for i < l, where `v[i]` asserts i < d. */
  function Projection(l: nat, v: Vec): (r: Vec)
    requires l <= |v|
    ensures r == v[..l]
  {
    seq(l, i requires 0 <= i < l => v[i])
  }

  /** cross(lhs, rhs) for 3-vectors. */
  function Cross(a: Vec3, b: Vec3): (r: Vec3)
    ensures Dot(r, a) == 0.0 && Dot(r, b) == 0.0
  {
    var r := [a[1] * b[2] - a[2] * b[1], a[2] * b[0] - a[0] * b[2], a[0] * b[1] - a[1] * b[0]];
    Dot3(r, a);
    Dot3(r, b);
    r
  }

  /** std::round: the nearest integer, halfway cases away from zero. */
  function RoundHalfAway(x: real): (n: int)
    ensures Abs(x - n as real) <= 0.5
    ensures Abs(x - n as real) == 0.5 ==> Abs(n as real) > Abs(x)
  {
    if x >= 0.0 then (x + 0.5).Floor else -((-x + 0.5).Floor)
  }

  lemma RoundOfInteger(k: int)
    ensures RoundHalfAway(k as real) == k
  {
  }

  /** Vector::round(): std::round on every component. */
  function Round(v: Vec): (r: Vec)
    ensures |r| == |v|
    ensures forall i :: 0 <= i < |v| ==> r[i] == RoundHalfAway(v[i]) as real
  {
    seq(|v|, i requires 0 <= i < |v| => RoundHalfAway(v[i]) as real)
  }

  // ---------------------------------------------------------------------
  // Matrices
  // ---------------------------------------------------------------------

  predicate IsMatrix(m: Matrix, rows: nat, cols: nat) {
    |m| == rows && forall i :: 0 <= i < |m| ==> |m[i]| == cols
  }

  predicate IsSquare(m: Matrix) {
    IsMatrix(m, |m|, |m|)
  }

  /** column(c): `ret[i] = raw[i][c]`, after `assert(c < col)`. */
  function Column(m: Matrix, c: nat): (r: Vec)
    requires forall i :: 0 <= i < |m| ==> c < |m[i]|
    ensures |r| == |m|
    ensures forall i :: 0 <= i < |m| ==> r[i] == m[i][c]
  {
    seq(|m|, i requires 0 <= i < |m| => m[i][c])
  }

  /** set_column(c, v) updates the matrix in place, row by row; the
      updated matrix value is returned. */
  method SetColumn(m: Matrix, c: nat, v: Vec) returns (r: Matrix)
    requires forall i :: 0 <= i < |m| ==> c < |m[i]|
    requires |v| == |m|
    ensures |r| == |m| && forall i :: 0 <= i < |m| ==> |r[i]| == |m[i]|
    ensures Column(r, c) == v
    ensures forall i, j :: 0 <= i < |m| && 0 <= j < |m[i]| && j != c ==> r[i][j] == m[i][j]
  {
    r := m;
    for i := 0 to |m|
      invariant |r| == |m| && forall k :: 0 <= k < |m| ==> |r[k]| == |m[k]|
      invariant forall k :: 0 <= k < i ==> r[k][c] == v[k]
      invariant forall k :: i <= k < |m| ==> r[k] == m[k]
      invariant forall k, j :: 0 <= k < |m| && 0 <= j < |m[k]| && j != c ==> r[k][j] == m[k][j]
    {
      r := r[i := r[i][c := v[i]]];
    }
  }

  /** identity(): 1 where the row and column indices agree, 0 elsewhere. */
  function Identity(rows: nat, cols: nat): (m: Matrix)
    ensures IsMatrix(m, rows, cols)
    ensures forall i, j :: 0 <= i < rows && 0 <= j < cols ==> m[i][j] == if i == j then 1.0 else 0.0
  {
    seq(rows, i requires 0 <= i < rows => seq(cols, j requires 0 <= j < cols => if i == j then 1.0 else 0.0))
  }

  /** operator*(Matrix, Vector): `ret[i] = lhs[i] * rhs`. */
  function MatVec(m: Matrix, v: Vec): (r: Vec)
    requires forall i :: 0 <= i < |m| ==> |m[i]| == |v|
    ensures |r| == |m|
    ensures forall i :: 0 <= i < |m| ==> r[i] == Dot(m[i], v)
  {
    seq(|m|, i requires 0 <= i < |m| => Dot(m[i], v))
  }

  /** operator*(Matrix<row, col>, Matrix<col, col2>): `ret[i][j] = lhs[i] * rhs.column(j)`. */
  function MatMul(a: Matrix, b: Matrix, col2: nat): (r: Matrix)
    requires forall i :: 0 <= i < |a| ==> |a[i]| == |b|
    requires IsMatrix(b, |b|, col2)
    ensures IsMatrix(r, |a|, col2)
    ensures forall i, j :: 0 <= i < |a| && 0 <= j < col2 ==> r[i][j] == Dot(a[i], Column(b, j))
  {
    seq(|a|, i requires 0 <= i < |a| =>
      seq(col2, j requires 0 <= j < col2 => Dot(a[i], Column(b, j))))
  }

  /** operator/(Matrix, T): every row divided by the scalar. */
  function MatDiv(m: Matrix, s: real): (r: Matrix)
    requires s != 0.0
    ensures |r| == |m|
    ensures forall i :: 0 <= i < |m| ==> r[i] == Div(m[i], s)
  {
    seq(|m|, i requires 0 <= i < |m| => Div(m[i], s))
  }

  /** transpose(): a col x row matrix with `ret[i][j] = raw[j][i]`. */
  function Transpose(m: Matrix, cols: nat): (r: Matrix)
    requires IsMatrix(m, |m|, cols)
    ensures IsMatrix(r, cols, |m|)
    ensures forall i, j :: 0 <= i < cols && 0 <= j < |m| ==> r[i][j] == m[j][i]
  {
    seq(cols, i requires 0 <= i < cols => seq(|m|, j requires 0 <= j < |m| => m[j][i]))
  }

  lemma TransposeTwice(m: Matrix, cols: nat)
    requires IsMatrix(m, |m|, cols)
    ensures Transpose(Transpose(m, cols), |m|) == m
  {
    var t := Transpose(Transpose(m, cols), |m|);
    forall i | 0 <= i < |m|
      ensures t[i] == m[i]
    {
      assert forall j :: 0 <= j < cols ==> t[i][j] == m[i][j];
    }
  }

  /** A unit row: 1 at position k, 0 elsewhere. Its dot product picks entry k. */
  lemma {:induction false} DotUnitRow(n: nat, k: nat, v: Vec)
    requires k < n && |v| == n
    ensures Dot(Identity(n, n)[k], v) == v[k]
  {
    var e := Identity(n, n)[k];
    DotUnitPrefix(e, k, v, n);
    assert e[..n] == e && v[..n] == v;
  }

  lemma {:induction false} DotUnitPrefix(e: Vec, k: nat, v: Vec, p: nat)
    requires |e| == |v| && p <= |e| && k < |e|
    requires forall j :: 0 <= j < |e| ==> e[j] == if j == k then 1.0 else 0.0
    ensures Dot(e[..p], v[..p]) == if k < p then v[k] else 0.0
    decreases p
  {
    if p > 0 {
      DotUnitPrefix(e, k, v, p - 1);
      DotSnoc(e, v, p);
    }
  }

  /** `identity() * v == v`. */
  lemma IdentityMatVec(v: Vec)
    ensures MatVec(Identity(|v|, |v|), v) == v
  {
    var r := MatVec(Identity(|v|, |v|), v);
    forall k | 0 <= k < |v|
      ensures r[k] == v[k]
    {
      DotUnitRow(|v|, k, v);
    }
  }

  // ---------------------------------------------------------------------
  // Minors, determinant, adjugate, inverse (square matrices)
  // ---------------------------------------------------------------------

  /** get_minor(r, c): row r and column c removed, the rest in order. */
  function Minor(m: Matrix, r: nat, c: nat): (res: Matrix)
    requires IsSquare(m) && r < |m| && c < |m|
    ensures IsSquare(res) && |res| == |m| - 1
    ensures forall i, j :: 0 <= i < |m| - 1 && 0 <= j < |m| - 1 ==>
              res[i][j] == m[if i < r then i else i + 1][if j < c then j else j + 1]
  {
    seq(|m| - 1, i requires 0 <= i < |m| - 1 =>
      seq(|m| - 1, j requires 0 <= j < |m| - 1 => m[if i < r then i else i + 1][if j < c then j else j + 1]))
  }

  /** Removing row r and column c of the transpose is transposing the
      matrix with row c and column r removed. */
  lemma MinorOfTranspose(m: Matrix, r: nat, c: nat)
    requires IsSquare(m) && r < |m| && c < |m|
    ensures Minor(Transpose(m, |m|), c, r) == Transpose(Minor(m, r, c), |m| - 1)
  {
    var lhs := Minor(Transpose(m, |m|), c, r);
    var rhs := Transpose(Minor(m, r, c), |m| - 1);
    forall i | 0 <= i < |m| - 1
      ensures lhs[i] == rhs[i]
    {
      assert forall j :: 0 <= j < |m| - 1 ==> lhs[i][j] == rhs[i][j];
    }
  }

  /** dt<d>::det: the entry for d = 1, otherwise the loop
      `ans += m[0][i] * m.cofactor(0, i)` over row 0, that is the dot product
      of row 0 with the cofactors of row 0. For d = 0 the template is
      ill-formed (its minor would have size_t(-1) rows); the model reads the
      empty loop as 0. */
  function Det(m: Matrix): real
    requires IsSquare(m)
    decreases |m|, 2
  {
    if |m| == 0 then 0.0 else if |m| == 1 then m[0][0] else Dot(m[0], CofactorRow(m, 0))
  }

  /** The cofactors of row r, in column order. */
  function CofactorRow(m: Matrix, r: nat): (row: Vec)
    requires IsSquare(m) && r < |m|
    ensures |row| == |m|
    decreases |m|, 1
  {
    seq(|m|, c requires 0 <= c < |m| => Cofactor(m, r, c))
  }

  /** x negated when k is odd: `x * (k % 2 ? -1 : 1)`. */
  function Signed(k: nat, x: real): real {
    if k % 2 == 1 then -x else x
  }

  /** cofactor(r, c): the minor's determinant with sign (-1)^(r+c). */
  function Cofactor(m: Matrix, r: nat, c: nat): real
    requires IsSquare(m) && r < |m| && c < |m|
    decreases |m|, 0
  {
    Signed(r + c, Det(Minor(m, r, c)))
  }

  /** adjugate(): the matrix of cofactors (not yet transposed). */
  function Adjugate(m: Matrix): (res: Matrix)
    requires IsSquare(m)
    ensures IsSquare(res) && |res| == |m|
    ensures forall i, j :: 0 <= i < |m| && 0 <= j < |m| ==> res[i][j] == Cofactor(m, i, j)
  {
    seq(|m|, i requires 0 <= i < |m| => CofactorRow(m, i))
  }

  /** The divisor invert_transpose uses: `adjugate()[0] * raw[0]`. */
  function InvertDivisor(m: Matrix): real
    requires IsSquare(m) && |m| >= 1
  {
    Dot(Adjugate(m)[0], m[0])
  }

  /** For d >= 2 the divisor of invert_transpose is the determinant. */
  lemma DivisorIsDet(m: Matrix)
    requires IsSquare(m) && |m| >= 2
    ensures InvertDivisor(m) == Det(m)
  {
    assert Adjugate(m)[0] == CofactorRow(m, 0);
    DotCommutes(m[0], CofactorRow(m, 0));
  }

  /** For d = 1 the minor is the empty matrix, which the model gives
      determinant 0, so the model's divisor is 0 and the preconditions of
      InvertTranspose and Invert exclude the 1 x 1 case (whose instantiation
      does not compile). */
  lemma OneByOneDivisorIsZero(m: Matrix)
    requires IsSquare(m) && |m| == 1
    ensures InvertDivisor(m) == 0.0
  {
    assert Minor(m, 0, 0) == [];
    assert Det(Minor(m, 0, 0)) == 0.0;
    assert Cofactor(m, 0, 0) == 0.0;
    var a := Adjugate(m)[0];
    assert a[0] == 0.0;
    assert Dot(a[..0], m[0][..0]) == 0.0;
    assert Dot(a, m[0]) == Dot(a[..0], m[0][..0]) + a[0] * m[0][0];
  }

  /** invert_transpose(): the adjugate divided by `adjugate()[0] * raw[0]`. */
  function InvertTranspose(m: Matrix): (r: Matrix)
    requires IsSquare(m) && |m| >= 1 && InvertDivisor(m) != 0.0
    ensures IsSquare(r) && |r| == |m|
  {
    MatDiv(Adjugate(m), InvertDivisor(m))
  }

  /** Entry (i, j) of invert_transpose() is cofactor (i, j) over the divisor. */
  lemma InvertTransposeEntry(m: Matrix, i: nat, j: nat)
    requires IsSquare(m) && |m| >= 1 && InvertDivisor(m) != 0.0 && i < |m| && j < |m|
    ensures InvertTranspose(m)[i][j] == Cofactor(m, i, j) / InvertDivisor(m)
  {
    assert InvertTranspose(m)[i] == Div(Adjugate(m)[i], InvertDivisor(m));
  }

  /** x == a / d with d != 0 gives x * d == a. */
  lemma DivTimes(x: real, a: real, d: real)
    requires d != 0.0 && x == a / d
    ensures x * d == a
  {
  }

  /** invert(): `invert_transpose().transpose()`. */
  function Invert(m: Matrix): (r: Matrix)
    requires IsSquare(m) && |m| >= 1 && InvertDivisor(m) != 0.0
    ensures IsSquare(r) && |r| == |m|
  {
    Transpose(InvertTranspose(m), |m|)
  }

  /** Entry (i, j) of invert() is cofactor (j, i) over the divisor: the
      inverse is the transposed adjugate divided by the divisor. */
  lemma InvertEntry(m: Matrix, i: nat, j: nat)
    requires IsSquare(m) && |m| >= 1 && InvertDivisor(m) != 0.0 && i < |m| && j < |m|
    ensures Invert(m)[i][j] == Cofactor(m, j, i) / InvertDivisor(m)
  {
    InvertTransposeEntry(m, j, i);
  }

  /** Dividing a matrix by a scalar commutes with transposing it. */
  lemma TransposeOfQuotient(m: Matrix, cols: nat, s: real)
    requires IsMatrix(m, |m|, cols) && s != 0.0
    ensures IsMatrix(MatDiv(m, s), |m|, cols)
    ensures Transpose(MatDiv(m, s), cols) == MatDiv(Transpose(m, cols), s)
  {
    var lhs := Transpose(MatDiv(m, s), cols);
    var rhs := MatDiv(Transpose(m, cols), s);
    forall i | 0 <= i < cols
      ensures lhs[i] == rhs[i]
    {
      assert forall j :: 0 <= j < |m| ==> lhs[i][j] == rhs[i][j];
    }
  }

  /** invert() is the transposed adjugate divided by the divisor. */
  lemma InvertIsTransposedAdjugate(m: Matrix)
    requires IsSquare(m) && |m| >= 1 && InvertDivisor(m) != 0.0
    ensures Invert(m) == MatDiv(Transpose(Adjugate(m), |m|), InvertDivisor(m))
  {
    TransposeOfQuotient(Adjugate(m), |m|, InvertDivisor(m));
  }

  // ---------------------------------------------------------------------
  // The inverse of 2 x 2 and 3 x 3 matrices
  // ---------------------------------------------------------------------

  lemma Dot2(a: Vec, b: Vec)
    requires |a| == |b| == 2
    ensures Dot(a, b) == a[0] * b[0] + a[1] * b[1]
  {
    assert a[..1][..0] == [] && b[..1][..0] == [];
    assert Dot(a[..1], b[..1]) == a[0] * b[0];
  }

  /** p * d == q * d with d != 0 gives p == q. */
  lemma CancelFactor(p: real, q: real, d: real)
    requires d != 0.0 && p * d == q * d
    ensures p == q
  {
    assert (p - q) * d == 0.0;
  }

  /** The determinant of the 2 x 2 matrix with rows (p, q) and (r, s). */
  function Det2x2(p: real, q: real, r: real, s: real): real
  {
    p * s - q * r
  }

  /** Row 0 of the cofactors of a 2 x 2 matrix. */
  lemma CofactorRow2(m: Matrix)
    requires IsSquare(m) && |m| == 2
    ensures CofactorRow(m, 0)[0] == m[1][1] && CofactorRow(m, 0)[1] == -m[1][0]
  {
    Cofactor2(m, 0, 0);
    Cofactor2(m, 0, 1);
  }

  /** The expansion of a 2 x 2 determinant along its first row. */
  lemma Det2x2Expansion(p: real, q: real, r: real, s: real, a: real, b: real)
    requires a == s && b == -r
    ensures p * a + q * b == Det2x2(p, q, r, s)
  {
  }

  /** The cofactors of a 2 x 2 matrix are signed entries. */
  lemma Cofactor2(m: Matrix, r: nat, c: nat)
    requires IsSquare(m) && |m| == 2 && r < 2 && c < 2
    ensures Cofactor(m, r, c) == Signed(r + c, m[1 - r][1 - c])
  {
    var mm := Minor(m, r, c);
    assert Det(mm) == mm[0][0];
  }

  lemma Det2(m: Matrix)
    requires IsSquare(m) && |m| == 2
    ensures Det(m) == Det2x2(m[0][0], m[0][1], m[1][0], m[1][1])
  {
    var row := CofactorRow(m, 0);
    CofactorRow2(m);
    Dot2(m[0], row);
    Det2x2Expansion(m[0][0], m[0][1], m[1][0], m[1][1], row[0], row[1]);
  }

  /** The dot product of two 3-vectors written out by entry. */
  function Sum3(x0: real, x1: real, x2: real, y0: real, y1: real, y2: real): real
  {
    x0 * y0 + x1 * y1 + x2 * y2
  }

  /** The signed determinant of the 2 x 2 matrix left when row r and
      column c of a 3 x 3 matrix are removed. */
  function Cofactor3Formula(m: Matrix, r: nat, c: nat): real
    requires IsSquare(m) && |m| == 3 && r < 3 && c < 3
  {
    var r0, r1 := if r == 0 then 1 else 0, if r == 2 then 1 else 2;
    var c0, c1 := if c == 0 then 1 else 0, if c == 2 then 1 else 2;
    Signed(r + c, Det2x2(m[r0][c0], m[r0][c1], m[r1][c0], m[r1][c1]))
  }

  /** The cofactors of a 3 x 3 matrix are signed 2 x 2 determinants. */
  lemma Cofactor3(m: Matrix, r: nat, c: nat)
    requires IsSquare(m) && |m| == 3 && r < 3 && c < 3
    ensures Cofactor(m, r, c) == Cofactor3Formula(m, r, c)
  {
    Det2(Minor(m, r, c));
  }

  /** The row-0 expansion of a 3 x 3 determinant over the entries. */
  function Det3Formula(m: Matrix): real
    requires IsSquare(m) && |m| == 3
  {
    Sum3(m[0][0], m[0][1], m[0][2], Cofactor3Formula(m, 0, 0), Cofactor3Formula(m, 0, 1), Cofactor3Formula(m, 0, 2))
  }

  lemma Det3(m: Matrix)
    requires IsSquare(m) && |m| == 3
    ensures Det(m) == Det3Formula(m)
  {
    Dot3(m[0], CofactorRow(m, 0));
    Cofactor3(m, 0, 0); Cofactor3(m, 0, 1); Cofactor3(m, 0, 2);
  }

  /** The arithmetic behind m * inv == identity for 2 x 2 matrices: each
      entry of inv is a signed entry of m over d = a e - b c. */
  lemma RightInverseArith2(a: real, b: real, c: real, e: real, d: real,
                           i00: real, i01: real, i10: real, i11: real)
    requires d == a * e - b * c && d != 0.0
    requires i00 == e / d && i01 == -b / d && i10 == -c / d && i11 == a / d
    ensures a * i00 + b * i10 == 1.0 && a * i01 + b * i11 == 0.0
    ensures c * i00 + e * i10 == 0.0 && c * i01 + e * i11 == 1.0
  {
    DivTimes(i00, e, d); DivTimes(i01, -b, d); DivTimes(i10, -c, d); DivTimes(i11, a, d);
    CancelFactor(a * i00 + b * i10, 1.0, d);
    CancelFactor(a * i01 + b * i11, 0.0, d);
    CancelFactor(c * i00 + e * i10, 0.0, d);
    CancelFactor(c * i01 + e * i11, 1.0, d);
  }

  /** The arithmetic behind inv * m == identity for 2 x 2 matrices. */
  lemma LeftInverseArith2(a: real, b: real, c: real, e: real, d: real,
                          i00: real, i01: real, i10: real, i11: real)
    requires d == a * e - b * c && d != 0.0
    requires i00 == e / d && i01 == -b / d && i10 == -c / d && i11 == a / d
    ensures i00 * a + i01 * c == 1.0 && i00 * b + i01 * e == 0.0
    ensures i10 * a + i11 * c == 0.0 && i10 * b + i11 * e == 1.0
  {
    DivTimes(i00, e, d); DivTimes(i01, -b, d); DivTimes(i10, -c, d); DivTimes(i11, a, d);
    assert (i00 * a + i01 * c) * d == a * (i00 * d) + c * (i01 * d);
    CancelFactor(i00 * a + i01 * c, 1.0, d);
    assert (i00 * b + i01 * e) * d == b * (i00 * d) + e * (i01 * d);
    CancelFactor(i00 * b + i01 * e, 0.0, d);
    assert (i10 * a + i11 * c) * d == a * (i10 * d) + c * (i11 * d);
    CancelFactor(i10 * a + i11 * c, 0.0, d);
    assert (i10 * b + i11 * e) * d == b * (i10 * d) + e * (i11 * d);
    CancelFactor(i10 * b + i11 * e, 1.0, d);
  }

  /** An entry of the product of two 2 x 2 matrices written out. */
  lemma MatMulEntry2(a: Matrix, b: Matrix, i: nat, j: nat)
    requires IsSquare(a) && IsSquare(b) && |a| == |b| == 2 && i < 2 && j < 2
    ensures MatMul(a, b, 2)[i][j] == a[i][0] * b[0][j] + a[i][1] * b[1][j]
  {
    Dot2(a[i], Column(b, j));
  }

  /** Two 2 x 2 matrices that agree entry by entry are equal. */
  lemma Equal2(p: Matrix, q: Matrix)
    requires IsSquare(p) && IsSquare(q) && |p| == |q| == 2
    requires p[0][0] == q[0][0] && p[0][1] == q[0][1] && p[1][0] == q[1][0] && p[1][1] == q[1][1]
    ensures p == q
  {
    assert p[0] == q[0] && p[1] == q[1];
  }

  /** Entry (i, j) of the inverse of a 2 x 2 matrix: the entry of m at the
      other row and column, negated off the diagonal, over the divisor. */
  lemma InvertEntry2(m: Matrix, i: nat, j: nat)
    requires IsSquare(m) && |m| == 2 && InvertDivisor(m) != 0.0 && i < 2 && j < 2
    ensures Invert(m)[i][j] == Signed(i + j, m[1 - j][1 - i]) / InvertDivisor(m)
  {
    InvertEntry(m, i, j);
    Cofactor2(m, j, i);
  }

  /** For inv whose entries are the signed entries of m over its
      determinant, m * inv == identity. */
  lemma RightInverse2(m: Matrix, inv: Matrix, d: real)
    requires IsSquare(m) && IsSquare(inv) && |m| == |inv| == 2
    requires d == m[0][0] * m[1][1] - m[0][1] * m[1][0] && d != 0.0
    requires inv[0][0] == m[1][1] / d && inv[0][1] == -m[0][1] / d &&
             inv[1][0] == -m[1][0] / d && inv[1][1] == m[0][0] / d
    ensures MatMul(m, inv, 2) == Identity(2, 2)
  {
    RightInverseArith2(m[0][0], m[0][1], m[1][0], m[1][1], d, inv[0][0], inv[0][1], inv[1][0], inv[1][1]);
    MatMulEntry2(m, inv, 0, 0); MatMulEntry2(m, inv, 0, 1); MatMulEntry2(m, inv, 1, 0); MatMulEntry2(m, inv, 1, 1);
    Equal2(MatMul(m, inv, 2), Identity(2, 2));
  }

  /** For the same inv, inv * m == identity. */
  lemma LeftInverse2(m: Matrix, inv: Matrix, d: real)
    requires IsSquare(m) && IsSquare(inv) && |m| == |inv| == 2
    requires d == m[0][0] * m[1][1] - m[0][1] * m[1][0] && d != 0.0
    requires inv[0][0] == m[1][1] / d && inv[0][1] == -m[0][1] / d &&
             inv[1][0] == -m[1][0] / d && inv[1][1] == m[0][0] / d
    ensures MatMul(inv, m, 2) == Identity(2, 2)
  {
    LeftInverseArith2(m[0][0], m[0][1], m[1][0], m[1][1], d, inv[0][0], inv[0][1], inv[1][0], inv[1][1]);
    MatMulEntry2(inv, m, 0, 0); MatMulEntry2(inv, m, 0, 1); MatMulEntry2(inv, m, 1, 0); MatMulEntry2(inv, m, 1, 1);
    Equal2(MatMul(inv, m, 2), Identity(2, 2));
  }

  /** The divisor of a 2 x 2 inverse is `m[0][0] m[1][1] - m[0][1] m[1][0]`. */
  lemma Divisor2(m: Matrix)
    requires IsSquare(m) && |m| == 2
    ensures InvertDivisor(m) == Det(m) == m[0][0] * m[1][1] - m[0][1] * m[1][0]
  {
    DivisorIsDet(m);
    Det2(m);
  }

  /** A 2 x 2 matrix times its inverse, on either side, is the identity. */
  lemma InverseProducts2(m: Matrix)
    requires IsSquare(m) && |m| == 2 && InvertDivisor(m) != 0.0
    ensures MatMul(m, Invert(m), 2) == Identity(2, 2) && MatMul(Invert(m), m, 2) == Identity(2, 2)
  {
    Divisor2(m);
    InvertEntry2(m, 0, 0); InvertEntry2(m, 0, 1); InvertEntry2(m, 1, 0); InvertEntry2(m, 1, 1);
    RightInverse2(m, Invert(m), InvertDivisor(m));
    LeftInverse2(m, Invert(m), InvertDivisor(m));
  }

  /** `m * m.invert() == identity` and `m.invert() * m == identity` for a
      2 x 2 matrix with a nonzero determinant. */
  lemma InvertTwoByTwo(m: Matrix)
    requires IsSquare(m) && |m| == 2 && Det(m) != 0.0
    ensures InvertDivisor(m) == Det(m)
    ensures MatMul(m, Invert(m), 2) == Identity(2, 2)
    ensures MatMul(Invert(m), m, 2) == Identity(2, 2)
  {
    DivisorIsDet(m);
    InverseProducts2(m);
  }

  /** Three quotients with a common divisor add up to the quotient of the sum. */
  lemma SumOverDivisor(x0: real, x1: real, x2: real, y0: real, y1: real, y2: real, d: real)
    requires d != 0.0
    ensures Sum3(x0, x1, x2, y0 / d, y1 / d, y2 / d) == Sum3(x0, x1, x2, y0, y1, y2) / d
  {
  }

  /** Three products whose second factors are quotients by d, where the
      products of the numerators add up to d or 0, add up to 1 or 0. */
  lemma SumOfQuotients(x0: real, x1: real, x2: real, q0: real, q1: real, q2: real,
                       y0: real, y1: real, y2: real, d: real, b: bool)
    requires d != 0.0 && q0 == y0 / d && q1 == y1 / d && q2 == y2 / d
    requires Sum3(x0, x1, x2, y0, y1, y2) == if b then d else 0.0
    ensures Sum3(x0, x1, x2, q0, q1, q2) == if b then 1.0 else 0.0
  {
    SumOverDivisor(x0, x1, x2, y0, y1, y2, d);
    if b {
      assert Sum3(x0, x1, x2, y0, y1, y2) / d == d / d == 1.0;
    } else {
      assert Sum3(x0, x1, x2, y0, y1, y2) / d == 0.0 / d == 0.0;
    }
  }

  /** Sum3 does not depend on which vector comes first. */
  lemma Sum3Commutes(x0: real, x1: real, x2: real, y0: real, y1: real, y2: real)
    ensures Sum3(x0, x1, x2, y0, y1, y2) == Sum3(y0, y1, y2, x0, x1, x2)
  {
  }

  /** An entry of the product of two 3 x 3 matrices written out. */
  lemma MatMulEntry3(a: Matrix, b: Matrix, i: nat, j: nat)
    requires IsSquare(a) && IsSquare(b) && |a| == |b| == 3 && i < 3 && j < 3
    ensures MatMul(a, b, 3)[i][j] == Sum3(a[i][0], a[i][1], a[i][2], b[0][j], b[1][j], b[2][j])
  {
    Dot3(a[i], Column(b, j));
  }

  /** Two 3 x 3 matrices that agree entry by entry are equal. */
  lemma Equal3(p: Matrix, q: Matrix)
    requires IsSquare(p) && IsSquare(q) && |p| == |q| == 3
    requires forall i, j :: 0 <= i < 3 && 0 <= j < 3 ==> p[i][j] == q[i][j]
    ensures p == q
  {
    assert p[0] == q[0] && p[1] == q[1] && p[2] == q[2];
  }

  /** inv is the transpose of cof divided by d. */
  predicate IsScaledTranspose3(inv: Matrix, cof: Matrix, d: real)
    requires IsSquare(inv) && IsSquare(cof) && |inv| == |cof| == 3 && d != 0.0
  {
    forall r, c :: 0 <= r < 3 && 0 <= c < 3 ==> inv[r][c] == cof[c][r] / d
  }

  /** Rows of m against rows of cof give d on the diagonal and 0 elsewhere. */
  predicate RowsAgainst3(m: Matrix, cof: Matrix, d: real)
    requires IsSquare(m) && IsSquare(cof) && |m| == |cof| == 3
  {
    forall i, j :: 0 <= i < 3 && 0 <= j < 3 ==>
      Sum3(m[i][0], m[i][1], m[i][2], cof[j][0], cof[j][1], cof[j][2]) == if i == j then d else 0.0
  }

  /** Columns of m against columns of cof give d on the diagonal and 0 elsewhere. */
  predicate ColumnsAgainst3(m: Matrix, cof: Matrix, d: real)
    requires IsSquare(m) && IsSquare(cof) && |m| == |cof| == 3
  {
    forall i, j :: 0 <= i < 3 && 0 <= j < 3 ==>
      Sum3(m[0][j], m[1][j], m[2][j], cof[0][i], cof[1][i], cof[2][i]) == if i == j then d else 0.0
  }

  /** Row i of m times column j of inv, where inv is the transposed
      cofactor matrix over d and row i against cofactor row j gives d or 0. */
  lemma RightInverseSum3(m: Matrix, cof: Matrix, inv: Matrix, d: real, i: nat, j: nat)
    requires IsSquare(m) && IsSquare(cof) && IsSquare(inv) && |m| == |cof| == |inv| == 3 && i < 3 && j < 3
    requires d != 0.0 && IsScaledTranspose3(inv, cof, d) && RowsAgainst3(m, cof, d)
    ensures Sum3(m[i][0], m[i][1], m[i][2], inv[0][j], inv[1][j], inv[2][j]) == if i == j then 1.0 else 0.0
  {
    SumOfQuotients(m[i][0], m[i][1], m[i][2], inv[0][j], inv[1][j], inv[2][j], cof[j][0], cof[j][1], cof[j][2], d, i == j);
  }

  /** Row i of inv times column j of m, for inv as above. */
  lemma LeftInverseSum3(m: Matrix, cof: Matrix, inv: Matrix, d: real, i: nat, j: nat)
    requires IsSquare(m) && IsSquare(cof) && IsSquare(inv) && |m| == |cof| == |inv| == 3 && i < 3 && j < 3
    requires d != 0.0 && IsScaledTranspose3(inv, cof, d) && ColumnsAgainst3(m, cof, d)
    ensures Sum3(inv[i][0], inv[i][1], inv[i][2], m[0][j], m[1][j], m[2][j]) == if i == j then 1.0 else 0.0
  {
    SumOfQuotients(m[0][j], m[1][j], m[2][j], inv[i][0], inv[i][1], inv[i][2], cof[0][i], cof[1][i], cof[2][i], d, i == j);
    Sum3Commutes(m[0][j], m[1][j], m[2][j], inv[i][0], inv[i][1], inv[i][2]);
  }

  /** With such a cof, its transpose over d is a two-sided inverse of m. */
  lemma Inverse3(m: Matrix, cof: Matrix, inv: Matrix, d: real)
    requires IsSquare(m) && IsSquare(cof) && IsSquare(inv) && |m| == |cof| == |inv| == 3
    requires d != 0.0 && IsScaledTranspose3(inv, cof, d)
    requires RowsAgainst3(m, cof, d) && ColumnsAgainst3(m, cof, d)
    ensures MatMul(m, inv, 3) == Identity(3, 3) && MatMul(inv, m, 3) == Identity(3, 3)
  {
    forall i, j | 0 <= i < 3 && 0 <= j < 3
      ensures MatMul(m, inv, 3)[i][j] == Identity(3, 3)[i][j]
      ensures MatMul(inv, m, 3)[i][j] == Identity(3, 3)[i][j]
    {
      MatMulEntry3(m, inv, i, j);
      RightInverseSum3(m, cof, inv, d, i, j);
      MatMulEntry3(inv, m, i, j);
      LeftInverseSum3(m, cof, inv, d, i, j);
    }
    Equal3(MatMul(m, inv, 3), Identity(3, 3));
    Equal3(MatMul(inv, m, 3), Identity(3, 3));
  }

  /** The divisor of a 3 x 3 inverse is the row-0 expansion over the entries. */
  lemma Divisor3(m: Matrix)
    requires IsSquare(m) && |m| == 3
    ensures InvertDivisor(m) == Det(m) == Det3Formula(m)
  {
    DivisorIsDet(m);
    Det3(m);
  }

  /** The 3 x 3 matrix of cofactor formulas. */
  function CofactorMatrix3(m: Matrix): (cof: Matrix)
    requires IsSquare(m) && |m| == 3
    ensures IsSquare(cof) && |cof| == 3
    ensures forall r, c :: 0 <= r < 3 && 0 <= c < 3 ==> cof[r][c] == Cofactor3Formula(m, r, c)
  {
    [[Cofactor3Formula(m, 0, 0), Cofactor3Formula(m, 0, 1), Cofactor3Formula(m, 0, 2)],
     [Cofactor3Formula(m, 1, 0), Cofactor3Formula(m, 1, 1), Cofactor3Formula(m, 1, 2)],
     [Cofactor3Formula(m, 2, 0), Cofactor3Formula(m, 2, 1), Cofactor3Formula(m, 2, 2)]]
  }

  /** The cofactor identities of a 3 x 3 matrix with rows (a, b, c),
      (d, e, f), (g, h, k) and cofactors cRC: a row against the cofactors
      of its own row gives the determinant Sum3(a, b, c, c00, c01, c02), against the
      cofactors of another row 0, and likewise for columns. These lemmas
      state them one cofactor row or column at a time. */
  lemma CofactorRowSums0(a: real, b: real, c: real, d: real, e: real, f: real, g: real, h: real, k: real,
                          c00: real, c01: real, c02: real)
    requires c00 == Det2x2(e, f, h, k) && c01 == -Det2x2(d, f, g, k) && c02 == Det2x2(d, e, g, h)
    ensures Sum3(d, e, f, c00, c01, c02) == 0.0 && Sum3(g, h, k, c00, c01, c02) == 0.0
  {
  }

  lemma CofactorRowSums1(a: real, b: real, c: real, d: real, e: real, f: real, g: real, h: real, k: real,
                          c00: real, c01: real, c02: real, c10: real, c11: real, c12: real)
    requires c00 == Det2x2(e, f, h, k) && c01 == -Det2x2(d, f, g, k) && c02 == Det2x2(d, e, g, h)
    requires c10 == -Det2x2(b, c, h, k) && c11 == Det2x2(a, c, g, k) && c12 == -Det2x2(a, b, g, h)
    ensures Sum3(a, b, c, c10, c11, c12) == 0.0 && Sum3(g, h, k, c10, c11, c12) == 0.0
    ensures Sum3(d, e, f, c10, c11, c12) == Sum3(a, b, c, c00, c01, c02)
  {
  }

  lemma CofactorRowSums2(a: real, b: real, c: real, d: real, e: real, f: real, g: real, h: real, k: real,
                          c00: real, c01: real, c02: real, c20: real, c21: real, c22: real)
    requires c00 == Det2x2(e, f, h, k) && c01 == -Det2x2(d, f, g, k) && c02 == Det2x2(d, e, g, h)
    requires c20 == Det2x2(b, c, e, f) && c21 == -Det2x2(a, c, d, f) && c22 == Det2x2(a, b, d, e)
    ensures Sum3(a, b, c, c20, c21, c22) == 0.0 && Sum3(d, e, f, c20, c21, c22) == 0.0
    ensures Sum3(g, h, k, c20, c21, c22) == Sum3(a, b, c, c00, c01, c02)
  {
  }

  lemma CofactorColumnSums0(a: real, b: real, c: real, d: real, e: real, f: real, g: real, h: real, k: real,
                             c00: real, c01: real, c02: real, c10: real, c20: real)
    requires c00 == Det2x2(e, f, h, k) && c01 == -Det2x2(d, f, g, k) && c02 == Det2x2(d, e, g, h)
    requires c10 == -Det2x2(b, c, h, k) && c20 == Det2x2(b, c, e, f)
    ensures Sum3(b, e, h, c00, c10, c20) == 0.0 && Sum3(c, f, k, c00, c10, c20) == 0.0
    ensures Sum3(a, d, g, c00, c10, c20) == Sum3(a, b, c, c00, c01, c02)
  {
  }

  lemma CofactorColumnSums1(a: real, b: real, c: real, d: real, e: real, f: real, g: real, h: real, k: real,
                             c00: real, c01: real, c02: real, c11: real, c21: real)
    requires c00 == Det2x2(e, f, h, k) && c01 == -Det2x2(d, f, g, k) && c02 == Det2x2(d, e, g, h)
    requires c11 == Det2x2(a, c, g, k) && c21 == -Det2x2(a, c, d, f)
    ensures Sum3(a, d, g, c01, c11, c21) == 0.0 && Sum3(c, f, k, c01, c11, c21) == 0.0
    ensures Sum3(b, e, h, c01, c11, c21) == Sum3(a, b, c, c00, c01, c02)
  {
  }

  lemma CofactorColumnSums2(a: real, b: real, c: real, d: real, e: real, f: real, g: real, h: real, k: real,
                             c00: real, c01: real, c02: real, c12: real, c22: real)
    requires c00 == Det2x2(e, f, h, k) && c01 == -Det2x2(d, f, g, k) && c02 == Det2x2(d, e, g, h)
    requires c12 == -Det2x2(a, b, g, h) && c22 == Det2x2(a, b, d, e)
    ensures Sum3(a, d, g, c02, c12, c22) == 0.0 && Sum3(b, e, h, c02, c12, c22) == 0.0
    ensures Sum3(c, f, k, c02, c12, c22) == Sum3(a, b, c, c00, c01, c02)
  {
  }

  /** RowsAgainst3 and ColumnsAgainst3 from their nine instances each. */
  lemma AgainstFromSums3(m: Matrix, cof: Matrix, det: real)
    requires IsSquare(m) && IsSquare(cof) && |m| == |cof| == 3
    requires Sum3(m[0][0], m[0][1], m[0][2], cof[0][0], cof[0][1], cof[0][2]) == det
    requires Sum3(m[0][0], m[0][1], m[0][2], cof[1][0], cof[1][1], cof[1][2]) == 0.0
    requires Sum3(m[0][0], m[0][1], m[0][2], cof[2][0], cof[2][1], cof[2][2]) == 0.0
    requires Sum3(m[1][0], m[1][1], m[1][2], cof[0][0], cof[0][1], cof[0][2]) == 0.0
    requires Sum3(m[1][0], m[1][1], m[1][2], cof[1][0], cof[1][1], cof[1][2]) == det
    requires Sum3(m[1][0], m[1][1], m[1][2], cof[2][0], cof[2][1], cof[2][2]) == 0.0
    requires Sum3(m[2][0], m[2][1], m[2][2], cof[0][0], cof[0][1], cof[0][2]) == 0.0
    requires Sum3(m[2][0], m[2][1], m[2][2], cof[1][0], cof[1][1], cof[1][2]) == 0.0
    requires Sum3(m[2][0], m[2][1], m[2][2], cof[2][0], cof[2][1], cof[2][2]) == det
    requires Sum3(m[0][0], m[1][0], m[2][0], cof[0][0], cof[1][0], cof[2][0]) == det
    requires Sum3(m[0][1], m[1][1], m[2][1], cof[0][0], cof[1][0], cof[2][0]) == 0.0
    requires Sum3(m[0][2], m[1][2], m[2][2], cof[0][0], cof[1][0], cof[2][0]) == 0.0
    requires Sum3(m[0][0], m[1][0], m[2][0], cof[0][1], cof[1][1], cof[2][1]) == 0.0
    requires Sum3(m[0][1], m[1][1], m[2][1], cof[0][1], cof[1][1], cof[2][1]) == det
    requires Sum3(m[0][2], m[1][2], m[2][2], cof[0][1], cof[1][1], cof[2][1]) == 0.0
    requires Sum3(m[0][0], m[1][0], m[2][0], cof[0][2], cof[1][2], cof[2][2]) == 0.0
    requires Sum3(m[0][1], m[1][1], m[2][1], cof[0][2], cof[1][2], cof[2][2]) == 0.0
    requires Sum3(m[0][2], m[1][2], m[2][2], cof[0][2], cof[1][2], cof[2][2]) == det
    ensures RowsAgainst3(m, cof, det) && ColumnsAgainst3(m, cof, det)
  {
  }

  /** The cofactors of a 3 x 3 matrix against its rows and columns: the
      expansion of the determinant along any row or column, and 0 for
      cofactors of a different row or column. */
  lemma CofactorExpansions3(m: Matrix)
    requires IsSquare(m) && |m| == 3
    ensures RowsAgainst3(m, CofactorMatrix3(m), Det3Formula(m))
    ensures ColumnsAgainst3(m, CofactorMatrix3(m), Det3Formula(m))
  {
    var cof := CofactorMatrix3(m);
    CofactorRowSums0(m[0][0], m[0][1], m[0][2], m[1][0], m[1][1], m[1][2], m[2][0], m[2][1], m[2][2],
                      cof[0][0], cof[0][1], cof[0][2]);
    CofactorRowSums1(m[0][0], m[0][1], m[0][2], m[1][0], m[1][1], m[1][2], m[2][0], m[2][1], m[2][2],
                      cof[0][0], cof[0][1], cof[0][2], cof[1][0], cof[1][1], cof[1][2]);
    CofactorRowSums2(m[0][0], m[0][1], m[0][2], m[1][0], m[1][1], m[1][2], m[2][0], m[2][1], m[2][2],
                      cof[0][0], cof[0][1], cof[0][2], cof[2][0], cof[2][1], cof[2][2]);
    CofactorColumnSums0(m[0][0], m[0][1], m[0][2], m[1][0], m[1][1], m[1][2], m[2][0], m[2][1], m[2][2],
                         cof[0][0], cof[0][1], cof[0][2], cof[1][0], cof[2][0]);
    CofactorColumnSums1(m[0][0], m[0][1], m[0][2], m[1][0], m[1][1], m[1][2], m[2][0], m[2][1], m[2][2],
                         cof[0][0], cof[0][1], cof[0][2], cof[1][1], cof[2][1]);
    CofactorColumnSums2(m[0][0], m[0][1], m[0][2], m[1][0], m[1][1], m[1][2], m[2][0], m[2][1], m[2][2],
                         cof[0][0], cof[0][1], cof[0][2], cof[1][2], cof[2][2]);
    AgainstFromSums3(m, cof, Det3Formula(m));
  }

  /** invert() of a 3 x 3 matrix is its transposed cofactor matrix over the divisor. */
  lemma InvertIsScaledCofactors3(m: Matrix)
    requires IsSquare(m) && |m| == 3 && InvertDivisor(m) != 0.0
    ensures IsScaledTranspose3(Invert(m), CofactorMatrix3(m), InvertDivisor(m))
  {
    var cof := CofactorMatrix3(m);
    forall r, c | 0 <= r < 3 && 0 <= c < 3
      ensures Invert(m)[r][c] == cof[c][r] / InvertDivisor(m)
    {
      InvertEntry(m, r, c);
      Cofactor3(m, c, r);
    }
  }

  /** A 3 x 3 matrix times its inverse, on either side, is the identity. */
  lemma InverseProducts3(m: Matrix)
    requires IsSquare(m) && |m| == 3 && InvertDivisor(m) != 0.0
    ensures MatMul(m, Invert(m), 3) == Identity(3, 3) && MatMul(Invert(m), m, 3) == Identity(3, 3)
  {
    Divisor3(m);
    CofactorExpansions3(m);
    InvertIsScaledCofactors3(m);
    Inverse3(m, CofactorMatrix3(m), Invert(m), InvertDivisor(m));
  }

  /** `m * m.invert() == identity` and `m.invert() * m == identity` for a
      3 x 3 matrix with a nonzero determinant. */
  lemma InvertThreeByThree(m: Matrix)
    requires IsSquare(m) && |m| == 3 && Det(m) != 0.0
    ensures InvertDivisor(m) == Det(m)
    ensures MatMul(m, Invert(m), 3) == Identity(3, 3)
    ensures MatMul(Invert(m), m, 3) == Identity(3, 3)
  {
    DivisorIsDet(m);
    InverseProducts3(m);
  }
}
