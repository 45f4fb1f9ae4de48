/** The transform builders, barycentric weights and triangle rasteriser of
    src/graphics.cpp. The three global 4 x 4 matrices View, Projection and
    Viewport are the fields of a `Transforms` object; TGAImage is an
    `Image` holding a width x height array of colours; the shader is its
    `fragment` function, from barycentric weights to (discard, colour). */
module Graphics {
  import opened Geometry

  /** `depth` of include/graphics.h. */
  const Depth: real := 2000.0

  // ---------------------------------------------------------------------
  // Transform builders
  // ---------------------------------------------------------------------

  /** The identity with scale (w/2, h/2, depth/2) on the diagonal and
      translation (x + w/2, y + h/2, depth/2) in column 3. */
  function ViewportMatrix(x: int, y: int, w: int, h: int): (m: Matrix)
    ensures IsMatrix(m, 4, 4)
  {
    [[w as real / 2.0, 0.0, 0.0, x as real + w as real / 2.0],
     [0.0, h as real / 2.0, 0.0, y as real + h as real / 2.0],
     [0.0, 0.0, Depth / 2.0, Depth / 2.0],
     [0.0, 0.0, 0.0, 1.0]]
  }

  /** The viewport maps normalised device coordinates [-1, 1] onto
      [x, x + w] x [y, y + h] x [0, depth], keeping w = 1. */
  lemma ViewportMaps(x: int, y: int, w: int, h: int, px: real, py: real, pz: real)
    ensures MatVec(ViewportMatrix(x, y, w, h), [px, py, pz, 1.0])
         == [x as real + (w as real / 2.0) * (px + 1.0), y as real + (h as real / 2.0) * (py + 1.0),
             (Depth / 2.0) * (pz + 1.0), 1.0]
  {
    var m := ViewportMatrix(x, y, w, h);
    var v := [px, py, pz, 1.0];
    var r := MatVec(m, v);
    Dot4(m[0], v); Dot4(m[1], v); Dot4(m[2], v); Dot4(m[3], v);
    assert r[0] == x as real + (w as real / 2.0) * (px + 1.0);
    assert r[1] == y as real + (h as real / 2.0) * (py + 1.0);
    assert r[2] == (Depth / 2.0) * (pz + 1.0);
    assert r[3] == 1.0;
  }

  /** The corners (-1, -1, -1) and (1, 1, 1) go to (x, y, 0) and (x + w, y + h, depth). */
  lemma ViewportCorners(x: int, y: int, w: int, h: int)
    ensures MatVec(ViewportMatrix(x, y, w, h), [-1.0, -1.0, -1.0, 1.0]) == [x as real, y as real, 0.0, 1.0]
    ensures MatVec(ViewportMatrix(x, y, w, h), [1.0, 1.0, 1.0, 1.0])
         == [(x + w) as real, (y + h) as real, Depth, 1.0]
  {
    var m := ViewportMatrix(x, y, w, h);
    var lo, hi := [-1.0, -1.0, -1.0, 1.0], [1.0, 1.0, 1.0, 1.0];
    var r, q := MatVec(m, lo), MatVec(m, hi);
    Dot4(m[0], lo); Dot4(m[1], lo); Dot4(m[2], lo); Dot4(m[3], lo);
    Dot4(m[0], hi); Dot4(m[1], hi); Dot4(m[2], hi); Dot4(m[3], hi);
    assert r[0] == x as real && r[1] == y as real && r[2] == 0.0 && r[3] == 1.0;
    assert q[0] == (x + w) as real && q[1] == (y + h) as real && q[2] == Depth && q[3] == 1.0;
  }

  /** The identity with `coeff` at row 3, column 2. */
  function ProjectionMatrix(coeff: real): (m: Matrix)
    ensures IsMatrix(m, 4, 4)
  {
    [[1.0, 0.0, 0.0, 0.0],
     [0.0, 1.0, 0.0, 0.0],
     [0.0, 0.0, 1.0, 0.0],
     [0.0, 0.0, coeff, 1.0]]
  }

  /** The projection keeps x, y and z and sets w to coeff * z + 1. */
  lemma ProjectionMaps(coeff: real, px: real, py: real, pz: real)
    ensures MatVec(ProjectionMatrix(coeff), [px, py, pz, 1.0]) == [px, py, pz, coeff * pz + 1.0]
  {
    var m := ProjectionMatrix(coeff);
    var v := [px, py, pz, 1.0];
    var r := MatVec(m, v);
    Dot4(m[0], v); Dot4(m[1], v); Dot4(m[2], v); Dot4(m[3], v);
    assert r[0] == px && r[1] == py && r[2] == pz && r[3] == coeff * pz + 1.0;
  }

  /** projection() with the default coefficient 0 is the identity. */
  lemma ProjectionZeroIsIdentity()
    ensures ProjectionMatrix(0.0) == Identity(4, 4)
  {
    var p, e := ProjectionMatrix(0.0), Identity(4, 4);
    assert p[0] == e[0] && p[1] == e[1] && p[2] == e[2] && p[3] == e[3];
  }

  /** The matrix lookat leaves in View for the basis x, y, z: the basis
      vectors as rows 0 - 2, -center in column 3 of those rows and
      (0, 0, 0, 1) as row 3. */
  function LookAtMatrix(x: Vec3, y: Vec3, z: Vec3, center: Vec3): (m: Matrix)
    ensures IsMatrix(m, 4, 4)
  {
    [[x[0], x[1], x[2], -center[0]],
     [y[0], y[1], y[2], -center[1]],
     [z[0], z[1], z[2], -center[2]],
     [0.0, 0.0, 0.0, 1.0]]
  }

  /** View applied to a point p with w = 1: each basis vector dotted with p,
      minus the matching coordinate of center. So center itself goes to
      (x . c - c0, y . c - c1, z . c - c2), which is the origin only when
      each basis vector dotted with center gives that coordinate of center
      (for instance for the standard basis). */
  lemma LookAtMaps(x: Vec3, y: Vec3, z: Vec3, center: Vec3, p: Vec3)
    ensures MatVec(LookAtMatrix(x, y, z, center), p + [1.0])
         == [Dot(x, p) - center[0], Dot(y, p) - center[1], Dot(z, p) - center[2], 1.0]
  {
    var m := LookAtMatrix(x, y, z, center);
    var v := p + [1.0];
    var r := MatVec(m, v);
    Dot4(m[0], v); Dot4(m[1], v); Dot4(m[2], v); Dot4(m[3], v);
    Dot3(x, p); Dot3(y, p); Dot3(z, p);
    assert r[0] == Dot(x, p) - center[0] && r[1] == Dot(y, p) - center[1];
    assert r[2] == Dot(z, p) - center[2] && r[3] == 1.0;
  }

  /** The three global matrices View, Projection and Viewport. */
  class Transforms {
    var view: Matrix
    var projection: Matrix
    var viewport: Matrix

    /** Globals of type Matrix4x4 start as zero matrices. */
    constructor ()
      ensures view == projection == viewport == Zero4()
    {
      view, projection, viewport := Zero4(), Zero4(), Zero4();
    }

    /** viewport(x, y, w, h): start from the identity and overwrite six entries. */
    method SetViewport(x: int, y: int, w: int, h: int)
      modifies this
      ensures viewport == ViewportMatrix(x, y, w, h)
      ensures view == old(view) && projection == old(projection)
    {
      var m := Identity(4, 4);
      m := Set(m, 0, 3, x as real + w as real / 2.0);
      m := Set(m, 1, 3, y as real + h as real / 2.0);
      m := Set(m, 2, 3, Depth / 2.0);
      m := Set(m, 0, 0, w as real / 2.0);
      m := Set(m, 1, 1, h as real / 2.0);
      m := Set(m, 2, 2, Depth / 2.0);
      Equal4(m, ViewportMatrix(x, y, w, h));
      viewport := m;
    }

    /** projection(coeff): the identity with `Projection[3][2] = coeff`. */
    method SetProjection(coeff: real)
      modifies this
      ensures projection == ProjectionMatrix(coeff)
      ensures view == old(view) && viewport == old(viewport)
    {
      var m := Identity(4, 4);
      m := Set(m, 3, 2, coeff);
      Equal4(m, ProjectionMatrix(coeff));
      projection := m;
    }

    /** lookat(eye, center, up). `normalize` stands for Vector::normalize,
        which needs a square root: z is the normalised eye - center, x the
        normalised cross(up, z) and y the normalised cross(z, x). */
    method LookAt(eye: Vec3, center: Vec3, up: Vec3, normalize: Vec3 -> Vec3)
      modifies this
      ensures view == LookAtMatrix(LookAtX(eye, center, up, normalize), LookAtY(eye, center, up, normalize),
                                   LookAtZ(eye, center, normalize), center)
      ensures projection == old(projection) && viewport == old(viewport)
    {
      var z := normalize(Sub(eye, center));
      var x := normalize(Cross(up, z));
      var y := normalize(Cross(z, x));
      var m := Identity(4, 4);
      for i := 0 to 3
        invariant IsMatrix(m, 4, 4)
        invariant forall c :: 0 <= c < i ==> m[0][c] == x[c] && m[1][c] == y[c] && m[2][c] == z[c]
        invariant forall r :: 0 <= r < i ==> m[r][3] == -center[r]
        invariant forall r, c :: 0 <= r < 4 && 0 <= c < 4 && !(r < 3 && c < i) && !(r < i && c == 3)
                    ==> m[r][c] == if r == c then 1.0 else 0.0
      {
        m := Set(m, 0, i, x[i]);
        m := Set(m, 1, i, y[i]);
        m := Set(m, 2, i, z[i]);
        m := Set(m, i, 3, -center[i]);
      }
      Equal4(m, LookAtMatrix(x, y, z, center));
      view := m;
    }
  }

  /** A zero 4 x 4 matrix. */
  function Zero4(): (m: Matrix)
    ensures IsMatrix(m, 4, 4) && forall i, j :: 0 <= i < 4 && 0 <= j < 4 ==> m[i][j] == 0.0
  {
    seq(4, i => seq(4, j => 0.0))
  }

  /** The basis vectors lookat computes. */
  function LookAtZ(eye: Vec3, center: Vec3, normalize: Vec3 -> Vec3): Vec3
  {
    normalize(Sub(eye, center))
  }

  function LookAtX(eye: Vec3, center: Vec3, up: Vec3, normalize: Vec3 -> Vec3): Vec3
  {
    normalize(Cross(up, LookAtZ(eye, center, normalize)))
  }

  function LookAtY(eye: Vec3, center: Vec3, up: Vec3, normalize: Vec3 -> Vec3): Vec3
  {
    normalize(Cross(LookAtZ(eye, center, normalize), LookAtX(eye, center, up, normalize)))
  }

  /** `m[r][c] = v` on a matrix value. */
  function Set(m: Matrix, r: nat, c: nat, v: real): (res: Matrix)
    requires r < |m| && c < |m[r]|
    ensures |res| == |m| && forall i :: 0 <= i < |m| ==> |res[i]| == |m[i]|
    ensures res[r][c] == v
    ensures forall i, j :: 0 <= i < |m| && 0 <= j < |m[i]| && (i, j) != (r, c) ==> res[i][j] == m[i][j]
  {
    m[r := m[r][c := v]]
  }

  /** Two 4 x 4 matrices that agree entry by entry are equal. */
  lemma Equal4(p: Matrix, q: Matrix)
    requires IsMatrix(p, 4, 4) && IsMatrix(q, 4, 4)
    requires forall i, j :: 0 <= i < 4 && 0 <= j < 4 ==> p[i][j] == q[i][j]
    ensures p == q
  {
    assert p[0] == q[0] && p[1] == q[1] && p[2] == q[2] && p[3] == q[3];
  }

  // ---------------------------------------------------------------------
  // Barycentric weights
  // ---------------------------------------------------------------------

  /** The z component of cross(v0, v1) in barycentric: twice the signed
      area of the triangle a b c in the xy plane. It does not depend on p. */
  function SignedArea2(a: Vec3, b: Vec3, c: Vec3): real
  {
    Det2x2(b[0] - a[0], c[0] - a[0], b[1] - a[1], c[1] - a[1])
  }

  /** The area test of barycentric: `std::abs(ans.z) < 1e-2`. */
  predicate Degenerate(a: Vec3, b: Vec3, c: Vec3)
  {
    Abs(SignedArea2(a, b, c)) < 0.01
  }

  /** barycentric(a, b, c, p): the weights of a, b and c for the pixel p,
      or (-1, -1, 1) when the triangle is too thin. */
  function Barycentric(a: Vec3, b: Vec3, c: Vec3, px: int, py: int): (r: Vec3)
  {
    var v0: Vec3 := [b[0] - a[0], c[0] - a[0], a[0] - px as real];
    var v1: Vec3 := [b[1] - a[1], c[1] - a[1], a[1] - py as real];
    var ans := Cross(v0, v1);
    if Abs(ans[2]) < 0.01 then [-1.0, -1.0, 1.0]
    else [1.0 - (ans[0] + ans[1]) / ans[2], ans[0] / ans[2], ans[1] / ans[2]]
  }

  /** True when u are weights of a, b and c that add up to 1 and put the
      weighted sum of the points at (px, py). */
  predicate Reconstructs(a: Vec3, b: Vec3, c: Vec3, px: int, py: int, u: Vec3)
  {
    && u[0] + u[1] + u[2] == 1.0
    && Sum3(u[0], u[1], u[2], a[0], b[0], c[0]) == px as real
    && Sum3(u[0], u[1], u[2], a[1], b[1], c[1]) == py as real
  }

  /** A thin triangle gives the sentinel (-1, -1, 1), whose first weight is
      negative, so triangle skips every pixel of it. */
  lemma BarycentricDegenerate(a: Vec3, b: Vec3, c: Vec3, px: int, py: int)
    ensures Degenerate(a, b, c) <==> Barycentric(a, b, c, px, py) == [-1.0, -1.0, 1.0]
    ensures Degenerate(a, b, c) ==> Barycentric(a, b, c, px, py)[0] < 0.0
  {
    var v0: Vec3 := [b[0] - a[0], c[0] - a[0], a[0] - px as real];
    var v1: Vec3 := [b[1] - a[1], c[1] - a[1], a[1] - py as real];
    var ans := Cross(v0, v1);
    assert ans[2] == SignedArea2(a, b, c);
    if !Degenerate(a, b, c) {
      var r := Barycentric(a, b, c, px, py);
      assert r[1] == ans[0] / ans[2] && r[2] == ans[1] / ans[2];
      if r == [-1.0, -1.0, 1.0] {
        SentinelIsNotWeights(ans[0], ans[1], ans[2]);
        assert false;
      }
    }
  }

  /** No weights (1 - (x + y) / z, x / z, y / z) are (-1, -1, 1). */
  lemma SentinelIsNotWeights(x: real, y: real, z: real)
    requires z != 0.0
    ensures !(x / z == -1.0 && y / z == 1.0 && 1.0 - (x + y) / z == -1.0)
  {
    if x / z == -1.0 && y / z == 1.0 {
      assert x == -z && y == z;
      assert (x + y) / z == 0.0;
    }
  }

  /** From the orthogonality of ans = (x, y, z) to v0: the weights
      reconstruct one coordinate of p. */
  lemma WeightsFromOrthogonal(a0: real, b0: real, c0: real, p: real, x: real, y: real, z: real)
    requires z != 0.0
    requires Sum3(x, y, z, b0 - a0, c0 - a0, a0 - p) == 0.0
    ensures Sum3(1.0 - (x + y) / z, x / z, y / z, a0, b0, c0) == p
  {
    var u, v := x / z, y / z;
    assert x == u * z && y == v * z;
    assert z * (u * (b0 - a0) + v * (c0 - a0) + (a0 - p)) == 0.0;
    assert u * (b0 - a0) + v * (c0 - a0) + (a0 - p) == 0.0;
    assert (x + y) / z == u + v;
  }

  /** The weights (1 - (x + y) / z, x / z, y / z) add up to 1. */
  lemma WeightsSumToOne(x: real, y: real, z: real)
    requires z != 0.0
    ensures (1.0 - (x + y) / z) + x / z + y / z == 1.0
  {
    assert (x + y) / z == x / z + y / z;
  }

  /** A zero dot product of 3-vectors as a Sum3. */
  lemma Orthogonal3(r: Vec, v: Vec)
    requires |r| == |v| == 3 && Dot(r, v) == 0.0
    ensures Sum3(r[0], r[1], r[2], v[0], v[1], v[2]) == 0.0
  {
    Dot3(r, v);
  }

  /** Outside the degenerate case the weights add up to 1 and reconstruct p. */
  lemma BarycentricReconstructs(a: Vec3, b: Vec3, c: Vec3, px: int, py: int)
    requires !Degenerate(a, b, c)
    ensures Reconstructs(a, b, c, px, py, Barycentric(a, b, c, px, py))
  {
    var v0: Vec3 := [b[0] - a[0], c[0] - a[0], a[0] - px as real];
    var v1: Vec3 := [b[1] - a[1], c[1] - a[1], a[1] - py as real];
    var ans := Cross(v0, v1);
    assert ans[2] == SignedArea2(a, b, c);
    Orthogonal3(ans, v0);
    Orthogonal3(ans, v1);
    WeightsFromOrthogonal(a[0], b[0], c[0], px as real, ans[0], ans[1], ans[2]);
    WeightsFromOrthogonal(a[1], b[1], c[1], py as real, ans[0], ans[1], ans[2]);
    WeightsSumToOne(ans[0], ans[1], ans[2]);
  }

  /** A 2 x 2 linear system with a non-zero determinant has only the zero solution. */
  lemma TrivialKernel(p: real, q: real, r: real, s: real, x: real, y: real)
    requires p * x + q * y == 0.0 && r * x + s * y == 0.0
    requires Det2x2(p, q, r, s) != 0.0
    ensures x == 0.0 && y == 0.0
  {
    assert x * Det2x2(p, q, r, s) == s * (p * x + q * y) - q * (r * x + s * y);
    assert y * Det2x2(p, q, r, s) == p * (r * x + s * y) - r * (p * x + q * y);
  }

  /** Two weight triples that both reconstruct p for a non-degenerate
      triangle agree. */
  lemma WeightsUnique(a: Vec3, b: Vec3, c: Vec3, px: int, py: int, u: Vec3, w: Vec3)
    requires SignedArea2(a, b, c) != 0.0
    requires Reconstructs(a, b, c, px, py, u) && Reconstructs(a, b, c, px, py, w)
    ensures u == w
  {
    var d1, d2 := u[1] - w[1], u[2] - w[2];
    assert u[0] - w[0] == -d1 - d2;
    assert (b[0] - a[0]) * d1 + (c[0] - a[0]) * d2 == 0.0 by {
      assert Sum3(u[0], u[1], u[2], a[0], b[0], c[0]) - Sum3(w[0], w[1], w[2], a[0], b[0], c[0])
          == (b[0] - a[0]) * d1 + (c[0] - a[0]) * d2;
    }
    assert (b[1] - a[1]) * d1 + (c[1] - a[1]) * d2 == 0.0 by {
      assert Sum3(u[0], u[1], u[2], a[1], b[1], c[1]) - Sum3(w[0], w[1], w[2], a[1], b[1], c[1])
          == (b[1] - a[1]) * d1 + (c[1] - a[1]) * d2;
    }
    TrivialKernel(b[0] - a[0], c[0] - a[0], b[1] - a[1], c[1] - a[1], d1, d2);
  }

  /** Outside the degenerate case barycentric returns exactly the weights
      that add up to 1 and reconstruct p: the two directions. */
  lemma BarycentricCharacterised(a: Vec3, b: Vec3, c: Vec3, px: int, py: int, u: Vec3)
    requires !Degenerate(a, b, c)
    ensures Barycentric(a, b, c, px, py) == u <==> Reconstructs(a, b, c, px, py, u)
  {
    BarycentricReconstructs(a, b, c, px, py);
    if Reconstructs(a, b, c, px, py, u) {
      WeightsUnique(a, b, c, px, py, u, Barycentric(a, b, c, px, py));
    }
  }

  /** At a vertex the weights are (1, 0, 0), (0, 1, 0) or (0, 0, 1). */
  lemma BarycentricAtVertices(a: Vec3, b: Vec3, c: Vec3, px: int, py: int)
    requires !Degenerate(a, b, c)
    ensures a[0] == px as real && a[1] == py as real ==> Barycentric(a, b, c, px, py) == [1.0, 0.0, 0.0]
    ensures b[0] == px as real && b[1] == py as real ==> Barycentric(a, b, c, px, py) == [0.0, 1.0, 0.0]
    ensures c[0] == px as real && c[1] == py as real ==> Barycentric(a, b, c, px, py) == [0.0, 0.0, 1.0]
  {
    BarycentricCharacterised(a, b, c, px, py, [1.0, 0.0, 0.0]);
    BarycentricCharacterised(a, b, c, px, py, [0.0, 1.0, 0.0]);
    BarycentricCharacterised(a, b, c, px, py, [0.0, 0.0, 1.0]);
  }

  // ---------------------------------------------------------------------
  // Images
  // ---------------------------------------------------------------------

  /** TGAImage: a width x height grid of colours stored row by row, with
      pixel (x, y) at index x + y * width. */
  class Image<C> {
    const width: nat
    const height: nat
    const data: array<C>

    predicate Valid()
      reads this
    {
      data.Length == width * height
    }

    /** An image of the given size filled with one colour. */
    constructor (w: nat, h: nat, background: C)
      ensures Valid() && width == w && height == h && fresh(data)
      ensures forall i :: 0 <= i < data.Length ==> data[i] == background
    {
      width, height := w, h;
      data := new C[w * h](_ => background);
    }

    /** TGAImage::set: writes pixel (x, y) when it lies inside the image and
        reports whether it did. */
    method Set(x: int, y: int, c: C) returns (ok: bool)
      requires Valid()
      modifies data
      ensures ok <==> 0 <= x < width && 0 <= y < height
      ensures ok ==> PixelIndex(x, y, width) < data.Length
                     && data[..] == old(data[..])[PixelIndex(x, y, width) := c]
      ensures !ok ==> data[..] == old(data[..])
    {
      ok := 0 <= x < width && 0 <= y < height;
      if ok {
        PixelIndexInRange(x, y, width, height);
        data[x + y * width] := c;
      }
    }
  }

  /** The index of pixel (x, y) in a row-by-row buffer of the given width. */
  function PixelIndex(x: int, y: int, width: int): int
  {
    x + y * width
  }

  /** A pixel inside a width x height image has an index below width * height,
      and the index gives the pixel back as its remainder and quotient. */
  lemma PixelIndexInRange(x: int, y: int, width: int, height: int)
    requires 0 <= x < width && 0 <= y < height
    ensures 0 <= PixelIndex(x, y, width) < width * height
    ensures PixelIndex(x, y, width) % width == x && PixelIndex(x, y, width) / width == y
  {
    MulMonotone(y + 1, height, width);
    DivModUnique(x + y * width, width, y, x);
  }

  lemma MulMonotone(a: int, b: int, c: int)
    requires 0 <= a <= b && 0 <= c
    ensures a * c <= b * c
  {
    assert b * c - a * c == (b - a) * c;
  }

  lemma MulSub(a: int, b: int, c: int)
    ensures a * c - b * c == (a - b) * c
  {
  }

  /** i = q * w + r with 0 <= r < w fixes the quotient and the remainder. */
  lemma DivModUnique(i: int, w: int, q: int, r: int)
    requires 0 < w && 0 <= r < w && i == q * w + r
    ensures i / w == q && i % w == r
  {
    var q', r' := i / w, i % w;
    assert q' * w + r' == i;
    MulSub(q, q', w);
    if q > q' {
      MulMonotone(1, q - q', w);
    } else if q < q' {
      MulMonotone(1, q' - q, w);
    }
  }

  /** An index splits into the pixel (i % width, i / width). */
  lemma PixelOfIndex(i: int, width: int)
    requires 0 <= i && 0 < width
    ensures PixelIndex(i % width, i / width, width) == i
  {
  }

  // ---------------------------------------------------------------------
  // Screen points and the bounding box of triangle
  // ---------------------------------------------------------------------

  /** static_cast<int> of a float: truncation toward zero. */
  function Trunc(x: real): (n: int)
    ensures 0.0 <= x ==> n as real <= x < n as real + 1.0
    ensures x < 0.0 ==> n as real - 1.0 < x <= n as real
  {
    if x >= 0.0 then x.Floor else -((-x).Floor)
  }

  /** The three clip-space points triangle is given, each with w != 0 (a
      float division by zero is outside the model). */
  predicate Homogeneous(inPts: seq<Vec>)
  {
    |inPts| == 3 && forall k :: 0 <= k < 3 ==> |inPts[k]| == 4 && inPts[k][3] != 0.0
  }

  /** Three points with w = 1. */
  predicate OnScreen(pts: seq<Vec>)
  {
    |pts| == 3 && forall k :: 0 <= k < 3 ==> |pts[k]| == 4 && pts[k][3] == 1.0
  }

  /** `(inPts[i] / inPts[i][3]).round()`: the point divided by w and
      rounded to whole pixels, which leaves w = 1. */
  function ScreenPoint(v: Vec): (r: Vec)
    requires |v| == 4 && v[3] != 0.0
    ensures |r| == 4 && r[3] == 1.0
    ensures forall k :: 0 <= k < 4 ==> r[k] == RoundHalfAway(v[k] / v[3]) as real
  {
    assert Div(v, v[3])[3] == 1.0;
    RoundOfInteger(1);
    Round(Div(v, v[3]))
  }

  function ScreenPoints(inPts: seq<Vec>): (pts: seq<Vec>)
    requires Homogeneous(inPts)
    ensures OnScreen(pts) && forall k :: 0 <= k < 3 ==> pts[k] == ScreenPoint(inPts[k])
  {
    [ScreenPoint(inPts[0]), ScreenPoint(inPts[1]), ScreenPoint(inPts[2])]
  }

  /** The smallest coordinate j among the first n points. */
  function LowestOf(pts: seq<Vec>, n: nat, j: nat): real
    requires 1 <= n <= |pts| && forall k :: 0 <= k < n ==> j < |pts[k]|
  {
    if n == 1 then pts[0][j] else Min(LowestOf(pts, n - 1, j), pts[n - 1][j])
  }

  /** LowestOf is the minimum: no point is below it and one point is at it. */
  lemma {:induction false} LowestOfIsMinimum(pts: seq<Vec>, n: nat, j: nat)
    requires 1 <= n <= |pts| && forall k :: 0 <= k < n ==> j < |pts[k]|
    ensures forall k :: 0 <= k < n ==> LowestOf(pts, n, j) <= pts[k][j]
    ensures exists k :: 0 <= k < n && LowestOf(pts, n, j) == pts[k][j]
  {
    if n > 1 {
      LowestOfIsMinimum(pts, n - 1, j);
      var k :| 0 <= k < n - 1 && LowestOf(pts, n - 1, j) == pts[k][j];
      if LowestOf(pts, n, j) != pts[n - 1][j] {
        assert LowestOf(pts, n, j) == pts[k][j];
      }
    } else {
      assert LowestOf(pts, n, j) == pts[0][j];
    }
  }

  /** The largest coordinate j among the first n points. */
  function HighestOf(pts: seq<Vec>, n: nat, j: nat): real
    requires 1 <= n <= |pts| && forall k :: 0 <= k < n ==> j < |pts[k]|
  {
    if n == 1 then pts[0][j] else Max(HighestOf(pts, n - 1, j), pts[n - 1][j])
  }

  /** HighestOf is the maximum: no point is above it and one point is at it. */
  lemma {:induction false} HighestOfIsMaximum(pts: seq<Vec>, n: nat, j: nat)
    requires 1 <= n <= |pts| && forall k :: 0 <= k < n ==> j < |pts[k]|
    ensures forall k :: 0 <= k < n ==> pts[k][j] <= HighestOf(pts, n, j)
    ensures exists k :: 0 <= k < n && HighestOf(pts, n, j) == pts[k][j]
  {
    if n > 1 {
      HighestOfIsMaximum(pts, n - 1, j);
      var k :| 0 <= k < n - 1 && HighestOf(pts, n - 1, j) == pts[k][j];
      if HighestOf(pts, n, j) != pts[n - 1][j] {
        assert HighestOf(pts, n, j) == pts[k][j];
      }
    } else {
      assert HighestOf(pts, n, j) == pts[0][j];
    }
  }

  /** The pixel rectangle triangle scans, bounds included. */
  datatype Box = Box(minX: real, minY: real, maxX: real, maxY: real)

  /** The box of three screen points: their least and greatest x and y,
      clamped to the image [0, width - 1] x [0, height - 1]. */
  function BoundingBox(pts: seq<Vec>, width: int, height: int): (b: Box)
    requires OnScreen(pts)
    ensures 0.0 <= b.minX && 0.0 <= b.minY
    ensures b.maxX <= (width - 1) as real && b.maxY <= (height - 1) as real
  {
    var cx, cy := (width - 1) as real, (height - 1) as real;
    Box(Max(0.0, Min(cx, LowestOf(pts, 3, 0))), Max(0.0, Min(cy, LowestOf(pts, 3, 1))),
        Min(cx, Max(0.0, HighestOf(pts, 3, 0))), Min(cy, Max(0.0, HighestOf(pts, 3, 1))))
  }

  /** Pixel (x, y) lies in the box as the scan loops of triangle bound it:
      from the truncated minimum up to the maximum. */
  predicate InBox(b: Box, x: int, y: int)
  {
    Trunc(b.minX) <= x && x as real <= b.maxX && Trunc(b.minY) <= y && y as real <= b.maxY
  }

  /** Every pixel of the box lies inside the image. */
  lemma BoxInsideImage(pts: seq<Vec>, width: int, height: int, x: int, y: int)
    requires OnScreen(pts) && InBox(BoundingBox(pts, width, height), x, y)
    ensures 0 <= x < width && 0 <= y < height
  {
  }

  /** Every vertex that falls on a whole pixel inside the image lies in the box. */
  lemma BoxCoversVertices(pts: seq<Vec>, width: int, height: int, k: nat, x: int, y: int)
    requires OnScreen(pts) && k < 3
    requires pts[k][0] == x as real && pts[k][1] == y as real
    requires 0 <= x < width && 0 <= y < height
    ensures InBox(BoundingBox(pts, width, height), x, y)
  {
    var b := BoundingBox(pts, width, height);
    LowestOfIsMinimum(pts, 3, 0); LowestOfIsMinimum(pts, 3, 1);
    HighestOfIsMaximum(pts, 3, 0); HighestOfIsMaximum(pts, 3, 1);
    assert LowestOf(pts, 3, 0) <= x as real <= HighestOf(pts, 3, 0);
    assert LowestOf(pts, 3, 1) <= y as real <= HighestOf(pts, 3, 1);
    assert b.minX <= x as real && b.minY <= y as real;
    assert Trunc(b.minX) <= x by { assert Trunc(b.minX) as real <= b.minX; }
    assert Trunc(b.minY) <= y by { assert Trunc(b.minY) as real <= b.minY; }
  }

  /** min[j] after the first n points of the loop of triangle. */
  function LowAfter(pts: seq<Vec>, n: nat, j: nat, clamp: real): real
    requires OnScreen(pts) && n <= 3 && j < 2
  {
    if n == 0 then clamp else Max(0.0, Min(clamp, LowestOf(pts, n, j)))
  }

  /** max[j] after the first n points of the loop of triangle. */
  function HighAfter(pts: seq<Vec>, n: nat, j: nat, clamp: real): real
    requires OnScreen(pts) && n <= 3 && j < 2
  {
    if n == 0 then 0.0 else Min(clamp, Max(0.0, HighestOf(pts, n, j)))
  }

  /** One step of `min[j] = max(0, min(min[j], pts[n][j]))` and
      `max[j] = min(clamp[j], max(max[j], pts[n][j]))`. */
  lemma BoundsStep(pts: seq<Vec>, n: nat, j: nat, clamp: real)
    requires OnScreen(pts) && n < 3 && j < 2
    ensures Max(0.0, Min(LowAfter(pts, n, j, clamp), pts[n][j])) == LowAfter(pts, n + 1, j, clamp)
    ensures Min(clamp, Max(HighAfter(pts, n, j, clamp), pts[n][j])) == HighAfter(pts, n + 1, j, clamp)
  {
  }

  /** The first loop of triangle: the screen points and the box they span. */
  method ScreenBox(inPts: seq<Vec>, width: int, height: int) returns (pts: seq<Vec>, box: Box)
    requires Homogeneous(inPts)
    ensures pts == ScreenPoints(inPts)
    ensures box == BoundingBox(pts, width, height)
  {
    ghost var all := ScreenPoints(inPts);
    var clamp := [(width - 1) as real, (height - 1) as real];
    var lo := clamp;
    var hi := [0.0, 0.0];
    pts := [];
    for i := 0 to 3
      invariant |pts| == i && forall k :: 0 <= k < i ==> pts[k] == all[k]
      invariant |lo| == 2 && |hi| == 2
      invariant lo[0] == LowAfter(all, i, 0, clamp[0]) && lo[1] == LowAfter(all, i, 1, clamp[1])
      invariant hi[0] == HighAfter(all, i, 0, clamp[0]) && hi[1] == HighAfter(all, i, 1, clamp[1])
    {
      pts := pts + [ScreenPoint(inPts[i])];
      BoundsStep(all, i, 0, clamp[0]);
      BoundsStep(all, i, 1, clamp[1]);
      lo, hi := WidenBounds(lo, hi, clamp, pts[i]);
    }
    box := Box(lo[0], lo[1], hi[0], hi[1]);
  }

  /** The inner loop of the first loop of triangle, over j = 0, 1. */
  method WidenBounds(lo: Vec, hi: Vec, clamp: Vec, p: Vec) returns (lo': Vec, hi': Vec)
    requires |lo| == |hi| == |clamp| == 2 && 2 <= |p|
    ensures |lo'| == |hi'| == 2
    ensures forall j :: 0 <= j < 2 ==> lo'[j] == Max(0.0, Min(lo[j], p[j]))
    ensures forall j :: 0 <= j < 2 ==> hi'[j] == Min(clamp[j], Max(hi[j], p[j]))
  {
    lo', hi' := lo, hi;
    for j := 0 to 2
      invariant |lo'| == 2 && |hi'| == 2
      invariant forall j' :: 0 <= j' < j ==> lo'[j'] == Max(0.0, Min(lo[j'], p[j']))
      invariant forall j' :: 0 <= j' < j ==> hi'[j'] == Min(clamp[j'], Max(hi[j'], p[j']))
      invariant forall j' :: j <= j' < 2 ==> lo'[j'] == lo[j'] && hi'[j'] == hi[j']
    {
      lo' := lo'[j := Max(0.0, Min(lo'[j], p[j]))];
      hi' := hi'[j := Min(clamp[j], Max(hi'[j], p[j]))];
    }
  }

  // ---------------------------------------------------------------------
  // Shading one pixel
  // ---------------------------------------------------------------------

  /** The weights triangle computes at pixel (x, y) for screen points with w = 1. */
  function PixelWeights(pts: seq<Vec>, x: int, y: int): Vec3
    requires OnScreen(pts)
  {
    Barycentric(Projection(3, pts[0]), Projection(3, pts[1]), Projection(3, pts[2]), x, y)
  }

  /** The test triangle keeps a pixel by: no weight is negative. */
  predicate Inside(u: Vec3)
  {
    0.0 <= u[0] && 0.0 <= u[1] && 0.0 <= u[2]
  }

  /** The depth of the three points weighted by u. */
  function InterpolatedDepth(pts: seq<Vec>, u: Vec3): real
    requires OnScreen(pts)
  {
    Sum3(u[0], u[1], u[2], pts[0][2], pts[1][2], pts[2][2])
  }

  /** The depth and colour triangle leaves at pixel (x, y) that held depth
      `stored` and colour `colour`: the interpolated depth d and the
      shader's colour when the pixel is inside, d lies in front of the
      stored depth and the shader does not discard it; otherwise both as
      they were. */
  function Shade<C>(pts: seq<Vec>, fragment: Vec3 -> (bool, C), x: int, y: int, stored: real, colour: C): (res: (real, C))
    requires OnScreen(pts)
    ensures stored <= res.0
  {
    var u := PixelWeights(pts, x, y);
    var d := InterpolatedDepth(pts, u);
    if Inside(u) && stored < d && !fragment(u).0 then (d, fragment(u).1) else (stored, colour)
  }

  /** A pixel that passes the inside test lies in the triangle: its weights
      are not the sentinel, add up to 1 and reconstruct it. */
  lemma InsidePixelReconstructs(pts: seq<Vec>, x: int, y: int)
    requires OnScreen(pts) && Inside(PixelWeights(pts, x, y))
    ensures !Degenerate(Projection(3, pts[0]), Projection(3, pts[1]), Projection(3, pts[2]))
    ensures Reconstructs(Projection(3, pts[0]), Projection(3, pts[1]), Projection(3, pts[2]), x, y,
                         PixelWeights(pts, x, y))
  {
    var a, b, c := Projection(3, pts[0]), Projection(3, pts[1]), Projection(3, pts[2]);
    BarycentricDegenerate(a, b, c, x, y);
    BarycentricReconstructs(a, b, c, x, y);
  }

  /** Only pixels inside the triangle are ever written, and what is
      written there is the interpolated depth and the shader's colour. */
  lemma ShadeWritesOnlyInside<C>(pts: seq<Vec>, fragment: Vec3 -> (bool, C), x: int, y: int, stored: real, colour: C)
    requires OnScreen(pts)
    ensures var u := PixelWeights(pts, x, y);
            Shade(pts, fragment, x, y, stored, colour) != (stored, colour) ==>
              && Reconstructs(Projection(3, pts[0]), Projection(3, pts[1]), Projection(3, pts[2]), x, y, u)
              && Inside(u) && !fragment(u).0
              && Shade(pts, fragment, x, y, stored, colour) == (InterpolatedDepth(pts, u), fragment(u).1)
  {
    if Inside(PixelWeights(pts, x, y)) {
      InsidePixelReconstructs(pts, x, y);
    }
  }

  /** A triangle too thin for barycentric leaves every pixel alone. */
  lemma ShadeDegenerate<C>(pts: seq<Vec>, fragment: Vec3 -> (bool, C), x: int, y: int, stored: real, colour: C)
    requires OnScreen(pts) && Degenerate(Projection(3, pts[0]), Projection(3, pts[1]), Projection(3, pts[2]))
    ensures Shade(pts, fragment, x, y, stored, colour) == (stored, colour)
  {
    BarycentricDegenerate(Projection(3, pts[0]), Projection(3, pts[1]), Projection(3, pts[2]), x, y);
  }

  /** Shading a pixel twice is shading it once: after a write the stored
      depth equals the new depth, and the depth test is strict. */
  lemma ShadeIdempotent<C>(pts: seq<Vec>, fragment: Vec3 -> (bool, C), x: int, y: int, stored: real, colour: C)
    requires OnScreen(pts)
    ensures var r := Shade(pts, fragment, x, y, stored, colour);
            Shade(pts, fragment, x, y, r.0, r.1) == r
  {
  }

  /** At the pixel of vertex k of a non-degenerate triangle the depth
      written is that vertex's own depth. */
  lemma ShadeAtVertex<C>(pts: seq<Vec>, fragment: Vec3 -> (bool, C), k: nat, stored: real, colour: C)
    requires OnScreen(pts) && k < 3
    requires !Degenerate(Projection(3, pts[0]), Projection(3, pts[1]), Projection(3, pts[2]))
    requires pts[k][0] == pts[k][0].Floor as real && pts[k][1] == pts[k][1].Floor as real
    ensures var u := PixelWeights(pts, pts[k][0].Floor, pts[k][1].Floor);
            && Inside(u) && InterpolatedDepth(pts, u) == pts[k][2]
            && (stored < pts[k][2] && !fragment(u).0 ==>
                  Shade(pts, fragment, pts[k][0].Floor, pts[k][1].Floor, stored, colour) == (pts[k][2], fragment(u).1))
  {
    var a, b, c := Projection(3, pts[0]), Projection(3, pts[1]), Projection(3, pts[2]);
    BarycentricAtVertices(a, b, c, pts[k][0].Floor, pts[k][1].Floor);
  }

  /** Dividing by w = 1 changes nothing. */
  lemma DivByOne(v: Vec)
    ensures Div(v, 1.0) == v
  {
    assert forall i :: 0 <= i < |v| ==> Div(v, 1.0)[i] == v[i];
  }

  /** The body of the scan loops of triangle for pixel (x, y) at index i. */
  method ShadePixel<C>(pts: seq<Vec>, fragment: Vec3 -> (bool, C), image: Image<C>, zbuffer: array<real>,
                       x: int, y: int, i: int)
    requires OnScreen(pts) && image.Valid()
    requires 0 <= x < image.width && 0 <= y < image.height
    requires i == PixelIndex(x, y, image.width) && 0 <= i < image.data.Length <= zbuffer.Length
    requires zbuffer as object != image.data
    modifies zbuffer, image.data
    ensures zbuffer[..] == old(zbuffer[..])[i := Shade(pts, fragment, x, y, old(zbuffer[i]), old(image.data[i])).0]
    ensures image.data[..] == old(image.data[..])[i := Shade(pts, fragment, x, y, old(zbuffer[i]), old(image.data[i])).1]
  {
    DivByOne(pts[0]); DivByOne(pts[1]); DivByOne(pts[2]);
    var a := Projection(3, Div(pts[0], pts[0][3]));
    var b := Projection(3, Div(pts[1], pts[0][3]));
    var c := Projection(3, Div(pts[2], pts[0][3]));
    var ans := Barycentric(a, b, c, x, y);
    assert ans == PixelWeights(pts, x, y);
    if ans[0] < 0.0 || ans[1] < 0.0 || ans[2] < 0.0 {
      return;
    }
    var z := ans[0] * pts[0][2] + ans[1] * pts[1][2] + ans[2] * pts[2][2];
    var w := ans[0] * pts[0][3] + ans[1] * pts[1][3] + ans[2] * pts[2][3];
    InsidePixelReconstructs(pts, x, y);
    assert w == 1.0;
    var d := z / w;
    assert d == InterpolatedDepth(pts, ans);
    if zbuffer[i] < d {
      var (discard, colour) := fragment(ans);
      if !discard {
        zbuffer[i] := d;
        var written := image.Set(x, y, colour);
      }
    }
  }

  // ---------------------------------------------------------------------
  // The scan loops of triangle
  // ---------------------------------------------------------------------

  /** Buffer index i is a pixel of box b inside a width x height image. */
  predicate Covered(b: Box, width: nat, height: nat, i: int)
  {
    0 < width && 0 <= i < width * height && InBox(b, i % width, i / width)
  }

  /** Buffer index i is a pixel of the box that the scan loops, standing at
      (x, y) with x outside and y inside, have already shaded. */
  predicate Visited(b: Box, width: nat, height: nat, i: int, x: int, y: int)
  {
    Covered(b, width, height, i) && (i % width < x || (i % width == x && i / width < y))
  }

  /** The depths zs and colours cs after the scan loops stand at (x, y),
      starting from z0 and c0: visited pixels shaded, all others unchanged. */
  ghost predicate ScannedTo<C>(pts: seq<Vec>, fragment: Vec3 -> (bool, C), b: Box, width: nat, height: nat,
                               z0: seq<real>, c0: seq<C>, zs: seq<real>, cs: seq<C>, x: int, y: int)
    requires OnScreen(pts)
  {
    && |c0| == |cs| == width * height && width * height <= |z0| == |zs|
    && (forall i :: 0 <= i < |zs| ==>
          zs[i] == if Visited(b, width, height, i, x, y)
                   then Shade(pts, fragment, i % width, i / width, z0[i], c0[i]).0 else z0[i])
    && (forall i :: 0 <= i < |cs| ==>
          cs[i] == if Visited(b, width, height, i, x, y)
                   then Shade(pts, fragment, i % width, i / width, z0[i], c0[i]).1 else c0[i])
  }

  /** Nothing is visited before the first pixel of the box. */
  lemma ScanStart<C>(pts: seq<Vec>, fragment: Vec3 -> (bool, C), b: Box, width: nat, height: nat,
                     z0: seq<real>, c0: seq<C>)
    requires OnScreen(pts) && |c0| == width * height <= |z0|
    ensures ScannedTo(pts, fragment, b, width, height, z0, c0, z0, c0, Trunc(b.minX), Trunc(b.minY))
  {
    assert forall i :: !Visited(b, width, height, i, Trunc(b.minX), Trunc(b.minY));
  }

  /** Shading pixel (x, y) of the box moves the scan on to (x, y + 1). */
  lemma ScanStep<C>(pts: seq<Vec>, fragment: Vec3 -> (bool, C), b: Box, width: nat, height: nat,
                    z0: seq<real>, c0: seq<C>, zs: seq<real>, cs: seq<C>, x: int, y: int)
    requires OnScreen(pts) && ScannedTo(pts, fragment, b, width, height, z0, c0, zs, cs, x, y)
    requires 0 <= x < width && 0 <= y < height && InBox(b, x, y)
    ensures PixelIndex(x, y, width) < |cs|
    ensures var i := PixelIndex(x, y, width);
            var r := Shade(pts, fragment, x, y, zs[i], cs[i]);
            ScannedTo(pts, fragment, b, width, height, z0, c0, zs[i := r.0], cs[i := r.1], x, y + 1)
  {
    var i := PixelIndex(x, y, width);
    PixelIndexInRange(x, y, width, height);
    assert Covered(b, width, height, i) && !Visited(b, width, height, i, x, y);
    forall j | 0 <= j
      ensures Visited(b, width, height, j, x, y + 1) <==> Visited(b, width, height, j, x, y) || j == i
    {
      PixelOfIndex(j, width);
    }
  }

  /** Past the last row of the box, the scan moves on to the next column. */
  lemma ScanColumn<C>(pts: seq<Vec>, fragment: Vec3 -> (bool, C), b: Box, width: nat, height: nat,
                      z0: seq<real>, c0: seq<C>, zs: seq<real>, cs: seq<C>, x: int, y: int)
    requires OnScreen(pts) && ScannedTo(pts, fragment, b, width, height, z0, c0, zs, cs, x, y)
    requires b.maxY < y as real
    ensures ScannedTo(pts, fragment, b, width, height, z0, c0, zs, cs, x + 1, Trunc(b.minY))
  {
    assert forall j :: Visited(b, width, height, j, x, y) <==> Visited(b, width, height, j, x + 1, Trunc(b.minY));
  }

  /** The depths zs and colours cs after triangle, starting from z0 and c0:
      every pixel of box b shaded, all others unchanged. */
  ghost predicate Rasterised<C>(pts: seq<Vec>, fragment: Vec3 -> (bool, C), b: Box, width: nat, height: nat,
                                z0: seq<real>, c0: seq<C>, zs: seq<real>, cs: seq<C>)
    requires OnScreen(pts)
  {
    && |c0| == |cs| == width * height && width * height <= |z0| == |zs|
    && (forall i :: 0 <= i < |zs| ==>
          zs[i] == if Covered(b, width, height, i)
                   then Shade(pts, fragment, i % width, i / width, z0[i], c0[i]).0 else z0[i])
    && (forall i :: 0 <= i < |cs| ==>
          cs[i] == if Covered(b, width, height, i)
                   then Shade(pts, fragment, i % width, i / width, z0[i], c0[i]).1 else c0[i])
  }

  /** Past the last column of the box, every pixel of it has been visited. */
  lemma ScanEnd<C>(pts: seq<Vec>, fragment: Vec3 -> (bool, C), b: Box, width: nat, height: nat,
                   z0: seq<real>, c0: seq<C>, zs: seq<real>, cs: seq<C>, x: int)
    requires OnScreen(pts) && ScannedTo(pts, fragment, b, width, height, z0, c0, zs, cs, x, Trunc(b.minY))
    requires b.maxX < x as real
    ensures Rasterised(pts, fragment, b, width, height, z0, c0, zs, cs)
  {
    assert forall i :: Visited(b, width, height, i, x, Trunc(b.minY)) <==> Covered(b, width, height, i);
  }

  /** triangle(inPts, shader, output, zbuffer): every pixel of the box the
      three screen points span is shaded from the depth and colour it held
      before; every other pixel and every other zbuffer entry is unchanged,
      and no depth ever decreases. */
  method Triangle<C>(inPts: seq<Vec>, fragment: Vec3 -> (bool, C), image: Image<C>, zbuffer: array<real>)
    requires Homogeneous(inPts) && image.Valid()
    requires image.width * image.height <= zbuffer.Length
    requires zbuffer as object != image.data
    modifies zbuffer, image.data
    ensures Rasterised(ScreenPoints(inPts), fragment, BoundingBox(ScreenPoints(inPts), image.width, image.height),
                       image.width, image.height, old(zbuffer[..]), old(image.data[..]), zbuffer[..], image.data[..])
    ensures forall i :: 0 <= i < zbuffer.Length ==> old(zbuffer[i]) <= zbuffer[i]
  {
    var pts, box := ScreenBox(inPts, image.width, image.height);
    ScanBox(pts, box, fragment, image, zbuffer);
  }

  /** The two scan loops of triangle over the pixels of box. */
  method ScanBox<C>(pts: seq<Vec>, box: Box, fragment: Vec3 -> (bool, C), image: Image<C>, zbuffer: array<real>)
    requires OnScreen(pts) && image.Valid()
    requires box == BoundingBox(pts, image.width, image.height)
    requires image.width * image.height <= zbuffer.Length
    requires zbuffer as object != image.data
    modifies zbuffer, image.data
    ensures Rasterised(pts, fragment, box, image.width, image.height, old(zbuffer[..]), old(image.data[..]),
                       zbuffer[..], image.data[..])
  {
    var width, height := image.width, image.height;
    ghost var z0, c0 := zbuffer[..], image.data[..];
    ScanStart(pts, fragment, box, width, height, z0, c0);
    var x := Trunc(box.minX);
    while x as real <= box.maxX
      invariant Trunc(box.minX) <= x
      invariant ScannedTo(pts, fragment, box, width, height, z0, c0, zbuffer[..], image.data[..], x, Trunc(box.minY))
      decreases box.maxX.Floor + 1 - x
    {
      var y := Trunc(box.minY);
      while y as real <= box.maxY
        invariant Trunc(box.minY) <= y
        invariant ScannedTo(pts, fragment, box, width, height, z0, c0, zbuffer[..], image.data[..], x, y)
        decreases box.maxY.Floor + 1 - y
      {
        BoxInsideImage(pts, width, height, x, y);
        ScanStep(pts, fragment, box, width, height, z0, c0, zbuffer[..], image.data[..], x, y);
        ShadePixel(pts, fragment, image, zbuffer, x, y, x + y * width);
        y := y + 1;
      }
      ScanColumn(pts, fragment, box, width, height, z0, c0, zbuffer[..], image.data[..], x, y);
      x := x + 1;
    }
    ScanEnd(pts, fragment, box, width, height, z0, c0, zbuffer[..], image.data[..], x);
  }
}
