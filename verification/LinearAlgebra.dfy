/** Vectors and square matrices of any size over exact reals, and the quadratic form that
    says what a covariance is. Every proof about the filter goes through four facts:
    the inner product is linear, a matrix may be moved across it, a rank-one downdate and a
    diagonal update change the quadratic form by a known amount. */
module LinearAlgebra {
  import opened RealAlgebra

  type Vec = seq<real>
  type Mat = seq<seq<real>>

  predicate Square(p: Mat, n: nat) {
    |p| == n && forall i :: 0 <= i < n ==> |p[i]| == n
  }

  ghost predicate Symmetric(p: Mat, n: nat)
    requires Square(p, n)
  {
    forall i, j :: 0 <= i < n && 0 <= j < n ==> p[i][j] == p[j][i]
  }

  // -- vectors ------------------------------------------------------------------

  function Dot(u: Vec, v: Vec): real
    requires |u| == |v|
  {
    if |u| == 0 then 0.0 else Times(u[0], v[0]) + Dot(u[1..], v[1..])
  }

  /** b + c a */
  function Axpy(c: real, a: Vec, b: Vec): (r: Vec)
    requires |a| == |b|
    ensures |r| == |b|
    ensures forall i :: 0 <= i < |b| ==> r[i] == b[i] + Times(c, a[i])
  {
    seq(|b|, i requires 0 <= i < |b| => b[i] + Times(c, a[i]))
  }

  function Zeros(n: nat): (r: Vec)
    ensures |r| == n
    ensures forall i :: 0 <= i < n ==> r[i] == 0.0
  {
    seq(n, i => 0.0)
  }

  function Unit(n: nat, i: nat): (r: Vec)
    requires i < n
    ensures |r| == n
  {
    Zeros(n)[i := 1.0]
  }

  lemma DotSymmetric(u: Vec, v: Vec)
    requires |u| == |v|
    ensures Dot(u, v) == Dot(v, u)
  {
  }

  lemma {:induction false} DotAxpyLeft(c: real, a: Vec, b: Vec, v: Vec)
    requires |a| == |b| == |v|
    ensures Dot(Axpy(c, a, b), v) == Dot(b, v) + Times(c, Dot(a, v))
  {
    if |v| > 0 {
      DotAxpyLeft(c, a[1..], b[1..], v[1..]);
      assert Axpy(c, a, b)[1..] == Axpy(c, a[1..], b[1..]);
      DistributeStep(c, a[0], b[0], v[0], Dot(a[1..], v[1..]), Dot(b[1..], v[1..]));
    }
  }

  lemma DistributeStep(c: real, a: real, b: real, v: real, d: real, e: real)
    ensures Times(b + Times(c, a), v) + (e + Times(c, d))
         == (Times(b, v) + e) + Times(c, Times(a, v) + d)
  {
  }

  lemma DotAxpy(c: real, a: Vec, b: Vec, v: Vec)
    requires |a| == |b| == |v|
    ensures Dot(Axpy(c, a, b), v) == Dot(b, v) + Times(c, Dot(a, v))
    ensures Dot(v, Axpy(c, a, b)) == Dot(v, b) + Times(c, Dot(v, a))
  {
    DotAxpyLeft(c, a, b, v);
    DotSymmetric(Axpy(c, a, b), v);
    DotSymmetric(a, v);
    DotSymmetric(b, v);
  }

  lemma {:induction false} DotZeros(v: Vec)
    ensures Dot(Zeros(|v|), v) == 0.0
  {
    if |v| > 0 {
      assert Zeros(|v|)[1..] == Zeros(|v| - 1);
      DotZeros(v[1..]);
    }
  }

  /** Changing one coordinate moves the inner product by that coordinate alone. */
  lemma {:induction false} DotUpdate(u: Vec, i: nat, x: real, v: Vec)
    requires |u| == |v| && i < |u|
    ensures Dot(u[i := x], v) == Dot(u, v) + Times(x - u[i], v[i])
    ensures Dot(v, u[i := x]) == Dot(v, u) + Times(x - u[i], v[i])
  {
    if i == 0 {
      assert u[i := x][1..] == u[1..];
    } else {
      assert u[i := x][1..] == u[1..][i - 1 := x];
      DotUpdate(u[1..], i - 1, x, v[1..]);
    }
  }

  lemma DotUnit(n: nat, i: nat, v: Vec)
    requires i < n == |v|
    ensures Dot(Unit(n, i), v) == v[i] && Dot(v, Unit(n, i)) == v[i]
  {
    DotZeros(v);
    DotUpdate(Zeros(n), i, 1.0, v);
    DotSymmetric(v, Unit(n, i));
  }

  // -- matrix times vector, and the same matrix on the other side of the product ----

  function MulVec(p: Mat, v: Vec): (r: Vec)
    requires forall i :: 0 <= i < |p| ==> |p[i]| == |v|
    ensures |r| == |p|
    ensures forall i :: 0 <= i < |p| ==> r[i] == Dot(p[i], v)
  {
    seq(|p|, i requires 0 <= i < |p| => Dot(p[i], v))
  }

  /** sum of u[i] * p[i] over the rows of p, i.e. the transpose of p applied to u. */
  function Combine(u: Vec, p: Mat, n: nat): (r: Vec)
    requires |u| == |p|
    requires forall i :: 0 <= i < |p| ==> |p[i]| == n
    ensures |r| == n
  {
    if |u| == 0 then Zeros(n) else Axpy(u[0], p[0], Combine(u[1..], p[1..], n))
  }

  lemma {:induction false} CombineMoves(u: Vec, p: Mat, n: nat, v: Vec)
    requires |u| == |p| && |v| == n
    requires forall i :: 0 <= i < |p| ==> |p[i]| == n
    ensures Dot(u, MulVec(p, v)) == Dot(Combine(u, p, n), v)
  {
    if |u| == 0 {
      DotZeros(v);
    } else {
      CombineMoves(u[1..], p[1..], n, v);
      assert MulVec(p, v)[1..] == MulVec(p[1..], v);
      DotAxpy(u[0], p[0], Combine(u[1..], p[1..], n), v);
    }
  }

  function Column(p: Mat, j: nat): (r: Vec)
    requires forall i :: 0 <= i < |p| ==> j < |p[i]|
    ensures |r| == |p|
    ensures forall i :: 0 <= i < |p| ==> r[i] == p[i][j]
  {
    seq(|p|, i requires 0 <= i < |p| => p[i][j])
  }

  lemma {:induction false} CombineColumn(u: Vec, p: Mat, n: nat, j: nat)
    requires |u| == |p| && j < n
    requires forall i :: 0 <= i < |p| ==> |p[i]| == n
    ensures Combine(u, p, n)[j] == Dot(u, Column(p, j))
  {
    if |u| > 0 {
      CombineColumn(u[1..], p[1..], n, j);
      assert Column(p, j)[1..] == Column(p[1..], j);
    }
  }

  /** A symmetric matrix may be moved across the inner product. */
  lemma SymmetricMoves(p: Mat, n: nat, u: Vec, v: Vec)
    requires Square(p, n) && Symmetric(p, n) && |u| == |v| == n
    ensures Dot(u, MulVec(p, v)) == Dot(MulVec(p, u), v)
    ensures Dot(u, MulVec(p, v)) == Dot(v, MulVec(p, u))
  {
    forall j | 0 <= j < n
      ensures Combine(u, p, n)[j] == MulVec(p, u)[j]
    {
      CombineColumn(u, p, n, j);
      assert Column(p, j) == p[j];
      DotSymmetric(u, p[j]);
    }
    assert Combine(u, p, n) == MulVec(p, u);
    CombineMoves(u, p, n, v);
    DotSymmetric(MulVec(p, u), v);
  }

  lemma MulVecAxpy(p: Mat, n: nat, c: real, a: Vec, b: Vec)
    requires Square(p, n) && |a| == |b| == n
    ensures MulVec(p, Axpy(c, a, b)) == Axpy(c, MulVec(p, a), MulVec(p, b))
  {
    forall i | 0 <= i < n
      ensures MulVec(p, Axpy(c, a, b))[i] == Axpy(c, MulVec(p, a), MulVec(p, b))[i]
    {
      DotAxpy(c, a, b, p[i]);
    }
  }

  // -- the quadratic form -------------------------------------------------------

  function Quad(p: Mat, n: nat, v: Vec): real
    requires Square(p, n) && |v| == n
  {
    Dot(v, MulVec(p, v))
  }

  ghost predicate PSD(p: Mat, n: nat)
    requires Square(p, n)
  {
    forall v: Vec {:trigger Quad(p, n, v)} :: |v| == n ==> Quad(p, n, v) >= 0.0
  }

  /** The variance of coordinate i is the quadratic form on the i-th unit vector. */
  lemma QuadUnit(p: Mat, n: nat, i: nat)
    requires Square(p, n) && i < n
    ensures Quad(p, n, Unit(n, i)) == p[i][i]
  {
    DotUnit(n, i, MulVec(p, Unit(n, i)));
    DotUnit(n, i, p[i]);
  }

  lemma QuadAlongLine(p: Mat, n: nat, v: Vec, t: real, h: Vec)
    requires Square(p, n) && Symmetric(p, n) && |v| == |h| == n
    ensures Quad(p, n, Axpy(t, h, v))
         == Quad(p, n, v) + 2.0 * Times(t, Dot(v, MulVec(p, h))) + Times(t, Times(t, Quad(p, n, h)))
  {
    var w := Axpy(t, h, v);
    var ph, pv := MulVec(p, h), MulVec(p, v);
    assert Quad(p, n, w) == Dot(w, pv) + Times(t, Dot(w, ph)) by {
      MulVecAxpy(p, n, t, h, v);
      DotAxpy(t, ph, pv, w);
    }
    DotAxpyLeft(t, h, v, ph);
    DotAxpyLeft(t, h, v, pv);
    SymmetricMoves(p, n, h, v);
    Expand(t, Quad(p, n, w), Dot(w, pv), Dot(w, ph), Dot(v, pv), Dot(v, ph), Dot(h, ph));
  }

  lemma Expand(t: real, q: real, wpv: real, wph: real, vv: real, vh: real, hh: real)
    requires q == wpv + Times(t, wph)
    requires wpv == vv + Times(t, vh) && wph == vh + Times(t, hh)
    ensures q == vv + 2.0 * Times(t, vh) + Times(t, Times(t, hh))
  {
  }

  /** p - u u^T / s */
  function Downdate(p: Mat, n: nat, u: Vec, s: real): (r: Mat)
    requires Square(p, n) && |u| == n && s > 0.0
    ensures Square(r, n)
    ensures forall i, j :: 0 <= i < n && 0 <= j < n ==> r[i][j] == p[i][j] + Times(Less(u[i], s), u[j])
  {
    seq(n, i requires 0 <= i < n => Axpy(Less(u[i], s), u, p[i]))
  }

  lemma DotDowndatedRow(q: Vec, a: real, u: Vec, s: real, v: Vec)
    requires |q| == |u| == |v| && s > 0.0
    ensures Dot(Axpy(Less(a, s), u, q), v) == Dot(q, v) + Times(Less(Dot(u, v), s), a)
  {
    DotAxpyLeft(Less(a, s), u, q, v);
    SwapFactor(a, Dot(u, v), s);
  }

  lemma MulVecDowndate(p: Mat, n: nat, u: Vec, s: real, v: Vec)
    requires Square(p, n) && |u| == |v| == n && s > 0.0
    ensures MulVec(Downdate(p, n, u, s), v) == Axpy(Less(Dot(u, v), s), u, MulVec(p, v))
  {
    var d := Downdate(p, n, u, s);
    forall i | 0 <= i < n
      ensures MulVec(d, v)[i] == Axpy(Less(Dot(u, v), s), u, MulVec(p, v))[i]
    {
      DotDowndatedRow(p[i], u[i], u, s, v);
    }
  }

  lemma SwapFactor(a: real, b: real, s: real)
    requires s > 0.0
    ensures Times(Less(a, s), b) == Times(Less(b, s), a)
  {
  }

  lemma QuadDowndate(p: Mat, n: nat, u: Vec, s: real, v: Vec)
    requires Square(p, n) && |u| == |v| == n && s > 0.0
    ensures Quad(Downdate(p, n, u, s), n, v) == Quad(p, n, v) + Times(Less(Dot(u, v), s), Dot(u, v))
  {
    MulVecDowndate(p, n, u, s, v);
    DotAxpy(Less(Dot(u, v), s), u, MulVec(p, v), v);
    DotSymmetric(u, v);
  }

  lemma SymmetricDowndate(p: Mat, n: nat, u: Vec, s: real)
    requires Square(p, n) && Symmetric(p, n) && |u| == n && s > 0.0
    ensures Symmetric(Downdate(p, n, u, s), n)
  {
    forall i, j | 0 <= i < n && 0 <= j < n
      ensures Downdate(p, n, u, s)[i][j] == Downdate(p, n, u, s)[j][i]
    {
      SwapFactor(u[i], u[j], s);
    }
  }

  /** p + diag(d) */
  function AddDiagonal(p: Mat, n: nat, d: Vec): (r: Mat)
    requires Square(p, n) && |d| == n
    ensures Square(r, n)
  {
    seq(n, i requires 0 <= i < n => p[i][i := p[i][i] + d[i]])
  }

  /** sum of d[i] v[i]^2 */
  function WeightedSquares(d: Vec, v: Vec): real
    requires |d| == |v|
  {
    if |d| == 0 then 0.0 else Times(d[0], Times(v[0], v[0])) + WeightedSquares(d[1..], v[1..])
  }

  lemma {:induction false} WeightedSquaresNonNegative(d: Vec, v: Vec)
    requires |d| == |v| && forall i :: 0 <= i < |d| ==> d[i] >= 0.0
    ensures WeightedSquares(d, v) >= 0.0
  {
    if |d| > 0 {
      WeightedSquaresNonNegative(d[1..], v[1..]);
      SquareNonNegative(v[0]);
      ProductNonNegative(d[0], Times(v[0], v[0]));
    }
  }

  lemma {:induction false} WeightedDot(d: Vec, v: Vec, w: Vec)
    requires |d| == |v| == |w| && forall i :: 0 <= i < |d| ==> w[i] == Times(d[i], v[i])
    ensures Dot(v, w) == WeightedSquares(d, v)
  {
    if |d| > 0 {
      WeightedDot(d[1..], v[1..], w[1..]);
      assert v[0] * (d[0] * v[0]) == d[0] * (v[0] * v[0]);
    }
  }

  lemma {:induction false} WeightedSquaresOfOne(v: Vec, i: nat, c: real)
    requires i < |v|
    ensures WeightedSquares(Zeros(|v|)[i := c], v) == Times(c, Times(v[i], v[i]))
  {
    var d := Zeros(|v|)[i := c];
    if i == 0 {
      assert d[1..] == Zeros(|v| - 1);
      WeightedSquaresOfNone(v[1..]);
    } else {
      assert d[1..] == Zeros(|v| - 1)[i - 1 := c];
      WeightedSquaresOfOne(v[1..], i - 1, c);
    }
  }

  lemma {:induction false} WeightedSquaresOfNone(v: Vec)
    ensures WeightedSquares(Zeros(|v|), v) == 0.0
  {
    if |v| > 0 {
      assert Zeros(|v|)[1..] == Zeros(|v| - 1);
      WeightedSquaresOfNone(v[1..]);
    }
  }

  lemma MulVecAddDiagonal(p: Mat, n: nat, d: Vec, v: Vec, w: Vec)
    requires Square(p, n) && |d| == |v| == |w| == n && forall i :: 0 <= i < n ==> w[i] == Times(d[i], v[i])
    ensures MulVec(AddDiagonal(p, n, d), v) == Axpy(1.0, w, MulVec(p, v))
  {
    var r := AddDiagonal(p, n, d);
    forall i | 0 <= i < n
      ensures MulVec(r, v)[i] == MulVec(p, v)[i] + Times(1.0, w[i])
    {
      DotUpdate(p[i], i, p[i][i] + d[i], v);
    }
  }

  lemma QuadAddDiagonal(p: Mat, n: nat, d: Vec, v: Vec)
    requires Square(p, n) && |d| == |v| == n
    ensures Quad(AddDiagonal(p, n, d), n, v) == Quad(p, n, v) + WeightedSquares(d, v)
  {
    var w := seq(n, i requires 0 <= i < n => Times(d[i], v[i]));
    MulVecAddDiagonal(p, n, d, v, w);
    DotAxpy(1.0, w, MulVec(p, v), v);
    WeightedDot(d, v, w);
  }

  /** f p f^T, entry by entry the inner product of two rows of f under p. */
  function Congruence(f: Mat, p: Mat, n: nat): (r: Mat)
    requires Square(f, n) && Square(p, n)
    ensures Square(r, n)
    ensures forall i, j :: 0 <= i < n && 0 <= j < n ==> r[i][j] == Dot(f[i], MulVec(p, f[j]))
  {
    seq(n, i requires 0 <= i < n =>
      seq(n, j requires 0 <= j < n => Dot(f[i], MulVec(p, f[j]))))
  }

  lemma SymmetricCongruence(f: Mat, p: Mat, n: nat)
    requires Square(f, n) && Square(p, n) && Symmetric(p, n)
    ensures Symmetric(Congruence(f, p, n), n)
  {
    forall i, j | 0 <= i < n && 0 <= j < n
      ensures Congruence(f, p, n)[i][j] == Congruence(f, p, n)[j][i]
    {
      SymmetricMoves(p, n, f[i], f[j]);
    }
  }

  lemma QuadCongruence(f: Mat, p: Mat, n: nat, v: Vec)
    requires Square(f, n) && Square(p, n) && Symmetric(p, n) && |v| == n
    ensures Quad(Congruence(f, p, n), n, v) == Quad(p, n, Combine(v, f, n))
  {
    var w := Combine(v, f, n);
    var c := Congruence(f, p, n);
    forall i | 0 <= i < n
      ensures MulVec(c, v)[i] == MulVec(f, MulVec(p, w))[i]
    {
      var y := MulVec(p, f[i]);
      forall j | 0 <= j < n ensures c[i][j] == MulVec(f, y)[j] {
        SymmetricMoves(p, n, f[i], f[j]);
      }
      assert c[i] == MulVec(f, y);
      CombineMoves(v, f, n, y);
      DotSymmetric(v, c[i]);
      SymmetricMoves(p, n, f[i], w);
    }
    assert MulVec(c, v) == MulVec(f, MulVec(p, w));
    CombineMoves(v, f, n, MulVec(p, w));
  }

  /** Row i and column i cleared, the diagonal entry set to x. */
  function Decouple(p: Mat, n: nat, i: nat, x: real): (r: Mat)
    requires Square(p, n) && i < n
    ensures Square(r, n)
  {
    seq(n, a requires 0 <= a < n => if a == i then Zeros(n)[i := x] else p[a][i := 0.0])
  }

  lemma MulVecDecouple(p: Mat, n: nat, i: nat, x: real, v: Vec)
    requires Square(p, n) && i < n && |v| == n
    ensures MulVec(Decouple(p, n, i, x), v) == MulVec(p, v[i := 0.0])[i := Times(x, v[i])]
  {
    var r, v0 := Decouple(p, n, i, x), v[i := 0.0];
    DotZeros(v);
    DotUpdate(Zeros(n), i, x, v);
    forall a | 0 <= a < n && a != i
      ensures Dot(r[a], v) == Dot(p[a], v0)
    {
      DotUpdate(p[a], i, 0.0, v);
      DotUpdate(v, i, 0.0, p[a]);
      OppositeProducts(p[a][i], v[i]);
    }
  }

  lemma OppositeProducts(x: real, y: real)
    ensures Times(0.0 - x, y) == Times(0.0 - y, x)
    ensures Times(x - 0.0, y) == Times(x, y) == Times(y, x)
  {
  }

  lemma QuadDecouple(p: Mat, n: nat, i: nat, x: real, v: Vec)
    requires Square(p, n) && i < n && |v| == n
    ensures Quad(Decouple(p, n, i, x), n, v)
         == Quad(p, n, v[i := 0.0]) + Times(x, Times(v[i], v[i]))
  {
    var y, t := MulVec(p, v[i := 0.0]), Times(x, v[i]);
    MulVecDecouple(p, n, i, x, v);
    DotUpdate(y, i, t, v);
    DotUpdate(v, i, 0.0, y);
    DecoupleStep(x, v[i], y[i]);
  }

  lemma DecoupleStep(x: real, v: real, y: real)
    ensures Times(Times(x, v) - y, v) == Times(0.0 - v, y) + Times(x, Times(v, v))
  {
  }

  // -- what determines a matrix --------------------------------------------------

  ghost predicate SameForm(p: Mat, q: Mat, n: nat)
    requires Square(p, n) && Square(q, n)
  {
    forall v: Vec {:trigger Quad(p, n, v)} :: |v| == n ==> Quad(p, n, v) == Quad(q, n, v)
  }

  lemma EntryFromForm(p: Mat, n: nat, i: nat, j: nat, v: Vec)
    requires Square(p, n) && Symmetric(p, n) && i < n && j < n && v == Axpy(1.0, Unit(n, j), Unit(n, i))
    ensures Quad(p, n, v) == p[i][i] + 2.0 * p[i][j] + p[j][j]
  {
    QuadAlongLine(p, n, Unit(n, i), 1.0, Unit(n, j));
    DotUnit(n, i, MulVec(p, Unit(n, j)));
    DotUnit(n, j, p[i]);
    QuadUnit(p, n, i);
    QuadUnit(p, n, j);
  }

  lemma FormDeterminesEntry(p: Mat, q: Mat, n: nat, i: nat, j: nat)
    requires Square(p, n) && Square(q, n) && Symmetric(p, n) && Symmetric(q, n) && SameForm(p, q, n)
    requires i < n && j < n
    ensures p[i][j] == q[i][j]
  {
    var v := Axpy(1.0, Unit(n, j), Unit(n, i));
    EntryFromForm(p, n, i, j, v);
    EntryFromForm(q, n, i, j, v);
    QuadUnit(p, n, i);
    QuadUnit(q, n, i);
    QuadUnit(p, n, j);
    QuadUnit(q, n, j);
  }

  /** A symmetric matrix is determined by its quadratic form. */
  lemma FormDetermines(p: Mat, q: Mat, n: nat)
    requires Square(p, n) && Square(q, n) && Symmetric(p, n) && Symmetric(q, n) && SameForm(p, q, n)
    ensures p == q
  {
    forall i | 0 <= i < n ensures p[i] == q[i] {
      forall j | 0 <= j < n ensures p[i][j] == q[i][j] {
        FormDeterminesEntry(p, q, n, i, j);
      }
    }
  }

  /** f g, row by row */
  function MatMul(f: Mat, g: Mat, n: nat): (r: Mat)
    requires Square(f, n) && Square(g, n)
    ensures Square(r, n)
  {
    seq(n, i requires 0 <= i < n => Combine(f[i], g, n))
  }

  lemma ColumnOfProduct(f: Mat, g: Mat, n: nat, j: nat)
    requires Square(f, n) && Square(g, n) && j < n
    ensures Column(MatMul(f, g, n), j) == MulVec(f, Column(g, j))
  {
    forall i | 0 <= i < n ensures MatMul(f, g, n)[i][j] == Dot(f[i], Column(g, j)) {
      CombineColumn(f[i], g, n, j);
    }
  }

  lemma CombineProduct(v: Vec, f: Mat, g: Mat, n: nat)
    requires Square(f, n) && Square(g, n) && |v| == n
    ensures Combine(v, MatMul(f, g, n), n) == Combine(Combine(v, f, n), g, n)
  {
    var w := Combine(v, f, n);
    forall j | 0 <= j < n ensures Combine(v, MatMul(f, g, n), n)[j] == Combine(w, g, n)[j] {
      CombineColumn(v, MatMul(f, g, n), n, j);
      CombineColumn(w, g, n, j);
      ColumnOfProduct(f, g, n, j);
      CombineMoves(v, f, n, Column(g, j));
    }
  }
}
