/**
 The 4x4 matrices of the kinematics over exact reals: inversion by the optimised
 cofactor scheme, rigid transforms, and the accumulating product.
 */
module MatrixInverse {

  // ---------- textbook definitions ----------

  type Matrix = m: seq<real> | |m| == 16 witness seq(16, _ => 0.0)

  const IDENTITY: Matrix :=
    [1.0, 0.0, 0.0, 0.0,
     0.0, 1.0, 0.0, 0.0,
     0.0, 0.0, 1.0, 0.0,
     0.0, 0.0, 0.0, 1.0]

  datatype Row = Row(a: real, b: real, c: real, d: real)

  function RowOf(m: Matrix, i: nat): Row
    requires i < 4
  {
    Row(m[4 * i], m[4 * i + 1], m[4 * i + 2], m[4 * i + 3])
  }

  function ColumnOf(m: Matrix, j: nat): Row
    requires j < 4
  {
    Row(m[j], m[4 + j], m[8 + j], m[12 + j])
  }

  function Inner(x: Row, y: Row): real {
    x.a * y.a + x.b * y.b + x.c * y.c + x.d * y.d
  }

  /** Row i of the first matrix times column j of the second. */
  function Dot(a: Matrix, b: Matrix, i: nat, j: nat): real
    requires i < 4 && j < 4
  {
    Inner(RowOf(a, i), ColumnOf(b, j))
  }

  function Product(a: Matrix, b: Matrix): Matrix {
    [Dot(a, b, 0, 0), Dot(a, b, 0, 1), Dot(a, b, 0, 2), Dot(a, b, 0, 3),
     Dot(a, b, 1, 0), Dot(a, b, 1, 1), Dot(a, b, 1, 2), Dot(a, b, 1, 3),
     Dot(a, b, 2, 0), Dot(a, b, 2, 1), Dot(a, b, 2, 2), Dot(a, b, 2, 3),
     Dot(a, b, 3, 0), Dot(a, b, 3, 1), Dot(a, b, 3, 2), Dot(a, b, 3, 3)]
  }

  function Det2(a: real, b: real, c: real, d: real): real {
    a * d - b * c
  }

  function Det3(a: real, b: real, c: real, d: real, e: real, f: real, g: real, h: real, i: real): real {
    a * Det2(e, f, h, i) - b * Det2(d, f, g, i) + c * Det2(d, e, g, h)
  }

  /** The determinant without row i and column j. */
  function Minor(m: Matrix, i: nat, j: nat): real
    requires i < 4 && j < 4
  {
    var r0, r1, r2 := if i == 0 then 1 else 0, if i <= 1 then 2 else 1, if i <= 2 then 3 else 2;
    var c0, c1, c2 := if j == 0 then 1 else 0, if j <= 1 then 2 else 1, if j <= 2 then 3 else 2;
    Det3(m[4 * r0 + c0], m[4 * r0 + c1], m[4 * r0 + c2],
         m[4 * r1 + c0], m[4 * r1 + c1], m[4 * r1 + c2],
         m[4 * r2 + c0], m[4 * r2 + c1], m[4 * r2 + c2])
  }

  function Cofactor(m: Matrix, i: nat, j: nat): real
    requires i < 4 && j < 4
  {
    if (i + j) % 2 == 0 then Minor(m, i, j) else -Minor(m, i, j)
  }

  /** Expansion along the first row. */
  function Determinant(m: Matrix): real {
    m[0] * Minor(m, 0, 0) - m[1] * Minor(m, 0, 1) + m[2] * Minor(m, 0, 2) - m[3] * Minor(m, 0, 3)
  }

  /** The transposed matrix of cofactors. */
  function Adjugate(m: Matrix): Matrix {
    [Cofactor(m, 0, 0), Cofactor(m, 1, 0), Cofactor(m, 2, 0), Cofactor(m, 3, 0),
     Cofactor(m, 0, 1), Cofactor(m, 1, 1), Cofactor(m, 2, 1), Cofactor(m, 3, 1),
     Cofactor(m, 0, 2), Cofactor(m, 1, 2), Cofactor(m, 2, 2), Cofactor(m, 3, 2),
     Cofactor(m, 0, 3), Cofactor(m, 1, 3), Cofactor(m, 2, 3), Cofactor(m, 3, 3)]
  }

  function Scaled(m: Matrix, f: real): (r: Matrix)
    ensures forall k :: 0 <= k < 16 ==> r[k] == m[k] * f
  {
    seq(16, k requires 0 <= k < 16 => m[k] * f)
  }

  function Transposed(m: Matrix): Matrix {
    [m[0], m[4], m[8], m[12], m[1], m[5], m[9], m[13],
     m[2], m[6], m[10], m[14], m[3], m[7], m[11], m[15]]
  }

  // ---------- expansion by rows ----------

  /** The determinant of four rows, expanded along the first. */
  function Laplace(x: Row, r: Row, s: Row, t: Row): real {
    x.a * Det3(r.b, r.c, r.d, s.b, s.c, s.d, t.b, t.c, t.d)
    - x.b * Det3(r.a, r.c, r.d, s.a, s.c, s.d, t.a, t.c, t.d)
    + x.c * Det3(r.a, r.b, r.d, s.a, s.b, s.d, t.a, t.b, t.d)
    - x.d * Det3(r.a, r.b, r.c, s.a, s.b, s.c, t.a, t.b, t.c)
  }

  /** The same determinant by complementary minors of the first two and the last two rows. */
  function ByPairs(x: Row, r: Row, s: Row, t: Row): real {
    Det2(x.a, x.b, r.a, r.b) * Det2(s.c, s.d, t.c, t.d) - Det2(x.a, x.c, r.a, r.c) * Det2(s.b, s.d, t.b, t.d)
    + Det2(x.a, x.d, r.a, r.d) * Det2(s.b, s.c, t.b, t.c) + Det2(x.b, x.c, r.b, r.c) * Det2(s.a, s.d, t.a, t.d)
    - Det2(x.b, x.d, r.b, r.d) * Det2(s.a, s.c, t.a, t.c) + Det2(x.c, x.d, r.c, r.d) * Det2(s.a, s.b, t.a, t.b)
  }

  lemma Regrouped(xa: real, xb: real, xc: real, xd: real, ra: real, rb: real, rc: real, rd: real,
                  ab: real, ac: real, ad: real, bc: real, bd: real, cd: real)
    ensures xa * (rb * cd - rc * bd + rd * bc) - xb * (ra * cd - rc * ad + rd * ac)
            + xc * (ra * bd - rb * ad + rd * ab) - xd * (ra * bc - rb * ac + rc * ab)
            == Det2(xa, xb, ra, rb) * cd - Det2(xa, xc, ra, rc) * bd + Det2(xa, xd, ra, rd) * bc
               + Det2(xb, xc, rb, rc) * ad - Det2(xb, xd, rb, rd) * ac + Det2(xc, xd, rc, rd) * ab
  {
  }

  lemma LaplaceByPairs(x: Row, r: Row, s: Row, t: Row)
    ensures Laplace(x, r, s, t) == ByPairs(x, r, s, t)
  {
    hide Det2;
    Regrouped(x.a, x.b, x.c, x.d, r.a, r.b, r.c, r.d,
              Det2(s.a, s.b, t.a, t.b), Det2(s.a, s.c, t.a, t.c), Det2(s.a, s.d, t.a, t.d),
              Det2(s.b, s.c, t.b, t.c), Det2(s.b, s.d, t.b, t.d), Det2(s.c, s.d, t.c, t.d));
  }

  lemma Det3Swapped(a: real, b: real, c: real, d: real, e: real, f: real, g: real, h: real, i: real)
    ensures Det3(d, e, f, a, b, c, g, h, i) == -Det3(a, b, c, d, e, f, g, h, i)
  {
  }

  lemma LaplaceFront(x: Row, r: Row, s: Row, t: Row)
    ensures Laplace(r, x, s, t) == -Laplace(x, r, s, t)
  {
    LaplaceByPairs(x, r, s, t);
    LaplaceByPairs(r, x, s, t);
    hide Laplace;
  }

  lemma LaplaceBack(x: Row, r: Row, s: Row, t: Row)
    ensures Laplace(x, s, r, t) == -Laplace(x, r, s, t)
  {
    Det3Swapped(r.b, r.c, r.d, s.b, s.c, s.d, t.b, t.c, t.d);
    Det3Swapped(r.a, r.c, r.d, s.a, s.c, s.d, t.a, t.c, t.d);
    Det3Swapped(r.a, r.b, r.d, s.a, s.b, s.d, t.a, t.b, t.d);
    Det3Swapped(r.a, r.b, r.c, s.a, s.b, s.c, t.a, t.b, t.c);
    hide Det3;
  }

  lemma LaplaceEnd(x: Row, r: Row, s: Row, t: Row)
    ensures Laplace(x, r, t, s) == -Laplace(x, r, s, t)
  {
    LaplaceByPairs(x, r, s, t);
    LaplaceByPairs(x, r, t, s);
    hide Laplace;
  }

  /** A determinant that changes sign when two rows are swapped vanishes when they are equal. */
  lemma LaplaceRepeated(x: Row, r: Row, s: Row, t: Row)
    requires x == r || x == s || x == t
    ensures Laplace(x, r, s, t) == 0.0
  {
    hide Laplace;
    if x == r {
      LaplaceFront(x, r, s, t);
    } else if x == s {
      LaplaceBack(x, s, r, t);
      LaplaceFront(x, s, r, t);
    } else {
      LaplaceEnd(x, r, s, t);
      LaplaceBack(x, t, r, s);
      LaplaceFront(x, t, r, s);
    }
  }

  lemma LaplaceMoved(r0: Row, r1: Row, r2: Row, r3: Row)
    ensures Laplace(r1, r0, r2, r3) == -Laplace(r0, r1, r2, r3)
    ensures Laplace(r2, r0, r1, r3) == Laplace(r0, r1, r2, r3)
    ensures Laplace(r3, r0, r1, r2) == -Laplace(r0, r1, r2, r3)
  {
    hide Laplace;
    LaplaceFront(r0, r1, r2, r3);
    LaplaceFront(r0, r2, r1, r3);
    LaplaceBack(r0, r1, r2, r3);
    LaplaceFront(r0, r3, r1, r2);
    LaplaceBack(r0, r1, r3, r2);
    LaplaceEnd(r0, r1, r2, r3);
  }

  /** The other three rows, in order. */
  function Others(m: Matrix, j: nat): (Row, Row, Row)
    requires j < 4
  {
    (RowOf(m, if j == 0 then 1 else 0), RowOf(m, if j <= 1 then 2 else 1), RowOf(m, if j <= 2 then 3 else 2))
  }

  /** The cofactors of row j in terms of the other rows. */
  lemma CofactorRow(m: Matrix, j: nat)
    requires j < 4
    ensures var (r, s, t) := Others(m, j);
            var d0 := Det3(r.b, r.c, r.d, s.b, s.c, s.d, t.b, t.c, t.d);
            var d1 := Det3(r.a, r.c, r.d, s.a, s.c, s.d, t.a, t.c, t.d);
            var d2 := Det3(r.a, r.b, r.d, s.a, s.b, s.d, t.a, t.b, t.d);
            var d3 := Det3(r.a, r.b, r.c, s.a, s.b, s.c, t.a, t.b, t.c);
            var sign := if j % 2 == 0 then 1.0 else -1.0;
            Cofactor(m, j, 0) == sign * d0 && Cofactor(m, j, 1) == -sign * d1 &&
            Cofactor(m, j, 2) == sign * d2 && Cofactor(m, j, 3) == -sign * d3
  {
    hide Det3;
    match j { case 0 => case 1 => case 2 => case 3 => }
  }

  lemma AdjugateColumn(m: Matrix, j: nat)
    requires j < 4
    ensures ColumnOf(Adjugate(m), j) == Row(Cofactor(m, j, 0), Cofactor(m, j, 1), Cofactor(m, j, 2), Cofactor(m, j, 3))
  {
    hide Cofactor;
  }

  /** Row i against the cofactors of row j is row i expanded over the other rows. */
  lemma DotIsLaplace(m: Matrix, i: nat, j: nat)
    requires i < 4 && j < 4
    ensures var o := Others(m, j);
            Dot(m, Adjugate(m), i, j)
            == if j % 2 == 0 then Laplace(RowOf(m, i), o.0, o.1, o.2) else -Laplace(RowOf(m, i), o.0, o.1, o.2)
  {
    AdjugateColumn(m, j);
    CofactorRow(m, j);
    var (r, s, t) := Others(m, j);
    ExpandedInner(RowOf(m, i), r, s, t);
    hide Inner, Laplace, Det3, Adjugate, Cofactor, Others, RowOf, ColumnOf;
  }

  lemma ExpandedInner(x: Row, r: Row, s: Row, t: Row)
    ensures var d0 := Det3(r.b, r.c, r.d, s.b, s.c, s.d, t.b, t.c, t.d);
            var d1 := Det3(r.a, r.c, r.d, s.a, s.c, s.d, t.a, t.c, t.d);
            var d2 := Det3(r.a, r.b, r.d, s.a, s.b, s.d, t.a, t.b, t.d);
            var d3 := Det3(r.a, r.b, r.c, s.a, s.b, s.c, t.a, t.b, t.c);
            Inner(x, Row(d0, -d1, d2, -d3)) == Laplace(x, r, s, t) &&
            Inner(x, Row(-d0, d1, -d2, d3)) == -Laplace(x, r, s, t)
  {
    hide Det3;
  }

  lemma AdjugateEntry(m: Matrix, i: nat, j: nat)
    requires i < 4 && j < 4
    ensures Dot(m, Adjugate(m), i, j) == if i == j then Determinant(m) else 0.0
  {
    DotIsLaplace(m, i, j);
    DotIsLaplace(m, 0, 0);
    hide Adjugate, Laplace, Cofactor;
    var o := Others(m, j);
    if i == j {
      LaplaceMoved(RowOf(m, 0), RowOf(m, 1), RowOf(m, 2), RowOf(m, 3));
      DeterminantIsLaplace(m);
    } else {
      LaplaceRepeated(RowOf(m, i), o.0, o.1, o.2);
    }
  }

  lemma DeterminantIsLaplace(m: Matrix)
    ensures Determinant(m) == Laplace(RowOf(m, 0), RowOf(m, 1), RowOf(m, 2), RowOf(m, 3))
  {
  }

  /** The product of a matrix and its adjugate is the determinant on the diagonal. */
  lemma AdjugateProduct(m: Matrix)
    ensures Product(m, Adjugate(m)) == Scaled(IDENTITY, Determinant(m))
  {
    var a, p, s := Adjugate(m), Product(m, Adjugate(m)), Scaled(IDENTITY, Determinant(m));
    hide Adjugate, Determinant, Dot;
    forall k | 0 <= k < 16 ensures p[k] == s[k] {
      AdjugateEntry(m, k / 4, k % 4);
      assert p[k] == Dot(m, a, k / 4, k % 4);
      assert IDENTITY[k] == if k / 4 == k % 4 then 1.0 else 0.0;
    }
  }

  /** Six signed triple products, in the order the source adds them up. */
  lemma TripleProducts(a: real, b: real, c: real, d: real, e: real, f: real, g: real, h: real, i: real)
    ensures Det3(a, b, c, d, e, f, g, h, i)
            == (e * i * a + f * g * b + d * h * c) - (f * h * a + d * i * b + e * g * c)
  {
  }

  lemma CofactorGroup0(s: Matrix)
    ensures Cofactor(Transposed(s), 0, 0) ==
              ((s[10] * s[15]) * s[5] + (s[11] * s[13]) * s[6] + (s[9] * s[14]) * s[7])
                - ((s[11] * s[14]) * s[5] + (s[9] * s[15]) * s[6] + (s[10] * s[13]) * s[7])
    ensures Cofactor(Transposed(s), 1, 0) ==
              ((s[11] * s[14]) * s[4] + (s[8] * s[15]) * s[6] + (s[10] * s[12]) * s[7])
                - ((s[10] * s[15]) * s[4] + (s[11] * s[12]) * s[6] + (s[8] * s[14]) * s[7])
    ensures Cofactor(Transposed(s), 2, 0) ==
              ((s[9] * s[15]) * s[4] + (s[11] * s[12]) * s[5] + (s[8] * s[13]) * s[7])
                - ((s[11] * s[13]) * s[4] + (s[8] * s[15]) * s[5] + (s[9] * s[12]) * s[7])
    ensures Cofactor(Transposed(s), 3, 0) ==
              ((s[10] * s[13]) * s[4] + (s[8] * s[14]) * s[5] + (s[9] * s[12]) * s[6])
                - ((s[9] * s[14]) * s[4] + (s[10] * s[12]) * s[5] + (s[8] * s[13]) * s[6])
  {
    hide Det3;
    TripleProducts(s[5], s[9], s[13], s[6], s[10], s[14], s[7], s[11], s[15]);
    TripleProducts(s[4], s[8], s[12], s[6], s[10], s[14], s[7], s[11], s[15]);
    TripleProducts(s[4], s[8], s[12], s[5], s[9], s[13], s[7], s[11], s[15]);
    TripleProducts(s[4], s[8], s[12], s[5], s[9], s[13], s[6], s[10], s[14]);
  }

  lemma CofactorGroup1(s: Matrix)
    ensures Cofactor(Transposed(s), 0, 1) ==
              ((s[11] * s[14]) * s[1] + (s[9] * s[15]) * s[2] + (s[10] * s[13]) * s[3])
                - ((s[10] * s[15]) * s[1] + (s[11] * s[13]) * s[2] + (s[9] * s[14]) * s[3])
    ensures Cofactor(Transposed(s), 1, 1) ==
              ((s[10] * s[15]) * s[0] + (s[11] * s[12]) * s[2] + (s[8] * s[14]) * s[3])
                - ((s[11] * s[14]) * s[0] + (s[8] * s[15]) * s[2] + (s[10] * s[12]) * s[3])
    ensures Cofactor(Transposed(s), 2, 1) ==
              ((s[11] * s[13]) * s[0] + (s[8] * s[15]) * s[1] + (s[9] * s[12]) * s[3])
                - ((s[9] * s[15]) * s[0] + (s[11] * s[12]) * s[1] + (s[8] * s[13]) * s[3])
    ensures Cofactor(Transposed(s), 3, 1) ==
              ((s[9] * s[14]) * s[0] + (s[10] * s[12]) * s[1] + (s[8] * s[13]) * s[2])
                - ((s[10] * s[13]) * s[0] + (s[8] * s[14]) * s[1] + (s[9] * s[12]) * s[2])
  {
    hide Det3;
    TripleProducts(s[1], s[9], s[13], s[2], s[10], s[14], s[3], s[11], s[15]);
    TripleProducts(s[0], s[8], s[12], s[2], s[10], s[14], s[3], s[11], s[15]);
    TripleProducts(s[0], s[8], s[12], s[1], s[9], s[13], s[3], s[11], s[15]);
    TripleProducts(s[0], s[8], s[12], s[1], s[9], s[13], s[2], s[10], s[14]);
  }

  lemma CofactorGroup2(s: Matrix)
    ensures Cofactor(Transposed(s), 0, 2) ==
              ((s[2] * s[7]) * s[13] + (s[3] * s[5]) * s[14] + (s[1] * s[6]) * s[15])
                - ((s[3] * s[6]) * s[13] + (s[1] * s[7]) * s[14] + (s[2] * s[5]) * s[15])
    ensures Cofactor(Transposed(s), 1, 2) ==
              ((s[3] * s[6]) * s[12] + (s[0] * s[7]) * s[14] + (s[2] * s[4]) * s[15])
                - ((s[2] * s[7]) * s[12] + (s[3] * s[4]) * s[14] + (s[0] * s[6]) * s[15])
    ensures Cofactor(Transposed(s), 2, 2) ==
              ((s[1] * s[7]) * s[12] + (s[3] * s[4]) * s[13] + (s[0] * s[5]) * s[15])
                - ((s[3] * s[5]) * s[12] + (s[0] * s[7]) * s[13] + (s[1] * s[4]) * s[15])
    ensures Cofactor(Transposed(s), 3, 2) ==
              ((s[2] * s[5]) * s[12] + (s[0] * s[6]) * s[13] + (s[1] * s[4]) * s[14])
                - ((s[1] * s[6]) * s[12] + (s[2] * s[4]) * s[13] + (s[0] * s[5]) * s[14])
  {
    hide Det3;
    TripleProducts(s[1], s[5], s[13], s[2], s[6], s[14], s[3], s[7], s[15]);
    TripleProducts(s[0], s[4], s[12], s[2], s[6], s[14], s[3], s[7], s[15]);
    TripleProducts(s[0], s[4], s[12], s[1], s[5], s[13], s[3], s[7], s[15]);
    TripleProducts(s[0], s[4], s[12], s[1], s[5], s[13], s[2], s[6], s[14]);
  }

  lemma CofactorGroup3(s: Matrix)
    ensures Cofactor(Transposed(s), 0, 3) ==
              ((s[1] * s[7]) * s[10] + (s[2] * s[5]) * s[11] + (s[3] * s[6]) * s[9])
                - ((s[1] * s[6]) * s[11] + (s[2] * s[7]) * s[9] + (s[3] * s[5]) * s[10])
    ensures Cofactor(Transposed(s), 1, 3) ==
              ((s[0] * s[6]) * s[11] + (s[2] * s[7]) * s[8] + (s[3] * s[4]) * s[10])
                - ((s[0] * s[7]) * s[10] + (s[2] * s[4]) * s[11] + (s[3] * s[6]) * s[8])
    ensures Cofactor(Transposed(s), 2, 3) ==
              ((s[0] * s[7]) * s[9] + (s[1] * s[4]) * s[11] + (s[3] * s[5]) * s[8])
                - ((s[0] * s[5]) * s[11] + (s[1] * s[7]) * s[8] + (s[3] * s[4]) * s[9])
    ensures Cofactor(Transposed(s), 3, 3) ==
              ((s[0] * s[5]) * s[10] + (s[1] * s[6]) * s[8] + (s[2] * s[4]) * s[9])
                - ((s[0] * s[6]) * s[9] + (s[1] * s[4]) * s[10] + (s[2] * s[5]) * s[8])
  {
    hide Det3;
    TripleProducts(s[1], s[5], s[9], s[2], s[6], s[10], s[3], s[7], s[11]);
    TripleProducts(s[0], s[4], s[8], s[2], s[6], s[10], s[3], s[7], s[11]);
    TripleProducts(s[0], s[4], s[8], s[1], s[5], s[9], s[3], s[7], s[11]);
    TripleProducts(s[0], s[4], s[8], s[1], s[5], s[9], s[2], s[6], s[10]);
  }
  /** Expansion along the first column; the nine other arguments are minors of the last three columns. */
  lemma ColumnRegrouped(x: Row, p: real, q: real, r: real, d: real,
                        bc12: real, bd12: real, cd12: real, bc13: real, bd13: real, cd13: real,
                        bc23: real, bd23: real, cd23: real)
    ensures x.a * d - p * (x.b * cd23 - x.c * bd23 + x.d * bc23) + q * (x.b * cd13 - x.c * bd13 + x.d * bc13)
            - r * (x.b * cd12 - x.c * bd12 + x.d * bc12)
            == x.a * d - x.b * (p * cd23 - q * cd13 + r * cd12) + x.c * (p * bd23 - q * bd13 + r * bd12)
               - x.d * (p * bc23 - q * bc13 + r * bc12)
  {
  }

  lemma Det3ByColumn(a: real, b: real, c: real, d: real, e: real, f: real, g: real, h: real, i: real)
    ensures Det3(a, b, c, d, e, f, g, h, i) == a * Det2(e, f, h, i) - d * Det2(b, c, h, i) + g * Det2(b, c, e, f)
  {
  }

  /** The determinant of four rows, expanded along the first column. */
  lemma LaplaceByColumn(x: Row, r: Row, s: Row, t: Row)
    ensures Laplace(x, r, s, t)
            == x.a * Det3(r.b, r.c, r.d, s.b, s.c, s.d, t.b, t.c, t.d)
               - r.a * Det3(x.b, x.c, x.d, s.b, s.c, s.d, t.b, t.c, t.d)
               + s.a * Det3(x.b, x.c, x.d, r.b, r.c, r.d, t.b, t.c, t.d)
               - t.a * Det3(x.b, x.c, x.d, r.b, r.c, r.d, s.b, s.c, s.d)
  {
    Det3ByColumn(r.a, r.c, r.d, s.a, s.c, s.d, t.a, t.c, t.d);
    Det3ByColumn(r.a, r.b, r.d, s.a, s.b, s.d, t.a, t.b, t.d);
    Det3ByColumn(r.a, r.b, r.c, s.a, s.b, s.c, t.a, t.b, t.c);
    var d := Det3(r.b, r.c, r.d, s.b, s.c, s.d, t.b, t.c, t.d);
    hide Det2;
    ColumnRegrouped(x, r.a, s.a, t.a, d,
                    Det2(r.b, r.c, s.b, s.c), Det2(r.b, r.d, s.b, s.d), Det2(r.c, r.d, s.c, s.d),
                    Det2(r.b, r.c, t.b, t.c), Det2(r.b, r.d, t.b, t.d), Det2(r.c, r.d, t.c, t.d),
                    Det2(s.b, s.c, t.b, t.c), Det2(s.b, s.d, t.b, t.d), Det2(s.c, s.d, t.c, t.d));
  }

  lemma FirstColumnCofactors(m: Matrix)
    ensures Transposed(m)[..4] == [m[0], m[4], m[8], m[12]]
    ensures var a := Adjugate(m);
            a[0] == Cofactor(m, 0, 0) && a[1] == Cofactor(m, 1, 0) &&
            a[2] == Cofactor(m, 2, 0) && a[3] == Cofactor(m, 3, 0)
  {
    hide Cofactor;
  }

  /** What the source computes as the determinant: the first column against its cofactors. */
  lemma FirstColumn(m: Matrix)
    ensures var t, a := Transposed(m), Adjugate(m);
            t[0] * a[0] + t[1] * a[1] + t[2] * a[2] + t[3] * a[3] == Determinant(m)
  {
    FirstColumnCofactors(m);
    var t, a := Transposed(m), Adjugate(m);
    assert t[0] == t[..4][0] && t[1] == t[..4][1] && t[2] == t[..4][2] && t[3] == t[..4][3];
    DeterminantIsLaplace(m);
    FirstColumnExpanded(m);
    hide Adjugate, Transposed, Determinant, Laplace, Cofactor, RowOf;
  }

  lemma FirstColumnExpanded(m: Matrix)
    ensures m[0] * Cofactor(m, 0, 0) + m[4] * Cofactor(m, 1, 0) + m[8] * Cofactor(m, 2, 0) + m[12] * Cofactor(m, 3, 0)
            == Laplace(RowOf(m, 0), RowOf(m, 1), RowOf(m, 2), RowOf(m, 3))
  {
    var x, r, s, t := RowOf(m, 0), RowOf(m, 1), RowOf(m, 2), RowOf(m, 3);
    LaplaceByColumn(x, r, s, t);
    FirstColumnSigns(m);
    hide Laplace, Cofactor, Det3;
  }

  lemma FirstColumnSigns(m: Matrix)
    ensures var (x, r, s, t) := (RowOf(m, 0), RowOf(m, 1), RowOf(m, 2), RowOf(m, 3));
            Cofactor(m, 0, 0) == Det3(r.b, r.c, r.d, s.b, s.c, s.d, t.b, t.c, t.d) &&
            Cofactor(m, 1, 0) == -Det3(x.b, x.c, x.d, s.b, s.c, s.d, t.b, t.c, t.d) &&
            Cofactor(m, 2, 0) == Det3(x.b, x.c, x.d, r.b, r.c, r.d, t.b, t.c, t.d) &&
            Cofactor(m, 3, 0) == -Det3(x.b, x.c, x.d, r.b, r.c, r.d, s.b, s.c, s.d)
  {
    hide Det3;
  }

  lemma TransposedAt(m: Matrix)
    ensures forall p :: 0 <= p < 16 ==> Transposed(m)[p] == m[4 * (p % 4) + p / 4]
    ensures Transposed(Transposed(m)) == m
  {
  }

  lemma ColumnsAreRows(a: Matrix, m: Matrix)
    requires forall k :: 0 <= k < 4 ==> ColumnOf(a, k) == RowOf(m, k)
    ensures a == Transposed(m)
  {
    TransposedAt(m);
    hide Transposed;
    forall p | 0 <= p < 16 ensures a[p] == Transposed(m)[p] {
      assert ColumnOf(a, p % 4) == RowOf(m, p % 4);
    }
  }

  lemma AdjugateCells(m: Matrix, d: Matrix)
    requires FourCofactors(d, m, 0) && FourCofactors(d, m, 1) && FourCofactors(d, m, 2) && FourCofactors(d, m, 3)
    ensures d == Adjugate(m)
  {
    hide Cofactor;
    forall i | 0 <= i < 4 ensures RowOf(d, i) == RowOf(Adjugate(m), i) {
      assert FourCofactors(d, m, i);
    }
    hide Adjugate;
    SameRows(d, Adjugate(m));
  }

  lemma ProductAt(a: Matrix, b: Matrix, k: nat)
    requires k < 16
    ensures Product(a, b)[k] == Dot(a, b, k / 4, k % 4)
  {
    hide Dot;
  }

  lemma DotScaledColumn(m: Matrix, a: Matrix, f: real, i: nat, j: nat)
    requires i < 4 && j < 4
    ensures Dot(m, Scaled(a, f), i, j) == Dot(m, a, i, j) * f
  {
    DotScaled(RowOf(m, i), ColumnOf(a, j), f);
    hide Inner, RowOf;
  }

  lemma DotScaled(x: Row, y: Row, f: real)
    ensures Inner(x, Row(y.a * f, y.b * f, y.c * f, y.d * f)) == Inner(x, y) * f
  {
  }

  /** The product with a scaled adjugate is the identity scaled by the same factor times the determinant. */
  lemma ScaledAdjugate(m: Matrix, f: real)
    ensures Product(m, Scaled(Adjugate(m), f)) == Scaled(IDENTITY, f * Determinant(m))
  {
    var a := Adjugate(m);
    var p, s := Product(m, Scaled(a, f)), Scaled(IDENTITY, f * Determinant(m));
    hide Adjugate, Determinant, Dot, Scaled, Product;
    forall k | 0 <= k < 16 ensures p[k] == s[k] {
      ProductAt(m, Scaled(a, f), k);
      DotScaledColumn(m, a, f, k / 4, k % 4);
      AdjugateEntry(m, k / 4, k % 4);
      assert IDENTITY[k] == if k / 4 == k % 4 then 1.0 else 0.0;
    }
  }

  lemma ScaledByOne(m: Matrix)
    ensures Scaled(m, 1.0) == m
  {
  }

  // ---------- rigid transforms ----------

  /** Cosine and sine of an angle. */
  datatype Angle = Angle(c: real, s: real) {
    predicate Proper() {
      c * c + s * s == 1.0
    }
  }

  /** Translation and rotation about three axes. */
  function RigidTransform(px: real, py: real, pz: real, x: Angle, y: Angle, z: Angle): Matrix {
    [z.c * y.c, z.c * y.s * x.s - z.s * x.c, z.c * y.s * x.c + z.s * x.s, px,
     z.s * y.c, z.s * y.s * x.s + z.c * x.c, z.s * y.s * x.c - z.c * x.s, py,
     -y.s, y.c * x.s, y.c * x.c, pz,
     0.0, 0.0, 0.0, 1.0]
  }

  function Translation(px: real, py: real, pz: real): Matrix {
    [1.0, 0.0, 0.0, px,
     0.0, 1.0, 0.0, py,
     0.0, 0.0, 1.0, pz,
     0.0, 0.0, 0.0, 1.0]
  }

  function AboutX(x: Angle): Matrix {
    [1.0, 0.0, 0.0, 0.0,
     0.0, x.c, -x.s, 0.0,
     0.0, x.s, x.c, 0.0,
     0.0, 0.0, 0.0, 1.0]
  }

  function AboutY(y: Angle): Matrix {
    [y.c, 0.0, y.s, 0.0,
     0.0, 1.0, 0.0, 0.0,
     -y.s, 0.0, y.c, 0.0,
     0.0, 0.0, 0.0, 1.0]
  }

  function AboutZ(z: Angle): Matrix {
    [z.c, -z.s, 0.0, 0.0,
     z.s, z.c, 0.0, 0.0,
     0.0, 0.0, 1.0, 0.0,
     0.0, 0.0, 0.0, 1.0]
  }

  /** A row of a product holds the sums over that row of the first matrix and each column of the second. */
  lemma ProductRows(a: Matrix, b: Matrix, i: nat)
    requires i < 4
    ensures RowOf(Product(a, b), i)
            == Row(Inner(RowOf(a, i), ColumnOf(b, 0)), Inner(RowOf(a, i), ColumnOf(b, 1)),
                   Inner(RowOf(a, i), ColumnOf(b, 2)), Inner(RowOf(a, i), ColumnOf(b, 3)))
  {
    hide Inner;
  }

  /** Each element of a product is the sum over a row of the first and a column of the second matrix. */
  lemma ProductExactly(a: Matrix, b: Matrix, i: nat, j: nat)
    requires i < 4 && j < 4
    ensures Product(a, b)[4 * i + j]
            == a[4 * i] * b[j] + a[4 * i + 1] * b[4 + j] + a[4 * i + 2] * b[8 + j] + a[4 * i + 3] * b[12 + j]
  {
    hide Product;
    ProductAt(a, b, 4 * i + j);
    assert (4 * i + j) / 4 == i && (4 * i + j) % 4 == j;
  }

  /** The four rows, or columns, of a matrix. */
  datatype Four = Four(r0: Row, r1: Row, r2: Row, r3: Row)

  function RowsOf(m: Matrix): Four {
    Four(RowOf(m, 0), RowOf(m, 1), RowOf(m, 2), RowOf(m, 3))
  }

  function ColumnsOf(m: Matrix): Four {
    Four(ColumnOf(m, 0), ColumnOf(m, 1), ColumnOf(m, 2), ColumnOf(m, 3))
  }

  function InnerRow(r: Row, b: Four): Row {
    Row(Inner(r, b.r0), Inner(r, b.r1), Inner(r, b.r2), Inner(r, b.r3))
  }

  lemma ProductIs(a: Matrix, b: Matrix, p: Matrix)
    requires var (r, c) := (RowsOf(a), ColumnsOf(b));
             RowsOf(p) == Four(InnerRow(r.r0, c), InnerRow(r.r1, c), InnerRow(r.r2, c), InnerRow(r.r3, c))
    ensures Product(a, b) == p
  {
    hide Product, Inner, RowOf, ColumnOf;
    ProductRows(a, b, 0);
    ProductRows(a, b, 1);
    ProductRows(a, b, 2);
    ProductRows(a, b, 3);
    SameRows(Product(a, b), p);
  }

  /** The turn about x followed by the one about y. */
  function AboutXY(x: Angle, y: Angle): Matrix {
    [y.c, y.s * x.s, y.s * x.c, 0.0,
     0.0, x.c, -x.s, 0.0,
     -y.s, y.c * x.s, y.c * x.c, 0.0,
     0.0, 0.0, 0.0, 1.0]
  }

  lemma TurnRows(y: Angle, z: Angle)
    ensures RowsOf(AboutY(y)) == Four(Row(y.c, 0.0, y.s, 0.0), Row(0.0, 1.0, 0.0, 0.0), Row(-y.s, 0.0, y.c, 0.0),
                                      Row(0.0, 0.0, 0.0, 1.0))
    ensures RowsOf(AboutZ(z)) == Four(Row(z.c, -z.s, 0.0, 0.0), Row(z.s, z.c, 0.0, 0.0), Row(0.0, 0.0, 1.0, 0.0),
                                      Row(0.0, 0.0, 0.0, 1.0))
  {
  }

  lemma TurnColumns(x: Angle, y: Angle)
    ensures ColumnsOf(AboutX(x)) == Four(Row(1.0, 0.0, 0.0, 0.0), Row(0.0, x.c, x.s, 0.0), Row(0.0, -x.s, x.c, 0.0),
                                         Row(0.0, 0.0, 0.0, 1.0))
    ensures ColumnsOf(AboutXY(x, y))
            == Four(Row(y.c, 0.0, -y.s, 0.0), Row(y.s * x.s, x.c, y.c * x.s, 0.0),
                    Row(y.s * x.c, -x.s, y.c * x.c, 0.0), Row(0.0, 0.0, 0.0, 1.0))
    ensures RowsOf(AboutXY(x, y))
            == Four(Row(y.c, y.s * x.s, y.s * x.c, 0.0), Row(0.0, x.c, -x.s, 0.0),
                    Row(-y.s, y.c * x.s, y.c * x.c, 0.0), Row(0.0, 0.0, 0.0, 1.0))
  {
  }

  lemma TurnsXY(x: Angle, y: Angle)
    ensures Product(AboutY(y), AboutX(x)) == AboutXY(x, y)
  {
    TurnRows(y, y);
    TurnColumns(x, y);
    hide Product, RowsOf, ColumnsOf, AboutX, AboutY, AboutXY;
    ProductIs(AboutY(y), AboutX(x), AboutXY(x, y));
  }

  lemma RigidColumns(x: Angle, y: Angle, z: Angle)
    ensures ColumnsOf(RigidTransform(0.0, 0.0, 0.0, x, y, z))
            == Four(Row(z.c * y.c, z.s * y.c, -y.s, 0.0),
                    Row(z.c * y.s * x.s - z.s * x.c, z.s * y.s * x.s + z.c * x.c, y.c * x.s, 0.0),
                    Row(z.c * y.s * x.c + z.s * x.s, z.s * y.s * x.c - z.c * x.s, y.c * x.c, 0.0),
                    Row(0.0, 0.0, 0.0, 1.0))
  {
  }

  lemma TurnsXYZ(x: Angle, y: Angle, z: Angle)
    ensures Product(AboutZ(z), AboutXY(x, y)) == RigidTransform(0.0, 0.0, 0.0, x, y, z)
  {
    TurnRows(z, z);
    TurnColumns(x, y);
    RigidRows(0.0, 0.0, 0.0, x, y, z);
    assert z.c * (y.s * x.s) == z.c * y.s * x.s && z.c * (y.s * x.c) == z.c * y.s * x.c;
    assert z.s * (y.s * x.s) == z.s * y.s * x.s && z.s * (y.s * x.c) == z.s * y.s * x.c;
    hide Product, RowOf, ColumnsOf, AboutZ, AboutXY, RigidTransform;
    ProductIs(AboutZ(z), AboutXY(x, y), RigidTransform(0.0, 0.0, 0.0, x, y, z));
  }

  lemma TranslationRows(px: real, py: real, pz: real)
    ensures RowsOf(Translation(px, py, pz))
            == Four(Row(1.0, 0.0, 0.0, px), Row(0.0, 1.0, 0.0, py), Row(0.0, 0.0, 1.0, pz), Row(0.0, 0.0, 0.0, 1.0))
  {
  }

  lemma Moves(px: real, py: real, pz: real, x: Angle, y: Angle, z: Angle)
    ensures Product(Translation(px, py, pz), RigidTransform(0.0, 0.0, 0.0, x, y, z))
            == RigidTransform(px, py, pz, x, y, z)
  {
    TranslationRows(px, py, pz);
    RigidColumns(x, y, z);
    RigidRows(px, py, pz, x, y, z);
    hide Product, RowOf, ColumnsOf, Translation, RigidTransform;
    ProductIs(Translation(px, py, pz), RigidTransform(0.0, 0.0, 0.0, x, y, z), RigidTransform(px, py, pz, x, y, z));
  }

  /** A rigid transform turns about x, then about y, then about z, and then moves. */
  lemma RigidIsComposed(px: real, py: real, pz: real, x: Angle, y: Angle, z: Angle)
    ensures RigidTransform(px, py, pz, x, y, z)
            == Product(Translation(px, py, pz), Product(AboutZ(z), Product(AboutY(y), AboutX(x))))
  {
    TurnsXY(x, y);
    TurnsXYZ(x, y, z);
    Moves(px, py, pz, x, y, z);
    hide Product, Translation, RigidTransform, AboutX, AboutY, AboutZ, AboutXY;
  }

  lemma RigidRows(px: real, py: real, pz: real, x: Angle, y: Angle, z: Angle)
    ensures var t := RigidTransform(px, py, pz, x, y, z);
            RowOf(t, 0) == Row(z.c * y.c, z.c * y.s * x.s - z.s * x.c, z.c * y.s * x.c + z.s * x.s, px) &&
            RowOf(t, 1) == Row(z.s * y.c, z.s * y.s * x.s + z.c * x.c, z.s * y.s * x.c - z.c * x.s, py) &&
            RowOf(t, 2) == Row(-y.s, y.c * x.s, y.c * x.c, pz) && RowOf(t, 3) == Row(0.0, 0.0, 0.0, 1.0)
  {
    var t := RigidTransform(px, py, pz, x, y, z);
    FirstRow(t, z.c * y.c, z.c * y.s * x.s - z.s * x.c, z.c * y.s * x.c + z.s * x.s, px);
    assert RowOf(t, 1) == Row(t[4], t[5], t[6], t[7]) && RowOf(t, 2) == Row(t[8], t[9], t[10], t[11]);
    assert RowOf(t, 3) == Row(t[12], t[13], t[14], t[15]);
    hide RowOf;
  }

  lemma FirstRow(m: Matrix, a: real, b: real, c: real, d: real)
    requires m[0] == a && m[1] == b && m[2] == c && m[3] == d
    ensures RowOf(m, 0) == Row(a, b, c, d)
  {
  }

  lemma SameRows(a: Matrix, b: Matrix)
    requires forall i :: 0 <= i < 4 ==> RowOf(a, i) == RowOf(b, i)
    ensures a == b
  {
    forall k | 0 <= k < 16 ensures a[k] == b[k] {
      assert RowOf(a, k / 4) == RowOf(b, k / 4);
    }
  }

  lemma UnitFactor(u: real, x: Angle, z: Angle)
    requires x.Proper() && z.Proper()
    ensures u * (z.c * z.c + z.s * z.s) == u
    ensures u * ((z.c * z.c + z.s * z.s) * (x.c * x.c + x.s * x.s)) == u
  {
  }

  lemma FirstMinor(x: Angle, y: Angle, z: Angle)
    requires x.Proper() && z.Proper()
    ensures Det2(z.c * y.s * x.s - z.s * x.c, z.c * y.s * x.c + z.s * x.s,
                 z.s * y.s * x.s + z.c * x.c, z.s * y.s * x.c - z.c * x.s) == -y.s
  {
    UnitFactor(-y.s, x, z);
  }

  lemma SecondMinor(x: Angle, y: Angle, z: Angle)
    requires x.Proper() && z.Proper()
    ensures Det2(z.c * y.c, z.c * y.s * x.c + z.s * x.s, z.s * y.c, z.s * y.s * x.c - z.c * x.s) == -(y.c * x.s)
  {
    UnitFactor(-(y.c * x.s), x, z);
  }

  lemma ThirdMinor(x: Angle, y: Angle, z: Angle)
    requires x.Proper() && z.Proper()
    ensures Det2(z.c * y.c, z.c * y.s * x.s - z.s * x.c, z.s * y.c, z.s * y.s * x.s + z.c * x.c) == y.c * x.c
  {
    UnitFactor(y.c * x.c, x, z);
  }

  /** The last row of a rotation is a unit vector, and the cross product of the other two. */
  lemma UnitRow(x: Angle, y: Angle, a: real, b: real, c: real, p: real, q: real, r: real)
    requires x.Proper() && y.Proper()
    requires a == p == -y.s && b == y.c * x.s && q == -b && c == r == y.c * x.c
    ensures a * p - b * q + c * r == 1.0
  {
    assert b * b + c * c == y.c * y.c * (x.s * x.s + x.c * x.c);
  }

  /** Expansion along a last row of zeros and a one. */
  lemma AffineDeterminant(m: Matrix)
    requires m[12] == 0.0 && m[13] == 0.0 && m[14] == 0.0 && m[15] == 1.0
    ensures Determinant(m)
            == m[8] * Det2(m[1], m[2], m[5], m[6])
               - m[9] * Det2(m[0], m[2], m[4], m[6])
               + m[10] * Det2(m[0], m[1], m[4], m[5])
  {
    var x, r, s, t := RowOf(m, 0), RowOf(m, 1), RowOf(m, 2), RowOf(m, 3);
    DeterminantIsLaplace(m);
    LaplaceByPairs(x, r, s, t);
    hide Determinant, Laplace;
  }

  /** A rigid transform has determinant one, so inverting it never fails. */
  lemma RigidDeterminant(px: real, py: real, pz: real, x: Angle, y: Angle, z: Angle)
    requires x.Proper() && y.Proper() && z.Proper()
    ensures Determinant(RigidTransform(px, py, pz, x, y, z)) == 1.0
  {
    var m := RigidTransform(px, py, pz, x, y, z);
    AffineDeterminant(m);
    FirstMinor(x, y, z);
    SecondMinor(x, y, z);
    ThirdMinor(x, y, z);
    RigidRows(px, py, pz, x, y, z);
    hide Determinant, Det2;
    assert m[0] == RowOf(m, 0).a && m[1] == RowOf(m, 0).b && m[2] == RowOf(m, 0).c;
    assert m[4] == RowOf(m, 1).a && m[5] == RowOf(m, 1).b && m[6] == RowOf(m, 1).c;
    assert m[8] == RowOf(m, 2).a && m[9] == RowOf(m, 2).b && m[10] == RowOf(m, 2).c;
    assert Det2(m[1], m[2], m[5], m[6]) == -y.s;
    assert Det2(m[0], m[2], m[4], m[6]) == -(y.c * x.s);
    assert Det2(m[0], m[1], m[4], m[5]) == y.c * x.c;
    UnitRow(x, y, m[8], m[9], m[10], Det2(m[1], m[2], m[5], m[6]), Det2(m[0], m[2], m[4], m[6]),
            Det2(m[0], m[1], m[4], m[5]));
    hide RigidTransform;
  }

  // ---------- the accumulating product ----------

  function Sum(a: Matrix, b: Matrix): (r: Matrix)
    ensures forall k :: 0 <= k < 16 ==> r[k] == a[k] + b[k]
  {
    seq(16, k requires 0 <= k < 16 => a[k] + b[k])
  }

  /** Operator * starts from a default matrix, so it never returns the textbook product. */
  lemma TimesIsNotProduct(a: Matrix, b: Matrix)
    ensures Sum(IDENTITY, Product(a, b)) != Product(a, b)
  {
    assert Sum(IDENTITY, Product(a, b))[0] == 1.0 + Product(a, b)[0];
  }

  function PartialDot(a: Matrix, b: Matrix, j: nat, i: nat, n: nat): real
    requires j < 4 && i < 4 && n <= 4
  {
    if n == 0 then 0.0 else PartialDot(a, b, j, i, n - 1) + a[j * 4 + n - 1] * b[(n - 1) * 4 + i]
  }

  lemma PartialDotFull(a: Matrix, b: Matrix, j: nat, i: nat)
    requires j < 4 && i < 4
    ensures PartialDot(a, b, j, i, 4) == Product(a, b)[j * 4 + i]
  {
    var x, y := RowOf(a, j), ColumnOf(b, i);
    assert PartialDot(a, b, j, i, 1) == x.a * y.a;
    assert PartialDot(a, b, j, i, 2) == x.a * y.a + x.b * y.b;
    assert PartialDot(a, b, j, i, 3) == x.a * y.a + x.b * y.b + x.c * y.c;
    assert PartialDot(a, b, j, i, 4) == Inner(x, y);
    ProductAt(a, b, j * 4 + i);
    hide Product;
  }

  /** Products of elements of the last two rows. */
  ghost predicate LowerPaired(src: seq<real>, tmp: seq<real>)
    requires |src| == 16 && |tmp| == 16
  {
    && tmp[0] == src[10] * src[15]
    && tmp[1] == src[11] * src[14]
    && tmp[2] == src[9] * src[15]
    && tmp[3] == src[11] * src[13]
    && tmp[4] == src[9] * src[14]
    && tmp[5] == src[10] * src[13]
    && tmp[6] == src[8] * src[15]
    && tmp[7] == src[11] * src[12]
    && tmp[8] == src[8] * src[14]
    && tmp[9] == src[10] * src[12]
    && tmp[10] == src[8] * src[13]
    && tmp[11] == src[9] * src[12]
  }

  /** Products of elements of the first two rows. */
  ghost predicate UpperPaired(src: seq<real>, tmp: seq<real>)
    requires |src| == 16 && |tmp| == 16
  {
    && tmp[0] == src[2] * src[7]
    && tmp[1] == src[3] * src[6]
    && tmp[2] == src[1] * src[7]
    && tmp[3] == src[3] * src[5]
    && tmp[4] == src[1] * src[6]
    && tmp[5] == src[2] * src[5]
    && tmp[6] == src[0] * src[7]
    && tmp[7] == src[3] * src[4]
    && tmp[8] == src[0] * src[6]
    && tmp[9] == src[2] * src[4]
    && tmp[10] == src[0] * src[5]
    && tmp[11] == src[1] * src[4]
  }

  /** Row i of the adjugate is in place. */
  ghost predicate FourCofactors(d: Matrix, m: Matrix, i: nat)
    requires i < 4
  {
    RowOf(d, i) == Row(Cofactor(m, 0, i), Cofactor(m, 1, i), Cofactor(m, 2, i), Cofactor(m, 3, i))
  }

  ghost predicate SameRowsBut(a: Matrix, b: Matrix, i: nat) {
    forall k :: 0 <= k < 4 && k != i ==> RowOf(a, k) == RowOf(b, k)
  }

  method PutRow(a: array<real>, i: nat, r: Row)
    requires a.Length == 16 && i < 4
    modifies a
    ensures RowOf(a[..], i) == r && SameRowsBut(a[..], old(a[..]), i)
  {
    a[4 * i] := r.a;
    a[4 * i + 1] := r.b;
    a[4 * i + 2] := r.c;
    a[4 * i + 3] := r.d;
  }

  method PutColumn(a: array<real>, i: nat, r: Row)
    requires a.Length == 16 && i < 4
    modifies a
    ensures ColumnOf(a[..], i) == r
    ensures forall k :: 0 <= k < 4 && k != i ==> ColumnOf(a[..], k) == ColumnOf(old(a[..]), k)
  {
    a[i] := r.a;
    a[i + 4] := r.b;
    a[i + 8] := r.c;
    a[i + 12] := r.d;
  }

  class Matrix3D {
    const m: array<real>

    ghost predicate Valid()
    {
      m.Length == 16
    }

    /** The default constructor makes the identity. */
    constructor ()
      ensures Valid() && fresh(m) && m[..] == IDENTITY
    {
      var cells := new real[16](i requires 0 <= i < 16 => IDENTITY[i]);
      m := cells;
      new;
      assert m[..] == IDENTITY;
    }

    /** Pairs from the last two rows of the transposed matrix. */
    static method LowerPairs(src: array<real>, tmp: array<real>)
      requires src.Length == 16 && tmp.Length == 16 && src != tmp
      modifies tmp
      ensures LowerPaired(src[..], tmp[..])
    {
      tmp[0] := src[10] * src[15];
      tmp[1] := src[11] * src[14];
      tmp[2] := src[9] * src[15];
      tmp[3] := src[11] * src[13];
      tmp[4] := src[9] * src[14];
      tmp[5] := src[10] * src[13];
      tmp[6] := src[8] * src[15];
      tmp[7] := src[11] * src[12];
      tmp[8] := src[8] * src[14];
      tmp[9] := src[10] * src[12];
      tmp[10] := src[8] * src[13];
      tmp[11] := src[9] * src[12];
    }

    /** The first four cofactors. */
    static method Cofactors0To3(src: array<real>, tmp: array<real>, dst: array<real>)
      requires src.Length == 16 && tmp.Length == 16 && dst.Length == 16
      requires src != tmp && src != dst && tmp != dst && LowerPaired(src[..], tmp[..])
      modifies dst
      ensures FourCofactors(dst[..], Transposed(src[..]), 0)
      ensures SameRowsBut(dst[..], old(dst[..]), 0)
    {
      CofactorGroup0(src[..]);
      hide Cofactor, Transposed;
      PutRow(dst, 0, Row(
        (tmp[0] * src[5] + tmp[3] * src[6] + tmp[4] * src[7]) - (tmp[1] * src[5] + tmp[2] * src[6] + tmp[5] * src[7]),
        (tmp[1] * src[4] + tmp[6] * src[6] + tmp[9] * src[7]) - (tmp[0] * src[4] + tmp[7] * src[6] + tmp[8] * src[7]),
        (tmp[2] * src[4] + tmp[7] * src[5] + tmp[10] * src[7]) - (tmp[3] * src[4] + tmp[6] * src[5] + tmp[11] * src[7]),
        (tmp[5] * src[4] + tmp[8] * src[5] + tmp[11] * src[6])
            - (tmp[4] * src[4] + tmp[9] * src[5] + tmp[10] * src[6])));
    }

    /** The next four cofactors. */
    static method Cofactors4To7(src: array<real>, tmp: array<real>, dst: array<real>)
      requires src.Length == 16 && tmp.Length == 16 && dst.Length == 16
      requires src != tmp && src != dst && tmp != dst && LowerPaired(src[..], tmp[..])
      modifies dst
      ensures FourCofactors(dst[..], Transposed(src[..]), 1)
      ensures SameRowsBut(dst[..], old(dst[..]), 1)
    {
      CofactorGroup1(src[..]);
      hide Cofactor, Transposed;
      PutRow(dst, 1, Row(
        (tmp[1] * src[1] + tmp[2] * src[2] + tmp[5] * src[3]) - (tmp[0] * src[1] + tmp[3] * src[2] + tmp[4] * src[3]),
        (tmp[0] * src[0] + tmp[7] * src[2] + tmp[8] * src[3]) - (tmp[1] * src[0] + tmp[6] * src[2] + tmp[9] * src[3]),
        (tmp[3] * src[0] + tmp[6] * src[1] + tmp[11] * src[3]) - (tmp[2] * src[0] + tmp[7] * src[1] + tmp[10] * src[3]),
        (tmp[4] * src[0] + tmp[9] * src[1] + tmp[10] * src[2])
            - (tmp[5] * src[0] + tmp[8] * src[1] + tmp[11] * src[2])));
    }

    /** Pairs from the first two rows of the transposed matrix. */
    static method UpperPairs(src: array<real>, tmp: array<real>)
      requires src.Length == 16 && tmp.Length == 16 && src != tmp
      modifies tmp
      ensures UpperPaired(src[..], tmp[..])
    {
      tmp[0] := src[2] * src[7];
      tmp[1] := src[3] * src[6];
      tmp[2] := src[1] * src[7];
      tmp[3] := src[3] * src[5];
      tmp[4] := src[1] * src[6];
      tmp[5] := src[2] * src[5];
      tmp[6] := src[0] * src[7];
      tmp[7] := src[3] * src[4];
      tmp[8] := src[0] * src[6];
      tmp[9] := src[2] * src[4];
      tmp[10] := src[0] * src[5];
      tmp[11] := src[1] * src[4];
    }

    /** The third four cofactors. */
    static method Cofactors8To11(src: array<real>, tmp: array<real>, dst: array<real>)
      requires src.Length == 16 && tmp.Length == 16 && dst.Length == 16
      requires src != tmp && src != dst && tmp != dst && UpperPaired(src[..], tmp[..])
      modifies dst
      ensures FourCofactors(dst[..], Transposed(src[..]), 2)
      ensures SameRowsBut(dst[..], old(dst[..]), 2)
    {
      CofactorGroup2(src[..]);
      hide Cofactor, Transposed;
      PutRow(dst, 2, Row(
        (tmp[0] * src[13] + tmp[3] * src[14] + tmp[4] * src[15])
            - (tmp[1] * src[13] + tmp[2] * src[14] + tmp[5] * src[15]),
        (tmp[1] * src[12] + tmp[6] * src[14] + tmp[9] * src[15])
            - (tmp[0] * src[12] + tmp[7] * src[14] + tmp[8] * src[15]),
        (tmp[2] * src[12] + tmp[7] * src[13] + tmp[10] * src[15])
            - (tmp[3] * src[12] + tmp[6] * src[13] + tmp[11] * src[15]),
        (tmp[5] * src[12] + tmp[8] * src[13] + tmp[11] * src[14])
          - (tmp[4] * src[12] + tmp[9] * src[13] + tmp[10] * src[14])));
    }

    /** The last four cofactors. */
    static method Cofactors12To15(src: array<real>, tmp: array<real>, dst: array<real>)
      requires src.Length == 16 && tmp.Length == 16 && dst.Length == 16
      requires src != tmp && src != dst && tmp != dst && UpperPaired(src[..], tmp[..])
      modifies dst
      ensures FourCofactors(dst[..], Transposed(src[..]), 3)
      ensures SameRowsBut(dst[..], old(dst[..]), 3)
    {
      CofactorGroup3(src[..]);
      hide Cofactor, Transposed;
      PutRow(dst, 3, Row(
        (tmp[2] * src[10] + tmp[5] * src[11] + tmp[1] * src[9])
            - (tmp[4] * src[11] + tmp[0] * src[9] + tmp[3] * src[10]),
        (tmp[8] * src[11] + tmp[0] * src[8] + tmp[7] * src[10])
            - (tmp[6] * src[10] + tmp[9] * src[11] + tmp[1] * src[8]),
        (tmp[6] * src[9] + tmp[11] * src[11] + tmp[3] * src[8])
            - (tmp[10] * src[11] + tmp[2] * src[8] + tmp[7] * src[9]),
        (tmp[10] * src[10] + tmp[4] * src[8] + tmp[9] * src[9])
            - (tmp[8] * src[9] + tmp[11] * src[10] + tmp[5] * src[8])));
    }

    /** The transposed elements, four at a time. */
    method TransposeInto(src: array<real>)
      requires Valid() && src.Length == 16 && src != m
      modifies src
      ensures src[..] == Transposed(m[..])
    {
      var i := 0;
      while i < 4
        invariant 0 <= i <= 4
        invariant forall k :: 0 <= k < i ==> ColumnOf(src[..], k) == RowOf(m[..], k)
      {
        PutColumn(src, i, Row(m[i * 4], m[i * 4 + 1], m[i * 4 + 2], m[i * 4 + 3]));
        i := i + 1;
      }
      ColumnsAreRows(src[..], m[..]);
    }

    /** The adjugate, by way of the transposed matrix. */
    method AdjugateInto(src: array<real>, dst: array<real>)
      requires src.Length == 16 && dst.Length == 16 && dst != src
      modifies dst
      ensures dst[..] == Adjugate(Transposed(src[..]))
    {
      hide Transposed, Cofactor, Adjugate, LowerPaired, UpperPaired;
      ghost var t := Transposed(src[..]);
      var tmp := new real[16];
      LowerPairs(src, tmp);
      Cofactors0To3(src, tmp, dst);
      Cofactors4To7(src, tmp, dst);
      UpperPairs(src, tmp);
      Cofactors8To11(src, tmp, dst);
      Cofactors12To15(src, tmp, dst);
      AdjugateCells(t, dst[..]);
    }

    /** Inversion in place; the result says whether the matrix was invertible. */
    method Inverse() returns (ok: bool)
      requires Valid()
      modifies m
      ensures ok <==> Determinant(old(m[..])) != 0.0
      ensures ok ==> Product(old(m[..]), m[..]) == IDENTITY
      ensures !ok ==> m[..] == old(m[..])
    {
      hide Transposed, Adjugate, Determinant, Scaled, Product;
      ghost var was := m[..];
      var dst := new real[16];
      var src := new real[16];
      TransposeInto(src);
      TransposedAt(was);
      AdjugateInto(src, dst);
      var det := src[0] * dst[0] + src[1] * dst[1] + src[2] * dst[2] + src[3] * dst[3];
      FirstColumn(was);
      assert det == Determinant(was);
      if det == 0.0 { return false; }
      det := 1.0 / det;
      ScaleFrom(dst, det);
      ScaledAdjugate(was, det);
      assert det * Determinant(was) == 1.0;
      ScaledByOne(IDENTITY);
      return true;
    }

    /** Every element becomes the factor times the element of another matrix. */
    method ScaleFrom(dst: array<real>, f: real)
      requires Valid() && dst.Length == 16 && dst != m
      modifies m
      ensures m[..] == Scaled(dst[..], f)
    {
      var i := 0;
      while i < 16
        invariant 0 <= i <= 16
        invariant forall k :: 0 <= k < i ==> m[k] == dst[k] * f
      {
        m[i] := dst[i] * f;
        i := i + 1;
      }
      ghost var scaled := Scaled(dst[..], f);
      assert forall k :: 0 <= k < 16 ==> m[..][k] == scaled[k];
    }

    /** The transform of a point and three angles given by their cosines and sines. */
    method SetTransform(px: real, py: real, pz: real, x: Angle, y: Angle, z: Angle)
      requires Valid()
      modifies m
      ensures m[..] == RigidTransform(px, py, pz, x, y, z)
    {
      PutRow(m, 3, Row(0.0, 0.0, 0.0, 1.0));
      PutRow(m, 0, Row(z.c * y.c, z.c * y.s * x.s - z.s * x.c, z.c * y.s * x.c + z.s * x.s, px));
      PutRow(m, 1, Row(z.s * y.c, z.s * y.s * x.s + z.c * x.c, z.s * y.s * x.c - z.c * x.s, py));
      PutRow(m, 2, Row(-y.s, y.c * x.s, y.c * x.c, pz));
      RigidRows(px, py, pz, x, y, z);
      SameRows(m[..], RigidTransform(px, py, pz, x, y, z));
    }

    /** The innermost loop of operator *: one sum added to one element. */
    method AccumulateDot(mat: Matrix3D, result: Matrix3D, j: nat, i: nat)
      requires Valid() && mat.Valid() && result.Valid() && result.m != m && result.m != mat.m && j < 4 && i < 4
      modifies result.m
      ensures result.m[j * 4 + i] == old(result.m[j * 4 + i]) + Product(m[..], mat.m[..])[j * 4 + i]
      ensures forall k :: 0 <= k < 16 && k != j * 4 + i ==> result.m[k] == old(result.m[k])
    {
      ghost var a, b := m[..], mat.m[..];
      hide Product;
      for c := 0 to 4
        invariant result.m[j * 4 + i] == old(result.m[j * 4 + i]) + PartialDot(a, b, j, i, c)
        invariant forall k :: 0 <= k < 16 && k != j * 4 + i ==> result.m[k] == old(result.m[k])
      {
        result.m[j * 4 + i] := result.m[j * 4 + i] + m[j * 4 + c] * mat.m[c * 4 + i];
      }
      PartialDotFull(a, b, j, i);
    }

    /** Operator *: the sums are accumulated onto the identity the result starts as. */
    method Times(mat: Matrix3D) returns (result: Matrix3D)
      requires Valid() && mat.Valid()
      ensures result.Valid() && fresh(result) && fresh(result.m)
      ensures result.m[..] == Sum(IDENTITY, Product(m[..], mat.m[..]))
    {
      result := new Matrix3D();
      ghost var p := Product(m[..], mat.m[..]);
      hide Product;
      for j := 0 to 4
        invariant forall k :: 0 <= k < 16 ==> result.m[k] == IDENTITY[k] + if k < j * 4 then p[k] else 0.0
      {
        for i := 0 to 4
          invariant forall k :: 0 <= k < 16 ==> result.m[k] == IDENTITY[k] + if k < j * 4 + i then p[k] else 0.0
        {
          AccumulateDot(mat, result, j, i);
        }
      }
    }

    /** Operator *=. */
    method TimesAssign(mat: Matrix3D)
      requires Valid() && mat.Valid()
      modifies m
      ensures m[..] == Sum(IDENTITY, Product(old(m[..]), old(mat.m[..])))
    {
      var tmp := Times(mat);
      ghost var product := tmp.m[..];
      hide Product, Sum;
      var i := 0;
      while i < 16
        invariant 0 <= i <= 16 && tmp.m[..] == product
        invariant forall k :: 0 <= k < i ==> m[k] == tmp.m[k]
      {
        m[i] := tmp.m[i];
        i := i + 1;
      }
      assert m[..] == tmp.m[..];
    }
  }
}
