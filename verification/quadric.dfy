/** The symmetric 4x4 error quadric of Garland and Heckbert, stored as its
    10 independent coefficients in the row-major upper triangle:

        | q0 q1 q2 q3 |
        | q1 q4 q5 q6 |
        | q2 q5 q7 q8 |
        | q3 q6 q8 q9 |
*/
module Quadrics {
  import opened Vectors

  type Coefficients = s: seq<real> | |s| == 10 witness [0.0, 0.0, 0.0, 0.0, 0.0, 0.0, 0.0, 0.0, 0.0, 0.0]

  /** A coefficient index. */
  type Index = i: nat | i < 10

  datatype Quadric = Quadric(data: Coefficients)

  /** The constructor `new DecimationMatrix(data)`: slot `i` takes `data[i]`
      when that entry exists and is truthy, and 0 otherwise. */
  function FromArray(data: seq<real>): (q: Quadric)
    ensures forall i | 0 <= i < 10 :: q.data[i] == if i < |data| then data[i] else 0.0
  {
    Quadric(seq(10, i requires 0 <= i < 10 => if i < |data| && data[i] != 0.0 then data[i] else 0.0))
  }

  /** The all-zero quadric every vertex starts with. */
  function Zero(): (q: Quadric)
    ensures forall p :: VertexError(q, p) == 0.0
  {
    FromArray([])
  }

  /** `det(a11, ..., a33)`: the determinant of the 3x3 matrix whose entries
      are the coefficients at the nine given indices, expanded by Sarrus' rule
      in the same term order as the source. */
  function Det(q: Quadric, a11: Index, a12: Index, a13: Index,
               a21: Index, a22: Index, a23: Index,
               a31: Index, a32: Index, a33: Index): real
  {
    var d := q.data;
    Det3(d[a11], d[a12], d[a13], d[a21], d[a22], d[a23], d[a31], d[a32], d[a33])
  }

  /** Sarrus' rule for the matrix with rows (a11 a12 a13), (a21 a22 a23),
      (a31 a32 a33). */
  function Det3(a11: real, a12: real, a13: real, a21: real, a22: real, a23: real,
                a31: real, a32: real, a33: real): real
  {
    a11 * a22 * a33 + a13 * a21 * a32 + a12 * a23 * a31
    - a13 * a22 * a31 - a11 * a23 * a32 - a12 * a21 * a33
  }

  /** `add`: a fresh quadric holding the coefficient-wise sum. */
  function Add(a: Quadric, b: Quadric): (r: Quadric)
    ensures forall i | 0 <= i < 10 :: r.data[i] == a.data[i] + b.data[i]
  {
    Quadric(seq(10, i requires 0 <= i < 10 => a.data[i] + b.data[i]))
  }

  /** `addArrayInPlace`: the coefficient loop run on a copy of `q`'s data,
      returning the value `q` holds afterwards. */
  method AddArrayInPlace(q: Quadric, data: Coefficients) returns (r: Quadric)
    ensures forall i | 0 <= i < 10 :: r.data[i] == q.data[i] + data[i]
  {
    var acc := q.data;
    var i := 0;
    while i < 10
      invariant 0 <= i <= 10
      invariant |acc| == 10
      invariant forall k | 0 <= k < i :: acc[k] == q.data[k] + data[k]
      invariant forall k | i <= k < 10 :: acc[k] == q.data[k]
    {
      acc := acc[i := acc[i] + data[i]];
      i := i + 1;
    }
    r := Quadric(acc);
  }

  /** `addInPlace`: the same loop, reading the other matrix's coefficients. */
  method AddInPlace(q: Quadric, other: Quadric) returns (r: Quadric)
    ensures forall i | 0 <= i < 10 :: r.data[i] == q.data[i] + other.data[i]
    ensures r == Add(q, other)
  {
    r := AddArrayInPlace(q, other.data);
  }

  /** `DataFromNumbers(a, b, c, d)`: the 10 distinct entries of the outer
      product of the plane vector `(a, b, c, d)` with itself. */
  function DataFromNumbers(a: real, b: real, c: real, d: real): Coefficients
  {
    [a * a, a * b, a * c, a * d, b * b, b * c, b * d, c * c, c * d, d * d]
  }

  /** `FromData(a, b, c, d)`: the plane quadric, built through the constructor. */
  function FromData(a: real, b: real, c: real, d: real): Quadric
  {
    FromArray([a * a, a * b, a * c, a * d, b * b, b * c, b * d, c * c, c * d, d * d])
  }

  /** `vertexError(q, p)`: the quadratic form (x, y, z, 1) Q (x, y, z, 1)^T. */
  function VertexError(q: Quadric, p: Vec3): real
  {
    var d := q.data;
    Form(d[0], d[1], d[2], d[3], d[4], d[5], d[6], d[7], d[8], d[9], p.x, p.y, p.z)
  }

  /** The source's expression for the form, over plain scalars. */
  function Form(q0: real, q1: real, q2: real, q3: real, q4: real, q5: real, q6: real,
                q7: real, q8: real, q9: real, x: real, y: real, z: real): real
  {
    q0 * x * x + 2.0 * q1 * x * y + 2.0 * q2 * x * z + 2.0 * q3 * x
    + q4 * y * y + 2.0 * q5 * y * z + 2.0 * q6 * y + q7 * z * z
    + 2.0 * q8 * z + q9
  }

  /** The plane's signed value a x + b y + c z + d at `p`. */
  function PlaneValue(a: real, b: real, c: real, d: real, p: Vec3): real
  {
    a * p.x + b * p.y + c * p.z + d
  }

  /** The homogeneous part of the form: v^T A v for the upper-left 3x3 block A. */
  function QuadraticPart(q: Quadric, v: Vec3): real
  {
    var d := q.data;
    BlockForm(d[0], d[1], d[2], d[4], d[5], d[7], v.x, v.y, v.z)
  }

  /** `QuadraticPart` over plain scalars. */
  function BlockForm(q0: real, q1: real, q2: real, q4: real, q5: real, q7: real,
                     x: real, y: real, z: real): real
  {
    q0 * x * x + 2.0 * q1 * x * y + 2.0 * q2 * x * z
    + q4 * y * y + 2.0 * q5 * y * z + q7 * z * z
  }

  /** The gradient of `VertexError(q, _)` at `p`, i.e. 2 (A p + b). */
  function Gradient(q: Quadric, p: Vec3): Vec3
  {
    var d := q.data;
    Vec3(2.0 * (d[0] * p.x + d[1] * p.y + d[2] * p.z + d[3]),
         2.0 * (d[1] * p.x + d[4] * p.y + d[5] * p.z + d[6]),
         2.0 * (d[2] * p.x + d[5] * p.y + d[7] * p.z + d[8]))
  }

  function Dot(a: Vec3, b: Vec3): real
  {
    a.x * b.x + a.y * b.y + a.z * b.z
  }

  // ---------------------------------------------------------------------
  // Algebraic facts
  // ---------------------------------------------------------------------

  /** Addition is commutative and associative, so the order in which plane
      quadrics are accumulated into a vertex does not matter. */
  lemma AddCommutesAndAssociates(a: Quadric, b: Quadric, c: Quadric)
    ensures Add(a, b) == Add(b, a)
    ensures Add(Add(a, b), c) == Add(a, Add(b, c))
  {
    assert Add(a, b).data == Add(b, a).data;
    assert Add(Add(a, b), c).data == Add(a, Add(b, c)).data;
  }

  /** The error of a sum of quadrics is the sum of their errors. */
  lemma ErrorOfSum(q1: Quadric, q2: Quadric, p: Vec3)
    ensures VertexError(Add(q1, q2), p) == VertexError(q1, p) + VertexError(q2, p)
  {
    var s := Add(q1, q2);
    var x, y, z := p.x, p.y, p.z;
    assert s.data[0] * x * x == q1.data[0] * x * x + q2.data[0] * x * x;
    assert s.data[1] * x * y == q1.data[1] * x * y + q2.data[1] * x * y;
    assert s.data[2] * x * z == q1.data[2] * x * z + q2.data[2] * x * z;
    assert s.data[3] * x == q1.data[3] * x + q2.data[3] * x;
    assert s.data[4] * y * y == q1.data[4] * y * y + q2.data[4] * y * y;
    assert s.data[5] * y * z == q1.data[5] * y * z + q2.data[5] * y * z;
    assert s.data[6] * y == q1.data[6] * y + q2.data[6] * y;
    assert s.data[7] * z * z == q1.data[7] * z * z + q2.data[7] * z * z;
    assert s.data[8] * z == q1.data[8] * z + q2.data[8] * z;
  }

  /** `FromData` and `DataFromNumbers` agree coefficient by coefficient. */
  lemma FromDataMatchesNumbers(a: real, b: real, c: real, d: real)
    ensures FromData(a, b, c, d).data == DataFromNumbers(a, b, c, d)
  {
  }

  /** The error of a plane quadric is the squared plane value, hence never
      negative. */
  lemma PlaneError(a: real, b: real, c: real, d: real, p: Vec3)
    ensures VertexError(FromData(a, b, c, d), p) == PlaneValue(a, b, c, d, p) * PlaneValue(a, b, c, d, p)
    ensures VertexError(FromData(a, b, c, d), p) >= 0.0
  {
    var q := FromData(a, b, c, d);
    assert q.data == [a * a, a * b, a * c, a * d, b * b, b * c, b * d, c * c, c * d, d * d];
    assert VertexError(q, p) == Form(a * a, a * b, a * c, a * d, b * b, b * c, b * d, c * c, c * d, d * d, p.x, p.y, p.z);
    PlaneForm(a, b, c, d, p);
  }

  /** `PlaneError` with the coefficients spelled out. */
  lemma PlaneForm(a: real, b: real, c: real, d: real, p: Vec3)
    ensures Form(a * a, a * b, a * c, a * d, b * b, b * c, b * d, c * c, c * d, d * d, p.x, p.y, p.z)
         == PlaneValue(a, b, c, d, p) * PlaneValue(a, b, c, d, p)
  {
    SquareOfSum(a * p.x, b * p.y, c * p.z, d);
  }

  lemma SquareOfSum(s: real, t: real, u: real, w: real)
    ensures (s + t + u + w) * (s + t + u + w)
         == s * s + t * t + u * u + w * w + 2.0 * s * t + 2.0 * s * u + 2.0 * s * w
            + 2.0 * t * u + 2.0 * t * w + 2.0 * u * w
  {
  }

  /** Second-order expansion: the form at `p + v` is its value at `p`, plus the
      gradient along `v`, plus the homogeneous part in `v`.  This is what makes
      `Gradient` the gradient. */
  lemma Expansion(q: Quadric, p: Vec3, v: Vec3)
    ensures VertexError(q, Plus(p, v)) == VertexError(q, p) + Dot(Gradient(q, p), v) + QuadraticPart(q, v)
  {
    var d := q.data;
    ExpansionOfForm(d[0], d[1], d[2], d[3], d[4], d[5], d[6], d[7], d[8], d[9],
                    p.x, p.y, p.z, v.x, v.y, v.z);
  }

  /** `Expansion` over plain scalars. */
  lemma ExpansionOfForm(q0: real, q1: real, q2: real, q3: real, q4: real,
                        q5: real, q6: real, q7: real, q8: real, q9: real,
                        x: real, y: real, z: real, u: real, w: real, t: real)
    ensures Form(q0, q1, q2, q3, q4, q5, q6, q7, q8, q9, x + u, y + w, z + t)
         == Form(q0, q1, q2, q3, q4, q5, q6, q7, q8, q9, x, y, z)
            + (2.0 * (q0 * x + q1 * y + q2 * z + q3) * u
               + 2.0 * (q1 * x + q4 * y + q5 * z + q6) * w
               + 2.0 * (q2 * x + q5 * y + q7 * z + q8) * t)
            + BlockForm(q0, q1, q2, q4, q5, q7, u, w, t)
  {
  }

  // ---------------------------------------------------------------------
  // The optimal collapse point (Cramer's rule)
  // ---------------------------------------------------------------------

  /** `det(0, 1, 2, 1, 4, 5, 2, 5, 7)`: the determinant of the block A. */
  function BlockDet(q: Quadric): real
  {
    Det(q, 0, 1, 2, 1, 4, 5, 2, 5, 7)
  }

  /** The point `calculateError` computes when the block is regular: each
      coordinate is a cofactor determinant scaled by -1/det or 1/det. */
  function CramerPoint(q: Quadric): Vec3
    requires BlockDet(q) != 0.0
  {
    Scaled(BlockDet(q), Det(q, 1, 2, 3, 4, 5, 6, 5, 7, 8), Det(q, 0, 2, 3, 1, 5, 6, 2, 7, 8),
           Det(q, 0, 1, 3, 1, 4, 6, 2, 5, 8))
  }

  /** The cofactor numerators scaled by -1/det, 1/det and -1/det. */
  function Scaled(D: real, M1: real, M2: real, M3: real): Vec3
    requires D != 0.0
  {
    Vec3(-1.0 / D * M1, 1.0 / D * M2, -1.0 / D * M3)
  }

  /** Whether `p` solves A p = -(q3, q6, q8). */
  ghost predicate SolvesBlock(q: Quadric, p: Vec3)
  {
    var d := q.data;
    && d[0] * p.x + d[1] * p.y + d[2] * p.z == -d[3]
    && d[1] * p.x + d[4] * p.y + d[5] * p.z == -d[6]
    && d[2] * p.x + d[5] * p.y + d[7] * p.z == -d[8]
  }

  /** When the block is regular, the point computed by `calculateError`
      solves the 3x3 system, so the gradient of the error vanishes there. */
  lemma CramerPointSolves(q: Quadric)
    requires BlockDet(q) != 0.0
    ensures SolvesBlock(q, CramerPoint(q))
    ensures Gradient(q, CramerPoint(q)) == Vec3(0.0, 0.0, 0.0)
  {
    var d := q.data;
    var D, M1, M2, M3 := BlockDet(q), Det(q, 1, 2, 3, 4, 5, 6, 5, 7, 8),
                         Det(q, 0, 2, 3, 1, 5, 6, 2, 7, 8), Det(q, 0, 1, 3, 1, 4, 6, 2, 5, 8);
    CramerRows(d[0], d[1], d[2], d[3], d[4], d[5], d[6], d[7], d[8], D, M1, M2, M3);
    SolveFromRows(q, D, M1, M2, M3);
    SolvedGradient(q, CramerPoint(q));
  }

  /** A solution of the block system is a zero of the gradient. */
  lemma SolvedGradient(q: Quadric, p: Vec3)
    requires SolvesBlock(q, p)
    ensures Gradient(q, p) == Vec3(0.0, 0.0, 0.0)
  {
  }

  /** At the Cramer point the error changes by exactly the homogeneous part
      of any displacement; when that part is never negative (A positive
      semi-definite) the point is a global minimiser of the error. */
  lemma CramerPointIsStationary(q: Quadric, v: Vec3)
    requires BlockDet(q) != 0.0
    ensures VertexError(q, Plus(CramerPoint(q), v)) == VertexError(q, CramerPoint(q)) + QuadraticPart(q, v)
  {
    CramerPointSolves(q);
    Expansion(q, CramerPoint(q), v);
  }

  /** The cofactor identities behind Cramer's rule for the symmetric block:
      row k of A applied to the signed cofactor numerators is the k-th
      right-hand side times the determinant. */
  lemma CramerRows(q0: real, q1: real, q2: real, q3: real, q4: real,
                   q5: real, q6: real, q7: real, q8: real, D: real, M1: real, M2: real, M3: real)
    requires D == Det3(q0, q1, q2, q1, q4, q5, q2, q5, q7)
    requires M1 == Det3(q1, q2, q3, q4, q5, q6, q5, q7, q8)
    requires M2 == Det3(q0, q2, q3, q1, q5, q6, q2, q7, q8)
    requires M3 == Det3(q0, q1, q3, q1, q4, q6, q2, q5, q8)
    ensures q0 * -M1 + q1 * M2 + q2 * -M3 == -q3 * D
    ensures q1 * -M1 + q4 * M2 + q5 * -M3 == -q6 * D
    ensures q2 * -M1 + q5 * M2 + q7 * -M3 == -q8 * D
  {
    CramerRow1(q0, q1, q2, q3, q4, q5, q6, q7, q8);
    CramerRow2(q0, q1, q2, q3, q4, q5, q6, q7, q8);
    CramerRow3(q0, q1, q2, q3, q4, q5, q6, q7, q8);
  }

  /** Cramer's rule once the cofactor identities are known: dividing them by
      the non-zero determinant `D` gives the solution. */
  lemma SolveFromRows(q: Quadric, D: real, M1: real, M2: real, M3: real)
    requires D != 0.0
    requires var d := q.data;
             && d[0] * -M1 + d[1] * M2 + d[2] * -M3 == -d[3] * D
             && d[1] * -M1 + d[4] * M2 + d[5] * -M3 == -d[6] * D
             && d[2] * -M1 + d[5] * M2 + d[7] * -M3 == -d[8] * D
    ensures SolvesBlock(q, Scaled(D, M1, M2, M3))
  {
    var d := q.data;
    ScaleByInverse(D, M1);
    ScaleByInverse(D, M2);
    ScaleByInverse(D, M3);
    DivideRow(d[0], d[1], d[2], -M1, M2, -M3, D, -d[3]);
    DivideRow(d[1], d[4], d[5], -M1, M2, -M3, D, -d[6]);
    DivideRow(d[2], d[5], d[7], -M1, M2, -M3, D, -d[8]);
  }

  /** Dividing a row identity by the (non-zero) determinant. */
  lemma DivideRow(a: real, b: real, c: real, X: real, Y: real, Z: real, D: real, r: real)
    requires D != 0.0
    requires a * X + b * Y + c * Z == r * D
    ensures a * (X / D) + b * (Y / D) + c * (Z / D) == r
  {
    assert a * (X / D) + b * (Y / D) + c * (Z / D) == (a * X + b * Y + c * Z) / D;
  }

  lemma ScaleByInverse(D: real, M: real)
    requires D != 0.0
    ensures -1.0 / D * M == -M / D
    ensures 1.0 / D * M == M / D
  {
  }

  /** The polynomial identities behind Cramer's rule for the symmetric block:
      row k of A applied to the cofactor numerators equals the k-th
      right-hand side times det. */
  lemma CramerRow1(q0: real, q1: real, q2: real, q3: real, q4: real,
                   q5: real, q6: real, q7: real, q8: real)
    ensures q0 * -Det3(q1, q2, q3, q4, q5, q6, q5, q7, q8) + q1 * Det3(q0, q2, q3, q1, q5, q6, q2, q7, q8)
            + q2 * -Det3(q0, q1, q3, q1, q4, q6, q2, q5, q8) == -q3 * Det3(q0, q1, q2, q1, q4, q5, q2, q5, q7)
  {
  }

  lemma CramerRow2(q0: real, q1: real, q2: real, q3: real, q4: real,
                   q5: real, q6: real, q7: real, q8: real)
    ensures q1 * -Det3(q1, q2, q3, q4, q5, q6, q5, q7, q8) + q4 * Det3(q0, q2, q3, q1, q5, q6, q2, q7, q8)
            + q5 * -Det3(q0, q1, q3, q1, q4, q6, q2, q5, q8) == -q6 * Det3(q0, q1, q2, q1, q4, q5, q2, q5, q7)
  {
  }

  lemma CramerRow3(q0: real, q1: real, q2: real, q3: real, q4: real,
                   q5: real, q6: real, q7: real, q8: real)
    ensures q2 * -Det3(q1, q2, q3, q4, q5, q6, q5, q7, q8) + q5 * Det3(q0, q2, q3, q1, q5, q6, q2, q7, q8)
            + q7 * -Det3(q0, q1, q3, q1, q4, q6, q2, q5, q8) == -q8 * Det3(q0, q1, q2, q1, q4, q5, q2, q5, q7)
  {
  }
}
