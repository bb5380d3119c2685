/** `calculateError`: the cost of collapsing an edge and the point, normal
    and texture coordinate the surviving vertex takes. */
module Evaluator {
  import opened Vectors
  import opened Quadrics
  import opened MeshModel

  datatype CollapsePoint = CollapsePoint(error: real, point: Vec3, normal: Vec3, uv: Vec2)

  /** `Math.min(a, b, c)` over reals. */
  function Min3(a: real, b: real, c: real): (m: real)
    ensures m <= a && m <= b && m <= c
    ensures m == a || m == b || m == c
  {
    if a <= b && a <= c then a else if b <= c then b else c
  }

  /** The quadric of the collapsed edge, `vertex1.q.add(vertex2.q)`. */
  function EdgeQuadric(v1: Vertex, v2: Vertex): Quadric
  {
    Add(v1.q, v2.q)
  }

  /** The branch that solves for the optimal point: the block of the summed
      quadric is regular and not both endpoints lie on the border. */
  predicate SolvesForPoint(v1: Vertex, v2: Vertex)
  {
    BlockDet(EdgeQuadric(v1, v2)) != 0.0 && !(v1.isBorder && v2.isBorder)
  }

  function CalculateError(v1: Vertex, v2: Vertex, geom: Geometry): (r: CollapsePoint)
    // whichever branch is taken, the cost is the summed quadric's error at the returned point
    ensures r.error == VertexError(EdgeQuadric(v1, v2), r.point)
    ensures SolvesForPoint(v1, v2) ==>
              && SolvesBlock(EdgeQuadric(v1, v2), r.point)
              && r.normal == v1.normal && r.uv == v1.uv
    ensures !SolvesForPoint(v1, v2) ==>
              var q := EdgeQuadric(v1, v2);
              var e1 := VertexError(q, v1.position);
              var e2 := VertexError(q, v2.position);
              var e3 := VertexError(q, Midpoint(v1.position, v2.position));
              && r.error <= e1 && r.error <= e2 && r.error <= e3
              && (r.error == e1 ==> r.point == v1.position && r.normal == v1.normal && r.uv == v1.uv)
              && (r.error != e1 && r.error == e2 ==>
                    r.point == v2.position && r.normal == v2.normal && r.uv == v2.uv)
              && (r.error != e1 && r.error != e2 ==>
                    && r.point == Midpoint(v1.position, v2.position)
                    && r.normal == geom.normalize(Midpoint(v1.normal, v2.normal))
                    && r.uv == v1.uv)
  {
    var q := EdgeQuadric(v1, v2);
    var border := v1.isBorder && v2.isBorder;
    var qDet := BlockDet(q);
    if qDet != 0.0 && !border then
      CramerPointSolves(q);
      var p := CramerPoint(q);
      CollapsePoint(VertexError(q, p), p, v1.normal, v1.uv)
    else
      var p3 := Midpoint(v1.position, v2.position);
      var norm3 := geom.normalize(Midpoint(v1.normal, v2.normal));
      var error1 := VertexError(q, v1.position);
      var error2 := VertexError(q, v2.position);
      var error3 := VertexError(q, p3);
      var error := Min3(error1, error2, error3);
      if error == error1 then CollapsePoint(error, v1.position, v1.normal, v1.uv)
      else if error == error2 then CollapsePoint(error, v2.position, v2.normal, v2.uv)
      else CollapsePoint(error, p3, norm3, v1.uv)
  }

  /** The cost alone, as `updateTriangles` and `init` use it. */
  function Cost(v1: Vertex, v2: Vertex, geom: Geometry): real
  {
    CalculateError(v1, v2, geom).error
  }

  // ---------------------------------------------------------------------
  // Quadrics accumulated from planes
  // ---------------------------------------------------------------------

  datatype Plane = Plane(a: real, b: real, c: real, d: real)

  /** The sum of the plane quadrics of `ps`, accumulated left to right from
      the zero quadric as `init` does for each vertex. */
  function PlaneSum(ps: seq<Plane>): Quadric
  {
    if ps == [] then Zero()
    else
      var pl := ps[|ps| - 1];
      Add(PlaneSum(ps[..|ps| - 1]), FromData(pl.a, pl.b, pl.c, pl.d))
  }

  /** The error of a sum of plane quadrics is a sum of squares. */
  lemma {:induction false} PlaneSumErrorNonNegative(ps: seq<Plane>, p: Vec3)
    ensures VertexError(PlaneSum(ps), p) >= 0.0
  {
    if ps != [] {
      var pl := ps[|ps| - 1];
      PlaneSumErrorNonNegative(ps[..|ps| - 1], p);
      PlaneError(pl.a, pl.b, pl.c, pl.d, p);
      ErrorOfSum(PlaneSum(ps[..|ps| - 1]), FromData(pl.a, pl.b, pl.c, pl.d), p);
    }
  }

  /** The homogeneous part of a sum of plane quadrics is never negative, so
      its block is positive semi-definite. */
  lemma {:induction false} PlaneSumQuadraticPartNonNegative(ps: seq<Plane>, v: Vec3)
    ensures QuadraticPart(PlaneSum(ps), v) >= 0.0
  {
    if ps != [] {
      var pl := ps[|ps| - 1];
      var rest := PlaneSum(ps[..|ps| - 1]);
      PlaneSumQuadraticPartNonNegative(ps[..|ps| - 1], v);
      PlaneQuadraticPart(pl.a, pl.b, pl.c, pl.d, v);
      QuadraticPartOfSum(rest, FromData(pl.a, pl.b, pl.c, pl.d), v);
    }
  }

  lemma PlaneQuadraticPart(a: real, b: real, c: real, d: real, v: Vec3)
    ensures QuadraticPart(FromData(a, b, c, d), v) == PlaneValue(a, b, c, 0.0, v) * PlaneValue(a, b, c, 0.0, v)
    ensures QuadraticPart(FromData(a, b, c, d), v) >= 0.0
  {
    var q := FromData(a, b, c, d);
    assert q.data == [a * a, a * b, a * c, a * d, b * b, b * c, b * d, c * c, c * d, d * d];
    assert QuadraticPart(q, v) == BlockForm(a * a, a * b, a * c, b * b, b * c, c * c, v.x, v.y, v.z);
    PlaneBlockForm(a, b, c, v);
    SquareNonNegative(PlaneValue(a, b, c, 0.0, v));
  }

  /** `PlaneQuadraticPart` with the coefficients spelled out. */
  lemma PlaneBlockForm(a: real, b: real, c: real, v: Vec3)
    ensures BlockForm(a * a, a * b, a * c, b * b, b * c, c * c, v.x, v.y, v.z)
         == PlaneValue(a, b, c, 0.0, v) * PlaneValue(a, b, c, 0.0, v)
  {
    SquareOfSum(a * v.x, b * v.y, c * v.z, 0.0);
  }

  lemma SquareNonNegative(s: real)
    ensures s * s >= 0.0
  {
    if s < 0.0 {
      assert s * s == (-s) * (-s);
    }
  }

  lemma QuadraticPartOfSum(q1: Quadric, q2: Quadric, v: Vec3)
    ensures QuadraticPart(Add(q1, q2), v) == QuadraticPart(q1, v) + QuadraticPart(q2, v)
  {
    var s := Add(q1, q2);
    var x, y, z := v.x, v.y, v.z;
    assert s.data[0] * x * x == q1.data[0] * x * x + q2.data[0] * x * x;
    assert s.data[1] * x * y == q1.data[1] * x * y + q2.data[1] * x * y;
    assert s.data[2] * x * z == q1.data[2] * x * z + q2.data[2] * x * z;
    assert s.data[4] * y * y == q1.data[4] * y * y + q2.data[4] * y * y;
    assert s.data[5] * y * z == q1.data[5] * y * z + q2.data[5] * y * z;
    assert s.data[7] * z * z == q1.data[7] * z * z + q2.data[7] * z * z;
  }

  lemma {:induction false} PlaneSumConcat(ps1: seq<Plane>, ps2: seq<Plane>)
    ensures PlaneSum(ps1 + ps2) == Add(PlaneSum(ps1), PlaneSum(ps2))
  {
    if ps2 == [] {
      assert ps1 + ps2 == ps1;
      assert Add(PlaneSum(ps1), Zero()).data == PlaneSum(ps1).data;
    } else {
      var n := |ps2| - 1;
      var pl := ps2[n];
      assert (ps1 + ps2)[..|ps1 + ps2| - 1] == ps1 + ps2[..n];
      PlaneSumConcat(ps1, ps2[..n]);
      AddCommutesAndAssociates(PlaneSum(ps1), PlaneSum(ps2[..n]), FromData(pl.a, pl.b, pl.c, pl.d));
    }
  }

  /** When both endpoint quadrics are sums of plane quadrics (as `init` builds
      them), the collapse cost is never negative, and when the optimal point
      is solved for it is a global minimiser of the edge quadric's error. */
  lemma CollapseOfPlaneSums(v1: Vertex, v2: Vertex, geom: Geometry, ps1: seq<Plane>, ps2: seq<Plane>, other: Vec3)
    requires v1.q == PlaneSum(ps1) && v2.q == PlaneSum(ps2)
    ensures CalculateError(v1, v2, geom).error >= 0.0
    ensures SolvesForPoint(v1, v2) ==>
              CalculateError(v1, v2, geom).error <= VertexError(EdgeQuadric(v1, v2), other)
  {
    var r := CalculateError(v1, v2, geom);
    PlaneSumConcat(ps1, ps2);
    assert EdgeQuadric(v1, v2) == PlaneSum(ps1 + ps2);
    PlaneSumErrorNonNegative(ps1 + ps2, r.point);
    if SolvesForPoint(v1, v2) {
      var q := EdgeQuadric(v1, v2);
      var p := CramerPoint(q);
      var v := Vec3(other.x - p.x, other.y - p.y, other.z - p.z);
      assert Plus(p, v) == other;
      CramerPointIsStationary(q, v);
      PlaneSumQuadraticPartNonNegative(ps1 + ps2, v);
    }
  }
}
