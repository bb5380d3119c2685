/** The decimator's working set: an arena of vertex and triangle records
    addressed by dense ids, plus the flat vertex-to-triangle reference table. */
module MeshModel {
  import opened Vectors
  import opened Quadrics

  /** `DecimationVertex`.  `triangleStart`/`triangleCount` delimit the
      vertex's slice of the reference table. */
  datatype Vertex = Vertex(
    position: Vec3,
    normal: Vec3,
    uv: Vec2,
    id: nat,
    isBorder: bool,
    q: Quadric,
    triangleCount: nat,
    triangleStart: nat)

  /** The three vertex ids of a triangle. */
  type Corners = s: seq<nat> | |s| == 3 witness [0, 0, 0]

  /** The three per-edge costs and, in slot 3, their minimum. */
  type EdgeErrors = s: seq<real> | |s| == 4 witness [0.0, 0.0, 0.0, 0.0]

  /** `DecimationTriangle`. */
  datatype Triangle = Triangle(
    vertices: Corners,
    error: EdgeErrors,
    deleted: bool,
    isDirty: bool,
    borderFactor: real,
    normal: Vec3)

  /** `Reference`: corner `vertexId` (0, 1 or 2) of triangle `triangleId`.
      The source calls the corner slot `vertexId`. */
  datatype Ref = Ref(vertexId: nat, triangleId: nat)

  datatype Mesh = Mesh(vertices: seq<Vertex>, triangles: seq<Triangle>, references: seq<Ref>)

  /** Host geometry the decimator calls but does not define: vector
      normalisation, and the floating-point part of `isFlipped` (the
      near-parallel edge test and the face-normal deviation test), which gets
      the candidate point, the two other corners' positions and the stored
      face normal. */
  datatype Geometry = Geometry(
    normalize: Vec3 -> Vec3,
    flipRejects: (Vec3, Vec3, Vec3, Vec3) -> bool)

  // ---------------------------------------------------------------------
  // Well-formedness of the arena
  // ---------------------------------------------------------------------

  predicate CornersIn(t: Triangle, n: nat)
  {
    forall c | 0 <= c < 3 :: t.vertices[c] < n
  }

  /** The corners of every live triangle are vertex indices: what a pass
      that skips tombstones relies on. */
  predicate LiveCornersIn(ts: seq<Triangle>, n: nat)
  {
    forall k | 0 <= k < |ts| :: !ts[k].deleted ==> CornersIn(ts[k], n)
  }

  predicate RefOk(r: Ref, triangleCount: nat)
  {
    r.vertexId < 3 && r.triangleId < triangleCount
  }

  predicate SliceIn(v: Vertex, referenceCount: nat)
  {
    v.triangleStart + v.triangleCount <= referenceCount
  }

  /** Every slice, corner and reference points at an existing record: what
      the source's array accesses rely on to avoid dereferencing `undefined`. */
  predicate Linked(m: Mesh)
  {
    && (forall k | 0 <= k < |m.vertices| :: SliceIn(m.vertices[k], |m.references|))
    && (forall k | 0 <= k < |m.triangles| :: CornersIn(m.triangles[k], |m.vertices|))
    && (forall k | 0 <= k < |m.references| :: RefOk(m.references[k], |m.triangles|))
  }

  /** A linked arena whose vertices know their own index, as the collapse
      step relies on when it writes `v0.id` into triangles. */
  predicate WF(m: Mesh)
  {
    && Linked(m)
    && (forall k | 0 <= k < |m.vertices| :: m.vertices[k].id == k)
  }

  /** The two records agree on everything except their reference slice. */
  predicate SameButSlice(a: Vertex, b: Vertex)
  {
    a.(triangleCount := 0, triangleStart := 0) == b.(triangleCount := 0, triangleStart := 0)
  }

  /** The two records agree on everything except their border flag. */
  predicate SameButBorder(a: Vertex, b: Vertex)
  {
    a.(isBorder := false) == b.(isBorder := false)
  }

  // ---------------------------------------------------------------------
  // Counting live and tombstoned triangles
  // ---------------------------------------------------------------------

  /** The number of tombstoned triangles. */
  function Tombstones(ts: seq<Triangle>): (r: nat)
    ensures r <= |ts|
  {
    if ts == [] then 0 else Tombstones(ts[..|ts| - 1]) + (if ts[|ts| - 1].deleted then 1 else 0)
  }

  /** The non-deleted triangles, in their original order. */
  function LiveTriangles(ts: seq<Triangle>): (r: seq<Triangle>)
    ensures |r| + Tombstones(ts) == |ts|
    ensures forall k | 0 <= k < |r| :: !r[k].deleted
    ensures forall t | t in r :: t in ts
  {
    if ts == [] then []
    else
      var rest := LiveTriangles(ts[..|ts| - 1]);
      if ts[|ts| - 1].deleted then rest else rest + [ts[|ts| - 1]]
  }

  /** The number of live triangles. */
  function Live(ts: seq<Triangle>): nat
  {
    |LiveTriangles(ts)|
  }

  /** Turning one triangle into a tombstone adds exactly one tombstone. */
  lemma {:induction false} TombstonesUpdate(ts: seq<Triangle>, k: nat, t: Triangle)
    requires k < |ts|
    ensures Tombstones(ts[k := t]) + (if ts[k].deleted then 1 else 0)
         == Tombstones(ts) + (if t.deleted then 1 else 0)
  {
    var n := |ts| - 1;
    var ts' := ts[k := t];
    if k == n {
      assert ts'[..n] == ts[..n];
    } else {
      assert ts'[..n] == ts[..n][k := t];
      TombstonesUpdate(ts[..n], k, t);
    }
  }
}
