/** One edge collapse: the flip test (`isFlipped`), the triangle rewrite
    (`updateTriangles`), the patch of the surviving vertex's reference slice,
    and the per-triangle edge scan of the decimation pass. */
module Collapse {
  import opened Vectors
  import opened Quadrics
  import opened MeshModel
  import opened Evaluator

  /** `deletedArray[i]`: an entry never written reads as `undefined`, which
      is falsy. */
  function Flag(deleted: seq<bool>, i: nat): bool
  {
    i < |deleted| && deleted[i]
  }

  /** The corner after corner `j`, `(j + 1) % 3` for a corner `j < 3`. */
  function Next3(j: nat): (r: nat)
    requires j < 3
    ensures r < 3
  {
    if j == 2 then 0 else j + 1
  }

  /** Entry `i` of vertex `v`'s reference slice. */
  function Entry(m: Mesh, v: Vertex, i: nat): Ref
    requires SliceIn(v, |m.references|) && i < v.triangleCount
  {
    m.references[v.triangleStart + i]
  }

  /** The triangle entry `i` of `v`'s slice refers to. */
  function EntryTriangle(m: Mesh, v: Vertex, i: nat): Triangle
    requires Linked(m) && SliceIn(v, |m.references|) && i < v.triangleCount
  {
    assert RefOk(m.references[v.triangleStart + i], |m.triangles|);
    m.triangles[Entry(m, v, i).triangleId]
  }

  /** The two corners that follow the entry's own corner, as `isFlipped`
      reads them. */
  function OtherCorners(m: Mesh, v: Vertex, i: nat): (ids: (nat, nat))
    requires Linked(m) && SliceIn(v, |m.references|) && i < v.triangleCount
    ensures ids.0 < |m.vertices| && ids.1 < |m.vertices|
  {
    var t := EntryTriangle(m, v, i);
    var s := Entry(m, v, i).vertexId;
    assert CornersIn(t, |m.vertices|);
    (t.vertices[Next3(s)], t.vertices[Next3(Next3(s))])
  }

  /** The entry's live triangle contains the collapsing edge (its other
      corners include `index2`) and is not held back by its border factor,
      so the collapse deletes it. */
  predicate Shares(m: Mesh, v: Vertex, i: nat, index2: nat, borderFactor: real)
    requires Linked(m) && SliceIn(v, |m.references|) && i < v.triangleCount
  {
    var ids := OtherCorners(m, v, i);
    && !EntryTriangle(m, v, i).deleted
    && (ids.0 == index2 || ids.1 == index2)
    && borderFactor < 2.0
  }

  /** Moving `v` to `point` would make the entry's live triangle degenerate
      or turn its face away, as the host geometry decides. */
  predicate Rejects(m: Mesh, v: Vertex, i: nat, index2: nat, point: Vec3, borderFactor: real, geom: Geometry)
    requires Linked(m) && SliceIn(v, |m.references|) && i < v.triangleCount
  {
    var ids := OtherCorners(m, v, i);
    var t := EntryTriangle(m, v, i);
    && !t.deleted
    && !Shares(m, v, i, index2, borderFactor)
    && geom.flipRejects(point, m.vertices[ids.0].position, m.vertices[ids.1].position, t.normal)
  }

  predicate FlipFound(m: Mesh, v: Vertex, index2: nat, point: Vec3, borderFactor: real, geom: Geometry)
    requires Linked(m) && SliceIn(v, |m.references|)
  {
    exists i | 0 <= i < v.triangleCount :: Rejects(m, v, i, index2, point, borderFactor, geom)
  }

  method IsFlipped(m: Mesh, vertex1: Vertex, index2: nat, point: Vec3, borderFactor: real, geom: Geometry)
    returns (flipped: bool, deleted: seq<bool>)
    requires Linked(m) && SliceIn(vertex1, |m.references|)
    ensures |deleted| == vertex1.triangleCount
    ensures flipped <==> FlipFound(m, vertex1, index2, point, borderFactor, geom)
    ensures !flipped ==>
              forall i | 0 <= i < vertex1.triangleCount :: deleted[i] == Shares(m, vertex1, i, index2, borderFactor)
  {
    deleted := seq(vertex1.triangleCount, _ => false);
    var i := 0;
    while i < vertex1.triangleCount
      invariant 0 <= i <= vertex1.triangleCount == |deleted|
      invariant forall k | 0 <= k < i :: !Rejects(m, vertex1, k, index2, point, borderFactor, geom)
      invariant forall k | 0 <= k < i :: deleted[k] == Shares(m, vertex1, k, index2, borderFactor)
      invariant forall k | i <= k < |deleted| :: !deleted[k]
    {
      var t := EntryTriangle(m, vertex1, i);
      if !t.deleted {
        var ids := OtherCorners(m, vertex1, i);
        if (ids.0 == index2 || ids.1 == index2) && borderFactor < 2.0 {
          deleted := deleted[i := true];
        } else {
          if geom.flipRejects(point, m.vertices[ids.0].position, m.vertices[ids.1].position, t.normal) {
            assert Rejects(m, vertex1, i, index2, point, borderFactor, geom);
            flipped := true;
            return;
          }
          deleted := deleted[i := false];
        }
      }
      i := i + 1;
    }
    flipped := false;
  }

  // ---------------------------------------------------------------------
  // updateTriangles
  // ---------------------------------------------------------------------

  /** The triangle's cached edge costs match the current vertices: edge `k`
      costs `calculateError` of corners `k` and `k+1` plus half the border
      factor, and slot 3 holds their minimum. */
  predicate Fresh(t: Triangle, vs: seq<Vertex>, geom: Geometry)
  {
    && CornersIn(t, |vs|)
    && var a, b, c := vs[t.vertices[0]], vs[t.vertices[1]], vs[t.vertices[2]];
    && t.error[0] == Cost(a, b, geom) + t.borderFactor / 2.0
    && t.error[1] == Cost(b, c, geom) + t.borderFactor / 2.0
    && t.error[2] == Cost(c, a, geom) + t.borderFactor / 2.0
    && t.error[3] == Min3(t.error[0], t.error[1], t.error[2])
  }

  /** Corner `slot` of `t` now names `vertexId`; the triangle is marked dirty
      and its costs are recomputed. */
  function Redirect(t: Triangle, slot: nat, vertexId: nat, vs: seq<Vertex>, geom: Geometry): (r: Triangle)
    requires slot < 3 && CornersIn(t, |vs|) && vertexId < |vs|
    ensures Fresh(r, vs, geom) && r.isDirty
    ensures r.vertices[slot] == vertexId
    ensures forall c | 0 <= c < 3 && c != slot :: r.vertices[c] == t.vertices[c]
    ensures r.deleted == t.deleted && r.normal == t.normal && r.borderFactor == t.borderFactor
  {
    var cs := t.vertices[slot := vertexId];
    var a, b, c := vs[cs[0]], vs[cs[1]], vs[cs[2]];
    var e0 := Cost(a, b, geom) + t.borderFactor / 2.0;
    var e1 := Cost(b, c, geom) + t.borderFactor / 2.0;
    var e2 := Cost(c, a, geom) + t.borderFactor / 2.0;
    t.(vertices := cs, isDirty := true, error := [e0, e1, e2, Min3(e0, e1, e2)])
  }

  /** What `updateTriangles` may do to one triangle: nothing, tombstone it,
      or redirect some corners to `vertexId` and refresh its costs.  A
      tombstone is never touched again. */
  predicate Evolves(t: Triangle, t': Triangle, vertexId: nat, vs: seq<Vertex>, geom: Geometry)
  {
    && t'.normal == t.normal && t'.borderFactor == t.borderFactor
    && (t.deleted ==> t' == t)
    && (forall c | 0 <= c < 3 :: t'.vertices[c] == t.vertices[c] || t'.vertices[c] == vertexId)
    && (t' == t || t'.deleted || (t'.isDirty && Fresh(t', vs, geom)))
  }

  lemma EvolvesTrans(t0: Triangle, t1: Triangle, t2: Triangle, vertexId: nat, vs: seq<Vertex>, geom: Geometry)
    requires Evolves(t0, t1, vertexId, vs, geom) && Evolves(t1, t2, vertexId, vs, geom)
    ensures Evolves(t0, t2, vertexId, vs, geom)
  {
  }

  /** Some entry of `v`'s slice refers to triangle `k`. */
  predicate InSlice(m: Mesh, v: Vertex, k: nat)
    requires SliceIn(v, |m.references|)
  {
    exists i | 0 <= i < v.triangleCount :: Entry(m, v, i).triangleId == k
  }

  function Slice(m: Mesh, v: Vertex): seq<Ref>
    requires SliceIn(v, |m.references|)
  {
    m.references[v.triangleStart .. v.triangleStart + v.triangleCount]
  }

  /** `r` extends `m`'s reference table with entries of `v`'s slice, each of
      which now names `vertexId` unless its triangle is a tombstone. */
  predicate AppendsFrom(m: Mesh, r: Mesh, v: Vertex, vertexId: nat)
    requires SliceIn(v, |m.references|) && |r.triangles| == |m.triangles|
  {
    && |r.references| >= |m.references|
    && r.references[..|m.references|] == m.references
    && forall e | e in r.references[|m.references|..] ::
         && e in Slice(m, v)
         && e.triangleId < |r.triangles| && e.vertexId < 3
         && (r.triangles[e.triangleId].deleted || r.triangles[e.triangleId].vertices[e.vertexId] == vertexId)
  }

  /** Every triangle of `ts'` is an evolution of the one at its index in `ts`. */
  predicate AllEvolve(ts: seq<Triangle>, ts': seq<Triangle>, vertexId: nat, vs: seq<Vertex>, geom: Geometry)
    requires |ts'| == |ts|
  {
    forall k | 0 <= k < |ts| :: Evolves(ts[k], ts'[k], vertexId, vs, geom)
  }

  /** Triangles no entry of `v`'s slice refers to are unchanged. */
  predicate Untouched(m: Mesh, r: Mesh, v: Vertex)
    requires SliceIn(v, |m.references|) && |r.triangles| == |m.triangles|
  {
    forall k | 0 <= k < |r.triangles| :: !InSlice(m, v, k) ==> r.triangles[k] == m.triangles[k]
  }

  /** Every entry `isFlipped` marked in `deleted` refers to a tombstone. */
  predicate Tombstoned(m: Mesh, r: Mesh, v: Vertex, deleted: seq<bool>)
    requires Linked(m) && SliceIn(v, |m.references|) && |r.triangles| == |m.triangles|
  {
    forall i | 0 <= i < v.triangleCount :: Flag(deleted, i) ==> r.triangles[Entry(m, v, i).triangleId].deleted
  }

  /** Every entry of `v`'s slice in `m` whose triangle is still live in `r`
      now names `vertexId`, and is listed among the references `r` appended
      to `m`'s table. */
  predicate Covers(m: Mesh, r: Mesh, v: Vertex, vertexId: nat)
    requires Linked(m) && SliceIn(v, |m.references|)
    requires |r.triangles| == |m.triangles| && |r.references| >= |m.references|
  {
    forall i | 0 <= i < v.triangleCount ::
      var e := Entry(m, v, i);
      !r.triangles[e.triangleId].deleted ==>
        && r.triangles[e.triangleId].vertices[e.vertexId] == vertexId
        && e in r.references[|m.references|..]
  }

  /** Every one of the first `n` entries of `v`'s slice in `m` whose
      triangle is still live in `r` refers to a dirty triangle whose cached
      costs match the vertices `vs`. */
  predicate RefreshedBefore(m: Mesh, r: Mesh, v: Vertex, n: nat, vs: seq<Vertex>, geom: Geometry)
    requires Linked(m) && SliceIn(v, |m.references|) && n <= v.triangleCount && |r.triangles| == |m.triangles|
  {
    forall i | 0 <= i < n ::
      var t := r.triangles[Entry(m, v, i).triangleId];
      !t.deleted ==> t.isDirty && Fresh(t, vs, geom)
  }

  /** Every live triangle of `v`'s slice is dirty with recomputed costs. */
  predicate Refreshed(m: Mesh, r: Mesh, v: Vertex, vs: seq<Vertex>, geom: Geometry)
    requires Linked(m) && SliceIn(v, |m.references|) && |r.triangles| == |m.triangles|
  {
    RefreshedBefore(m, r, v, v.triangleCount, vs, geom)
  }

  /** Every reference appended past `n` names `vertexId` unless its triangle
      is a tombstone. */
  predicate AppendedName(r: Mesh, n: nat, vertexId: nat)
    requires n <= |r.references|
  {
    forall e | e in r.references[n..] ::
      && RefOk(e, |r.triangles|)
      && (r.triangles[e.triangleId].deleted || r.triangles[e.triangleId].vertices[e.vertexId] == vertexId)
  }

  /** Triangle `k` of `ts` is still live once `updateTriangles` has visited
      the first `n` entries of the slice `s`: it was live, and none of those
      entries that refer to it was marked in `deleted`. */
  predicate LiveAfter(ts: seq<Triangle>, s: seq<Ref>, deleted: seq<bool>, k: nat, n: nat)
    requires n <= |s|
  {
    && k < |ts| && !ts[k].deleted
    && forall i | 0 <= i < n :: s[i].triangleId == k ==> !Flag(deleted, i)
  }

  /** The references `updateTriangles` pushes while visiting the first `n`
      entries of the slice `s` over the triangles `ts`: each unmarked entry
      whose triangle is still live when it is visited, once, in slice
      order. */
  function Pushes(ts: seq<Triangle>, s: seq<Ref>, deleted: seq<bool>, n: nat): seq<Ref>
    requires n <= |s|
  {
    if n == 0 then []
    else
      Pushes(ts, s, deleted, n - 1)
      + (if LiveAfter(ts, s, deleted, s[n - 1].triangleId, n - 1) && !Flag(deleted, n - 1) then [s[n - 1]] else [])
  }

  /** At most one push per visited entry, each a copy of a visited entry. */
  lemma {:induction false} PushesBound(ts: seq<Triangle>, s: seq<Ref>, deleted: seq<bool>, n: nat)
    requires n <= |s|
    ensures |Pushes(ts, s, deleted, n)| <= n
    ensures forall e | e in Pushes(ts, s, deleted, n) :: e in s[..n]
  {
    if n > 0 {
      PushesBound(ts, s, deleted, n - 1);
      assert s[..n] == s[..n - 1] + [s[n - 1]];
    }
  }

  /** The triangles `ts` with the tombstones `updateTriangles` leaves after
      visiting all of the slice `s`. */
  function MarkedOff(ts: seq<Triangle>, s: seq<Ref>, deleted: seq<bool>): (r: seq<Triangle>)
    ensures |r| == |ts|
    ensures forall k | 0 <= k < |r| :: r[k].deleted == !LiveAfter(ts, s, deleted, k, |s|)
  {
    seq(|ts|, k requires 0 <= k < |ts| => ts[k].(deleted := !LiveAfter(ts, s, deleted, k, |s|)))
  }

  /** After the first `i` entries of `vertex`'s slice, the table is `m`'s
      followed by exactly the references pushed so far, and the tombstones
      are exactly the triangles no longer live. */
  predicate PushedSoFar(m: Mesh, r: Mesh, vertex: Vertex, deleted: seq<bool>, i: nat)
    requires SliceIn(vertex, |m.references|) && i <= vertex.triangleCount && |r.triangles| == |m.triangles|
  {
    && r.references == m.references + Pushes(m.triangles, Slice(m, vertex), deleted, i)
    && forall k | 0 <= k < |r.triangles| :: r.triangles[k].deleted == !LiveAfter(m.triangles, Slice(m, vertex), deleted, k, i)
  }

  /** One visit of entry `i` extends the pushed block by the entry exactly
      when its triangle is live and it is unmarked, and tombstones the
      triangle when it is marked. */
  lemma PushedStep(m: Mesh, r0: Mesh, r: Mesh, vertex: Vertex, deleted: seq<bool>, i: nat)
    requires SliceIn(vertex, |m.references|) && i < vertex.triangleCount
    requires |r0.triangles| == |m.triangles| == |r.triangles|
    requires PushedSoFar(m, r0, vertex, deleted, i)
    requires var e := Entry(m, vertex, i);
             && e.triangleId < |m.triangles|
             && (forall k | 0 <= k < |r.triangles| && k != e.triangleId :: r.triangles[k].deleted == r0.triangles[k].deleted)
             && r.triangles[e.triangleId].deleted == (r0.triangles[e.triangleId].deleted || Flag(deleted, i))
             && r.references == r0.references + (if !r0.triangles[e.triangleId].deleted && !Flag(deleted, i) then [e] else [])
    ensures PushedSoFar(m, r, vertex, deleted, i + 1)
  {
    var sl := Slice(m, vertex);
    assert sl[i] == Entry(m, vertex, i);
    assert m.references + Pushes(m.triangles, sl, deleted, i + 1)
        == (m.references + Pushes(m.triangles, sl, deleted, i))
           + (if LiveAfter(m.triangles, sl, deleted, sl[i].triangleId, i) && !Flag(deleted, i) then [sl[i]] else []);
  }

  /** `PushedStep` for the three branches of the loop body, each stated in
      the shape the branch builds its result. */
  lemma PushedSkip(m: Mesh, r0: Mesh, vertex: Vertex, deleted: seq<bool>, i: nat)
    requires SliceIn(vertex, |m.references|) && i < vertex.triangleCount && |r0.triangles| == |m.triangles|
    requires PushedSoFar(m, r0, vertex, deleted, i)
    requires Entry(m, vertex, i).triangleId < |m.triangles| && r0.triangles[Entry(m, vertex, i).triangleId].deleted
    ensures PushedSoFar(m, r0, vertex, deleted, i + 1)
  {
    PushedStep(m, r0, r0, vertex, deleted, i);
  }

  lemma PushedTombstone(m: Mesh, r0: Mesh, vertex: Vertex, deleted: seq<bool>, i: nat)
    requires SliceIn(vertex, |m.references|) && i < vertex.triangleCount && |r0.triangles| == |m.triangles|
    requires PushedSoFar(m, r0, vertex, deleted, i)
    requires Entry(m, vertex, i).triangleId < |m.triangles| && Flag(deleted, i)
    ensures var k := Entry(m, vertex, i).triangleId;
            PushedSoFar(m, r0.(triangles := r0.triangles[k := r0.triangles[k].(deleted := true)]), vertex, deleted, i + 1)
  {
    var k := Entry(m, vertex, i).triangleId;
    PushedStep(m, r0, r0.(triangles := r0.triangles[k := r0.triangles[k].(deleted := true)]), vertex, deleted, i);
  }

  lemma PushedRedirect(m: Mesh, r0: Mesh, t': Triangle, vertex: Vertex, deleted: seq<bool>, i: nat)
    requires SliceIn(vertex, |m.references|) && i < vertex.triangleCount && |r0.triangles| == |m.triangles|
    requires PushedSoFar(m, r0, vertex, deleted, i)
    requires Entry(m, vertex, i).triangleId < |m.triangles| && !Flag(deleted, i)
    requires !r0.triangles[Entry(m, vertex, i).triangleId].deleted && !t'.deleted
    ensures var e := Entry(m, vertex, i);
            PushedSoFar(m, r0.(triangles := r0.triangles[e.triangleId := t'], references := r0.references + [e]),
                        vertex, deleted, i + 1)
  {
    var e := Entry(m, vertex, i);
    PushedStep(m, r0, r0.(triangles := r0.triangles[e.triangleId := t'], references := r0.references + [e]), vertex, deleted, i);
  }

  /** The facts the `updateTriangles` loop keeps after visiting the first
      `i` entries of `vertex`'s slice. */
  predicate Progress(m: Mesh, r: Mesh, vertexId: nat, vertex: Vertex, deleted: seq<bool>, i: nat,
                     deletedTriangles: nat, newDeleted: nat, geom: Geometry)
    requires Linked(m) && SliceIn(vertex, |m.references|) && i <= vertex.triangleCount
  {
    && r.vertices == m.vertices && |r.triangles| == |m.triangles| && Linked(r)
    && newDeleted + Tombstones(m.triangles) == deletedTriangles + Tombstones(r.triangles)
    && AppendsFrom(m, r, vertex, vertexId)
    && (forall k | 0 <= k < |r.triangles| :: Evolves(m.triangles[k], r.triangles[k], vertexId, m.vertices, geom))
    && (forall k | 0 <= k < |r.triangles| :: !InSlice(m, vertex, k) ==> r.triangles[k] == m.triangles[k])
    && (forall i' | 0 <= i' < i ::
          Flag(deleted, i') ==> r.triangles[Entry(m, vertex, i').triangleId].deleted)
    && (forall i' | 0 <= i' < i ::
          var e := Entry(m, vertex, i');
          !r.triangles[e.triangleId].deleted ==>
            && r.triangles[e.triangleId].vertices[e.vertexId] == vertexId
            && e in r.references[|m.references|..])
    && RefreshedBefore(m, r, vertex, i, m.vertices, geom)
  }

  method UpdateTriangles(m: Mesh, vertexId: nat, vertex: Vertex, deleted: seq<bool>, deletedTriangles: nat, geom: Geometry)
    returns (r: Mesh, newDeleted: nat)
    requires Linked(m) && SliceIn(vertex, |m.references|) && vertexId < |m.vertices|
    ensures r.vertices == m.vertices && |r.triangles| == |m.triangles| && Linked(r)
    ensures newDeleted + Tombstones(m.triangles) == deletedTriangles + Tombstones(r.triangles)
    ensures AppendsFrom(m, r, vertex, vertexId)
    ensures AllEvolve(m.triangles, r.triangles, vertexId, m.vertices, geom)
    ensures Untouched(m, r, vertex)
    ensures Tombstoned(m, r, vertex, deleted)
    ensures Covers(m, r, vertex, vertexId)
    ensures Refreshed(m, r, vertex, m.vertices, geom)
    ensures r.references == m.references + Pushes(m.triangles, Slice(m, vertex), deleted, vertex.triangleCount)
    ensures forall k | 0 <= k < |r.triangles| ::
              r.triangles[k].deleted == !LiveAfter(m.triangles, Slice(m, vertex), deleted, k, vertex.triangleCount)
  {
    r := m;
    newDeleted := deletedTriangles;
    assert r.references[..|m.references|] == m.references;
    var i := 0;
    while i < vertex.triangleCount
      invariant 0 <= i <= vertex.triangleCount
      invariant Progress(m, r, vertexId, vertex, deleted, i, deletedTriangles, newDeleted, geom)
      invariant PushedSoFar(m, r, vertex, deleted, i)
    {
      r, newDeleted := VisitEntry(m, r, vertexId, vertex, deleted, i, deletedTriangles, newDeleted, geom);
      i := i + 1;
    }
  }

  /** One pass of the `updateTriangles` loop body: entry `i` of the slice is
      skipped when its triangle is a tombstone, tombstoned when `isFlipped`
      marked it, and otherwise redirected to `vertexId` and re-listed. */
  method VisitEntry(m: Mesh, r0: Mesh, vertexId: nat, vertex: Vertex, deleted: seq<bool>, i: nat,
                    deletedTriangles: nat, newDeleted0: nat, geom: Geometry)
    returns (r: Mesh, newDeleted: nat)
    requires Linked(m) && SliceIn(vertex, |m.references|) && vertexId < |m.vertices| && i < vertex.triangleCount
    requires Progress(m, r0, vertexId, vertex, deleted, i, deletedTriangles, newDeleted0, geom)
    requires PushedSoFar(m, r0, vertex, deleted, i)
    ensures Progress(m, r, vertexId, vertex, deleted, i + 1, deletedTriangles, newDeleted, geom)
    ensures PushedSoFar(m, r, vertex, deleted, i + 1)
  {
    EntryOk(m, vertex, i);
    var k := Entry(m, vertex, i).triangleId;
    if r0.triangles[k].deleted {
      r, newDeleted := VisitTombstone(m, r0, vertexId, vertex, deleted, i, deletedTriangles, newDeleted0, geom);
    } else if Flag(deleted, i) {
      r, newDeleted := VisitMarked(m, r0, vertexId, vertex, deleted, i, deletedTriangles, newDeleted0, geom);
    } else {
      r, newDeleted := VisitKept(m, r0, vertexId, vertex, deleted, i, deletedTriangles, newDeleted0, geom);
    }
  }

  /** Entry `i` of a slice of a linked arena names one of its triangles. */
  lemma EntryOk(m: Mesh, vertex: Vertex, i: nat)
    requires Linked(m) && SliceIn(vertex, |m.references|) && i < vertex.triangleCount
    ensures RefOk(Entry(m, vertex, i), |m.triangles|)
  {
    assert RefOk(m.references[vertex.triangleStart + i], |m.triangles|);
  }

  /** An entry whose triangle is already a tombstone is passed over. */
  method VisitTombstone(m: Mesh, r0: Mesh, vertexId: nat, vertex: Vertex, deleted: seq<bool>, i: nat,
                        deletedTriangles: nat, newDeleted0: nat, geom: Geometry)
    returns (r: Mesh, newDeleted: nat)
    requires Linked(m) && SliceIn(vertex, |m.references|) && vertexId < |m.vertices| && i < vertex.triangleCount
    requires Progress(m, r0, vertexId, vertex, deleted, i, deletedTriangles, newDeleted0, geom)
    requires PushedSoFar(m, r0, vertex, deleted, i)
    requires Entry(m, vertex, i).triangleId < |r0.triangles| && r0.triangles[Entry(m, vertex, i).triangleId].deleted
    ensures r == r0 && newDeleted == newDeleted0
    ensures Progress(m, r, vertexId, vertex, deleted, i + 1, deletedTriangles, newDeleted, geom)
    ensures PushedSoFar(m, r, vertex, deleted, i + 1)
  {
    r, newDeleted := r0, newDeleted0;
    StepSkip(m, r0, vertexId, vertex, deleted, i, deletedTriangles, newDeleted0, geom);
    PushedSkip(m, r0, vertex, deleted, i);
  }

  /** A live triangle whose entry `isFlipped` marked becomes a tombstone. */
  method VisitMarked(m: Mesh, r0: Mesh, vertexId: nat, vertex: Vertex, deleted: seq<bool>, i: nat,
                     deletedTriangles: nat, newDeleted0: nat, geom: Geometry)
    returns (r: Mesh, newDeleted: nat)
    requires Linked(m) && SliceIn(vertex, |m.references|) && vertexId < |m.vertices| && i < vertex.triangleCount
    requires Progress(m, r0, vertexId, vertex, deleted, i, deletedTriangles, newDeleted0, geom)
    requires PushedSoFar(m, r0, vertex, deleted, i)
    requires Entry(m, vertex, i).triangleId < |r0.triangles| && !r0.triangles[Entry(m, vertex, i).triangleId].deleted
    requires Flag(deleted, i)
    ensures r.triangles == r0.triangles[Entry(m, vertex, i).triangleId := r0.triangles[Entry(m, vertex, i).triangleId].(deleted := true)]
    ensures r.references == r0.references && r.vertices == r0.vertices && newDeleted == newDeleted0 + 1
    ensures Progress(m, r, vertexId, vertex, deleted, i + 1, deletedTriangles, newDeleted, geom)
    ensures PushedSoFar(m, r, vertex, deleted, i + 1)
  {
    var k := Entry(m, vertex, i).triangleId;
    r := r0.(triangles := r0.triangles[k := r0.triangles[k].(deleted := true)]);
    newDeleted := newDeleted0 + 1;
    StepTombstone(m, r0, r, vertexId, vertex, deleted, i, deletedTriangles, newDeleted0, geom);
    PushedTombstone(m, r0, vertex, deleted, i);
  }

  /** A live, unmarked triangle is redirected to `vertexId` and its entry is
      appended to the reference list. */
  method VisitKept(m: Mesh, r0: Mesh, vertexId: nat, vertex: Vertex, deleted: seq<bool>, i: nat,
                   deletedTriangles: nat, newDeleted0: nat, geom: Geometry)
    returns (r: Mesh, newDeleted: nat)
    requires Linked(m) && SliceIn(vertex, |m.references|) && vertexId < |m.vertices| && i < vertex.triangleCount
    requires Progress(m, r0, vertexId, vertex, deleted, i, deletedTriangles, newDeleted0, geom)
    requires PushedSoFar(m, r0, vertex, deleted, i)
    requires Entry(m, vertex, i).triangleId < |r0.triangles| && !r0.triangles[Entry(m, vertex, i).triangleId].deleted
    requires !Flag(deleted, i)
    ensures r.references == r0.references + [Entry(m, vertex, i)] && r.vertices == r0.vertices && newDeleted == newDeleted0
    ensures Progress(m, r, vertexId, vertex, deleted, i + 1, deletedTriangles, newDeleted, geom)
    ensures PushedSoFar(m, r, vertex, deleted, i + 1)
  {
    var ref := Entry(m, vertex, i);
    assert RefOk(ref, |r0.triangles|);
    var k := ref.triangleId;
    var t := r0.triangles[k];
    assert CornersIn(t, |r0.vertices|);
    var t' := Redirect(t, ref.vertexId, vertexId, r0.vertices, geom);
    r := r0.(triangles := r0.triangles[k := t'], references := r0.references + [ref]);
    newDeleted := newDeleted0;
    assert Evolves(t, t', vertexId, m.vertices, geom);
    StepRedirect(m, r0, r, t', vertexId, vertex, deleted, i, deletedTriangles, newDeleted0, geom);
    PushedRedirect(m, r0, t', vertex, deleted, i);
  }

  /** Passing over an entry whose triangle is already a tombstone keeps the
      loop facts. */
  lemma StepSkip(m: Mesh, r0: Mesh, vertexId: nat, vertex: Vertex, deleted: seq<bool>, i: nat,
                 deletedTriangles: nat, newDeleted0: nat, geom: Geometry)
    requires Linked(m) && SliceIn(vertex, |m.references|) && i < vertex.triangleCount
    requires Progress(m, r0, vertexId, vertex, deleted, i, deletedTriangles, newDeleted0, geom)
    requires Entry(m, vertex, i).triangleId < |r0.triangles| && r0.triangles[Entry(m, vertex, i).triangleId].deleted
    ensures Progress(m, r0, vertexId, vertex, deleted, i + 1, deletedTriangles, newDeleted0, geom)
  {
    forall i' | 0 <= i' < i + 1
      ensures var t := r0.triangles[Entry(m, vertex, i').triangleId];
              !t.deleted ==> t.isDirty && Fresh(t, m.vertices, geom)
    {
      assert RefOk(m.references[vertex.triangleStart + i'], |m.triangles|);
    }
  }

  lemma StepTombstone(m: Mesh, r0: Mesh, r: Mesh, vertexId: nat, vertex: Vertex, deleted: seq<bool>, i: nat,
                      deletedTriangles: nat, newDeleted0: nat, geom: Geometry)
    requires Linked(m) && SliceIn(vertex, |m.references|) && vertexId < |m.vertices| && i < vertex.triangleCount
    requires Progress(m, r0, vertexId, vertex, deleted, i, deletedTriangles, newDeleted0, geom)
    requires Entry(m, vertex, i).triangleId < |r0.triangles|
    requires !r0.triangles[Entry(m, vertex, i).triangleId].deleted && Flag(deleted, i)
    requires var k := Entry(m, vertex, i).triangleId;
             r == r0.(triangles := r0.triangles[k := r0.triangles[k].(deleted := true)])
    ensures Progress(m, r, vertexId, vertex, deleted, i + 1, deletedTriangles, newDeleted0 + 1, geom)
  {
    var k := Entry(m, vertex, i).triangleId;
    var t := r0.triangles[k];
    var t' := t.(deleted := true);
    TombstonesUpdate(r0.triangles, k, t');
    assert InSlice(m, vertex, k);
    EvolvesKept(m.triangles, r0.triangles, k, t', vertexId, m.vertices, geom);
    UntouchedKept(m, vertex, r0.triangles, k, t');
    FlagsKept(m, vertex, deleted, i, r0.triangles, k, t');
    RedirectsKept(m, vertex, i, r0.triangles, r0.references, k, t', vertexId, r.references);
    AppendsKept(m, r0, r, vertex, vertexId);
    RefreshedKept(m, r0, r, vertex, i, t', m.vertices, geom);
    assert Linked(r) by {
      assert forall j | 0 <= j < |r.triangles| :: CornersIn(r.triangles[j], |r.vertices|) by {
        assert forall j | 0 <= j < |r0.triangles| :: CornersIn(r0.triangles[j], |r0.vertices|);
      }
    }
  }

  lemma StepRedirect(m: Mesh, r0: Mesh, r: Mesh, t': Triangle, vertexId: nat, vertex: Vertex, deleted: seq<bool>, i: nat,
                     deletedTriangles: nat, newDeleted0: nat, geom: Geometry)
    requires Linked(m) && SliceIn(vertex, |m.references|) && vertexId < |m.vertices| && i < vertex.triangleCount
    requires Progress(m, r0, vertexId, vertex, deleted, i, deletedTriangles, newDeleted0, geom)
    requires RefOk(Entry(m, vertex, i), |r0.triangles|)
    requires !r0.triangles[Entry(m, vertex, i).triangleId].deleted && !Flag(deleted, i)
    requires var e := Entry(m, vertex, i);
             var t := r0.triangles[e.triangleId];
             && CornersIn(t', |m.vertices|) && Evolves(t, t', vertexId, m.vertices, geom)
             && !t'.deleted && t'.vertices[e.vertexId] == vertexId
             && t'.isDirty && Fresh(t', m.vertices, geom)
             && r == r0.(triangles := r0.triangles[e.triangleId := t'], references := r0.references + [e])
    ensures Progress(m, r, vertexId, vertex, deleted, i + 1, deletedTriangles, newDeleted0, geom)
  {
    var ref := Entry(m, vertex, i);
    var k := ref.triangleId;
    var t := r0.triangles[k];
    TombstonesUpdate(r0.triangles, k, t');
    assert InSlice(m, vertex, k);
    EvolvesKept(m.triangles, r0.triangles, k, t', vertexId, m.vertices, geom);
    UntouchedKept(m, vertex, r0.triangles, k, t');
    FlagsKept(m, vertex, deleted, i, r0.triangles, k, t');
    AppendOne(r0.references, ref, |m.references|);
    RedirectsKept(m, vertex, i, r0.triangles, r0.references, k, t', vertexId, r.references);
    EntryInSlice(m, vertex, i);
    AppendsRedirect(m, r0, r, vertex, vertexId, ref);
    LinkedAfterRedirect(r0, r, k, t', ref);
    RefreshedKept(m, r0, r, vertex, i, t', m.vertices, geom);
  }

  /** Writing a tombstone or a refreshed triangle at entry `i`'s index keeps
      the earlier entries refreshed and adds entry `i`. */
  lemma RefreshedKept(m: Mesh, r0: Mesh, r: Mesh, vertex: Vertex, i: nat, t': Triangle, vs: seq<Vertex>, geom: Geometry)
    requires Linked(m) && SliceIn(vertex, |m.references|) && i < vertex.triangleCount
    requires |r0.triangles| == |m.triangles| && Entry(m, vertex, i).triangleId < |m.triangles|
    requires r.triangles == r0.triangles[Entry(m, vertex, i).triangleId := t']
    requires RefreshedBefore(m, r0, vertex, i, vs, geom)
    requires t'.deleted || (t'.isDirty && Fresh(t', vs, geom))
    ensures RefreshedBefore(m, r, vertex, i + 1, vs, geom)
  {
    forall i' | 0 <= i' < i + 1
      ensures var t := r.triangles[Entry(m, vertex, i').triangleId];
              !t.deleted ==> t.isDirty && Fresh(t, vs, geom)
    {
      assert RefOk(m.references[vertex.triangleStart + i'], |m.triangles|);
    }
  }

  lemma AppendOne(refs0: seq<Ref>, ref: Ref, n: nat)
    requires n <= |refs0|
    ensures (refs0 + [ref])[..n] == refs0[..n]
    ensures (refs0 + [ref])[n..] == refs0[n..] + [ref]
  {
  }

  lemma EntryInSlice(m: Mesh, v: Vertex, i: nat)
    requires SliceIn(v, |m.references|) && i < v.triangleCount
    ensures Entry(m, v, i) in Slice(m, v)
  {
    assert Slice(m, v)[i] == Entry(m, v, i);
  }

  /** Replacing triangle `k` by a successor it may evolve into keeps every
      triangle an evolution of the original. */
  lemma EvolvesKept(ts: seq<Triangle>, a: seq<Triangle>, k: nat, t': Triangle, vertexId: nat, vs: seq<Vertex>, geom: Geometry)
    requires |a| == |ts| && k < |a|
    requires forall x | 0 <= x < |a| :: Evolves(ts[x], a[x], vertexId, vs, geom)
    requires Evolves(a[k], t', vertexId, vs, geom)
    ensures forall x | 0 <= x < |a| :: Evolves(ts[x], a[k := t'][x], vertexId, vs, geom)
  {
    EvolvesTrans(ts[k], a[k], t', vertexId, vs, geom);
  }

  lemma UntouchedKept(m: Mesh, vertex: Vertex, a: seq<Triangle>, k: nat, t': Triangle)
    requires SliceIn(vertex, |m.references|) && |a| == |m.triangles| && k < |a| && InSlice(m, vertex, k)
    requires forall x | 0 <= x < |a| :: !InSlice(m, vertex, x) ==> a[x] == m.triangles[x]
    ensures forall x | 0 <= x < |a| :: !InSlice(m, vertex, x) ==> a[k := t'][x] == m.triangles[x]
  {
  }

  lemma FlagsKept(m: Mesh, vertex: Vertex, deleted: seq<bool>, i: nat, a: seq<Triangle>, k: nat, t': Triangle)
    requires Linked(m) && SliceIn(vertex, |m.references|) && i < vertex.triangleCount
    requires |a| == |m.triangles| && k < |a| && k == Entry(m, vertex, i).triangleId
    requires !a[k].deleted && (Flag(deleted, i) ==> t'.deleted)
    requires forall i' | 0 <= i' < i :: Flag(deleted, i') ==> a[Entry(m, vertex, i').triangleId].deleted
    ensures forall i' | 0 <= i' < i + 1 :: Flag(deleted, i') ==> a[k := t'][Entry(m, vertex, i').triangleId].deleted
  {
    forall i' | 0 <= i' < i + 1 && Flag(deleted, i')
      ensures a[k := t'][Entry(m, vertex, i').triangleId].deleted
    {
      assert RefOk(m.references[vertex.triangleStart + i'], |m.triangles|);
    }
  }

  /** The redirected entries stay redirected (or become tombstones), and
      entry `i` joins them unless its triangle was tombstoned. */
  lemma RedirectsKept(m: Mesh, vertex: Vertex, i: nat, a: seq<Triangle>, refs0: seq<Ref>, k: nat, t': Triangle,
                      vertexId: nat, refs: seq<Ref>)
    requires Linked(m) && SliceIn(vertex, |m.references|) && i < vertex.triangleCount
    requires |a| == |m.triangles| && k < |a| && k == Entry(m, vertex, i).triangleId
    requires |refs0| >= |m.references| && |refs| >= |refs0|
    requires refs[|m.references|..] == refs0[|m.references|..] || refs[|m.references|..] == refs0[|m.references|..] + [Entry(m, vertex, i)]
    requires t'.deleted || (t'.deleted == a[k].deleted && t'.vertices[Entry(m, vertex, i).vertexId] == vertexId
                            && refs[|m.references|..] == refs0[|m.references|..] + [Entry(m, vertex, i)])
    requires forall c | 0 <= c < 3 :: a[k].vertices[c] == vertexId ==> t'.vertices[c] == vertexId
    requires forall i' | 0 <= i' < i ::
               var e := Entry(m, vertex, i');
               !a[e.triangleId].deleted ==>
                 && a[e.triangleId].vertices[e.vertexId] == vertexId
                 && e in refs0[|m.references|..]
    ensures forall i' | 0 <= i' < i + 1 ::
              var e := Entry(m, vertex, i');
              !a[k := t'][e.triangleId].deleted ==>
                && a[k := t'][e.triangleId].vertices[e.vertexId] == vertexId
                && e in refs[|m.references|..]
  {
    forall i' | 0 <= i' < i + 1
      ensures var e := Entry(m, vertex, i');
              !a[k := t'][e.triangleId].deleted ==>
                && a[k := t'][e.triangleId].vertices[e.vertexId] == vertexId
                && e in refs[|m.references|..]
    {
      var e := Entry(m, vertex, i');
      assert RefOk(m.references[vertex.triangleStart + i'], |m.triangles|);
      if i' < i && !a[k := t'][e.triangleId].deleted {
        assert e in refs0[|m.references|..];
      }
    }
  }

  lemma AppendsKept(m: Mesh, a: Mesh, b: Mesh, v: Vertex, vertexId: nat)
    requires SliceIn(v, |m.references|) && |a.triangles| == |m.triangles| == |b.triangles|
    requires AppendsFrom(m, a, v, vertexId) && b.references == a.references
    requires forall k | 0 <= k < |a.triangles| :: b.triangles[k] == a.triangles[k] || b.triangles[k].deleted
    ensures AppendsFrom(m, b, v, vertexId)
  {
  }

  lemma AppendsRedirect(m: Mesh, a: Mesh, b: Mesh, v: Vertex, vertexId: nat, ref: Ref)
    requires SliceIn(v, |m.references|) && |a.triangles| == |m.triangles| == |b.triangles|
    requires AppendsFrom(m, a, v, vertexId)
    requires ref in Slice(m, v) && RefOk(ref, |b.triangles|)
    requires b.references == a.references + [ref]
    requires b.references[..|m.references|] == m.references
    requires b.references[|m.references|..] == a.references[|m.references|..] + [ref]
    requires b.triangles[ref.triangleId].vertices[ref.vertexId] == vertexId
    requires forall k | 0 <= k < |a.triangles| && k != ref.triangleId :: b.triangles[k] == a.triangles[k]
    requires b.triangles[ref.triangleId].deleted == a.triangles[ref.triangleId].deleted
    requires forall c | 0 <= c < 3 :: a.triangles[ref.triangleId].vertices[c] == vertexId ==>
               b.triangles[ref.triangleId].vertices[c] == vertexId
    ensures AppendsFrom(m, b, v, vertexId)
  {
    forall e | e in b.references[|m.references|..]
      ensures && e in Slice(m, v)
              && e.triangleId < |b.triangles| && e.vertexId < 3
              && (b.triangles[e.triangleId].deleted || b.triangles[e.triangleId].vertices[e.vertexId] == vertexId)
    {
      if e != ref {
        assert e in a.references[|m.references|..];
      }
    }
  }

  lemma LinkedAfterRedirect(a: Mesh, b: Mesh, k: nat, t': Triangle, ref: Ref)
    requires Linked(a) && k < |a.triangles| && CornersIn(t', |a.vertices|) && RefOk(ref, |a.triangles|)
    requires b == a.(triangles := a.triangles[k := t'], references := a.references + [ref])
    ensures Linked(b)
  {
    forall j | 0 <= j < |b.vertices|
      ensures SliceIn(b.vertices[j], |b.references|)
    {
      assert SliceIn(a.vertices[j], |a.references|);
    }
    forall j | 0 <= j < |b.references|
      ensures RefOk(b.references[j], |b.triangles|)
    {
      if j < |a.references| {
        assert RefOk(a.references[j], |a.triangles|);
      }
    }
  }

  // ---------------------------------------------------------------------
  // The collapse of one edge
  // ---------------------------------------------------------------------

  /** `v0` after the collapse, before its slice is patched: it takes the
      optimal point's position, normal and uv, and the summed quadric. */
  function Moved(v0: Vertex, v1: Vertex, cp: CollapsePoint): Vertex
  {
    v0.(position := cp.point, normal := cp.normal, uv := cp.uv, q := Add(v1.q, v0.q))
  }

  /** Copy the `count` references from `from` down to `start`. */
  method PatchSlice(refs: seq<Ref>, start: nat, from: nat, count: nat) returns (r: seq<Ref>)
    requires start + count <= from && from + count <= |refs|
    ensures |r| == |refs|
    ensures r[start .. start + count] == refs[from .. from + count]
    ensures forall k | 0 <= k < |r| && !(start <= k < start + count) :: r[k] == refs[k]
  {
    r := refs;
    var c := 0;
    while c < count
      invariant 0 <= c <= count && |r| == |refs|
      invariant forall k | start <= k < start + c :: r[k] == refs[k - start + from]
      invariant forall k | 0 <= k < |r| && !(start <= k < start + c) :: r[k] == refs[k]
    {
      r := r[start + c := r[from + c]];
      c := c + 1;
    }
  }

  /** The edge `i0`-`i1` collapses onto `i0`: the moved vertex takes the
      optimal point and the summed quadric, the triangles around both ends
      are redirected or (where `isFlipped` marked them) tombstoned, and
      `i0`'s slice becomes the references that were appended, written over
      its old slice when they fit. */
  method CollapseEdge(m: Mesh, i0: nat, i1: nat, deleted0: seq<bool>, deleted1: seq<bool>,
                      deletedTriangles: nat, geom: Geometry)
    returns (r: Mesh, newDeleted: nat)
    requires WF(m) && i0 < |m.vertices| && i1 < |m.vertices|
    ensures WF(r) && |r.vertices| == |m.vertices| && |r.triangles| == |m.triangles|
    ensures newDeleted + Tombstones(m.triangles) == deletedTriangles + Tombstones(r.triangles)
    ensures CollapseEffect(m, r, i0, i1, geom)
    ensures Tombstoned(m, r, m.vertices[i0], deleted0) && Tombstoned(m, r, m.vertices[i1], deleted1)
    ensures r.references[|m.references|..] == Block(m, i0, i1, deleted0, deleted1)
    ensures forall k | 0 <= k < |r.triangles| :: r.triangles[k].deleted == !LiveAfterBoth(m, i0, i1, deleted0, deleted1, k)
  {
    var v0 := m.vertices[i0];
    var m3;
    m3, newDeleted := MoveAndUpdate(m, i0, i1, deleted0, deleted1, deletedTriangles, geom);
    var tStart := |m.references|;
    var refs, start := PlaceSlice(m3, v0.triangleStart, v0.triangleCount, tStart);
    r := Relinked(m3, i0, refs, start, tStart);
    Patched(m, m3, r, i0, i1, start, refs, deleted0, deleted1, geom);
    RelinkedTail(m3, i0, refs, start, tStart);
  }

  /** The state `r` after the collapse of `i0`-`i1` onto `i0`, against the
      state `m` before it, apart from the tombstones `isFlipped` asked for.
      `i0` takes the collapse point and the summed quadric and no other
      vertex changes.  Its new slice is the block of references appended to
      the table, copied over the old slice when it fits there (`tCount <=
      triangleCount`) and left at `tStart` otherwise, and no other entry of
      the old table changes.  Every appended reference names `i0` or a
      tombstone, every live triangle of either old slice names `i0`, is
      re-appended, dirty, and has recomputed costs, and triangles outside
      both slices are unchanged. */
  predicate CollapseEffect(m: Mesh, r: Mesh, i0: nat, i1: nat, geom: Geometry)
    requires WF(m) && i0 < |m.vertices| && i1 < |m.vertices|
    requires |r.vertices| == |m.vertices| && |r.triangles| == |m.triangles|
  {
    var v0, v1 := m.vertices[i0], m.vertices[i1];
    var vs := m.vertices[i0 := Moved(v0, v1, CalculateError(v0, v1, geom))];
    var w0 := r.vertices[i0];
    && SameButSlice(w0, vs[i0])
    && (forall u | 0 <= u < |m.vertices| && u != i0 :: r.vertices[u] == m.vertices[u])
    && |r.references| >= |m.references|
    && w0.triangleCount == |r.references| - |m.references|
    && w0.triangleStart == (if w0.triangleCount <= v0.triangleCount then v0.triangleStart else |m.references|)
    && SliceIn(w0, |r.references|)
    && Slice(r, w0) == r.references[|m.references|..]
    && (forall k | 0 <= k < |m.references| && !(w0.triangleStart <= k < w0.triangleStart + w0.triangleCount) ::
          r.references[k] == m.references[k])
    && AppendedName(r, |m.references|, i0)
    && Covers(m, r, v0, i0) && Covers(m, r, v1, i0)
    && Refreshed(m, r, v0, vs, geom) && Refreshed(m, r, v1, vs, geom)
    && AllEvolve(m.triangles, r.triangles, i0, vs, geom)
    && (forall k | 0 <= k < |r.triangles| :: !InSlice(m, v0, k) && !InSlice(m, v1, k) ==> r.triangles[k] == m.triangles[k])
  }

  /** The table `refs` agrees with `m`'s from `from` on, every reference
      in it is valid, and the `|m.references| - from` entries at `start`
      repeat that tail. */
  predicate SlicePlaced(m: Mesh, refs: seq<Ref>, start: nat, from: nat)
  {
    && from <= |m.references| && |refs| == |m.references| && refs[from..] == m.references[from..]
    && (forall k | 0 <= k < |refs| :: RefOk(refs[k], |m.triangles|))
    && start + (|m.references| - from) <= |refs|
    && refs[start .. start + (|m.references| - from)] == refs[from..]
    && (forall k | 0 <= k < |refs| && !(start <= k < start + (|m.references| - from)) :: refs[k] == m.references[k])
  }

  /** `m` with table `refs` and the slice of vertex `i0` set to the
      entries at `start` that repeat the tail from `from`. */
  function Relinked(m: Mesh, i0: nat, refs: seq<Ref>, start: nat, from: nat): Mesh
    requires i0 < |m.vertices| && from <= |m.references|
  {
    m.(vertices := m.vertices[i0 := m.vertices[i0].(triangleStart := start, triangleCount := |m.references| - from)],
       references := refs)
  }

  /** The new slice of `v0` is the tail of `m`'s reference table from
      `from` on, which the two `updateTriangles` calls appended: it is
      copied over the old slice at `oldStart` when it fits in the old
      `oldCount` entries, and otherwise used where it lies. */
  method PlaceSlice(m: Mesh, oldStart: nat, oldCount: nat, from: nat) returns (refs: seq<Ref>, start: nat)
    requires Linked(m) && oldStart + oldCount <= from <= |m.references|
    ensures start == if |m.references| - from <= oldCount then oldStart else from
    ensures SlicePlaced(m, refs, start, from)
  {
    var count := |m.references| - from;
    if count <= oldCount {
      refs := PatchSlice(m.references, oldStart, from, count);
      start := oldStart;
      forall k | 0 <= k < |refs|
        ensures RefOk(refs[k], |m.triangles|)
      {
        if oldStart <= k < oldStart + count {
          assert refs[k] == refs[oldStart .. oldStart + count][k - oldStart] == m.references[from + k - oldStart];
        } else {
          assert refs[k] == m.references[k];
        }
      }
      assert refs[from..] == m.references[from..] by {
        forall k | from <= k < |refs|
          ensures refs[k] == m.references[k]
        {
        }
      }
    } else {
      refs, start := m.references, from;
    }
  }

  /** The block the two `updateTriangles` calls of the collapse of
      `i0`-`i1` append: the pushes for `i0`'s slice, then those for `i1`'s
      slice over the triangles as the first call left them. */
  function Block(m: Mesh, i0: nat, i1: nat, deleted0: seq<bool>, deleted1: seq<bool>): seq<Ref>
    requires Linked(m) && i0 < |m.vertices| && i1 < |m.vertices|
  {
    var s0, s1 := Slice(m, m.vertices[i0]), Slice(m, m.vertices[i1]);
    Pushes(m.triangles, s0, deleted0, |s0|) + Pushes(MarkedOff(m.triangles, s0, deleted0), s1, deleted1, |s1|)
  }

  /** Triangle `k` is still live after both `updateTriangles` calls. */
  predicate LiveAfterBoth(m: Mesh, i0: nat, i1: nat, deleted0: seq<bool>, deleted1: seq<bool>, k: nat)
    requires Linked(m) && i0 < |m.vertices| && i1 < |m.vertices|
  {
    var s0, s1 := Slice(m, m.vertices[i0]), Slice(m, m.vertices[i1]);
    LiveAfter(MarkedOff(m.triangles, s0, deleted0), s1, deleted1, k, |s1|)
  }

  /** Pushes and liveness read the triangles only through their tombstone
      flags. */
  lemma {:induction false} PushesByFlags(a: seq<Triangle>, b: seq<Triangle>, s: seq<Ref>, deleted: seq<bool>, n: nat)
    requires |a| == |b| && n <= |s|
    requires forall k | 0 <= k < |a| :: a[k].deleted == b[k].deleted
    ensures Pushes(a, s, deleted, n) == Pushes(b, s, deleted, n)
    ensures forall k :: LiveAfter(a, s, deleted, k, n) == LiveAfter(b, s, deleted, k, n)
  {
    if n > 0 {
      PushesByFlags(a, b, s, deleted, n - 1);
    }
  }

  /** The two calls together append exactly `Block` and leave exactly the
      triangles of `LiveAfterBoth` live. */
  lemma TwoPushes(m: Mesh, m1: Mesh, m2: Mesh, m3: Mesh, i0: nat, i1: nat, moved: Vertex,
                  deleted0: seq<bool>, deleted1: seq<bool>)
    requires Linked(m) && i0 < |m.vertices| && i1 < |m.vertices|
    requires moved.triangleStart == m.vertices[i0].triangleStart && moved.triangleCount == m.vertices[i0].triangleCount
    requires m1 == m.(vertices := m.vertices[i0 := moved])
    requires |m2.triangles| == |m.triangles| == |m3.triangles| && |m2.vertices| == |m.vertices|
    requires m2.vertices[i1].triangleStart == m.vertices[i1].triangleStart
    requires m2.vertices[i1].triangleCount == m.vertices[i1].triangleCount
    requires m2.references == m1.references + Pushes(m1.triangles, Slice(m1, moved), deleted0, moved.triangleCount)
    requires forall k | 0 <= k < |m2.triangles| ::
               m2.triangles[k].deleted == !LiveAfter(m1.triangles, Slice(m1, moved), deleted0, k, moved.triangleCount)
    requires SliceIn(m2.vertices[i1], |m2.references|)
    requires m3.references == m2.references + Pushes(m2.triangles, Slice(m2, m2.vertices[i1]), deleted1, m2.vertices[i1].triangleCount)
    requires forall k | 0 <= k < |m3.triangles| ::
               m3.triangles[k].deleted == !LiveAfter(m2.triangles, Slice(m2, m2.vertices[i1]), deleted1, k, m2.vertices[i1].triangleCount)
    ensures m3.references == m.references + Block(m, i0, i1, deleted0, deleted1)
    ensures forall k | 0 <= k < |m3.triangles| :: m3.triangles[k].deleted == !LiveAfterBoth(m, i0, i1, deleted0, deleted1, k)
  {
    var v0, v1, w1 := m.vertices[i0], m.vertices[i1], m2.vertices[i1];
    assert m1.references == m.references;
    SameEntries(m, m1, v0, moved);
    assert m2.references[..|m.references|] == m.references;
    SameEntries(m, m2, v1, w1);
    var s0, s1 := Slice(m, v0), Slice(m, v1);
    var marked := MarkedOff(m.triangles, s0, deleted0);
    var p0 := Pushes(m.triangles, s0, deleted0, |s0|);
    assert m2.references == m.references + p0 by {
      assert Slice(m1, moved) == s0 && m1.triangles == m.triangles && |s0| == moved.triangleCount;
    }
    assert Slice(m2, w1) == s1 && |s1| == w1.triangleCount;
    PushesByFlags(m2.triangles, marked, s1, deleted1, |s1|);
    var p1 := Pushes(marked, s1, deleted1, |s1|);
    assert m3.references == (m.references + p0) + p1;
    assert Block(m, i0, i1, deleted0, deleted1) == p0 + p1;
  }

  /** The state after both `updateTriangles` calls of the collapse of
      `i0`-`i1`, against the state `m` before it: `i0` has moved, the
      table was only appended to, the appended references name `i0` or a
      tombstone, the live entries of both old slices are among them, the
      marked entries are tombstones, and no other triangle changed. */
  predicate Rewired(m: Mesh, m3: Mesh, i0: nat, i1: nat, deleted0: seq<bool>, deleted1: seq<bool>, geom: Geometry)
    requires WF(m) && i0 < |m.vertices| && i1 < |m.vertices|
  {
    var cp := CalculateError(m.vertices[i0], m.vertices[i1], geom);
    var vs := m.vertices[i0 := Moved(m.vertices[i0], m.vertices[i1], cp)];
    && m3.vertices == vs
    && |m3.triangles| == |m.triangles| && Linked(m3)
    && |m3.references| >= |m.references| && m3.references[..|m.references|] == m.references
    && AppendedName(m3, |m.references|, i0)
    && Covers(m, m3, m.vertices[i0], i0) && Covers(m, m3, m.vertices[i1], i0)
    && Tombstoned(m, m3, m.vertices[i0], deleted0) && Tombstoned(m, m3, m.vertices[i1], deleted1)
    && Refreshed(m, m3, m.vertices[i0], vs, geom) && Refreshed(m, m3, m.vertices[i1], vs, geom)
    && AllEvolve(m.triangles, m3.triangles, i0, vs, geom)
    && (forall k | 0 <= k < |m3.triangles| ::
          !InSlice(m, m.vertices[i0], k) && !InSlice(m, m.vertices[i1], k) ==> m3.triangles[k] == m.triangles[k])
  }

  /** Lines up to the two `updateTriangles` calls of a collapse: `v0` moves,
      then the triangles around `v0` and around `v1` are rewritten to name
      `v0`, appending their references to the table. */
  method MoveAndUpdate(m: Mesh, i0: nat, i1: nat, deleted0: seq<bool>, deleted1: seq<bool>,
                       deletedTriangles: nat, geom: Geometry)
    returns (m3: Mesh, newDeleted: nat)
    requires WF(m) && i0 < |m.vertices| && i1 < |m.vertices|
    ensures Rewired(m, m3, i0, i1, deleted0, deleted1, geom)
    ensures |m3.triangles| == |m.triangles|
    ensures m3.references == m.references + Block(m, i0, i1, deleted0, deleted1)
    ensures forall k | 0 <= k < |m3.triangles| :: m3.triangles[k].deleted == !LiveAfterBoth(m, i0, i1, deleted0, deleted1, k)
    ensures newDeleted + Tombstones(m.triangles) == deletedTriangles + Tombstones(m3.triangles)
  {
    var v0, v1 := m.vertices[i0], m.vertices[i1];
    var moved := Moved(v0, v1, CalculateError(v0, v1, geom));
    var m1 := m.(vertices := m.vertices[i0 := moved]);
    assert WF(m1);
    var m2, d1 := UpdateTriangles(m1, v0.id, moved, deleted0, deletedTriangles, geom);
    m3, newDeleted := UpdateTriangles(m2, v0.id, m2.vertices[i1], deleted1, d1, geom);
    TwoUpdates(m, m1, m2, m3, i0, i1, moved, deleted0, deleted1, geom);
    TwoPushes(m, m1, m2, m3, i0, i1, moved, deleted0, deleted1);
  }

  /** The mesh after the patch, stated against the mesh before the collapse. */
  lemma Patched(m: Mesh, m3: Mesh, r: Mesh, i0: nat, i1: nat, start: nat, refs: seq<Ref>,
                deleted0: seq<bool>, deleted1: seq<bool>, geom: Geometry)
    requires WF(m) && i0 < |m.vertices| && i1 < |m.vertices|
    requires Rewired(m, m3, i0, i1, deleted0, deleted1, geom)
    requires SlicePlaced(m3, refs, start, |m.references|)
    requires start == if |m3.references| - |m.references| <= m.vertices[i0].triangleCount
                      then m.vertices[i0].triangleStart else |m.references|
    requires r == Relinked(m3, i0, refs, start, |m.references|)
    ensures WF(r) && |r.vertices| == |m.vertices| && |r.triangles| == |m.triangles|
    ensures CollapseEffect(m, r, i0, i1, geom)
    ensures Tombstoned(m, r, m.vertices[i0], deleted0) && Tombstoned(m, r, m.vertices[i1], deleted1)
  {
    var n := |m.references|;
    var vs := m.vertices[i0 := Moved(m.vertices[i0], m.vertices[i1], CalculateError(m.vertices[i0], m.vertices[i1], geom))];
    assert r.references[n..] == m3.references[n..];
    TailFactsKept(m, m3, r, m.vertices[i0], i0, deleted0, vs, geom);
    TailFactsKept(m, m3, r, m.vertices[i1], i0, deleted1, vs, geom);
    RelinkedWF(m3, i0, refs, start, n);
  }

  /** The facts about the triangles of a slice depend only on the triangles
      and on the references appended past `m`'s table. */
  lemma TailFactsKept(m: Mesh, a: Mesh, b: Mesh, v: Vertex, vertexId: nat, deleted: seq<bool>,
                      vs: seq<Vertex>, geom: Geometry)
    requires Linked(m) && SliceIn(v, |m.references|)
    requires |a.triangles| == |m.triangles| && b.triangles == a.triangles
    requires |m.references| <= |a.references| == |b.references|
    requires b.references[|m.references|..] == a.references[|m.references|..]
    ensures Covers(m, a, v, vertexId) ==> Covers(m, b, v, vertexId)
    ensures Refreshed(m, a, v, vs, geom) ==> Refreshed(m, b, v, vs, geom)
    ensures Tombstoned(m, a, v, deleted) ==> Tombstoned(m, b, v, deleted)
    ensures AppendedName(a, |m.references|, vertexId) ==> AppendedName(b, |m.references|, vertexId)
  {
  }

  /** Relinking leaves the triangles and the appended tail as they were. */
  lemma RelinkedTail(m3: Mesh, i0: nat, refs: seq<Ref>, start: nat, from: nat)
    requires i0 < |m3.vertices| && SlicePlaced(m3, refs, start, from)
    ensures Relinked(m3, i0, refs, start, from).triangles == m3.triangles
    ensures Relinked(m3, i0, refs, start, from).references[from..] == m3.references[from..]
  {
  }

  /** Relinking `i0` to a placed slice keeps the arena well formed. */
  lemma RelinkedWF(m3: Mesh, i0: nat, refs: seq<Ref>, start: nat, from: nat)
    requires WF(m3) && i0 < |m3.vertices|
    requires SlicePlaced(m3, refs, start, from)
    ensures WF(Relinked(m3, i0, refs, start, from))
  {
  }

  lemma TwoUpdates(m: Mesh, m1: Mesh, m2: Mesh, m3: Mesh, i0: nat, i1: nat, moved: Vertex,
                   deleted0: seq<bool>, deleted1: seq<bool>, geom: Geometry)
    requires WF(m) && i0 < |m.vertices| && i1 < |m.vertices|
    requires moved.triangleStart == m.vertices[i0].triangleStart && moved.triangleCount == m.vertices[i0].triangleCount
    requires m1 == m.(vertices := m.vertices[i0 := moved]) && Linked(m1)
    requires m2.vertices == m1.vertices && |m2.triangles| == |m1.triangles| && Linked(m2)
    requires AppendsFrom(m1, m2, moved, i0)
    requires Covers(m1, m2, moved, i0) && Tombstoned(m1, m2, moved, deleted0)
    requires Refreshed(m1, m2, moved, m1.vertices, geom)
    requires AllEvolve(m1.triangles, m2.triangles, i0, m1.vertices, geom) && Untouched(m1, m2, moved)
    requires m3.vertices == m2.vertices && |m3.triangles| == |m2.triangles| && Linked(m3)
    requires AppendsFrom(m2, m3, m2.vertices[i1], i0)
    requires Covers(m2, m3, m2.vertices[i1], i0) && Tombstoned(m2, m3, m2.vertices[i1], deleted1)
    requires Refreshed(m2, m3, m2.vertices[i1], m2.vertices, geom)
    requires AllEvolve(m2.triangles, m3.triangles, i0, m2.vertices, geom) && Untouched(m2, m3, m2.vertices[i1])
    ensures |m3.references| >= |m.references| && m3.references[..|m.references|] == m.references
    ensures AppendedName(m3, |m.references|, i0)
    ensures Covers(m, m3, m.vertices[i0], i0) && Covers(m, m3, m.vertices[i1], i0)
    ensures Tombstoned(m, m3, m.vertices[i0], deleted0) && Tombstoned(m, m3, m.vertices[i1], deleted1)
    ensures Refreshed(m, m3, m.vertices[i0], m1.vertices, geom) && Refreshed(m, m3, m.vertices[i1], m1.vertices, geom)
    ensures AllEvolve(m.triangles, m3.triangles, i0, m1.vertices, geom)
    ensures forall k | 0 <= k < |m3.triangles| ::
              !InSlice(m, m.vertices[i0], k) && !InSlice(m, m.vertices[i1], k) ==> m3.triangles[k] == m.triangles[k]
  {
    var v0, v1, w1 := m.vertices[i0], m.vertices[i1], m2.vertices[i1];
    PrefixChain(m.references, m2.references, m3.references);
    SameEntries(m, m1, v0, moved);
    SameEntries(m, m2, v1, w1);
    // the first call's facts, moved along to m3
    CoversEvolve(m, m2, m3, v0, i0, m1.vertices, geom);
    TombstonedEvolve(m, m2, m3, v0, deleted0, i0, m1.vertices, geom);
    AppendedEvolve(m, m1, m2, m3, moved, i0, geom);
    RefreshedEvolve(m, m2, m3, v0, i0, m1.vertices, geom);
    // the second call's facts, seen from m
    CoversWider(m, m2, m3, v1, w1, i0);
    RefreshedWider(m, m2, m3, v1, w1, m1.vertices, geom);
    forall k | 0 <= k < |m3.triangles|
      ensures Evolves(m.triangles[k], m3.triangles[k], i0, m1.vertices, geom)
    {
      EvolvesTrans(m.triangles[k], m2.triangles[k], m3.triangles[k], i0, m1.vertices, geom);
    }
  }

  lemma PrefixChain(a: seq<Ref>, b: seq<Ref>, c: seq<Ref>)
    requires |a| <= |b| <= |c| && b[..|a|] == a && c[..|b|] == b
    ensures c[..|a|] == a
    ensures forall e | e in b[|a|..] :: e in c[|a|..]
    ensures forall e | e in c[|b|..] :: e in c[|a|..]
    ensures forall e | e in c[|a|..] :: e in b[|a|..] || e in c[|b|..]
  {
    assert c[..|a|] == c[..|b|][..|a|];
    forall e | e in b[|a|..]
      ensures e in c[|a|..]
    {
      var j :| 0 <= j < |b| - |a| && b[|a|..][j] == e;
      assert c[|a|..][j] == c[|a| + j] == c[..|b|][|a| + j];
    }
    forall e | e in c[|b|..]
      ensures e in c[|a|..]
    {
      var j :| 0 <= j < |c| - |b| && c[|b|..][j] == e;
      assert c[|a|..][j + |b| - |a|] == c[|b|..][j];
    }
    forall e | e in c[|a|..]
      ensures e in b[|a|..] || e in c[|b|..]
    {
      var j :| 0 <= j < |c| - |a| && c[|a|..][j] == e;
      if |a| + j < |b| {
        assert c[..|b|][|a| + j] == e;
        assert b[|a|..][j] == e;
      } else {
        assert c[|b|..][|a| + j - |b|] == e;
      }
    }
  }

  /** Extending the table and keeping the slice bounds leaves a slice's
      entries as they were. */
  lemma SameEntries(m: Mesh, a: Mesh, v: Vertex, w: Vertex)
    requires SliceIn(v, |m.references|)
    requires |a.references| >= |m.references| && a.references[..|m.references|] == m.references
    requires w.triangleStart == v.triangleStart && w.triangleCount == v.triangleCount
    ensures SliceIn(w, |a.references|)
    ensures forall i | 0 <= i < v.triangleCount :: Entry(a, w, i) == Entry(m, v, i)
    ensures forall k :: InSlice(a, w, k) <==> InSlice(m, v, k)
    ensures Slice(a, w) == Slice(m, v)
  {
    assert forall i | 0 <= i < v.triangleCount :: Slice(a, w)[i] == a.references[..|m.references|][v.triangleStart + i];
    forall i | 0 <= i < v.triangleCount
      ensures Entry(a, w, i) == Entry(m, v, i)
    {
      assert a.references[..|m.references|][v.triangleStart + i] == m.references[v.triangleStart + i];
    }
  }

  lemma CoversEvolve(m: Mesh, a: Mesh, b: Mesh, v: Vertex, vertexId: nat, vs: seq<Vertex>, geom: Geometry)
    requires Linked(m) && SliceIn(v, |m.references|)
    requires |a.triangles| == |m.triangles| == |b.triangles|
    requires |m.references| <= |a.references| <= |b.references| && b.references[..|a.references|] == a.references
    requires forall e | e in a.references[|m.references|..] :: e in b.references[|m.references|..]
    requires Covers(m, a, v, vertexId)
    requires AllEvolve(a.triangles, b.triangles, vertexId, vs, geom)
    ensures Covers(m, b, v, vertexId)
  {
    forall i | 0 <= i < v.triangleCount
      ensures var e := Entry(m, v, i);
              !b.triangles[e.triangleId].deleted ==>
                && b.triangles[e.triangleId].vertices[e.vertexId] == vertexId
                && e in b.references[|m.references|..]
    {
      var e := Entry(m, v, i);
      assert RefOk(m.references[v.triangleStart + i], |m.triangles|);
      assert Evolves(a.triangles[e.triangleId], b.triangles[e.triangleId], vertexId, vs, geom);
    }
  }

  /** A refreshed triangle stays refreshed (or becomes a tombstone) under a
      later `updateTriangles` call against the same vertices. */
  lemma RefreshedEvolve(m: Mesh, a: Mesh, b: Mesh, v: Vertex, vertexId: nat, vs: seq<Vertex>, geom: Geometry)
    requires Linked(m) && SliceIn(v, |m.references|)
    requires |a.triangles| == |m.triangles| == |b.triangles|
    requires Refreshed(m, a, v, vs, geom)
    requires AllEvolve(a.triangles, b.triangles, vertexId, vs, geom)
    ensures Refreshed(m, b, v, vs, geom)
  {
    forall i | 0 <= i < v.triangleCount
      ensures var t := b.triangles[Entry(m, v, i).triangleId];
              !t.deleted ==> t.isDirty && Fresh(t, vs, geom)
    {
      var e := Entry(m, v, i);
      assert RefOk(m.references[v.triangleStart + i], |m.triangles|);
      assert Evolves(a.triangles[e.triangleId], b.triangles[e.triangleId], vertexId, vs, geom);
    }
  }

  lemma RefreshedWider(m: Mesh, m2: Mesh, m3: Mesh, v1: Vertex, w1: Vertex, vs: seq<Vertex>, geom: Geometry)
    requires Linked(m) && Linked(m2) && SliceIn(v1, |m.references|) && SliceIn(w1, |m2.references|)
    requires |m2.triangles| == |m.triangles| == |m3.triangles|
    requires v1.triangleCount == w1.triangleCount
    requires forall i | 0 <= i < v1.triangleCount :: Entry(m2, w1, i) == Entry(m, v1, i)
    requires Refreshed(m2, m3, w1, vs, geom)
    ensures Refreshed(m, m3, v1, vs, geom)
  {
    forall i | 0 <= i < v1.triangleCount
      ensures var t := m3.triangles[Entry(m, v1, i).triangleId];
              !t.deleted ==> t.isDirty && Fresh(t, vs, geom)
    {
      assert RefOk(m.references[v1.triangleStart + i], |m.triangles|);
      assert Entry(m2, w1, i) == Entry(m, v1, i);
    }
  }

  lemma TombstonedEvolve(m: Mesh, a: Mesh, b: Mesh, v: Vertex, deleted: seq<bool>, vertexId: nat, vs: seq<Vertex>, geom: Geometry)
    requires Linked(m) && SliceIn(v, |m.references|)
    requires |a.triangles| == |m.triangles| == |b.triangles|
    requires Tombstoned(m, a, v, deleted)
    requires AllEvolve(a.triangles, b.triangles, vertexId, vs, geom)
    ensures Tombstoned(m, b, v, deleted)
  {
    forall i | 0 <= i < v.triangleCount && Flag(deleted, i)
      ensures b.triangles[Entry(m, v, i).triangleId].deleted
    {
      var e := Entry(m, v, i);
      assert RefOk(m.references[v.triangleStart + i], |m.triangles|);
      assert Evolves(a.triangles[e.triangleId], b.triangles[e.triangleId], vertexId, vs, geom);
    }
  }

  /** The references the first call appended still name `vertexId` (or a
      tombstone) after the second call, and so do the second call's. */
  lemma AppendedEvolve(m: Mesh, m1: Mesh, m2: Mesh, m3: Mesh, moved: Vertex, vertexId: nat, geom: Geometry)
    requires m1.references == m.references && SliceIn(moved, |m1.references|)
    requires |m2.triangles| == |m1.triangles| == |m3.triangles|
    requires AppendsFrom(m1, m2, moved, vertexId)
    requires |m2.references| <= |m3.references| && m3.references[..|m2.references|] == m2.references
    requires forall e | e in m3.references[|m2.references|..] ::
               && RefOk(e, |m3.triangles|)
               && (m3.triangles[e.triangleId].deleted || m3.triangles[e.triangleId].vertices[e.vertexId] == vertexId)
    requires forall e | e in m3.references[|m.references|..] :: e in m2.references[|m.references|..] || e in m3.references[|m2.references|..]
    requires AllEvolve(m2.triangles, m3.triangles, vertexId, m1.vertices, geom)
    ensures AppendedName(m3, |m.references|, vertexId)
  {
    forall e | e in m3.references[|m.references|..]
      ensures && RefOk(e, |m3.triangles|)
              && (m3.triangles[e.triangleId].deleted || m3.triangles[e.triangleId].vertices[e.vertexId] == vertexId)
    {
      if e in m2.references[|m.references|..] {
        assert Evolves(m2.triangles[e.triangleId], m3.triangles[e.triangleId], vertexId, m1.vertices, geom);
      }
    }
  }

  lemma CoversWider(m: Mesh, m2: Mesh, m3: Mesh, v1: Vertex, w1: Vertex, vertexId: nat)
    requires Linked(m) && Linked(m2) && SliceIn(v1, |m.references|) && SliceIn(w1, |m2.references|)
    requires |m2.triangles| == |m.triangles| == |m3.triangles|
    requires |m.references| <= |m2.references| <= |m3.references|
    requires v1.triangleCount == w1.triangleCount
    requires forall i | 0 <= i < v1.triangleCount :: Entry(m2, w1, i) == Entry(m, v1, i)
    requires forall e | e in m3.references[|m2.references|..] :: e in m3.references[|m.references|..]
    requires Covers(m2, m3, w1, vertexId)
    ensures Covers(m, m3, v1, vertexId)
  {
    forall i | 0 <= i < v1.triangleCount
      ensures var e := Entry(m, v1, i);
              !m3.triangles[e.triangleId].deleted ==>
                && m3.triangles[e.triangleId].vertices[e.vertexId] == vertexId
                && e in m3.references[|m.references|..]
    {
      assert RefOk(m.references[v1.triangleStart + i], |m.triangles|);
      assert Entry(m2, w1, i) == Entry(m, v1, i);
    }
  }

  // ---------------------------------------------------------------------
  // The per-triangle step of a decimation pass
  // ---------------------------------------------------------------------

  /** A triangle the pass leaves alone: its cheapest edge is above the
      threshold, it is a tombstone, or it changed earlier in this pass. */
  predicate Skips(t: Triangle, threshold: real)
  {
    t.error[3] > threshold || t.deleted || t.isDirty
  }

  /** Edge `j` of triangle `i` (corner `j` to corner `j+1`) may collapse:
      its cost is below the threshold, both ends agree on being on the
      border, and moving either end to the optimal point flips none of its
      other triangles. */
  predicate EdgeAccepted(m: Mesh, i: nat, j: nat, threshold: real, geom: Geometry)
    requires WF(m) && i < |m.triangles| && j < 3
  {
    var t := m.triangles[i];
    assert CornersIn(t, |m.vertices|);
    var i0, i1 := t.vertices[j], t.vertices[Next3(j)];
    var v0, v1 := m.vertices[i0], m.vertices[i1];
    var p := CalculateError(v0, v1, geom).point;
    && t.error[j] < threshold
    && v0.isBorder == v1.isBorder
    && !FlipFound(m, v0, i1, p, t.borderFactor, geom)
    && !FlipFound(m, v1, i0, p, t.borderFactor, geom)
  }

  /** `r` is `m` after edge `j` of triangle `i` collapsed onto its first
      corner `i0` (`CollapseEffect`), and every triangle that `isFlipped`
      found on the edge (from either end) is a tombstone. */
  predicate EdgeCollapsed(m: Mesh, r: Mesh, i: nat, j: nat, geom: Geometry)
    requires WF(m) && i < |m.triangles| && j < 3 && |r.vertices| == |m.vertices| && |r.triangles| == |m.triangles|
  {
    var t := m.triangles[i];
    assert CornersIn(t, |m.vertices|);
    var i0, i1 := t.vertices[j], t.vertices[Next3(j)];
    var v0, v1 := m.vertices[i0], m.vertices[i1];
    && CollapseEffect(m, r, i0, i1, geom)
    && (forall k | 0 <= k < v0.triangleCount ::
          Shares(m, v0, k, i1, t.borderFactor) ==> r.triangles[Entry(m, v0, k).triangleId].deleted)
    && (forall k | 0 <= k < v1.triangleCount ::
          Shares(m, v1, k, i0, t.borderFactor) ==> r.triangles[Entry(m, v1, k).triangleId].deleted)
    && var d0, d1 := SharedMarks(m, v0, i1, t.borderFactor), SharedMarks(m, v1, i0, t.borderFactor);
       && r.references[|m.references|..] == Block(m, i0, i1, d0, d1)
       && forall k | 0 <= k < |r.triangles| :: r.triangles[k].deleted == !LiveAfterBoth(m, i0, i1, d0, d1, k)
  }

  /** The marks an accepting `isFlipped` leaves for `v`'s slice: entry `k`
      is marked exactly when it shares the edge to `index2`. */
  function SharedMarks(m: Mesh, v: Vertex, index2: nat, borderFactor: real): (d: seq<bool>)
    requires Linked(m) && SliceIn(v, |m.references|)
    ensures |d| == v.triangleCount
    ensures forall k | 0 <= k < |d| :: d[k] == Shares(m, v, k, index2, borderFactor)
  {
    seq(v.triangleCount, k requires 0 <= k < v.triangleCount => Shares(m, v, k, index2, borderFactor))
  }

  /** Pushes and liveness read the marks only at the slice's own entries. */
  lemma {:induction false} PushesByMarks(ts: seq<Triangle>, s: seq<Ref>, d: seq<bool>, d': seq<bool>, n: nat)
    requires n <= |s|
    requires forall i | 0 <= i < |s| :: Flag(d, i) == Flag(d', i)
    ensures Pushes(ts, s, d, n) == Pushes(ts, s, d', n)
    ensures forall k :: LiveAfter(ts, s, d, k, n) == LiveAfter(ts, s, d', k, n)
  {
    if n > 0 {
      PushesByMarks(ts, s, d, d', n - 1);
    }
  }

  /** A collapse run with the marks `isFlipped` returned for both ends of
      edge `j` of triangle `i` has the effect `EdgeCollapsed` states. */
  lemma CollapsedEdge(m: Mesh, r: Mesh, i: nat, j: nat, d0: seq<bool>, d1: seq<bool>, geom: Geometry)
    requires WF(m) && i < |m.triangles| && j < 3 && |r.vertices| == |m.vertices| && |r.triangles| == |m.triangles|
    requires CornersIn(m.triangles[i], |m.vertices|)
    requires var t := m.triangles[i];
             var i0, i1 := t.vertices[j], t.vertices[Next3(j)];
             var v0, v1 := m.vertices[i0], m.vertices[i1];
             && CollapseEffect(m, r, i0, i1, geom)
             && Tombstoned(m, r, v0, d0) && Tombstoned(m, r, v1, d1)
             && |d0| == v0.triangleCount && |d1| == v1.triangleCount
             && (forall k | 0 <= k < v0.triangleCount :: d0[k] == Shares(m, v0, k, i1, t.borderFactor))
             && (forall k | 0 <= k < v1.triangleCount :: d1[k] == Shares(m, v1, k, i0, t.borderFactor))
             && r.references[|m.references|..] == Block(m, i0, i1, d0, d1)
             && forall k | 0 <= k < |r.triangles| :: r.triangles[k].deleted == !LiveAfterBoth(m, i0, i1, d0, d1, k)
    ensures EdgeCollapsed(m, r, i, j, geom)
  {
    var t := m.triangles[i];
    var i0, i1 := t.vertices[j], t.vertices[Next3(j)];
    var v0, v1 := m.vertices[i0], m.vertices[i1];
    BlockByMarks(m, i0, i1, d0, d1, SharedMarks(m, v0, i1, t.borderFactor), SharedMarks(m, v1, i0, t.borderFactor));
  }

  /** Marks that agree on both slices give the same block and the same
      tombstones. */
  lemma BlockByMarks(m: Mesh, i0: nat, i1: nat, d0: seq<bool>, d1: seq<bool>, e0: seq<bool>, e1: seq<bool>)
    requires Linked(m) && i0 < |m.vertices| && i1 < |m.vertices|
    requires forall i | 0 <= i < m.vertices[i0].triangleCount :: Flag(d0, i) == Flag(e0, i)
    requires forall i | 0 <= i < m.vertices[i1].triangleCount :: Flag(d1, i) == Flag(e1, i)
    ensures Block(m, i0, i1, d0, d1) == Block(m, i0, i1, e0, e1)
    ensures forall k :: LiveAfterBoth(m, i0, i1, d0, d1, k) == LiveAfterBoth(m, i0, i1, e0, e1, k)
  {
    var s0, s1 := Slice(m, m.vertices[i0]), Slice(m, m.vertices[i1]);
    PushesByMarks(m.triangles, s0, d0, e0, |s0|);
    assert MarkedOff(m.triangles, s0, d0) == MarkedOff(m.triangles, s0, e0);
    var marked := MarkedOff(m.triangles, s0, d0);
    PushesByMarks(marked, s1, d1, e1, |s1|);
  }

  /** One round of the edge loop: edge `j` of triangle `i` collapses exactly
      when it is accepted. */
  method TryEdge(m: Mesh, i: nat, j: nat, threshold: real, deletedTriangles: nat, geom: Geometry)
    returns (r: Mesh, newDeleted: nat, collapsed: bool)
    requires WF(m) && i < |m.triangles| && j < 3
    ensures WF(r) && |r.vertices| == |m.vertices| && |r.triangles| == |m.triangles|
    ensures newDeleted + Tombstones(m.triangles) == deletedTriangles + Tombstones(r.triangles)
    ensures collapsed <==> EdgeAccepted(m, i, j, threshold, geom)
    ensures !collapsed ==> r == m && newDeleted == deletedTriangles
    ensures collapsed ==> EdgeCollapsed(m, r, i, j, geom)
  {
    r, newDeleted, collapsed := m, deletedTriangles, false;
    var t := m.triangles[i];
    assert CornersIn(t, |m.vertices|);
    if t.error[j] < threshold {
      var i0, i1 := t.vertices[j], t.vertices[Next3(j)];
      var v0, v1 := m.vertices[i0], m.vertices[i1];
      if v0.isBorder == v1.isBorder {
        var cp := CalculateError(v0, v1, geom);
        var flipped0, deleted0 := IsFlipped(m, v0, i1, cp.point, t.borderFactor, geom);
        if !flipped0 {
          var flipped1, deleted1 := IsFlipped(m, v1, i0, cp.point, t.borderFactor, geom);
          if !flipped1 {
            r, newDeleted := CollapseEdge(m, i0, i1, deleted0, deleted1, deletedTriangles, geom);
            CollapsedEdge(m, r, i, j, deleted0, deleted1, geom);
            collapsed := true;
          }
        }
      }
    }
  }

  datatype Outcome = Kept | Collapsed(edge: nat)

  /** The body of the pass over triangle `i`: unless the triangle is
      skipped, the first accepted edge in corner order collapses onto its
      first corner. */
  method ProcessTriangle(m: Mesh, i: nat, threshold: real, deletedTriangles: nat, geom: Geometry)
    returns (r: Mesh, newDeleted: nat, outcome: Outcome)
    requires WF(m) && i < |m.triangles|
    ensures WF(r) && |r.vertices| == |m.vertices| && |r.triangles| == |m.triangles|
    ensures newDeleted + Tombstones(m.triangles) == deletedTriangles + Tombstones(r.triangles)
    ensures outcome == Kept <==>
              Skips(m.triangles[i], threshold) || forall j | 0 <= j < 3 :: !EdgeAccepted(m, i, j, threshold, geom)
    ensures outcome == Kept ==> r == m && newDeleted == deletedTriangles
    ensures outcome.Collapsed? ==>
              && outcome.edge < 3
              && EdgeAccepted(m, i, outcome.edge, threshold, geom)
              && (forall j | 0 <= j < outcome.edge :: !EdgeAccepted(m, i, j, threshold, geom))
              && EdgeCollapsed(m, r, i, outcome.edge, geom)
  {
    r, newDeleted, outcome := m, deletedTriangles, Kept;
    var t := m.triangles[i];
    if t.error[3] > threshold || t.deleted || t.isDirty {
      return;
    }
    r, newDeleted, outcome := TryEdgesFrom(m, i, 0, threshold, deletedTriangles, geom);
  }

  /** The edges `j` to 2 of triangle `i`, tried in order until one
      collapses, given that none before `j` was accepted. */
  method TryEdgesFrom(m: Mesh, i: nat, j: nat, threshold: real, deletedTriangles: nat, geom: Geometry)
    returns (r: Mesh, newDeleted: nat, outcome: Outcome)
    requires WF(m) && i < |m.triangles| && j <= 3
    requires forall j' | 0 <= j' < j :: !EdgeAccepted(m, i, j', threshold, geom)
    ensures WF(r) && |r.vertices| == |m.vertices| && |r.triangles| == |m.triangles|
    ensures newDeleted + Tombstones(m.triangles) == deletedTriangles + Tombstones(r.triangles)
    ensures outcome == Kept <==> forall j' | 0 <= j' < 3 :: !EdgeAccepted(m, i, j', threshold, geom)
    ensures outcome == Kept ==> r == m && newDeleted == deletedTriangles
    ensures outcome.Collapsed? ==>
              && j <= outcome.edge < 3
              && EdgeAccepted(m, i, outcome.edge, threshold, geom)
              && (forall j' | 0 <= j' < outcome.edge :: !EdgeAccepted(m, i, j', threshold, geom))
              && EdgeCollapsed(m, r, i, outcome.edge, geom)
    decreases 3 - j
  {
    if j == 3 {
      return m, deletedTriangles, Kept;
    }
    var r1, d1, collapsed := TryEdge(m, i, j, threshold, deletedTriangles, geom);
    if collapsed {
      r, newDeleted, outcome := r1, d1, Collapsed(j);
    } else {
      r, newDeleted, outcome := TryEdgesFrom(m, i, j + 1, threshold, deletedTriangles, geom);
    }
  }

  /** The edge the pass body collapses in triangle `i`: the first accepted
      one in corner order, or 3 when none is. */
  function FirstAccepted(m: Mesh, i: nat, threshold: real, geom: Geometry): (j: nat)
    requires WF(m) && i < |m.triangles|
    ensures j <= 3
    ensures j < 3 ==> EdgeAccepted(m, i, j, threshold, geom)
    ensures forall j' | 0 <= j' < j :: !EdgeAccepted(m, i, j', threshold, geom)
  {
    if EdgeAccepted(m, i, 0, threshold, geom) then 0
    else if EdgeAccepted(m, i, 1, threshold, geom) then 1
    else if EdgeAccepted(m, i, 2, threshold, geom) then 2
    else 3
  }

  /** `r` is what the pass body makes of `m` at triangle `i`: `m` itself when
      the triangle is skipped or has no accepted edge, and otherwise `m`
      after its first accepted edge collapsed. */
  predicate Steps(m: Mesh, r: Mesh, i: nat, threshold: real, geom: Geometry)
    requires WF(m) && i < |m.triangles|
  {
    && WF(r) && |r.vertices| == |m.vertices| && |r.triangles| == |m.triangles|
    && var j := FirstAccepted(m, i, threshold, geom);
       if Skips(m.triangles[i], threshold) || j == 3 then r == m else EdgeCollapsed(m, r, i, j, geom)
  }

  /** Whatever `ProcessTriangle` returns is the step the pass body takes. */
  lemma OutcomeSteps(m: Mesh, r: Mesh, i: nat, threshold: real, outcome: Outcome, geom: Geometry)
    requires WF(m) && i < |m.triangles|
    requires WF(r) && |r.vertices| == |m.vertices| && |r.triangles| == |m.triangles|
    requires outcome == Kept <==>
               Skips(m.triangles[i], threshold) || forall j | 0 <= j < 3 :: !EdgeAccepted(m, i, j, threshold, geom)
    requires outcome == Kept ==> r == m
    requires outcome.Collapsed? ==>
               && outcome.edge < 3
               && EdgeAccepted(m, i, outcome.edge, threshold, geom)
               && (forall j | 0 <= j < outcome.edge :: !EdgeAccepted(m, i, j, threshold, geom))
               && EdgeCollapsed(m, r, i, outcome.edge, geom)
    ensures Steps(m, r, i, threshold, geom)
  {
    var j := FirstAccepted(m, i, threshold, geom);
    if outcome.Collapsed? {
      assert j == outcome.edge;
    }
  }
}
