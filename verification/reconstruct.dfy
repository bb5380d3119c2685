/** `reconstructMesh`: the live triangles and the vertices they use are
    exported as flat position, normal, uv and index arrays, with the used
    vertices renumbered densely in their original order. */
module Reconstruct {
  import opened Vectors
  import opened MeshModel

  /** The arrays handed to the host to build the simplified mesh. */
  datatype Output = Output(positions: seq<real>, normals: seq<real>, uvs: seq<real>, indices: seq<nat>)

  /** Some live triangle has `u` as a corner. */
  predicate Used(ts: seq<Triangle>, u: nat)
  {
    exists k, j | 0 <= k < |ts| && 0 <= j < 3 :: !ts[k].deleted && ts[k].vertices[j] == u
  }

  predicate StrictlyIncreasing(s: seq<nat>)
  {
    forall a, b | 0 <= a < b < |s| :: s[a] < s[b]
  }

  /** The first loops: every vertex is unmarked, then every corner of a live
      triangle is marked, and the live triangles are collected in order. */
  method MarkUsed(n: nat, ts: seq<Triangle>) returns (used: seq<bool>, live: seq<Triangle>)
    requires LiveCornersIn(ts, n)
    ensures |used| == n
    ensures forall u | 0 <= u < n :: used[u] <==> Used(ts, u)
    ensures live == LiveTriangles(ts)
  {
    used := seq(n, _ => false);
    live := [];
    var i := 0;
    while i < |ts|
      invariant 0 <= i <= |ts| && |used| == n
      invariant forall u | 0 <= u < n :: used[u] <==> Used(ts[..i], u)
      invariant live == LiveTriangles(ts[..i])
    {
      assert ts[..i + 1][..i] == ts[..i];
      var t := ts[i];
      if !t.deleted {
        assert CornersIn(t, n);
        used := used[t.vertices[0] := true][t.vertices[1] := true][t.vertices[2] := true];
        live := live + [t];
      }
      MarkStep(ts, i, n, used);
      i := i + 1;
    }
    assert ts[..i] == ts;
  }

  lemma MarkStep(ts: seq<Triangle>, i: nat, n: nat, used: seq<bool>)
    requires i < |ts| && |used| == n && (!ts[i].deleted ==> CornersIn(ts[i], n))
    ensures forall u | 0 <= u < n ::
              Used(ts[..i + 1], u) <==> Used(ts[..i], u) || (!ts[i].deleted && exists j | 0 <= j < 3 :: ts[i].vertices[j] == u)
  {
    var p, q := ts[..i], ts[..i + 1];
    forall u | 0 <= u < n
      ensures Used(q, u) <==> Used(p, u) || (!ts[i].deleted && exists j | 0 <= j < 3 :: ts[i].vertices[j] == u)
    {
      if Used(q, u) {
        var k, j :| 0 <= k < |q| && 0 <= j < 3 && !q[k].deleted && q[k].vertices[j] == u;
        if k < i {
          assert p[k] == q[k];
        }
      }
      if Used(p, u) {
        var k, j :| 0 <= k < |p| && 0 <= j < 3 && !p[k].deleted && p[k].vertices[j] == u;
        assert q[k] == p[k];
      }
      if !ts[i].deleted && exists j | 0 <= j < 3 :: ts[i].vertices[j] == u {
        var j :| 0 <= j < 3 && ts[i].vertices[j] == u;
        assert q[i] == ts[i];
      }
    }
  }

  /** The compaction loop: the used vertices, in index order, are numbered
      `0, 1, ...`; vertex `order[d]` hands its position, normal and uv to
      the record at `d` (never ahead of the scan, so nothing is read after
      it is overwritten), and `remap[u]` is `u`'s new number. */
  method CompactVertices(vs0: seq<Vertex>, used: seq<bool>)
    returns (vs: seq<Vertex>, order: seq<nat>, remap: seq<nat>)
    requires |used| == |vs0|
    ensures |vs| == |vs0| && |order| <= |vs0| && |remap| == |vs0|
    ensures StrictlyIncreasing(order)
    ensures forall d | 0 <= d < |order| :: order[d] < |vs0| && used[order[d]]
    ensures forall u | 0 <= u < |vs0| && used[u] :: remap[u] < |order| && order[remap[u]] == u
    ensures forall d | 0 <= d < |order| ::
              && vs[d].position == vs0[order[d]].position
              && vs[d].normal == vs0[order[d]].normal
              && vs[d].uv == vs0[order[d]].uv
  {
    vs, order, remap := vs0, [], seq(|vs0|, _ => 0);
    var i := 0;
    while i < |vs0|
      invariant 0 <= i <= |vs0| && |vs| == |vs0| && |remap| == |vs0| && |order| <= i
      invariant StrictlyIncreasing(order)
      invariant forall d | 0 <= d < |order| :: order[d] < i && used[order[d]]
      invariant forall u | 0 <= u < i && used[u] :: remap[u] < |order| && order[remap[u]] == u
      invariant forall d | 0 <= d < |order| ::
                  && vs[d].position == vs0[order[d]].position
                  && vs[d].normal == vs0[order[d]].normal
                  && vs[d].uv == vs0[order[d]].uv
      invariant forall k | i <= k < |vs| :: vs[k] == vs0[k]
    {
      if used[i] {
        var dst := |order|;
        remap := remap[i := dst];
        vs := vs[dst := vs[dst].(position := vs[i].position, normal := vs[i].normal, uv := vs[i].uv)];
        order := order + [i];
      }
      i := i + 1;
    }
  }

  /** The corners of the live triangles, renumbered and flattened. */
  method RemapCorners(live: seq<Triangle>, remap: seq<nat>) returns (indices: seq<nat>)
    requires forall a, j | 0 <= a < |live| && 0 <= j < 3 :: live[a].vertices[j] < |remap|
    ensures |indices| == 3 * |live|
    ensures forall a, j | 0 <= a < |live| && 0 <= j < 3 :: indices[3 * a + j] == remap[live[a].vertices[j]]
  {
    indices := [];
    var a := 0;
    while a < |live|
      invariant 0 <= a <= |live| && |indices| == 3 * a
      invariant forall b, j | 0 <= b < a && 0 <= j < 3 :: indices[3 * b + j] == remap[live[b].vertices[j]]
    {
      var t := live[a];
      indices := indices + [remap[t.vertices[0]], remap[t.vertices[1]], remap[t.vertices[2]]];
      a := a + 1;
    }
  }

  /** The export loop over the first `n` records. */
  method ExportVertices(vs: seq<Vertex>, n: nat) returns (positions: seq<real>, normals: seq<real>, uvs: seq<real>)
    requires n <= |vs|
    ensures |positions| == 3 * n && |normals| == 3 * n && |uvs| == 2 * n
    ensures forall d | 0 <= d < n ::
              && positions[3 * d] == vs[d].position.x && positions[3 * d + 1] == vs[d].position.y
              && positions[3 * d + 2] == vs[d].position.z
              && normals[3 * d] == vs[d].normal.x && normals[3 * d + 1] == vs[d].normal.y
              && normals[3 * d + 2] == vs[d].normal.z
              && uvs[2 * d] == vs[d].uv.x && uvs[2 * d + 1] == vs[d].uv.y
  {
    positions, normals, uvs := [], [], [];
    var d := 0;
    while d < n
      invariant 0 <= d <= n && |positions| == 3 * d && |normals| == 3 * d && |uvs| == 2 * d
      invariant forall e | 0 <= e < d ::
                  && positions[3 * e] == vs[e].position.x && positions[3 * e + 1] == vs[e].position.y
                  && positions[3 * e + 2] == vs[e].position.z
                  && normals[3 * e] == vs[e].normal.x && normals[3 * e + 1] == vs[e].normal.y
                  && normals[3 * e + 2] == vs[e].normal.z
                  && uvs[2 * e] == vs[e].uv.x && uvs[2 * e + 1] == vs[e].uv.y
    {
      var v := vs[d];
      positions := positions + [v.position.x, v.position.y, v.position.z];
      normals := normals + [v.normal.x, v.normal.y, v.normal.z];
      uvs := uvs + [v.uv.x, v.uv.y];
      d := d + 1;
    }
  }

  /** The exported mesh: vertex `d` of the output is the `d`-th used vertex
      of the working set (so no vertex is dropped or duplicated), and the
      output triangles are the live triangles in order, each corner
      renumbered to the output number of the vertex it named. */
  method ReconstructMesh(m: Mesh) returns (out: Output, order: seq<nat>)
    requires LiveCornersIn(m.triangles, |m.vertices|)
    ensures StrictlyIncreasing(order)
    ensures forall d | 0 <= d < |order| :: order[d] < |m.vertices| && Used(m.triangles, order[d])
    ensures forall u | 0 <= u < |m.vertices| && Used(m.triangles, u) :: u in order
    ensures |out.positions| == 3 * |order| && |out.normals| == 3 * |order| && |out.uvs| == 2 * |order|
    ensures forall d | 0 <= d < |order| ::
              var v := m.vertices[order[d]];
              && out.positions[3 * d] == v.position.x && out.positions[3 * d + 1] == v.position.y
              && out.positions[3 * d + 2] == v.position.z
              && out.normals[3 * d] == v.normal.x && out.normals[3 * d + 1] == v.normal.y
              && out.normals[3 * d + 2] == v.normal.z
              && out.uvs[2 * d] == v.uv.x && out.uvs[2 * d + 1] == v.uv.y
    ensures |out.indices| == 3 * Live(m.triangles)
    ensures forall x | 0 <= x < |out.indices| :: out.indices[x] < |order|
    ensures forall a, j | 0 <= a < Live(m.triangles) && 0 <= j < 3 ::
              out.indices[3 * a + j] < |order| && order[out.indices[3 * a + j]] == LiveTriangles(m.triangles)[a].vertices[j]
  {
    var used, live := MarkUsed(|m.vertices|, m.triangles);
    var vs, remap;
    vs, order, remap := CompactVertices(m.vertices, used);
    LiveCornersUsed(m.triangles, |m.vertices|, used);
    var indices := RemapCorners(live, remap);
    var positions, normals, uvs := ExportVertices(vs, |order|);
    out := Output(positions, normals, uvs, indices);
    forall u | 0 <= u < |m.vertices| && Used(m.triangles, u)
      ensures u in order
    {
      assert order[remap[u]] == u;
    }
    forall x | 0 <= x < |indices|
      ensures indices[x] < |order|
    {
      var a, j := x / 3, x % 3;
      assert indices[3 * a + j] == remap[live[a].vertices[j]];
    }
  }

  /** The corners of the live triangles are all in range and all marked. */
  lemma LiveCornersUsed(ts: seq<Triangle>, n: nat, used: seq<bool>)
    requires LiveCornersIn(ts, n) && |used| == n
    requires forall u | 0 <= u < n :: used[u] <==> Used(ts, u)
    ensures forall a, j | 0 <= a < |LiveTriangles(ts)| && 0 <= j < 3 ::
              LiveTriangles(ts)[a].vertices[j] < n && used[LiveTriangles(ts)[a].vertices[j]]
  {
    var live := LiveTriangles(ts);
    forall a, j | 0 <= a < |live| && 0 <= j < 3
      ensures live[a].vertices[j] < n && used[live[a].vertices[j]]
    {
      assert live[a] in ts;
      var k :| 0 <= k < |ts| && ts[k] == live[a];
      assert !ts[k].deleted && CornersIn(ts[k], n);
      assert Used(ts, live[a].vertices[j]);
    }
  }
}
