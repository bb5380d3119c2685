/** `updateMesh`: drop tombstoned triangles and rebuild the vertex-to-triangle
    reference table by a counting sort, so that each vertex's slice lists the
    corners that name it, in triangle order. */
module ReferenceTable {
  import opened MeshModel
  import opened Border

  // ---------------------------------------------------------------------
  // Reference definition of the table
  // ---------------------------------------------------------------------

  /** The references corners `0 .. j-1` of triangle `i` (held in `t`)
      contribute to vertex `v`. */
  function CornerRefs(t: Triangle, i: nat, j: nat, v: nat): seq<Ref>
    requires j <= 3
  {
    if j == 0 then []
    else CornerRefs(t, i, j - 1, v) + (if t.vertices[j - 1] == v then [Ref(j - 1, i)] else [])
  }

  /** The references triangles `0 .. i-1` contribute to vertex `v`. */
  function RefsBefore(ts: seq<Triangle>, i: nat, v: nat): seq<Ref>
    requires i <= |ts|
  {
    if i == 0 then [] else RefsBefore(ts, i - 1, v) + CornerRefs(ts[i - 1], i - 1, 3, v)
  }

  /** What vertex `v`'s slice of the rebuilt table holds. */
  function RefsOf(ts: seq<Triangle>, v: nat): seq<Ref>
  {
    RefsBefore(ts, |ts|, v)
  }

  /** Where vertex `v`'s slice starts: the slices of vertices `0 .. v-1` come
      first, in vertex order. */
  function SliceStart(ts: seq<Triangle>, v: nat): nat
  {
    if v == 0 then 0 else SliceStart(ts, v - 1) + |RefsOf(ts, v - 1)|
  }

  /** Table order: by triangle, then by corner slot. */
  predicate Before(a: Ref, b: Ref)
  {
    a.triangleId < b.triangleId || (a.triangleId == b.triangleId && a.vertexId < b.vertexId)
  }

  /** A vertex's slice holds exactly the (triangle, corner) pairs whose corner
      names it, each once, in table order. */
  lemma RefsOfCharacterised(ts: seq<Triangle>, v: nat)
    ensures forall r :: r in RefsOf(ts, v) <==>
              RefOk(r, |ts|) && ts[r.triangleId].vertices[r.vertexId] == v
    ensures forall a, b | 0 <= a < b < |RefsOf(ts, v)| :: Before(RefsOf(ts, v)[a], RefsOf(ts, v)[b])
  {
    RefsBeforeFacts(ts, |ts|, v);
  }

  lemma {:induction false} CornerRefsFacts(t: Triangle, i: nat, j: nat, v: nat)
    requires j <= 3
    ensures forall r :: r in CornerRefs(t, i, j, v) <==>
              r.triangleId == i && r.vertexId < j && t.vertices[r.vertexId] == v
    ensures forall a, b | 0 <= a < b < |CornerRefs(t, i, j, v)| ::
              CornerRefs(t, i, j, v)[a].vertexId < CornerRefs(t, i, j, v)[b].vertexId
  {
    if j > 0 {
      CornerRefsFacts(t, i, j - 1, v);
    }
  }

  lemma {:induction false} RefsBeforeFacts(ts: seq<Triangle>, i: nat, v: nat)
    requires i <= |ts|
    ensures forall r :: r in RefsBefore(ts, i, v) <==>
              r.triangleId < i && r.vertexId < 3 && ts[r.triangleId].vertices[r.vertexId] == v
    ensures forall a, b | 0 <= a < b < |RefsBefore(ts, i, v)| ::
              Before(RefsBefore(ts, i, v)[a], RefsBefore(ts, i, v)[b])
  {
    if i > 0 {
      var front := RefsBefore(ts, i - 1, v);
      var back := CornerRefs(ts[i - 1], i - 1, 3, v);
      RefsBeforeFacts(ts, i - 1, v);
      CornerRefsFacts(ts[i - 1], i - 1, 3, v);
      var all := front + back;
      forall a, b | 0 <= a < b < |all|
        ensures Before(all[a], all[b])
      {
        if b < |front| {
          assert all[a] == front[a] && all[b] == front[b];
        } else if a >= |front| {
          assert all[a] == back[a - |front|] && all[b] == back[b - |front|];
        } else {
          assert all[a] == front[a] && front[a] in front;
          assert all[b] == back[b - |front|] && back[b - |front|] in back;
        }
      }
    }
  }

  // ---------------------------------------------------------------------
  // Sizes: the slices are consecutive and tile the whole table
  // ---------------------------------------------------------------------

  lemma {:induction false} CornerRefsShorter(t: Triangle, i: nat, j: nat, v: nat)
    requires j <= 3
    ensures |CornerRefs(t, i, j, v)| <= |CornerRefs(t, i, 3, v)|
    decreases 3 - j
  {
    if j < 3 {
      CornerRefsShorter(t, i, j + 1, v);
    }
  }

  lemma {:induction false} RefsBeforeShorter(ts: seq<Triangle>, i: nat, k: nat, v: nat)
    requires i <= k <= |ts|
    ensures |RefsBefore(ts, i, v)| <= |RefsBefore(ts, k, v)|
  {
    if i < k {
      RefsBeforeShorter(ts, i, k - 1, v);
    }
  }

  /** While triangle `i` is being filled, vertex `v`'s part of the table so far
      still fits inside its final slice. */
  lemma PartialFits(ts: seq<Triangle>, i: nat, j: nat, v: nat)
    requires i < |ts| && j <= 3
    ensures |RefsBefore(ts, i, v) + CornerRefs(ts[i], i, j, v)| <= |RefsOf(ts, v)|
  {
    CornerRefsShorter(ts[i], i, j, v);
    RefsBeforeShorter(ts, i + 1, |ts|, v);
  }

  /** Earlier vertices' slices end before later vertices' slices begin. */
  lemma {:induction false} SlicesOrdered(ts: seq<Triangle>, u: nat, v: nat)
    requires u < v
    ensures SliceStart(ts, u) + |RefsOf(ts, u)| <= SliceStart(ts, v)
  {
    if u + 1 < v {
      SlicesOrdered(ts, u, v - 1);
    }
  }

  /** The corner ids of triangles `0 .. i-1`, flattened. */
  function CornerList(ts: seq<Triangle>, i: nat): (s: seq<nat>)
    requires i <= |ts|
    ensures |s| == 3 * i
  {
    if i == 0 then [] else CornerList(ts, i - 1) + ts[i - 1].vertices
  }

  /** How often `x` occurs in `s`. */
  function Count(s: seq<nat>, x: nat): nat
  {
    if s == [] then 0 else Count(s[..|s| - 1], x) + (if s[|s| - 1] == x then 1 else 0)
  }

  lemma CountAppend(s: seq<nat>, y: nat, x: nat)
    ensures Count(s + [y], x) == Count(s, x) + (if y == x then 1 else 0)
  {
    assert (s + [y])[..|s|] == s;
  }

  lemma {:induction false} CountConcat(a: seq<nat>, b: seq<nat>, x: nat)
    ensures Count(a + b, x) == Count(a, x) + Count(b, x)
  {
    if b != [] {
      var n := |b| - 1;
      assert a + b == (a + b[..n]) + [b[n]];
      assert b == b[..n] + [b[n]];
      CountConcat(a, b[..n], x);
      CountAppend(a + b[..n], b[n], x);
      CountAppend(b[..n], b[n], x);
    } else {
      assert a + b == a;
    }
  }

  lemma {:induction false} CornerRefsCount(t: Triangle, i: nat, j: nat, v: nat)
    requires j <= 3
    ensures |CornerRefs(t, i, j, v)| == Count(t.vertices[..j], v)
  {
    if j > 0 {
      CornerRefsCount(t, i, j - 1, v);
      assert t.vertices[..j][..j - 1] == t.vertices[..j - 1];
    }
  }

  lemma TriangleRefsCount(t: Triangle, i: nat, v: nat)
    ensures |CornerRefs(t, i, 3, v)| == Count(t.vertices, v)
  {
    CornerRefsCount(t, i, 3, v);
    assert t.vertices[..3] == t.vertices;
  }

  lemma {:induction false} RefsBeforeCount(ts: seq<Triangle>, i: nat, v: nat)
    requires i <= |ts|
    ensures |RefsBefore(ts, i, v)| == Count(CornerList(ts, i), v)
  {
    if i > 0 {
      var t := ts[i - 1];
      RefsBeforeCount(ts, i - 1, v);
      TriangleRefsCount(t, i - 1, v);
      CountConcat(CornerList(ts, i - 1), t.vertices, v);
    }
  }

  /** How many entries of `s` are below `n`. */
  function Occurrences(s: seq<nat>, n: nat): nat
  {
    if n == 0 then 0 else Occurrences(s, n - 1) + Count(s, n - 1)
  }

  lemma {:induction false} OccurrencesAppend(s: seq<nat>, x: nat, n: nat)
    ensures Occurrences(s + [x], n) == Occurrences(s, n) + (if x < n then 1 else 0)
  {
    if n > 0 {
      OccurrencesAppend(s, x, n - 1);
      CountAppend(s, x, n - 1);
    }
  }

  lemma {:induction false} OccurrencesAll(s: seq<nat>, n: nat)
    requires forall k | 0 <= k < |s| :: s[k] < n
    ensures Occurrences(s, n) == |s|
  {
    if s == [] {
      OccurrencesOfEmpty(n);
    } else {
      var k := |s| - 1;
      assert s == s[..k] + [s[k]];
      OccurrencesAll(s[..k], n);
      OccurrencesAppend(s[..k], s[k], n);
    }
  }

  lemma {:induction false} OccurrencesOfEmpty(n: nat)
    ensures Occurrences([], n) == 0
  {
    if n > 0 {
      OccurrencesOfEmpty(n - 1);
    }
  }

  lemma {:induction false} SliceStartCounts(ts: seq<Triangle>, v: nat)
    ensures SliceStart(ts, v) == Occurrences(CornerList(ts, |ts|), v)
  {
    if v > 0 {
      SliceStartCounts(ts, v - 1);
      RefsBeforeCount(ts, |ts|, v - 1);
    }
  }

  lemma {:induction false} CornerListBounded(ts: seq<Triangle>, i: nat, n: nat)
    requires i <= |ts|
    requires forall k | 0 <= k < |ts| :: CornersIn(ts[k], n)
    ensures forall k | 0 <= k < |CornerList(ts, i)| :: CornerList(ts, i)[k] < n
  {
    if i > 0 {
      CornerListBounded(ts, i - 1, n);
      assert CornersIn(ts[i - 1], n);
    }
  }

  /** When every corner names one of `n` vertices, the `n` slices together
      take up exactly three references per triangle. */
  lemma SlicesCoverTable(ts: seq<Triangle>, n: nat)
    requires forall k | 0 <= k < |ts| :: CornersIn(ts[k], n)
    ensures SliceStart(ts, n) == 3 * |ts|
  {
    SliceStartCounts(ts, n);
    CornerListBounded(ts, |ts|, n);
    OccurrencesAll(CornerList(ts, |ts|), n);
  }

  /** Every slice ends inside the table. */
  lemma SlicesWithinTable(ts: seq<Triangle>, n: nat)
    requires forall k | 0 <= k < |ts| :: CornersIn(ts[k], n)
    ensures forall v | 0 <= v < n :: SliceStart(ts, v) + |RefsOf(ts, v)| <= 3 * |ts|
  {
    SlicesCoverTable(ts, n);
    forall v | 0 <= v < n
      ensures SliceStart(ts, v) + |RefsOf(ts, v)| <= 3 * |ts|
    {
      if v + 1 < n {
        SlicesOrdered(ts, v, n - 1);
      }
    }
  }

  /** Every position before the end of vertex `n-1`'s slice lies in the slice
      of some vertex below `n`: the rebuilt table has no holes. */
  lemma {:induction false} SlotOwner(ts: seq<Triangle>, n: nat, k: nat) returns (v: nat)
    requires k < SliceStart(ts, n)
    ensures v < n && SliceStart(ts, v) <= k < SliceStart(ts, v) + |RefsOf(ts, v)|
  {
    if k < SliceStart(ts, n - 1) {
      v := SlotOwner(ts, n - 1, k);
    } else {
      v := n - 1;
    }
  }

  // ---------------------------------------------------------------------
  // The counting sort
  // ---------------------------------------------------------------------

  /** The filter of `updateMesh(false)`: keep the live triangles in order. */
  method CompactTriangles(ts: seq<Triangle>) returns (r: seq<Triangle>)
    ensures r == LiveTriangles(ts)
  {
    r := [];
    var i := 0;
    while i < |ts|
      invariant 0 <= i <= |ts|
      invariant r == LiveTriangles(ts[..i])
    {
      assert ts[..i + 1][..i] == ts[..i];
      if !ts[i].deleted {
        r := r + [ts[i]];
      }
      i := i + 1;
    }
    assert ts[..i] == ts;
  }

  /** Clear every slice, then count how many corners name each vertex. */
  method CountCorners(vs: seq<Vertex>, ts: seq<Triangle>) returns (r: seq<Vertex>)
    requires forall k | 0 <= k < |ts| :: CornersIn(ts[k], |vs|)
    ensures |r| == |vs|
    ensures forall v | 0 <= v < |r| :: SameButSlice(r[v], vs[v])
    ensures forall v | 0 <= v < |r| :: r[v].triangleStart == 0 && r[v].triangleCount == |RefsOf(ts, v)|
  {
    r := vs;
    var i := 0;
    while i < |r|
      invariant 0 <= i <= |r| == |vs|
      invariant forall v | 0 <= v < |r| :: SameButSlice(r[v], vs[v])
      invariant forall v | 0 <= v < i :: r[v].triangleStart == 0 && r[v].triangleCount == 0
    {
      r := r[i := r[i].(triangleCount := 0, triangleStart := 0)];
      i := i + 1;
    }
    i := 0;
    while i < |ts|
      invariant 0 <= i <= |ts| && |r| == |vs|
      invariant forall v | 0 <= v < |r| :: SameButSlice(r[v], vs[v])
      invariant forall v | 0 <= v < |r| :: r[v].triangleStart == 0 && r[v].triangleCount == |RefsBefore(ts, i, v)|
    {
      var t := ts[i];
      assert CornersIn(t, |vs|);
      var j := 0;
      while j < 3
        invariant 0 <= j <= 3 && |r| == |vs|
        invariant forall v | 0 <= v < |r| :: SameButSlice(r[v], vs[v])
        invariant forall v | 0 <= v < |r| ::
                    r[v].triangleStart == 0 && r[v].triangleCount == |RefsBefore(ts, i, v) + CornerRefs(t, i, j, v)|
      {
        var v := t.vertices[j];
        r := r[v := r[v].(triangleCount := r[v].triangleCount + 1)];
        j := j + 1;
      }
      i := i + 1;
    }
  }

  /** The sum of the counts of vertices `0 .. v-1`. */
  function CountsBefore(vs: seq<Vertex>, v: nat): nat
    requires v <= |vs|
  {
    if v == 0 then 0 else CountsBefore(vs, v - 1) + vs[v - 1].triangleCount
  }

  /** Once every count is the size of the vertex's slice, the running sum
      of the counts is where the slice starts. */
  lemma {:induction false} CountsBeforeIsStart(vs: seq<Vertex>, ts: seq<Triangle>, v: nat)
    requires v <= |vs|
    requires forall u | 0 <= u < |vs| :: vs[u].triangleCount == |RefsOf(ts, u)|
    ensures CountsBefore(vs, v) == SliceStart(ts, v)
  {
    if v > 0 {
      CountsBeforeIsStart(vs, ts, v - 1);
    }
  }

  /** The running-sum pass: each slice starts where the previous one ends,
      and the counts are cleared for the fill pass. */
  method AssignSliceStarts(vs: seq<Vertex>, ts: seq<Triangle>) returns (r: seq<Vertex>)
    requires forall v | 0 <= v < |vs| :: vs[v].triangleCount == |RefsOf(ts, v)|
    ensures |r| == |vs|
    ensures forall v | 0 <= v < |r| :: SameButSlice(r[v], vs[v])
    ensures forall v {:trigger r[v]} | 0 <= v < |r| :: r[v].triangleStart == SliceStart(ts, v) && r[v].triangleCount == 0
  {
    r := RunningSum(vs);
    forall v | 0 <= v < |r|
      ensures r[v].triangleStart == SliceStart(ts, v)
    {
      CountsBeforeIsStart(vs, ts, v);
    }
  }

  /** The loop of the running-sum pass over the counts alone: `starts[v]` is
      the running total before vertex `v`. */
  method RunningSum(vs: seq<Vertex>) returns (r: seq<Vertex>)
    ensures |r| == |vs|
    ensures forall v | 0 <= v < |r| :: SameButSlice(r[v], vs[v])
    ensures forall v | 0 <= v < |r| :: r[v].triangleStart == CountsBefore(vs, v) && r[v].triangleCount == 0
  {
    var starts: seq<nat> := [];
    var tStart := 0;
    var i := 0;
    while i < |vs|
      invariant 0 <= i <= |vs| && |starts| == i
      invariant tStart == CountsBefore(vs, i)
      invariant forall v {:trigger starts[v]} | 0 <= v < i :: starts[v] == CountsBefore(vs, v)
    {
      starts := starts + [tStart];
      tStart := tStart + vs[i].triangleCount;
      i := i + 1;
    }
    r := seq(|vs|, v requires 0 <= v < |vs| => vs[v].(triangleStart := starts[v], triangleCount := 0));
  }

  lemma UpdateOutside(s: seq<Ref>, p: nat, x: Ref, a: nat, b: nat)
    requires p < |s| && a <= b <= |s| && (p < a || b <= p)
    ensures s[p := x][a..b] == s[a..b]
  {
  }

  lemma UpdateAtEnd(s: seq<Ref>, p: nat, x: Ref, a: nat)
    requires a <= p < |s|
    ensures s[p := x][a..p + 1] == s[a..p] + [x]
  {
  }

  /** Vertex `v`'s part of the table once the corners of triangle `i` before
      corner `j` have been placed. */
  function Placed(ts: seq<Triangle>, i: nat, j: nat, v: nat): seq<Ref>
    requires i < |ts| && j <= 3
  {
    RefsBefore(ts, i, v) + CornerRefs(ts[i], i, j, v)
  }

  lemma PlacedStart(ts: seq<Triangle>, i: nat, v: nat)
    requires i < |ts|
    ensures Placed(ts, i, 0, v) == RefsBefore(ts, i, v)
    ensures Placed(ts, i, 3, v) == RefsBefore(ts, i + 1, v)
  {
    assert RefsBefore(ts, i, v) + [] == RefsBefore(ts, i, v);
  }

  lemma PlacedStep(ts: seq<Triangle>, i: nat, j: nat, v: nat)
    requires i < |ts| && j < 3
    ensures ts[i].vertices[j] == v ==> Placed(ts, i, j + 1, v) == Placed(ts, i, j, v) + [Ref(j, i)]
    ensures ts[i].vertices[j] != v ==> Placed(ts, i, j + 1, v) == Placed(ts, i, j, v)
  {
    var a, b := RefsBefore(ts, i, v), CornerRefs(ts[i], i, j, v);
    if ts[i].vertices[j] == v {
      assert a + (b + [Ref(j, i)]) == (a + b) + [Ref(j, i)];
    } else {
      assert b + [] == b;
    }
  }

  /** Every vertex's slice holds the part of the table placed so far, up to
      corner `j` of triangle `i`, and the count says how much that is. */
  predicate PlacedUpTo(starts: seq<nat>, ts: seq<Triangle>, i: nat, j: nat, counts: seq<nat>, refs: seq<Ref>)
    requires i < |ts| && j <= 3 && |counts| == |starts|
  {
    forall v | 0 <= v < |starts| ::
      && counts[v] == |Placed(ts, i, j, v)|
      && counts[v] <= |RefsOf(ts, v)|
      && starts[v] + counts[v] <= |refs|
      && refs[starts[v] .. starts[v] + counts[v]] == Placed(ts, i, j, v)
  }

  /** One round of the inner loop: corner `j` of triangle `i` is written at
      the end of its vertex's slice and that vertex's count grows by one. */
  method PlaceCorner(starts: seq<nat>, ts: seq<Triangle>, i: nat, j: nat, counts0: seq<nat>, refs0: seq<Ref>)
    returns (counts: seq<nat>, refs: seq<Ref>)
    requires i < |ts| && j < 3 && CornersIn(ts[i], |starts|) && |counts0| == |starts| && |refs0| == 3 * |ts|
    requires forall v | 0 <= v < |starts| :: starts[v] + |RefsOf(ts, v)| <= 3 * |ts|
    requires forall u, v | 0 <= u < v < |starts| :: starts[u] + |RefsOf(ts, u)| <= starts[v]
    requires PlacedUpTo(starts, ts, i, j, counts0, refs0)
    ensures |counts| == |starts| && |refs| == 3 * |ts|
    ensures PlacedUpTo(starts, ts, i, j + 1, counts, refs)
  {
    counts, refs := counts0, refs0;
    var w := ts[i].vertices[j];
    var p := starts[w] + counts[w];
    PartialFits(ts, i, j + 1, w);
    PlacedStep(ts, i, j, w);
    var x := Ref(j, i);
    forall v | 0 <= v < |starts| && v != w
      ensures refs[p := x][starts[v] .. starts[v] + counts[v]] == refs[starts[v] .. starts[v] + counts[v]]
      ensures Placed(ts, i, j + 1, v) == Placed(ts, i, j, v)
    {
      UpdateOutside(refs, p, x, starts[v], starts[v] + counts[v]);
      PlacedStep(ts, i, j, v);
    }
    UpdateAtEnd(refs, p, x, starts[w]);
    refs := refs[p := x];
    counts := counts[w := counts[w] + 1];
  }

  /** The inner loop of the fill pass: the three corners of triangle `i`
      append themselves to their vertices' slices.  `starts` and `counts`
      hold the vertices' `triangleStart` and `triangleCount` fields. */
  method FillTriangle(starts: seq<nat>, ts: seq<Triangle>, i: nat, counts0: seq<nat>, refs0: seq<Ref>)
    returns (counts: seq<nat>, refs: seq<Ref>)
    requires i < |ts| && CornersIn(ts[i], |starts|) && |counts0| == |starts| && |refs0| == 3 * |ts|
    requires forall v | 0 <= v < |starts| :: starts[v] + |RefsOf(ts, v)| <= 3 * |ts|
    requires forall u, v | 0 <= u < v < |starts| :: starts[u] + |RefsOf(ts, u)| <= starts[v]
    requires forall v | 0 <= v < |starts| ::
               && counts0[v] == |RefsBefore(ts, i, v)|
               && counts0[v] <= |RefsOf(ts, v)|
               && refs0[starts[v] .. starts[v] + counts0[v]] == RefsBefore(ts, i, v)
    ensures |counts| == |starts| && |refs| == 3 * |ts|
    ensures forall v | 0 <= v < |starts| ::
              && counts[v] == |RefsBefore(ts, i + 1, v)|
              && counts[v] <= |RefsOf(ts, v)|
              && refs[starts[v] .. starts[v] + counts[v]] == RefsBefore(ts, i + 1, v)
  {
    counts, refs := counts0, refs0;
    forall v | 0 <= v < |starts|
      ensures Placed(ts, i, 0, v) == RefsBefore(ts, i, v)
    {
      PlacedStart(ts, i, v);
    }
    var j := 0;
    while j < 3
      invariant 0 <= j <= 3 && |counts| == |starts| && |refs| == 3 * |ts|
      invariant PlacedUpTo(starts, ts, i, j, counts, refs)
    {
      counts, refs := PlaceCorner(starts, ts, i, j, counts, refs);
      j := j + 1;
    }
    forall v | 0 <= v < |starts|
      ensures Placed(ts, i, 3, v) == RefsBefore(ts, i + 1, v)
    {
      PlacedStart(ts, i, v);
    }
  }

  /** The fill pass: every corner, in triangle order, appends itself to its
      vertex's slice.  The slices are laid out as the running-sum pass leaves
      them: in vertex order, each large enough for its vertex's corners.  The
      running counts are kept beside the records and written back at the end. */
  method FillReferences(vs: seq<Vertex>, ts: seq<Triangle>) returns (r: seq<Vertex>, refs: seq<Ref>)
    requires forall k | 0 <= k < |ts| :: CornersIn(ts[k], |vs|)
    requires forall v | 0 <= v < |vs| ::
               vs[v].triangleCount == 0 && vs[v].triangleStart + |RefsOf(ts, v)| <= 3 * |ts|
    requires forall u, v | 0 <= u < v < |vs| :: vs[u].triangleStart + |RefsOf(ts, u)| <= vs[v].triangleStart
    ensures |r| == |vs| && |refs| == 3 * |ts|
    ensures forall v | 0 <= v < |r| :: r[v] == vs[v].(triangleCount := |RefsOf(ts, v)|)
    ensures forall v | 0 <= v < |r| ::
              SliceIn(r[v], |refs|) && refs[r[v].triangleStart .. r[v].triangleStart + r[v].triangleCount] == RefsOf(ts, v)
  {
    var starts := seq(|vs|, v requires 0 <= v < |vs| => vs[v].triangleStart);
    var counts := seq(|vs|, v requires 0 <= v < |vs| => vs[v].triangleCount);
    refs := seq(3 * |ts|, _ => Ref(0, 0));
    var i := 0;
    while i < |ts|
      invariant 0 <= i <= |ts| && |counts| == |starts| == |vs| && |refs| == 3 * |ts|
      invariant forall v | 0 <= v < |starts| ::
                  && counts[v] == |RefsBefore(ts, i, v)|
                  && counts[v] <= |RefsOf(ts, v)|
                  && refs[starts[v] .. starts[v] + counts[v]] == RefsBefore(ts, i, v)
    {
      assert CornersIn(ts[i], |vs|);
      counts, refs := FillTriangle(starts, ts, i, counts, refs);
      i := i + 1;
    }
    r := seq(|vs|, v requires 0 <= v < |vs| => vs[v].(triangleCount := counts[v]));
  }

  /** `m`'s reference table is the one the counting sort builds for its
      triangles: slice `v` starts after the slices of the vertices below `v`
      and holds exactly `RefsOf(m.triangles, v)`. */
  predicate TableBuilt(m: Mesh)
  {
    && |m.references| == 3 * |m.triangles|
    && forall v | 0 <= v < |m.vertices| ::
         && m.vertices[v].triangleStart == SliceStart(m.triangles, v)
         && m.vertices[v].triangleCount == |RefsOf(m.triangles, v)|
         && SliceIn(m.vertices[v], |m.references|)
         && m.references[m.vertices[v].triangleStart .. m.vertices[v].triangleStart + m.vertices[v].triangleCount]
            == RefsOf(m.triangles, v)
  }

  /** Clear, count, lay out and fill: the table part of `updateMesh`. */
  method RebuildReferences(vs: seq<Vertex>, ts: seq<Triangle>) returns (r: Mesh)
    requires forall k | 0 <= k < |ts| :: CornersIn(ts[k], |vs|)
    ensures r.triangles == ts && |r.vertices| == |vs|
    ensures forall v | 0 <= v < |r.vertices| :: SameButSlice(r.vertices[v], vs[v])
    ensures TableBuilt(r)
  {
    var counted := CountCorners(vs, ts);
    var laid := AssignSliceStarts(counted, ts);
    LaidOut(laid, ts);
    var filled, refs := FillReferences(laid, ts);
    r := Mesh(filled, ts, refs);
    FilledTable(laid, r);
    forall v | 0 <= v < |filled|
      ensures SameButSlice(filled[v], vs[v])
    {
      assert SameButSlice(filled[v], laid[v]) && SameButSlice(laid[v], counted[v]) && SameButSlice(counted[v], vs[v]);
    }
  }

  /** Filling slices laid out at the running sums builds the table. */
  lemma FilledTable(laid: seq<Vertex>, m: Mesh)
    requires |m.vertices| == |laid| && |m.references| == 3 * |m.triangles|
    requires forall v {:trigger laid[v]} | 0 <= v < |laid| :: laid[v].triangleStart == SliceStart(m.triangles, v)
    requires forall v | 0 <= v < |laid| :: m.vertices[v] == laid[v].(triangleCount := |RefsOf(m.triangles, v)|)
    requires forall v | 0 <= v < |laid| ::
               && SliceIn(m.vertices[v], |m.references|)
               && m.references[m.vertices[v].triangleStart .. m.vertices[v].triangleStart + m.vertices[v].triangleCount]
                  == RefsOf(m.triangles, v)
    ensures TableBuilt(m)
  {
  }

  /** Slices that start at the running sums fit in the table and do not
      overlap: what the fill pass needs. */
  lemma LaidOut(laid: seq<Vertex>, ts: seq<Triangle>)
    requires forall k | 0 <= k < |ts| :: CornersIn(ts[k], |laid|)
    requires forall v {:trigger laid[v]} | 0 <= v < |laid| :: laid[v].triangleStart == SliceStart(ts, v) && laid[v].triangleCount == 0
    ensures forall v | 0 <= v < |laid| ::
              laid[v].triangleCount == 0 && laid[v].triangleStart + |RefsOf(ts, v)| <= 3 * |ts|
    ensures forall u, v | 0 <= u < v < |laid| :: laid[u].triangleStart + |RefsOf(ts, u)| <= laid[v].triangleStart
  {
    SlicesWithinTable(ts, |laid|);
    forall u, v | 0 <= u < v < |laid|
      ensures laid[u].triangleStart + |RefsOf(ts, u)| <= laid[v].triangleStart
    {
      SlicesOrdered(ts, u, v);
    }
  }

  /** An entry of a vertex's slice names an existing corner. */
  lemma RefsOfEntryOk(ts: seq<Triangle>, v: nat, k: nat)
    requires k < |RefsOf(ts, v)|
    ensures RefOk(RefsOf(ts, v)[k], |ts|)
  {
    RefsBeforeFacts(ts, |ts|, v);
    assert RefsOf(ts, v)[k] in RefsOf(ts, v);
  }

  /** A table built by the counting sort links only existing records. */
  lemma RebuiltLinked(m: Mesh)
    requires forall k | 0 <= k < |m.triangles| :: CornersIn(m.triangles[k], |m.vertices|)
    requires TableBuilt(m)
    ensures Linked(m)
  {
    var ts := m.triangles;
    SlicesCoverTable(ts, |m.vertices|);
    forall k | 0 <= k < |m.references|
      ensures RefOk(m.references[k], |ts|)
    {
      var v := SlotOwner(ts, |m.vertices|, k);
      var vx := m.vertices[v];
      SlotEntry(m.references, vx.triangleStart, vx.triangleCount, ts, v, k);
    }
  }

  /** Every entry of a slice that holds `RefsOf(ts, v)` names an existing corner. */
  lemma SlotEntry(refs: seq<Ref>, start: nat, count: nat, ts: seq<Triangle>, v: nat, k: nat)
    requires start + count <= |refs| && refs[start .. start + count] == RefsOf(ts, v)
    requires start <= k < start + count
    ensures RefOk(refs[k], |ts|)
  {
    assert refs[k] == refs[start .. start + count][k - start];
    RefsOfEntryOk(ts, v, k - start);
  }

  lemma CornerRefsByCorners(t: Triangle, u: Triangle, i: nat, j: nat, v: nat)
    requires j <= 3 && t.vertices == u.vertices
    ensures CornerRefs(t, i, j, v) == CornerRefs(u, i, j, v)
  {
  }

  lemma {:induction false} RefsBeforeByCorners(a: seq<Triangle>, b: seq<Triangle>, i: nat, v: nat)
    requires |a| == |b| && i <= |a|
    requires forall k | 0 <= k < |a| :: a[k].vertices == b[k].vertices
    ensures RefsBefore(a, i, v) == RefsBefore(b, i, v)
  {
    if i > 0 {
      RefsBeforeByCorners(a, b, i - 1, v);
      CornerRefsByCorners(a[i - 1], b[i - 1], i - 1, 3, v);
    }
  }

  lemma {:induction false} SliceStartByCorners(a: seq<Triangle>, b: seq<Triangle>, v: nat)
    requires |a| == |b|
    requires forall k | 0 <= k < |a| :: a[k].vertices == b[k].vertices
    ensures SliceStart(a, v) == SliceStart(b, v)
  {
    if v > 0 {
      SliceStartByCorners(a, b, v - 1);
      RefsBeforeByCorners(a, b, |a|, v - 1);
    }
  }

  /** The table depends only on the triangles' corners: flags and costs play
      no part in it. */
  lemma TableByCorners(m: Mesh, ts: seq<Triangle>)
    requires |ts| == |m.triangles|
    requires forall k | 0 <= k < |ts| :: ts[k].vertices == m.triangles[k].vertices
    ensures TableBuilt(m) ==> TableBuilt(m.(triangles := ts))
  {
    forall v | 0 <= v < |m.vertices|
      ensures SliceStart(ts, v) == SliceStart(m.triangles, v) && RefsOf(ts, v) == RefsOf(m.triangles, v)
    {
      SliceStartByCorners(ts, m.triangles, v);
      RefsBeforeByCorners(ts, m.triangles, |ts|, v);
    }
  }

  /** Border flags play no part in the table. */
  lemma FlagsIrrelevant(m: Mesh, vs: seq<Vertex>)
    requires |vs| == |m.vertices|
    requires forall u | 0 <= u < |vs| :: SameButBorder(vs[u], m.vertices[u])
    ensures TableBuilt(m) ==> TableBuilt(m.(vertices := vs))
    ensures Linked(m) ==> Linked(m.(vertices := vs))
  {
    forall u | 0 <= u < |vs|
      ensures vs[u].triangleStart == m.vertices[u].triangleStart
      ensures vs[u].triangleCount == m.vertices[u].triangleCount
    {
      assert vs[u].(isBorder := false) == m.vertices[u].(isBorder := false);
    }
  }

  /** The vertices `vs` with the border flags of `prior` put back. */
  function RestoreFlags(vs: seq<Vertex>, prior: seq<Vertex>): (r: seq<Vertex>)
    requires |vs| == |prior|
    ensures |r| == |vs|
    ensures forall k | 0 <= k < |r| :: r[k] == vs[k].(isBorder := prior[k].isBorder)
  {
    seq(|vs|, k requires 0 <= k < |vs| => vs[k].(isBorder := prior[k].isBorder))
  }

  /** Live triangles whose corners were valid stay valid once compacted. */
  lemma CompactedCornersIn(ts: seq<Triangle>, n: nat)
    requires LiveCornersIn(ts, n)
    ensures forall k | 0 <= k < |LiveTriangles(ts)| :: CornersIn(LiveTriangles(ts)[k], n)
  {
    var live := LiveTriangles(ts);
    forall k | 0 <= k < |live|
      ensures CornersIn(live[k], n)
    {
      assert live[k] in ts;
    }
  }

  lemma FlagsRestored(built: seq<Vertex>, flagged: seq<Vertex>, prior: seq<Vertex>)
    requires |built| == |flagged| == |prior|
    requires forall u | 0 <= u < |built| :: SameButBorder(flagged[u], built[u])
    requires forall u | 0 <= u < |built| :: built[u].isBorder == prior[u].isBorder
    ensures RestoreFlags(flagged, prior) == built
  {
    forall u | 0 <= u < |built|
      ensures RestoreFlags(flagged, prior)[u] == built[u]
    {
      assert flagged[u].(isBorder := false) == built[u].(isBorder := false);
    }
  }

  lemma SameButBothFlags(r: Vertex, built: Vertex, prior: Vertex)
    requires SameButBorder(r, built) && SameButSlice(built, prior)
    ensures SameButSlice(r.(isBorder := prior.isBorder), prior)
  {
    assert r.(isBorder := false) == built.(isBorder := false);
  }

  lemma SliceOnlyKeepsFlag(a: Vertex, b: Vertex)
    requires SameButSlice(a, b)
    ensures a.isBorder == b.isBorder && a.(isBorder := b.isBorder) == a
  {
    assert a.(triangleCount := 0, triangleStart := 0).isBorder == b.(triangleCount := 0, triangleStart := 0).isBorder;
  }

  method UpdateMesh(m: Mesh, init: bool) returns (r: Mesh)
    requires forall k | 0 <= k < |m.triangles| ::
               (init || !m.triangles[k].deleted) ==> CornersIn(m.triangles[k], |m.vertices|)
    ensures r.triangles == if init then m.triangles else LiveTriangles(m.triangles)
    ensures |r.vertices| == |m.vertices|
    ensures Linked(r) && TableBuilt(r)
    ensures forall v | 0 <= v < |r.vertices| ::
              SameButSlice(r.vertices[v].(isBorder := m.vertices[v].isBorder), m.vertices[v])
    ensures !init ==> forall v | 0 <= v < |r.vertices| :: r.vertices[v].isBorder == m.vertices[v].isBorder
    ensures init ==>
              && Linked(r.(vertices := RestoreFlags(r.vertices, m.vertices)))
              && forall v | 0 <= v < |r.vertices| ::
                   r.vertices[v].isBorder == BorderAfter(r.(vertices := RestoreFlags(r.vertices, m.vertices)), |r.vertices|, v)
  {
    var ts := m.triangles;
    if !init {
      ts := CompactTriangles(m.triangles);
      CompactedCornersIn(m.triangles, |m.vertices|);
    }
    var built := RebuildReferences(m.vertices, ts);
    RebuiltLinked(built);
    r := built;
    if init {
      var flagged := IdentifyBorder(built);
      r := built.(vertices := flagged);
      FlagsIrrelevant(built, flagged);
      FlagsRestored(built.vertices, flagged, m.vertices);
      forall v | 0 <= v < |r.vertices|
        ensures SameButSlice(r.vertices[v].(isBorder := m.vertices[v].isBorder), m.vertices[v])
      {
        SameButBothFlags(r.vertices[v], built.vertices[v], m.vertices[v]);
      }
    } else {
      forall v | 0 <= v < |r.vertices|
        ensures r.vertices[v].isBorder == m.vertices[v].isBorder
        ensures SameButSlice(r.vertices[v].(isBorder := m.vertices[v].isBorder), m.vertices[v])
      {
        SliceOnlyKeepsFlag(r.vertices[v], m.vertices[v]);
      }
    }
  }
}
