/** `runDecimation`: the target triangle count, the outer loop of at most
    100 passes (the reference table rebuilt every fifth pass, dirty flags
    cleared, one scan over the triangles against a rising threshold), and
    the final reconstruction. */
module Driver {
  import opened MeshModel
  import opened ReferenceTable
  import opened Border
  import opened Collapse
  import opened Reconstruct

  /** `RaananW.Tools.AsyncLoop(100, ...)`: the pass cap is a literal. */
  const MaxPasses: nat := 100

  /** The reference table is rebuilt (and, on pass 0, border flags set) on
      every pass whose index is a multiple of this. */
  const RebuildPeriod: nat := 5

  datatype Error = NotInitialised

  datatype Result<T> = Success(value: T) | Failure(error: Error)

  /** The decimator object: its working set and whether initialisation has
      finished. */
  datatype Decimator = Decimator(mesh: Mesh, initialised: bool)

  // ---------------------------------------------------------------------
  // The target count: `~~(triangles.length * quality)`
  // ---------------------------------------------------------------------

  /** Truncation toward zero, the first half of `~~` on a finite number. */
  function Truncate(x: real): (r: int)
    ensures 0.0 <= x ==> 0 <= r && r as real <= x < r as real + 1.0
    ensures x < 0.0 ==> r <= 0 && r as real - 1.0 < x <= r as real
  {
    if x >= 0.0 then x.Floor else -((-x).Floor)
  }

  /** ECMAScript `ToInt32` of an integer: the representative of `k` modulo
      2^32 in the signed 32-bit range. */
  function ToInt32(k: int): (r: int)
    ensures -0x8000_0000 <= r < 0x8000_0000
    ensures (k - r) % 0x1_0000_0000 == 0
    ensures -0x8000_0000 <= k < 0x8000_0000 ==> r == k
  {
    var u := k % 0x1_0000_0000;
    if u >= 0x8000_0000 then u - 0x1_0000_0000 else u
  }

  function TargetCount(n: nat, quality: real): int
  {
    ToInt32(Truncate(n as real * quality))
  }

  /** For a quality in [0, 1] and a triangle count below 2^31 the target is a
      count between 0 and the original one, rounded down. */
  lemma TargetCountBounds(n: nat, quality: real)
    requires 0.0 <= quality <= 1.0 && n < 0x8000_0000
    ensures 0 <= TargetCount(n, quality) <= n
    ensures TargetCount(n, quality) as real <= n as real * quality < TargetCount(n, quality) as real + 1.0
  {
    var x := n as real * quality;
    assert 0.0 <= x <= n as real by {
      ScaledDown(n as real, quality);
    }
    TargetOf(x, n);
  }

  lemma ScaledDown(a: real, f: real)
    requires 0.0 <= a && 0.0 <= f <= 1.0
    ensures 0.0 <= a * f <= a
  {
    assert a * (1.0 - f) >= 0.0;
    assert a - a * f == a * (1.0 - f);
  }

  /** A product in [0, n] with n below 2^31 converts without wrapping. */
  lemma TargetOf(x: real, n: nat)
    requires 0.0 <= x <= n as real && n < 0x8000_0000
    ensures 0 <= ToInt32(Truncate(x)) <= n
    ensures ToInt32(Truncate(x)) as real <= x < ToInt32(Truncate(x)) as real + 1.0
  {
    var t := Truncate(x);
    assert t as real <= n as real;
  }

  /** At quality 1 the target is the whole mesh, so the run has nothing to
      remove. */
  lemma FullQualityTarget(n: nat)
    requires n < 0x8000_0000
    ensures TargetCount(n, 1.0) == n
  {
    assert n as real * 1.0 == n as real;
  }

  /** With 2^31 triangles at full quality the product no longer fits the
      32-bit conversion, which wraps the target to -2^31. */
  lemma TargetCountWraps()
    ensures TargetCount(0x8000_0000, 1.0) == -0x8000_0000
  {
    assert Truncate(0x8000_0000 as real * 1.0) == 0x8000_0000;
  }

  // ---------------------------------------------------------------------
  // Accounting of live triangles
  // ---------------------------------------------------------------------

  lemma {:induction false} TombstonesByFlags(a: seq<Triangle>, b: seq<Triangle>)
    requires |a| == |b| && forall k | 0 <= k < |a| :: a[k].deleted == b[k].deleted
    ensures Tombstones(a) == Tombstones(b)
  {
    if a != [] {
      var n := |a| - 1;
      TombstonesByFlags(a[..n], b[..n]);
    }
  }

  lemma {:induction false} NoTombstones(ts: seq<Triangle>)
    requires forall k | 0 <= k < |ts| :: !ts[k].deleted
    ensures Tombstones(ts) == 0
  {
    if ts != [] {
      NoTombstones(ts[..|ts| - 1]);
    }
  }

  /** Dropping the tombstones leaves the number of live triangles unchanged. */
  lemma CompactionKeepsLive(ts: seq<Triangle>)
    ensures Live(LiveTriangles(ts)) == Live(ts)
  {
    NoTombstones(LiveTriangles(ts));
  }

  // ---------------------------------------------------------------------
  // One pass
  // ---------------------------------------------------------------------

  /** Every triangle's dirty flag is cleared; nothing else changes. */
  method ClearDirty(m: Mesh) returns (r: Mesh)
    ensures r.vertices == m.vertices && r.references == m.references && |r.triangles| == |m.triangles|
    ensures forall k | 0 <= k < |r.triangles| :: r.triangles[k] == m.triangles[k].(isDirty := false)
  {
    var ts := m.triangles;
    var i := 0;
    while i < |ts|
      invariant 0 <= i <= |ts| == |m.triangles|
      invariant forall k | 0 <= k < i :: ts[k] == m.triangles[k].(isDirty := false)
      invariant forall k | i <= k < |ts| :: ts[k] == m.triangles[k]
    {
      ts := ts[i := ts[i].(isDirty := false)];
      i := i + 1;
    }
    r := m.(triangles := ts);
  }

  /** `trace` lists the working set before each triangle a scan from `m`
      visited, and after the last one: it starts at `m`, state `k + 1` is
      the pass body's step on state `k` at triangle `k`, and before each
      step the target was still unmet (the deleted counter being
      `deletedTriangles` plus the tombstones added since `m`). */
  predicate Scanned(m: Mesh, trace: seq<Mesh>, threshold: real, deletedTriangles: nat,
                    triangleCount: int, targetCount: int, geom: Geometry)
  {
    && 1 <= |trace| <= |m.triangles| + 1 && trace[0] == m
    && forall k | 0 <= k < |trace| - 1 ::
         && WF(trace[k]) && |trace[k].triangles| == |m.triangles|
         && Steps(trace[k], trace[k + 1], k, threshold, geom)
         && triangleCount - (deletedTriangles + Tombstones(trace[k].triangles) - Tombstones(m.triangles)) > targetCount
  }

  /** A step from the last state, taken while the target is unmet, extends
      the trace. */
  lemma ScannedStep(m: Mesh, trace: seq<Mesh>, r: Mesh, threshold: real, deletedTriangles: nat,
                    triangleCount: int, targetCount: int, geom: Geometry)
    requires Scanned(m, trace, threshold, deletedTriangles, triangleCount, targetCount, geom)
    requires var last := trace[|trace| - 1];
             && |trace| - 1 < |m.triangles| && WF(last) && |last.triangles| == |m.triangles|
             && Steps(last, r, |trace| - 1, threshold, geom)
             && triangleCount - (deletedTriangles + Tombstones(last.triangles) - Tombstones(m.triangles)) > targetCount
    ensures Scanned(m, trace + [r], threshold, deletedTriangles, triangleCount, targetCount, geom)
  {
    var t := trace + [r];
    forall k | 0 <= k < |t| - 1
      ensures && WF(t[k]) && |t[k].triangles| == |m.triangles|
              && Steps(t[k], t[k + 1], k, threshold, geom)
              && triangleCount - (deletedTriangles + Tombstones(t[k].triangles) - Tombstones(m.triangles)) > targetCount
    {
      assert t[k] == trace[k];
      if k < |trace| - 1 {
        assert t[k + 1] == trace[k + 1];
      }
    }
  }

  /** The triangle scan of one pass: triangles are processed in index order,
      and before each one the scan stops if the target has been reached. */
  method ScanPass(m: Mesh, threshold: real, deletedTriangles: nat, triangleCount: int, targetCount: int, geom: Geometry)
    returns (r: Mesh, newDeleted: nat, trace: seq<Mesh>)
    requires WF(m)
    ensures WF(r) && |r.vertices| == |m.vertices| && |r.triangles| == |m.triangles|
    ensures newDeleted + Tombstones(m.triangles) == deletedTriangles + Tombstones(r.triangles)
    ensures Scanned(m, trace, threshold, deletedTriangles, triangleCount, targetCount, geom)
    ensures trace[|trace| - 1] == r
    ensures |trace| - 1 < |m.triangles| ==> triangleCount - newDeleted <= targetCount
    ensures triangleCount - deletedTriangles <= targetCount ==> |trace| == 1 && r == m && newDeleted == deletedTriangles
  {
    r, newDeleted, trace := m, deletedTriangles, [m];
    var visited := 0;
    while visited < |r.triangles| && triangleCount - newDeleted > targetCount
      invariant WF(r) && |r.vertices| == |m.vertices| && |r.triangles| == |m.triangles|
      invariant visited <= |m.triangles| && |trace| == visited + 1 && trace[visited] == r
      invariant Scanned(m, trace, threshold, deletedTriangles, triangleCount, targetCount, geom)
      invariant newDeleted + Tombstones(m.triangles) == deletedTriangles + Tombstones(r.triangles)
      invariant triangleCount - deletedTriangles <= targetCount ==> visited == 0 && r == m && newDeleted == deletedTriangles
      decreases |m.triangles| - visited
    {
      var r', outcome;
      r', newDeleted, outcome := ProcessTriangle(r, visited, threshold, newDeleted, geom);
      OutcomeSteps(r, r', visited, threshold, outcome, geom);
      ScannedStep(m, trace, r', threshold, deletedTriangles, triangleCount, targetCount, geom);
      trace := trace + [r'];
      r := r';
      visited := visited + 1;
    }
  }

  /** What initialisation leaves for the driver: every corner names a vertex
      and every vertex knows its own index. */
  predicate Ready(m: Mesh)
  {
    && (forall k | 0 <= k < |m.triangles| :: CornersIn(m.triangles[k], |m.vertices|))
    && (forall k | 0 <= k < |m.vertices| :: m.vertices[k].id == k)
  }

  lemma WFReady(m: Mesh)
    requires WF(m)
    ensures Ready(m)
  {
  }

  /** The vertices at the start of pass `pass` keep everything but their
      slice fields and border flag.  The flag changes only on the first
      pass, where it is the verdict of `identifyBorder` over the table
      rebuilt from the triangles as they were before the dirty flags were
      cleared. */
  predicate VerticesPrepared(m: Mesh, start: Mesh, pass: nat)
    requires |start.vertices| == |m.vertices|
  {
    && (forall v | 0 <= v < |start.vertices| ::
          SameButSlice(start.vertices[v].(isBorder := m.vertices[v].isBorder), m.vertices[v]))
    && (pass != 0 ==> forall v | 0 <= v < |start.vertices| :: start.vertices[v].isBorder == m.vertices[v].isBorder)
    && (pass == 0 ==>
          var b := start.(triangles := m.triangles, vertices := RestoreFlags(start.vertices, m.vertices));
          && Linked(b)
          && forall v | 0 <= v < |start.vertices| :: start.vertices[v].isBorder == BorderAfter(b, |start.vertices|, v))
  }

  /** Clearing the dirty flags after `updateMesh` keeps the vertex facts
      `updateMesh` states. */
  lemma PreparedAfterUpdate(m: Mesh, cur: Mesh, start: Mesh, pass: nat)
    requires |cur.vertices| == |m.vertices|
    requires forall v | 0 <= v < |cur.vertices| ::
               SameButSlice(cur.vertices[v].(isBorder := m.vertices[v].isBorder), m.vertices[v])
    requires pass != 0 ==> forall v | 0 <= v < |cur.vertices| :: cur.vertices[v].isBorder == m.vertices[v].isBorder
    requires pass == 0 ==>
               && cur.triangles == m.triangles
               && Linked(cur.(vertices := RestoreFlags(cur.vertices, m.vertices)))
               && forall v | 0 <= v < |cur.vertices| ::
                    cur.vertices[v].isBorder == BorderAfter(cur.(vertices := RestoreFlags(cur.vertices, m.vertices)), |cur.vertices|, v)
    requires start.vertices == cur.vertices && start.references == cur.references
    ensures VerticesPrepared(m, start, pass)
  {
    if pass == 0 {
      assert start.(triangles := m.triangles, vertices := RestoreFlags(start.vertices, m.vertices))
          == cur.(vertices := RestoreFlags(cur.vertices, m.vertices));
    }
  }

  /** The vertices of a pass that does not rebuild are those before it. */
  lemma PreparedUnchanged(m: Mesh, start: Mesh, pass: nat)
    requires pass != 0 && start.vertices == m.vertices
    ensures VerticesPrepared(m, start, pass)
  {
    forall v | 0 <= v < |start.vertices|
      ensures SameButSlice(start.vertices[v].(isBorder := m.vertices[v].isBorder), m.vertices[v])
    {
      assert start.vertices[v].(isBorder := m.vertices[v].isBorder) == m.vertices[v];
    }
  }

  /** The start of pass `pass`: on every fifth pass the table is rebuilt
      (with border detection on the first pass, dropping tombstones
      otherwise), then every dirty flag is cleared.  The live count is
      unchanged. */
  method Prepare(m: Mesh, pass: nat) returns (start: Mesh)
    requires Ready(m) && (pass % RebuildPeriod != 0 ==> WF(m))
    ensures WF(start) && |start.vertices| == |m.vertices|
    ensures Live(start.triangles) == Live(m.triangles)
    ensures var ts := if pass % RebuildPeriod != 0 || pass == 0 then m.triangles else LiveTriangles(m.triangles);
            && |start.triangles| == |ts|
            && forall k | 0 <= k < |ts| :: start.triangles[k] == ts[k].(isDirty := false)
    ensures pass % RebuildPeriod == 0 ==> TableBuilt(start)
    ensures pass % RebuildPeriod != 0 ==> start.vertices == m.vertices && start.references == m.references
    ensures |start.vertices| == |m.vertices| && VerticesPrepared(m, start, pass)
  {
    var cur := m;
    if pass % RebuildPeriod == 0 {
      cur := UpdateMesh(m, pass == 0);
      RebuiltIds(m, cur);
      if pass != 0 {
        CompactionKeepsLive(m.triangles);
      }
    }
    start := ClearDirty(cur);
    if pass % RebuildPeriod == 0 {
      PreparedAfterUpdate(m, cur, start, pass);
    } else {
      PreparedUnchanged(m, start, pass);
    }
    TombstonesByFlags(cur.triangles, start.triangles);
    TableByCorners(cur, start.triangles);
    assert WF(start) by {
      assert forall k | 0 <= k < |start.triangles| :: CornersIn(start.triangles[k], |start.vertices|) by {
        assert forall k | 0 <= k < |cur.triangles| :: CornersIn(cur.triangles[k], |cur.vertices|);
      }
    }
  }

  /** Pass `pass`: the table rebuild and flag reset of `Prepare` give the
      state `start`, and the scan runs from it, leaving the states listed in
      `trace`. */
  method Pass(m: Mesh, pass: nat, deletedTriangles: nat, triangleCount: int, targetCount: int,
              threshold: real, geom: Geometry)
    returns (r: Mesh, newDeleted: nat, start: Mesh, trace: seq<Mesh>)
    requires Ready(m) && (pass % RebuildPeriod != 0 ==> WF(m))
    ensures WF(r) && |r.vertices| == |m.vertices|
    ensures Live(r.triangles) + newDeleted == Live(m.triangles) + deletedTriangles
    ensures var ts := if pass % RebuildPeriod != 0 || pass == 0 then m.triangles else LiveTriangles(m.triangles);
            && |start.triangles| == |ts|
            && forall k | 0 <= k < |ts| :: start.triangles[k] == ts[k].(isDirty := false)
    ensures pass % RebuildPeriod == 0 ==> TableBuilt(start)
    ensures pass % RebuildPeriod != 0 ==> start.vertices == m.vertices && start.references == m.references
    ensures |start.vertices| == |m.vertices| && VerticesPrepared(m, start, pass)
    ensures Scanned(start, trace, threshold, deletedTriangles, triangleCount, targetCount, geom)
    ensures trace[|trace| - 1] == r
  {
    start := Prepare(m, pass);
    r, newDeleted, trace := ScanPass(start, threshold, deletedTriangles, triangleCount, targetCount, geom);
  }

  /** Rebuilding the table keeps every vertex's id. */
  lemma RebuiltIds(m: Mesh, r: Mesh)
    requires Ready(m) && |r.vertices| == |m.vertices| && Linked(r)
    requires forall v | 0 <= v < |r.vertices| ::
               SameButSlice(r.vertices[v].(isBorder := m.vertices[v].isBorder), m.vertices[v])
    ensures WF(r)
  {
    forall v | 0 <= v < |r.vertices|
      ensures r.vertices[v].id == v
    {
      assert r.vertices[v].(isBorder := m.vertices[v].isBorder).id == m.vertices[v].id;
    }
  }

  // ---------------------------------------------------------------------
  // The run
  // ---------------------------------------------------------------------

  /** The run: fails when the decimator is not initialised; otherwise runs
      passes until the target is reached or the cap of 100 passes, then
      exports the working set.  `thresholds(k)` is the error threshold of
      pass `k` (`1e-9 * (k + 3)^agressiveness` in the source).  Besides the
      exported arrays the result reports the passes run and the deleted
      counter.  The effect of each pass is stated by `Pass` and `ScanPass`;
      this contract only summarises the loop around them. */
  method RunDecimation(d: Decimator, quality: real, thresholds: nat -> real, geom: Geometry)
    returns (res: Result<Output>, passes: nat, deleted: nat)
    requires d.initialised ==> Ready(d.mesh)
    ensures res.Failure? <==> !d.initialised
    ensures res.Failure? ==> res.error == NotInitialised
    ensures passes <= MaxPasses
    ensures res.Success? && passes < MaxPasses ==>
              |d.mesh.triangles| - deleted <= TargetCount(|d.mesh.triangles|, quality)
    ensures res.Success? && |d.mesh.triangles| <= TargetCount(|d.mesh.triangles|, quality) ==>
              passes == 0 && deleted == 0
    ensures res.Success? ==> deleted <= Live(d.mesh.triangles)
    ensures res.Success? ==> |res.value.indices| == 3 * (Live(d.mesh.triangles) - deleted)
    ensures res.Success? ==>
              && |res.value.positions| % 3 == 0
              && forall x | 0 <= x < |res.value.indices| :: 3 * res.value.indices[x] + 2 < |res.value.positions|
  {
    passes, deleted := 0, 0;
    if !d.initialised {
      res := Failure(NotInitialised);
      return;
    }
    var m := d.mesh;
    var triangleCount := |m.triangles|;
    var targetCount := TargetCount(triangleCount, quality);
    while passes < MaxPasses && triangleCount - deleted > targetCount
      invariant passes <= MaxPasses
      invariant triangleCount <= targetCount ==> passes == 0 && deleted == 0
      invariant Ready(m) && (passes > 0 ==> WF(m))
      invariant Live(m.triangles) + deleted == Live(d.mesh.triangles)
    {
      var start, trace;
      m, deleted, start, trace := Pass(m, passes, deleted, triangleCount, targetCount, thresholds(passes), geom);
      WFReady(m);
      passes := passes + 1;
    }
    var out, order := ReconstructMesh(m);
    res := Success(out);
  }
}
