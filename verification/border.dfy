/** `identifyBorder`: for each vertex, tally how often each id occurs among
    the corners of its incident triangles, and flag every tallied id as a
    border vertex exactly when it occurred once. */
module Border {
  import opened MeshModel

  /** The ids `identifyBorder` visits for `v`: the three corners of each
      triangle in `v`'s slice, in slice order. */
  function NeighbourIds(m: Mesh, v: Vertex): (ids: seq<nat>)
    requires Linked(m) && SliceIn(v, |m.references|)
    ensures |ids| == 3 * v.triangleCount
    ensures forall x | x in ids :: x < |m.vertices|
  {
    SliceCorners(m, v.triangleStart, v.triangleCount)
  }

  function SliceCorners(m: Mesh, start: nat, n: nat): (ids: seq<nat>)
    requires Linked(m) && start + n <= |m.references|
    ensures |ids| == 3 * n
    ensures forall x | x in ids :: x < |m.vertices|
  {
    if n == 0 then []
    else
      var t := m.triangles[m.references[start + n - 1].triangleId];
      assert CornersIn(t, |m.vertices|);
      SliceCorners(m, start, n - 1) + t.vertices
  }

  function Sum(s: seq<nat>): nat
  {
    if s == [] then 0 else Sum(s[..|s| - 1]) + s[|s| - 1]
  }

  lemma SumAppend(s: seq<nat>, x: nat)
    ensures Sum(s + [x]) == Sum(s) + x
  {
    assert (s + [x])[..|s|] == s;
  }

  lemma {:induction false} SumIncrement(s: seq<nat>, k: nat)
    requires k < |s|
    ensures Sum(s[k := s[k] + 1]) == Sum(s) + 1
  {
    var n := |s| - 1;
    if k < n {
      assert s[k := s[k] + 1][..n] == s[..n][k := s[k] + 1];
      SumIncrement(s[..n], k);
    } else {
      assert s[k := s[k] + 1][..n] == s[..n];
    }
  }

  /** The tally loop of `identifyBorder` for one vertex: `vId` lists the
      distinct ids in order of first occurrence (found by linear search) and
      `vCount` how often each occurs. */
  method CountNeighbours(ids: seq<nat>) returns (vId: seq<nat>, vCount: seq<nat>)
    ensures |vId| == |vCount|
    ensures forall a, b | 0 <= a < b < |vId| :: vId[a] != vId[b]
    ensures forall x :: x in ids <==> x in vId
    ensures forall t | 0 <= t < |vId| :: vCount[t] == multiset(ids)[vId[t]] && vCount[t] >= 1
    ensures Sum(vCount) == |ids|
  {
    vId := [];
    vCount := [];
    var k := 0;
    while k < |ids|
      invariant 0 <= k <= |ids|
      invariant |vId| == |vCount|
      invariant forall a, b | 0 <= a < b < |vId| :: vId[a] != vId[b]
      invariant forall x :: x in ids[..k] <==> x in vId
      invariant forall t | 0 <= t < |vId| :: vCount[t] == multiset(ids[..k])[vId[t]]
      invariant Sum(vCount) == k
    {
      var id := ids[k];
      assert ids[..k + 1] == ids[..k] + [id];
      assert multiset(ids[..k + 1]) == multiset(ids[..k]) + multiset{id};
      var ofs := 0;
      while ofs < |vCount|
        invariant 0 <= ofs <= |vCount|
        invariant forall o | 0 <= o < ofs :: vId[o] != id
      {
        if vId[ofs] == id {
          break;
        }
        ofs := ofs + 1;
      }
      if ofs == |vCount| {
        assert id !in ids[..k];
        assert multiset(ids[..k])[id] == 0;
        SumAppend(vCount, 1);
        vCount := vCount + [1];
        vId := vId + [id];
      } else {
        SumIncrement(vCount, ofs);
        vCount := vCount[ofs := vCount[ofs] + 1];
      }
      k := k + 1;
    }
    assert ids[..k] == ids;
    forall t | 0 <= t < |vId|
      ensures vCount[t] >= 1
    {
      assert vId[t] in ids;
      assert vId[t] in multiset(ids);
    }
  }

  /** The flag vertex `u` holds after `identifyBorder` has processed vertices
      `0 .. n-1`: the verdict of the last of them that collected `u`, or the
      flag it had before if none did. */
  function BorderAfter(m: Mesh, n: nat, u: nat): bool
    requires Linked(m) && n <= |m.vertices| && u < |m.vertices|
  {
    if n == 0 then m.vertices[u].isBorder
    else
      var ids := NeighbourIds(m, m.vertices[n - 1]);
      if u in ids then multiset(ids)[u] == 1 else BorderAfter(m, n - 1, u)
  }

  /** A vertex no slice ever collects keeps the flag it had. */
  lemma {:induction false} NeverCollectedKeepsFlag(m: Mesh, n: nat, u: nat)
    requires Linked(m) && n <= |m.vertices| && u < |m.vertices|
    requires forall i | 0 <= i < n :: u !in NeighbourIds(m, m.vertices[i])
    ensures BorderAfter(m, n, u) == m.vertices[u].isBorder
  {
    if n > 0 {
      NeverCollectedKeepsFlag(m, n - 1, u);
    }
  }

  /** The flag-writing loop of `identifyBorder` for one vertex: each
      tallied id becomes a border vertex exactly when its count is 1. */
  method ApplyTally(vs: seq<Vertex>, vId: seq<nat>, vCount: seq<nat>) returns (r: seq<Vertex>)
    requires |vId| == |vCount|
    requires forall a, b | 0 <= a < b < |vId| :: vId[a] != vId[b]
    requires forall t | 0 <= t < |vId| :: vId[t] < |vs|
    ensures |r| == |vs|
    ensures forall u | 0 <= u < |r| :: SameButBorder(r[u], vs[u])
    ensures forall t | 0 <= t < |vId| :: r[vId[t]].isBorder == (vCount[t] == 1)
    ensures forall u | 0 <= u < |r| && u !in vId :: r[u] == vs[u]
  {
    r := vs;
    var j := 0;
    while j < |vCount|
      invariant 0 <= j <= |vCount|
      invariant |r| == |vs|
      invariant forall u | 0 <= u < |r| :: SameButBorder(r[u], vs[u])
      invariant forall t | 0 <= t < j :: r[vId[t]].isBorder == (vCount[t] == 1)
      invariant forall u | 0 <= u < |r| && u !in vId[..j] :: r[u] == vs[u]
    {
      assert vId[..j + 1] == vId[..j] + [vId[j]];
      if vCount[j] == 1 {
        r := r[vId[j] := r[vId[j]].(isBorder := true)];
      } else {
        r := r[vId[j] := r[vId[j]].(isBorder := false)];
      }
      j := j + 1;
    }
    assert vId[..j] == vId;
  }

  method IdentifyBorder(m: Mesh) returns (vs: seq<Vertex>)
    requires Linked(m)
    ensures |vs| == |m.vertices|
    ensures forall u | 0 <= u < |vs| :: SameButBorder(vs[u], m.vertices[u])
    ensures forall u | 0 <= u < |vs| :: vs[u].isBorder == BorderAfter(m, |m.vertices|, u)
  {
    vs := m.vertices;
    var i := 0;
    while i < |vs|
      invariant 0 <= i <= |vs| == |m.vertices|
      invariant forall u | 0 <= u < |vs| :: SameButBorder(vs[u], m.vertices[u])
      invariant forall u {:trigger vs[u]} | 0 <= u < |vs| :: vs[u].isBorder == BorderAfter(m, i, u)
    {
      vs := VisitVertex(m, vs, i);
      i := i + 1;
    }
  }

  /** One round of the outer loop: vertex `i`'s neighbours are tallied and
      their flags written. */
  method VisitVertex(m: Mesh, vs0: seq<Vertex>, i: nat) returns (vs: seq<Vertex>)
    requires Linked(m) && i < |vs0| == |m.vertices|
    requires forall u | 0 <= u < |vs0| :: SameButBorder(vs0[u], m.vertices[u])
    requires forall u {:trigger vs0[u]} | 0 <= u < |vs0| :: vs0[u].isBorder == BorderAfter(m, i, u)
    ensures |vs| == |m.vertices|
    ensures forall u | 0 <= u < |vs| :: SameButBorder(vs[u], m.vertices[u])
    ensures forall u {:trigger vs[u]} | 0 <= u < |vs| :: vs[u].isBorder == BorderAfter(m, i + 1, u)
  {
    var v := vs0[i];
    assert v.triangleStart == m.vertices[i].triangleStart && v.triangleCount == m.vertices[i].triangleCount;
    var ids := NeighbourIds(m, v);
    var vId, vCount := CountNeighbours(ids);
    assert forall t | 0 <= t < |vId| :: vId[t] in ids;
    vs := ApplyTally(vs0, vId, vCount);
    forall u | 0 <= u < |vs|
      ensures vs[u].isBorder == BorderAfter(m, i + 1, u)
    {
      if u in vId {
        var t :| 0 <= t < |vId| && vId[t] == u;
      }
    }
  }
}
