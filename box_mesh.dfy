/**
  * The box drawn by mod3d.py: eight corner vertices, six quadrilateral faces
  * (`faces_idx`) and twelve edges (`edges_idx`), both given as indices into
  * the vertex table. Vertex positions are floating point and stay abstract
  * here (the type parameter `V`); what is modelled is the indexing.
  */
module BoxMesh {

  /** Rows of `base_vertices`. */
  const VertexCount: nat := 8

  /** `faces_idx`: bottom, top, then the four sides. */
  const Faces: seq<seq<nat>> := [
    [0, 1, 2, 3],
    [4, 5, 6, 7],
    [0, 1, 5, 4],
    [1, 2, 6, 5],
    [2, 3, 7, 6],
    [3, 0, 4, 7]
  ]

  /** `edges_idx`: the bottom ring, the top ring, then the four uprights. */
  const Edges: seq<(nat, nat)> := [
    (0, 1), (1, 2), (2, 3), (3, 0),
    (4, 5), (5, 6), (6, 7), (7, 4),
    (0, 4), (1, 5), (2, 6), (3, 7)
  ]

  /** Every index in both tables addresses a row of the vertex table. */
  lemma IndicesInRange()
    ensures forall f, k :: 0 <= f < |Faces| && 0 <= k < |Faces[f]| ==> Faces[f][k] < VertexCount
    ensures forall e :: 0 <= e < |Edges| ==> Edges[e].0 < VertexCount && Edges[e].1 < VertexCount
  {
  }

  /** Every face is a quadrilateral with four distinct corners. */
  lemma FacesAreQuads()
    ensures |Faces| == 6
    ensures forall f :: 0 <= f < |Faces| ==> |Faces[f]| == 4
    ensures forall f, i, j :: 0 <= f < |Faces| && 0 <= i < j < |Faces[f]| ==> Faces[f][i] != Faces[f][j]
  {
  }

  /** The side of face `f` from its corner `k` to the next corner, closing the loop at the last one. */
  function FaceSide(f: nat, k: nat): (nat, nat)
    requires f < |Faces| && k < |Faces[f]|
  {
    (Faces[f][k], Faces[f][(k + 1) % |Faces[f]|])
  }

  /** Two segments with the same two ends, in either direction. */
  predicate SameSegment(p: (nat, nat), q: (nat, nat)) {
    p == q || p == (q.1, q.0)
  }

  /** `p` lies along an entry of the edge list. */
  predicate IsListedEdge(p: (nat, nat)) {
    exists e :: 0 <= e < |Edges| && SameSegment(Edges[e], p)
  }

  /** `p` lies along a side of some face. */
  predicate IsFaceSide(p: (nat, nat)) {
    exists f, k :: 0 <= f < |Faces| && 0 <= k < |Faces[f]| && SameSegment(p, FaceSide(f, k))
  }

  /** Each side of each face lies along a listed edge. */
  lemma FaceSidesAreEdges()
    ensures forall f, k :: 0 <= f < |Faces| && 0 <= k < |Faces[f]| ==> IsListedEdge(FaceSide(f, k))
  {
    // For each face side, the index of the edge that lies along it.
    var edgeOf := [[0, 1, 2, 3], [4, 5, 6, 7], [0, 9, 4, 8], [1, 10, 5, 9], [2, 11, 6, 10], [3, 8, 7, 11]];
    forall f, k | 0 <= f < |Faces| && 0 <= k < |Faces[f]|
      ensures IsListedEdge(FaceSide(f, k))
    {
      var e := edgeOf[f][k];
      assert 0 <= e < |Edges| && SameSegment(Edges[e], FaceSide(f, k));
    }
  }

  /** Each listed edge is a side of some face, and no edge is listed twice. */
  lemma EdgesAreFaceSides()
    ensures forall e :: 0 <= e < |Edges| ==> IsFaceSide(Edges[e])
    ensures forall e, e' :: 0 <= e < e' < |Edges| ==> !SameSegment(Edges[e], Edges[e'])
  {
    // For each edge, a face and the corner its side starts from.
    var sideOf := [(0, 0), (0, 1), (0, 2), (0, 3), (1, 0), (1, 1), (1, 2), (1, 3), (2, 3), (2, 1), (3, 1), (4, 1)];
    forall e | 0 <= e < |Edges|
      ensures IsFaceSide(Edges[e])
    {
      var f, k := sideOf[e].0, sideOf[e].1;
      assert 0 <= f < |Faces| && 0 <= k < |Faces[f]| && SameSegment(Edges[e], FaceSide(f, k));
    }
  }

  /** `[[verts[i] for i in face] for face in faces_idx]`: the polygons handed to the face collection. */
  function FacePolygons<V>(verts: seq<V>): (polys: seq<seq<V>>)
    requires |verts| == VertexCount
    ensures |polys| == |Faces|
    ensures forall f :: 0 <= f < |Faces| ==> |polys[f]| == |Faces[f]|
    ensures forall f, k :: 0 <= f < |Faces| && 0 <= k < |Faces[f]| ==> polys[f][k] == verts[Faces[f][k]]
  {
    IndicesInRange();
    seq(|Faces|, f requires 0 <= f < |Faces| =>
      seq(|Faces[f]|, k requires 0 <= k < |Faces[f]| => verts[Faces[f][k]]))
  }

  /** `[(verts[i], verts[j]) for i, j in edges_idx]`: the segments handed to the edge collection. */
  function EdgeSegments<V>(verts: seq<V>): (segs: seq<(V, V)>)
    requires |verts| == VertexCount
    ensures |segs| == |Edges|
    ensures forall e :: 0 <= e < |Edges| ==> segs[e] == (verts[Edges[e].0], verts[Edges[e].1])
  {
    IndicesInRange();
    seq(|Edges|, e requires 0 <= e < |Edges| => (verts[Edges[e].0], verts[Edges[e].1]))
  }
}
