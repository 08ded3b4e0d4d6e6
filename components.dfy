/**
 * `components.py` (fc_tools) and `components.py` (fcore): the hard-edge and
 * UV-seam filters, the vertex midpoint and the selection-preserving mesh
 * queries. What the host answers (`polyInfo` lines, the UV points of an
 * edge, the faces a `polySelectConstraint` finds) is an input.
 */
module Components {
  import opened Text
  import opened Lists
  import opened VectorMath
  import opened SceneState
  import Util

  // ----- get_hard_edges -----

  /** `obj + '.e[' + str(i) + ']'`. */
  function EdgeName(obj: string, i: nat): string {
    obj + ".e[" + Str(i) + "]"
  }

  /** Different indices name different edges of the same object. */
  lemma EdgeNameInjective(obj: string, i: nat, j: nat)
    requires EdgeName(obj, i) == EdgeName(obj, j)
    ensures i == j
  {
    var a, b := EdgeName(obj, i), EdgeName(obj, j);
    assert a[|obj| + 3..|a| - 1] == Str(i);
    assert b[|obj| + 3..|b| - 1] == Str(j);
    StrInjective(i, j);
  }

  const HardMarker: string := "Hard\n"

  /** Whether `polyInfo(edgeToVertex=True)` reports this edge as hard. */
  predicate IsHard(info: string) {
    EndsWith(info, HardMarker)
  }

  /** The indices of the hard edges, in increasing order. */
  function HardIndices(infos: seq<string>): (r: seq<nat>)
    ensures forall k :: 0 <= k < |r| ==> r[k] < |infos|
  {
    if infos == [] then []
    else HardIndices(infos[..|infos| - 1]) + (if IsHard(infos[|infos| - 1]) then [|infos| - 1] else [])
  }

  /**
   * The hard indices are exactly the indices whose line ends in 'Hard\n',
   * each once, in increasing order.
   */
  lemma {:induction false} HardIndicesSpec(infos: seq<string>)
    ensures |HardIndices(infos)| <= |infos|
    ensures forall i: nat :: i in HardIndices(infos) <==> i < |infos| && IsHard(infos[i])
    ensures forall a, b :: 0 <= a < b < |HardIndices(infos)| ==> HardIndices(infos)[a] < HardIndices(infos)[b]
  {
    if infos != [] {
      var init := infos[..|infos| - 1];
      HardIndicesSpec(init);
      assert forall i :: 0 <= i < |init| ==> init[i] == infos[i];
    }
  }

  /** `get_hard_edges(obj)` over the `polyInfo` lines of the object's edges. */
  function HardEdges(obj: string, infos: seq<string>): (r: seq<string>)
    ensures |r| == |HardIndices(infos)|
    ensures forall k :: 0 <= k < |r| ==> r[k] == EdgeName(obj, HardIndices(infos)[k])
  {
    var idx := HardIndices(infos);
    seq(|idx|, k requires 0 <= k < |idx| => EdgeName(obj, idx[k]))
  }

  /**
   * The hard edges are named exactly for the hard lines, in edge order, with
   * no name twice and at most one name per line.
   */
  lemma HardEdgesSpec(obj: string, infos: seq<string>)
    ensures |HardEdges(obj, infos)| <= |infos|
    ensures forall i: nat :: EdgeName(obj, i) in HardEdges(obj, infos) <==> i < |infos| && IsHard(infos[i])
    ensures forall a, b :: 0 <= a < b < |HardEdges(obj, infos)| ==> HardEdges(obj, infos)[a] != HardEdges(obj, infos)[b]
  {
    HardIndicesSpec(infos);
    var r, idx := HardEdges(obj, infos), HardIndices(infos);
    forall i: nat ensures EdgeName(obj, i) in r <==> i < |infos| && IsHard(infos[i]) {
      if EdgeName(obj, i) in r {
        var k :| 0 <= k < |r| && r[k] == EdgeName(obj, i);
        EdgeNameInjective(obj, i, idx[k]);
      }
      if i < |infos| && IsHard(infos[i]) {
        var k :| 0 <= k < |idx| && idx[k] == i;
        assert r[k] == EdgeName(obj, i);
      }
    }
    forall a, b | 0 <= a < b < |r| ensures r[a] != r[b] {
      if r[a] == r[b] {
        EdgeNameInjective(obj, idx[a], idx[b]);
      }
    }
  }

  // ----- is_on_uv_seam / get_seam_edges -----

  /** `len(flat_uv_points) > 2`: the edge has more than two UV points. */
  predicate IsOnUvSeam(uvPoints: seq<string>) {
    |uvPoints| > 2
  }

  /** `get_seam_edges`: the edges whose UV points (a host query) make them seam edges. */
  function SeamEdges(edges: seq<string>, uvPointsOf: string -> seq<string>): seq<string> {
    Filter(edges, e => IsOnUvSeam(uvPointsOf(e)))
  }

  /** The seam edges are the seam members of the edge list, in edge-list order, and nothing else. */
  lemma SeamEdgesSpec(edges: seq<string>, more: seq<string>, uvPointsOf: string -> seq<string>)
    ensures |SeamEdges(edges, uvPointsOf)| <= |edges|
    ensures forall e :: e in SeamEdges(edges, uvPointsOf) <==> e in edges && |uvPointsOf(e)| > 2
    ensures SeamEdges(edges + more, uvPointsOf) == SeamEdges(edges, uvPointsOf) + SeamEdges(more, uvPointsOf)
  {
    FilterMembers(edges, e => IsOnUvSeam(uvPointsOf(e)));
    FilterAppend(edges, more, e => IsOnUvSeam(uvPointsOf(e)));
  }

  // ----- get_midpoint -----

  /** `[cmds.pointPosition(vertex) for vertex in vertices]`. */
  function Positions(positions: map<string, Vec3>, vertices: seq<string>): (r: seq<Vec3>)
    requires forall v :: v in vertices ==> v in positions
    ensures |r| == |vertices| && forall k :: 0 <= k < |vertices| ==> r[k] == positions[vertices[k]]
  {
    seq(|vertices|, k requires 0 <= k < |vertices| => positions[vertices[k]])
  }

  /** `get_midpoint(vertices)`: the midpoint of the vertex positions. */
  function GetMidpoint(positions: map<string, Vec3>, vertices: seq<string>): (m: Vec3)
    requires forall v :: v in vertices ==> v in positions
    ensures vertices == [] ==> m == Origin
  {
    Midpoint(Positions(positions, vertices))
  }

  /** Vertices that all sit at one point have that point as their midpoint. */
  lemma GetMidpointOfCoincident(positions: map<string, Vec3>, vertices: seq<string>, p: Vec3)
    requires vertices != [] && forall v :: v in vertices ==> v in positions && positions[v] == p
    ensures GetMidpoint(positions, vertices) == p
  {
    MidpointOfCopies(Positions(positions, vertices), p);
  }

  // ----- the selection-preserving queries -----

  /** The `polySelectConstraint` settings of `get_triangles`, `get_ngons`, `get_lamina_faces` and `get_non_manifold_vertices`. */
  datatype MeshQuery = Triangles | NGons | LaminaFaces | NonManifoldVertices

  /**
   * One of the `get_*` queries: inside `UserSelection`, select the objects
   * (when some are given), switch to component mode and read back what the
   * constraint of `query` selected; `answer` is the host's evaluation of a
   * constraint on the meshes that are selected when it is set. With no
   * objects given, those are the meshes the user had selected. The user's
   * mode and the surviving part of the user's selection come back afterwards.
   */
  method GetMeshComponents(scene: Scene, query: MeshQuery, objects: seq<string>, answer: (MeshQuery, seq<string>) -> seq<string>)
    returns (r: seq<string>)
    modifies scene`selection, scene`selectMode
    ensures r == answer(query, if objects != [] then objects else old(scene.selection))
    ensures scene.selectMode == old(scene.selectMode)
    ensures scene.selection == Util.Surviving(old(scene.selection), scene.nodes)
  {
    var guard := new Util.UserSelection();
    var saved := guard.Enter(scene);
    if objects != [] {
      scene.selection := objects;
    }
    scene.selectMode := Component;
    scene.selection := answer(query, scene.selection);
    r := scene.selection;
    var propagates := guard.Exit(scene);
  }
}
