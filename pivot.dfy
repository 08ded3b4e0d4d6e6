/**
 * `pivot.py` of fg_tools and fc_tools and `pivot.py` of fcTools: the pivot
 * clipboard (two module globals) and the moves of an object's rotate and
 * scale pivots. `exactWorldBoundingBox`, the component-to-vertex conversion
 * and `listRelatives` are host queries and come in as inputs.
 */
module Pivot {
  import opened Outcomes
  import opened Text
  import opened VectorMath
  import opened SceneState
  import Components

  /** `move(x, y, z, obj + '.scalePivot')` and the same for '.rotatePivot': both pivots at one point. */
  function Both(p: Vec3): Pivots {
    Pivots(p, p)
  }

  // ----- the clipboard -----

  /** `ROTATE_PIVOT` / `SCALE_PIVOT` (fcTools: `gROTATEPIVOT` / `gSCALEPIVOT`). */
  class PivotClipboard {
    var rotatePivot: Vec3
    var scalePivot: Vec3

    /** The module is loaded: both globals are the zero vector. */
    constructor ()
      ensures rotatePivot == Origin && scalePivot == Origin
    {
      rotatePivot := Origin;
      scalePivot := Origin;
    }

    /** `copy_pivot(obj)`: both globals take the object's world pivots; no object changes. */
    method CopyPivot(scene: Scene, obj: string)
      requires obj in scene.pivots
      modifies this
      ensures rotatePivot == scene.pivots[obj].rotate && scalePivot == scene.pivots[obj].scale
    {
      rotatePivot := scene.pivots[obj].rotate;
      scalePivot := scene.pivots[obj].scale;
    }

    /** `paste_pivot(obj)`: the object's pivots take the globals; the globals stay. */
    method PastePivot(scene: Scene, obj: string)
      modifies scene`pivots
      ensures scene.pivots == old(scene.pivots)[obj := Pivots(rotatePivot, scalePivot)]
    {
      scene.pivots := scene.pivots[obj := Pivots(rotatePivot, scalePivot)];
    }
  }

  /**
   * Copying from `source` and pasting onto `target` gives `target` the
   * pivots `source` had; every other object keeps its pivots.
   */
  method CopyThenPaste(clipboard: PivotClipboard, scene: Scene, source: string, target: string)
    requires source in scene.pivots
    modifies clipboard, scene`pivots
    ensures scene.pivots == old(scene.pivots)[target := old(scene.pivots)[source]]
  {
    clipboard.CopyPivot(scene, source);
    clipboard.PastePivot(scene, target);
  }

  // ----- world centre and bottom -----

  /** `move_pivot_to_world_center(obj)`. */
  method MovePivotToWorldCenter(scene: Scene, obj: string)
    modifies scene`pivots
    ensures scene.pivots == old(scene.pivots)[obj := Both(Origin)]
  {
    scene.pivots := scene.pivots[obj := Both(Origin)];
  }

  /** The six numbers `exactWorldBoundingBox` returns. */
  datatype BoundingBox = BoundingBox(xMin: real, yMin: real, zMin: real, xMax: real, yMax: real, zMax: real)

  /** The point `pivot_to_bottom` moves to: the box's centre in x and z, its floor in y. */
  function BottomCentre(b: BoundingBox): (p: Vec3)
    ensures p.y == b.yMin
    ensures p.x - b.xMin == b.xMax - p.x && p.z - b.zMin == b.zMax - p.z
  {
    Vec3((b.xMax - b.xMin) * 0.5 + b.xMin, b.yMin, (b.zMax - b.zMin) * 0.5 + b.zMin)
  }

  /** The pivot table after every object in `objects` got `pv`. */
  function WithPivots(pivots: map<string, Pivots>, objects: seq<string>, pv: Pivots): (r: map<string, Pivots>)
    ensures r.Keys == pivots.Keys + (set o | o in objects)
    ensures forall o :: o in r ==> r[o] == if o in objects then pv else pivots[o]
  {
    var added := set o | o in objects;
    map o | o in pivots.Keys + added :: if o in objects then pv else pivots[o]
  }

  /**
   * `pivot_to_bottom(objects)`: every object's pivots go to the bottom
   * centre of the objects' common bounding box `box`.
   */
  method PivotToBottom(scene: Scene, objects: seq<string>, box: BoundingBox)
    modifies scene`pivots
    ensures scene.pivots == WithPivots(old(scene.pivots), objects, Both(BottomCentre(box)))
  {
    var p := BottomCentre(box);
    var i := 0;
    while i < |objects|
      invariant 0 <= i <= |objects|
      invariant scene.pivots == WithPivots(old(scene.pivots), objects[..i], Both(p))
    {
      assert objects[..i + 1] == objects[..i] + [objects[i]];
      scene.pivots := scene.pivots[objects[i] := Both(p)];
      i := i + 1;
    }
    assert objects[..i] == objects;
  }

  // ----- move_pivot_to_components -----

  /** How each copy finds the transform whose pivots move. */
  datatype TransformLookup =
    | OwnerOfVertex  // fg_tools: `vertices[0].split('.')[0]`
    | ParentOfShape  // fc_tools, fcTools: `listRelatives(shape, parent=True)[0]`

  /**
   * The transform for the first vertex. `parentOf` is `listRelatives(...,
   * parent=True)`; its None (no parent) cannot be indexed.
   */
  function PivotOwner(lookup: TransformLookup, vertex: string, parentOf: string -> Option<seq<string>>): (r: Result<string>)
    ensures lookup == OwnerOfVertex ==> r == Ok(BeforeFirst(vertex, '.'))
    ensures lookup == ParentOfShape ==> (r.Err? <==> parentOf(BeforeFirst(vertex, '.')).None? || parentOf(BeforeFirst(vertex, '.')).value == [])
  {
    var shape := BeforeFirst(vertex, '.');
    match lookup
    case OwnerOfVertex => Ok(shape)
    case ParentOfShape =>
      match parentOf(shape)
      case None => Err(TypeError)
      case Some(parents) => if parents == [] then Err(IndexError) else Ok(parents[0])
  }

  /**
   * `move_pivot_to_components(components)` given the converted `vertices`:
   * no vertex is an IndexError; otherwise both pivots of the owning
   * transform go to the vertices' midpoint.
   */
  method MovePivotToComponents(scene: Scene, lookup: TransformLookup, vertices: seq<string>,
                               parentOf: string -> Option<seq<string>>) returns (r: Result<()>)
    requires forall v :: v in vertices ==> v in scene.positions
    modifies scene`pivots
    ensures vertices == [] ==> r == Err(IndexError) && scene.pivots == old(scene.pivots)
    ensures vertices != [] ==> match PivotOwner(lookup, vertices[0], parentOf)
      case Err(e) => r == Err(e) && scene.pivots == old(scene.pivots)
      case Ok(t) => (r == Ok(()) &&
        scene.pivots == old(scene.pivots)[t := Both(Components.GetMidpoint(scene.positions, vertices))])
  {
    if vertices == [] {
      return Err(IndexError);
    }
    var owner := PivotOwner(lookup, vertices[0], parentOf);
    if owner.Err? {
      return Err(owner.error);
    }
    var mid := Components.GetMidpoint(scene.positions, vertices);
    scene.pivots := scene.pivots[owner.value := Both(mid)];
    return Ok(());
  }

  /** Components whose vertices all sit at one point put the pivots exactly there. */
  lemma PivotOfCoincidentVertices(positions: map<string, Vec3>, vertices: seq<string>, p: Vec3)
    requires vertices != [] && forall v :: v in vertices ==> v in positions && positions[v] == p
    ensures Both(Components.GetMidpoint(positions, vertices)) == Pivots(p, p)
  {
    Components.GetMidpointOfCoincident(positions, vertices, p);
  }
}
