/**
 * `modeling.py` of fc_tools, fcTools and fcore and the modelling helpers of
 * `FC_Modeling.py`: flattening components onto an axis, freezing transforms,
 * the two x-ray toggles and locking/unlocking nodes. Host queries (component
 * conversion, the selected surface shapes, which `makeIdentity` calls throw)
 * are inputs.
 */
module Modeling {
  import opened Lists
  import opened VectorMath
  import opened SceneState
  import Components

  // ----- move_components_to_axis -----

  datatype Axis = X | Y | Z

  /** `if axis == 'x' ... elif axis == 'y' ... else`: every other string means z. */
  function AxisOf(name: string): (a: Axis)
    ensures a == X <==> name == "x"
    ensures a == Y <==> name == "y"
    ensures a == Z <==> name != "x" && name != "y"
  {
    if name == "x" then X else if name == "y" then Y else Z
  }

  /** `aver[0]`, `aver[1]`, `aver[2]`. */
  function Coord(p: Vec3, a: Axis): real {
    match a
    case X => p.x
    case Y => p.y
    case Z => p.z
  }

  /** `move(c, ..., x=True)` on one point: only the chosen coordinate changes. */
  function WithCoord(p: Vec3, a: Axis, c: real): (q: Vec3)
    ensures Coord(q, a) == c
    ensures forall b :: b != a ==> Coord(q, b) == Coord(p, b)
  {
    match a
    case X => Vec3(c, p.y, p.z)
    case Y => Vec3(p.x, c, p.z)
    case Z => Vec3(p.x, p.y, c)
  }

  /** The positions after the given vertices were moved to `c` along `a`. */
  function Flattened(positions: map<string, Vec3>, vertices: seq<string>, a: Axis, c: real): map<string, Vec3> {
    map v | v in positions :: if v in vertices then WithCoord(positions[v], a, c) else positions[v]
  }

  /**
   * `move_components_to_axis(components, axis)` given the converted
   * `vertices`: they all move, along one axis only, to their midpoint's
   * coordinate on that axis.
   */
  method MoveComponentsToAxis(scene: Scene, vertices: seq<string>, axis: string := "x")
    requires forall v :: v in vertices ==> v in scene.positions
    modifies scene`positions
    ensures scene.positions == Flattened(old(scene.positions), vertices, AxisOf(axis),
                                         Coord(Components.GetMidpoint(old(scene.positions), vertices), AxisOf(axis)))
  {
    var aver := Components.GetMidpoint(scene.positions, vertices);
    var a := AxisOf(axis);
    scene.positions := Flattened(scene.positions, vertices, a, Coord(aver, a));
  }

  /** Points that agree on one coordinate have a midpoint with that coordinate. */
  lemma CoordOfMidpoint(ps: seq<Vec3>, a: Axis, c: real)
    requires ps != [] && forall k :: 0 <= k < |ps| ==> Coord(ps[k], a) == c
    ensures Coord(Midpoint(ps), a) == c
  {
    var m := Midpoint(ps);
    match a
    case X => AgreeingAverage(Xs(ps), m.x, c);
    case Y => AgreeingAverage(Ys(ps), m.y, c);
    case Z => AgreeingAverage(Zs(ps), m.z, c);
  }

  /** A value that times the count gives the sum of equal numbers is that number. */
  lemma AgreeingAverage(xs: seq<real>, v: real, c: real)
    requires xs != [] && forall k :: 0 <= k < |xs| ==> xs[k] == c
    requires v * (|xs| as real) == Sum(xs)
    ensures v == c
  {
    SumOfCopies(xs, c);
    Cancel(v, c, |xs| as real);
  }

  /**
   * After the move the vertices are flat along the axis, the other two
   * coordinates and the other points are untouched, and the vertices'
   * midpoint keeps its coordinate on the axis.
   */
  lemma MoveComponentsToAxisSpec(positions: map<string, Vec3>, vertices: seq<string>, a: Axis)
    requires vertices != [] && forall v :: v in vertices ==> v in positions
    ensures var c := Coord(Components.GetMidpoint(positions, vertices), a);
            var after := Flattened(positions, vertices, a, c);
            after.Keys == positions.Keys &&
            (forall v :: v in vertices ==> Coord(after[v], a) == c) &&
            (forall v, b :: v in positions && b != a ==> Coord(after[v], b) == Coord(positions[v], b)) &&
            (forall v :: v in positions && v !in vertices ==> after[v] == positions[v]) &&
            Coord(Components.GetMidpoint(after, vertices), a) == c
  {
    var c := Coord(Components.GetMidpoint(positions, vertices), a);
    var after := Flattened(positions, vertices, a, c);
    var ps := Components.Positions(after, vertices);
    assert forall k :: 0 <= k < |ps| ==> Coord(ps[k], a) == c;
    CoordOfMidpoint(ps, a, c);
  }

  // ----- freeze_transforms -----

  /** The three `makeIdentity(apply=True, ...)` calls, in order. */
  const FreezeOrder: seq<Channel> := [Translate, Rotate, Scale]

  /**
   * `freeze_transforms()`: three independent attempts; a call that throws
   * (its channel is in `fails`) is reported and the next one still runs.
   */
  method FreezeTransforms(scene: Scene, fails: set<Channel>)
    modifies scene`identityApplied
    ensures scene.identityApplied == old(scene.identityApplied) + Filter(FreezeOrder, c => c !in fails)
  {
    var i := 0;
    while i < |FreezeOrder|
      invariant 0 <= i <= |FreezeOrder|
      invariant scene.identityApplied == old(scene.identityApplied) + Filter(FreezeOrder[..i], c => c !in fails)
    {
      var channel := FreezeOrder[i];
      assert FreezeOrder[..i + 1][..i] == FreezeOrder[..i];
      if channel !in fails {
        scene.identityApplied := scene.identityApplied + [channel];
      }
      i := i + 1;
    }
    assert FreezeOrder[..i] == FreezeOrder;
  }

  /** A failing channel never stops the others: exactly the channels that do not fail are frozen, in order. */
  lemma FreezeTransformsSpec(fails: set<Channel>)
    ensures forall c :: c in Filter(FreezeOrder, c => c !in fails) <==> c !in fails
    ensures fails == {} ==> Filter(FreezeOrder, c => c !in fails) == FreezeOrder
    ensures fails == {Rotate} ==> Filter(FreezeOrder, c => c !in fails) == [Translate, Scale]
  {
    FilterMembers(FreezeOrder, c => c !in fails);
    forall c: Channel ensures c in FreezeOrder {
      match c
      case Translate =>
      case Rotate =>
      case Scale =>
    }
    if fails == {} {
      FilterAll(FreezeOrder, c => c !in fails);
    }
    if fails == {Rotate} {
      assert FreezeOrder[..2] == [Translate, Rotate];
      assert [Translate, Rotate][..1] == [Translate];
      assert Filter([Translate], c => c !in fails) == [Translate];
      assert Filter([Translate, Rotate], c => c !in fails) == [Translate];
    }
  }

  // ----- toggle_x_ray_display (fc_tools, fcTools) -----

  /** Every object in `objects` shows x-ray `status`; every other shape keeps its flag. */
  function WithStatus(xRay: map<string, bool>, objects: seq<string>, status: bool): map<string, bool> {
    map n | n in xRay :: if n in objects then status else xRay[n]
  }

  /**
   * `toggle_x_ray_display(objects)` as a function of the flags: nothing for
   * no objects, otherwise all of them get the negation of the first one's.
   */
  function UniformXRay(xRay: map<string, bool>, objects: seq<string>): map<string, bool>
    requires forall n :: n in objects ==> n in xRay
  {
    if objects == [] then xRay else WithStatus(xRay, objects, !xRay[objects[0]])
  }

  method ToggleXRayDisplay(scene: Scene, objects: seq<string>)
    requires forall n :: n in objects ==> n in scene.xRay
    modifies scene`xRay
    ensures scene.xRay == UniformXRay(old(scene.xRay), objects)
  {
    if objects != [] {
      var status := !scene.xRay[objects[0]];
      var i := 0;
      while i < |objects|
        invariant 0 <= i <= |objects|
        invariant scene.xRay == WithStatus(old(scene.xRay), objects[..i], status)
      {
        assert forall n :: n in objects[..i + 1] <==> n in objects[..i] || n == objects[i];
        scene.xRay := scene.xRay[objects[i] := status];
        i := i + 1;
      }
      assert objects[..i] == objects;
    }
  }

  /**
   * One toggle leaves all objects agreeing, opposite to the first one's old
   * flag; a second toggle gives all of them the first one's old flag, so it
   * undoes the first exactly when the objects agreed to begin with.
   */
  lemma {:induction false} ToggleXRayDisplaySpec(xRay: map<string, bool>, objects: seq<string>)
    requires objects != [] && forall n :: n in objects ==> n in xRay
    ensures forall n :: n in objects ==> UniformXRay(xRay, objects)[n] == !xRay[objects[0]]
    ensures forall n :: n in xRay && n !in objects ==> UniformXRay(xRay, objects)[n] == xRay[n]
    ensures UniformXRay(UniformXRay(xRay, objects), objects) == WithStatus(xRay, objects, xRay[objects[0]])
    ensures (forall n :: n in objects ==> xRay[n] == xRay[objects[0]]) <==>
            UniformXRay(UniformXRay(xRay, objects), objects) == xRay
  {
    var once := UniformXRay(xRay, objects);
    assert once[objects[0]] == !xRay[objects[0]];
    var twice := UniformXRay(once, objects);
    assert twice == WithStatus(xRay, objects, xRay[objects[0]]);
    if twice == xRay {
      forall n | n in objects ensures xRay[n] == xRay[objects[0]] {
        assert twice[n] == xRay[objects[0]];
      }
    }
  }

  // ----- toggle_xray (FC_Modeling) -----

  /** Whether `n` occurs an odd number of times in `shapes`. */
  predicate OddlyOften(shapes: seq<string>, n: string) {
    multiset(shapes)[n] % 2 == 1
  }

  /** Each listed shape flips its own flag, once per time it is listed. */
  function FlippedXRay(xRay: map<string, bool>, shapes: seq<string>): map<string, bool> {
    map n | n in xRay :: if OddlyOften(shapes, n) then !xRay[n] else xRay[n]
  }

  /** `toggle_xray()`: every selected surface shape flips its own x-ray flag. */
  method ToggleXRay(scene: Scene, shapes: seq<string>)
    requires forall n :: n in shapes ==> n in scene.xRay
    modifies scene`xRay
    ensures scene.xRay == FlippedXRay(old(scene.xRay), shapes)
  {
    var i := 0;
    while i < |shapes|
      invariant 0 <= i <= |shapes|
      invariant scene.xRay == FlippedXRay(old(scene.xRay), shapes[..i])
    {
      assert shapes[..i + 1] == shapes[..i] + [shapes[i]];
      FlipStep(old(scene.xRay), shapes[..i], shapes[i]);
      scene.xRay := scene.xRay[shapes[i] := !scene.xRay[shapes[i]]];
      i := i + 1;
    }
    assert shapes[..i] == shapes;
  }

  /** Listing one more shape flips that shape once more. */
  lemma FlipStep(xRay: map<string, bool>, shapes: seq<string>, x: string)
    requires x in xRay
    ensures FlippedXRay(xRay, shapes + [x]) == FlippedXRay(xRay, shapes)[x := !FlippedXRay(xRay, shapes)[x]]
  {
    assert multiset(shapes + [x]) == multiset(shapes) + multiset{x};
  }

  /**
   * On a selection without repeats exactly the listed shapes flip; running
   * the toggle twice restores every flag.
   */
  lemma ToggleXRaySpec(xRay: map<string, bool>, shapes: seq<string>)
    ensures (forall a, b :: 0 <= a < b < |shapes| ==> shapes[a] != shapes[b]) ==>
            FlippedXRay(xRay, shapes) == map n | n in xRay :: if n in shapes then !xRay[n] else xRay[n]
    ensures FlippedXRay(FlippedXRay(xRay, shapes), shapes) == xRay
  {
    if forall a, b :: 0 <= a < b < |shapes| ==> shapes[a] != shapes[b] {
      forall n ensures multiset(shapes)[n] == if n in shapes then 1 else 0 {
        DistinctCount(shapes, n);
      }
    }
  }

  lemma {:induction false} DistinctCount(s: seq<string>, n: string)
    requires forall a, b :: 0 <= a < b < |s| ==> s[a] != s[b]
    ensures multiset(s)[n] == if n in s then 1 else 0
  {
    if s != [] {
      var init := s[..|s| - 1];
      assert s == init + [s[|s| - 1]];
      DistinctCount(init, n);
    }
  }

  /** The two toggles agree when the objects' flags agree; they differ on mixed flags. */
  lemma TogglesAgreeOnUniformFlags(xRay: map<string, bool>, objects: seq<string>)
    requires forall a, b :: 0 <= a < b < |objects| ==> objects[a] != objects[b]
    requires forall n :: n in objects ==> n in xRay
    ensures (forall n :: n in objects ==> xRay[n] == xRay[objects[0]]) <==>
            UniformXRay(xRay, objects) == FlippedXRay(xRay, objects)
  {
    ToggleXRaySpec(xRay, objects);
    if objects != [] && UniformXRay(xRay, objects) == FlippedXRay(xRay, objects) {
      forall n | n in objects ensures xRay[n] == xRay[objects[0]] {
        assert UniformXRay(xRay, objects)[n] == FlippedXRay(xRay, objects)[n];
      }
    }
  }

  // ----- change_lock_node (FC_Modeling) -----

  /** The selected nodes that are not yet in the requested lock state. */
  function LockTargets(locked: map<string, bool>, selection: seq<string>, lock: bool): set<string> {
    set n | n in selection && n in locked && locked[n] != lock
  }

  /** The nodes `change_lock_node` deletes among the ones it touched. */
  function DeletedBy(touched: set<string>, lock: bool, deleteNode: bool): (d: set<string>)
    ensures d <= touched
  {
    if !lock && deleteNode then touched else {}
  }

  /** The lock flags after `touched` got `lock` and the deleted nodes are gone. */
  function LockedAfter(locked: map<string, bool>, touched: set<string>, deleted: set<string>, lock: bool): map<string, bool> {
    map n | n in locked && n !in deleted :: if n in touched then lock else locked[n]
  }

  /** The set of nodes in a list. */
  function Members(s: seq<string>): set<string> {
    set n | n in s
  }

  /**
   * Handling one more node: when it is touched its flag becomes `lock` and,
   * when unlocking with deletion, it is gone.
   */
  lemma LockStep(locked: map<string, bool>, touched: set<string>, node: string, lock: bool, deleteNode: bool)
    requires node in locked && node !in touched
    ensures var t := touched + {node};
            var m := LockedAfter(locked, touched, DeletedBy(touched, lock, deleteNode), lock)[node := lock];
            LockedAfter(locked, t, DeletedBy(t, lock, deleteNode), lock) == if !lock && deleteNode then m - {node} else m
  {
  }

  /** `cmds.lockNode(node, q=True, lock=True)`: the query answers with a list of one flag. */
  function LockQuery(locked: map<string, bool>, n: string): (r: seq<bool>)
    requires n in locked
    ensures |r| == 1 && r[0] == locked[n]
  {
    [locked[n]]
  }

  /**
   * Python's `!=` between the list `getAttr` returns and a bool: a list never
   * equals a bool, so the test always holds and every listed node is written.
   */
  predicate ListDiffersFromBool(l: seq<bool>, b: bool) {
    true
  }

  /**
   * `change_lock_node(lock, delete_node)` as written: the guard compares the
   * query's list with a bool, so every selected node is set to `lock`, and
   * when unlocking with `delete_node` every selected node is deleted.
   */
  method ChangeLockNodeAsWritten(scene: Scene, lock: bool := false, deleteNode: bool := false)
    requires forall n :: n in scene.selection ==> n in scene.locked
    requires forall a, b :: 0 <= a < b < |scene.selection| ==> scene.selection[a] != scene.selection[b]
    modifies scene`locked, scene`nodes
    ensures var touched := Members(old(scene.selection));
            scene.locked == LockedAfter(old(scene.locked), touched, DeletedBy(touched, lock, deleteNode), lock) &&
            scene.nodes == old(scene.nodes) - DeletedBy(touched, lock, deleteNode)
  {
    var sel := scene.selection;
    var i := 0;
    while i < |sel|
      invariant 0 <= i <= |sel|
      invariant var touched := Members(sel[..i]);
        scene.locked == LockedAfter(old(scene.locked), touched, DeletedBy(touched, lock, deleteNode), lock) &&
        scene.nodes == old(scene.nodes) - DeletedBy(touched, lock, deleteNode)
    {
      var node := sel[i];
      assert node !in sel[..i];
      assert Members(sel[..i + 1]) == Members(sel[..i]) + {node} by {
        assert sel[..i + 1] == sel[..i] + [node];
      }
      LockStep(old(scene.locked), Members(sel[..i]), node, lock, deleteNode);
      if ListDiffersFromBool(LockQuery(scene.locked, node), lock) {
        scene.locked := scene.locked[node := lock];
        if !lock && deleteNode {
          scene.locked := scene.locked - {node};
          scene.nodes := scene.nodes - {node};
        }
      }
      i := i + 1;
    }
    assert sel[..i] == sel;
  }

  /**
   * `change_lock_node(lock, delete_node)` as intended: only nodes whose
   * queried flag differs from `lock` are touched, and only those are deleted.
   */
  method ChangeLockNode(scene: Scene, lock: bool := false, deleteNode: bool := false)
    requires forall n :: n in scene.selection ==> n in scene.locked
    requires forall a, b :: 0 <= a < b < |scene.selection| ==> scene.selection[a] != scene.selection[b]
    modifies scene`locked, scene`nodes
    ensures var touched := LockTargets(old(scene.locked), old(scene.selection), lock);
            scene.locked == LockedAfter(old(scene.locked), touched, DeletedBy(touched, lock, deleteNode), lock) &&
            scene.nodes == old(scene.nodes) - DeletedBy(touched, lock, deleteNode)
  {
    var sel := scene.selection;
    var i := 0;
    while i < |sel|
      invariant 0 <= i <= |sel|
      invariant var touched := LockTargets(old(scene.locked), sel[..i], lock);
        scene.locked == LockedAfter(old(scene.locked), touched, DeletedBy(touched, lock, deleteNode), lock) &&
        scene.nodes == old(scene.nodes) - DeletedBy(touched, lock, deleteNode)
    {
      var node := sel[i];
      assert node !in sel[..i];
      assert scene.locked[node] == old(scene.locked)[node];
      assert sel[..i + 1] == sel[..i] + [node];
      assert LockTargets(old(scene.locked), sel[..i + 1], lock) ==
             LockTargets(old(scene.locked), sel[..i], lock) + if old(scene.locked)[node] != lock then {node} else {};
      LockStep(old(scene.locked), LockTargets(old(scene.locked), sel[..i], lock), node, lock, deleteNode);
      if LockQuery(scene.locked, node)[0] != lock {
        scene.locked := scene.locked[node := lock];
        if !lock && deleteNode {
          scene.locked := scene.locked - {node};
          scene.nodes := scene.nodes - {node};
        }
      }
      i := i + 1;
    }
    assert sel[..i] == sel;
  }

  /**
   * After the intended command every selected node that is left has the
   * requested flag, only nodes that were locked are deleted, and running it
   * again finds nothing to do.
   */
  lemma ChangeLockNodeSpec(locked: map<string, bool>, selection: seq<string>, lock: bool, deleteNode: bool)
    requires forall n :: n in selection ==> n in locked
    ensures var touched := LockTargets(locked, selection, lock);
            var after := LockedAfter(locked, touched, DeletedBy(touched, lock, deleteNode), lock);
            (forall n :: n in selection && n in after ==> after[n] == lock) &&
            (forall n :: n in DeletedBy(touched, lock, deleteNode) ==> locked[n]) &&
            (forall n :: n in locked && n !in selection ==> n in after && after[n] == locked[n]) &&
            LockTargets(after, selection, lock) == {}
  {
  }

  /**
   * The as-written guard deletes a node that was never locked: one
   * unlocked selected node, unlocked again with `delete_node`.
   */
  lemma ChangeLockNodeDeletesUnlockedNode()
    ensures var locked, selection := map["pCube1" := false], ["pCube1"];
            DeletedBy(Members(selection), false, true) == {"pCube1"} &&
            DeletedBy(LockTargets(locked, selection, false), false, true) == {}
  {
    var locked, selection := map["pCube1" := false], ["pCube1"];
    assert LockTargets(locked, selection, false) == {};
  }
}
