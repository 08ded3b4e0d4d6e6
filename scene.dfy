/**
 * The part of the Maya scene the tools read and edit, as plain maps: the
 * pivots of transforms, vertex positions, the x-ray flag of shapes, the lock
 * flag of nodes, the selection and its mode, and the log of
 * `makeIdentity(apply=True, ...)` calls. What the host computes on its own
 * (component conversion, bounding boxes, mesh classification) is passed to
 * the operations as inputs.
 */
module SceneState {
  import opened VectorMath

  /** The world-space rotate and scale pivots of a transform. */
  datatype Pivots = Pivots(rotate: Vec3, scale: Vec3)

  /** The seven selection modes `UserSelection` knows. */
  datatype SelectMode = Object | Component | Root | Leaf | Template | Hierarchical | Preset

  /** The channels `makeIdentity` can freeze. */
  datatype Channel = Translate | Rotate | Scale

  class Scene {
    /** The nodes that exist (`objExists`). */
    var nodes: set<string>
    var pivots: map<string, Pivots>
    var positions: map<string, Vec3>
    var xRay: map<string, bool>
    var locked: map<string, bool>
    var selection: seq<string>
    var selectMode: SelectMode
    /** The channels frozen so far, in call order. */
    var identityApplied: seq<Channel>

    constructor (nodes: set<string>, pivots: map<string, Pivots>, positions: map<string, Vec3>,
                 xRay: map<string, bool>, locked: map<string, bool>, selection: seq<string>, selectMode: SelectMode)
      ensures this.nodes == nodes && this.pivots == pivots && this.positions == positions
      ensures this.xRay == xRay && this.locked == locked && this.selection == selection
      ensures this.selectMode == selectMode && identityApplied == []
    {
      this.nodes := nodes;
      this.pivots := pivots;
      this.positions := positions;
      this.xRay := xRay;
      this.locked := locked;
      this.selection := selection;
      this.selectMode := selectMode;
      identityApplied := [];
    }
  }
}
