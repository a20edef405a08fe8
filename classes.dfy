/** The records the interactive layered layout works on: graph nodes with their
    layout attributes, the layers derived from them, the model elements a node
    list is filtered from, and the constraints sent to the layout engine. */
module ConstraintClasses {

  /** Largest finite double (Number.MAX_VALUE), used as the "no minimum yet" sentinel. */
  const MaxValue: real := 1.7976931348623157e308
  /** Smallest positive double (Number.MIN_VALUE), used as the "no maximum yet" sentinel. */
  const MinValue: real := 5e-324

  /** A node of a layered graph, as the diagram model holds it during a drag. */
  class KNode {
    const id: string
    // live position and size
    var x: real
    var y: real
    var width: real
    var height: real
    // layout attributes computed by the layout engine
    var layerId: int
    var posId: int
    // user-set constraints: a layer constraint takes effect when it lies beyond
    // the node's layer id, a position constraint when it lies beyond the node's
    // index among its layer's nodes sorted by y
    var layerCons: int
    var posCons: int
    var selected: bool
    var interactiveLayout: bool
    // pre-drag snapshot of the position
    var shadow: bool
    var shadowX: real
    var shadowY: real

    constructor (id: string, x: real, y: real, width: real, height: real,
                 layerId: int, posId: int, layerCons: int, posCons: int,
                 selected: bool, interactiveLayout: bool)
      ensures this.id == id && this.x == x && this.y == y
      ensures this.width == width && this.height == height
      ensures this.layerId == layerId && this.posId == posId
      ensures this.layerCons == layerCons && this.posCons == posCons
      ensures this.selected == selected && this.interactiveLayout == interactiveLayout
      ensures !shadow
    {
      this.id, this.x, this.y, this.width, this.height := id, x, y, width, height;
      this.layerId, this.posId := layerId, posId;
      this.layerCons, this.posCons := layerCons, posCons;
      this.selected, this.interactiveLayout := selected, interactiveLayout;
      shadow, shadowX, shadowY := false, 0.0, 0.0;
    }
  }

  datatype Option<T> = None | Some(value: T)

  /** Horizontal bounds, midpoint and vertical bounds of one layer. */
  datatype Layer = Layer(leftX: real, rightX: real, mid: real, topY: real, botY: real)

  /** `new Layer(leftX, rightX, mid)`: the vertical bounds are set later by every caller. */
  function NewLayer(leftX: real, rightX: real, mid: real): Layer
  {
    Layer(leftX, rightX, mid, 0.0, 0.0)
  }

  /** An element of the diagram model: a node, or anything else (edges, labels, ports). */
  datatype SModelElement = SNode(node: KNode) | OtherElement

  /** What a drag release asks of the layout engine. */
  datatype Constraint =
    | StaticConstraint(nodeId: string, layer: int, layerCons: int, position: int, posCons: int)
    | PositionConstraint(nodeId: string, position: int, posCons: int)
    | RefreshLayout

  /** Left and top edge used for layer geometry: the shadow while it is active. */
  function LeftX(n: KNode): real
    reads n
  {
    if n.shadow then n.shadowX else n.x
  }

  function TopY(n: KNode): real
    reads n
  {
    if n.shadow then n.shadowY else n.y
  }

  function RightX(n: KNode): real
    reads n
  {
    LeftX(n) + n.width
  }

  function BotY(n: KNode): real
    reads n
  {
    TopY(n) + n.height
  }
}
