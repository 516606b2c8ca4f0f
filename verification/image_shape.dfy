/**
 * The per-element gesture handlers of one image on the canvas: the resize
 * admission filter, and the updates built when a drag or a transform ends.
 */
module ImageShape {
  import opened Options
  import opened Elements

  /** The smallest width and height a resize may produce. */
  const MIN_SIZE: real := 5.0

  /** A candidate bounding box proposed by the transform handle on each frame. */
  datatype Box = Box(x: real, y: real, width: real, height: real, rotation: real)

  /** The rendered node at the end of a gesture: its final position, its size, and the scale the handle applied. */
  datatype Node = Node(x: real, y: real, width: real, height: real, scaleX: real, scaleY: real)

  /** What a transform end produces: the update handed to the scene, and the node with its scale reset. */
  datatype TransformOutcome = TransformOutcome(update: Element, node: Node)

  predicate BoxAtLeastMin(b: Box)
  {
    b.width >= MIN_SIZE && b.height >= MIN_SIZE
  }

  /** `Math.max` on two numbers. */
  function MaxReal(a: real, b: real): (r: real)
    ensures r >= a && r >= b
    ensures r == a || r == b
  {
    if a >= b then a else b
  }

  // ---------------------------------------------------------------------------
  // Resize admission

  /** `handleBoundBox`: refuse a candidate that is narrower or lower than `MIN_SIZE`, keeping the previous box. */
  function BoundBox(oldBox: Box, newBox: Box): (r: Box)
    ensures r == oldBox || r == newBox
    ensures newBox.width < MIN_SIZE || newBox.height < MIN_SIZE ==> r == oldBox
    ensures BoxAtLeastMin(newBox) ==> r == newBox
    ensures BoxAtLeastMin(oldBox) ==> BoxAtLeastMin(r)
  {
    if newBox.width < MIN_SIZE || newBox.height < MIN_SIZE then oldBox else newBox
  }

  /** The box in force after the handle proposes `frames` one by one, each accepted box becoming the next old box. */
  function FilterFrames(current: Box, frames: seq<Box>): (r: Box)
    decreases |frames|
  {
    if frames == [] then current else FilterFrames(BoundBox(current, frames[0]), frames[1..])
  }

  /** Starting from a box of at least the minimum size, no sequence of frames can shrink it below that size. */
  lemma {:induction false} FramesKeepMinSize(current: Box, frames: seq<Box>)
    requires BoxAtLeastMin(current)
    ensures BoxAtLeastMin(FilterFrames(current, frames))
    decreases |frames|
  {
    if frames != [] {
      FramesKeepMinSize(BoundBox(current, frames[0]), frames[1..]);
    }
  }

  /** The box in force is always the starting box or one of the proposed frames. */
  lemma {:induction false} FramesComeFromInputs(current: Box, frames: seq<Box>)
    ensures FilterFrames(current, frames) == current || FilterFrames(current, frames) in frames
    decreases |frames|
  {
    if frames != [] {
      FramesComeFromInputs(BoundBox(current, frames[0]), frames[1..]);
    }
  }

  // ---------------------------------------------------------------------------
  // Gesture ends

  /** `handleDragEnd`: the element with only its position replaced by the node's final position. */
  function DragEnd(shapeProps: Element, nodeX: real, nodeY: real): (r: Element)
    ensures r.id == shapeProps.id && r.src == shapeProps.src
    ensures r.width == shapeProps.width && r.height == shapeProps.height
    ensures r.x == nodeX && r.y == nodeY
  {
    shapeProps.(x := nodeX, y := nodeY)
  }

  /** `handleTransformEnd`: fold the node's scale into width and height, floored at `MIN_SIZE`, and reset the scale to one. */
  function TransformEnd(shapeProps: Element, node: Node): (r: TransformOutcome)
    ensures r.update.id == shapeProps.id && r.update.src == shapeProps.src
    ensures r.update.x == node.x && r.update.y == node.y
    ensures r.update.width == MaxReal(MIN_SIZE, node.width * node.scaleX)
    ensures r.update.height == MaxReal(MIN_SIZE, node.height * node.scaleY)
    ensures r.update.width >= MIN_SIZE && r.update.height >= MIN_SIZE
    ensures r.node == node.(scaleX := 1.0, scaleY := 1.0)
  {
    var n := node.(scaleX := 1.0, scaleY := 1.0);
    TransformOutcome(
      shapeProps.(x := node.x, y := node.y,
                  width := MaxReal(MIN_SIZE, node.width * node.scaleX),
                  height := MaxReal(MIN_SIZE, node.height * node.scaleY)),
      n)
  }

  /** An identity scale on a node of at least the minimum size leaves its width and height as they were. */
  lemma TransformEndUnitScale(shapeProps: Element, node: Node)
    requires node.scaleX == 1.0 && node.scaleY == 1.0
    requires node.width >= MIN_SIZE && node.height >= MIN_SIZE
    ensures TransformEnd(shapeProps, node).update.width == node.width
    ensures TransformEnd(shapeProps, node).update.height == node.height
  {
  }

  /** A second transform end on the reset node, before any further gesture, reports the same size. */
  lemma TransformEndSettles(shapeProps: Element, node: Node)
    ensures var r := TransformEnd(shapeProps, node);
      var again := TransformEnd(r.update, r.node.(width := r.update.width, height := r.update.height));
      again.update == r.update && again.node == r.node.(width := r.update.width, height := r.update.height)
  {
  }

  /** `handleSelect`: report the element's own id to the select handler, when one is supplied. */
  function ReportSelect(shapeProps: Element, hasHandler: bool): (r: Option<int>)
    ensures hasHandler ==> r == Some(shapeProps.id)
    ensures !hasHandler ==> r == None
  {
    if hasHandler then Some(shapeProps.id) else None
  }
}
