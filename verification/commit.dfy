/**
 * A gesture's update reaching the page: the object a shape hands to its change
 * handler is merged into the scene by id.
 */
module Commit {
  import opened Options
  import opened Elements
  import opened Scene
  import ImageShape

  /** Every element on the page is at least `MIN_SIZE` wide and high. */
  predicate AllAtLeastMin(imgs: seq<Element>)
  {
    forall i :: 0 <= i < |imgs| ==> imgs[i].width >= ImageShape.MIN_SIZE && imgs[i].height >= ImageShape.MIN_SIZE
  }

  /** Dropping the end of a drag: every element sharing the dragged id becomes the moved copy, the others are untouched, and the id becomes selected. */
  function CommitDrag(s: State, i: nat, nodeX: real, nodeY: real): (r: State)
    requires i < |s.images|
    ensures |r.images| == |s.images|
    ensures r.images[i] == s.images[i].(x := nodeX, y := nodeY)
    ensures forall j :: 0 <= j < |s.images| && s.images[j].id == s.images[i].id ==> r.images[j] == s.images[i].(x := nodeX, y := nodeY)
    ensures forall j :: 0 <= j < |s.images| && s.images[j].id != s.images[i].id ==> r.images[j] == s.images[j]
    ensures r.selected == Some(s.images[i].id)
  {
    Change(s, FullPatch(ImageShape.DragEnd(s.images[i], nodeX, nodeY)))
  }

  /** Ending a transform on the element at `i`: every element sharing its id takes the folded size and the node's position, the others are untouched, and the id becomes selected. */
  function CommitTransform(s: State, i: nat, node: ImageShape.Node): (r: State)
    requires i < |s.images|
    ensures |r.images| == |s.images|
    ensures r.images[i].id == s.images[i].id && r.images[i].src == s.images[i].src
    ensures r.images[i].x == node.x && r.images[i].y == node.y
    ensures r.images[i].width == ImageShape.MaxReal(ImageShape.MIN_SIZE, node.width * node.scaleX)
    ensures r.images[i].height == ImageShape.MaxReal(ImageShape.MIN_SIZE, node.height * node.scaleY)
    ensures r.images[i].width >= ImageShape.MIN_SIZE && r.images[i].height >= ImageShape.MIN_SIZE
    ensures forall j :: 0 <= j < |s.images| && s.images[j].id == s.images[i].id ==> r.images[j] == ImageShape.TransformEnd(s.images[i], node).update
    ensures forall j :: 0 <= j < |s.images| && s.images[j].id != s.images[i].id ==> r.images[j] == s.images[j]
    ensures r.selected == Some(s.images[i].id)
  {
    Change(s, FullPatch(ImageShape.TransformEnd(s.images[i], node).update))
  }

  /** A committed drag keeps every element at least the minimum size. */
  lemma CommitDragKeepsMinSize(s: State, i: nat, nodeX: real, nodeY: real)
    requires i < |s.images|
    requires AllAtLeastMin(s.images)
    ensures AllAtLeastMin(CommitDrag(s, i, nodeX, nodeY).images)
  {
  }

  /** A committed transform keeps every element at least the minimum size, whatever the scale. */
  lemma CommitTransformKeepsMinSize(s: State, i: nat, node: ImageShape.Node)
    requires i < |s.images|
    requires AllAtLeastMin(s.images)
    ensures AllAtLeastMin(CommitTransform(s, i, node).images)
  {
  }

  /** A new element has the default size, so adding one keeps every element at least the minimum size. */
  lemma NewKeepsMinSize(s: State)
    requires AllAtLeastMin(s.images)
    ensures AllAtLeastMin(New(s).images)
  {
  }

  /** Clicking a shape selects exactly that shape's id and leaves the elements alone. */
  lemma ClickSelectsShape(s: State, i: nat)
    requires i < |s.images|
    ensures var report := ImageShape.ReportSelect(s.images[i], true);
      report.Some? && Select(s, report.value) == s.(selected := Some(s.images[i].id))
  {
  }

  /** A delete only removes elements, so every survivor is still at least the minimum size. */
  lemma KeyDownKeepsMinSize(s: State, keyCode: int)
    requires AllAtLeastMin(s.images)
    ensures AllAtLeastMin(KeyDown(s, keyCode).images)
  {
  }

  /** The events a user can produce through the page's buttons, keys and shapes. */
  datatype Gesture =
    | PressNew
    | PressKey(keyCode: int)
    | DragShape(index: nat, nodeX: real, nodeY: real)
    | TransformShape(index: nat, node: ImageShape.Node)
    | ClickShape(index: nat)
    | StageDown(clickedOnEmpty: bool)

  /** One gesture; a gesture naming a shape that is not on the page changes nothing. */
  function Apply(s: State, g: Gesture): (r: State)
  {
    match g
    case PressNew => New(s)
    case PressKey(code) => KeyDown(s, code)
    case DragShape(i, nx, ny) => if i < |s.images| then CommitDrag(s, i, nx, ny) else s
    case TransformShape(i, node) => if i < |s.images| then CommitTransform(s, i, node) else s
    case ClickShape(i) => if i < |s.images| then Select(s, s.images[i].id) else s
    case StageDown(onEmpty) => Deselect(s, onEmpty)
  }

  function ApplyAll(s: State, gs: seq<Gesture>): (r: State)
    decreases |gs|
  {
    if gs == [] then s else ApplyAll(Apply(s, gs[0]), gs[1..])
  }

  /** One gesture keeps every element at least the minimum size. */
  lemma ApplyKeepsMinSize(s: State, g: Gesture)
    requires AllAtLeastMin(s.images)
    ensures AllAtLeastMin(Apply(s, g).images)
  {
    match g
    case PressNew => NewKeepsMinSize(s);
    case PressKey(code) => KeyDownKeepsMinSize(s, code);
    case DragShape(i, nx, ny) =>
      if i < |s.images| { CommitDragKeepsMinSize(s, i, nx, ny); }
    case TransformShape(i, node) =>
      if i < |s.images| { CommitTransformKeepsMinSize(s, i, node); }
    case ClickShape(i) =>
    case StageDown(onEmpty) =>
  }

  /** Whatever the user does, every element on the page stays at least `MIN_SIZE` wide and high. */
  lemma {:induction false} GesturesKeepMinSize(s: State, gs: seq<Gesture>)
    requires AllAtLeastMin(s.images)
    ensures AllAtLeastMin(ApplyAll(s, gs).images)
    decreases |gs|
  {
    if gs != [] {
      ApplyKeepsMinSize(s, gs[0]);
      GesturesKeepMinSize(Apply(s, gs[0]), gs[1..]);
    }
  }

  /** The page event a gesture performs: the shape's handlers end in `handleNew`, `handleKeyDown`, `handleChange`, `handleSelect` or `handleDeselect`. */
  function AsEvent(s: State, g: Gesture): (ev: Event)
    ensures Step(s, ev) == Apply(s, g)
    ensures ev.KeyPress? <==> g.PressKey?
    ensures g.PressKey? ==> ev.keyCode == g.keyCode
  {
    match g
    case PressNew => NewImage
    case PressKey(code) => KeyPress(code)
    case DragShape(i, nx, ny) =>
      if i < |s.images| then ChangeImage(FullPatch(ImageShape.DragEnd(s.images[i], nx, ny)))
      else PressStage(false)
    case TransformShape(i, node) =>
      if i < |s.images| then ChangeImage(FullPatch(ImageShape.TransformEnd(s.images[i], node).update))
      else PressStage(false)
    case ClickShape(i) =>
      if i < |s.images| then SelectImage(s.images[i].id) else PressStage(false)
    case StageDown(onEmpty) => PressStage(onEmpty)
  }

  /** No gesture in the history presses the delete key. */
  predicate NoDeleteGesture(gs: seq<Gesture>)
  {
    forall i :: 0 <= i < |gs| ==> !(gs[i].PressKey? && gs[i].keyCode == DELETE_KEY_CODE)
  }

  /** In a gesture history without the delete key, ids stay equal to positions, and so unique. */
  lemma {:induction false} DeleteFreeGesturesHaveUniqueIds(s: State, gs: seq<Gesture>)
    requires IdsAreIndices(s.images)
    requires NoDeleteGesture(gs)
    ensures IdsAreIndices(ApplyAll(s, gs).images)
    ensures UniqueIds(ApplyAll(s, gs).images)
    decreases |gs|
  {
    if gs == [] {
      IndicesAreUnique(s.images);
    } else {
      var ev := AsEvent(s, gs[0]);
      assert !(gs[0].PressKey? && gs[0].keyCode == DELETE_KEY_CODE);
      StepKeepsIdsAreIndices(s, ev);
      assert NoDeleteGesture(gs[1..]) by {
        forall i | 0 <= i < |gs[1..]|
          ensures !(gs[1..][i].PressKey? && gs[1..][i].keyCode == DELETE_KEY_CODE)
        {
          assert gs[1..][i] == gs[i + 1];
        }
      }
      DeleteFreeGesturesHaveUniqueIds(Apply(s, gs[0]), gs[1..]);
    }
  }
}
