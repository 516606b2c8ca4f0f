# Canvas image editor — Dafny model

This project models the state logic of a small React/Konva canvas editor. The editor places image
elements on a stage. Each element can be selected, dragged, resized with a transform handle, and
deleted with the backspace key. A separate application context holds key/value settings.

The model has three parts, one per source file, plus the plain objects they pass around:

- `Elements` (`elements.dfy`): the element record (`id`, `src`, `x`, `y`, `width`, `height`).
  It also holds the partial objects spread over an element. `Merge` is `{...img, ...data}`.
  Every key the patch carries wins; every other key keeps the element's value.
- `Scene` (`scene.dfy`): the page state is the ordered list `images` plus an optional `selectedId`.
  There is one pure transition per handler: `New`, `KeyDown`, `Change`, `Select` and `Deselect`.
  `Run` folds a history of events over the state.
- `ImageShape` (`image_shape.dfy`): the per-shape gesture handlers. These are the
  `MIN_SIZE` bound-box filter, the drag-end update and the transform-end update. The transform-end
  update folds the scale into the size, floors it at 5, and resets the node scale to one.
- `Commit` (`commit.dfy`): a gesture's update merged into the scene by id. This is where the
  "every element is at least 5 by 5" invariant is proved over any sequence of user gestures.
  `AsEvent` maps each gesture to the page event it performs, so id uniqueness in delete-free
  histories holds for gesture sequences too.
- `AppContext` (`app_context.dfy`): the reducer. `null` resets to the empty object. Any other
  update is shallow-merged over the old value.
- `Options` (`options.dfy`): `Option`, standing for an absent key or a `null` value.

Coordinates, sizes and scales are Dafny `real`. That is exact arithmetic, not IEEE doubles.

The model reproduces the id scheme of `handleNew`: the new id is the old length plus one.
`Scene.DeleteFreeRunHasUniqueIds` proves that ids equal positions, and are therefore unique, in any
history without a delete. `Scene.DeleteThenNewDuplicatesId` gives the concrete history that breaks
this: two news, a delete of id 1, and a new. The list ends with two elements with id 2.

Four behaviours of the code are worth stating:

- `handleSelect` selects any id, even one no element carries.
- `handleChange` selects `data.id` even when no element matched it.
- Delete removes every element carrying the selected id, not just one.
- The minimum-size floor is applied to both width and height, as the code does.

## Model

| member | source | states |
|---|---|---|
| Elements.Override | src/pages/index.jsx:26 | spreading extra geometric keys over an element: present keys win, absent keys keep the old value, id and src untouched |
| Elements.Merge | src/pages/index.jsx:66-69 | `{...img, ...data}`: the result carries data's id, data's src when present, and data's geometric keys over img's |
| Elements.FullPatch | src/components/canvas/ImageShape.jsx:54-58 | an update built by spreading a whole element replaces every key of whatever it is merged into |
| Elements.MergeEmptyPatch | src/pages/index.jsx:66-69 | a patch holding only the matching id leaves the element unchanged |
| Elements.MergeIdempotent | src/pages/index.jsx:66-69 | merging the same patch twice equals merging it once |
| Elements.MergeTwice | src/pages/index.jsx:66-69 | two merges in turn equal one merge of the combined patch, the later patch winning |
| Scene.CreateImage | src/pages/index.jsx:18-28 | the new element carries the given src and id; each of x, y, width, height is the override when given and 0, 0, 100, 100 otherwise |
| Scene.CreateImageDefaults | src/pages/index.jsx:12-28 | with no extra keys the element sits at the origin with size 100 by 100 |
| Scene.RemoveId | src/pages/index.jsx:57 | the filter never lengthens the list, and no survivor carries the removed id |
| Scene.RemoveIdContents | src/pages/index.jsx:57 | the filter keeps exactly the elements whose id differs, and shrinks the list by the number of elements carrying the id |
| Scene.CountIdZero | src/pages/index.jsx:57 | no element is removed exactly when no element carries the id |
| Scene.RemoveIdAppend | src/pages/index.jsx:57 | filtering distributes over concatenation, so survivors keep their relative order |
| Scene.RemoveIdAbsent | src/pages/index.jsx:57 | filtering an id no element carries returns the list unchanged |
| Scene.MergeMatching | src/pages/index.jsx:65-72 | the map keeps length and order; elements with the patch's id become the merge, all others are identical |
| Scene.New | src/pages/index.jsx:77-85 | exactly one default element is appended at the end with id old length + 1; the earlier elements and the selection are unchanged |
| Scene.KeyDown | src/pages/index.jsx:53-61 | key 8 with a selection replaces the list by its order-preserving filter, which removes every element with the selected id and keeps every other element with its multiplicity, and clears the selection; any other key, or no selection, changes nothing |
| Scene.Change | src/pages/index.jsx:63-75 | length and order are kept, matching elements are merged with data, the others are identical, and the selection becomes data.id even with no match |
| Scene.Select | src/pages/index.jsx:49-51 | the selection becomes the given id unconditionally; the images are unchanged |
| Scene.Deselect | src/pages/index.jsx:41-47 | a press on the stage itself clears the selection; any other press changes nothing |
| Scene.StepKeepsIdsAreIndices | src/pages/index.jsx:41-85 | every transition other than a delete keeps the k-th element's id equal to k |
| Scene.DeleteFreeRunHasUniqueIds | src/pages/index.jsx:83 | in a history with no delete key press, the k-th element has id k, so ids are unique |
| Scene.DeleteThenNewDuplicatesId | src/pages/index.jsx:53-85 | new, new, select 1, delete, new leaves two elements that both have id 2 |
| Scene.NewSelectDeleteRestores | src/pages/index.jsx:49-85 | adding an element, selecting it and pressing delete restores the previous list and leaves no selection, provided the new id was not already taken |
| Scene.NewSelectDeleteDropsClash | src/pages/index.jsx:49-85 | when the new id is already carried by an older element, the same round trip also drops that element, so the list shrinks and the selection is cleared |
| ImageShape.BoundBox | src/components/canvas/ImageShape.jsx:44-51 | a candidate narrower or lower than 5 is refused in favour of the old box, otherwise it is accepted; the result is always one of the two, and a min-size old box gives a min-size result |
| ImageShape.FramesKeepMinSize | src/components/canvas/ImageShape.jsx:44-51 | starting from a box of at least 5 by 5, any sequence of candidate frames leaves a box of at least 5 by 5 |
| ImageShape.FramesComeFromInputs | src/components/canvas/ImageShape.jsx:44-51 | the box in force after any frames is the starting box or one of the candidates |
| ImageShape.DragEnd | src/components/canvas/ImageShape.jsx:53-59 | the update is shapeProps with only x and y replaced by the node's final position |
| ImageShape.TransformEnd | src/components/canvas/ImageShape.jsx:61-78 | width and height become max(5, size times scale), so both are at least 5 for any scale; position comes from the node; id and src are carried; the node's scale is reset to 1, 1 |
| ImageShape.TransformEndUnitScale | src/components/canvas/ImageShape.jsx:67-76 | with scale 1, 1 and a size already at least 5, width and height are unchanged |
| ImageShape.TransformEndSettles | src/components/canvas/ImageShape.jsx:61-78 | once the node is reset and resized to the update, a second transform end reports the same update |
| ImageShape.ReportSelect | src/components/canvas/ImageShape.jsx:40-42 | a click reports the shape's own id when a select handler is supplied, and nothing otherwise |
| Commit.CommitDrag | src/components/canvas/ImageShape.jsx:53-59 | a committed drag turns every element sharing the dragged id, the dragged one included, into the dragged element at the node's position, leaves elements with other ids identical, and selects the dragged id |
| Commit.CommitTransform | src/components/canvas/ImageShape.jsx:61-78 | a committed transform gives the element the node's position and size max(5, size times scale) on each axis, keeps its id and src, turns every element sharing the id into the same update, leaves others identical, and selects the id |
| Commit.CommitDragKeepsMinSize | src/components/canvas/ImageShape.jsx:53-59 | a committed drag keeps every element at least 5 by 5 |
| Commit.CommitTransformKeepsMinSize | src/components/canvas/ImageShape.jsx:61-78 | a committed transform keeps every element at least 5 by 5, whatever the scale |
| Commit.NewKeepsMinSize | src/pages/index.jsx:77-85 | adding a default element keeps every element at least 5 by 5 |
| Commit.KeyDownKeepsMinSize | src/pages/index.jsx:53-61 | a delete keeps every surviving element at least 5 by 5 |
| Commit.GesturesKeepMinSize | src/pages/index.jsx:146-154 | any sequence of new, key, drag, transform, click and stage presses keeps every element at least 5 by 5 |
| Commit.AsEvent | src/pages/index.jsx:146-154 | each gesture performs exactly one page event: a drag or transform is a change with the shape's update, a click is a select, and only a key press is a key event, with the same key code |
| Commit.DeleteFreeGesturesHaveUniqueIds | src/pages/index.jsx:83 | in a gesture history that never presses the delete key, ids equal positions and are unique |
| Commit.ClickSelectsShape | src/components/canvas/ImageShape.jsx:40-42 | clicking a shape selects exactly that shape's id and leaves the elements alone |
| AppContext.Reduce | src/contexts/AppContextProvider.jsx:7-22 | null gives the empty initial state whatever the old state; otherwise the keys are the union, update keys take the update's value and other keys keep the old one |
| AppContext.ReduceIdempotent | src/contexts/AppContextProvider.jsx:21 | dispatching the same update twice equals dispatching it once |
| AppContext.ReduceEmptyUpdate | src/contexts/AppContextProvider.jsx:21 | merging the empty object leaves the state unchanged |
| AppContext.ReduceTwice | src/contexts/AppContextProvider.jsx:21 | two merges in turn equal one merge of the combined update, the later one winning |
| AppContext.ResetForgetsHistory | src/contexts/AppContextProvider.jsx:14-21 | after a null dispatch, the state depends only on the updates that follow it |
| AppContext.MergesOnlyAddKeys | src/contexts/AppContextProvider.jsx:21 | without a null dispatch no key is ever lost, and every dispatched key is present |

## Left out

- localStorage loading, saving and removal, and the `window` guards (src/contexts/AppContextProvider.jsx:9-12, 16-18, 24-41): browser I/O. The reducer is modelled without its `removeItem` side effect.
- The provider-missing error of `useAppContext` and all React context plumbing: rendering framework only.
- AppContext.Reduce: an `undefined` or non-object update is not modelled; the update is either `null` or an object of keys.
- React hooks and rendering: `useState`/`useEffect`, attaching the transformer with `nodes()`/`batchDraw`, the JSX layout, styling classes, and `key={i}`.
- Konva hit-testing (`e.target === e.target.getStage()`): an opaque boolean input to `Scene.Deselect`.
- Konva itself: the node's final position, size and scale arrive as a `Node` value. `ImageShape.FilterFrames` assumes Konva feeds each accepted box back as the next old box.
- `useImage` bitmap loading and the background image: an asynchronous foreign call with no state logic.
- The download button (`stageRef.current.toDataURL()`): foreign raster encoding.
- Cursor-style changes on mouse enter and leave: presentation only.
- `console.log` calls.
- Routing, the layout component and the build configuration: wiring with no logic.
- IEEE floating-point rounding, NaN and infinities: sizes and scales are exact `real`s.
- Elements.Merge: elements carry only id, src, x, y, width and height. Other keys an object spread could carry are not modelled.
- Scene.Change: the patch always has a numeric id. A `data` object with no id is not modelled.
- Scene.KeyDown: the selection is an integer or absent. The code's separate `undefined` and `null` checks both map to absent.
