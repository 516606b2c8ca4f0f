/**
 * The editor page: an ordered list of image elements and an optional selected
 * id, changed by one pure transition per user event (new, key down, change,
 * select, deselect).
 */
module Scene {
  import opened Options
  import opened Elements

  const SUBJ_IMAGE_URL: string := "https://bigfork.org/wp-content/uploads/2018/06/Coca-Cola-8-oz-Glass-Bottle-002.jpg"
  const SUBJ_X: real := 0.0
  const SUBJ_Y: real := 0.0
  const SUBJ_WIDTH: real := 100.0
  const SUBJ_HEIGHT: real := 100.0
  const DELETE_KEY_CODE: int := 8

  /** The page state: `images` in paint order (later is on top) and `selectedId`. */
  datatype State = State(images: seq<Element>, selected: Option<int>)

  /** Both state hooks start empty. */
  const Init: State := State([], None)

  // ---------------------------------------------------------------------------
  // Element factory

  /** A new element at the default position and size, unless `rest` overrides a geometric key. */
  function CreateImage(src: string, id: int, rest: Attrs): (r: Element)
    ensures r.src == src && r.id == id
    ensures r.x == rest.x.GetOr(SUBJ_X) && r.y == rest.y.GetOr(SUBJ_Y)
    ensures r.width == rest.width.GetOr(SUBJ_WIDTH) && r.height == rest.height.GetOr(SUBJ_HEIGHT)
  {
    Override(Element(id, src, SUBJ_X, SUBJ_Y, SUBJ_WIDTH, SUBJ_HEIGHT), rest)
  }

  /** With nothing extra, the element sits at the origin with size 100 by 100. */
  lemma CreateImageDefaults(src: string, id: int)
    ensures CreateImage(src, id, NoAttrs) == Element(id, src, 0.0, 0.0, 100.0, 100.0)
  {
  }

  // ---------------------------------------------------------------------------
  // Helpers over the element list

  /** How many elements carry `id`. */
  function CountId(imgs: seq<Element>, id: int): (n: nat)
    ensures n <= |imgs|
  {
    if imgs == [] then 0
    else (if imgs[0].id == id then 1 else 0) + CountId(imgs[1..], id)
  }

  /** `imgs.filter(img => img.id !== id)`. */
  function RemoveId(imgs: seq<Element>, id: int): (r: seq<Element>)
    ensures |r| <= |imgs|
    ensures forall i :: 0 <= i < |r| ==> r[i].id != id
  {
    if imgs == [] then []
    else
      var rest := RemoveId(imgs[1..], id);
      if imgs[0].id == id then rest else [imgs[0]] + rest
  }

  /** No element carries `id` exactly when none is counted. */
  lemma {:induction false} CountIdZero(imgs: seq<Element>, id: int)
    ensures CountId(imgs, id) == 0 <==> forall e :: e in imgs ==> e.id != id
  {
    if imgs != [] {
      CountIdZero(imgs[1..], id);
      assert forall e :: e in imgs <==> e == imgs[0] || e in imgs[1..];
    }
  }

  /** The filter keeps exactly the elements whose id differs, and drops one element per occurrence of `id`. */
  lemma {:induction false} RemoveIdContents(imgs: seq<Element>, id: int)
    ensures |RemoveId(imgs, id)| == |imgs| - CountId(imgs, id)
    ensures forall e :: e in RemoveId(imgs, id) <==> e in imgs && e.id != id
  {
    if imgs != [] {
      RemoveIdContents(imgs[1..], id);
      assert forall e :: e in imgs <==> e == imgs[0] || e in imgs[1..];
    }
  }

  /** Filtering distributes over concatenation, so the survivors keep their relative order. */
  lemma {:induction false} RemoveIdAppend(a: seq<Element>, b: seq<Element>, id: int)
    ensures RemoveId(a + b, id) == RemoveId(a, id) + RemoveId(b, id)
  {
    if a == [] {
      assert a + b == b;
    } else {
      var ab := a + b;
      assert ab[0] == a[0];
      assert ab[1..] == a[1..] + b;
      RemoveIdAppend(a[1..], b, id);
      var tail := RemoveId(a[1..], id) + RemoveId(b, id);
      if a[0].id == id {
        assert RemoveId(ab, id) == tail;
        assert RemoveId(a, id) == RemoveId(a[1..], id);
      } else {
        assert RemoveId(ab, id) == [a[0]] + tail;
        assert RemoveId(a, id) == [a[0]] + RemoveId(a[1..], id);
      }
    }
  }

  /** A list with no element carrying `id` is left as it is. */
  lemma {:induction false} RemoveIdAbsent(imgs: seq<Element>, id: int)
    requires forall e :: e in imgs ==> e.id != id
    ensures RemoveId(imgs, id) == imgs
  {
    if imgs != [] {
      assert imgs[0] in imgs;
      assert forall e :: e in imgs[1..] ==> e in imgs;
      RemoveIdAbsent(imgs[1..], id);
      assert [imgs[0]] + imgs[1..] == imgs;
    }
  }

  /** `images.map(img => data.id === img.id ? {...img, ...data} : img)`. */
  function MergeMatching(imgs: seq<Element>, data: Patch): (r: seq<Element>)
    ensures |r| == |imgs|
    ensures forall i :: 0 <= i < |imgs| && imgs[i].id == data.id ==> r[i] == Merge(imgs[i], data)
    ensures forall i :: 0 <= i < |imgs| && imgs[i].id != data.id ==> r[i] == imgs[i]
  {
    if imgs == [] then []
    else
      [if imgs[0].id == data.id then Merge(imgs[0], data) else imgs[0]]
      + MergeMatching(imgs[1..], data)
  }

  // ---------------------------------------------------------------------------
  // Transitions

  /** `handleNew`: append one default element whose id is the old length plus one. */
  function New(s: State): (r: State)
    ensures |r.images| == |s.images| + 1
    ensures r.images[..|s.images|] == s.images
    ensures r.images[|s.images|] == CreateImage(SUBJ_IMAGE_URL, |s.images| + 1, NoAttrs)
    ensures r.selected == s.selected
  {
    State(s.images + [CreateImage(SUBJ_IMAGE_URL, |s.images| + 1, NoAttrs)], s.selected)
  }

  /** `handleKeyDown`: the delete key with a selection removes every element with the selected id and clears the selection. */
  function KeyDown(s: State, keyCode: int): (r: State)
    ensures keyCode == DELETE_KEY_CODE && s.selected.Some? ==>
      && r.selected == None
      && r.images == RemoveId(s.images, s.selected.value)
      && (forall e :: e in r.images <==> e in s.images && e.id != s.selected.value)
      && |r.images| == |s.images| - CountId(s.images, s.selected.value)
    ensures keyCode != DELETE_KEY_CODE || s.selected.None? ==> r == s
  {
    if keyCode == DELETE_KEY_CODE && s.selected.Some? then
      RemoveIdContents(s.images, s.selected.value);
      State(RemoveId(s.images, s.selected.value), None)
    else s
  }

  /** `handleChange`: merge `data` into every element with its id, in place, and select `data.id`. */
  function Change(s: State, data: Patch): (r: State)
    ensures |r.images| == |s.images|
    ensures forall i :: 0 <= i < |s.images| && s.images[i].id == data.id ==> r.images[i] == Merge(s.images[i], data)
    ensures forall i :: 0 <= i < |s.images| && s.images[i].id != data.id ==> r.images[i] == s.images[i]
    ensures r.selected == Some(data.id)
  {
    State(MergeMatching(s.images, data), Some(data.id))
  }

  /** `handleSelect`: select the given id, whether or not an element carries it. */
  function Select(s: State, id: int): (r: State)
    ensures r.images == s.images && r.selected == Some(id)
  {
    s.(selected := Some(id))
  }

  /** `handleDeselect`: a press that landed on the stage itself clears the selection; any other press changes nothing. */
  function Deselect(s: State, clickedOnEmpty: bool): (r: State)
    ensures r.images == s.images
    ensures clickedOnEmpty ==> r.selected == None
    ensures !clickedOnEmpty ==> r == s
  {
    if clickedOnEmpty then s.(selected := None) else s
  }

  // ---------------------------------------------------------------------------
  // Event histories

  /** The events the page reacts to. */
  datatype Event =
    | NewImage
    | KeyPress(keyCode: int)
    | ChangeImage(data: Patch)
    | SelectImage(id: int)
    | PressStage(clickedOnEmpty: bool)

  function Step(s: State, ev: Event): (r: State)
  {
    match ev
    case NewImage => New(s)
    case KeyPress(code) => KeyDown(s, code)
    case ChangeImage(data) => Change(s, data)
    case SelectImage(id) => Select(s, id)
    case PressStage(onEmpty) => Deselect(s, onEmpty)
  }

  /** The state after handling `evs` in order. */
  function Run(s: State, evs: seq<Event>): (r: State)
    decreases |evs|
  {
    if evs == [] then s else Run(Step(s, evs[0]), evs[1..])
  }

  /** No event in the history is a press of the delete key. */
  predicate DeleteFree(evs: seq<Event>)
  {
    forall i :: 0 <= i < |evs| ==> !(evs[i].KeyPress? && evs[i].keyCode == DELETE_KEY_CODE)
  }

  /** The k-th element (counting from one) has id k. */
  predicate IdsAreIndices(imgs: seq<Element>)
  {
    forall k :: 0 <= k < |imgs| ==> imgs[k].id == k + 1
  }

  /** No two positions hold elements with the same id. */
  predicate UniqueIds(imgs: seq<Element>)
  {
    forall i, j :: 0 <= i < |imgs| && 0 <= j < |imgs| && i != j ==> imgs[i].id != imgs[j].id
  }

  lemma IndicesAreUnique(imgs: seq<Element>)
    requires IdsAreIndices(imgs)
    ensures UniqueIds(imgs)
  {
  }

  /** Every transition except a delete keeps the k-th element's id equal to k. */
  lemma StepKeepsIdsAreIndices(s: State, ev: Event)
    requires IdsAreIndices(s.images)
    requires !(ev.KeyPress? && ev.keyCode == DELETE_KEY_CODE)
    ensures IdsAreIndices(Step(s, ev).images)
  {
  }

  /** In a history without deletes, starting from any state whose ids equal positions (the empty page among them), ids stay equal to positions and hence unique. */
  lemma {:induction false} DeleteFreeRunHasUniqueIds(s: State, evs: seq<Event>)
    requires IdsAreIndices(s.images)
    requires DeleteFree(evs)
    ensures IdsAreIndices(Run(s, evs).images)
    ensures UniqueIds(Run(s, evs).images)
    decreases |evs|
  {
    if evs == [] {
      IndicesAreUnique(s.images);
    } else {
      StepKeepsIdsAreIndices(s, evs[0]);
      assert DeleteFree(evs[1..]) by {
        forall i | 0 <= i < |evs[1..]|
          ensures !(evs[1..][i].KeyPress? && evs[1..][i].keyCode == DELETE_KEY_CODE)
        {
          assert evs[1..][i] == evs[i + 1];
        }
      }
      DeleteFreeRunHasUniqueIds(Step(s, evs[0]), evs[1..]);
    }
  }

  /** Two news, a delete of the first element, and a third new give two elements with id 2. */
  lemma DeleteThenNewDuplicatesId()
    ensures var s := Run(Init, [NewImage, NewImage, SelectImage(1), KeyPress(DELETE_KEY_CODE), NewImage]);
      |s.images| == 2 && s.images[0].id == 2 && s.images[1].id == 2 && !UniqueIds(s.images)
  {
    var evs := [NewImage, NewImage, SelectImage(1), KeyPress(DELETE_KEY_CODE), NewImage];
    var s1 := New(Init);
    var s2 := New(s1);
    var s3 := Select(s2, 1);
    var s4 := KeyDown(s3, DELETE_KEY_CODE);
    var s5 := New(s4);
    assert Run(Init, evs) == Run(s1, evs[1..]);
    assert Run(s1, evs[1..]) == Run(s2, evs[2..]);
    assert Run(s2, evs[2..]) == Run(s3, evs[3..]);
    assert Run(s3, evs[3..]) == Run(s4, evs[4..]);
    assert Run(s4, evs[4..]) == Run(s5, []);
    assert s2.images[0].id == 1 && s2.images[1].id == 2;
    assert s4.images == [s2.images[1]];
    assert s5.images[0].id == 2 && s5.images[1].id == 2;
  }

  /** Adding an element, selecting it and pressing delete restores the list when the new id was not already taken. */
  lemma NewSelectDeleteRestores(s: State)
    requires forall e :: e in s.images ==> e.id != |s.images| + 1
    ensures var r := KeyDown(Select(New(s), |s.images| + 1), DELETE_KEY_CODE);
      r.images == s.images && r.selected == None
  {
    var added := CreateImage(SUBJ_IMAGE_URL, |s.images| + 1, NoAttrs);
    RemoveIdAppend(s.images, [added], |s.images| + 1);
    RemoveIdAbsent(s.images, |s.images| + 1);
  }

  /** When the new id is already taken, the same round trip also drops every older element carrying that id. */
  lemma NewSelectDeleteDropsClash(s: State, k: nat)
    requires k < |s.images| && s.images[k].id == |s.images| + 1
    ensures var r := KeyDown(Select(New(s), |s.images| + 1), DELETE_KEY_CODE);
      && r.images == RemoveId(s.images, |s.images| + 1)
      && |r.images| < |s.images|
      && s.images[k] !in r.images
      && r.selected == None
  {
    var id := |s.images| + 1;
    var added := CreateImage(SUBJ_IMAGE_URL, id, NoAttrs);
    RemoveIdAppend(s.images, [added], id);
    assert RemoveId([added], id) == [];
    assert s.images + [added] == New(s).images;
    RemoveIdContents(s.images, id);
    CountIdZero(s.images, id);
    assert s.images[k] in s.images;
  }
}
