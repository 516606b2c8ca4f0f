/**
 * The plain objects the editor passes around: a placed image element and the
 * partial objects that are spread over it (`{...img, ...data}`).
 */
module Elements {
  import opened Options

  /** One placed image as the scene stores it. */
  datatype Element = Element(id: int, src: string, x: real, y: real, width: real, height: real)

  /** The geometric fields an object spread may carry; `None` means the key is absent. */
  datatype Attrs = Attrs(x: Option<real>, y: Option<real>, width: Option<real>, height: Option<real>)

  /** The spread of `{}`: no key present. */
  const NoAttrs: Attrs := Attrs(None, None, None, None)

  /** The object given to the scene's change handler: an id and whatever other keys it carries. */
  datatype Patch = Patch(id: int, src: Option<string>, attrs: Attrs)

  /** `{...e, ...rest}` restricted to the geometric keys: present keys win, absent keys keep `e`'s value. */
  function Override(e: Element, rest: Attrs): (r: Element)
    ensures r.id == e.id && r.src == e.src
    ensures rest.x.Some? ==> r.x == rest.x.value
    ensures rest.x.None? ==> r.x == e.x
    ensures rest.y.Some? ==> r.y == rest.y.value
    ensures rest.y.None? ==> r.y == e.y
    ensures rest.width.Some? ==> r.width == rest.width.value
    ensures rest.width.None? ==> r.width == e.width
    ensures rest.height.Some? ==> r.height == rest.height.value
    ensures rest.height.None? ==> r.height == e.height
  {
    e.(x := rest.x.GetOr(e.x), y := rest.y.GetOr(e.y),
       width := rest.width.GetOr(e.width), height := rest.height.GetOr(e.height))
  }

  /** `{...img, ...data}`: every key present in the patch overrides, every other key of `img` survives. */
  function Merge(img: Element, data: Patch): (r: Element)
    ensures r.id == data.id
    ensures data.src.Some? ==> r.src == data.src.value
    ensures data.src.None? ==> r.src == img.src
    ensures r.(id := img.id, src := img.src) == Override(img, data.attrs)
  {
    Override(img.(id := data.id, src := data.src.GetOr(img.src)), data.attrs)
  }

  /** Every key of `e` as a patch: what `onChange({...shapeProps, ...})` hands over. */
  function FullPatch(e: Element): (p: Patch)
    ensures p.id == e.id
    ensures forall img :: Merge(img, p) == e
  {
    Patch(e.id, Some(e.src), Attrs(Some(e.x), Some(e.y), Some(e.width), Some(e.height)))
  }

  /** A patch carrying only its id changes nothing but the id (which matched anyway). */
  lemma MergeEmptyPatch(img: Element, id: int)
    requires img.id == id
    ensures Merge(img, Patch(id, None, NoAttrs)) == img
  {
  }

  /** Spreading the same patch a second time has no further effect. */
  lemma MergeIdempotent(img: Element, data: Patch)
    ensures Merge(Merge(img, data), data) == Merge(img, data)
  {
  }

  /** Spreading two patches in turn equals spreading their combination, the later one winning. */
  lemma MergeTwice(img: Element, a: Patch, b: Patch)
    ensures Merge(Merge(img, a), b) == Merge(img, Then(a, b))
  {
  }

  /** `{...a, ...b}` on two patches. */
  function Then(a: Patch, b: Patch): (p: Patch)
  {
    Patch(b.id, if b.src.Some? then b.src else a.src,
          Attrs(if b.attrs.x.Some? then b.attrs.x else a.attrs.x,
                if b.attrs.y.Some? then b.attrs.y else a.attrs.y,
                if b.attrs.width.Some? then b.attrs.width else a.attrs.width,
                if b.attrs.height.Some? then b.attrs.height else a.attrs.height))
  }
}
