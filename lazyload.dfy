/**
 * The lazy-loading step of `preloadNextSlide`: an element carrying a
 * `data-src` attribute gets its real `src` from it and loses the attribute.
 */
module LazyLoad {
  import opened Wrappers

  /** The two attributes of an element that preloading reads and writes. */
  datatype LazyElement = LazyElement(dataSrc: Option<string>, src: string)

  /**
   * An element still waiting for its asset: it has a `data-src` attribute
   * and that attribute is truthy (the JavaScript test `element.dataset.src`
   * is false for an empty string).
   */
  predicate Deferred(e: LazyElement) {
    e.dataSrc.Some? && e.dataSrc.value != ""
  }

  /** Preloading one element. */
  function Load(e: LazyElement): (r: LazyElement)
    ensures !Deferred(r)
    ensures Deferred(e) ==> r.src == e.dataSrc.value && r.dataSrc == None
    ensures !Deferred(e) ==> r == e
  {
    if Deferred(e) then LazyElement(None, e.dataSrc.value) else e
  }

  /**
   * Preloading every element of a slide, in document order: each element is
   * loaded on its own, in its place.
   */
  function Preloaded(s: seq<LazyElement>): (r: seq<LazyElement>)
    ensures |r| == |s|
    ensures forall k :: 0 <= k < |s| ==> r[k] == Load(s[k])
  {
    if s == [] then [] else [Load(s[0])] + Preloaded(s[1..])
  }

  /** After preloading, no element of the slide is still deferred. */
  lemma PreloadedLeavesNoneDeferred(s: seq<LazyElement>)
    ensures forall k :: 0 <= k < |s| ==> !Deferred(Preloaded(s)[k])
  {
  }

  /** A second preload of the same slide changes nothing. */
  lemma PreloadedIdempotent(s: seq<LazyElement>)
    ensures Preloaded(Preloaded(s)) == Preloaded(s)
  {
  }
}
