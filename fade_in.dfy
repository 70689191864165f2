/** `observeFadeIns`: every `.fade-in` element is watched until it first intersects the
    viewport; it then gets the `visible` class and is no longer watched. An element is in one
    of two states, watched and hidden or shown and unwatched, and only moves from the first
    to the second. */
module FadeIn {

  /** An element of the page, by identity. */
  type Element = nat

  /** One `IntersectionObserverEntry` handed to the observer's callback. */
  datatype Entry = Entry(target: Element, isIntersecting: bool)

  /** The targets of the intersecting entries in `entries`. */
  function Revealed(entries: seq<Entry>): (r: set<Element>)
    ensures forall e :: e in r <==>
      exists k :: 0 <= k < |entries| && entries[k].isIntersecting && entries[k].target == e
  {
    if entries == [] then {}
    else
      var last := entries[|entries| - 1];
      var init := entries[..|entries| - 1];
      assert forall k :: 0 <= k < |init| ==> init[k] == entries[k];
      Revealed(init) + (if last.isIntersecting then {last.target} else {})
  }

  /** The elements listed in `elements`. */
  function Elements(elements: seq<Element>): (r: set<Element>)
    ensures forall e :: e in r <==> exists k :: 0 <= k < |elements| && elements[k] == e
  {
    set k | 0 <= k < |elements| :: elements[k]
  }

  class RevealObserver {
    /** The elements the observer is watching. */
    var observed: set<Element>
    /** The elements that carry the `visible` class. */
    var visible: set<Element>

    /** No element is both shown and still watched. */
    ghost predicate Valid()
      reads this
    {
      observed !! visible
    }

    /** `new IntersectionObserver(...)`: watching nothing, nothing shown. */
    constructor ()
      ensures observed == {} && visible == {} && Valid()
    {
      observed, visible := {}, {};
    }

    /** `observer.observe(el)`. */
    method Observe(el: Element)
      modifies this
      ensures observed == old(observed) + {el}
      ensures visible == old(visible)
    {
      observed := observed + {el};
    }

    /** `observer.unobserve(el)`. */
    method Unobserve(el: Element)
      modifies this
      ensures observed == old(observed) - {el}
      ensures visible == old(visible)
    {
      observed := observed - {el};
    }

    /** `fadeElements.forEach(el => observer.observe(el))`. */
    method ObserveAll(fadeElements: seq<Element>)
      modifies this
      ensures observed == old(observed) + Elements(fadeElements)
      ensures visible == old(visible)
    {
      for i := 0 to |fadeElements|
        invariant observed == old(observed) + Elements(fadeElements[..i])
        invariant visible == old(visible)
      {
        assert fadeElements[..i + 1] == fadeElements[..i] + [fadeElements[i]];
        Observe(fadeElements[i]);
      }
      assert fadeElements[..|fadeElements|] == fadeElements;
    }

    /** The observer's callback: each intersecting entry's target is shown and unwatched;
        entries that do not intersect change nothing, so nothing is ever hidden again. */
    method OnIntersection(entries: seq<Entry>)
      modifies this
      ensures visible == old(visible) + Revealed(entries)
      ensures observed == old(observed) - Revealed(entries)
      ensures old(Valid()) ==> Valid()
    {
      for i := 0 to |entries|
        invariant visible == old(visible) + Revealed(entries[..i])
        invariant observed == old(observed) - Revealed(entries[..i])
      {
        assert entries[..i + 1][..i] == entries[..i];
        var entry := entries[i];
        if entry.isIntersecting {
          visible := visible + {entry.target};
          Unobserve(entry.target);
        }
      }
      assert entries[..|entries|] == entries;
    }
  }

  /** `observeFadeIns()`: a new observer watching every fade-in element. */
  method ObserveFadeIns(fadeElements: seq<Element>) returns (observer: RevealObserver)
    ensures fresh(observer)
    ensures observer.observed == Elements(fadeElements) && observer.visible == {}
    ensures observer.Valid()
  {
    observer := new RevealObserver();
    observer.ObserveAll(fadeElements);
  }
}
