/**
 * The active route chain as both title passes see it. Element 0 is
 * `activatedRoute.firstChild`; element k+1 is element k's `firstChild`; the
 * last element is the deepest active segment. A chain is never empty,
 * because reading `firstChild` of a null first child would throw.
 */
module RouteChain {

  import opened JsValues

  /** One active segment: the `snapshot.data` bag, resolver results included. */
  datatype Segment = Segment(data: map<string, Value>)

  /** `snapshot.data['title']`. */
  function TitleData(seg: Segment): Value
  {
    Lookup(seg.data, "title")
  }

  /** The truthiness test `if (child.snapshot.data['title'])`. */
  predicate Titled(seg: Segment)
  {
    Truthy(TitleData(seg))
  }

  /** Where the `while (child.firstChild)` loop stops. */
  function Deepest(chain: seq<Segment>): Segment
    requires |chain| >= 1
  {
    chain[|chain| - 1]
  }

  /** The segments the loop moves onto, root to leaf: every one but the first. */
  function Visited(chain: seq<Segment>): seq<Segment>
    requires |chain| >= 1
  {
    chain[1..]
  }
}
