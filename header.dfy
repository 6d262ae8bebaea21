/** The header hide/reveal controller: on every scroll event the fixed header
    is hidden when the page moved down past a threshold, and shown otherwise.
    The only state is the previous offset and the header's `hidden` class. */
module Header {

  /** Offsets at or below this never hide the header. */
  const HideThreshold: int := 100

  datatype HeaderState = HeaderState(lastScrollTop: int, hidden: bool)

  /** The offset a scroll event reads: `pageYOffset`, unless it is 0 (falsy),
      in which case the document element's `scrollTop`. */
  function ScrollOffset(pageYOffset: int, documentScrollTop: int): (top: int)
    ensures pageYOffset != 0 ==> top == pageYOffset
    ensures pageYOffset == 0 ==> top == documentScrollTop
  {
    if pageYOffset != 0 then pageYOffset else documentScrollTop
  }

  /** The state after one scroll event that read offset `scrollTop`. */
  function Scrolled(s: HeaderState, scrollTop: int): (t: HeaderState)
  {
    HeaderState(scrollTop, scrollTop > s.lastScrollTop && scrollTop > HideThreshold)
  }

  /** The state after a whole run of scroll events, in order. */
  function Replay(s: HeaderState, offsets: seq<int>): (t: HeaderState)
    decreases |offsets|
  {
    if offsets == [] then s else Replay(Scrolled(s, offsets[0]), offsets[1..])
  }

  /** After any non-empty run of scroll events the stored offset is the last
      one read, and the header is hidden exactly when that offset exceeds both
      the threshold and the offset read just before it (the starting offset
      when the run has one event). */
  lemma {:induction false} ReplayLast(s: HeaderState, offsets: seq<int>)
    requires |offsets| > 0
    ensures Replay(s, offsets).lastScrollTop == offsets[|offsets| - 1]
    ensures var last := offsets[|offsets| - 1];
            var previous := if |offsets| == 1 then s.lastScrollTop else offsets[|offsets| - 2];
            Replay(s, offsets).hidden <==> last > previous && last > HideThreshold
    decreases |offsets|
  {
    if |offsets| > 1 {
      ReplayLast(Scrolled(s, offsets[0]), offsets[1..]);
    }
  }

  /** No state accumulates beyond the last two offsets: two histories that end
      in the same two scroll events leave the header in the same state. */
  lemma ReplayForgetsHistory(s: HeaderState, t: HeaderState, offsets: seq<int>)
    requires |offsets| >= 2
    ensures Replay(s, offsets) == Replay(t, offsets)
  {
    ReplayLast(s, offsets);
    ReplayLast(t, offsets);
  }

  /** The controller attached when the header element exists. */
  class HeaderController {
    var lastScrollTop: int
    var hidden: bool

    function State(): HeaderState
      reads this
    {
      HeaderState(lastScrollTop, hidden)
    }

    /** `lastScrollTop` starts at 0; `hidden` is whatever the markup gave. */
    constructor (initiallyHidden: bool)
      ensures State() == HeaderState(0, initiallyHidden)
    {
      lastScrollTop := 0;
      hidden := initiallyHidden;
    }

    /** One scroll event. */
    method OnScroll(pageYOffset: int, documentScrollTop: int)
      modifies this
      ensures State() == Scrolled(old(State()), ScrollOffset(pageYOffset, documentScrollTop))
      ensures var top := ScrollOffset(pageYOffset, documentScrollTop);
              lastScrollTop == top &&
              (hidden <==> top > old(lastScrollTop) && top > HideThreshold)
    {
      var scrollTop := ScrollOffset(pageYOffset, documentScrollTop);
      if scrollTop > lastScrollTop && scrollTop > HideThreshold {
        hidden := true;
      } else {
        hidden := false;
      }
      lastScrollTop := scrollTop;
    }
  }
}
