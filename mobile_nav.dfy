/** The off-canvas mobile menu: the hamburger button's and the panel's
    `active` classes, and the body's inline `overflow` style that locks page
    scrolling while the panel is open. */
module MobileNav {

  datatype NavState = NavState(buttonActive: bool, panelActive: bool, bodyOverflow: string)

  /** The handlers of the component. A click on the button or on a nav link
      bubbles on to the document, so it is followed by a `DocumentClick`. */
  datatype NavEvent =
    | HamburgerClick
    | NavLinkClick
    | DocumentClick(inButton: bool, inPanel: bool)
    | KeyDown(key: string)

  const ScrollLocked: string := "hidden"
  const ScrollFree: string := ""

  /** Both inactive, page scrollable: the state at page load, and the state
      every close handler forces. */
  const Closed: NavState := NavState(false, false, ScrollFree)

  /** The two flags move in lockstep and scrolling is locked exactly while
      the panel is open. */
  ghost predicate Consistent(s: NavState)
  {
    s.buttonActive == s.panelActive &&
    s.bodyOverflow == (if s.panelActive then ScrollLocked else ScrollFree)
  }

  /** The state after one handler runs. The button handler toggles each flag
      on its own and sets the scroll lock from the panel's new flag. */
  function After(s: NavState, e: NavEvent): (t: NavState)
  {
    match e
    case HamburgerClick =>
      var panel := !s.panelActive;
      NavState(!s.buttonActive, panel, if panel then ScrollLocked else ScrollFree)
    case NavLinkClick => Closed
    case DocumentClick(inButton, inPanel) =>
      if !inButton && !inPanel then Closed else s
    case KeyDown(key) =>
      if key == "Escape" && s.panelActive then Closed else s
  }

  /** The state after a run of handlers, in order. */
  function Run(s: NavState, events: seq<NavEvent>): (t: NavState)
    decreases |events|
  {
    if events == [] then s else Run(After(s, events[0]), events[1..])
  }

  /** Every handler keeps the lockstep and scroll-lock invariant. */
  lemma AfterConsistent(s: NavState, e: NavEvent)
    requires Consistent(s)
    ensures Consistent(After(s, e))
  {
  }

  /** From page load, the flags agree after any run of events, and the body
      is scroll-locked exactly while the panel is open. */
  lemma {:induction false} RunConsistent(s: NavState, events: seq<NavEvent>)
    requires Consistent(s)
    ensures Consistent(Run(s, events))
    decreases |events|
  {
    if events != [] {
      AfterConsistent(s, events[0]);
      RunConsistent(After(s, events[0]), events[1..]);
    }
  }

  /** A nav-link click, a click outside both elements, and Escape while the
      panel is open each close the menu and free the page. */
  lemma CloseEventsClose(s: NavState, e: NavEvent)
    requires e == NavLinkClick || e == DocumentClick(false, false) ||
             (e == KeyDown("Escape") && s.panelActive)
    ensures After(s, e) == Closed
  {
  }

  /** Every handler other than the button's is idempotent: running it twice
      leaves the state it left after once. */
  lemma CloseIdempotent(s: NavState, e: NavEvent)
    requires !e.HamburgerClick?
    ensures After(After(s, e), e) == After(s, e)
  {
  }

  /** A key press with the panel closed, or one that is not Escape, changes nothing. */
  lemma KeyDownInert(s: NavState, key: string)
    requires !s.panelActive || key != "Escape"
    ensures After(s, KeyDown(key)) == s
  {
  }

  /** Clicking the button twice restores the state. */
  lemma ToggleTwice(s: NavState)
    requires Consistent(s)
    ensures After(After(s, HamburgerClick), HamburgerClick) == s
  {
  }

  /** The click on the button that opens the menu also reaches the document
      handler, which leaves it open because the target is inside the button. */
  lemma ButtonClickBubbles(s: NavState, inPanel: bool)
    requires Consistent(s) && !s.panelActive
    ensures var open := After(s, HamburgerClick);
            open.panelActive && open.buttonActive && open.bodyOverflow == ScrollLocked &&
            After(open, DocumentClick(true, inPanel)) == open
  {
  }

  /** The component attached when both the button and the panel exist. */
  class MobileNavController {
    var buttonActive: bool
    var panelActive: bool
    var bodyOverflow: string

    function State(): NavState
      reads this
    {
      NavState(buttonActive, panelActive, bodyOverflow)
    }

    ghost predicate Valid()
      reads this
    {
      Consistent(State())
    }

    constructor ()
      ensures Valid() && State() == Closed
    {
      buttonActive, panelActive, bodyOverflow := false, false, ScrollFree;
    }

    /** Click on the hamburger button. */
    method OnHamburgerClick()
      requires Valid()
      modifies this
      ensures Valid()
      ensures State() == After(old(State()), HamburgerClick)
      ensures panelActive == !old(panelActive)
    {
      buttonActive := !buttonActive;
      panelActive := !panelActive;
      if panelActive {
        bodyOverflow := ScrollLocked;
      } else {
        bodyOverflow := ScrollFree;
      }
    }

    /** Click on one of the mobile nav links. */
    method OnNavLinkClick()
      requires Valid()
      modifies this
      ensures Valid()
      ensures State() == After(old(State()), NavLinkClick) == Closed
    {
      buttonActive := false;
      panelActive := false;
      bodyOverflow := ScrollFree;
    }

    /** Any click in the document; the flags say whether its target lies
        inside the button or inside the panel. */
    method OnDocumentClick(inButton: bool, inPanel: bool)
      requires Valid()
      modifies this
      ensures Valid()
      ensures State() == After(old(State()), DocumentClick(inButton, inPanel))
      ensures !inButton && !inPanel ==> State() == Closed
      ensures inButton || inPanel ==> State() == old(State())
    {
      if !inButton && !inPanel {
        buttonActive := false;
        panelActive := false;
        bodyOverflow := ScrollFree;
      }
    }

    /** Any key press in the document. */
    method OnKeyDown(key: string)
      requires Valid()
      modifies this
      ensures Valid()
      ensures State() == After(old(State()), KeyDown(key))
      ensures key == "Escape" && old(panelActive) ==> State() == Closed
      ensures key != "Escape" || !old(panelActive) ==> State() == old(State())
    {
      if key == "Escape" && panelActive {
        buttonActive := false;
        panelActive := false;
        bodyOverflow := ScrollFree;
      }
    }
  }
}
