/** The navigation menu: the `open` class on the link list and the `active` class on the
    toggle control, flipped by `handleNavToggle` and cleared by `closeNavOnLinkClick` on
    narrow windows. */
module NavMenu {

  /** Widest window, in CSS pixels, on which a link click closes the menu. */
  const BREAKPOINT := 768

  /** Whether the link list has `open` and the toggle has `active`. */
  datatype MenuState = MenuState(open: bool, active: bool)

  /** `handleNavToggle`: each class is toggled on its own. */
  function Toggle(s: MenuState): (r: MenuState)
    ensures r.open != s.open && r.active != s.active
  {
    MenuState(!s.open, !s.active)
  }

  /** `closeNavOnLinkClick` at window width `innerWidth`. */
  function CloseOnLinkClick(s: MenuState, innerWidth: int): (r: MenuState)
    ensures innerWidth <= BREAKPOINT ==> !r.open && !r.active
    ensures innerWidth > BREAKPOINT ==> r == s
  {
    if innerWidth <= BREAKPOINT then MenuState(false, false) else s
  }

  /** The menu is open exactly when its toggle shows as active. */
  predicate InStep(s: MenuState) {
    s.open == s.active
  }

  /** Toggling twice restores both classes. */
  lemma ToggleTwice(s: MenuState)
    ensures Toggle(Toggle(s)) == s
  {
  }

  /** A second link click changes nothing more. */
  lemma CloseIdempotent(s: MenuState, innerWidth: int)
    ensures CloseOnLinkClick(CloseOnLinkClick(s, innerWidth), innerWidth) == CloseOnLinkClick(s, innerWidth)
  {
  }

  /** Both handlers keep the two classes in step when they start in step, as they do on a
      page that loads with neither class. */
  lemma HandlersKeepInStep(s: MenuState, innerWidth: int)
    requires InStep(s)
    ensures InStep(Toggle(s)) && InStep(CloseOnLinkClick(s, innerWidth))
  {
  }

  class Nav {
    /** `navLinks.classList.contains('open')`. */
    var open: bool
    /** `navToggle.classList.contains('active')`. */
    var active: bool

    function State(): MenuState
      reads this
    {
      MenuState(open, active)
    }

    /** The menu as loaded: closed, toggle inactive. */
    constructor ()
      ensures State() == MenuState(false, false)
    {
      open, active := false, false;
    }

    /** `handleNavToggle()`. */
    method HandleNavToggle()
      modifies this
      ensures State() == Toggle(old(State()))
    {
      open := !open;
      active := !active;
    }

    /** `closeNavOnLinkClick()`, with `window.innerWidth` as a parameter. */
    method CloseNavOnLinkClick(innerWidth: int)
      modifies this
      ensures State() == CloseOnLinkClick(old(State()), innerWidth)
    {
      if innerWidth <= BREAKPOINT {
        open := false;
        active := false;
      }
    }
  }
}
