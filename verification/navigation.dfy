/**
 The mobile navigation menu of `NavigationManager`: the `is-open` class on
 the nav, `aria-expanded` on the toggle button and `u-no-scroll` on the
 body, and the events that change them.
 */
module Navigation {

  /** The three marks the menu keeps. `ariaExpanded` is the attribute's text, as the page may have set it. */
  datatype Menu = Menu(isOpen: bool, ariaExpanded: string, noScroll: bool)

  /** The three marks agree: all say open or all say closed. */
  predicate InLockStep(m: Menu) {
    && m.ariaExpanded == (if m.isOpen then "true" else "false")
    && m.noScroll == m.isOpen
  }

  /** `openMenu` (the focus trap it installs is not modelled). */
  function OpenMenu(m: Menu): (r: Menu)
    ensures r.isOpen && r.ariaExpanded == "true" && r.noScroll
    ensures InLockStep(r)
  {
    Menu(true, "true", true)
  }

  /** `closeMenu`. */
  function CloseMenu(m: Menu): (r: Menu)
    ensures !r.isOpen && r.ariaExpanded == "false" && !r.noScroll
    ensures InLockStep(r)
  {
    Menu(false, "false", false)
  }

  /** `toggleMenu`: closes an open menu, opens a closed one. */
  function ToggleMenu(m: Menu): (r: Menu)
    ensures r.isOpen == !m.isOpen
    ensures InLockStep(r)
  {
    if m.isOpen then CloseMenu(m) else OpenMenu(m)
  }

  /**
   The events the menu listens to. A click on the toggle button or on a nav
   link bubbles on to the document's click listener, so each carries where
   its target lies relative to the nav element.
   */
  datatype Event =
    | ToggleClick(toggleInsideNav: bool)
    | KeyDown(key: string)
    | DocumentClick(insideNav: bool)
    | NavLinkClick
    | Resize(innerWidth: int)

  /** The document's click listener: a click outside the nav closes an open menu. */
  function OnDocumentClick(m: Menu, insideNav: bool): (r: Menu)
    ensures r.isOpen ==> m.isOpen
    ensures m.isOpen && !insideNav ==> r == CloseMenu(m)
    ensures insideNav || !m.isOpen ==> r == m
  {
    if m.isOpen && !insideNav then CloseMenu(m) else m
  }

  /** One event, with every listener it reaches, in the order they run. */
  function Step(m: Menu, e: Event): (r: Menu)
    ensures InLockStep(m) ==> InLockStep(r)
    ensures r == m || InLockStep(r)
    ensures !e.ToggleClick? ==> r == m || r == CloseMenu(m)
    // which events close an open menu, and which leave the menu alone
    ensures e == KeyDown("Escape") && m.isOpen ==> r == CloseMenu(m)
    ensures e.KeyDown? && e.key != "Escape" ==> r == m
    ensures e.DocumentClick? && !e.insideNav && m.isOpen ==> r == CloseMenu(m)
    ensures e.DocumentClick? && e.insideNav ==> r == m
    ensures e.NavLinkClick? ==> r == CloseMenu(m)
    ensures e.Resize? && e.innerWidth >= 1024 && m.isOpen ==> r == CloseMenu(m)
    ensures e.Resize? && e.innerWidth < 1024 ==> r == m
    ensures !m.isOpen && !e.ToggleClick? && !e.NavLinkClick? ==> r == m
  {
    match e
    case ToggleClick(inside) => OnDocumentClick(ToggleMenu(m), inside)
    case KeyDown(key) => if key == "Escape" && m.isOpen then CloseMenu(m) else m
    case DocumentClick(inside) => OnDocumentClick(m, inside)
    case NavLinkClick => OnDocumentClick(CloseMenu(m), true)
    case Resize(width) => if width >= 1024 && m.isOpen then CloseMenu(m) else m
  }

  /** Escape, a click outside, a nav link and a wide resize can only close the menu, never open it. */
  lemma CloseTriggersNeverOpen(m: Menu, e: Event)
    requires !e.ToggleClick?
    ensures Step(m, e).isOpen ==> m.isOpen
    ensures !m.isOpen && InLockStep(m) ==> Step(m, e) == m
  {
  }

  /** With the toggle inside the nav, a click on it flips the menu. */
  lemma ToggleClickFlips(m: Menu)
    ensures Step(m, ToggleClick(true)).isOpen == !m.isOpen
  {
  }

  /** Were the toggle outside the nav, the bubbling click would close the menu it just opened: it never ends open. */
  lemma ToggleOutsideNavNeverOpens(m: Menu)
    ensures Step(m, ToggleClick(false)) == CloseMenu(m)
  {
  }

  /** Events applied in order. */
  function Run(m: Menu, events: seq<Event>): Menu
    decreases |events|
  {
    if |events| == 0 then m else Run(Step(m, events[0]), events[1..])
  }

  /** From a state whose marks agree, they agree after any sequence of events. */
  lemma {:induction false} RunKeepsLockStep(m: Menu, events: seq<Event>)
    requires InLockStep(m)
    ensures InLockStep(Run(m, events))
    decreases |events|
  {
    if |events| > 0 {
      RunKeepsLockStep(Step(m, events[0]), events[1..]);
    }
  }

  /** Once any event has changed the marks, they agree from then on, whatever the page's initial markup said. */
  lemma {:induction false} RunSettlesLockStep(m: Menu, events: seq<Event>)
    ensures Run(m, events) == m || InLockStep(Run(m, events))
    decreases |events|
  {
    if |events| > 0 {
      var next := Step(m, events[0]);
      if next == m {
        RunSettlesLockStep(m, events[1..]);
      } else {
        RunKeepsLockStep(next, events[1..]);
      }
    }
  }

  /** Without a click on the toggle, a closed menu stays closed through any sequence of events. */
  lemma {:induction false} NoToggleStaysClosed(m: Menu, events: seq<Event>)
    requires !m.isOpen
    requires forall k | 0 <= k < |events| :: !events[k].ToggleClick?
    ensures !Run(m, events).isOpen
    decreases |events|
  {
    if |events| > 0 {
      NoToggleStaysClosed(Step(m, events[0]), events[1..]);
    }
  }
}
