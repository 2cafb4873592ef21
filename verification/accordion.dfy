/**
 An accordion button of `AccordionManager` and the collapse element named
 by its `data-bs-target`.
 */
module Accordion {

  /** The button's `aria-expanded` text and `collapsed` class, and the panel's `show` class. */
  datatype Panel = Panel(ariaExpanded: string, collapsed: bool, show: bool)

  /** The button and the panel agree: expanded, not collapsed and shown, or the reverse. */
  predicate Synced(p: Panel) {
    (p.ariaExpanded == "true") == p.show && p.collapsed == !p.show
  }

  /**
   A click on the button. When the target element exists, `aria-expanded`
   becomes the negation of "is it the text true", written as the text of a
   boolean, and both classes are toggled; otherwise nothing changes.
   */
  function Click(p: Panel, targetFound: bool): (r: Panel)
    ensures !targetFound ==> r == p
    ensures targetFound ==> r.ariaExpanded == "true" || r.ariaExpanded == "false"
    ensures targetFound ==> (r.ariaExpanded == "true" <==> p.ariaExpanded != "true")
    ensures targetFound ==> r.collapsed != p.collapsed && r.show != p.show
  {
    if targetFound then
      Panel(if p.ariaExpanded == "true" then "false" else "true", !p.collapsed, !p.show)
    else
      p
  }

  /** A click keeps a synced button and panel synced. */
  lemma ClickKeepsSynced(p: Panel, targetFound: bool)
    requires Synced(p)
    ensures Synced(Click(p, targetFound))
  {
  }

  /** Two clicks restore the state, as long as `aria-expanded` held one of the two texts the script writes. */
  lemma DoubleClickRestores(p: Panel, targetFound: bool)
    requires p.ariaExpanded == "true" || p.ariaExpanded == "false"
    ensures Click(Click(p, targetFound), targetFound) == p
  {
  }

  /** Any other initial `aria-expanded` text is read as collapsed: the first click writes "true". */
  lemma OtherTextReadAsCollapsed(p: Panel)
    requires p.ariaExpanded != "true"
    ensures Click(p, true).ariaExpanded == "true"
  {
  }
}
