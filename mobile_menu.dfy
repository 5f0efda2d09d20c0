/**
 * The mobile navigation menu: the `active` class of the toggle button and of the menu,
 * and the page body's `overflow` style, which locks scrolling while the menu is open.
 */
module MobileMenu {

  /** The body's overflow style for a menu that is open or closed. */
  function OverflowFor(open: bool): (r: string)
    ensures r == "hidden" <==> open
    ensures r == "" <==> !open
  {
    if open then "hidden" else ""
  }

  class Menu {
    var toggleActive: bool
    var menuActive: bool
    var bodyOverflow: string

    /** Button and menu are active together, and scrolling is locked exactly while they are. */
    ghost predicate Valid()
      reads this
    {
      toggleActive == menuActive && bodyOverflow == OverflowFor(menuActive)
    }

    constructor ()
      ensures !toggleActive && !menuActive && bodyOverflow == ""
      ensures Valid()
    {
      toggleActive, menuActive, bodyOverflow := false, false, "";
    }

    /** The toggle button's click listener: flip both classes, then set the overflow from the menu's. */
    method Toggle()
      modifies this
      ensures toggleActive == !old(toggleActive) && menuActive == !old(menuActive)
      ensures bodyOverflow == if menuActive then "hidden" else ""
      ensures old(toggleActive == menuActive) ==> Valid()
    {
      toggleActive := !toggleActive;
      menuActive := !menuActive;
      bodyOverflow := if menuActive then "hidden" else "";
    }

    /** A navigation link's click listener: close the menu whatever its state. */
    method Close()
      modifies this
      ensures !toggleActive && !menuActive && bodyOverflow == ""
      ensures Valid()
    {
      toggleActive := false;
      menuActive := false;
      bodyOverflow := "";
    }
  }
}
