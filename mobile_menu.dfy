/**
 * The mobile navigation menu (script.js, "Mobile Menu Toggle"): the `active`
 * class of `.nav-menu` and the `active` class of the menu icon, driven by
 * three click handlers.
 */
module MobileMenu {

  /** The two `active` classes: on the menu and on the toggle icon. */
  datatype MenuState = MenuState(menuOpen: bool, iconActive: bool)

  const Closed: MenuState := MenuState(false, false)

  /** A click on the menu icon toggles each class on its own. */
  function Toggled(s: MenuState): (r: MenuState)
    ensures r.menuOpen != s.menuOpen && r.iconActive != s.iconActive
  {
    MenuState(!s.menuOpen, !s.iconActive)
  }

  /** A click on any navigation link removes both classes. */
  function AfterLinkClick(s: MenuState): (r: MenuState)
    ensures !r.menuOpen && !r.iconActive
  {
    Closed
  }

  /** A click anywhere in the document closes the menu when the menu is open
      and the click landed outside the navigation bar. */
  function AfterDocumentClick(s: MenuState, insideNavbar: bool): (r: MenuState)
    ensures r == s || r == Closed
    ensures r.menuOpen ==> s.menuOpen
  {
    if !insideNavbar && s.menuOpen then Closed else s
  }

  /** The menu and its icon agree. */
  predicate InSync(s: MenuState)
  {
    s.menuOpen == s.iconActive
  }

  /** Every handler keeps the menu and its icon in step. */
  lemma HandlersKeepSync(s: MenuState, insideNavbar: bool)
    requires InSync(s)
    ensures InSync(Toggled(s)) && InSync(AfterLinkClick(s)) && InSync(AfterDocumentClick(s, insideNavbar))
  {
  }

  /** Two toggles undo each other. */
  lemma ToggleTwiceRestores(s: MenuState)
    ensures Toggled(Toggled(s)) == s
  {
  }

  /** A document click changes the state exactly when the menu was open, the
      click was outside the bar and the state was not already closed; after
      it, the menu is open only if it was open and the click was inside. */
  lemma DocumentClickCloses(s: MenuState, insideNavbar: bool)
    ensures AfterDocumentClick(s, insideNavbar) != s <==> !insideNavbar && s.menuOpen
    ensures AfterDocumentClick(s, insideNavbar).menuOpen <==> s.menuOpen && insideNavbar
  {
  }

  class Menu {
    var menuOpen: bool
    var iconActive: bool

    function State(): MenuState
      reads this
    {
      MenuState(menuOpen, iconActive)
    }

    /** Both classes start absent. */
    constructor ()
      ensures State() == Closed
    {
      menuOpen, iconActive := false, false;
    }

    method OnToggleClick()
      modifies this
      ensures State() == Toggled(old(State()))
    {
      menuOpen := !menuOpen;
      iconActive := !iconActive;
    }

    method OnNavLinkClick()
      modifies this
      ensures State() == AfterLinkClick(old(State()))
    {
      menuOpen := false;
      iconActive := false;
    }

    /** `insideNavbar` is whether the navigation bar contains the target. */
    method OnDocumentClick(insideNavbar: bool)
      modifies this
      ensures State() == AfterDocumentClick(old(State()), insideNavbar)
    {
      if !insideNavbar && menuOpen {
        menuOpen := false;
        iconActive := false;
      }
    }
  }
}
