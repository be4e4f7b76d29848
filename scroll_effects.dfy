/**
 * The two threshold rules of the scroll handlers: the navigation bar's
 * `scrolled` class and the back-to-top button's `visible` class
 * (script.js, "Navigation Scroll Effect" and "Back to Top Button").
 */
module ScrollEffects {

  /** Offset past which the navigation bar is styled as scrolled. */
  const NavbarThreshold: int := 100
  /** Offset past which the back-to-top button is shown. */
  const BackToTopThreshold: int := 300

  predicate NavbarScrolled(scrollY: int)
  {
    scrollY > NavbarThreshold
  }

  predicate BackToTopVisible(pageYOffset: int)
  {
    pageYOffset > BackToTopThreshold
  }

  /** Both rules are monotone in the offset and strict at their threshold. */
  lemma ThresholdsAreUpwardClosed(y: int, y': int)
    requires y <= y'
    ensures NavbarScrolled(y) ==> NavbarScrolled(y')
    ensures BackToTopVisible(y) ==> BackToTopVisible(y')
    ensures !NavbarScrolled(NavbarThreshold) && NavbarScrolled(NavbarThreshold + 1)
    ensures !BackToTopVisible(BackToTopThreshold) && BackToTopVisible(BackToTopThreshold + 1)
  {
  }

  /** The flags those handlers set. */
  class ScrollFlags {
    var navbarScrolled: bool
    var backToTopVisible: bool

    constructor ()
      ensures !navbarScrolled && !backToTopVisible
    {
      navbarScrolled, backToTopVisible := false, false;
    }

    /** Adds or removes `scrolled` from the current offset alone. */
    method OnScrollNavbar(scrollY: int)
      modifies this`navbarScrolled
      ensures navbarScrolled == NavbarScrolled(scrollY)
    {
      if scrollY > NavbarThreshold {
        navbarScrolled := true;
      } else {
        navbarScrolled := false;
      }
    }

    /** Adds or removes `visible` from the current offset alone. */
    method OnScrollBackToTop(pageYOffset: int)
      modifies this`backToTopVisible
      ensures backToTopVisible == BackToTopVisible(pageYOffset)
    {
      if pageYOffset > BackToTopThreshold {
        backToTopVisible := true;
      } else {
        backToTopVisible := false;
      }
    }
  }
}
