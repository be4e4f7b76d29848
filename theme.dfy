/**
 * The light/dark theme (script.js, "Theme Toggle"): the `data-theme`
 * attribute of the document root and its copy under the storage key `theme`.
 */
module Theme {
  import opened Wrappers

  const Light: string := "light"
  const Dark: string := "dark"

  /** The theme applied at load: the stored value, or "dark" when nothing is
      stored or the stored value is the empty string (falsy in `||`). */
  function InitialTheme(stored: Option<string>): (t: string)
    ensures t != ""
    ensures stored.Some? && stored.value != "" ==> t == stored.value
  {
    if stored.Some? && stored.value != "" then stored.value else Dark
  }

  /** `currentTheme === 'light' ? 'dark' : 'light'` */
  function Flip(current: string): (t: string)
    ensures t == Light || t == Dark
    ensures t != current
    ensures t == Dark <==> current == Light
  {
    if current == Light then Dark else Light
  }

  /** Absent or empty storage yields the dark theme. */
  lemma DefaultIsDark(stored: Option<string>)
    requires stored.None? || stored == Some("")
    ensures InitialTheme(stored) == Dark
  {
  }

  /** Two toggles are the identity exactly on "light" and "dark"; any other
      attribute value ends as "dark". */
  lemma ToggleTwice(t: string)
    ensures Flip(Flip(t)) == t <==> t == Light || t == Dark
    ensures t != Light && t != Dark ==> Flip(Flip(t)) == Dark
  {
  }

  /** A toggled theme survives a reload: reading it back from storage yields it. */
  lemma ToggledThemeSurvivesReload(t: string)
    ensures InitialTheme(Some(Flip(t))) == Flip(t)
  {
  }

  class ThemeController {
    /** The `data-theme` attribute of the root element. */
    var dataTheme: string
    /** `localStorage.getItem('theme')`. */
    var stored: Option<string>

    /** Loading the page applies the initial theme; storage is only read. */
    constructor (stored: Option<string>)
      ensures dataTheme == InitialTheme(stored) && this.stored == stored
    {
      dataTheme := InitialTheme(stored);
      this.stored := stored;
    }

    /** A click on the toggle writes the flipped theme to both places. */
    method Toggle()
      modifies this
      ensures dataTheme == Flip(old(dataTheme))
      ensures stored == Some(dataTheme)
    {
      var newTheme := Flip(dataTheme);
      dataTheme := newTheme;
      stored := Some(newTheme);
    }
  }
}
