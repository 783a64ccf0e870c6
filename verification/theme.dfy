/** The light/dark display preference (`theme` in `App.js`). */
module Theme {

  /** The two values the app ever sets. */
  predicate ValidTheme(t: string) {
    t == "light" || t == "dark"
  }

  /** `toggleTheme`: light becomes dark, anything else becomes light. */
  function ToggleTheme(t: string): (r: string)
    ensures ValidTheme(r)
    ensures r == "dark" <==> t == "light"
  {
    if t == "light" then "dark" else "light"
  }

  /** Toggling twice from either theme comes back to it. */
  lemma ToggleTwice(t: string)
    requires ValidTheme(t)
    ensures ToggleTheme(ToggleTheme(t)) == t
  {
  }
}
