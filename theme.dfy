/**
 * The colour theme: the `data-theme` attribute of the root element and its copy under
 * the key `theme` in the browser's local storage.
 */
module Theme {

  const StorageKey: string := "theme"
  const Dark: string := "dark"
  const Light: string := "light"

  /** `localStorage.getItem('theme') || 'dark'`: a missing or empty saved value falls back to dark. */
  function InitialTheme(storage: map<string, string>): (r: string)
    ensures r != ""
    ensures StorageKey in storage && storage[StorageKey] != "" ==> r == storage[StorageKey]
    ensures StorageKey !in storage || storage[StorageKey] == "" ==> r == Dark
  {
    if StorageKey in storage && storage[StorageKey] != "" then storage[StorageKey] else Dark
  }

  /** The theme a click switches to: light after dark, dark after anything else. */
  function Toggled(current: string): (r: string)
    ensures r == Dark || r == Light
    ensures r == Light <==> current == Dark
  {
    if current == Dark then Light else Dark
  }

  /** Two clicks restore either of the two themes. */
  lemma ToggleTwiceRestores(t: string)
    requires t == Dark || t == Light
    ensures Toggled(Toggled(t)) == t
  {
  }

  /** From any other saved value the first click gives dark and the second light, so two
      clicks do not restore that value. */
  lemma ToggleTwiceFromOtherIsLight(t: string)
    requires t != Dark && t != Light
    ensures Toggled(t) == Dark && Toggled(Toggled(t)) == Light
    ensures Toggled(Toggled(t)) != t
  {
  }

  /** The page's theme state: the attribute and the local storage. */
  class ThemeState {
    var theme: string
    var storage: map<string, string>

    /** The stored value is the attribute. */
    ghost predicate Persisted()
      reads this
    {
      StorageKey in storage && storage[StorageKey] == theme
    }

    /** Page load: apply the saved theme, or dark when none is saved. */
    constructor (saved: map<string, string>)
      ensures storage == saved
      ensures theme == InitialTheme(saved)
      ensures Persisted() <==> StorageKey in saved && saved[StorageKey] != ""
    {
      storage := saved;
      theme := InitialTheme(saved);
    }

    /** The click listener: flip the attribute and store the new value. */
    method Toggle()
      modifies this
      ensures theme == Toggled(old(theme))
      ensures storage == old(storage)[StorageKey := theme]
      ensures Persisted()
    {
      var newTheme := Toggled(theme);
      theme := newTheme;
      storage := storage[StorageKey := newTheme];
    }
  }
}
