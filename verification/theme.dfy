/** The dark/light theme toggle and its persisted preference. */
module Theme {
  import opened Wrappers
  import opened Browser

  datatype Theme = Dark | Light

  /** The storage key under which the theme is persisted. */
  const ThemeKey := "theme"

  /** The branch taken on load: only the exact value "light" keeps the light theme. */
  function Normalize(raw: string): (t: Theme)
    ensures Attribute(t).Some? <==> raw == "light"
  {
    if raw == "light" then Light else Dark
  }

  /** The theme chosen on page load from the stored preference (default "dark"). */
  function LoadTheme(stored: Option<string>): (t: Theme)
    ensures t == Light <==> stored == Some("light")
  {
    Normalize(OrElse(stored, "dark"))
  }

  /** The string written to storage for a theme; reading it back restores the theme. */
  function Name(t: Theme): (s: string)
    ensures s != ""
    ensures LoadTheme(Some(s)) == t
  {
    match t
    case Dark => "dark"
    case Light => "light"
  }

  /** The root's `data-theme` attribute for a theme: present only for light, dark is the default look. */
  function Attribute(t: Theme): (a: Option<string>)
    ensures a.Some? <==> t == Light
    ensures a.Some? ==> a.value == "light"
  {
    if t == Light then Some("light") else None
  }

  /** The theme after one click. */
  function Toggled(t: Theme): (r: Theme)
    ensures r != t
  {
    if t == Dark then Light else Dark
  }

  /** Two clicks restore both the theme and the root attribute. */
  lemma ToggleTwice(t: Theme)
    ensures Toggled(Toggled(t)) == t
    ensures Attribute(Toggled(Toggled(t))) == Attribute(t)
  {
  }

  /** The attribute determines the theme, so the page look always tells the state apart. */
  lemma AttributeInjective(t: Theme, u: Theme)
    ensures Attribute(t) == Attribute(u) ==> t == u
  {
  }

  class ThemeToggle {
    const root: Document
    const storage: LocalStorage
    var currentTheme: Theme

    /** Reads the stored preference and applies it to the root element; storage is not written. */
    constructor (root: Document, storage: LocalStorage)
      modifies root`dataTheme
      ensures this.root == root && this.storage == storage
      ensures currentTheme == LoadTheme(storage.GetItem(ThemeKey))
      ensures root.dataTheme == Attribute(currentTheme)
    {
      this.root := root;
      this.storage := storage;
      currentTheme := Normalize(OrElse(storage.GetItem(ThemeKey), "dark"));
      new;
      root.dataTheme := Attribute(currentTheme);
    }

    /** The click handler: flip, update the root attribute, persist. */
    method Click()
      modifies this`currentTheme, root`dataTheme, storage
      ensures currentTheme == Toggled(old(currentTheme))
      ensures root.dataTheme == Attribute(currentTheme)
      ensures storage.items == old(storage.items)[ThemeKey := Name(currentTheme)]
      ensures LoadTheme(storage.GetItem(ThemeKey)) == currentTheme
    {
      currentTheme := Toggled(currentTheme);
      root.dataTheme := Attribute(currentTheme);
      storage.SetItem(ThemeKey, Name(currentTheme));
    }
  }
}
