/**
 * components/ThemeToggle.tsx: a two-state theme switch. The React state, the
 * browser's `localStorage` and the root element of the document are fields
 * of one object; every change of theme writes the document (and, on a toggle,
 * the stored preference) together with the state.
 */
module ThemeToggle {
  import opened Wrappers

  datatype Theme = Dark | Light

  /** The text of a theme, as stored and as written into the document. */
  function ThemeName(t: Theme): (r: string)
    ensures r == "dark" || r == "light"
    ensures (r == "dark") == (t == Dark)
  {
    match t
    case Dark => "dark"
    case Light => "light"
  }

  /** The other theme. */
  function Flip(t: Theme): (r: Theme)
    ensures r != t
  {
    if t == Dark then Light else Dark
  }

  /** Toggling twice restores the theme. */
  lemma FlipInvolution(t: Theme)
    ensures Flip(Flip(t)) == t
  {
  }

  /** The storage key of the preference. */
  const ThemeKey: string := "theme"

  /** A stored text that names a theme, and only such a text, is read back. */
  function ParseTheme(stored: Option<string>): (r: Option<Theme>)
    ensures r.Some? <==> stored == Some("light") || stored == Some("dark")
    ensures r.Some? ==> stored == Some(ThemeName(r.value))
  {
    if stored == Some("light") then Some(Light)
    else if stored == Some("dark") then Some(Dark)
    else None
  }

  /** `localStorage.getItem(key)`: `null` for a missing key. */
  function GetItem(storage: map<string, string>, key: string): Option<string> {
    if key in storage then Some(storage[key]) else None
  }

  /**
   * `getInitialTheme()`, given the storage of the window, or `None` where no
   * `window` exists (server rendering): the stored theme when it is one of the
   * two names, dark in every other case.
   */
  function InitialTheme(window: Option<map<string, string>>): (r: Theme)
    ensures window.None? ==> r == Dark
    ensures window.Some? && GetItem(window.value, ThemeKey) == Some("light") <==> r == Light
  {
    match window
    case None => Dark
    case Some(storage) =>
      match ParseTheme(GetItem(storage, ThemeKey))
      case Some(t) => t
      case None => Dark
  }

  /** A preference once stored is the one the next page load starts from. */
  lemma InitialThemeAfterStore(storage: map<string, string>, t: Theme)
    ensures InitialTheme(Some(storage[ThemeKey := ThemeName(t)])) == t
  {
    assert GetItem(storage[ThemeKey := ThemeName(t)], ThemeKey) == Some(ThemeName(t));
  }

  /**
   * One mounted `ThemeToggle`, the browser storage it writes and the root
   * element of the document. `dataset.theme` and the `data-theme` attribute
   * are one attribute of the element, held in `attributes`.
   */
  class ThemeToggleState {
    var theme: Theme
    var storage: map<string, string>
    var attributes: map<string, string>
    var colorScheme: string

    /** The document shows theme `t`: its `data-theme` attribute and colour scheme agree with it. */
    predicate Shows(t: Theme)
      reads this
    {
      "data-theme" in attributes && attributes["data-theme"] == ThemeName(t) && colorScheme == ThemeName(t)
    }

    /** The state the component keeps on mount and after each toggle: the document shows the theme state. */
    predicate Valid()
      reads this
    {
      Shows(theme)
    }

    /** `useState<Theme>("dark")`, before any effect has run, over the page's storage and document. */
    constructor (storage0: map<string, string>, attributes0: map<string, string>, colorScheme0: string)
      ensures theme == Dark
      ensures storage == storage0 && attributes == attributes0 && colorScheme == colorScheme0
    {
      theme := Dark;
      storage := storage0;
      attributes := attributes0;
      colorScheme := colorScheme0;
    }

    /** `applyTheme(t)`: the dataset entry, the attribute and the colour scheme all get `t`. */
    method ApplyTheme(t: Theme)
      modifies this
      ensures attributes == old(attributes)["data-theme" := ThemeName(t)]
      ensures colorScheme == ThemeName(t)
      ensures theme == old(theme) && storage == old(storage)
      ensures Shows(t)
    {
      attributes := attributes["data-theme" := ThemeName(t)];
      attributes := attributes["data-theme" := ThemeName(t)];
      colorScheme := ThemeName(t);
    }

    /** The mount effect: read the initial theme from storage, then set the state and the document. */
    method Mount()
      modifies this
      ensures theme == InitialTheme(Some(old(storage)))
      ensures storage == old(storage)
      ensures attributes == old(attributes)["data-theme" := ThemeName(theme)]
      ensures Valid()
    {
      var t := InitialTheme(Some(storage));
      theme := t;
      ApplyTheme(t);
    }

    /**
     * `toggle()`: the next theme becomes the state, the stored preference and
     * the document's theme at once, so that a reload starts from it.
     */
    method Toggle()
      modifies this
      ensures theme == Flip(old(theme))
      ensures storage == old(storage)[ThemeKey := ThemeName(theme)]
      ensures attributes == old(attributes)["data-theme" := ThemeName(theme)]
      ensures Valid()
      ensures InitialTheme(Some(storage)) == theme
    {
      var next := if theme == Dark then Light else Dark;
      theme := next;
      storage := storage[ThemeKey := ThemeName(next)];
      ApplyTheme(next);
      InitialThemeAfterStore(old(storage), next);
    }
  }

  /** Two toggles after mounting bring the state and the document back, and leave the preference stored. */
  method ToggleTwice(c: ThemeToggleState)
    requires c.Valid()
    modifies c
    ensures c.theme == old(c.theme) && c.Valid()
    ensures c.attributes == old(c.attributes) && c.colorScheme == old(c.colorScheme)
    ensures c.storage == old(c.storage)[ThemeKey := ThemeName(c.theme)]
  {
    c.Toggle();
    c.Toggle();
    FlipInvolution(old(c.theme));
  }
}
