/** The light/dark theme switch (script.js, lines 4-14). The stored
    `theme` entry is applied as the page's class on load, defaulting to
    `light`; a click flips the class, re-applies it and stores it. */
module Theme {
  import opened Wrappers

  /** The toggle's icon while the page is light (U+1F319) and otherwise (U+2600 U+FE0F). */
  const Moon := "\U{1F319}"
  const Sun := "\U{2600}\U{FE0F}"

  predicate IsTheme(cls: string) {
    cls == "light" || cls == "dark"
  }

  /** The separators of a class attribute's tokens. */
  predicate IsClassSeparator(c: char) {
    c == ' ' || c == '\t' || c == '\n' || c == '\U{000C}' || c == '\r'
  }

  /** `token` stands at position `i` of `cls`, delimited by separators or the ends. */
  predicate TokenAt(cls: string, token: string, i: int) {
    && 0 <= i && i + |token| <= |cls|
    && cls[i..i + |token|] == token
    && (i == 0 || IsClassSeparator(cls[i - 1]))
    && (i + |token| == |cls| || IsClassSeparator(cls[i + |token|]))
  }

  /** `classList.contains(token)` on the class attribute `cls`. */
  predicate HasClass(cls: string, token: string) {
    exists i | 0 <= i <= |cls| :: TokenAt(cls, token, i)
  }

  /** `localStorage.getItem('theme') || 'light'`: a missing or empty entry
      means light; any other stored text is applied as it is. */
  function SavedTheme(stored: Option<string>): (cls: string)
    ensures cls != ""
    ensures stored.None? || stored.value == "" ==> cls == "light"
    ensures stored.Some? && stored.value != "" ==> cls == stored.value
  {
    if stored.Some? && stored.value != "" then stored.value else "light"
  }

  /** The icon for a class: the moon exactly while the page is light. */
  function IconFor(cls: string): (icon: string)
    ensures icon == Moon <==> cls == "light"
    ensures icon == Sun <==> cls != "light"
  {
    if cls == "light" then Moon else Sun
  }

  /** The class a click switches to. */
  function Toggled(cls: string): string {
    if HasClass(cls, "light") then "dark" else "light"
  }

  /** A click always lands on one of the two themes, and flips whichever of
      them was applied. */
  lemma ToggleFlips(cls: string)
    ensures IsTheme(Toggled(cls))
    ensures cls == "light" ==> Toggled(cls) == "dark"
    ensures cls == "dark" ==> Toggled(cls) == "light"
  {
    if cls == "light" {
      assert TokenAt(cls, "light", 0);
    }
  }

  /** Two clicks give back the theme that was applied before them. */
  lemma ToggleTwice(cls: string)
    requires IsTheme(cls)
    ensures Toggled(Toggled(cls)) == cls
    ensures IconFor(Toggled(Toggled(cls))) == IconFor(cls)
  {
    ToggleFlips(cls);
    ToggleFlips(Toggled(cls));
  }

  /** What a click stores is what the next page load applies. */
  lemma ToggleSurvivesReload(cls: string)
    ensures SavedTheme(Some(Toggled(cls))) == Toggled(cls)
  {
    ToggleFlips(cls);
  }

  /** The theme switch: the stored `theme` entry, the page's class and the
      toggle's icon. */
  class ThemeToggle {
    var stored: Option<string>
    var bodyClass: string
    var icon: string

    /** Page load: apply the stored theme and the matching icon. */
    constructor Load(storage: Option<string>)
      ensures stored == storage
      ensures bodyClass == SavedTheme(storage) && icon == IconFor(bodyClass)
    {
      stored := storage;
      var savedTheme := SavedTheme(storage);
      bodyClass := savedTheme;
      icon := IconFor(savedTheme);
    }

    /** The click handler. */
    method Click()
      modifies this
      ensures bodyClass == Toggled(old(bodyClass))
      ensures icon == IconFor(bodyClass)
      ensures stored == Some(bodyClass)
    {
      var newTheme := if HasClass(bodyClass, "light") then "dark" else "light";
      bodyClass := newTheme;
      icon := IconFor(newTheme);
      stored := Some(newTheme);
    }
  }

  /** With nothing stored the page is light; two clicks bring it back to
      light and leave `light` stored; a reload then applies it again. */
  method Scenario() {
    var page := new ThemeToggle.Load(None);
    assert page.bodyClass == "light" && page.icon == Moon;
    page.Click();
    ToggleFlips("light");
    assert page.bodyClass == "dark" && page.icon == Sun && page.stored == Some("dark");
    page.Click();
    ToggleFlips("dark");
    assert page.bodyClass == "light" && page.stored == Some("light");
    var reloaded := new ThemeToggle.Load(page.stored);
    assert reloaded.bodyClass == page.bodyClass && reloaded.icon == page.icon;
  }
}
