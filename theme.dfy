/** The light/dark theme switch: `applyTheme`, `initTheme` and `toggleTheme`.

    The page state it touches is the body's `data-theme` attribute, the theme toggle's
    `aria-pressed` attribute (when the page has a toggle) and the one stored preference,
    kept under `THEME_KEY`. The stored value is whatever string was stored; only the toggle
    normalises it. */
module Theme {
  import opened Wrappers

  const THEME_KEY := "ct-portfolio-theme"
  const DARK := "dark"
  const LIGHT := "light"

  /** The theme `toggleTheme` picks: light after dark, dark after anything else, including an
      unset attribute. */
  function NextTheme(current: Option<string>): (next: string)
    ensures next == DARK || next == LIGHT
    ensures next == LIGHT <==> current == Some(DARK)
  {
    if current == Some(DARK) then LIGHT else DARK
  }

  /** The theme `initTheme` applies: the stored value, unless it is unset or empty
      (`localStorage.getItem(THEME_KEY) || 'dark'`). */
  function InitialTheme(stored: Option<string>): (theme: string)
    ensures stored.Some? && stored.value != "" ==> theme == stored.value
    ensures stored.None? || stored.value == "" ==> theme == DARK
    ensures theme != ""
  {
    if stored.Some? && stored.value != "" then stored.value else DARK
  }

  /** The theme after `n` toggles starting from `start`. */
  function Toggled(start: string, n: nat): string {
    if n == 0 then start else NextTheme(Some(Toggled(start, n - 1)))
  }

  /** The other one of dark and light. */
  function Opposite(theme: string): string {
    if theme == DARK then LIGHT else DARK
  }

  /** From dark or light, an even number of toggles returns to the start and an odd number
      gives the other theme. */
  lemma {:induction false} ToggleParity(start: string, n: nat)
    requires start == DARK || start == LIGHT
    ensures Toggled(start, n) == if n % 2 == 0 then start else Opposite(start)
  {
    if n > 0 {
      ToggleParity(start, n - 1);
    }
  }

  /** From any other stored value, the first toggle gives dark and from then on the two
      themes alternate. */
  lemma {:induction false} ToggleFromOther(start: string, n: nat)
    requires start != DARK && start != LIGHT && n >= 1
    ensures Toggled(start, n) == if n % 2 == 1 then DARK else LIGHT
  {
    if n > 1 {
      ToggleFromOther(start, n - 1);
    }
  }

  /** Two toggles from dark or light restore the theme. */
  lemma ToggleTwice(start: string)
    requires start == DARK || start == LIGHT
    ensures NextTheme(Some(NextTheme(Some(start)))) == start
  {
  }

  class ThemeSwitch {
    /** `document.body.dataset.theme`. */
    var theme: Option<string>
    /** The toggle's `aria-pressed` attribute. */
    var pressed: Option<bool>
    /** `localStorage[THEME_KEY]`. */
    var stored: Option<string>
    /** Whether the page has a theme toggle control. */
    const hasToggle: bool

    /** The page as loaded: no theme applied yet, whatever is in storage. */
    constructor (hasToggle: bool, stored: Option<string>)
      ensures this.hasToggle == hasToggle && this.stored == stored
      ensures theme == None && pressed == None
    {
      this.hasToggle := hasToggle;
      this.stored := stored;
      theme := None;
      pressed := None;
    }

    /** The toggle (when there is one) is pressed exactly when the light theme is applied. */
    predicate Shown(t: string)
      reads this
    {
      theme == Some(t) && (hasToggle ==> pressed == Some(t == LIGHT))
    }

    /** `applyTheme(t)`. */
    method ApplyTheme(t: string)
      modifies this
      ensures Shown(t)
      ensures !hasToggle ==> pressed == old(pressed)
      ensures stored == old(stored)
    {
      theme := Some(t);
      if hasToggle {
        pressed := Some(t == LIGHT);
      }
    }

    /** `initTheme()`: apply the stored preference, dark when there is none. */
    method InitTheme()
      modifies this
      ensures Shown(InitialTheme(old(stored)))
      ensures !hasToggle ==> pressed == old(pressed)
      ensures stored == old(stored)
    {
      var t := InitialTheme(stored);
      ApplyTheme(t);
    }

    /** `toggleTheme()`: apply the other theme and store it. */
    method ToggleTheme()
      modifies this
      ensures Shown(NextTheme(old(theme)))
      ensures stored == theme
      ensures !hasToggle ==> pressed == old(pressed)
    {
      var next := NextTheme(theme);
      ApplyTheme(next);
      stored := Some(next);
    }
  }
}
