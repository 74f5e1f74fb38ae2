// The theme switcher of assets/js/theme.js: a light/dark/system mode and a
// gallery theme, each kept in localStorage and shown as an attribute of the
// page's root element, with buttons marked active for the current choice.
//
// localStorage is a map from key to text; the root element's two attributes
// are optional texts; each set of buttons is the sequence of the values of
// their data attribute together with their "active" flags.

module Theme {
  import opened Common

  const ModeKey: string := "painttwits_mode"
  const ThemeKey: string := "painttwits_gallery"

  /** The ids of GALLERY_THEMES, in order. */
  const GalleryThemes: seq<string> := ["minimal", "gallery-white", "darkroom", "editorial", "brutalist", "soft"]

  /** The three modes the cycle button steps through. */
  predicate IsMode(m: string) { m == "light" || m == "dark" || m == "system" }

  // ---------------------------------------------------------------------
  // Stored preferences

  /** `localStorage.getItem(key) || fallback`: a missing or empty entry gives the fallback. */
  function StoredOr(storage: map<string, string>, key: string, fallback: string): string
  {
    if key in storage && storage[key] != "" then storage[key] else fallback
  }

  /** getStoredMode: "system" unless a non-empty mode is stored. */
  function StoredMode(storage: map<string, string>): string { StoredOr(storage, ModeKey, "system") }

  /** getStoredGalleryTheme: "minimal" unless a non-empty theme is stored. */
  function StoredGalleryTheme(storage: map<string, string>): string { StoredOr(storage, ThemeKey, "minimal") }

  /** What is read back after a write: the value written, or the fallback when it was empty; other keys are untouched. */
  lemma {:induction false} StoredAfterWrite(storage: map<string, string>, key: string, v: string, other: string, fallback: string)
    ensures StoredOr(storage[key := v], key, fallback) == if v == "" then fallback else v
    ensures other != key ==> StoredOr(storage[key := v], other, fallback) == StoredOr(storage, other, fallback)
  {
  }

  /** With nothing stored, the page starts in the system mode with the minimal gallery theme, which is a listed theme. */
  lemma {:induction false} Defaults(storage: map<string, string>)
    requires ModeKey !in storage && ThemeKey !in storage
    ensures StoredMode(storage) == "system" && IsMode(StoredMode(storage))
    ensures StoredGalleryTheme(storage) == "minimal" && StoredGalleryTheme(storage) in GalleryThemes
  {
  }

  /** A stored choice is never read back as empty. */
  lemma {:induction false} StoredNeverEmpty(storage: map<string, string>)
    ensures StoredMode(storage) != "" && StoredGalleryTheme(storage) != ""
  {
  }

  // ---------------------------------------------------------------------
  // The mode cycle and its icon

  /** The mode after `current` in cycleMode: light, dark, system, and light again; anything else goes to light. */
  function NextMode(current: string): string
  {
    if current == "light" then "dark" else if current == "dark" then "system" else "light"
  }

  /** The cycle always lands on a mode, and an unknown stored value restarts it at light. */
  lemma {:induction false} NextModeIsMode(current: string)
    ensures IsMode(NextMode(current))
    ensures !IsMode(current) ==> NextMode(current) == "light"
  {
  }

  /** Three steps from a mode come back to it, and no fewer: the cycle has length three. */
  lemma {:induction false} CycleOfThree(m: string)
    requires IsMode(m)
    ensures NextMode(NextMode(NextMode(m))) == m
    ensures NextMode(m) != m && NextMode(NextMode(m)) != m
  {
  }

  /** Two different modes step to two different modes. */
  lemma {:induction false} NextModeInjective(a: string, b: string)
    requires IsMode(a) && IsMode(b) && a != b
    ensures NextMode(a) != NextMode(b)
  {
  }

  /** getModeIcon: a sun for light, a moon for dark, a half circle for anything else. */
  function ModeIcon(mode: string): string
  {
    if mode == "light" then "\U{2600}" else if mode == "dark" then "\U{263D}" else "\U{25D0}"
  }

  /** The icon tells the three modes apart, and shows every other value like system. */
  lemma {:induction false} IconsTellModesApart(a: string, b: string)
    requires IsMode(a)
    ensures ModeIcon(a) == ModeIcon(b) <==> a == b || (a == "system" && !IsMode(b))
  {
  }

  // ---------------------------------------------------------------------
  // The root element's attributes and the buttons

  /** data-theme after applyMode: removed for system, the mode itself otherwise. */
  function ModeAttribute(mode: string): Option<string>
  {
    if mode == "system" then None else Some(mode)
  }

  /** data-gallery-theme after applyGalleryTheme: removed for minimal, the theme itself otherwise. */
  function GalleryAttribute(theme: string): Option<string>
  {
    if theme == "minimal" then None else Some(theme)
  }

  /** The attribute tells which value was applied: a different value never leaves the same attribute. */
  lemma {:induction false} AttributesDetermineChoice(a: string, b: string)
    ensures ModeAttribute(a) == ModeAttribute(b) <==> a == b
    ensures GalleryAttribute(a) == GalleryAttribute(b) <==> a == b
  {
  }

  /** The "active" flags after updateModeButtons/updateThemeButtons: a button is active exactly when its value is the choice. */
  function ActiveFlags(values: seq<string>, choice: string): (r: seq<bool>)
    ensures |r| == |values|
    ensures forall k :: 0 <= k < |values| ==> (r[k] <==> values[k] == choice)
  {
    if values == [] then [] else ActiveFlags(values[..|values| - 1], choice) + [values[|values| - 1] == choice]
  }

  /** Among buttons with distinct values, at most one is active. */
  lemma {:induction false} OneButtonActive(values: seq<string>, choice: string, i: nat, j: nat)
    requires i < |values| && j < |values|
    requires ActiveFlags(values, choice)[i] && ActiveFlags(values, choice)[j]
    requires forall k, l :: 0 <= k < l < |values| ==> values[k] != values[l]
    ensures i == j
  {
  }

  // ---------------------------------------------------------------------
  // The page

  /** localStorage, the root element and the three kinds of button on one page. */
  class ThemeSwitcher {
    var storage: map<string, string>
    var dataTheme: Option<string>          // data-theme on the root element
    var dataGalleryTheme: Option<string>   // data-gallery-theme on the root element
    const modeButtons: seq<string>         // data-mode-btn of each mode button
    var modeActive: seq<bool>
    const themeButtons: seq<string>        // data-theme-preview of each theme button
    var themeActive: seq<bool>
    var cycleIcons: seq<string>            // textContent of each .theme-cycle-btn
    var cycleTitles: seq<string>           // title of each .theme-cycle-btn

    /** One flag per button, one title per icon. */
    predicate Valid()
      reads this
    {
      |modeActive| == |modeButtons| && |themeActive| == |themeButtons| && |cycleTitles| == |cycleIcons|
    }

    /** The page as loaded: nothing applied yet, no button active, the cycle buttons blank. */
    constructor (storage0: map<string, string>, modes: seq<string>, themes: seq<string>, cycleButtons: nat)
      ensures Valid()
      ensures storage == storage0 && modeButtons == modes && themeButtons == themes
      ensures dataTheme == None && dataGalleryTheme == None
      ensures modeActive == seq(|modes|, _ => false) && themeActive == seq(|themes|, _ => false)
      ensures cycleIcons == seq(cycleButtons, _ => "") && cycleTitles == seq(cycleButtons, _ => "")
    {
      storage := storage0;
      dataTheme := None;
      dataGalleryTheme := None;
      modeButtons := modes;
      modeActive := seq(|modes|, _ => false);
      themeButtons := themes;
      themeActive := seq(|themes|, _ => false);
      cycleIcons := seq(cycleButtons, _ => "");
      cycleTitles := seq(cycleButtons, _ => "");
    }

    /** updateModeButtons: the forEach over the mode buttons. */
    method UpdateModeButtons(mode: string)
      requires Valid()
      modifies this
      ensures Valid()
      ensures modeActive == ActiveFlags(modeButtons, mode)
      ensures storage == old(storage) && dataTheme == old(dataTheme) && dataGalleryTheme == old(dataGalleryTheme)
      ensures themeActive == old(themeActive) && cycleIcons == old(cycleIcons) && cycleTitles == old(cycleTitles)
    {
      for i := 0 to |modeButtons|
        invariant Valid()
        invariant modeActive[..i] == ActiveFlags(modeButtons, mode)[..i]
        invariant storage == old(storage) && dataTheme == old(dataTheme) && dataGalleryTheme == old(dataGalleryTheme)
        invariant themeActive == old(themeActive) && cycleIcons == old(cycleIcons) && cycleTitles == old(cycleTitles)
      {
        modeActive := modeActive[i := modeButtons[i] == mode];
      }
    }

    /** updateThemeButtons: the forEach over the theme buttons. */
    method UpdateThemeButtons(theme: string)
      requires Valid()
      modifies this
      ensures Valid()
      ensures themeActive == ActiveFlags(themeButtons, theme)
      ensures storage == old(storage) && dataTheme == old(dataTheme) && dataGalleryTheme == old(dataGalleryTheme)
      ensures modeActive == old(modeActive) && cycleIcons == old(cycleIcons) && cycleTitles == old(cycleTitles)
    {
      for i := 0 to |themeButtons|
        invariant Valid()
        invariant themeActive[..i] == ActiveFlags(themeButtons, theme)[..i]
        invariant storage == old(storage) && dataTheme == old(dataTheme) && dataGalleryTheme == old(dataGalleryTheme)
        invariant modeActive == old(modeActive) && cycleIcons == old(cycleIcons) && cycleTitles == old(cycleTitles)
      {
        themeActive := themeActive[i := themeButtons[i] == theme];
      }
    }

    /** applyMode: the data-theme attribute, then the mode buttons. */
    method ApplyMode(mode: string)
      requires Valid()
      modifies this
      ensures Valid()
      ensures dataTheme == ModeAttribute(mode) && modeActive == ActiveFlags(modeButtons, mode)
      ensures storage == old(storage) && dataGalleryTheme == old(dataGalleryTheme)
      ensures themeActive == old(themeActive) && cycleIcons == old(cycleIcons) && cycleTitles == old(cycleTitles)
    {
      if mode == "system" {
        dataTheme := None;
      } else {
        dataTheme := Some(mode);
      }
      UpdateModeButtons(mode);
    }

    /** applyGalleryTheme: the data-gallery-theme attribute, then the theme buttons. */
    method ApplyGalleryTheme(theme: string)
      requires Valid()
      modifies this
      ensures Valid()
      ensures dataGalleryTheme == GalleryAttribute(theme) && themeActive == ActiveFlags(themeButtons, theme)
      ensures storage == old(storage) && dataTheme == old(dataTheme)
      ensures modeActive == old(modeActive) && cycleIcons == old(cycleIcons) && cycleTitles == old(cycleTitles)
    {
      if theme == "minimal" {
        dataGalleryTheme := None;
      } else {
        dataGalleryTheme := Some(theme);
      }
      UpdateThemeButtons(theme);
    }

    /** setMode: store the mode, then apply that same mode. */
    method SetMode(mode: string)
      requires Valid()
      modifies this
      ensures Valid()
      ensures storage == old(storage)[ModeKey := mode]
      ensures dataTheme == ModeAttribute(mode) && modeActive == ActiveFlags(modeButtons, mode)
      ensures dataGalleryTheme == old(dataGalleryTheme)
      ensures themeActive == old(themeActive) && cycleIcons == old(cycleIcons) && cycleTitles == old(cycleTitles)
    {
      storage := storage[ModeKey := mode];
      ApplyMode(mode);
    }

    /** setGalleryTheme: store the theme, then apply that same theme. */
    method SetGalleryTheme(theme: string)
      requires Valid()
      modifies this
      ensures Valid()
      ensures storage == old(storage)[ThemeKey := theme]
      ensures dataGalleryTheme == GalleryAttribute(theme) && themeActive == ActiveFlags(themeButtons, theme)
      ensures dataTheme == old(dataTheme)
      ensures modeActive == old(modeActive) && cycleIcons == old(cycleIcons) && cycleTitles == old(cycleTitles)
    {
      storage := storage[ThemeKey := theme];
      ApplyGalleryTheme(theme);
    }

    /** cycleMode: the stored mode's successor is stored, applied and returned. */
    method CycleMode() returns (next: string)
      requires Valid()
      modifies this
      ensures Valid()
      ensures next == NextMode(StoredMode(old(storage))) && IsMode(next)
      ensures storage == old(storage)[ModeKey := next] && StoredMode(storage) == next
      ensures dataTheme == ModeAttribute(next) && modeActive == ActiveFlags(modeButtons, next)
      ensures dataGalleryTheme == old(dataGalleryTheme)
      ensures themeActive == old(themeActive) && cycleIcons == old(cycleIcons) && cycleTitles == old(cycleTitles)
    {
      var current := StoredMode(storage);
      next := NextMode(current);
      SetMode(next);
    }

    /** init: apply the stored mode and theme, and label every cycle button with the stored mode. */
    method Init()
      requires Valid()
      modifies this
      ensures Valid()
      ensures storage == old(storage)
      ensures dataTheme == ModeAttribute(StoredMode(storage)) && modeActive == ActiveFlags(modeButtons, StoredMode(storage))
      ensures dataGalleryTheme == GalleryAttribute(StoredGalleryTheme(storage))
      ensures themeActive == ActiveFlags(themeButtons, StoredGalleryTheme(storage))
      ensures |cycleIcons| == |old(cycleIcons)|
      ensures forall k :: 0 <= k < |cycleIcons| ==>
        cycleIcons[k] == ModeIcon(StoredMode(storage)) && cycleTitles[k] == "Mode: " + StoredMode(storage)
    {
      var mode := StoredMode(storage);
      var theme := StoredGalleryTheme(storage);
      ApplyMode(mode);
      ApplyGalleryTheme(theme);
      for i := 0 to |cycleIcons|
        invariant Valid() && |cycleIcons| == |old(cycleIcons)|
        invariant storage == old(storage)
        invariant dataTheme == ModeAttribute(mode) && modeActive == ActiveFlags(modeButtons, mode)
        invariant dataGalleryTheme == GalleryAttribute(theme) && themeActive == ActiveFlags(themeButtons, theme)
        invariant forall k :: 0 <= k < i ==> cycleIcons[k] == ModeIcon(mode) && cycleTitles[k] == "Mode: " + mode
      {
        cycleIcons := cycleIcons[i := ModeIcon(mode)];
        cycleTitles := cycleTitles[i := "Mode: " + mode];
      }
    }

    /** A click on cycle button i: cycleMode, then that button shows the new mode's icon and title. */
    method ClickCycle(i: nat)
      requires Valid() && i < |cycleIcons|
      modifies this
      ensures Valid()
      ensures var next := NextMode(StoredMode(old(storage)));
        && storage == old(storage)[ModeKey := next]
        && dataTheme == ModeAttribute(next) && modeActive == ActiveFlags(modeButtons, next)
        && cycleIcons == old(cycleIcons)[i := ModeIcon(next)] && cycleTitles == old(cycleTitles)[i := "Mode: " + next]
      ensures dataGalleryTheme == old(dataGalleryTheme) && themeActive == old(themeActive)
    {
      var next := CycleMode();
      cycleIcons := cycleIcons[i := ModeIcon(next)];
      cycleTitles := cycleTitles[i := "Mode: " + next];
    }
  }
}
