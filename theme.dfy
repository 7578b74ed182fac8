/** The wiki's theme switch: the `theme` entry of the browser's persistent
    storage (absent, or a string), the `data-theme` attribute of the root
    element, and the caption of the switch button. The operating system's
    colour preference, `(prefers-color-scheme: dark)`, is an input. */
module Theme {
  import opened Wrappers

  const Dark: string := "dark"
  const Light: string := "light"
  const System: string := "system"

  /** The storage entry and the root attribute. */
  datatype View = View(stored: Option<string>, attr: Option<string>)

  /** The attribute that follows the operating system. */
  function OsTheme(dark: bool): string {
    if dark then Dark else Light
  }

  /** `systemThemeEvent`: only an absent or "system" entry follows the OS. */
  function SystemEvent(v: View, dark: bool): View {
    if v.stored == None || v.stored == Some(System) then v.(attr := Some(OsTheme(dark))) else v
  }

  /** `setupTheme`: a stored "dark" or "light" is applied, "system" follows
      the OS, and anything else is replaced by "system". */
  function Setup(v: View, dark: bool): View {
    if v.stored == Some(Dark) || v.stored == Some(Light) then v.(attr := v.stored)
    else if v.stored == Some(System) then SystemEvent(v, dark)
    else SystemEvent(v.(stored := Some(System)), dark)
  }

  /** `toggleTheme`: system, dark and light in a cycle; nothing stored is
      set up; a foreign entry is left alone. */
  function Toggle(v: View, dark: bool): View {
    if v.stored == None then Setup(v, dark)
    else if v.stored == Some(System) then View(Some(Dark), Some(Dark))
    else if v.stored == Some(Dark) then View(Some(Light), Some(Light))
    else if v.stored == Some(Light) then SystemEvent(v.(stored := Some(System)), dark)
    else v
  }

  /** `switchButtonThemeText`: the caption for a known entry, otherwise the
      old caption. */
  function Label(stored: Option<string>, caption: Option<string>): Option<string> {
    if stored == Some(System) then Some("System theme")
    else if stored == Some(Dark) then Some("Dark theme")
    else if stored == Some(Light) then Some("Light theme")
    else caption
  }

  /** A known entry with an applied attribute that agrees with it. */
  predicate Consistent(v: View) {
    (v.stored == Some(System) || v.stored == Some(Dark) || v.stored == Some(Light))
    && (v.attr == Some(Dark) || v.attr == Some(Light))
    && (v.stored != Some(System) ==> v.attr == v.stored)
  }

  /** The page: storage entry, root attribute, button caption, and whether the
      click and preference-change listeners are installed. */
  class Page {
    var stored: Option<string>
    var attr: Option<string>
    var caption: Option<string>
    var listening: bool

    function State(): View
      reads this
    {
      View(stored, attr)
    }

    constructor (stored0: Option<string>)
      ensures stored == stored0 && attr == None && caption == None && !listening
    {
      stored := stored0;
      attr := None;
      caption := None;
      listening := false;
    }

    /** `setTheme`. */
    method SetTheme(t: string)
      modifies this`attr
      ensures attr == Some(t)
    {
      attr := Some(t);
    }

    /** `systemThemeEvent`, with `dark` for `dark.matches`. */
    method SystemThemeEvent(dark: bool)
      modifies this`attr
      ensures State() == SystemEvent(old(State()), dark)
    {
      if stored == None || stored == Some(System) {
        SetTheme(OsTheme(dark));
      }
    }

    /** `setupTheme`. */
    method SetupTheme(dark: bool)
      modifies this`stored, this`attr
      ensures State() == Setup(old(State()), dark)
    {
      if stored == Some(Dark) || stored == Some(Light) {
        SetTheme(stored.value);
      } else if stored == Some(System) {
        SystemThemeEvent(dark);
      } else {
        stored := Some(System);
        SystemThemeEvent(dark);
      }
    }

    /** `toggleTheme`. */
    method ToggleTheme(dark: bool)
      modifies this`stored, this`attr
      ensures State() == Toggle(old(State()), dark)
    {
      if stored == None {
        SetupTheme(dark);
        return;
      }
      if stored == Some(System) {
        stored := Some(Dark);
        SetTheme(Dark);
      } else if stored == Some(Dark) {
        stored := Some(Light);
        SetTheme(Light);
      } else if stored == Some(Light) {
        stored := Some(System);
        SystemThemeEvent(dark);
      }
    }

    /** `switchButtonThemeText`. */
    method SwitchButtonThemeText()
      modifies this`caption
      ensures caption == Label(stored, old(caption))
    {
      if stored == Some(System) {
        caption := Some("System theme");
      } else if stored == Some(Dark) {
        caption := Some("Dark theme");
      } else if stored == Some(Light) {
        caption := Some("Light theme");
      }
    }

    /** One click on the button: the two listeners in the order they were
        added. */
    method Click(dark: bool)
      modifies this`stored, this`attr, this`caption
      ensures State() == Toggle(old(State()), dark)
      ensures caption == Label(stored, old(caption))
    {
      ToggleTheme(dark);
      SwitchButtonThemeText();
    }

    /** `loadPageTheme`: installs the listeners and sets the caption. */
    method LoadPageTheme()
      modifies this`caption, this`listening
      ensures listening
      ensures caption == Label(stored, old(caption))
    {
      listening := true;
      SwitchButtonThemeText();
    }

    /** The script's top level, then its `DOMContentLoaded` handler: the page
        ends consistent, labelled and listening. */
    method Boot(dark: bool)
      modifies this
      ensures State() == Setup(old(State()), dark) && Consistent(State())
      ensures listening && caption == Label(stored, old(caption))
      ensures caption.Some?
    {
      SetupTheme(dark);
      SetupConsistent(old(State()), dark);
      LoadPageTheme();
    }
  }

  /** Setting up makes any state consistent, and a consistent state stays
      consistent under toggles and preference changes. */
  lemma SetupConsistent(v: View, dark: bool)
    ensures Consistent(Setup(v, dark))
    ensures v.stored == Setup(v, dark).stored || Setup(v, dark).stored == Some(System)
  {
  }

  /** Setting up twice ends in the same entry and attribute as setting up
      once, and labelling the button again keeps the caption. */
  lemma SetupIdempotent(v: View, dark: bool, caption: Option<string>)
    ensures Setup(Setup(v, dark), dark) == Setup(v, dark)
    ensures var s := Setup(v, dark).stored; Label(s, Label(s, caption)) == Label(s, caption)
  {
  }

  lemma ToggleKeepsConsistent(v: View, dark: bool)
    requires Consistent(v)
    ensures Consistent(Toggle(v, dark))
    ensures Consistent(SystemEvent(v, dark))
  {
  }

  /** Only a change to or from the "light" entry, or a missing entry,
      consults the operating system. */
  lemma ToggleIgnoresOs(v: View)
    requires v.stored == Some(System) || v.stored == Some(Dark)
    ensures Toggle(v, true) == Toggle(v, false)
  {
  }

  /** In the "system" state the attribute follows the preference. */
  lemma SystemFollowsOs(v: View, dark: bool)
    requires Toggle(v, dark).stored == Some(System)
    requires v.stored != None ==> v.stored == Some(Light)
    ensures Toggle(v, dark).attr == Some(OsTheme(dark))
  {
  }

  /** A foreign entry is never touched by a toggle. */
  lemma ForeignEntryStays(v: View, dark: bool)
    requires v.stored.Some? && v.stored.value != System && v.stored.value != Dark && v.stored.value != Light
    ensures Toggle(v, dark) == v
  {
  }

  /** From empty storage, four toggles store system, dark, light, system. */
  lemma FourToggles(v0: View, d1: bool, d2: bool, d3: bool, d4: bool)
    requires v0.stored == None
    ensures var v1 := Toggle(v0, d1); var v2 := Toggle(v1, d2);
      var v3 := Toggle(v2, d3); var v4 := Toggle(v3, d4);
      v1.stored == Some(System) && v2.stored == Some(Dark) && v3.stored == Some(Light)
      && v4.stored == Some(System)
  {
  }

  /** The cycle has period three on a known entry. */
  lemma ToggleCycle(v: View, d1: bool, d2: bool, d3: bool)
    requires v.stored == Some(System) || v.stored == Some(Dark) || v.stored == Some(Light)
    ensures Toggle(Toggle(Toggle(v, d1), d2), d3).stored == v.stored
  {
  }

  /** After a click from a consistent state the caption names the stored
      entry. */
  lemma ClickLabelsEntry(v: View, dark: bool, caption: Option<string>)
    requires Consistent(v)
    ensures var w := Toggle(v, dark);
      Label(w.stored, caption) == Some(
        if w.stored == Some(System) then "System theme"
        else if w.stored == Some(Dark) then "Dark theme" else "Light theme")
  {
    ToggleKeepsConsistent(v, dark);
  }
}
