/** ThemeContext.js: the dark/light flag, how it is read back from storage,
    and what the provider writes to storage and to the document whenever the
    flag changes. `localStorage`, `matchMedia` and the document root are
    modelled as fields and parameters. */
module Theme {
  import opened Common

  /** The initial flag: a saved value decides (only "dark" is dark); without
      one, the system preference does. */
  function InitialTheme(saved: Option<string>, systemDark: bool): (isDark: bool)
    ensures saved.Some? ==> (isDark <==> saved.value == "dark")
    ensures saved.None? ==> isDark == systemDark
  {
    match saved
    case Some(s) => s == "dark"
    case None => systemDark
  }

  /** The string stored under "theme" and written to `data-theme`. */
  function Stored(isDark: bool): (s: string)
    ensures s == "dark" || s == "light"
    ensures s == "dark" <==> isDark
  {
    if isDark then "dark" else "light"
  }

  /** Storing the flag and reading it back on the next visit gives the same
      flag, whatever the system preference is then. */
  lemma StoredRoundTrip(isDark: bool, systemDark: bool)
    ensures InitialTheme(Some(Stored(isDark)), systemDark) == isDark
  {
  }

  /** The eight CSS custom properties the provider sets, in order. */
  const VarNames: seq<string> := ["--bg-primary", "--bg-secondary", "--bg-tertiary", "--text-primary",
                                  "--text-secondary", "--border-color", "--card-bg", "--shadow-color"]

  /** The value each property gets in dark mode. */
  const DarkPalette: seq<string> := ["#0F0F0F", "#1A1A1A", "#2D2D2D", "#F5F5F5", "#A3A3A3", "#404040",
                                     "rgba(45, 45, 45, 0.6)", "rgba(0, 0, 0, 0.4)"]

  /** The value each property gets in light mode. */
  const LightPalette: seq<string> := ["#FFFFFF", "#F8F9FA", "#E9ECEF", "#1A1A1A", "#6C757D", "#DEE2E6",
                                      "rgba(255, 255, 255, 0.9)", "rgba(0, 0, 0, 0.1)"]

  /** The palette of the current mode, one value per property. */
  function Palette(isDark: bool): (values: seq<string>)
    ensures |values| == |VarNames|
  {
    if isDark then DarkPalette else LightPalette
  }

  /** The two palettes differ in every property, so the style tells the mode apart. */
  lemma PalettesDiffer()
    ensures forall i :: 0 <= i < |VarNames| ==> Palette(true)[i] != Palette(false)[i]
  {
  }

  /** What `useTheme` returns: the provider's value, or the error it throws. */
  datatype ThemeValue = ThemeValue(isDarkMode: bool)
  datatype Result<T> = Ok(value: T) | Err(message: string)

  const OutsideProvider := "useTheme must be used within a ThemeProvider"

  /** `useTheme()`: fails exactly when no provider supplies a value. */
  function UseTheme(context: Option<ThemeValue>): (r: Result<ThemeValue>)
    ensures r.Err? <==> context.None?
    ensures r.Err? ==> r.message == OutsideProvider
    ensures r.Ok? ==> r.value == context.value
  {
    match context
    case None => Err(OutsideProvider)
    case Some(v) => Ok(v)
  }

  /** The eight custom properties are eight different names. */
  lemma VarNamesDistinct()
    ensures forall i, j :: 0 <= i < j < |VarNames| ==> VarNames[i] != VarNames[j]
  {
  }

  /** `s` is `s0` with the first n properties set to the palette `v`. */
  ghost predicate SetUpTo(s0: map<string, string>, s: map<string, string>, v: seq<string>, n: nat)
    requires n <= |VarNames| == |v|
  {
    && (forall j :: 0 <= j < n ==> VarNames[j] in s && s[VarNames[j]] == v[j])
    && (forall k :: k !in VarNames ==> (k in s <==> k in s0) && (k in s ==> s[k] == s0[k]))
  }

  /** Setting the next property keeps the ones already set, since the names differ. */
  lemma SetNext(s0: map<string, string>, s: map<string, string>, v: seq<string>, n: nat)
    requires n < |VarNames| == |v|
    requires n == 0 ==> s == s0
    requires n > 0 ==> SetUpTo(s0, s, v, n)
    ensures SetUpTo(s0, s[VarNames[n] := v[n]], v, n + 1)
  {
    VarNamesDistinct();
  }

  /** The provider's flag and the parts of the page it writes. */
  class ThemeProvider {
    var isDarkMode: bool
    var storage: map<string, string>
    var dataTheme: string
    var style: map<string, string>

    /** Storage, `data-theme` and the eight properties all follow the flag. */
    ghost predicate Applied()
      reads this
    {
      && "theme" in storage && storage["theme"] == Stored(isDarkMode)
      && dataTheme == Stored(isDarkMode)
      && forall i :: 0 <= i < |VarNames| ==> VarNames[i] in style && style[VarNames[i]] == Palette(isDarkMode)[i]
    }

    /** Mount: pick the initial flag, then run the effect. */
    constructor (saved: Option<string>, systemDark: bool, storage: map<string, string>, style: map<string, string>)
      ensures isDarkMode == InitialTheme(saved, systemDark)
      ensures Applied()
      ensures this.storage == storage["theme" := Stored(isDarkMode)]
      ensures forall k :: k !in VarNames ==> (k in this.style <==> k in style) && (k in this.style ==> this.style[k] == style[k])
    {
      isDarkMode := InitialTheme(saved, systemDark);
      this.storage := storage;
      dataTheme := "";
      this.style := style;
      new;
      ApplyTheme();
    }

    /** The effect: store the flag, set `data-theme`, set the eight properties
        to the mode's palette; every other property is left alone. */
    method ApplyTheme()
      modifies this`storage, this`dataTheme, this`style
      ensures Applied()
      ensures storage == old(storage)["theme" := Stored(isDarkMode)]
      ensures forall k :: k !in VarNames ==> (k in style <==> k in old(style)) && (k in style ==> style[k] == old(style)[k])
    {
      storage := storage["theme" := Stored(isDarkMode)];
      dataTheme := Stored(isDarkMode);
      SetProperties(Palette(isDarkMode));
    }

    /** The eight `root.style.setProperty` calls of the effect. */
    method SetProperties(v: seq<string>)
      requires |v| == |VarNames|
      modifies this`style
      ensures forall i :: 0 <= i < |VarNames| ==> VarNames[i] in style && style[VarNames[i]] == v[i]
      ensures forall k :: k !in VarNames ==> (k in style <==> k in old(style)) && (k in style ==> style[k] == old(style)[k])
    {
      ghost var style0 := style;
      SetNext(style0, style, v, 0);
      style := style[VarNames[0] := v[0]];  // --bg-primary
      SetNext(style0, style, v, 1);
      style := style[VarNames[1] := v[1]];  // --bg-secondary
      SetNext(style0, style, v, 2);
      style := style[VarNames[2] := v[2]];  // --bg-tertiary
      SetNext(style0, style, v, 3);
      style := style[VarNames[3] := v[3]];  // --text-primary
      SetNext(style0, style, v, 4);
      style := style[VarNames[4] := v[4]];  // --text-secondary
      SetNext(style0, style, v, 5);
      style := style[VarNames[5] := v[5]];  // --border-color
      SetNext(style0, style, v, 6);
      style := style[VarNames[6] := v[6]];  // --card-bg
      SetNext(style0, style, v, 7);
      style := style[VarNames[7] := v[7]];  // --shadow-color
    }

    /** `toggleTheme()`: negate the flag; the effect then runs again. */
    method ToggleTheme()
      modifies this
      ensures isDarkMode == !old(isDarkMode)
      ensures Applied()
      ensures storage == old(storage)["theme" := Stored(isDarkMode)]
      ensures forall k :: k !in VarNames ==> (k in style <==> k in old(style)) && (k in style ==> style[k] == old(style)[k])
    {
      isDarkMode := !isDarkMode;
      ApplyTheme();
    }
  }
}
