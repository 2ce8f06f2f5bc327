/** The static theme data of the provider and the pure helpers around it: the
    theme table and its palettes, the route override table, the system theme,
    the server-injected class marker, and the text of the CSS-variable stylesheet. */
module Themes {
  import opened Wrappers
  import opened Strings

  /** A theme: its display name and its colour roles, in declaration order. */
  datatype Theme = Theme(name: string, colors: seq<(string, string)>)

  const LightColors: seq<(string, string)> := [
    ("bg", "#ffffff"), ("bgSecondary", "#f3f4f6"), ("text", "#111827"), ("textSecondary", "#6b7280"),
    ("primary", "#3b82f6"), ("primaryHover", "#2563eb"), ("border", "#e5e7eb"), ("shadow", "rgba(0, 0, 0, 0.1)")
  ]

  const DarkColors: seq<(string, string)> := [
    ("bg", "#0f172a"), ("bgSecondary", "#1e293b"), ("text", "#f1f5f9"), ("textSecondary", "#94a3b8"),
    ("primary", "#3b82f6"), ("primaryHover", "#2563eb"), ("border", "#334155"), ("shadow", "rgba(0, 0, 0, 0.3)")
  ]

  const HighContrastColors: seq<(string, string)> := [
    ("bg", "#000000"), ("bgSecondary", "#1a1a1a"), ("text", "#ffffff"), ("textSecondary", "#cccccc"),
    ("primary", "#00ff00"), ("primaryHover", "#00cc00"), ("border", "#ffffff"), ("shadow", "rgba(255, 255, 255, 0.2)")
  ]

  const Themes: map<string, Theme> := map[
    "light" := Theme("Light", LightColors),
    "dark" := Theme("Dark", DarkColors),
    "highContrast" := Theme("High Contrast", HighContrastColors)
  ]

  /** Property names every plain object inherits from `Object.prototype`;
      `themes[name]` is truthy for each of them although none is a theme. */
  const ObjectPrototypeKeys: set<string> := {
    "constructor", "__defineGetter__", "__defineSetter__", "hasOwnProperty", "__lookupGetter__",
    "__lookupSetter__", "isPrototypeOf", "propertyIsEnumerable", "toString", "valueOf",
    "__proto__", "toLocaleString"
  }

  /** The source's validity test `themes[name]` (truthy property lookup). */
  predicate IsKnownTheme(name: string) {
    name in Themes || name in ObjectPrototypeKeys
  }

  const RouteThemeOverrides: map<string, string> := map[
    "/trailers" := "dark",
    "/docs" := "light",
    "/accessibility" := "highContrast"
  ]

  /** The theme shown on `route`: its override if the route has one, else the base theme. */
  function EffectiveTheme(route: string, baseTheme: string): string {
    if route in RouteThemeOverrides then RouteThemeOverrides[route] else baseTheme
  }

  /** What `applySystemTheme` picks from the `prefers-color-scheme: dark` query. */
  function SystemTheme(prefersDark: bool): (t: string)
    ensures t in Themes && t != "highContrast"
    ensures prefersDark <==> t == "dark"
  {
    if prefersDark then "dark" else "light"
  }

  /** Overrides only ever name real themes, so a real base theme always yields a real effective theme. */
  lemma EffectiveThemeHasPalette(route: string, baseTheme: string)
    requires baseTheme in Themes || route in RouteThemeOverrides
    ensures EffectiveTheme(route, baseTheme) in Themes
  {
  }

  /** An override shadows the base theme entirely; without one the base theme shows through. */
  lemma {:induction false} EffectiveThemeOverride(route: string, a: string, b: string)
    ensures route in RouteThemeOverrides ==> EffectiveTheme(route, a) == EffectiveTheme(route, b)
    ensures route !in RouteThemeOverrides ==> (EffectiveTheme(route, a) == EffectiveTheme(route, b) <==> a == b)
  {
  }

  /** A name accepted as a theme may still have no palette (it names an inherited property). */
  lemma InheritedNameHasNoPalette()
    ensures IsKnownTheme("constructor") && "constructor" !in Themes
  {
  }

  // ---------------------------------------------------------------------------
  // The server-injected marker: the first match of /theme-(\w+)/ in the class list
  // ---------------------------------------------------------------------------

  /** `\w`: ASCII letters, digits and `_`. */
  predicate IsWordChar(c: char) {
    ('A' <= c <= 'Z') || ('a' <= c <= 'z') || ('0' <= c <= '9') || c == '_'
  }

  const MarkerPrefix := "theme-"

  /** The regular expression matches at index `i`: `theme-` followed by a word character. */
  predicate MarkerAt(s: string, i: nat) {
    i + 7 <= |s| && s[i..i + 6] == MarkerPrefix && IsWordChar(s[i + 6])
  }

  lemma MarkerAtTail(s: string, j: nat)
    requires 1 <= j <= |s|
    ensures MarkerAt(s, j) <==> MarkerAt(s[1..], j - 1)
  {
    if j + 7 <= |s| {
      var here, there := s[j..j + 6], s[1..][j - 1..j - 1 + 6];
      forall k | 0 <= k < 6 ensures here[k] == there[k] {
        assert s[1..][j - 1 + k] == s[j + k];
      }
      assert here == there;
    }
  }

  /** The leftmost index where the expression matches. */
  function MarkerIndex(s: string): (r: Option<nat>)
    ensures r.Some? ==> MarkerAt(s, r.value)
    ensures r.Some? ==> forall j :: 0 <= j < r.value ==> !MarkerAt(s, j)
    ensures r.None? ==> forall j :: 0 <= j <= |s| ==> !MarkerAt(s, j)
    decreases |s|
  {
    if |s| < 7 then None
    else if MarkerAt(s, 0) then Some(0)
    else
      var rest := MarkerIndex(s[1..]);
      assert forall j :: 1 <= j <= |s| ==> (MarkerAt(s, j) <==> MarkerAt(s[1..], j - 1)) by {
        forall j | 1 <= j <= |s| { MarkerAtTail(s, j); }
      }
      match rest
      case None => None
      case Some(k) => Some(k + 1)
  }

  /** The greedy `\w+`: the longest prefix of `s` made of word characters. */
  function WordPrefix(s: string): (w: string)
    ensures |w| <= |s| && w == s[..|w|]
    ensures forall k :: 0 <= k < |w| ==> IsWordChar(w[k])
    ensures |w| < |s| ==> !IsWordChar(s[|w|])
    decreases |s|
  {
    if s != [] && IsWordChar(s[0]) then [s[0]] + WordPrefix(s[1..]) else []
  }

  /** `className.match(/theme-(\w+)/)?.[1]`. */
  function ServerTheme(className: string): (r: Option<string>)
    ensures r.Some? ==> r.value != [] && forall k :: 0 <= k < |r.value| ==> IsWordChar(r.value[k])
  {
    match MarkerIndex(className)
    case None => None
    case Some(i) => Some(WordPrefix(className[i + 6..]))
  }

  /** The class the provider writes (`theme-<name>`) is read back as `<name>` when the
      name is made of word characters. */
  lemma ServerThemeOfClass(name: string)
    requires name != [] && forall k :: 0 <= k < |name| ==> IsWordChar(name[k])
    ensures ServerTheme(MarkerPrefix + name) == Some(name)
  {
    var s := MarkerPrefix + name;
    assert s[0..6] == MarkerPrefix && s[6] == name[0];
    assert MarkerAt(s, 0);
    assert MarkerIndex(s) == Some(0);
    assert s[6..] == name;
    var w := WordPrefix(name);
    assert |w| == |name|;
    assert w == name;
  }

  /** Every palette theme name is made of word characters. */
  lemma ThemeNamesAreWords(name: string)
    requires name in Themes
    ensures name != [] && forall k :: 0 <= k < |name| ==> IsWordChar(name[k])
  {
  }

  // ---------------------------------------------------------------------------
  // The CSS-variable stylesheet written by applyThemeVariables
  // ---------------------------------------------------------------------------

  const Indent := "\n    "
  const StylePrefix := ":root {\n    "
  const StyleSuffix := "\n  }"
  const DeclarationPrefix := "--color-"

  /** `--color-${key}: ${value};` */
  function Declaration(role: string, value: string): string {
    DeclarationPrefix + role + ": " + value + ";"
  }

  function Declarations(colors: seq<(string, string)>): (ds: seq<string>)
    ensures |ds| == |colors|
    decreases |colors|
  {
    if colors == [] then [] else [Declaration(colors[0].0, colors[0].1)] + Declarations(colors[1..])
  }

  /** The stylesheet text: one declaration per colour role, in order. */
  function StyleText(colors: seq<(string, string)>): string {
    StylePrefix + Join(Declarations(colors), Indent) + StyleSuffix
  }

  /** The stylesheet for a theme, or `None` where `themes[name].colors` would throw. */
  function ThemeStyle(name: string): Option<string> {
    if name in Themes then Some(StyleText(Themes[name].colors)) else None
  }

  /** Reading one declaration back. */
  function ParseDeclaration(d: string): Option<(string, string)> {
    if |d| >= |DeclarationPrefix| + 1 && d[..|DeclarationPrefix|] == DeclarationPrefix && d[|d| - 1] == ';' then
      var body := d[|DeclarationPrefix|..|d| - 1];
      match IndexOf(body, ": ")
      case None => None
      case Some(i) => Some((body[..i], body[i + 2..]))
    else None
  }

  function ParseDeclarations(ds: seq<string>): Option<seq<(string, string)>>
    decreases |ds|
  {
    if ds == [] then Some([])
    else match (ParseDeclaration(ds[0]), ParseDeclarations(ds[1..]))
      case (Some(d), Some(rest)) => Some([d] + rest)
      case _ => None
  }

  /** Reading a stylesheet text back into its colour roles. */
  function ParseStyle(text: string): Option<seq<(string, string)>> {
    if |text| >= |StylePrefix| + |StyleSuffix| && text[..|StylePrefix|] == StylePrefix
       && text[|text| - |StyleSuffix|..] == StyleSuffix
    then ParseDeclarations(Split(text[|StylePrefix|..|text| - |StyleSuffix|], Indent))
    else None
  }

  /** Roles without `:` or a line break, values without a line break. */
  predicate WellFormedColors(colors: seq<(string, string)>) {
    forall k :: 0 <= k < |colors| ==> ':' !in colors[k].0 && '\n' !in colors[k].0 && '\n' !in colors[k].1
  }

  lemma ParseDeclarationOf(role: string, value: string)
    requires ':' !in role
    ensures ParseDeclaration(Declaration(role, value)) == Some((role, value))
  {
    var d := Declaration(role, value);
    var body := d[|DeclarationPrefix|..|d| - 1];
    assert body == role + ": " + value;
    IndexOfAfter(role, ": ", value);
    assert body[..|role|] == role;
    assert body[|role| + 2..] == value;
  }

  lemma {:induction false} ParseDeclarationsOf(colors: seq<(string, string)>)
    requires WellFormedColors(colors)
    ensures ParseDeclarations(Declarations(colors)) == Some(colors)
    decreases |colors|
  {
    if colors != [] {
      ParseDeclarationOf(colors[0].0, colors[0].1);
      ParseDeclarationsOf(colors[1..]);
      assert Declarations(colors)[1..] == Declarations(colors[1..]);
      assert [colors[0]] + colors[1..] == colors;
    }
  }

  lemma {:induction false} DeclarationsLineFree(colors: seq<(string, string)>)
    requires WellFormedColors(colors)
    ensures forall k :: 0 <= k < |colors| ==> '\n' !in Declarations(colors)[k]
    decreases |colors|
  {
    if colors != [] {
      DeclarationsLineFree(colors[1..]);
      assert Declarations(colors) == [Declaration(colors[0].0, colors[0].1)] + Declarations(colors[1..]);
    }
  }

  /** The stylesheet text lists exactly the theme's colour roles, in order. */
  lemma StyleRoundTrip(colors: seq<(string, string)>)
    requires colors != [] && WellFormedColors(colors)
    ensures ParseStyle(StyleText(colors)) == Some(colors)
  {
    var body := Join(Declarations(colors), Indent);
    var text := StyleText(colors);
    assert text[..|StylePrefix|] == StylePrefix;
    assert text[|text| - |StyleSuffix|..] == StyleSuffix;
    assert text[|StylePrefix|..|text| - |StyleSuffix|] == body;
    DeclarationsLineFree(colors);
    SplitJoin(Declarations(colors), Indent);
    ParseDeclarationsOf(colors);
  }

  lemma WellFormedConcat(a: seq<(string, string)>, b: seq<(string, string)>)
    requires WellFormedColors(a) && WellFormedColors(b)
    ensures WellFormedColors(a + b)
  {
    forall k | 0 <= k < |a + b|
      ensures ':' !in (a + b)[k].0 && '\n' !in (a + b)[k].0 && '\n' !in (a + b)[k].1
    {
      if k >= |a| {
        assert (a + b)[k] == b[k - |a|];
      }
    }
  }

  lemma LightColorsHead()
    ensures WellFormedColors(LightColors[..4])
  {
    assert ':' !in "bg" && '\n' !in "bg" && '\n' !in "#ffffff";
    assert ':' !in "bgSecondary" && '\n' !in "bgSecondary" && '\n' !in "#f3f4f6";
    assert ':' !in "text" && '\n' !in "text" && '\n' !in "#111827";
    assert ':' !in "textSecondary" && '\n' !in "textSecondary" && '\n' !in "#6b7280";
  }

  lemma LightColorsTail()
    ensures WellFormedColors(LightColors[4..])
  {
    assert ':' !in "primary" && '\n' !in "primary" && '\n' !in "#3b82f6";
    assert ':' !in "primaryHover" && '\n' !in "primaryHover" && '\n' !in "#2563eb";
    assert ':' !in "border" && '\n' !in "border" && '\n' !in "#e5e7eb";
    assert ':' !in "shadow" && '\n' !in "shadow" && '\n' !in "rgba(0, 0, 0, 0.1)";
  }

  /** Every palette is well formed, so each theme's stylesheet reads back as its palette. */
  lemma LightColorsWellFormed()
    ensures |LightColors| == 8 && WellFormedColors(LightColors)
  {
    LightColorsHead();
    LightColorsTail();
    WellFormedConcat(LightColors[..4], LightColors[4..]);
    assert LightColors == LightColors[..4] + LightColors[4..];
  }

  lemma DarkColorsHead()
    ensures WellFormedColors(DarkColors[..4])
  {
    assert ':' !in "bg" && '\n' !in "bg" && '\n' !in "#0f172a";
    assert ':' !in "bgSecondary" && '\n' !in "bgSecondary" && '\n' !in "#1e293b";
    assert ':' !in "text" && '\n' !in "text" && '\n' !in "#f1f5f9";
    assert ':' !in "textSecondary" && '\n' !in "textSecondary" && '\n' !in "#94a3b8";
  }

  lemma DarkColorsTail()
    ensures WellFormedColors(DarkColors[4..])
  {
    assert ':' !in "primary" && '\n' !in "primary" && '\n' !in "#3b82f6";
    assert ':' !in "primaryHover" && '\n' !in "primaryHover" && '\n' !in "#2563eb";
    assert ':' !in "border" && '\n' !in "border" && '\n' !in "#334155";
    assert ':' !in "shadow" && '\n' !in "shadow" && '\n' !in "rgba(0, 0, 0, 0.3)";
  }

  lemma DarkColorsWellFormed()
    ensures |DarkColors| == 8 && WellFormedColors(DarkColors)
  {
    DarkColorsHead();
    DarkColorsTail();
    WellFormedConcat(DarkColors[..4], DarkColors[4..]);
    assert DarkColors == DarkColors[..4] + DarkColors[4..];
  }

  lemma HighContrastColorsHead()
    ensures WellFormedColors(HighContrastColors[..4])
  {
    assert ':' !in "bg" && '\n' !in "bg" && '\n' !in "#000000";
    assert ':' !in "bgSecondary" && '\n' !in "bgSecondary" && '\n' !in "#1a1a1a";
    assert ':' !in "text" && '\n' !in "text" && '\n' !in "#ffffff";
    assert ':' !in "textSecondary" && '\n' !in "textSecondary" && '\n' !in "#cccccc";
  }

  lemma HighContrastColorsTail()
    ensures WellFormedColors(HighContrastColors[4..])
  {
    assert ':' !in "primary" && '\n' !in "primary" && '\n' !in "#00ff00";
    assert ':' !in "primaryHover" && '\n' !in "primaryHover" && '\n' !in "#00cc00";
    assert ':' !in "border" && '\n' !in "border" && '\n' !in "#ffffff";
    assert ':' !in "shadow" && '\n' !in "shadow" && '\n' !in "rgba(255, 255, 255, 0.2)";
  }

  lemma HighContrastColorsWellFormed()
    ensures |HighContrastColors| == 8 && WellFormedColors(HighContrastColors)
  {
    HighContrastColorsHead();
    HighContrastColorsTail();
    WellFormedConcat(HighContrastColors[..4], HighContrastColors[4..]);
    assert HighContrastColors == HighContrastColors[..4] + HighContrastColors[4..];
  }

  lemma PaletteWellFormed(name: string)
    requires name in Themes
    ensures |Themes[name].colors| == 8 && WellFormedColors(Themes[name].colors)
  {
    LightColorsWellFormed();
    DarkColorsWellFormed();
    HighContrastColorsWellFormed();
  }

  /** Each theme's stylesheet reads back as its palette of eight colour roles. */
  lemma ThemeStyleRoundTrip(name: string)
    requires name in Themes
    ensures ThemeStyle(name).Some? && ParseStyle(ThemeStyle(name).value) == Some(Themes[name].colors)
    ensures |Themes[name].colors| == 8
  {
    PaletteWellFormed(name);
    StyleRoundTrip(Themes[name].colors);
  }
}
