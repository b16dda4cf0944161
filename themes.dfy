/** The theme registry of lib/themes.ts: six fixed visual presets, the
    lookup that falls back to the `minimal` preset, and the CSS custom
    properties a preset becomes. */
module Themes {

  datatype ThemeConfig = ThemeConfig(
    id: string,
    name: string,
    primaryColor: string,
    backgroundColor: string,
    textColor: string,
    accentColor: string,
    fontFamily: string)

  const Font: string := "var(--font-rubik), sans-serif"

  const Midnight: ThemeConfig := ThemeConfig("midnight", "Midnight", "#8B5CF6", "#0F0F1A", "#FFFFFF", "#A78BFA", Font)
  const Ocean: ThemeConfig := ThemeConfig("ocean", "Ocean", "#0EA5E9", "#0C1929", "#F0F9FF", "#38BDF8", Font)
  const Sunset: ThemeConfig := ThemeConfig("sunset", "Sunset", "#F97316", "#FFFBEB", "#1C1917", "#FB923C", Font)
  const Forest: ThemeConfig := ThemeConfig("forest", "Forest", "#10B981", "#022C22", "#ECFDF5", "#34D399", Font)
  const Lavender: ThemeConfig := ThemeConfig("lavender", "Lavender", "#A855F7", "#FAF5FF", "#1E1B4B", "#C084FC", Font)
  const Minimal: ThemeConfig := ThemeConfig("minimal", "Minimal", "#18181B", "#FFFFFF", "#18181B", "#3F3F46", Font)

  /** `themes`: every preset under its own key. */
  const Themes: map<string, ThemeConfig> := map[
    "midnight" := Midnight, "ocean" := Ocean, "sunset" := Sunset,
    "forest" := Forest, "lavender" := Lavender, "minimal" := Minimal]

  /** `themeList = Object.values(themes)`, in declaration order. */
  const ThemeList: seq<ThemeConfig> := [Midnight, Ocean, Sunset, Forest, Lavender, Minimal]

  lemma ThemesKeys()
    ensures Themes.Keys == {"midnight", "ocean", "sunset", "forest", "lavender", "minimal"}
  {
  }

  lemma ThemesById(k: string)
    requires k in Themes
    ensures Themes[k].id == k && Themes[k] in ThemeList
  {
    ThemesKeys();
  }

  /** The presets of the list have pairwise different ids. */
  lemma ThemeListDistinct()
    ensures |ThemeList| == 6
    ensures forall i, j :: 0 <= i < j < |ThemeList| ==> ThemeList[i].id != ThemeList[j].id
  {
    assert ThemeList[0].id[0] == 'm' && ThemeList[1].id[0] == 'o' && ThemeList[2].id[0] == 's';
    assert ThemeList[3].id[0] == 'f' && ThemeList[4].id[0] == 'l' && ThemeList[5].id[..2] == "mi";
    assert ThemeList[0].id[..2] == "mi" && |ThemeList[0].id| != |ThemeList[5].id|;
  }

  /** The list holds exactly the stored presets. */
  lemma ThemeListIsValues()
    ensures forall t :: t in ThemeList <==> t in Themes.Values
  {
    forall t | t in Themes.Values ensures t in ThemeList {
      var k :| k in Themes && Themes[k] == t;
      ThemesById(k);
    }
    forall t | t in ThemeList ensures t in Themes.Values {
      assert Themes[t.id] == t;
    }
  }

  /** There are six presets, each stored under its own id, and the list
      holds exactly those six, once each. */
  lemma PresetsWellFormed()
    ensures |Themes| == 6 && |ThemeList| == 6
    ensures forall k :: k in Themes ==> Themes[k].id == k
    ensures forall t :: t in ThemeList <==> t in Themes.Values
    ensures forall i, j :: 0 <= i < j < |ThemeList| ==> ThemeList[i].id != ThemeList[j].id
  {
    ThemesKeys();
    forall k | k in Themes ensures Themes[k].id == k {
      ThemesById(k);
    }
    ThemeListIsValues();
    ThemeListDistinct();
  }

  /** `getTheme(preset)`: the preset of that id when there is one, and the
      `minimal` preset otherwise. */
  function GetTheme(preset: string): (t: ThemeConfig)
    ensures t in ThemeList
    ensures t.id == preset || (t == Minimal && forall p :: p in ThemeList ==> p.id != preset)
  {
    if preset in Themes then Themes[preset] else Minimal
  }

  /** `getThemeCSSVariables(theme)`. */
  function CssVariables(theme: ThemeConfig): (vars: map<string, string>)
    ensures vars.Keys == {"--theme-primary", "--theme-background", "--theme-text", "--theme-accent", "--theme-font"}
  {
    map[
      "--theme-primary" := theme.primaryColor,
      "--theme-background" := theme.backgroundColor,
      "--theme-text" := theme.textColor,
      "--theme-accent" := theme.accentColor,
      "--theme-font" := theme.fontFamily]
  }

  /** The five variables carry the five style fields one-to-one: two themes
      get the same variables exactly when their style fields agree. */
  lemma CssVariablesOneToOne(a: ThemeConfig, b: ThemeConfig)
    ensures CssVariables(a) == CssVariables(b) <==>
      a.(id := b.id, name := b.name) == b
  {
    if CssVariables(a) == CssVariables(b) {
      assert CssVariables(a)["--theme-primary"] == CssVariables(b)["--theme-primary"];
      assert CssVariables(a)["--theme-background"] == CssVariables(b)["--theme-background"];
      assert CssVariables(a)["--theme-text"] == CssVariables(b)["--theme-text"];
      assert CssVariables(a)["--theme-accent"] == CssVariables(b)["--theme-accent"];
      assert CssVariables(a)["--theme-font"] == CssVariables(b)["--theme-font"];
    }
  }
}
