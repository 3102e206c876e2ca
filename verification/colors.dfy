/** The theme colour table of lib/colors.ts and its lookup by name. */
module Colors {
  import opened Wrappers

  /** The primary colour of a theme in light and in dark mode. */
  datatype ActiveColor = ActiveColor(light: string, dark: string)

  datatype ThemeColor = ThemeColor(name: string, displayName: string, activeColor: ActiveColor)

  /** The available theme colours, in declaration order. */
  const BaseColors: seq<ThemeColor> := [
    ThemeColor("retro-arcade", "Retro Arcade",
      ActiveColor("oklch(0.59 0.2 355.89)", "oklch(0.59 0.2 355.89)")),
    ThemeColor("kodama-grove", "Kodama Grove",
      ActiveColor("oklch(0.67 0.11 118.91)", "oklch(0.68 0.06 132.45)")),
    ThemeColor("claude", "Claude",
      ActiveColor("oklch(0.56 0.13 43.00)", "oklch(0.56 0.13 43.00)")),
    ThemeColor("claymorphism", "Claymorphism",
      ActiveColor("oklch(0.59 0.2 277.12)", "oklch(0.68 0.16 276.93)")),
    ThemeColor("vintage-paper", "Vintage Paper",
      ActiveColor("oklch(0.62 0.08 65.54)", "oklch(0.73 0.06 66.7)"))
  ]

  /** `table[i]` is the first entry named `name`. */
  ghost predicate FirstNamed(table: seq<ThemeColor>, name: string, i: int)
  {
    0 <= i < |table| && table[i].name == name &&
    forall j | 0 <= j < i :: table[j].name != name
  }

  /** `Array.prototype.find` with a name test: the first entry carrying `name`, if any. */
  function FindByName(table: seq<ThemeColor>, name: string): (r: Option<ThemeColor>)
    ensures r.None? <==> forall c | c in table :: c.name != name
    ensures r.Some? ==> exists i :: FirstNamed(table, name, i) && table[i] == r.value
    decreases |table|
  {
    if |table| == 0 then None
    else if table[0].name == name then
      assert FirstNamed(table, name, 0);
      Some(table[0])
    else
      var r := FindByName(table[1..], name);
      assert forall c | c in table :: c == table[0] || c in table[1..];
      assert forall i | FirstNamed(table[1..], name, i) :: FirstNamed(table, name, i + 1);
      r
  }

  /** `getColorByName`. */
  function GetColorByName(name: string): (r: Option<ThemeColor>)
    ensures r.Some? ==> r.value.name == name && r.value in BaseColors
    ensures r.None? <==> forall c | c in BaseColors :: c.name != name
    ensures r.Some? ==> exists i :: FirstNamed(BaseColors, name, i) && BaseColors[i] == r.value
  {
    FindByName(BaseColors, name)
  }

  /** No two entries of the table share a name, so the first match is the only one. */
  lemma NamesDistinct()
    ensures forall i, j | 0 <= i < j < |BaseColors| :: BaseColors[i].name != BaseColors[j].name
  {
  }

  /** Each of the five theme colours is found under its own name. */
  lemma EveryColorFound()
    ensures forall i | 0 <= i < |BaseColors| :: GetColorByName(BaseColors[i].name) == Some(BaseColors[i])
  {
    NamesDistinct();
    forall i | 0 <= i < |BaseColors|
      ensures GetColorByName(BaseColors[i].name) == Some(BaseColors[i])
    {
      var r := GetColorByName(BaseColors[i].name);
      var k :| FirstNamed(BaseColors, BaseColors[i].name, k) && BaseColors[k] == r.value;
    }
  }
}
