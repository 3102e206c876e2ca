/**
 Theme constants and the body-class rewrite of lib/theme-config.ts. The class list of the
 document body is a set of class names; `applyThemeToBody` becomes a function from the
 classes before the call to the classes after it.
 */
module ThemeConfig {
  import opened Text

  /** The cookie the active theme is stored under. */
  const ThemeCookieName: string := "active_theme"

  /** The theme used when none has been chosen. */
  const DefaultTheme: string := "default"

  const ThemePrefix: string := "theme-"
  const ScaledSuffix: string := "-scaled"
  const ScaledClass: string := "theme-scaled"

  /** The class that selects a theme. */
  function ThemeClass(theme: string): (c: string)
    ensures StartsWith(c, ThemePrefix)
    ensures c[|ThemePrefix|..] == theme
  {
    StartsWithConcat(ThemePrefix, theme);
    ThemePrefix + theme
  }

  /** A class that belongs to the theme machinery. */
  predicate IsThemeClass(c: string)
  {
    StartsWith(c, ThemePrefix)
  }

  /** The characters the DOM treats as ASCII whitespace; a class token may not contain one. */
  predicate IsAsciiWhitespace(c: char)
  {
    c == ' ' || c == '\t' || c == '\n' || c == '\r' || c == '\U{C}'
  }

  predicate HasAsciiWhitespace(s: string)
  {
    exists i | 0 <= i < |s| :: IsAsciiWhitespace(s[i])
  }

  /** The body's classes after the call, and whether `classList.add` threw. */
  datatype BodyUpdate = BodyUpdate(classes: set<string>, threw: bool)

  /** `applyThemeToBody`: drops every theme class, adds the class of `theme`, and adds the
      scaled marker class when the theme is a scaled variant. Adding a class token that
      contains whitespace throws; the theme classes are already gone by then, and the
      scaled test is never reached. */
  function ApplyThemeToBody(classes: set<string>, theme: string): (r: BodyUpdate)
    ensures r.threw <==> HasAsciiWhitespace(theme)
    ensures forall c | !IsThemeClass(c) :: c in r.classes <==> c in classes
    ensures !r.threw ==> ThemeClass(theme) in r.classes
    ensures !r.threw && EndsWith(theme, ScaledSuffix) ==> ScaledClass in r.classes
    ensures forall c | c in r.classes && IsThemeClass(c) ::
      !r.threw && (c == ThemeClass(theme) || (EndsWith(theme, ScaledSuffix) && c == ScaledClass))
  {
    var kept := set c | c in classes && !IsThemeClass(c);
    if HasAsciiWhitespace(theme) then BodyUpdate(kept, true)
    else
      var added := kept + {ThemeClass(theme)};
      BodyUpdate(added + (if EndsWith(theme, ScaledSuffix) then {ScaledClass} else {}), false)
  }

  /** A theme that is not a scaled variant leaves exactly one theme class, or none when
      its class could not be added. */
  lemma SingleThemeClass(classes: set<string>, theme: string)
    requires !EndsWith(theme, ScaledSuffix)
    ensures (set c | c in ApplyThemeToBody(classes, theme).classes && IsThemeClass(c))
      == if HasAsciiWhitespace(theme) then {} else {ThemeClass(theme)}
  {
  }

  /** The result does not depend on which theme classes were present before. */
  lemma ThemeClassesForgotten(a: set<string>, b: set<string>, theme: string)
    requires forall c | !IsThemeClass(c) :: c in a <==> c in b
    ensures ApplyThemeToBody(a, theme) == ApplyThemeToBody(b, theme)
  {
  }

  /** Applying the same theme twice gives the classes of applying it once. */
  lemma ApplyIdempotent(classes: set<string>, theme: string)
    ensures ApplyThemeToBody(ApplyThemeToBody(classes, theme).classes, theme) == ApplyThemeToBody(classes, theme)
  {
  }
}
