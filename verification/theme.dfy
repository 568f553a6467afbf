/**
 * The theme resolver: the two fixed GNOME appearance settings (a colour-scheme
 * preference and a GTK theme name) and the choice between them for a given time.
 */
module Theme {
  import opened Wrappers
  import opened Clock
  import opened Schedule

  /** What is handed to the desktop: a colour-scheme preference and a GTK theme name. */
  datatype ThemePair = ThemePair(colorScheme: string, gtkTheme: string)

  const LightTheme := ThemePair("prefer-light", "Flat-Remix-GTK-Blue-Light-Solid")
  const DarkTheme := ThemePair("prefer-dark", "Flat-Remix-GTK-Blue-Dark-Solid")

  /** The pair for a decided mode: always one of the two fixed pairs, the light one exactly for light mode. */
  function Resolve(isLight: bool): (r: ThemePair)
    ensures r == LightTheme || r == DarkTheme
    ensures r == LightTheme <==> isLight
  {
    if isLight then LightTheme else DarkTheme
  }

  /** The mode a pair announces through its colour-scheme preference, if it announces one. */
  function ModeOf(p: ThemePair): Option<bool> {
    if p.colorScheme == "prefer-light" then Some(true)
    else if p.colorScheme == "prefer-dark" then Some(false)
    else None
  }

  /** The desktop can read the decided mode back from the colour-scheme preference of the resolved pair. */
  lemma ResolveRoundTrip(isLight: bool)
    ensures ModeOf(Resolve(isLight)) == Some(isLight)
  {
  }

  /**
   * The pair to apply at `current` for the given light-mode and dark-mode start
   * times. The result is one of the two fixed pairs and never anything else.
   */
  function DetermineTheme(current: TimeOfDay, light: TimeOfDay, dark: TimeOfDay): (r: ThemePair)
    ensures r == LightTheme || r == DarkTheme
    ensures r == LightTheme <==> IsLight(current, light, dark)
    ensures ModeOf(r) == Some(IsLight(current, light, dark))
  {
    Resolve(IsLight(current, light, dark))
  }

  /** Light mode begins first: the light pair exactly strictly between the starts, the dark pair everywhere else. */
  lemma ThemeWhenLightStartsFirst(current: TimeOfDay, light: TimeOfDay, dark: TimeOfDay)
    requires Before(light, dark)
    ensures DetermineTheme(current, light, dark) ==
              if SecondsOf(light) < SecondsOf(current) < SecondsOf(dark) then LightTheme else DarkTheme
  {
    LightStartsFirst(current, light, dark);
  }

  /** Dark mode begins first: the dark pair exactly strictly between the starts, the light pair everywhere else. */
  lemma ThemeWhenDarkStartsFirst(current: TimeOfDay, light: TimeOfDay, dark: TimeOfDay)
    requires Before(dark, light)
    ensures DetermineTheme(current, light, dark) ==
              if SecondsOf(dark) < SecondsOf(current) < SecondsOf(light) then DarkTheme else LightTheme
  {
    DarkStartsFirst(current, light, dark);
  }

  /** At either start instant the result is the dark pair if light mode begins first, the light pair if dark mode does. */
  lemma ThemeAtBoundaries(current: TimeOfDay, light: TimeOfDay, dark: TimeOfDay)
    requires current == light || current == dark
    ensures Before(light, dark) ==> DetermineTheme(current, light, dark) == DarkTheme
    ensures Before(dark, light) ==> DetermineTheme(current, light, dark) == LightTheme
  {
    BoundaryInstants(current, light, dark);
  }

  /** Equal start times give the dark pair at every time of day. */
  lemma ThemeWithSameStart(current: TimeOfDay, start: TimeOfDay)
    ensures DetermineTheme(current, start, start) == DarkTheme
  {
    SameStartAlwaysDark(current, start);
  }

  /** The unit-test scenarios for a schedule whose light mode begins first. */
  lemma LightFirstScenarios()
    ensures DetermineTheme(Time(12, 0, 0), Time(7, 0, 0), Time(19, 0, 0)) == LightTheme
    ensures DetermineTheme(Time(20, 0, 0), Time(7, 0, 0), Time(19, 0, 0)) == DarkTheme
    ensures DetermineTheme(Time(23, 59, 59), Time(7, 0, 0), Time(23, 0, 0)) == DarkTheme
    ensures DetermineTheme(Time(0, 0, 0), Time(7, 0, 0), Time(23, 0, 0)) == DarkTheme
  {
  }

  /** The unit-test scenarios for a schedule whose dark mode begins first, light mode wrapping past midnight. */
  lemma DarkFirstScenarios()
    ensures DetermineTheme(Time(6, 0, 0), Time(19, 0, 0), Time(7, 0, 0)) == LightTheme
    ensures DetermineTheme(Time(18, 0, 0), Time(19, 0, 0), Time(7, 0, 0)) == DarkTheme
    ensures DetermineTheme(Time(23, 59, 59), Time(19, 0, 0), Time(7, 0, 0)) == LightTheme
    ensures DetermineTheme(Time(0, 0, 0), Time(19, 0, 0), Time(7, 0, 0)) == LightTheme
  {
  }
}
