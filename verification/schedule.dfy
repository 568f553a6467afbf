/**
 * The schedule classifier: given the current time and the times at which light
 * mode and dark mode begin, decide whether light mode is active.
 */
module Schedule {
  import opened Clock

  /**
   * Light mode is active when light mode begins before dark mode and the current
   * time lies strictly between them, or when dark mode begins first and the
   * current time does not lie strictly between the dark start and the light start.
   */
  predicate IsLight(current: TimeOfDay, light: TimeOfDay, dark: TimeOfDay)
    ensures IsLight(current, light, dark) ==> light != dark
  {
    || (Before(light, dark) && Before(light, current) && Before(current, dark))
    || (Before(dark, light) && !(Before(dark, current) && Before(current, light)))
  }

  /**
   * The classifier read on the clock face. If light mode begins first, light mode
   * holds exactly on the open forward walk from the light start to the dark start.
   * If dark mode begins first, light mode holds exactly on the closed forward walk
   * from the light start round past midnight to the dark start. Equal starts never
   * give light mode.
   */
  lemma IsLightOnClock(current: TimeOfDay, light: TimeOfDay, dark: TimeOfDay)
    ensures IsLight(current, light, dark) <==>
              || (Before(light, dark) && OnOpenArc(light, dark, current))
              || (Before(dark, light) && OnClosedArc(light, dark, current))
  {
    BeforeTotal(light, dark);
    if Before(light, dark) {
      OpenArcWithoutMidnight(light, dark, current);
    } else if Before(dark, light) {
      OpenArcWithoutMidnight(dark, light, current);
      ArcsPartitionClock(light, dark, current);
    }
  }

  /** Light mode begins first: light mode holds exactly strictly between the two starts, counted in seconds. */
  lemma LightStartsFirst(current: TimeOfDay, light: TimeOfDay, dark: TimeOfDay)
    requires Before(light, dark)
    ensures IsLight(current, light, dark) <==>
              SecondsOf(light) < SecondsOf(current) < SecondsOf(dark)
  {
    BeforeIffEarlierSecond(light, current);
    BeforeIffEarlierSecond(current, dark);
  }

  /** Dark mode begins first: dark mode holds exactly strictly between the two starts, counted in seconds. */
  lemma DarkStartsFirst(current: TimeOfDay, light: TimeOfDay, dark: TimeOfDay)
    requires Before(dark, light)
    ensures !IsLight(current, light, dark) <==>
              SecondsOf(dark) < SecondsOf(current) < SecondsOf(light)
  {
    BeforeTotal(light, dark);
    BeforeIffEarlierSecond(dark, current);
    BeforeIffEarlierSecond(current, light);
  }

  /** The classifier, restated on second counts: it depends only on how many seconds past midnight each time falls. */
  lemma IsLightBySeconds(current: TimeOfDay, light: TimeOfDay, dark: TimeOfDay)
    ensures IsLight(current, light, dark) <==>
              || (SecondsOf(light) < SecondsOf(dark) && SecondsOf(light) < SecondsOf(current) < SecondsOf(dark))
              || (SecondsOf(dark) < SecondsOf(light) && !(SecondsOf(dark) < SecondsOf(current) < SecondsOf(light)))
  {
    BeforeIffEarlierSecond(light, dark);
    BeforeIffEarlierSecond(dark, light);
    BeforeIffEarlierSecond(light, current);
    BeforeIffEarlierSecond(current, dark);
    BeforeIffEarlierSecond(dark, current);
    BeforeIffEarlierSecond(current, light);
  }

  /**
   * At the exact instant of either start, the strict comparisons keep the mode
   * that holds at midnight: dark when light mode begins first, light when dark
   * mode begins first.
   */
  lemma BoundaryInstants(current: TimeOfDay, light: TimeOfDay, dark: TimeOfDay)
    requires current == light || current == dark
    ensures Before(light, dark) ==> !IsLight(current, light, dark)
    ensures Before(dark, light) ==> IsLight(current, light, dark)
  {
    BeforeTotal(light, dark);
    BeforeTotal(current, current);
  }

  /** When both modes are scheduled to begin at the same time, dark mode holds all day. */
  lemma SameStartAlwaysDark(current: TimeOfDay, start: TimeOfDay)
    ensures !IsLight(current, start, start)
  {
    BeforeTotal(start, start);
  }

  /** Exchanging two distinct start times exchanges the modes at every time of day. */
  lemma SwappedStartsInvert(current: TimeOfDay, light: TimeOfDay, dark: TimeOfDay)
    requires light != dark
    ensures IsLight(current, dark, light) <==> !IsLight(current, light, dark)
  {
    BeforeTotal(light, dark);
  }
}
