/**
 * One iteration of the agent's polling loop with its effects taken out: the
 * current time and the "HH:MM" parser are supplied by the caller, and the result
 * is the pair to apply and the pause before the next iteration.
 */
module Poll {
  import opened Wrappers
  import opened Clock
  import opened Schedule
  import opened Theme
  import opened Config

  /** Which schedule entry could not be read as a time of day; the agent stops on either. */
  datatype PollError = LightScheduleUnreadable | DarkScheduleUnreadable

  /** What one iteration decides: the pair to apply, then how long to sleep. */
  datatype Step = Step(theme: ThemePair, sleepSeconds: U64)

  /**
   * Reads both schedule entries with `parse` (the light entry first) and picks
   * the pair for `now`. Fails on the first entry that does not parse.
   */
  function PollOnce(settings: Settings, now: TimeOfDay, parse: string -> Option<TimeOfDay>): (r: Result<Step, PollError>)
    ensures r.Ok? <==> parse(settings.scheduleLightMode).Some? && parse(settings.scheduleDarkMode).Some?
    ensures r == Err(LightScheduleUnreadable) <==> parse(settings.scheduleLightMode).None?
    ensures r.Ok? ==> r.value.sleepSeconds == settings.cycleRate
    ensures r.Ok? ==>
              r.value.theme ==
                if IsLight(now, parse(settings.scheduleLightMode).value, parse(settings.scheduleDarkMode).value)
                then LightTheme else DarkTheme
  {
    match parse(settings.scheduleLightMode)
    case None => Err(LightScheduleUnreadable)
    case Some(light) =>
      match parse(settings.scheduleDarkMode)
      case None => Err(DarkScheduleUnreadable)
      case Some(dark) => Ok(Step(DetermineTheme(now, light, dark), settings.cycleRate))
  }

  /**
   * With the default settings and a parser that reads "07:00" and "19:00" as those
   * times, every iteration applies the light pair strictly between 07:00 and 19:00,
   * the dark pair otherwise, and then sleeps ten minutes.
   */
  lemma DefaultSchedule(now: TimeOfDay, parse: string -> Option<TimeOfDay>)
    requires parse("07:00") == Some(Time(7, 0, 0))
    requires parse("19:00") == Some(Time(19, 0, 0))
    ensures PollOnce(DefaultSettings(), now, parse) ==
              Ok(Step(if 7 * 3600 < SecondsOf(now) < 19 * 3600 then LightTheme else DarkTheme, 600))
  {
    ThemeWhenLightStartsFirst(now, Time(7, 0, 0), Time(19, 0, 0));
  }
}
