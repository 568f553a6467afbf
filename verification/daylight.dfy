/**
 * How many of the 86400 whole-second instants of a day the classifier puts in
 * light mode, counted one instant at a time and compared with the length of the
 * clock arc between the two starts. A current time with sub-second precision is
 * not covered. When light begins first, a time strictly inside the second after the
 * light start is already light; when dark begins first, a time strictly inside the
 * second after the dark start is already dark. So over continuous time light mode
 * lasts exactly the arc length in both orderings.
 */
module Daylight {
  import opened Clock
  import opened Schedule

  /**
   * Among the first `n` whole-second instants of the day, how many fall in light mode, computed
   * from the start times alone. If light begins first, those are the seconds strictly
   * between the starts. If dark begins first, those are the seconds up to and
   * including the dark start, plus those from the light start on.
   */
  function LightSecondsBelow(light: TimeOfDay, dark: TimeOfDay, n: nat): nat {
    var l := SecondsOf(light);
    var d := SecondsOf(dark);
    if l < d then
      (if n <= l + 1 then 0 else if n <= d then n - (l + 1) else d - (l + 1))
    else if d < l then
      (if n <= d then n else d + 1) + (if n <= l then 0 else n - l)
    else 0
  }

  /** Light-mode instants among the first `n` whole-second instants of the day, asking the classifier about each one. */
  function CountLight(light: TimeOfDay, dark: TimeOfDay, n: nat): (r: nat)
    requires n <= SecondsPerDay
    ensures r == LightSecondsBelow(light, dark, n)
    ensures r <= n
  {
    if n == 0 then 0
    else
      IsLightBySeconds(FromSeconds(n - 1), light, dark);
      CountLight(light, dark, n - 1) + (if IsLight(FromSeconds(n - 1), light, dark) then 1 else 0)
  }

  /**
   * Of the 86400 whole-second instants of a day, the number classified light: one
   * less than the clock arc from the light start to the dark start when light begins
   * first (both start instants are dark), one more when dark begins first (both start
   * instants are light), and none when the starts are equal.
   */
  function LightInstantsPerDay(light: TimeOfDay, dark: TimeOfDay): (r: nat)
    ensures Before(light, dark) ==> r == Offset(light, dark) - 1
    ensures Before(dark, light) ==> r == Offset(light, dark) + 1
    ensures light == dark ==> r == 0
  {
    BeforeIffEarlierSecond(light, dark);
    BeforeIffEarlierSecond(dark, light);
    CountLight(light, dark, SecondsPerDay)
  }

  /** Under the default schedule (light from 07:00, dark from 19:00), 43199 whole-second instants are classified light. */
  lemma DefaultLightInstants()
    ensures LightInstantsPerDay(Time(7, 0, 0), Time(19, 0, 0)) == 12 * 3600 - 1
  {
  }
}
