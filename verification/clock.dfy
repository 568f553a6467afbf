/**
 * Times of day with second resolution, the strict order the scheduler compares
 * them with, and forward walks around the clock face that wrap past midnight.
 */
module Clock {

  /** Seconds in one day: every time of day is strictly below this many seconds past midnight. */
  const SecondsPerDay: nat := 86400

  /** An hour/minute/second triple, the shape the scheduler's times are built from. */
  datatype Time = Time(hour: nat, minute: nat, second: nat) {
    predicate Valid() {
      hour < 24 && minute < 60 && second < 60
    }
  }

  /** A time that actually occurs on the clock (00:00:00 up to 23:59:59). */
  type TimeOfDay = t: Time | t.Valid() witness Time(0, 0, 0)

  /** `a` is strictly earlier in the day than `b`: the order compares hours, then minutes, then seconds. */
  predicate Before(a: Time, b: Time)
    ensures Before(a, b) ==> a != b
  {
    || a.hour < b.hour
    || (a.hour == b.hour && a.minute < b.minute)
    || (a.hour == b.hour && a.minute == b.minute && a.second < b.second)
  }

  /** Seconds elapsed since midnight. */
  function SecondsOf(t: TimeOfDay): (n: nat)
    ensures n < SecondsPerDay
  {
    t.hour * 3600 + t.minute * 60 + t.second
  }

  /** The time of day that lies `n` seconds after midnight. */
  function FromSeconds(n: nat): (t: TimeOfDay)
    requires n < SecondsPerDay
    ensures SecondsOf(t) == n
  {
    Time(n / 3600, (n % 3600) / 60, n % 60)
  }

  /** Converting to seconds and back loses nothing. */
  lemma FromSecondsOfSeconds(t: TimeOfDay)
    ensures FromSeconds(SecondsOf(t)) == t
  {
    var n := SecondsOf(t);
    var rest := t.minute * 60 + t.second;
    assert rest < 3600;
    assert n == t.hour * 3600 + rest;
    assert n / 3600 == t.hour;
    assert n % 3600 == rest;
    assert rest / 60 == t.minute;
    assert n % 60 == t.second;
  }

  /** Two times of day a second count cannot tell apart are the same time. */
  lemma SecondsOfInjective(a: TimeOfDay, b: TimeOfDay)
    ensures SecondsOf(a) == SecondsOf(b) ==> a == b
  {
    FromSecondsOfSeconds(a);
    FromSecondsOfSeconds(b);
  }

  /** The scheduler's order on times agrees with the order of their second counts. */
  lemma BeforeIffEarlierSecond(a: TimeOfDay, b: TimeOfDay)
    ensures Before(a, b) <==> SecondsOf(a) < SecondsOf(b)
  {
    // An earlier hour wins because minutes and seconds together stay below 3600;
    // with equal hours, an earlier minute wins because seconds stay below 60.
  }

  /** Of two distinct times of day, exactly one comes first. */
  lemma BeforeTotal(a: TimeOfDay, b: TimeOfDay)
    ensures a != b <==> (Before(a, b) || Before(b, a))
    ensures !(Before(a, b) && Before(b, a))
  {
    BeforeIffEarlierSecond(a, b);
    BeforeIffEarlierSecond(b, a);
    SecondsOfInjective(a, b);
  }

  /** Seconds needed to walk forward on the clock from `from` until it shows `to`, wrapping past midnight. */
  function Offset(from: TimeOfDay, to: TimeOfDay): (r: nat)
    ensures r < SecondsPerDay
    ensures (SecondsOf(from) + r) % SecondsPerDay == SecondsOf(to)
    ensures r == 0 <==> from == to
  {
    SecondsOfInjective(from, to);
    if SecondsOf(from) <= SecondsOf(to) then SecondsOf(to) - SecondsOf(from)
    else SecondsPerDay - SecondsOf(from) + SecondsOf(to)
  }

  /** Walking forward from `from` to `to`, the clock shows `t` strictly after leaving and strictly before arriving. */
  predicate OnOpenArc(from: TimeOfDay, to: TimeOfDay, t: TimeOfDay) {
    0 < Offset(from, t) < Offset(from, to)
  }

  /** Walking forward from `from` to `to`, the clock shows `t` at some point, the two ends included. */
  predicate OnClosedArc(from: TimeOfDay, to: TimeOfDay, t: TimeOfDay) {
    Offset(from, t) <= Offset(from, to)
  }

  /** An open arc that does not pass midnight holds exactly the times strictly between its ends. */
  lemma OpenArcWithoutMidnight(from: TimeOfDay, to: TimeOfDay, t: TimeOfDay)
    requires Before(from, to)
    ensures OnOpenArc(from, to, t) <==> Before(from, t) && Before(t, to)
  {
    BeforeIffEarlierSecond(from, to);
    BeforeIffEarlierSecond(from, t);
    BeforeIffEarlierSecond(t, to);
  }

  /**
   * For distinct ends, the forward walk from `from` to `to` (ends included) and the
   * forward walk back from `to` to `from` (ends excluded) split the clock face between them.
   */
  lemma ArcsPartitionClock(from: TimeOfDay, to: TimeOfDay, t: TimeOfDay)
    requires from != to
    ensures OnClosedArc(from, to, t) <==> !OnOpenArc(to, from, t)
  {
    SecondsOfInjective(from, to);
    SecondsOfInjective(from, t);
    SecondsOfInjective(to, t);
  }
}
