/** The persisted settings record and its built-in default. */
module Config {

  /** One past the largest value an unsigned 64-bit integer holds. */
  const U64Limit: int := 0x1_0000_0000_0000_0000

  type U64 = n: int | 0 <= n < U64Limit

  /**
   * The settings read at every poll: the "HH:MM" text at which light mode and
   * dark mode begin, and how many seconds to sleep between polls.
   */
  datatype Settings = Settings(scheduleLightMode: string, scheduleDarkMode: string, cycleRate: U64)

  /** The settings written on first run: light from 07:00, dark from 19:00, a poll every ten minutes. */
  function DefaultSettings(): (s: Settings)
    ensures s.scheduleLightMode == "07:00"
    ensures s.scheduleDarkMode == "19:00"
    ensures s.cycleRate == 600
  {
    Settings("07:00", "19:00", 600)
  }
}
