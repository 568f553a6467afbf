# gnome-auto-dark: the schedule classifier in Dafny

gnome-auto-dark is a small agent that switches the GNOME desktop between a light
and a dark appearance on a daily schedule. Its settings hold the time at which light
mode begins, the time at which dark mode begins (both as "HH:MM" text) and a
polling interval in seconds. On every poll it reads the current time. Then
`determine_theme` decides which of two fixed appearance pairs applies: a
colour-scheme preference plus a GTK theme name. The agent hands that pair to
`gsettings` and sleeps.

This project models that decision and the settings record it depends on:

- `Clock` (clock.dfy): times of day as hour/minute/second triples (`TimeOfDay`).
  It defines their strict order `Before`, which is the order the source's `<` uses,
  and the seconds since midnight. It also defines forward walks around the clock
  face that wrap past midnight (`Offset`, `OnOpenArc`, `OnClosedArc`). These walks
  are an independent reference for the classifier.
- `Schedule` (schedule.dfy): `IsLight`, the boolean condition of `determine_theme`.
  Lemmas cover each ordering of the two start times, the boundary instants, equal
  start times, and swapped start times.
- `Daylight` (daylight.dfy): how many of the 86400 whole-second instants of a day
  the classifier puts in light mode. Each instant is counted with the classifier
  and compared with the length of the clock arc between the two start times.
- `Theme` (theme.dfy): the two fixed pairs, the resolver from the decided mode
  to a pair, `DetermineTheme`, and the scenarios of the source's unit tests.
- `Config` (config.dfy): the `Settings` record and its default.
- `Poll` (poll.dfy): one iteration of the polling loop as a pure function. The
  current time and the "HH:MM" parser are parameters.
- `Wrappers` (wrappers.dfy): `Option` and `Result`.

The behaviour kept from the source includes its asymmetries. Suppose light mode
begins before dark mode in the day. Then both start instants give dark mode,
because the comparisons are strict. If dark mode begins first, both start instants
give light mode. If the two start times are equal, the result is dark mode all
day.

## Model

| member | source | states |
|---|---|---|
| Clock.Before | src/main.rs:58-59 | the `<` the condition compares times with: hours first, then minutes, then seconds; it is irreflexive, so a time never precedes itself (asymmetry and totality are `Clock.BeforeTotal`) |
| Schedule.IsLight | src/main.rs:58-59 | the two-disjunct condition of determine_theme, with the same strict comparisons in the same order; light mode is only ever decided for two distinct start times |
| Clock.BeforeIffEarlierSecond | src/main.rs:58-59 | comparing two times with `<` is the same as comparing how many seconds after midnight each falls |
| Clock.BeforeTotal | src/main.rs:58-59 | of two distinct times exactly one is earlier, and equal times are neither earlier nor later, so the three cases of the condition cover every pair of start times |
| Schedule.IsLightOnClock | src/main.rs:58-63 | light mode holds exactly on the open forward walk from the light start to the dark start when light begins first, exactly on the closed forward walk from the light start past midnight to the dark start when dark begins first, and never when the starts are equal |
| Schedule.LightStartsFirst | src/main.rs:58 | when light begins first, light mode holds if and only if the current time is strictly after the light start and strictly before the dark start |
| Schedule.DarkStartsFirst | src/main.rs:59 | when dark begins first, dark mode holds if and only if the current time is strictly after the dark start and strictly before the light start |
| Schedule.IsLightBySeconds | src/main.rs:58-59 | the decision depends only on the seconds after midnight of the three times: light when light begins first and the current time lies strictly between the starts, or when dark begins first and it does not lie strictly between the dark start and the light start |
| Daylight.CountLight | src/main.rs:58-63 | the number of light-mode instants among the first n whole-second instants of the day, counted one classifier call per instant, equals the count read off the two start times |
| Daylight.LightInstantsPerDay | src/main.rs:58-63 | of the 86400 whole-second instants of a day, the number classified light is the length in seconds of the clock arc from the light start to the dark start minus one when light begins first, plus one when dark begins first, and zero when the starts are equal |
| Daylight.DefaultLightInstants | src/main.rs:26-27 | with light from 07:00 and dark from 19:00, 43199 of the whole-second instants of a day are classified light |
| Schedule.BoundaryInstants | src/main.rs:58-59 | at either start instant the result is dark when light begins first and light when dark begins first |
| Schedule.SameStartAlwaysDark | src/main.rs:58-63 | equal start times give dark mode at every time of day |
| Schedule.SwappedStartsInvert | src/main.rs:58-59 | exchanging two distinct start times turns light mode into dark mode and back at every time of day |
| Theme.Resolve | src/main.rs:55-62 | the resolved pair is always one of the two fixed pairs, and it is the light pair exactly when light mode was decided |
| Theme.ResolveRoundTrip | src/main.rs:55-56 | the decided mode can be read back from the colour-scheme preference of the resolved pair |
| Theme.DetermineTheme | src/main.rs:54-64 | the result is one of the two fixed pairs and nothing else; it is the light pair exactly when the classifier says light mode, and its colour-scheme preference announces that mode |
| Theme.ThemeWhenLightStartsFirst | src/main.rs:58-62 | when light begins first, the light pair is returned strictly between the two starts, measured in seconds, and the dark pair at every other time |
| Theme.ThemeWhenDarkStartsFirst | src/main.rs:59-62 | when dark begins first, the dark pair is returned strictly between the dark start and the light start, and the light pair at every other time, past midnight included |
| Theme.ThemeAtBoundaries | src/main.rs:58-62 | at a start instant the pair is the dark one if light begins first and the light one if dark begins first |
| Theme.ThemeWithSameStart | src/main.rs:58-63 | equal start times give the dark pair at every time of day |
| Theme.LightFirstScenarios | src/main.rs:123-154 | with light at 07:00 and dark at 19:00, noon gives the light pair and 20:00 the dark pair; with dark at 23:00, both 23:59:59 and midnight give the dark pair |
| Theme.DarkFirstScenarios | src/main.rs:156-187 | with light at 19:00 and dark at 07:00, 06:00, 23:59:59 and midnight give the light pair and 18:00 the dark pair |
| Config.DefaultSettings | src/main.rs:23-31 | the default settings begin light mode at "07:00" and dark mode at "19:00" and poll every 600 seconds |
| Poll.PollOnce | src/main.rs:39-48 | an iteration succeeds exactly when both schedule entries parse, and reports the light entry first when it does not; on success it sleeps for the configured interval and applies the light pair when the classifier says light mode for the parsed times and the dark pair otherwise |
| Poll.DefaultSchedule | src/main.rs:24-47 | under the default settings every iteration applies the light pair strictly between 07:00 and 19:00 and the dark pair otherwise, then sleeps 600 seconds |

## Left out

- The endless polling loop, `sleep` and reading the wall clock (src/main.rs:33-52): these are process effects. `Poll.PollOnce` takes the current time as a parameter and models one iteration.
- Poll.PollOnce: parsing "HH:MM" with chrono's `NaiveTime::parse_from_str` (src/main.rs:44-45) is a foreign library call. chrono's parser is outside this model, and its acceptance rules are not restated here. The parser is therefore a parameter, and its failure is an error result instead of the source's panic.
- Sub-second precision of chrono's `NaiveTime` and its leap-second representation: times here, the current time included, are whole seconds. The order is exact on whole-second times. The wall-clock time read at src/main.rs:41 has nanosecond precision, however. When light begins first, the program already gives light mode within the second after the light start (07:00:00.5 under the defaults), where the model gives dark. When dark begins first, the program already gives dark mode within the second after the dark start, where the model gives light. After the other start both agree. The model treats the whole second after a start as the start instant itself. So the program's light mode lasts exactly the clock arc from the light start to the dark start (43200 seconds under the defaults), while `Daylight.LightInstantsPerDay` counts whole-second instants only.
- `bootstrap_settings`, `read_settings` and `write_settings` (src/main.rs:66-74, 94-112): file-system access, home-directory expansion and YAML serialisation through foreign libraries.
- `set_gnome_theme` (src/main.rs:76-92): it runs the external `gsettings` command twice. `Theme.ThemePair` is what it would be given.
- The diagnostic printing of the current time, the chosen pair and the config path.
