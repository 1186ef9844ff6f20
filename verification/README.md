# ChronoCanvas countdown timer — Dafny model

This project models the countdown timer of the ChronoCanvas page
(`timer-site/src/app/page.tsx`, component `Home`). The page's timer state is
the session length `duration`, the seconds still to go `remaining`, the
`isRunning` flag, and a newest-first session log of `TimerEvent` records. The
user changes it through seven handlers: start, pause, reset, load a preset, the
custom-minutes number field, the duration slider, and the one-second interval
tick. The page also uses two pure helpers: `formatTime`, which renders seconds
as `MM:SS`, and the `timerStateLabel` classifier.

- `format.dfy` (module `Format`) covers `formatTime`. It writes decimal text
  (`Decimal`), pads it with `PadStart` and joins the fields with `Join`.
  `ParseDecimal` and `ParseClock` are independent readers of that text. They
  are used to state what the rendered clock face means.
- `timer.dfy` (module `Timer`) holds the state record `TimerState` and the
  event record `TimerEvent`. It defines each handler as a pure function from
  the state before to the state after, plus the `Classify` status function.
  `Valid` is the invariant `0 <= remaining <= duration`. Durations are `int`
  rather than `nat`: the slider handler does not clamp, and the model states
  exactly which inputs keep `Valid`.
- `session.dfy` (module `Session`) applies sequences of commands.
  - `Session.Enabled` says which commands the page offers. Start is offered
    only while stopped and Pause only while running, because the two buttons
    take turns (page.tsx:285-301). The interval exists only while running
    (page.tsx:76-80), so a tick when stopped does nothing.
  - `Session.Admissible` says which inputs the page itself can produce: the
    six built-in presets (page.tsx:13-38), and a slider position in 1..90
    (page.tsx:320-321). The number field's value reaches its handler
    unchecked, so every integer is admissible there. Under those inputs every
    reachable state is `Good`: valid, and a whole number of minutes up to 90.
  - It also holds the tick-iteration lemmas and the usage scenarios.
- `Timer.StatusText` gives the accessible label text for each status
  (page.tsx:109-112).

Three behaviours of the page are worth stating on their own:

- The number input declares `min={1}` (page.tsx:332), but
  `handleCustomMinutes` clamps to 0..90 (page.tsx:160). A duration of 0 is
  therefore reachable.
- A running countdown with nothing remaining is reachable: enter 0 minutes,
  then press Start (`Session.RunningAtZeroReachable`). So a running timer can
  have no time left. The next tick then logs a zero-second completed session.
- Reset logs no event. The empty-log placeholder says that reset sessions
  appear in the log (page.tsx:388), but `handleReset` (page.tsx:137-140)
  never writes one.

## Model

| member | source | states |
|---|---|---|
| `Timer.Initial` | timer-site/src/app/page.tsx:71-74 | The first render has duration = remaining = 1500 seconds (25 minutes), is stopped and valid, has an empty log, and is classified Ready with nothing elapsed. |
| `Timer.Classify` | timer-site/src/app/page.tsx:108-113 | Running exactly when the flag is set; otherwise Finished exactly when nothing remains, Ready exactly when time remains and none has elapsed, Paused otherwise. For a valid state, Paused means 0 < remaining < duration. |
| `Timer.Start` | timer-site/src/app/page.tsx:115-120 | Start always leaves the timer running, with duration and log untouched. A countdown with time left resumes where it stopped. A finished one restarts with nothing elapsed. Validity is preserved. |
| `Timer.Pause` | timer-site/src/app/page.tsx:122-135 | Pause stops the timer and leaves duration and remaining as they were. It adds exactly one entry in front of the unchanged older log: "Session paused", not completed, with target = duration. Its elapsed time (page.tsx:105) plus what remains equals the duration, and it lies in 0..target for a valid state. |
| `Timer.Reset` | timer-site/src/app/page.tsx:137-140 | Reset stops the timer with nothing elapsed and leaves duration and log untouched. The state is valid whenever the duration is non-negative. It is classified Ready, or Finished for a zero duration. |
| `Timer.ResetIdempotent` | timer-site/src/app/page.tsx:137-140 | Resetting twice gives the same state as resetting once. |
| `Timer.LoadPreset` | timer-site/src/app/page.tsx:142-157 | Loading a preset stops the timer with duration = remaining = the preset's seconds. It adds exactly one entry, "<name> preset loaded" with elapsed 0, target = seconds and not completed, in front of the unchanged older log. The result is valid exactly for non-negative seconds and is Ready for non-zero ones. |
| `Timer.Resize` | timer-site/src/app/page.tsx:161-167 | A new length replaces the old, and the running flag and log are kept. A stopped session starts over. A running one keeps min(old elapsed, new length) seconds elapsed, and its remaining time never goes negative. From a valid state, the result is valid exactly when the new length is non-negative. |
| `Timer.Clamp` | timer-site/src/app/page.tsx:160 | The clamped value lies in [lo, hi]. It equals the input inside the range and the nearer bound outside it. |
| `Timer.CustomMinutes` | timer-site/src/app/page.tsx:159-168 | The new duration is a whole number of minutes in 0..5400 seconds. It is minutes*60 for minutes in 0..90, 0 below that range and 5400 above it. Running flag and log are unchanged, elapsed time carries over as in `Resize`, and validity is preserved. |
| `Timer.Slider` | timer-site/src/app/page.tsx:170-179 | The new duration is exactly the slider value in minutes, with no clamp. Elapsed time carries over as in `Resize`. From a valid state, the result is valid exactly when the value is non-negative. |
| `Timer.CustomMinutesClampLaw` | timer-site/src/app/page.tsx:159-179 | Any out-of-range minutes value behaves like its clamped value, and the number field is the slider behind the [0, 90] clamp. |
| `Timer.Tick` | timer-site/src/app/page.tsx:82-99 | With more than one second left, a tick removes exactly one second and changes nothing else. Otherwise it finishes the session: remaining 0, stopped, Finished. It adds exactly one entry, "Session completed" with elapsed = target = duration and completed, in front of the unchanged older log. On a valid state a tick with time left removes exactly one second, and validity is preserved. |
| `Timer.StatusTextInjective` | timer-site/src/app/page.tsx:108-113 | The four label texts are distinct, so the label identifies the status. |
| `Format.Decimal` | timer-site/src/app/page.tsx:51-56 | The decimal text of a non-negative integer has at least one character and only digits. It starts with '0' exactly when the number is 0. |
| `Format.DecimalRoundTrip` | timer-site/src/app/page.tsx:51-56 | Reading back the decimal text of n gives n. |
| `Format.PadStart` | timer-site/src/app/page.tsx:51-56 | The padded string has length max(len, width). It ends with the original string and is filled in front with the pad character. |
| `Format.FormatTime` | timer-site/src/app/page.tsx:49-59 | The rendered time has at least 5 characters. It is digits, a colon, and exactly two more digits. |
| `Format.FormatTimeRoundTrip` | timer-site/src/app/page.tsx:49-59 | The minutes field reads as floor(max(t,0)/60) and the seconds field as max(t,0) mod 60, which is in 00..59. Together they read back as max(t,0). |
| `Format.FormatTimeWidth` | timer-site/src/app/page.tsx:49-59 | The output is exactly 5 characters (`MM:SS`) if and only if t <= 5999. |
| `Format.FormatTimeNonPositive` | timer-site/src/app/page.tsx:49-59 | Zero and every negative input render as `00:00`. |
| `Format.FormatTimeInjective` | timer-site/src/app/page.tsx:49-59 | Distinct non-negative second counts render differently. |
| `Session.Step` | timer-site/src/app/page.tsx:76-179 | A command the page does not offer changes nothing (Start while running, Pause or a tick while stopped). Otherwise the log grows by exactly one entry when the command pauses a running timer, loads a preset, or is the tick that finishes a session, and by none otherwise. |
| `Session.StepKeepsOlderLog` | timer-site/src/app/page.tsx:82-157 | Every step keeps the previous log intact as a suffix of the new one. |
| `Session.RunKeepsOlderLog` | timer-site/src/app/page.tsx:82-157 | Over any sequence of commands, older log entries are never dropped or changed. |
| `Session.PresetsInRange` | timer-site/src/app/page.tsx:13-38 | Every built-in preset (quick and ritual) is a whole number of minutes between 1 and 90. |
| `Session.StepPreservesGood` | timer-site/src/app/page.tsx:115-179 | Every command the page can issue keeps 0 <= remaining <= duration, with duration a whole number of minutes up to 90. |
| `Session.RunPreservesGood` | timer-site/src/app/page.tsx:71-179 | Every state reachable through the page's own inputs keeps 0 <= remaining <= duration <= 5400, with duration a multiple of 60. |
| `Session.Countdown` | timer-site/src/app/page.tsx:82-99 | While more than n seconds remain, n ticks take exactly n seconds off and change nothing else. In particular they log nothing. |
| `Session.CountdownCompletes` | timer-site/src/app/page.tsx:82-99 | From r >= 1 seconds remaining, r ticks leave the timer stopped at 0 with exactly one new entry: completed, with elapsed = target = duration. |
| `Session.StoppedIgnoresTicks` | timer-site/src/app/page.tsx:76-80 | When the timer is stopped no interval exists, so any number of ticks leaves the state unchanged. |
| `Session.PomodoroRunsOut` | timer-site/src/app/page.tsx:71-99 | From the first render, Start and 1500 ticks end stopped at 0. The log then holds just one completed event with elapsed = target = 1500. |
| `Session.StartTenTicksPause` | timer-site/src/app/page.tsx:105-135 | From a ready session longer than 10 seconds, Start, ten ticks and Pause leave duration - 10 remaining. They log one paused event with elapsed 10. |
| `Session.PauseAfterPresetIgnored` | timer-site/src/app/page.tsx:142-157 | Loading a preset stops the timer, so the page offers no Pause next (page.tsx:285-301). A Pause straight after a preset load changes nothing: the state is just the loaded preset. |
| `Session.QuickFocusThenPause` | timer-site/src/app/page.tsx:115-157 | Through the offered controls, loading the 5-minute "Quick Focus" preset, pressing Start and then Pause gives 300/300, stopped. The log gains a "Quick Focus preset loaded" entry and, in front of it, a paused entry with elapsed 0 and target 300. |
| `Session.RunningAtZeroReachable` | timer-site/src/app/page.tsx:115-168 | From any stopped state, 0 in the number field followed by Start gives a running timer with nothing remaining and zero duration. That state still satisfies the `Good` invariant, so the invariant does not rule it out. The next tick logs a zero-second completed session. |

## Left out

- React hooks and scheduling (`useState`, `useEffect`, `setInterval`, `clearInterval`) are not modelled. A tick is a discrete command, applied only while running. Stale closures and update batching are not modelled either: each handler sees the current state.
- Event `id` (`crypto.randomUUID()`) and `timestamp` (`new Date()`) are dropped, because they are random or clock-dependent.
- `formatTimestamp` is left out, because it depends on locale time formatting.
- The progress ratio, ring circumference, percentage text and preset bar widths are left out. They are floating-point rendering.
- Parsing `Number(event.currentTarget.value)` is left out: handler inputs are integers. NaN and fractional minutes are not covered, and `Math.round` in the slider handler is the identity on integers.
- JSX and CSS, the six-entry display cut of the log (`history.slice(0, 6)`), and the ritual preset descriptions are presentation only.
- React StrictMode's double call of state updaters is left out. It is a development-only framework effect that would log a completed event twice.
