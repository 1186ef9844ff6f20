/**
 Sequences of user commands and interval ticks applied to the timer.

 The page offers a command only when its control is on screen: the Start and
 Pause buttons take turns, and the one-second interval exists only while the
 countdown runs. `Step` applies a command when it is offered and otherwise
 leaves the state alone; `Run` applies a whole sequence. The built-in presets
 and the slider's range bound what the page can feed the handlers
 (`Admissible`), and under those bounds every reachable state is well formed.
 */
module Session {
  import Timer

  datatype Preset = Preset(name: string, seconds: int)

  /** The three quick presets. */
  const QuickPresets: seq<Preset> := [
    Preset("Quick Focus", 5 * 60),
    Preset("Pomodoro", 25 * 60),
    Preset("Deep Work", 45 * 60)
  ]

  /** The three ritual presets (their descriptions are presentation only). */
  const MoodPresets: seq<Preset> := [
    Preset("Morning Momentum", 15 * 60),
    Preset("Afternoon Reset", 10 * 60),
    Preset("Evening Wind Down", 5 * 60)
  ]

  datatype Command =
    | Start
    | Pause
    | Reset
    | LoadPreset(preset: Preset)
    | CustomMinutes(minutes: int)
    | Slider(value: int)
    | Tick

  /** Whether the page offers command `c` in state `s`. */
  predicate Enabled(s: Timer.TimerState, c: Command) {
    match c
    case Start => !s.running
    case Pause => s.running
    case Tick => s.running
    case _ => true
  }

  function Apply(s: Timer.TimerState, c: Command): Timer.TimerState {
    match c
    case Start => Timer.Start(s)
    case Pause => Timer.Pause(s)
    case Reset => Timer.Reset(s)
    case LoadPreset(p) => Timer.LoadPreset(s, p.seconds, p.name)
    case CustomMinutes(m) => Timer.CustomMinutes(s, m)
    case Slider(v) => Timer.Slider(s, v)
    case Tick => Timer.Tick(s)
  }

  /** Whether applying `c` in `s` adds an entry to the session log: pausing,
      loading a preset, and the tick that finishes a session do; starting,
      resetting, resizing and every other tick do not. */
  predicate Logs(s: Timer.TimerState, c: Command) {
    match c
    case Pause => s.running
    case LoadPreset(_) => true
    case Tick => s.running && s.remaining <= 1
    case _ => false
  }

  /** `older` is what remains of `log` once some newest entries are dropped. */
  predicate IsSuffix(older: seq<Timer.TimerEvent>, log: seq<Timer.TimerEvent>) {
    |older| <= |log| && log[|log| - |older|..] == older
  }

  lemma SuffixTransitive(a: seq<Timer.TimerEvent>, b: seq<Timer.TimerEvent>, c: seq<Timer.TimerEvent>)
    requires IsSuffix(a, b) && IsSuffix(b, c)
    ensures IsSuffix(a, c)
  {
    assert c[|c| - |b|..][|b| - |a|..] == c[|c| - |a|..];
  }

  /** One command, applied if the page offers it. The log grows by one entry
      exactly when `Logs` says so. */
  function Step(s: Timer.TimerState, c: Command): (r: Timer.TimerState)
    ensures !Enabled(s, c) ==> r == s
    ensures |r.history| == |s.history| + (if Logs(s, c) then 1 else 0)
  {
    if Enabled(s, c) then Apply(s, c) else s
  }

  /** Commands applied in order. */
  function Run(s: Timer.TimerState, cs: seq<Command>): Timer.TimerState
    decreases |cs|
  {
    if cs == [] then s else Run(Step(s, cs[0]), cs[1..])
  }

  /** A step adds at most one entry, at the front: older entries are never lost
      or changed. */
  lemma StepKeepsOlderLog(s: Timer.TimerState, c: Command)
    ensures IsSuffix(s.history, Step(s, c).history)
  {
  }

  /** However many commands run, the log only ever grows at its front. */
  lemma {:induction false} RunKeepsOlderLog(s: Timer.TimerState, cs: seq<Command>)
    ensures IsSuffix(s.history, Run(s, cs).history)
    decreases |cs|
  {
    if cs != [] {
      var t := Step(s, cs[0]);
      StepKeepsOlderLog(s, cs[0]);
      RunKeepsOlderLog(t, cs[1..]);
      SuffixTransitive(s.history, t.history, Run(t, cs[1..]).history);
    }
  }

  /** `n` firings of the interval. */
  function Ticks(n: nat): (cs: seq<Command>)
    ensures |cs| == n
  {
    if n == 0 then [] else [Tick] + Ticks(n - 1)
  }

  lemma {:induction false} TicksSnoc(n: nat)
    requires n > 0
    ensures Ticks(n) == Ticks(n - 1) + [Tick]
  {
    if n > 1 {
      TicksSnoc(n - 1);
      assert [Tick] + (Ticks(n - 2) + [Tick]) == ([Tick] + Ticks(n - 2)) + [Tick];
    }
  }

  /** Inputs the page itself can produce: one of its presets, or a slider
      position inside the range input's 1..90. The number field accepts any
      integer. */
  predicate Admissible(c: Command) {
    match c
    case LoadPreset(p) => p in QuickPresets || p in MoodPresets
    case Slider(v) => 1 <= v <= Timer.MaxMinutes
    case _ => true
  }

  /** Well formed, and a whole number of minutes no longer than 90. */
  predicate Good(s: Timer.TimerState) {
    Timer.Valid(s) && s.duration % 60 == 0 && s.duration <= Timer.MaxMinutes * 60
  }

  lemma {:induction false} RunAppend(s: Timer.TimerState, a: seq<Command>, b: seq<Command>)
    ensures Run(s, a + b) == Run(Run(s, a), b)
    decreases |a|
  {
    if a == [] {
      assert a + b == b;
    } else {
      assert (a + b)[0] == a[0];
      assert (a + b)[1..] == a[1..] + b;
      var t := Step(s, a[0]);
      assert Run(s, a + b) == Run(t, a[1..] + b);
      assert Run(s, a) == Run(t, a[1..]);
      RunAppend(t, a[1..], b);
    }
  }

  lemma RunCons(s: Timer.TimerState, c: Command, cs: seq<Command>)
    ensures Run(s, [c] + cs) == Run(Step(s, c), cs)
  {
    assert ([c] + cs)[1..] == cs;
  }

  /** Every built-in preset is a whole number of minutes between 1 and 90. */
  lemma PresetsInRange(p: Preset)
    requires p in QuickPresets || p in MoodPresets
    ensures 60 <= p.seconds <= Timer.MaxMinutes * 60 && p.seconds % 60 == 0
  {
  }

  /** Every command the page can issue keeps the state good. */
  lemma StepPreservesGood(s: Timer.TimerState, c: Command)
    requires Good(s) && Admissible(c)
    ensures Good(Step(s, c))
  {
    if c.LoadPreset? {
      PresetsInRange(c.preset);
    }
  }

  /** Every state the page can reach from its first render is good: the
      remaining time never leaves 0..duration. */
  lemma {:induction false} RunPreservesGood(s: Timer.TimerState, cs: seq<Command>)
    requires Good(s)
    requires forall i :: 0 <= i < |cs| ==> Admissible(cs[i])
    ensures Good(Run(s, cs))
    decreases |cs|
  {
    if cs != [] {
      StepPreservesGood(s, cs[0]);
      assert forall i :: 0 <= i < |cs[1..]| ==> cs[1..][i] == cs[i + 1];
      RunPreservesGood(Step(s, cs[0]), cs[1..]);
    }
  }

  /** While more than `n` seconds remain, `n` ticks take exactly `n` seconds
      off and log nothing. */
  lemma {:induction false} Countdown(s: Timer.TimerState, n: nat)
    requires s.running && n < s.remaining
    ensures Run(s, Ticks(n)) == s.(remaining := s.remaining - n)
    decreases n
  {
    if n > 0 {
      var t := s.(remaining := s.remaining - 1);
      assert Step(s, Tick) == t;
      RunCons(s, Tick, Ticks(n - 1));
      assert Run(s, Ticks(n)) == Run(t, Ticks(n - 1));
      Countdown(t, n - 1);
      assert Run(t, Ticks(n - 1)) == t.(remaining := t.remaining - (n - 1));
      assert t.(remaining := t.remaining - (n - 1)) == s.(remaining := s.remaining - n);
    }
  }

  lemma CountdownToLast(s: Timer.TimerState)
    requires s.running && s.remaining >= 1
    ensures Run(s, Ticks(s.remaining - 1)) == s.(remaining := 1)
  {
    Countdown(s, s.remaining - 1);
  }

  lemma RunOne(s: Timer.TimerState, c: Command)
    ensures Run(s, [c]) == Step(s, c)
  {
    RunCons(s, c, []);
    assert [c] == [c] + [];
  }

  lemma LastTick(s: Timer.TimerState)
    requires s.running && s.remaining == 1
    ensures Run(s, [Tick]) == s.(remaining := 0, running := false,
                                 history := [Timer.CompletedEvent(s.duration)] + s.history)
  {
    RunOne(s, Tick);
  }

  /** From `r >= 1` seconds remaining, the first `r - 1` ticks log nothing and
      the `r`-th finishes the session, logging one completed event whose
      elapsed and target times are both the session length. */
  lemma CountdownCompletes(s: Timer.TimerState)
    requires s.running && s.remaining >= 1
    ensures Run(s, Ticks(s.remaining)) == s.(
      remaining := 0,
      running := false,
      history := [Timer.TimerEvent("Session completed", s.duration, s.duration, true)] + s.history)
  {
    var r := s.remaining;
    var last := s.(remaining := 1);
    var ticks := Ticks(r - 1);
    TicksSnoc(r);
    RunAppend(s, ticks, [Tick]);
    CountdownToLast(s);
    LastTick(last);
    var mid := Run(s, ticks);
    assert mid == last;
    assert Run(s, Ticks(r)) == Run(mid, [Tick]);
  }

  /** Once the countdown has stopped there is no interval, so ticks do nothing. */
  lemma {:induction false} StoppedIgnoresTicks(s: Timer.TimerState, n: nat)
    requires !s.running
    ensures Run(s, Ticks(n)) == s
    decreases n
  {
    if n > 0 {
      assert Step(s, Tick) == s;
      RunCons(s, Tick, Ticks(n - 1));
      StoppedIgnoresTicks(s, n - 1);
    }
  }

  /** A 25-minute session started from the first render and left alone for
      1500 ticks finishes with one completed event of 1500 seconds. */
  lemma PomodoroRunsOut()
    ensures var r := Run(Timer.Initial(), [Start] + Ticks(1500));
      && r.remaining == 0 && !r.running && r.duration == 1500
      && r.history == [Timer.TimerEvent("Session completed", 1500, 1500, true)]
  {
    var s := Timer.Initial();
    var started := s.(running := true);
    assert Step(s, Start) == started;
    RunCons(s, Start, Ticks(1500));
    CountdownCompletes(started);
    assert [Timer.TimerEvent("Session completed", 1500, 1500, true)] + started.history
        == [Timer.TimerEvent("Session completed", 1500, 1500, true)];
  }

  lemma StartThenTicks(s: Timer.TimerState, n: nat)
    requires !s.running && n < s.remaining
    ensures Run(s, [Start] + Ticks(n)) == s.(running := true, remaining := s.remaining - n)
  {
    var started := s.(running := true);
    assert Step(s, Start) == started;
    RunCons(s, Start, Ticks(n));
    Countdown(started, n);
  }

  /** Pausing a running timer logs one paused event, newest first. */
  lemma PauseStep(s: Timer.TimerState)
    requires s.running
    ensures Run(s, [Pause]) == s.(running := false,
      history := [Timer.TimerEvent("Session paused", s.duration - s.remaining, s.duration, false)] + s.history)
  {
    RunOne(s, Pause);
  }

  /** Starting a fresh session, letting ten seconds pass and pausing logs a
      paused event with ten seconds elapsed. */
  lemma StartTenTicksPause(s: Timer.TimerState)
    requires !s.running && s.remaining == s.duration && s.duration > 10
    ensures var r := Run(s, [Start] + Ticks(10) + [Pause]);
      && !r.running && r.duration == s.duration && r.remaining == s.duration - 10
      && r.history == [Timer.TimerEvent("Session paused", 10, s.duration, false)] + s.history
  {
    var prefix := [Start] + Ticks(10);
    RunAppend(s, prefix, [Pause]);
    StartThenTicks(s, 10);
    PauseStep(Run(s, prefix));
  }

  /** Loading a preset stops the timer, so the page shows Start rather than
      Pause: a pause straight after the load is not offered and changes
      nothing. */
  lemma PauseAfterPresetIgnored(s: Timer.TimerState, p: Preset)
    ensures Run(s, [LoadPreset(p), Pause]) == Timer.LoadPreset(s, p.seconds, p.name)
  {
    var loaded := Timer.LoadPreset(s, p.seconds, p.name);
    assert Step(s, LoadPreset(p)) == loaded;
    RunCons(s, LoadPreset(p), [Pause]);
    RunOne(loaded, Pause);
  }

  /** Loading the five-minute preset, starting it and pausing at once logs the
      load and then a pause with nothing elapsed. */
  lemma QuickFocusThenPause(s: Timer.TimerState)
    ensures var r := Run(s, [LoadPreset(Preset("Quick Focus", 5 * 60)), Start, Pause]);
      && r.duration == 300 && r.remaining == 300 && !r.running
      && r.history == [
        Timer.TimerEvent("Session paused", 0, 300, false),
        Timer.TimerEvent("Quick Focus preset loaded", 0, 300, false)] + s.history
  {
    var p := Preset("Quick Focus", 5 * 60);
    assert "Quick Focus" + " preset loaded" == "Quick Focus preset loaded";
    var loaded := Timer.LoadPreset(s, 300, "Quick Focus");
    assert loaded.history == [Timer.TimerEvent("Quick Focus preset loaded", 0, 300, false)] + s.history;
    assert Step(s, LoadPreset(p)) == loaded;
    RunCons(s, LoadPreset(p), [Start, Pause]);
    var started := loaded.(running := true);
    assert Step(loaded, Start) == started;
    RunCons(loaded, Start, [Pause]);
    PauseStep(started);
  }

  /** A running countdown with nothing left is reachable with inputs the page
      accepts: from any stopped state (the first render included), set the
      number field to 0 and press Start. The next tick then logs a completed
      session of zero seconds. */
  lemma RunningAtZeroReachable(s: Timer.TimerState)
    requires !s.running
    ensures var r := Run(s, [CustomMinutes(0), Start]);
      && Good(r) && r.running && r.remaining == 0 && r.duration == 0 && Timer.Classify(r) == Timer.Running
      && Step(r, Tick).history == [Timer.TimerEvent("Session completed", 0, 0, true)] + s.history
  {
    var t := s.(duration := 0, remaining := 0);
    var u := t.(running := true);
    assert Step(s, CustomMinutes(0)) == t;
    RunCons(s, CustomMinutes(0), [Start]);
    RunOne(t, Start);
    assert Run(s, [CustomMinutes(0), Start]) == u;
    assert Step(u, Tick).history == [Timer.CompletedEvent(0)] + s.history;
  }
}
