/**
 The countdown state of the timer page's `Home` component and its handlers.

 The page keeps four pieces of state: the session length `duration`, the
 seconds still to go `remaining`, whether the countdown `running`, and a
 newest-first `history` of session events. Every handler here is a pure
 function from the state before to the state after. Durations are whole
 seconds; they are integers rather than naturals because the slider handler
 does not clamp its input, and the model says exactly which inputs keep the
 state well formed (`Valid`).
 */
module Timer {
  import Format

  /** One entry of the session log. The page also stamps each entry with a
      random id and the wall-clock time; neither is modelled. `title` is the
      page's `label` field (`label` is a Dafny keyword). */
  datatype TimerEvent = TimerEvent(title: string, elapsed: int, target: int, completed: bool)

  datatype TimerState = TimerState(
    duration: int,
    remaining: int,
    running: bool,
    history: seq<TimerEvent>)

  /** The four situations the page announces in its accessible label. */
  datatype Status = Running | Finished | Ready | Paused

  const DefaultDuration: int := 25 * 60
  const MaxMinutes: int := 90

  /** The remaining time lies between zero and the session length. */
  predicate Valid(s: TimerState) {
    0 <= s.remaining <= s.duration
  }

  /** Seconds already spent in the current session. */
  function Elapsed(s: TimerState): int {
    s.duration - s.remaining
  }

  function Min(a: int, b: int): int {
    if a <= b then a else b
  }

  /** `Math.max(lo, Math.min(hi, x))`. */
  function Clamp(x: int, lo: int, hi: int): (r: int)
    requires lo <= hi
    ensures lo <= r <= hi
    ensures lo <= x <= hi ==> r == x
    ensures x < lo ==> r == lo
    ensures hi < x ==> r == hi
  {
    if hi < x then hi else if x < lo then lo else x
  }

  /** The page as first rendered: a 25-minute session, not running, empty log. */
  function Initial(): (s: TimerState)
    ensures s.duration == DefaultDuration && s.remaining == DefaultDuration
    ensures Valid(s) && !s.running && s.history == []
    ensures Classify(s) == Ready && Elapsed(s) == 0
  {
    TimerState(DefaultDuration, DefaultDuration, false, [])
  }

  /** `timerStateLabel`: running first, then finished (nothing remaining), then
      ready (nothing spent), and paused otherwise. */
  function Classify(s: TimerState): (st: Status)
    ensures st == Running <==> s.running
    ensures st == Finished <==> !s.running && s.remaining == 0
    ensures st == Ready <==> !s.running && s.remaining != 0 && Elapsed(s) == 0
    ensures st == Paused <==> !s.running && s.remaining != 0 && Elapsed(s) != 0
    ensures Valid(s) && st == Paused ==> 0 < s.remaining < s.duration
  {
    if s.running then Running
    else if s.remaining == 0 then Finished
    else if s.remaining == s.duration then Ready
    else Paused
  }

  /** The accessible label text the page renders for each status. */
  function StatusText(st: Status): string {
    match st
    case Running => "Timer is counting down"
    case Finished => "Timer finished"
    case Ready => "Timer ready"
    case Paused => "Timer paused"
  }

  function PausedEvent(s: TimerState): TimerEvent {
    TimerEvent("Session paused", Elapsed(s), s.duration, false)
  }

  function CompletedEvent(duration: int): TimerEvent {
    TimerEvent("Session completed", duration, duration, true)
  }

  function PresetEvent(seconds: int, name: string): TimerEvent {
    TimerEvent(name + " preset loaded", 0, seconds, false)
  }

  /** `handleStart`: a finished session is refilled to its full length before
      the countdown starts; otherwise the countdown resumes where it stopped. */
  function Start(s: TimerState): (r: TimerState)
    ensures r.running && Classify(r) == Running
    ensures r.duration == s.duration && r.history == s.history
    ensures s.remaining != 0 ==> r.remaining == s.remaining
    ensures s.remaining == 0 ==> Elapsed(r) == 0
    ensures Valid(s) ==> Valid(r)
  {
    s.(remaining := if s.remaining == 0 then s.duration else s.remaining, running := true)
  }

  /** `handlePause`: stops the countdown and logs how far the session got. */
  function Pause(s: TimerState): (r: TimerState)
    ensures !r.running && Classify(r) != Running
    ensures r.duration == s.duration && r.remaining == s.remaining
    ensures |r.history| == |s.history| + 1 && r.history[1..] == s.history
    ensures r.history[0].title == "Session paused" && !r.history[0].completed
    ensures r.history[0].target == r.duration
    ensures r.history[0].elapsed + r.remaining == r.duration
    ensures Valid(s) ==> Valid(r) && 0 <= r.history[0].elapsed <= r.history[0].target
  {
    s.(running := false, history := [PausedEvent(s)] + s.history)
  }

  /** `handleReset`: stops the countdown and refills it; nothing is logged. */
  function Reset(s: TimerState): (r: TimerState)
    ensures !r.running && Elapsed(r) == 0
    ensures r.duration == s.duration && r.history == s.history
    ensures s.duration >= 0 ==> Valid(r)
    ensures Classify(r) == if s.duration == 0 then Finished else Ready
  {
    s.(running := false, remaining := s.duration)
  }

  /** `handlePreset`: loads a new session length, stopped and full, and logs
      that the preset was loaded. */
  function LoadPreset(s: TimerState, seconds: int, name: string): (r: TimerState)
    ensures !r.running && r.duration == seconds && r.remaining == seconds
    ensures |r.history| == |s.history| + 1 && r.history[1..] == s.history
    ensures r.history[0] == TimerEvent(name + " preset loaded", 0, seconds, false)
    ensures Valid(r) <==> seconds >= 0
    ensures seconds != 0 ==> Classify(r) == Ready
  {
    s.(running := false, duration := seconds, remaining := seconds,
       history := [PresetEvent(seconds, name)] + s.history)
  }

  /** The common body of `handleCustomMinutes` and `handleSlider`: the new
      length replaces the old one; a running session keeps the seconds it has
      already spent (as far as the new length allows), a stopped one starts
      over. Nothing is logged. */
  function Resize(s: TimerState, seconds: int): (r: TimerState)
    ensures r.duration == seconds && r.running == s.running && r.history == s.history
    ensures !s.running ==> Elapsed(r) == 0
    ensures s.running ==> r.remaining >= 0 && Elapsed(r) == Min(Elapsed(s), seconds)
    ensures Valid(s) ==> (Valid(r) <==> seconds >= 0)
  {
    var elapsedSeconds := Elapsed(s);
    if s.running then
      s.(duration := seconds, remaining := Format.NonNegative(seconds - elapsedSeconds))
    else
      s.(duration := seconds, remaining := seconds)
  }

  /** `handleCustomMinutes`: the number field's minutes, clamped to 0..90. */
  function CustomMinutes(s: TimerState, minutes: int): (r: TimerState)
    ensures 0 <= r.duration <= MaxMinutes * 60 && r.duration % 60 == 0
    ensures 0 <= minutes <= MaxMinutes ==> r.duration == minutes * 60
    ensures minutes < 0 ==> r.duration == 0
    ensures MaxMinutes < minutes ==> r.duration == MaxMinutes * 60
    ensures r.running == s.running && r.history == s.history
    ensures !s.running ==> Elapsed(r) == 0
    ensures s.running ==> Elapsed(r) == Min(Elapsed(s), r.duration)
    ensures Valid(s) ==> Valid(r)
  {
    Resize(s, Clamp(minutes, 0, MaxMinutes) * 60)
  }

  /** `handleSlider`: the slider's minutes, taken as they come. The page relies
      on the range input's bounds of 1..90; a negative value would break
      `Valid`. */
  function Slider(s: TimerState, value: int): (r: TimerState)
    ensures r.duration % 60 == 0 && r.duration / 60 == value
    ensures r.running == s.running && r.history == s.history
    ensures !s.running ==> Elapsed(r) == 0
    ensures s.running ==> Elapsed(r) == Min(Elapsed(s), r.duration)
    ensures Valid(s) ==> (Valid(r) <==> value >= 0)
  {
    Resize(s, value * 60)
  }

  /** The body of the one-second interval callback: the last second (or an
      already empty countdown) finishes the session and logs its completion;
      any other tick takes one second off and changes nothing else. */
  function Tick(s: TimerState): (r: TimerState)
    ensures s.remaining > 1 ==> r == s.(remaining := s.remaining - 1)
    ensures s.remaining <= 1 ==>
      && r.remaining == 0 && !r.running && Classify(r) == Finished
      && r.duration == s.duration
      && |r.history| == |s.history| + 1 && r.history[1..] == s.history
      && r.history[0] == TimerEvent("Session completed", s.duration, s.duration, true)
    ensures Valid(s) && s.remaining > 0 ==> r.remaining == s.remaining - 1
    ensures Valid(s) ==> Valid(r)
  {
    if s.remaining <= 1 then
      s.(running := false, remaining := 0, history := [CompletedEvent(s.duration)] + s.history)
    else
      s.(remaining := s.remaining - 1)
  }

  /** Resetting twice is resetting once. */
  lemma ResetIdempotent(s: TimerState)
    ensures Reset(Reset(s)) == Reset(s)
  {
  }

  /** Out-of-range minutes behave as their clamped value, and the number field
      is the slider behind a clamp. */
  lemma CustomMinutesClampLaw(s: TimerState, minutes: int)
    ensures CustomMinutes(s, minutes) == CustomMinutes(s, Clamp(minutes, 0, MaxMinutes))
    ensures CustomMinutes(s, minutes) == Slider(s, Clamp(minutes, 0, MaxMinutes))
  {
  }

  /** The accessible label tells the four statuses apart. */
  lemma StatusTextInjective(a: Status, b: Status)
    requires StatusText(a) == StatusText(b)
    ensures a == b
  {
  }
}
