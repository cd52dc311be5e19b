/** The progress-bar controller of the feature-layer-data demo, as values.

    A `State` gathers everything the handlers of the application read or
    write: the fill level kept in the bar layer's data block, the tick delay,
    whether the application holds a timer handle, the text of the "done"
    label and whether a redraw has been requested. `registered` is not a
    variable of the program: it counts the callbacks the platform's timer
    service holds, so that "at most one tick is ever scheduled" can be
    stated and proved rather than built into a boolean.

    Each handler of the application is one function from the old state to
    the new one; the class in ProgressController runs the same handlers in
    place. */
module ProgressState {

  /** Bounds of the tick delay, in milliseconds. */
  const SpeedMin: nat := 50
  const SpeedMax: nat := 5000
  /** The delay at start-up and after a reset. */
  const DefaultSpeed: nat := 750
  /** How far one UP or DOWN press moves the delay. */
  const SpeedStep: nat := 50
  /** A tick that finds the fill level above this value completes the bar. */
  const ProgressLimit: nat := 129
  /** `unsigned int` is 32 bits wide on the watch: its values are 0 .. UintModulus - 1. */
  const UintModulus: nat := 0x1_0000_0000
  /** The text the "done" label shows once the bar has completed. */
  const DoneLabel: string := "Done!"

  datatype State = State(
    progress: nat,       // columns of the bar drawn filled (ProgressData.progress)
    speed: nat,          // delay between ticks in ms (s_current_speed)
    timerPending: bool,  // s_progress_timer != NULL
    doneText: string,    // text of s_done_text
    dirty: bool,         // a redraw of the bar has been requested
    registered: nat      // callbacks held by the platform's timer service
  )

  /** A delay reachable from the default by steps of SpeedStep within the bounds. */
  predicate SpeedOk(speed: nat) {
    SpeedMin <= speed <= SpeedMax && speed % SpeedStep == 0
  }

  /** The handle the application keeps says exactly whether a callback is scheduled,
      and never more than one is. */
  predicate HandleTracksTimer(s: State) {
    s.registered == if s.timerPending then 1 else 0
  }

  /** The controller invariant: every handler keeps it. */
  predicate Valid(s: State) {
    && s.progress < UintModulus
    && SpeedOk(s.speed)
    && HandleTracksTimer(s)
    && (s.doneText == "" || s.doneText == DoneLabel)
  }

  /** The state once the main window has loaded: the default delay, a fresh bar
      layer (whose data block the platform is taken to zero-fill), one timer
      registered, an empty "done" label and a redraw requested. */
  function Initial(): (s: State)
    ensures Valid(s) && s.timerPending && s.registered == 1
  {
    State(0, DefaultSpeed, true, "", true, 1)
  }

  /** The timer callback. The platform has consumed the callback that fired.
      Past the limit the bar is complete: the handle is cleared and the label
      says so. Otherwise another tick is registered with the current delay
      and a redraw is requested. The fill level is never touched here. */
  function OnTick(s: State): (r: State)
    requires s.registered > 0
    ensures r.progress == s.progress && r.speed == s.speed
    ensures s.progress > ProgressLimit ==>
      && !r.timerPending && r.registered == s.registered - 1
      && r.doneText == DoneLabel && r.dirty == s.dirty
    ensures s.progress <= ProgressLimit ==>
      && r.timerPending && r.registered == s.registered
      && r.doneText == s.doneText && r.dirty
    ensures Valid(s) ==> Valid(r)
  {
    var fired := s.(registered := s.registered - 1);
    if s.progress > ProgressLimit then
      fired.(timerPending := false, doneText := DoneLabel)
    else
      fired.(timerPending := true, registered := fired.registered + 1, dirty := true)
  }

  /** SELECT: restart the bar from empty at the default delay. A pending timer
      is cancelled before the new one is registered. */
  function OnSelect(s: State): (r: State)
    ensures r.progress == 0 && r.speed == DefaultSpeed
    ensures r.doneText == "" && r.timerPending && r.dirty
    ensures HandleTracksTimer(s) ==> r.registered == 1
    ensures HandleTracksTimer(s) ==> Valid(r)
  {
    // cancelling a handle whose callback is gone removes nothing
    var kept := if s.timerPending && s.registered > 0 then s.registered - 1 else s.registered;
    State(0, DefaultSpeed, true, "", true, kept + 1)
  }

  /** UP: shorten the delay, which makes the bar fill faster, unless it is
      already at the floor. Nothing else changes. */
  function OnUp(s: State): (r: State)
    ensures r == s.(speed := r.speed)
    ensures r.speed <= s.speed
    ensures s.speed > SpeedMin ==> r.speed == s.speed - SpeedStep
    ensures s.speed <= SpeedMin ==> r == s
    ensures SpeedOk(s.speed) ==> SpeedOk(r.speed)
    ensures Valid(s) ==> Valid(r)
  {
    if s.speed > SpeedMin then s.(speed := s.speed - SpeedStep) else s
  }

  /** DOWN: lengthen the delay, which makes the bar fill slower, unless it is
      already at the ceiling. Nothing else changes. */
  function OnDown(s: State): (r: State)
    ensures r == s.(speed := r.speed)
    ensures r.speed >= s.speed
    ensures s.speed < SpeedMax ==> r.speed == s.speed + SpeedStep
    ensures s.speed >= SpeedMax ==> r == s
    ensures SpeedOk(s.speed) ==> SpeedOk(r.speed)
    ensures Valid(s) ==> Valid(r)
  {
    if s.speed < SpeedMax then s.(speed := s.speed + SpeedStep) else s
  }

  /** The bar's update procedure: after the frame is drawn the fill level goes
      up by one, wrapping as an `unsigned int` does, and the redraw request has
      been served. The width drawn is the fill level before the step. */
  function OnDraw(s: State): (r: State)
    ensures r == s.(progress := r.progress, dirty := false)
    ensures r.progress < UintModulus
    ensures s.progress + 1 < UintModulus ==> r.progress == s.progress + 1
    ensures s.progress + 1 == UintModulus ==> r.progress == 0
    ensures Valid(s) ==> Valid(r)
  {
    s.(progress := (s.progress + 1) % UintModulus, dirty := false)
  }
}
