# Progress-bar controller of feature-layer-data

The application is a single-screen watch demo. A progress bar fills one column per
frame, and three buttons control it: UP shortens the delay between ticks, DOWN
lengthens it, and SELECT restarts the bar. The logic sits in four handlers of
`src/feature_layer_data.c`: the timer callback, the three click handlers and the
bar layer's update procedure. This project models that logic and proves properties
of it.

- `ProgressState.dfy` holds the state as a value. `State` has the fill level,
  the delay, whether a timer handle is held, the "done" label text, whether a
  redraw was requested, and how many callbacks the platform's timer service holds.
  There is one function per handler, and the controller invariant `Valid`.
- `ProgressController.dfy` holds the class `Controller`. Its fields are the
  program's statics and the layer's data block. Its methods update them in place,
  and each method is proved to perform its handler's transition.
- `ProgressTraces.dfy` covers runs of the application. A run is a sequence of
  stimuli applied in order. Lemmas about runs cover the invariant, the fill level
  between resets, completion, the effect of repeated presses and the fill from
  start-up.

Points where the code is easy to misread:
- The fill level goes up in the bar's update procedure (line 72). The timer
  callback never changes it. It only reschedules and asks for a redraw.
- UP subtracts 50 ms from the delay, which makes the bar faster. DOWN adds 50 ms.
- Unloading the window destroys layers but does not cancel the timer (lines 109-112).
- Completion is checked when a tick arrives (`progress > 129`). With one redraw per
  tick, frames of width 0 to 129 are drawn, and the tick after the 130th redraw
  completes the bar.

Modelling choices:
- `progress` is an `unsigned int`, 32 bits wide on the watch. `OnDraw` wraps it
  explicitly at 2^32.
- The delay is unsigned as well, but its guards keep both adjustments in range
  for every value.
- The initial `progress` of 0 is an assumption. It relies on the platform
  zero-filling the data block that `layer_create_with_data` allocates, which the
  code does not show.
- `dirty` stands for the redraw request (`layer_mark_dirty`). Drawing a frame
  serves the request, so `OnDraw` clears it. The platform may also redraw when
  nothing asked for it.
- `app_timer_register` and `app_timer_cancel` are modelled by the handle flag and
  the service's callback count. Cancelling a handle whose callback is gone removes
  nothing. A tick is delivered only while a callback is registered.

## Model

| member | source | states |
|---|---|---|
| ProgressState.Initial | src/feature_layer_data.c:89-107 | the start-up state satisfies the controller invariant and holds exactly one registered tick |
| ProgressState.OnTick | src/feature_layer_data.c:20-29 | the tick never changes the fill level or the delay; past 129 the handle is cleared, the callback is not renewed and the label reads "Done!"; otherwise exactly one callback stays registered, the label is kept and a redraw is requested; the invariant is preserved |
| ProgressState.OnSelect | src/feature_layer_data.c:31-41 | the fill level becomes 0, the delay 750, the label empty, a redraw is requested, and because a pending timer is cancelled before the new one is registered exactly one callback is registered afterwards |
| ProgressState.OnUp | src/feature_layer_data.c:43-47 | only the delay changes; it drops by exactly 50 when above 50 and is left alone at 50 (so repeated presses stay there); it never increases; a multiple of 50 in [50, 5000] stays one |
| ProgressState.OnDown | src/feature_layer_data.c:49-53 | only the delay changes; it rises by exactly 50 when below 5000 and is left alone at 5000; it never decreases; a multiple of 50 in [50, 5000] stays one |
| ProgressState.OnDraw | src/feature_layer_data.c:61-73 | only the fill level and the redraw request change; the fill level goes up by one, wrapping to 0 at 2^32, and the request is served |
| ProgressController.Controller.constructor | src/feature_layer_data.c:89-107 | fields start at fill 0, delay 750, a timer pending and a redraw requested, the start-up state |
| ProgressController.Controller.TimerFired | src/feature_layer_data.c:20-29 | the in-place callback performs the OnTick transition and keeps the invariant |
| ProgressController.Controller.SelectClick | src/feature_layer_data.c:31-41 | the in-place reset performs the OnSelect transition: fill 0, delay 750, empty label, one callback registered |
| ProgressController.Controller.UpClick | src/feature_layer_data.c:43-47 | the in-place press performs the OnUp transition; fill level, handle, label and redraw request are unchanged |
| ProgressController.Controller.DownClick | src/feature_layer_data.c:49-53 | the in-place press performs the OnDown transition; fill level, handle, label and redraw request are unchanged |
| ProgressController.Controller.Redraw | src/feature_layer_data.c:61-73 | the width requested of the fill rectangle is the fill level before the call, and then the OnDraw step is performed |
| ProgressTraces.Step | src/feature_layer_data.c:55-59 | a stimulus is dispatched to its handler; a tick with no registered callback never arrives; every stimulus keeps the invariant |
| ProgressTraces.ValidAlongRun | src/feature_layer_data.c:14-53 | over any sequence of stimuli the delay stays a multiple of 50 in [50, 5000] (so UP's unsigned subtraction never wraps) and at most one callback is ever registered, the one the handle names |
| ProgressTraces.ProgressCountsRedraws | src/feature_layer_data.c:20-73 | with no reset, the fill level after a run is the starting level plus the number of redraws, modulo 2^32; ticks and speed changes never alter it |
| ProgressTraces.ProgressNeverDecreases | src/feature_layer_data.c:20-73 | with no reset and no wrap, the fill level never decreases and grows by exactly one per redraw |
| ProgressTraces.NoTickWithoutTimer | src/feature_layer_data.c:20-29 | with no callback registered and no reset, no tick fires in any run and the label keeps its text |
| ProgressTraces.CompletionIsFinal | src/feature_layer_data.c:22-24 | after a tick that finds the fill level above 129, no tick fires and the label reads "Done!" until SELECT |
| ProgressTraces.UpPresses | src/feature_layer_data.c:43-47 | n presses of UP bring the delay to max(50, delay - 50n) and change nothing else |
| ProgressTraces.DownPresses | src/feature_layer_data.c:49-53 | n presses of DOWN bring the delay to min(5000, delay + 50n) and change nothing else |
| ProgressTraces.RunAppend | src/feature_layer_data.c:20-73 | running two sequences of stimuli one after the other is running their concatenation, and the frames drawn are the frames of each part in order |
| ProgressTraces.FramesFill | src/feature_layer_data.c:20-73 | with one redraw per tick from an empty bar, frame k is drawn k columns wide, and up to 129 frames the bar keeps filling with a tick pending |
| ProgressTraces.StartUpToDone | src/feature_layer_data.c:20-107 | from start-up with one redraw per tick, the frames show widths 0 to 129 and the tick after the 130th redraw leaves fill level 130, no callback, and the label "Done!" |

## Left out

- Window, layer and text-layer creation and destruction, `layer_add_child`, click subscription, `init`, `deinit`, `main` and the event loop (lines 55-59, 75-132): these are platform calls with no logic of their own. The model keeps only their effect on the state: the start-up state and dispatching each stimulus to its handler.
- Unloading the window (lines 109-112, registered at lines 117-120) is not modelled as a transition. The model assumes that no tick is delivered after unload. The code does not ensure this: the handler destroys the bar layer, whose data block holds the fill level, and the label, but it leaves the timer registered. The platform can call the handler from inside the event loop, for instance when the back button pops the window. A tick delivered after that would read the freed data block (lines 21-22) and write to the destroyed label (line 24).
- Drawing: colours, the rounded outline, rectangle geometry and the round/rectangular screen offsets. The model keeps only the width requested of the fill rectangle, which equals the fill level.
- ProgressController.Controller.Redraw: its width is the fill level as an unbounded value. The rectangle's size fields are 16-bit, so from a fill level of 32768 the width actually drawn is truncated. This is not modelled, because the fill level stops rising past 130 once the bar completes, unless the platform redraws the bar tens of thousands of times.
- Real time: the delay is recorded but no clock is modelled. A registered tick may arrive after any other stimuli.
- When the platform chooses to redraw the bar. A redraw is an independent stimulus, not tied one-to-one to ticks.
- The static instruction text set at line 96: it is not state of the controller.
