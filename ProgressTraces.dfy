/** Sequences of stimuli and what the controller does over them.

    The platform delivers one stimulus at a time and each handler runs to
    completion, so a run of the application is a sequence of events applied
    in order. A tick is delivered only while the timer service holds a
    callback; the bar may be redrawn at any time, not only after a tick. */
module ProgressTraces {
  import opened ProgressState

  datatype Event = Tick | UpPress | SelectPress | DownPress | Redraw

  /** One stimulus. A tick with no callback registered never arrives. */
  function Step(s: State, e: Event): (r: State)
    ensures e == Tick && s.registered == 0 ==> r == s
    ensures Valid(s) ==> Valid(r)
  {
    match e
    case Tick => if s.registered == 0 then s else OnTick(s)
    case UpPress => OnUp(s)
    case SelectPress => OnSelect(s)
    case DownPress => OnDown(s)
    case Redraw => OnDraw(s)
  }

  function Run(s: State, evs: seq<Event>): State
    decreases |evs|
  {
    if evs == [] then s else Run(Step(s, evs[0]), evs[1..])
  }

  /** The number of timer callbacks that fire during a run. */
  function TicksFired(s: State, evs: seq<Event>): nat
    decreases |evs|
  {
    if evs == [] then 0
    else (if evs[0] == Tick && s.registered > 0 then 1 else 0) + TicksFired(Step(s, evs[0]), evs[1..])
  }

  /** The widths drawn filled, frame by frame, during a run. */
  function Widths(s: State, evs: seq<Event>): seq<nat>
    decreases |evs|
  {
    if evs == [] then []
    else (if evs[0] == Redraw then [s.progress] else []) + Widths(Step(s, evs[0]), evs[1..])
  }

  lemma {:induction false} RunAppend(s: State, a: seq<Event>, b: seq<Event>)
    ensures Run(s, a + b) == Run(Run(s, a), b)
    ensures Widths(s, a + b) == Widths(s, a) + Widths(Run(s, a), b)
    decreases |a|
  {
    if a != [] {
      assert (a + b)[0] == a[0];
      assert (a + b)[1..] == a[1..] + b;
      RunAppend(Step(s, a[0]), a[1..], b);
    } else {
      assert a + b == b;
    }
  }

  /** The controller invariant holds after every run that starts in it: the
      delay stays a multiple of 50 within [50, 5000], so the unsigned
      subtraction of UP never wraps, and at most one callback is ever
      scheduled, the one the handle names. */
  lemma {:induction false} ValidAlongRun(s: State, evs: seq<Event>)
    requires Valid(s)
    ensures Valid(Run(s, evs))
    decreases |evs|
  {
    if evs != [] {
      ValidAlongRun(Step(s, evs[0]), evs[1..]);
    }
  }

  /** Between resets the fill level is the start level plus the number of
      redraws, modulo the width of `unsigned int`: ticks and speed changes
      never touch it. */
  lemma {:induction false} ProgressCountsRedraws(s: State, evs: seq<Event>)
    requires s.progress < UintModulus
    requires SelectPress !in evs
    ensures Run(s, evs).progress == (s.progress + multiset(evs)[Redraw]) % UintModulus
    decreases |evs|
  {
    if evs != [] {
      var t := Step(s, evs[0]);
      assert evs == [evs[0]] + evs[1..];
      assert multiset(evs) == multiset([evs[0]]) + multiset(evs[1..]);
      ProgressCountsRedraws(t, evs[1..]);
      if evs[0] == Redraw {
        assert t.progress == (s.progress + 1) % UintModulus;
      } else {
        assert t.progress == s.progress;
      }
    }
  }

  /** Hence, until the counter could wrap, the fill level never decreases
      without a reset. */
  lemma ProgressNeverDecreases(s: State, evs: seq<Event>)
    requires s.progress + multiset(evs)[Redraw] < UintModulus
    requires SelectPress !in evs
    ensures Run(s, evs).progress == s.progress + multiset(evs)[Redraw]
    ensures Run(s, evs).progress >= s.progress
  {
    ProgressCountsRedraws(s, evs);
  }

  /** With no callback scheduled and no reset, no tick ever fires again and the
      label keeps its text. */
  lemma {:induction false} NoTickWithoutTimer(s: State, evs: seq<Event>)
    requires HandleTracksTimer(s) && !s.timerPending
    requires SelectPress !in evs
    ensures TicksFired(s, evs) == 0
    ensures !Run(s, evs).timerPending && Run(s, evs).registered == 0
    ensures Run(s, evs).doneText == s.doneText
    decreases |evs|
  {
    if evs != [] {
      assert evs[0] in evs;
      assert forall e :: e in evs[1..] ==> e in evs;
      NoTickWithoutTimer(Step(s, evs[0]), evs[1..]);
    }
  }

  /** A tick that finds the bar past the limit completes it: no callback is
      left, and until SELECT registers a new one no further tick occurs and
      the label keeps saying "Done!". */
  lemma CompletionIsFinal(s: State, evs: seq<Event>)
    requires Valid(s) && s.timerPending && s.progress > ProgressLimit
    requires SelectPress !in evs
    ensures TicksFired(OnTick(s), evs) == 0
    ensures !Run(OnTick(s), evs).timerPending
    ensures Run(OnTick(s), evs).doneText == DoneLabel
  {
    NoTickWithoutTimer(OnTick(s), evs);
  }

  /** n presses of one button. */
  function Presses(e: Event, n: nat): seq<Event> {
    if n == 0 then [] else [e] + Presses(e, n - 1)
  }

  function Max(a: int, b: int): int { if a < b then b else a }
  function Min(a: int, b: int): int { if a < b then a else b }

  /** n presses of UP take 50 ms off the delay each, until it reaches 50 ms,
      where further presses leave it. Nothing else changes. */
  lemma {:induction false} UpPresses(s: State, n: nat)
    requires SpeedOk(s.speed)
    ensures Run(s, Presses(UpPress, n)) == s.(speed := Max(SpeedMin, s.speed - SpeedStep * n))
    decreases n
  {
    if n > 0 {
      UpPresses(OnUp(s), n - 1);
    }
  }

  /** n presses of DOWN add 50 ms to the delay each, until it reaches 5000 ms,
      where further presses leave it. Nothing else changes. */
  lemma {:induction false} DownPresses(s: State, n: nat)
    requires SpeedOk(s.speed)
    ensures Run(s, Presses(DownPress, n)) == s.(speed := Min(SpeedMax, s.speed + SpeedStep * n))
    decreases n
  {
    if n > 0 {
      DownPresses(OnDown(s), n - 1);
    }
  }

  /** n frames of the running bar: a redraw, then the tick it was waiting for. */
  function Frames(n: nat): seq<Event> {
    if n == 0 then [] else Frames(n - 1) + [Redraw, Tick]
  }

  /** The bar while it fills: a tick pending, the label empty, a redraw asked for. */
  function Filling(progress: nat, speed: nat): State {
    State(progress, speed, true, "", true, 1)
  }

  /** Up to the limit, each frame draws the bar one column wider than the last
      and the next tick is scheduled. */
  lemma {:induction false} FramesFill(speed: nat, n: nat)
    requires n <= ProgressLimit + 1
    ensures n <= ProgressLimit ==> Run(Filling(0, speed), Frames(n)) == Filling(n, speed)
    ensures Widths(Filling(0, speed), Frames(n)) == seq(n, i => i)
  {
    if n > 0 {
      FramesFill(speed, n - 1);
      RunAppend(Filling(0, speed), Frames(n - 1), [Redraw, Tick]);
      var before := Filling(n - 1, speed);
      assert Run(before, [Redraw, Tick]) == Run(OnTick(OnDraw(before)), []);
      assert Widths(before, [Redraw, Tick]) == [n - 1] + Widths(OnDraw(before), [Tick]);
      assert seq(n - 1, i => i) + [n - 1] == seq(n, i => i);
    }
  }

  /** From start-up, with the bar redrawn once per tick: the frames show widths
      0 to 129, and the tick after the one-hundred-thirtieth redraw completes
      the bar; the label says "Done!" and no callback is left. */
  lemma StartUpToDone()
    ensures Widths(Initial(), Frames(ProgressLimit + 1)) == seq(ProgressLimit + 1, i => i)
    ensures Run(Initial(), Frames(ProgressLimit)) == Filling(ProgressLimit, DefaultSpeed)
    ensures Run(Initial(), Frames(ProgressLimit + 1))
         == State(ProgressLimit + 1, DefaultSpeed, false, DoneLabel, false, 0)
  {
    assert Initial() == Filling(0, DefaultSpeed);
    FramesFill(DefaultSpeed, ProgressLimit);
    FramesFill(DefaultSpeed, ProgressLimit + 1);
    RunAppend(Initial(), Frames(ProgressLimit), [Redraw, Tick]);
    var last := Filling(ProgressLimit, DefaultSpeed);
    assert Run(last, [Redraw, Tick]) == Run(OnTick(OnDraw(last)), []);
  }
}
