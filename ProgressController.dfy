/** The controller as the application runs it: file-level statics and the bar
    layer's data block updated in place by the timer callback, the three click
    handlers and the bar's update procedure. Each method is proved to perform
    the transition ProgressState gives for its handler. */
module ProgressController {
  import opened ProgressState

  class Controller {
    var progress: nat
    var speed: nat
    var timerPending: bool
    var doneText: string
    var dirty: bool
    /** Callbacks held by the platform's timer service (not a program variable). */
    ghost var registered: nat

    /** The fields gathered into a value of the state model. */
    ghost function Snapshot(): State
      reads this
    {
      State(progress, speed, timerPending, doneText, dirty, registered)
    }

    ghost predicate Valid()
      reads this
    {
      ProgressState.Valid(Snapshot())
    }

    /** Loading the main window: the bar layer is created (its redraw requested)
        and the first tick registered with the default delay. */
    constructor ()
      ensures Valid() && Snapshot() == Initial()
      ensures progress == 0 && speed == DefaultSpeed && timerPending && dirty
    {
      progress := 0;
      speed := DefaultSpeed;
      doneText := "";
      dirty := true;
      timerPending := true;
      registered := 1;
    }

    /** The timer callback; the platform calls it only for a registered tick. */
    method TimerFired()
      requires Valid() && timerPending
      modifies this
      ensures Valid() && Snapshot() == OnTick(old(Snapshot()))
      ensures progress == old(progress) && speed == old(speed)
    {
      registered := registered - 1;
      if progress > ProgressLimit {
        timerPending := false;
        doneText := DoneLabel;
      } else {
        timerPending := true;
        registered := registered + 1;
        dirty := true;
      }
    }

    /** SELECT: reset the fill level and the delay, replace the timer. */
    method SelectClick()
      requires Valid()
      modifies this
      ensures Valid() && Snapshot() == OnSelect(old(Snapshot()))
      ensures progress == 0 && speed == DefaultSpeed && doneText == ""
      ensures timerPending && registered == 1 && dirty
    {
      progress := 0;
      speed := DefaultSpeed;
      if timerPending {
        registered := registered - 1;
      }
      timerPending := true;
      registered := registered + 1;
      doneText := "";
      dirty := true;
    }

    /** UP: shorten the delay down to the floor. */
    method UpClick()
      requires Valid()
      modifies this
      ensures Valid() && Snapshot() == OnUp(old(Snapshot()))
      ensures unchanged(this`progress, this`timerPending, this`doneText, this`dirty)
    {
      if speed > SpeedMin {
        speed := speed - SpeedStep;
      }
    }

    /** DOWN: lengthen the delay up to the ceiling. */
    method DownClick()
      requires Valid()
      modifies this
      ensures Valid() && Snapshot() == OnDown(old(Snapshot()))
      ensures unchanged(this`progress, this`timerPending, this`doneText, this`dirty)
    {
      if speed < SpeedMax {
        speed := speed + SpeedStep;
      }
    }

    /** The bar's update procedure: returns the width drawn filled, then steps
        the fill level. */
    method Redraw() returns (width: nat)
      requires Valid()
      modifies this
      ensures width == old(progress)
      ensures Valid() && Snapshot() == OnDraw(old(Snapshot()))
    {
      width := progress;
      progress := (progress + 1) % UintModulus;
      dirty := false;
    }
  }
}
