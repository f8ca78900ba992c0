/** The delay and sound timers of src/chip8/chip8_mods/delay_timer.rs and
    src/chip8/chip8_mods/sound_timer.rs.  Both start at 255 and count down by
    one per tick.  The guard `value >= 0` of `tick` holds for every `u8`, so
    the "reached 0" message is never printed, and a tick at 0 subtracts
    below zero, which panics. */
module Timers {
  import opened Primitives

  /** The value of a new timer. */
  const Full := 255

  /** One tick applied to the value `v`. */
  function CountDown(v: u8): Run<u8> {
    if v == 0 then Abort(SubtractUnderflow) else Value(v - 1)
  }

  /** `n` ticks in a row, starting from `v`; the first panic ends the run. */
  function AfterTicks(v: u8, n: nat): Run<u8> {
    if n == 0 then Value(v)
    else match CountDown(v)
      case Abort(f) => Abort(f)
      case Value(w) => AfterTicks(w, n - 1)
  }

  /** A timer at `v` survives exactly `v` ticks and reads `v - n` after `n`
      of them; one tick more panics. */
  lemma {:induction false} TicksCountDown(v: u8, n: nat)
    ensures AfterTicks(v, n) == if n <= v then Value(v - n) else Abort(SubtractUnderflow)
  {
    if n > 0 && v > 0 {
      TicksCountDown(v - 1, n - 1);
    }
  }

  /** A new timer reads 0 after 255 ticks and panics on the 256th. */
  lemma NewTimerRunsOut()
    ensures AfterTicks(Full, Full) == Value(0)
    ensures AfterTicks(Full, Full + 1) == Abort(SubtractUnderflow)
  {
    TicksCountDown(Full, Full);
    TicksCountDown(Full, Full + 1);
  }

  class DelayTimer {
    var value: u8

    constructor ()
      ensures value == Full
    {
      value := Full;
    }

    method Tick() returns (outcome: Outcome)
      modifies this
      ensures match CountDown(old(value))
        case Value(w) => outcome == Done && value == w
        case Abort(f) => outcome == Panic(f) && value == old(value)
    {
      outcome := Done;
      if value >= 0 {
        if value == 0 {
          outcome := Panic(SubtractUnderflow);
        } else {
          value := value - 1;
        }
      } else {
        // "Delay Timer reached 0": no u8 is below 0
      }
    }

    method GetValue() returns (v: u8)
      ensures v == value
    {
      v := value;
    }
  }

  class SoundTimer {
    var value: u8

    constructor ()
      ensures value == Full
    {
      value := Full;
    }

    /** As DelayTimer.Tick; the "BEEEP!" it prints is not modelled. */
    method Tick() returns (outcome: Outcome)
      modifies this
      ensures match CountDown(old(value))
        case Value(w) => outcome == Done && value == w
        case Abort(f) => outcome == Panic(f) && value == old(value)
    {
      outcome := Done;
      if value >= 0 {
        if value == 0 {
          outcome := Panic(SubtractUnderflow);
        } else {
          value := value - 1;
        }
      } else {
        // "Sound Timer reached 0": no u8 is below 0
      }
    }

    method GetValue() returns (v: u8)
      ensures v == value
    {
      v := value;
    }
  }
}
