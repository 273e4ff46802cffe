/** Game time: a scale factor, the total scaled time and the scaled time
    between the last two updates. The clock reading, in whole milliseconds
    since the clock started, is passed to Update by the caller. */
module Timing {
  import opened Vectors

  /** The three numbers a Time object keeps. */
  datatype TimeState = TimeState(timeScale: real, deltaTime: real, totalTimeElapsed: real)

  /** The state of a freshly constructed Time. */
  const Initial: TimeState := TimeState(1.0, 0.0, 0.0)

  /** The value the scale setter stores: the input when it is not negative, else zero. */
  function ClampScale(value: real): (r: real)
    ensures r >= 0.0
    ensures r == value || (value < 0.0 && r == 0.0)
  {
    if value >= 0.0 then value else 0.0
  }

  /** One update with a clock reading of `clockMs` milliseconds: the new total
      is the reading times the scale, and the delta is the change of the total
      times the scale once more. */
  function Advance(t: TimeState, clockMs: int): TimeState
  {
    var total := clockMs as real * t.timeScale;
    TimeState(t.timeScale, (total - t.totalTimeElapsed) * t.timeScale, total)
  }

  class Time {
    var timeScale: real
    var deltaTime: real
    var totalTimeElapsed: real

    function State(): TimeState
      reads this
    {
      TimeState(timeScale, deltaTime, totalTimeElapsed)
    }

    constructor()
      ensures State() == Initial
    {
      timeScale := 1.0;
      deltaTime := 0.0;
      totalTimeElapsed := 0.0;
    }

    method SetTimeScale(value: real)
      modifies this`timeScale
      ensures timeScale == ClampScale(value)
    {
      timeScale := if value >= 0.0 then value else 0.0;
    }

    method Update(clockMs: int)
      modifies this`deltaTime, this`totalTimeElapsed
      ensures State() == Advance(old(State()), clockMs)
    {
      var newTotalTimeElapsed := clockMs as real * timeScale;
      deltaTime := (newTotalTimeElapsed - totalTimeElapsed) * timeScale;
      totalTimeElapsed := newTotalTimeElapsed;
    }
  }

  /** After an update, the delta is the clock's advance since the reading that
      produced the previous total, multiplied by the scale twice. */
  lemma DeltaScaledTwice(t: TimeState, previousMs: int, clockMs: int)
    requires t.totalTimeElapsed == previousMs as real * t.timeScale
    ensures Advance(t, clockMs).deltaTime == (clockMs - previousMs) as real * t.timeScale * t.timeScale
  {
    var s := t.timeScale;
    calc {
      Advance(t, clockMs).deltaTime;
      == (clockMs as real * s - previousMs as real * s) * s;
      == ((clockMs - previousMs) as real * s) * s;
    }
  }

  /** With scale zero both the total and the delta become zero. */
  lemma FrozenAtZeroScale(t: TimeState, clockMs: int)
    requires t.timeScale == 0.0
    ensures Advance(t, clockMs).totalTimeElapsed == 0.0
    ensures Advance(t, clockMs).deltaTime == 0.0
  {
    var r := Advance(t, clockMs);
    calc {
      r.totalTimeElapsed;
      == clockMs as real * t.timeScale;
      == clockMs as real * 0.0;
      == 0.0;
    }
    calc {
      r.deltaTime;
      == (r.totalTimeElapsed - t.totalTimeElapsed) * t.timeScale;
      == (r.totalTimeElapsed - t.totalTimeElapsed) * 0.0;
      == 0.0;
    }
  }

  /** With the scale left alone and a clock reading no earlier than the one
      that produced the previous total, the total does not decrease and the
      delta is not negative. */
  lemma MonotoneUnderFixedScale(t: TimeState, previousMs: int, clockMs: int)
    requires t.timeScale >= 0.0
    requires t.totalTimeElapsed == previousMs as real * t.timeScale
    requires previousMs <= clockMs
    ensures Advance(t, clockMs).totalTimeElapsed >= t.totalTimeElapsed
    ensures Advance(t, clockMs).deltaTime >= 0.0
  {
    var s := t.timeScale;
    var elapsed := (clockMs - previousMs) as real;
    NonNegativeProduct(elapsed, s);
    NonNegativeProduct(elapsed * s, s);
    calc {
      Advance(t, clockMs).totalTimeElapsed - t.totalTimeElapsed;
      == clockMs as real * s - previousMs as real * s;
      == elapsed * s;
    }
    DeltaScaledTwice(t, previousMs, clockMs);
  }

  /** Lowering the scale between two updates can make the delta negative even
      though the clock did not go back: from a fresh Time, a reading of 100 ms,
      then the scale set to one half and the same reading again, gives a
      delta of -25. */
  lemma LoweringScaleCanMakeDeltaNegative()
    ensures var first := Advance(Initial, 100);
            var second := Advance(first.(timeScale := ClampScale(0.5)), 100);
            first.deltaTime == 100.0 && second.deltaTime == -25.0
  {
  }
}
