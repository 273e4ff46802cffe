/** The engine's game loop: load once, then per iteration update the time,
    run the logic tick when it is due, and draw.

    The window, its events and the worker thread are not modelled: the loop
    runs once per clock reading it is given (the window stays open for
    exactly that many iterations), and the three hooks a game supplies are
    recorded, in the order they are called, in `hooks`. */
module Engine {
  import opened Timing

  /** The hooks a game implements. */
  datatype Hook = OnLoad | OnUpdate | OnDraw

  const LogicFramesPerSecond: real := 50.0

  /** Milliseconds between logic ticks: one fiftieth of a second. */
  const LogicFramePeriod: real := 1.0 / LogicFramesPerSecond * 1000.0

  /** The scheduling rule of one iteration, given the delta and the total that
      the time update just produced: the delta is taken off the time left
      until the next logic frame; when nothing is left a tick runs, which
      sets the time left to one full period (it does not add the period),
      records the time since the previous tick and remembers the total.
      So at most one tick runs, and afterwards some time is always left. */
  method Tick(timeUntilNextFrame: real, timeOfLastFrame: real, logicFrameTime: real,
              deltaTime: real, totalTimeElapsed: real)
    returns (untilNext: real, lastFrame: real, frameTime: real, updates: nat)
    ensures updates <= 1
    ensures updates == 1 <==> timeUntilNextFrame - deltaTime <= 0.0
    ensures untilNext > 0.0
    ensures updates == 1 ==> untilNext == LogicFramePeriod
                             && frameTime == totalTimeElapsed - timeOfLastFrame
                             && lastFrame == totalTimeElapsed
    ensures updates == 0 ==> untilNext == timeUntilNextFrame - deltaTime
                             && frameTime == logicFrameTime
                             && lastFrame == timeOfLastFrame
    ensures timeUntilNextFrame <= LogicFramePeriod && deltaTime >= 0.0 ==> untilNext <= LogicFramePeriod
  {
    untilNext := timeUntilNextFrame - deltaTime;
    lastFrame, frameTime, updates := timeOfLastFrame, logicFrameTime, 0;
    while untilNext <= 0.0
      invariant updates <= 1
      invariant updates == 0 ==> untilNext == timeUntilNextFrame - deltaTime
                                 && lastFrame == timeOfLastFrame && frameTime == logicFrameTime
      invariant updates == 1 ==> untilNext == LogicFramePeriod && timeUntilNextFrame - deltaTime <= 0.0
                                 && frameTime == totalTimeElapsed - timeOfLastFrame
                                 && lastFrame == totalTimeElapsed
      decreases if untilNext <= 0.0 then 1 else 0
    {
      untilNext := LogicFramePeriod;
      frameTime := totalTimeElapsed - lastFrame;
      lastFrame := totalTimeElapsed;
      updates := updates + 1;
    }
  }

  /** Everything the loop carries from one iteration to the next. */
  datatype LoopState = LoopState(time: TimeState, timeUntilNextFrame: real,
                                 timeOfLastFrame: real, logicFrameTime: real)

  /** One iteration as a function of the state before it and the clock
      reading: the new state and the hooks it calls. */
  function Iterate(s: LoopState, clockMs: int): (LoopState, seq<Hook>)
  {
    var t := Advance(s.time, clockMs);
    var left := s.timeUntilNextFrame - t.deltaTime;
    if left <= 0.0 then
      (LoopState(t, LogicFramePeriod, t.totalTimeElapsed, t.totalTimeElapsed - s.timeOfLastFrame),
       [OnUpdate, OnDraw])
    else
      (LoopState(t, left, s.timeOfLastFrame, s.logicFrameTime), [OnDraw])
  }

  /** The iterations for a sequence of clock readings, in order. */
  function Run(s: LoopState, clockReadings: seq<int>): (LoopState, seq<Hook>)
  {
    if clockReadings == [] then (s, [])
    else
      var before := Run(s, clockReadings[..|clockReadings| - 1]);
      var last := Iterate(before.0, clockReadings[|clockReadings| - 1]);
      (last.0, before.1 + last.1)
  }

  /** The state the loop starts from. */
  function Start(time: TimeState, logicFrameTime: real): LoopState
  {
    LoopState(time, 0.0, 0.0, logicFrameTime)
  }

  class GameEngine {
    const gameTime: Time
    var logicFrameTime: real
    /** The hooks called so far, oldest first. */
    var hooks: seq<Hook>

    constructor()
      ensures fresh(gameTime) && gameTime.State() == Initial
      ensures logicFrameTime == 0.0 && hooks == []
    {
      gameTime := new Time();
      logicFrameTime := 0.0;
      hooks := [];
    }

    /** The body of the worker thread: OnLoad once, then one iteration per
        clock reading. */
    method GameLoop(clockReadings: seq<int>)
      modifies this`logicFrameTime, this`hooks, gameTime
      ensures var run := Run(Start(old(gameTime.State()), old(logicFrameTime)), clockReadings);
              && hooks == old(hooks) + [OnLoad] + run.1
              && gameTime.State() == run.0.time
              && logicFrameTime == run.0.logicFrameTime
    {
      ghost var start := Start(gameTime.State(), logicFrameTime);
      hooks := hooks + [OnLoad];
      ghost var loaded := hooks;
      var timeUntilNextFrame: real := 0.0;
      var timeOfLastFrame: real := 0.0;
      var i := 0;
      while i < |clockReadings|
        invariant 0 <= i <= |clockReadings|
        invariant Run(start, clockReadings[..i]).0
                  == LoopState(gameTime.State(), timeUntilNextFrame, timeOfLastFrame, logicFrameTime)
        invariant hooks == loaded + Run(start, clockReadings[..i]).1
      {
        ghost var before := LoopState(gameTime.State(), timeUntilNextFrame, timeOfLastFrame, logicFrameTime);
        gameTime.Update(clockReadings[i]);
        var updates: nat;
        timeUntilNextFrame, timeOfLastFrame, logicFrameTime, updates :=
          Tick(timeUntilNextFrame, timeOfLastFrame, logicFrameTime,
               gameTime.deltaTime, gameTime.totalTimeElapsed);
        if updates == 1 {
          hooks := hooks + [OnUpdate];
        }
        hooks := hooks + [OnDraw];
        assert clockReadings[..i + 1][..i] == clockReadings[..i];
        assert Iterate(before, clockReadings[i]).0
               == LoopState(gameTime.State(), timeUntilNextFrame, timeOfLastFrame, logicFrameTime);
        i := i + 1;
      }
      assert clockReadings[..i] == clockReadings;
    }
  }

  // ---------------------------------------------------------------------------
  // Properties of the schedule

  /** Every OnUpdate is followed at once by an OnDraw. */
  ghost predicate UpdateThenDraw(h: seq<Hook>)
  {
    forall i :: 0 <= i < |h| && h[i] == OnUpdate ==> i + 1 < |h| && h[i + 1] == OnDraw
  }

  /** The call order: one OnDraw per iteration, at most one OnUpdate per
      iteration and always just before that iteration's OnDraw, never OnLoad. */
  lemma {:induction false} RunCallOrder(s: LoopState, clockReadings: seq<int>)
    ensures var h := Run(s, clockReadings).1;
            && multiset(h)[OnDraw] == |clockReadings|
            && multiset(h)[OnUpdate] <= |clockReadings|
            && multiset(h)[OnLoad] == 0
            && UpdateThenDraw(h)
            && (clockReadings != [] ==> h[|h| - 1] == OnDraw)
  {
    if clockReadings != [] {
      var prefix := clockReadings[..|clockReadings| - 1];
      RunCallOrder(s, prefix);
      var before := Run(s, prefix);
      var last := Iterate(before.0, clockReadings[|clockReadings| - 1]);
      var h := before.1 + last.1;
      assert h == Run(s, clockReadings).1;
      assert multiset(h) == multiset(before.1) + multiset(last.1);
      assert multiset(last.1)[OnDraw] == 1 && multiset(last.1)[OnUpdate] <= 1 && multiset(last.1)[OnLoad] == 0;
      forall i | 0 <= i < |h| && h[i] == OnUpdate
        ensures i + 1 < |h| && h[i + 1] == OnDraw
      {
        if i + 1 < |before.1| {
          assert before.1[i] == OnUpdate;
        }
      }
    }
  }

  /** The whole trace of a run: OnLoad first and never again. */
  lemma LoadRunsOnceFirst(s: LoopState, clockReadings: seq<int>)
    ensures var h := [OnLoad] + Run(s, clockReadings).1;
            h[0] == OnLoad && multiset(h)[OnLoad] == 1
  {
    RunCallOrder(s, clockReadings);
  }

  /** The loop starts with nothing left until the next frame, so the first
      iteration ticks whenever its delta is not negative. */
  lemma FirstIterationTicks(time: TimeState, logicFrameTime: real, clockMs: int)
    requires Advance(time, clockMs).deltaTime >= 0.0
    ensures Iterate(Start(time, logicFrameTime), clockMs).1 == [OnUpdate, OnDraw]
  {
  }

  /** A tick records the time since the previous tick and remembers the total. */
  lemma TickRecordsFrameTime(s: LoopState, clockMs: int)
    requires Iterate(s, clockMs).1 == [OnUpdate, OnDraw]
    ensures var next := Iterate(s, clockMs).0;
            && next.logicFrameTime == next.time.totalTimeElapsed - s.timeOfLastFrame
            && next.timeOfLastFrame == next.time.totalTimeElapsed
            && next.timeUntilNextFrame == LogicFramePeriod
  {
  }

  /** When the clock readings never go back, the scale is not negative and the
      time total comes from the reading before them, the time left until the
      next logic frame stays above zero and at most one period after every
      iteration. */
  lemma {:induction false} RunKeepsAccumulatorInRange(s: LoopState, previousMs: int, clockReadings: seq<int>)
    requires s.time.timeScale >= 0.0
    requires s.time.totalTimeElapsed == previousMs as real * s.time.timeScale
    requires s.timeUntilNextFrame <= LogicFramePeriod
    requires forall i :: 0 <= i < |clockReadings| ==> previousMs <= clockReadings[i]
    requires forall i, j :: 0 <= i <= j < |clockReadings| ==> clockReadings[i] <= clockReadings[j]
    ensures var next := Run(s, clockReadings).0;
            && next.time.timeScale == s.time.timeScale
            && next.timeUntilNextFrame <= LogicFramePeriod
            && (clockReadings != [] ==> 0.0 < next.timeUntilNextFrame)
            && (clockReadings != [] ==> next.time.totalTimeElapsed
                                        == clockReadings[|clockReadings| - 1] as real * s.time.timeScale)
  {
    if clockReadings != [] {
      var n := |clockReadings|;
      var prefix := clockReadings[..n - 1];
      RunKeepsAccumulatorInRange(s, previousMs, prefix);
      var before := Run(s, prefix).0;
      var earlierMs := if n == 1 then previousMs else clockReadings[n - 2];
      assert before.time.totalTimeElapsed == earlierMs as real * before.time.timeScale;
      MonotoneUnderFixedScale(before.time, earlierMs, clockReadings[n - 1]);
    }
  }

  /** The period is assigned, not added, so ticks are not caught up: from a
      fresh start, readings of 0 ms and then 64 ms (3.2 periods later) run
      one tick in each iteration, two in all. */
  lemma LongFrameRunsOneTick()
    ensures var r := Run(Start(Initial, 0.0), [0, 64]);
            && r.1 == [OnUpdate, OnDraw, OnUpdate, OnDraw]
            && r.0.timeUntilNextFrame == LogicFramePeriod
  {
    assert [0, 64][..1] == [0];
    assert [0][..0] == [];
  }
}
