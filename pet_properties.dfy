// What the cursor-follow controller promises, one tick at a time and over runs of ticks.

module PetProperties {
  import opened Geometry
  import opened Cooldown
  import opened Pet

  // ---------------------------------------------------------------------------
  // Movie selection
  // ---------------------------------------------------------------------------

  /** Selecting a movie twice is selecting it once: the second call binds nothing and calls no start. */
  lemma SelectIdempotent(v: PetState, target: Movie, available: bool)
    ensures Select(Select(v, target, available), target, available) == Select(v, target, available)
  {
  }

  /** Selection leaves the state alone exactly when the movie is missing or already bound. */
  lemma SelectNoOp(v: PetState, target: Movie, available: bool)
    ensures Select(v, target, available) == v <==> !available || v.bound == target
  {
  }

  // ---------------------------------------------------------------------------
  // One tick
  // ---------------------------------------------------------------------------

  /** A disabled tick only re-syncs the size; cursor, counter, facing, movie and window stay. */
  lemma DisabledTick(v: PetState, hasRun: bool, hasIdle: bool, s: Sample)
    requires !v.enabled
    ensures var r := Step(v, hasRun, hasIdle, s);
      r.lastX == v.lastX && r.counter == v.counter && r.mirrored == v.mirrored &&
      r.bound == v.bound && r.starts == v.starts && r.winX == v.winX && r.winY == v.winY &&
      !r.enabled &&
      (r.width, r.height) == (if v.bound != None && s.frame.FrameSize? then (s.frame.w, s.frame.h)
                              else (v.width, v.height))
  {
  }

  /** Facing follows the sign of a nonzero displacement and is sticky on a zero one. */
  lemma TickDirection(v: PetState, hasRun: bool, hasIdle: bool, s: Sample)
    requires v.enabled
    ensures var dx := s.curX - v.lastX;
      Step(v, hasRun, hasIdle, s).mirrored == if dx != 0 then dx < 0 else v.mirrored
  {
  }

  /** A fast tick resets the counter and selects the run movie if it loaded. */
  lemma FastTick(v: PetState, hasRun: bool, hasIdle: bool, s: Sample)
    requires v.enabled && IsFast(s.curX - v.lastX)
    ensures var r := Step(v, hasRun, hasIdle, s);
      r.counter == 0 &&
      r.bound == (if hasRun then Run else v.bound) &&
      r.starts == v.starts + (if hasRun && v.bound != Run then 1 else 0)
  {
  }

  /** A slow tick moves the counter from 0 to the sentinel 1, otherwise by one poll period,
      and selects the idle movie, if it loaded, once the counter is at the threshold. */
  lemma SlowTick(v: PetState, hasRun: bool, hasIdle: bool, s: Sample)
    requires v.enabled && !IsFast(s.curX - v.lastX)
    ensures var r := Step(v, hasRun, hasIdle, s);
      r.counter == (if v.counter == 0 then 1 else v.counter + POLL_MS) &&
      r.bound == (if r.counter >= IDLE_AFTER_MS && hasIdle then Idle else v.bound) &&
      r.starts == v.starts + (if r.counter >= IDLE_AFTER_MS && hasIdle && v.bound != Idle then 1 else 0)
  {
  }

  /** After an enabled tick the window is clamped to the screen under the cursor and sits
      BOTTOM_MARGIN above its available bottom, and the cursor sample is remembered. */
  lemma TickPosition(v: PetState, hasRun: bool, hasIdle: bool, s: Sample)
    requires v.enabled
    ensures var r := Step(v, hasRun, hasIdle, s);
      r.enabled && r.lastX == s.curX &&
      r.width == (if v.bound != None && s.frame.FrameSize? then s.frame.w else v.width) &&
      r.height == (if v.bound != None && s.frame.FrameSize? then s.frame.h else v.height) &&
      r.winX >= s.screen.left &&
      (s.screen.right - r.width >= s.screen.left ==>
         s.screen.left <= r.winX <= s.screen.right - r.width) &&
      r.winY == s.screen.bottom - r.height - BOTTOM_MARGIN
  {
  }

  /** Startup state: reset counter, enabled, facing right, and the idle movie bound iff it loaded. */
  lemma InitState(hasRun: bool, hasIdle: bool, cursorX: int, screen: Screen,
                  w0: nat, h0: nat, frame: Frame)
    ensures var r := Init(hasRun, hasIdle, cursorX, screen, w0, h0, frame);
      r.counter == 0 && r.enabled && !r.mirrored && r.lastX == cursorX &&
      (r.bound == Idle <==> hasIdle) && (r.bound == None <==> !hasIdle) &&
      Consistent(r, hasRun, hasIdle) &&
      r.winX >= screen.left &&
      (screen.right - r.width >= screen.left ==> r.winX <= screen.right - r.width) &&
      r.winY == screen.bottom - r.height - BOTTOM_MARGIN
  {
  }

  // ---------------------------------------------------------------------------
  // Runs of ticks
  // ---------------------------------------------------------------------------

  /** Every step of a run keeps the movie consistent with what loaded. */
  lemma {:induction false} StepsConsistent(v: PetState, hasRun: bool, hasIdle: bool, ts: seq<Sample>)
    requires Consistent(v, hasRun, hasIdle)
    ensures Consistent(Steps(v, hasRun, hasIdle, ts), hasRun, hasIdle)
    decreases |ts|
  {
    if ts != [] {
      StepConsistent(v, hasRun, hasIdle, ts[0]);
      StepsConsistent(Step(v, hasRun, hasIdle, ts[0]), hasRun, hasIdle, ts[1..]);
    }
  }

  /** With both movie files missing and nothing bound, nothing is ever bound. */
  lemma {:induction false} NoAssetsStaysBlank(v: PetState, ts: seq<Sample>)
    requires v.bound == None
    ensures Steps(v, false, false, ts).bound == None
    decreases |ts|
  {
    if ts != [] {
      NoAssetsStaysBlank(Step(v, false, false, ts[0]), ts[1..]);
    }
  }

  /** Ticks neither enable nor disable the controller. */
  lemma {:induction false} StepsEnabled(v: PetState, hasRun: bool, hasIdle: bool, ts: seq<Sample>)
    ensures Steps(v, hasRun, hasIdle, ts).enabled == v.enabled
    decreases |ts|
  {
    if ts != [] {
      StepsEnabled(Step(v, hasRun, hasIdle, ts[0]), hasRun, hasIdle, ts[1..]);
    }
  }

  /** A run of ticks followed by one more tick. */
  lemma {:induction false} StepsSnoc(v: PetState, hasRun: bool, hasIdle: bool, ts: seq<Sample>, t: Sample)
    ensures Steps(v, hasRun, hasIdle, ts + [t]) == Step(Steps(v, hasRun, hasIdle, ts), hasRun, hasIdle, t)
    decreases |ts|
  {
    if ts == [] {
      assert ts + [t] == [t];
    } else {
      assert (ts + [t])[1..] == ts[1..] + [t];
      StepsSnoc(Step(v, hasRun, hasIdle, ts[0]), hasRun, hasIdle, ts[1..], t);
    }
  }

  /** Two runs of ticks one after the other. */
  lemma {:induction false} StepsAppend(v: PetState, hasRun: bool, hasIdle: bool, a: seq<Sample>, b: seq<Sample>)
    ensures Steps(v, hasRun, hasIdle, a + b) == Steps(Steps(v, hasRun, hasIdle, a), hasRun, hasIdle, b)
    decreases |a|
  {
    if a == [] {
      assert a + b == b;
    } else {
      assert (a + b)[1..] == a[1..] + b;
      StepsAppend(Step(v, hasRun, hasIdle, a[0]), hasRun, hasIdle, a[1..], b);
    }
  }

  /** An enabled controller remembers the newest cursor sample. */
  lemma {:induction false} StepsLastX(v: PetState, hasRun: bool, hasIdle: bool, ts: seq<Sample>)
    requires v.enabled
    ensures Steps(v, hasRun, hasIdle, ts).lastX == if ts == [] then v.lastX else ts[|ts| - 1].curX
    decreases |ts|
  {
    if ts != [] {
      StepsLastX(Step(v, hasRun, hasIdle, ts[0]), hasRun, hasIdle, ts[1..]);
    }
  }

  /** A disabled controller keeps everything but its size through any run of ticks. */
  lemma {:induction false} DisabledSteps(v: PetState, hasRun: bool, hasIdle: bool, ts: seq<Sample>)
    requires !v.enabled
    ensures Steps(v, hasRun, hasIdle, ts).(width := v.width, height := v.height) == v
    decreases |ts|
  {
    if ts != [] {
      var v1 := Step(v, hasRun, hasIdle, ts[0]);
      DisabledSteps(v1, hasRun, hasIdle, ts[1..]);
      assert Steps(v, hasRun, hasIdle, ts).(width := v1.width, height := v1.height) == v1;
    }
  }

  /** The direction of the most recent nonzero displacement in a run starting from cursor
      x0, newest sample first; `m` if the cursor never moved horizontally. */
  function Facing(x0: int, ts: seq<Sample>, m: bool): bool
    decreases |ts|
  {
    if ts == [] then m
    else
      var prev := if |ts| == 1 then x0 else ts[|ts| - 2].curX;
      var dx := ts[|ts| - 1].curX - prev;
      if dx != 0 then dx < 0 else Facing(x0, ts[..|ts| - 1], m)
  }

  /** The mirrored flag is exactly "the most recent nonzero displacement was leftwards". */
  lemma {:induction false} FacingAfter(v: PetState, hasRun: bool, hasIdle: bool, ts: seq<Sample>)
    requires v.enabled
    ensures Steps(v, hasRun, hasIdle, ts).mirrored == Facing(v.lastX, ts, v.mirrored)
    decreases |ts|
  {
    if ts != [] {
      var init, t := ts[..|ts| - 1], ts[|ts| - 1];
      assert ts == init + [t];
      StepsSnoc(v, hasRun, hasIdle, init, t);
      StepsEnabled(v, hasRun, hasIdle, init);
      StepsLastX(v, hasRun, hasIdle, init);
      FacingAfter(v, hasRun, hasIdle, init);
      TickDirection(Steps(v, hasRun, hasIdle, init), hasRun, hasIdle, t);
    }
  }

  /** A cursor held still keeps the facing it had. */
  lemma {:induction false} FacingStill(x0: int, ts: seq<Sample>, m: bool)
    requires forall i :: 0 <= i < |ts| ==> ts[i].curX == x0
    ensures Facing(x0, ts, m) == m
    decreases |ts|
  {
    if ts != [] {
      FacingStill(x0, ts[..|ts| - 1], m);
    }
  }

  /** Whether each sample of a run, starting from cursor x0, is a slow tick. */
  predicate SlowSamples(x0: int, ts: seq<Sample>)
    decreases |ts|
  {
    ts == [] || (!IsFast(ts[0].curX - x0) && SlowSamples(ts[0].curX, ts[1..]))
  }

  /** Slow ticks from a started counter: each adds one poll period, and the idle movie is
      selected (once) when the counter has reached the threshold. */
  lemma {:induction false} SlowTicksStarted(v: PetState, hasRun: bool, hasIdle: bool, ts: seq<Sample>)
    requires v.enabled && v.counter >= 1 && SlowSamples(v.lastX, ts)
    ensures var r := Steps(v, hasRun, hasIdle, ts);
      var idle := ts != [] && r.counter >= IDLE_AFTER_MS && hasIdle;
      r.counter == v.counter + POLL_MS * |ts| &&
      r.bound == (if idle then Idle else v.bound) &&
      r.starts == v.starts + (if idle && v.bound != Idle then 1 else 0)
    decreases |ts|
  {
    if ts != [] {
      var v1 := Step(v, hasRun, hasIdle, ts[0]);
      SlowTick(v, hasRun, hasIdle, ts[0]);
      TickPosition(v, hasRun, hasIdle, ts[0]);
      SlowTicksStarted(v1, hasRun, hasIdle, ts[1..]);
    }
  }

  /** Over slow ticks the controller's counter is the cooldown counter after that many slow ticks. */
  lemma {:induction false} SlowStepsCounter(v: PetState, hasRun: bool, hasIdle: bool, ts: seq<Sample>)
    requires v.enabled && SlowSamples(v.lastX, ts)
    ensures Steps(v, hasRun, hasIdle, ts).counter == AfterSlow(v.counter, |ts|)
    decreases |ts|
  {
    if ts != [] {
      SlowTick(v, hasRun, hasIdle, ts[0]);
      TickPosition(v, hasRun, hasIdle, ts[0]);
      SlowStepsCounter(Step(v, hasRun, hasIdle, ts[0]), hasRun, hasIdle, ts[1..]);
    }
  }

  /** Exact idle timing: after n >= 1 slow ticks from a reset counter the counter is
      1 + POLL_MS * (n - 1), and the idle movie is bound (if it loaded) from the 21st tick
      on and not before. */
  lemma {:induction false} IdleTiming(v: PetState, hasRun: bool, hasIdle: bool, ts: seq<Sample>)
    requires v.enabled && v.counter == 0 && SlowSamples(v.lastX, ts) && ts != []
    ensures var r := Steps(v, hasRun, hasIdle, ts);
      r.counter == 1 + POLL_MS * (|ts| - 1) &&
      r.bound == (if |ts| >= 21 && hasIdle then Idle else v.bound)
  {
    SlowStepsCounter(v, hasRun, hasIdle, ts);
    AfterSlowFromReset(|ts|);
    IdleThresholdTick(|ts|);
    var v1 := Step(v, hasRun, hasIdle, ts[0]);
    SlowTick(v, hasRun, hasIdle, ts[0]);
    TickPosition(v, hasRun, hasIdle, ts[0]);
    SlowTicksStarted(v1, hasRun, hasIdle, ts[1..]);
  }

  /** A run whose newest tick is fast ends with the counter reset and the run movie bound. */
  lemma {:induction false} EndsFast(v: PetState, hasIdle: bool, ts: seq<Sample>)
    requires v.enabled && ts != []
    requires IsFast(ts[|ts| - 1].curX - (if |ts| == 1 then v.lastX else ts[|ts| - 2].curX))
    ensures Steps(v, true, hasIdle, ts).bound == Run
    ensures Steps(v, true, hasIdle, ts).counter == 0
  {
    var init, t := ts[..|ts| - 1], ts[|ts| - 1];
    assert ts == init + [t];
    StepsSnoc(v, true, hasIdle, init, t);
    StepsEnabled(v, true, hasIdle, init);
    StepsLastX(v, true, hasIdle, init);
    FastTick(Steps(v, true, hasIdle, init), true, hasIdle, t);
  }

  /** `n` ticks with the cursor held at x. */
  function Still(x: int, screen: Screen, frame: Frame, n: nat): (ts: seq<Sample>)
    ensures |ts| == n && forall i :: 0 <= i < n ==> ts[i] == Sample(x, screen, frame)
  {
    seq(n, _ => Sample(x, screen, frame))
  }

  lemma {:induction false} StillIsSlow(x: int, screen: Screen, frame: Frame, n: nat)
    ensures SlowSamples(x, Still(x, screen, frame, n))
    decreases n
  {
    if n > 0 {
      assert Still(x, screen, frame, n)[1..] == Still(x, screen, frame, n - 1);
      StillIsSlow(x, screen, frame, n - 1);
    }
  }

  /** The cursor moves right from 100 to 120, then left to 90, then stays at 90: the run
      movie plays facing right, then facing left, and the idle movie takes over on the
      21st still tick, still facing left. */
  lemma Scenario(v: PetState, screen: Screen, frame: Frame)
    requires v.enabled && v.lastX == 100
    ensures var r := Steps(v, true, true, [Sample(120, screen, frame)]);
      r.bound == Run && !r.mirrored
    ensures var r := Steps(v, true, true, [Sample(120, screen, frame), Sample(90, screen, frame)]);
      r.bound == Run && r.mirrored && r.counter == 0
    ensures var r := Steps(v, true, true, [Sample(120, screen, frame), Sample(90, screen, frame)]
                                          + Still(90, screen, frame, 20));
      r.bound == Run && r.mirrored && r.counter == 571
    ensures var r := Steps(v, true, true, [Sample(120, screen, frame), Sample(90, screen, frame)]
                                          + Still(90, screen, frame, 21));
      r.bound == Idle && r.mirrored
  {
    var a := [Sample(120, screen, frame), Sample(90, screen, frame)];
    var w := Steps(v, true, true, a);
    assert Steps(v, true, true, [Sample(120, screen, frame)]) == Step(v, true, true, a[0]);
    assert a[1..] == [a[1]];
    StepsSnoc(v, true, true, [a[0]], a[1]);
    assert [a[0]] + [a[1]] == a;
    forall n: nat | n == 20 || n == 21
      ensures var r := Steps(v, true, true, a + Still(90, screen, frame, n));
        r.bound == (if n == 21 then Idle else Run) && r.mirrored &&
        (n == 20 ==> r.counter == 571)
    {
      var ts := Still(90, screen, frame, n);
      StepsAppend(v, true, true, a, ts);
      StillIsSlow(90, screen, frame, n);
      IdleTiming(w, true, true, ts);
      FacingAfter(w, true, true, ts);
      FacingStill(90, ts, true);
    }
  }
}
