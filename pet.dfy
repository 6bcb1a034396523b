// The cursor-follow controller of the sprite window: its state, one timer tick
// as a function of that state, and the object whose fields the tick updates.

module Pet {
  import opened Geometry
  import opened Cooldown

  /** The animation currently bound to the label. */
  datatype Movie = None | Run | Idle

  /** What the host reports for the bound movie's current frame: no frame (a null
      pixmap), or its pixel size. */
  datatype Frame = NoFrame | FrameSize(w: nat, h: nat)

  /** One timer tick's inputs: the cursor x, the available rectangle of the screen
      under the cursor, and the bound movie's current frame. */
  datatype Sample = Sample(curX: int, screen: Screen, frame: Frame)

  /** Everything a tick reads or writes. `starts` counts the calls that bind a movie to
      the label and call its start, so that a skipped call is visible. */
  datatype PetState = PetState(
    lastX: int,
    counter: nat,
    mirrored: bool,
    bound: Movie,
    starts: nat,
    enabled: bool,
    width: nat,
    height: nat,
    winX: int,
    winY: int)

  /** The state a tick keeps: only loaded movies are ever bound, and the counter is on schedule. */
  predicate Consistent(v: PetState, hasRun: bool, hasIdle: bool) {
    (v.bound == Run ==> hasRun) &&
    (v.bound == Idle ==> hasIdle) &&
    OnSchedule(v.counter)
  }

  /** Bind `target` and call its start unless it is missing or is already the bound movie. */
  function Select(v: PetState, target: Movie, available: bool): (r: PetState)
    ensures r.bound == if available then target else v.bound
    ensures r.starts == v.starts + (if available && v.bound != target then 1 else 0)
    ensures r.(bound := v.bound, starts := v.starts) == v
  {
    if available && v.bound != target then v.(bound := target, starts := v.starts + 1) else v
  }

  /** The size re-sync at the start of every tick: the window takes the bound
      movie's frame size, if a movie is bound and its frame is not null. */
  function Resync(v: PetState, frame: Frame): PetState {
    if v.bound != None && frame.FrameSize? then v.(width := frame.w, height := frame.h) else v
  }

  /** Move the window to the bottom of `screen`, centred on the cursor and clamped. */
  function Follow(v: PetState, cursorX: int, screen: Screen): PetState {
    v.(winX := TargetX(cursorX, v.width, screen.left, screen.right),
       winY := TargetY(screen.bottom, v.height))
  }

  /** Facing: a nonzero displacement sets `mirrored` to "moving left"; zero keeps it. */
  function Face(v: PetState, dx: int): PetState {
    if dx != 0 then v.(mirrored := dx < 0) else v
  }

  /** Pacing: a fast tick resets the counter and selects the run movie; a slow tick
      advances the counter and selects the idle movie once it reaches the threshold. */
  function Pace(v: PetState, dx: int, hasRun: bool, hasIdle: bool): PetState {
    if IsFast(dx) then Select(v.(counter := 0), Run, hasRun)
    else
      var c := Advance(v.counter);
      if c >= IDLE_AFTER_MS then Select(v.(counter := c), Idle, hasIdle)
      else v.(counter := c)
  }

  /** One timer tick. */
  function Step(v: PetState, hasRun: bool, hasIdle: bool, s: Sample): PetState {
    var v1 := Resync(v, s.frame);
    if !v1.enabled then v1
    else
      var dx := s.curX - v1.lastX;
      Follow(Pace(Face(v1, dx), dx, hasRun, hasIdle), s.curX, s.screen).(lastX := s.curX)
  }

  /** A tick never binds a movie that did not load and keeps the counter on schedule. */
  lemma StepConsistent(v: PetState, hasRun: bool, hasIdle: bool, s: Sample)
    requires Consistent(v, hasRun, hasIdle)
    ensures Consistent(Step(v, hasRun, hasIdle, s), hasRun, hasIdle)
  {
    AdvanceOnSchedule(v.counter);
  }

  /** A run of timer ticks, oldest sample first. */
  function Steps(v: PetState, hasRun: bool, hasIdle: bool, ts: seq<Sample>): PetState
    decreases |ts|
  {
    if ts == [] then v else Steps(Step(v, hasRun, hasIdle, ts[0]), hasRun, hasIdle, ts[1..])
  }

  /** The state after construction: the idle movie bound and started if it loaded,
      the window sized to its frame and snapped under the cursor. `w0` and `h0` are
      the widget's size before the first re-sync. */
  function Init(hasRun: bool, hasIdle: bool, cursorX: int, screen: Screen,
                w0: nat, h0: nat, frame: Frame): PetState
  {
    var v0 := PetState(cursorX, 0, false, if hasIdle then Idle else None,
                       if hasIdle then 1 else 0, true, w0, h0, 0, 0);
    Follow(Resync(v0, frame), cursorX, screen)
  }

  class SonicPet {
    const hasRun: bool
    const hasIdle: bool
    var lastX: int
    var counter: nat
    var mirrored: bool
    var bound: Movie
    var starts: nat
    var enabled: bool
    var width: nat
    var height: nat
    var winX: int
    var winY: int

    function State(): PetState
      reads this
    {
      PetState(lastX, counter, mirrored, bound, starts, enabled, width, height, winX, winY)
    }

    ghost predicate Valid()
      reads this
    {
      Consistent(State(), hasRun, hasIdle)
    }

    /** Startup: `hasRun` and `hasIdle` say which movie files exist. */
    constructor (hasRun: bool, hasIdle: bool, cursorX: int, screen: Screen,
                 w0: nat, h0: nat, frame: Frame)
      ensures this.hasRun == hasRun && this.hasIdle == hasIdle
      ensures State() == Init(hasRun, hasIdle, cursorX, screen, w0, h0, frame)
      ensures Valid()
    {
      this.hasRun := hasRun;
      this.hasIdle := hasIdle;
      mirrored := false;
      bound := None;
      starts := 0;
      width, height := w0, h0;
      winX, winY := 0, 0;
      new;
      if hasIdle {
        bound := Idle;
        starts := starts + 1;
      }
      lastX := cursorX;
      counter := 0;
      enabled := true;
      ResizeToMovie(frame);
      FollowBottom(cursorX, screen);
    }

    // PlayRun, PlayIdle, ResizeToMovie, FollowBottom and Pacing are steps of Tick (and of
    // the constructor); each states the whole new State(), and Tick re-establishes Valid().

    method PlayRun()
      modifies this
      ensures State() == Select(old(State()), Run, hasRun)
    {
      if hasRun && bound != Run {
        bound := Run;
        starts := starts + 1;
      }
    }

    method PlayIdle()
      modifies this
      ensures State() == Select(old(State()), Idle, hasIdle)
    {
      if hasIdle && bound != Idle {
        bound := Idle;
        starts := starts + 1;
      }
    }

    method ResizeToMovie(frame: Frame)
      modifies this
      ensures State() == Resync(old(State()), frame)
    {
      if bound != None {
        if frame.FrameSize? {
          width, height := frame.w, frame.h;
        }
      }
    }

    /** Used both for the startup snap and for the per-tick follow. */
    method FollowBottom(cursorX: int, screen: Screen)
      modifies this
      ensures State() == Follow(old(State()), cursorX, screen)
    {
      var x := cursorX - width / 2;
      x := Max(screen.left, Min(x, screen.right - width));
      var y := screen.bottom - height - BOTTOM_MARGIN;
      winX, winY := x, y;
    }

    /** The counter and movie part of a tick, for a displacement dx. */
    method Pacing(dx: int)
      modifies this
      ensures State() == Pace(old(State()), dx, hasRun, hasIdle)
    {
      if IsFast(dx) {
        counter := 0;
        PlayRun();
      } else {
        if counter == 0 {
          counter := 1;
        } else {
          counter := counter + POLL_MS;
        }
        if counter >= IDLE_AFTER_MS {
          PlayIdle();
        }
      }
    }

    method Tick(curX: int, screen: Screen, frame: Frame)
      requires Valid()
      modifies this
      ensures Valid()
      ensures State() == Step(old(State()), hasRun, hasIdle, Sample(curX, screen, frame))
      ensures old(enabled) ==> lastX == curX
      ensures !old(enabled) ==> State() == Resync(old(State()), frame)
    {
      ghost var v := State();
      ResizeToMovie(frame);
      ghost var v1 := State();
      if !enabled {
        StepConsistent(v, hasRun, hasIdle, Sample(curX, screen, frame));
        return;
      }
      var dx := curX - lastX;
      if dx != 0 {
        mirrored := dx < 0;
      }
      ghost var v2 := State();
      assert v2 == Face(v1, dx);
      Pacing(dx);
      FollowBottom(curX, screen);
      lastX := curX;
      StepConsistent(v, hasRun, hasIdle, Sample(curX, screen, frame));
    }
  }
}
