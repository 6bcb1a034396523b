# Sonic Taskbar Runner — cursor-follow controller

This project models the core of the Sonic Taskbar Runner desktop overlay (`sonic.py`). The overlay is a
borderless window that runs along the bottom of the screen under the mouse cursor. On every 30 ms
timer tick the `SonicPet` widget does four things:

- it compares the cursor's x with the previous sample;
- it flips the sprite to face the direction of a nonzero movement;
- it binds the run animation on a fast tick, or advances an idle-cooldown counter on a slow tick and
  binds the idle animation once the counter reaches 600;
- it moves the window to the bottom of the screen's available area, centred on the cursor and clamped
  to the screen.

Modules:

- `Geometry` (`geometry.dfy`): the pure placement rule. `TargetX` is the clamped x and `TargetY` the
  y offset. Both the startup snap and the per-tick follow use them.
- `Cooldown` (`cooldown.dfy`): the constants (`POLL_MS`, `IDLE_AFTER_MS`, `SPEED_THRESHOLD`), the
  fast-tick test and the counter's advance with its sentinel, plus lemmas on its exact timing.
- `Pet` (`pet.dfy`): `PetState`, the controller's state as a value, and the tick as a function of it
  (`Select`, `Resync`, `Face`, `Pace`, `Follow`, `Step`, `Steps`, `Init`). It also holds the class
  `SonicPet`, whose fields are updated in place by `Tick`, `PlayRun`, `PlayIdle`, `ResizeToMovie` and
  `FollowBottom`. Each method's postcondition equates the new `State()` with the matching function of
  the old state. `Tick` also keeps the object invariant `Valid()`.
- `PetProperties` (`pet_properties.dfy`): lemmas about single ticks and runs of ticks.

`SPEED_THRESHOLD` is the float 6.0 in the source, but the displacement is an integer. So
`abs(dx) > 6.0` is exactly `|dx| > 6`, and the model uses integers throughout. Python integers are
unbounded, and so are Dafny's. Python's `//` on the non-negative window width is Dafny's `/`.

The state holds the fields the source keeps:

- `lastX`: `_last_cursor_pos.x()`.
- `counter`: `_last_movement_ts`.
- `mirrored`: `label.mirrored`.
- `bound`: the label's current movie, `None`, `Run` or `Idle`.
- `enabled`: `_enabled`.
- `width`, `height`: the window size.
- `winX`, `winY`: the window position.
- `starts`: a model-only count of the calls that bind a movie and call its `start()`. It makes the
  "already bound or missing ⇒ skip" rule observable. It counts calls, not restarts of the animation:
  `start()` does nothing to a movie that is already playing.

`hasRun` and `hasIdle` say which movie files exist. They are fixed at construction.

The host supplies three inputs on every tick:

- the cursor x;
- the available rectangle of the screen under the cursor, as `Screen(left, right, bottom)`;
- the bound movie's current frame, as `Frame`: no frame, or its size.

Three consequences of the code:

- With no idle file, no movie is bound at startup (sonic.py:59-61). None is bound until a fast tick
  binds the run movie, if that file exists (sonic.py:105-108).
- The window x lies in `[left, right - width]` only when the window fits on the screen. Otherwise the
  clamp yields `left` (sonic.py:169).
- Because of the sentinel (sonic.py:155-156), the idle movie is first selected on exactly the 21st
  consecutive slow tick after a reset, not the 20th.

## Model

| member | source | states |
|---|---|---|
| Geometry.TargetX | sonic.py:168-169 | The window x is never left of the screen and never past `right - width` when the window fits. It is the cursor-centred x when that fits, `left` when the centred x is left of the screen or the window is wider than the screen, and `right - width` when the centred x is past it. |
| Geometry.TargetY | sonic.py:170 | The window's lower edge sits `BOTTOM_MARGIN` (6) pixels above the available bottom. |
| Cooldown.Advance | sonic.py:155-158 | A slow tick always raises the counter. It yields 1 exactly from 0, and otherwise adds exactly `POLL_MS` (30). |
| Cooldown.AdvanceOnSchedule | sonic.py:155-158 | The counter only takes the values 0 or 1 modulo 30, and a slow tick keeps it that way. |
| Cooldown.AfterSlowStarted | sonic.py:155-158 | From a nonzero counter, n slow ticks add exactly `30 * n`. |
| Cooldown.AfterSlowFromReset | sonic.py:155-158 | n ≥ 1 slow ticks from a reset counter leave it at `1 + 30 * (n - 1)`. |
| Cooldown.IdleThresholdTick | sonic.py:155-160 | From a reset counter, after n slow ticks (any n, including 0) the counter is at least 600 iff n ≥ 21. |
| Cooldown.StaysPastThreshold | sonic.py:157-160 | Once the counter is ≥ 600, further slow ticks keep it ≥ 600. |
| Pet.Select | sonic.py:105-113 | Playing a movie binds it iff it loaded. It calls `start()` (one more start) only when the movie loaded and was not already bound. Nothing else changes. |
| Pet.Resync | sonic.py:115-121 | The size re-sync: the window takes the frame size when a movie is bound and its frame is not null, and is otherwise unchanged. |
| Pet.Face | sonic.py:147-148 | The facing update: a nonzero displacement sets `mirrored` to `dx < 0`, and a zero one keeps it. |
| Pet.Pace | sonic.py:151-160 | The counter and movie update: a fast tick resets the counter and plays run; a slow tick advances the counter and plays idle once it is at least 600. |
| Pet.Follow | sonic.py:165-171 | The window position: `(TargetX, TargetY)` for the cursor, the current size and the screen. |
| Pet.Step | sonic.py:138-163 | One tick: the re-sync, then (only when enabled) the facing, the pacing, the follow and remembering the cursor, in that order. |
| Pet.Steps | sonic.py:67-69 | The timer re-invoking the tick: a run of samples applied oldest first. |
| Pet.Init | sonic.py:50-73 | The startup state: cursor sample, counter 0, not mirrored, enabled, idle bound and started iff it loaded, then the re-sync and the snap. |
| Cooldown.IsFast | sonic.py:145-151 | A tick is fast iff `|dx| > 6`, which is `abs(dx) > 6.0` on integer displacements. |
| Pet.StepConsistent | sonic.py:105-113 | A tick never binds a movie whose file is missing, and it keeps the counter on schedule. |
| Pet.SonicPet.constructor | sonic.py:50-73 | The initial state is `Init`: the cursor sample, counter 0, enabled, not mirrored, the idle movie bound and started iff it loaded, the size re-synced, and the window snapped under the cursor. The object invariant holds. |
| Pet.SonicPet.PlayRun | sonic.py:105-108 | The new state is `Select(old state, Run, hasRun)`. |
| Pet.SonicPet.PlayIdle | sonic.py:110-113 | The new state is `Select(old state, Idle, hasIdle)`. |
| Pet.SonicPet.ResizeToMovie | sonic.py:115-121 | The window takes the frame size only when a movie is bound and its frame is not null. Nothing else changes. |
| Pet.SonicPet.FollowBottom | sonic.py:165-171 | The window moves to `(TargetX, TargetY)` for the cursor and screen. This same method is the startup snap of sonic.py:130-136. |
| Pet.SonicPet.Pacing | sonic.py:151-160 | The counter and movie part of a tick: the new state is `Pace(old state, dx)`. |
| Pet.SonicPet.Tick | sonic.py:138-163 | The new state is `Step(old state, sample)`. An enabled tick remembers the cursor sample. A disabled tick only re-syncs the size. The object invariant (only loaded movies are bound, counter on schedule) is preserved. |
| PetProperties.SelectIdempotent | sonic.py:105-113 | Playing the same movie twice is the same as playing it once. |
| PetProperties.SelectNoOp | sonic.py:105-113 | Playing a movie changes nothing exactly when the file is missing or the movie is already bound. |
| PetProperties.DisabledTick | sonic.py:139-141 | When disabled, a tick leaves `lastX`, `counter`, `mirrored`, the bound movie, its starts and the window position untouched. It only re-syncs the size. |
| PetProperties.TickDirection | sonic.py:144-149 | After an enabled tick, `mirrored == (dx < 0)` if `dx != 0`, and `mirrored` is unchanged if `dx == 0`. |
| PetProperties.FastTick | sonic.py:151-153 | On a tick with `|dx| > 6` the counter becomes 0. The run movie is bound if it loaded, and otherwise the bound movie is unchanged. Its `start()` is called only if it was not already bound. |
| PetProperties.SlowTick | sonic.py:154-160 | On a tick with `|dx| <= 6` the counter goes from 0 to 1, or otherwise grows by 30. A slow tick binds idle iff the new counter is ≥ 600 and idle loaded; otherwise the bound movie is unchanged (so an idle movie bound at startup stays bound). Idle's `start()` is called only if it was not already bound. |
| PetProperties.TickPosition | sonic.py:139-171 | After an enabled tick the size is the re-synced frame size and `winX >= left`. When the window fits, `left <= winX <= right - width`, for any cursor x. `winY == bottom - height - 6`, and `lastX` is the new cursor x. |
| PetProperties.InitState | sonic.py:56-72 | Startup: counter 0, enabled, not mirrored, `lastX` the cursor x, `bound == Idle` iff the idle file exists (else `None`), consistent, and the window clamped at the bottom: `winX >= left`, `winX <= right - width` when the window fits, and `winY == bottom - height - 6`. |
| PetProperties.StepsConsistent | sonic.py:105-113 | Over any run of ticks, only loaded movies are ever bound. |
| PetProperties.NoAssetsStaysBlank | sonic.py:56-61 | With both files missing and nothing bound, `bound` stays `None` through any run of ticks. |
| PetProperties.StepsEnabled | sonic.py:65 | No tick changes `enabled`. |
| PetProperties.StepsLastX | sonic.py:163 | When enabled, after a run of ticks `lastX` is the newest cursor sample. |
| PetProperties.DisabledSteps | sonic.py:139-141 | When disabled, any run of ticks changes nothing but the size. |
| PetProperties.FacingAfter | sonic.py:147-148 | After any run of enabled ticks, `mirrored` is true iff the most recent nonzero displacement was negative. It keeps its prior value if there was none. |
| PetProperties.FacingStill | sonic.py:147 | A cursor held still never changes the facing. |
| PetProperties.SlowTicksStarted | sonic.py:155-160 | From a nonzero counter, n slow ticks add exactly `30 * n`. When the run is nonempty, the final counter is ≥ 600 and idle loaded, the idle movie ends bound; its `start()` is called once if it was not already bound, and not at all if it was. Otherwise the bound movie and the start count are unchanged. |
| PetProperties.SlowStepsCounter | sonic.py:155-158 | Over a run of slow ticks the controller's counter is `AfterSlow(counter, n)`, the cooldown counter after n slow ticks. |
| PetProperties.IdleTiming | sonic.py:155-160 | From a reset counter, n ≥ 1 slow ticks give counter `1 + 30 * (n - 1)`. If idle loaded, it becomes bound on the 21st slow tick and stays bound; before the 21st tick, or without the idle file, the bound movie is unchanged. |
| PetProperties.EndsFast | sonic.py:151-153 | When the run file exists, a run whose newest tick is fast ends, whatever came before, with the counter at 0 and the run movie bound. |
| PetProperties.Scenario | sonic.py:138-163 | Cursor 100 → 120: runs facing right. Then → 90: runs facing left, counter 0. After 20 still ticks: still running, facing left, counter 571. On the 21st still tick: idle, still facing left. |

## Left out

- Painting (`MirrorMovieLabel.paintEvent`, sonic.py:32-46): QPainter rendering and the mirror transform. The model keeps only the `mirrored` flag that painting reads. The `label.update()` repaint request is not modelled.
- Asset loading and scaling (`_load_movie`, `_load_idle_still`, `_scaled_size`, sonic.py:75-100): decoding and the float `SCALE_FACTOR` 0.7. Existence of the files becomes the booleans `hasRun`/`hasIdle`, and frame sizes are inputs (`Frame`).
- Screen lookup (`_screen_for_cursor`, sonic.py:123-128), including the primary-screen fallback: a host call. Its result's available rectangle is the `Screen` input. The model assumes a screen is always found: if `primaryScreen()` returned none, `availableGeometry()` would raise (sonic.py:166-167), so that tick would stop after the counter, facing and movie were updated but before the cursor is remembered (sonic.py:163). The model does not capture that path. The model takes `right` and `bottom` as the host reports them (in Qt these are inclusive pixel coordinates) and does not model that convention.
- Cursor queries (`QCursor.pos()`): the cursor x is an input. The constructor uses one cursor sample for both the remembered position (sonic.py:63) and the startup snap (sonic.py:133), which the source reads separately.
- The widget's size before the first re-sync is a host default. It is the constructor input `w0`, `h0`.
- Timer scheduling, `QApplication` and `main` (sonic.py:67-69, 174-178): the model is the caller invoking `Tick` repeatedly (`Steps` over a sequence of samples). There is no concurrency.
- The cursor y is never used by the controller and is not modelled.
- `enabled` is only ever set to true in the source. The model keeps the field and the disabled branch of the tick, but has no operation that clears it, because the source has none.
