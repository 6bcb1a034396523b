// The idle-cooldown counter of the cursor follower and its timing constants.

module Cooldown {

  /** Period of the polling timer, in milliseconds. */
  const POLL_MS: nat := 30
  /** Counter value from which a slow tick selects the idle animation. */
  const IDLE_AFTER_MS: nat := 600
  /** Largest horizontal displacement per tick that still counts as slow, in pixels. */
  const SPEED_THRESHOLD: nat := 6

  function Abs(x: int): nat { if x < 0 then -x else x }

  /** A tick is fast when the cursor moved more than the threshold horizontally.
      The threshold is the float 6.0 and the displacement an integer, so the
      comparison is exactly |dx| > 6. */
  predicate IsFast(dx: int) {
    Abs(dx) > SPEED_THRESHOLD
  }

  /** The counter after one slow tick: a counter at zero starts at the sentinel 1,
      any other value grows by one poll period. */
  function Advance(c: nat): (r: nat)
    ensures r > c
    ensures c == 0 <==> r == 1
    ensures c != 0 ==> r - c == POLL_MS
  {
    if c == 0 then 1 else c + POLL_MS
  }

  /** The counter after n consecutive slow ticks. */
  function AfterSlow(c: nat, n: nat): nat
    decreases n
  {
    if n == 0 then c else AfterSlow(Advance(c), n - 1)
  }

  /** The values the counter can take: zero, or the sentinel plus whole poll periods. */
  predicate OnSchedule(c: nat) {
    c == 0 || c % POLL_MS == 1
  }

  lemma AdvanceOnSchedule(c: nat)
    requires OnSchedule(c)
    ensures OnSchedule(Advance(c))
  {
  }

  /** From a started counter, every slow tick adds exactly one poll period. */
  lemma {:induction false} AfterSlowStarted(c: nat, n: nat)
    requires c >= 1
    ensures AfterSlow(c, n) == c + POLL_MS * n
    decreases n
  {
    if n > 0 {
      AfterSlowStarted(c + POLL_MS, n - 1);
    }
  }

  /** n >= 1 slow ticks from a reset counter leave it at 1 + POLL_MS * (n - 1). */
  lemma {:induction false} AfterSlowFromReset(n: nat)
    requires n >= 1
    ensures AfterSlow(0, n) == 1 + POLL_MS * (n - 1)
  {
    AfterSlowStarted(1, n - 1);
  }

  /** From a reset counter the idle threshold is reached on the 21st slow tick and not before. */
  lemma {:induction false} IdleThresholdTick(n: nat)
    ensures AfterSlow(0, n) >= IDLE_AFTER_MS <==> n >= 21
  {
    if n >= 1 {
      AfterSlowFromReset(n);
    }
  }

  /** Once at or past the idle threshold, further slow ticks keep the counter there. */
  lemma {:induction false} StaysPastThreshold(c: nat, n: nat)
    requires c >= IDLE_AFTER_MS
    ensures AfterSlow(c, n) >= IDLE_AFTER_MS
  {
    AfterSlowStarted(c, n);
  }
}
