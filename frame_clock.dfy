/**
 * The frame clock: three 64-bit microsecond timestamps (the first frame,
 * the previous frame and the current frame), all 0 until the first frame
 * is marked. The wall clock is a parameter: each call passes the reading
 * `current_usec_time` would take.
 */
module FrameClock {
  const USEC_PER_SEC: nat := 1000000
  const TWO_64: nat := 0x1_0000_0000_0000_0000

  type U64 = n: int | 0 <= n < TWO_64

  /** uint64 subtraction, which wraps around below zero. */
  function Sub64(a: U64, b: U64): (r: U64)
    ensures b <= a ==> r == a - b
    ensures a < b ==> r == a - b + TWO_64
  {
    (a - b) % TWO_64
  }

  /**
   * `current_usec_time`: seconds and microseconds of a timeval combined
   * in uint64 arithmetic, which wraps modulo 2^64.
   */
  function CurrentUsecTime(sec: nat, usec: nat): (r: U64)
    ensures USEC_PER_SEC * sec + usec < TWO_64 ==> r == USEC_PER_SEC * sec + usec
    ensures (r - (USEC_PER_SEC * sec + usec)) % TWO_64 == 0
  {
    (USEC_PER_SEC * sec + usec) % TWO_64
  }

  /** Two readings within one second are ordered by their microseconds; a later second reads later. */
  lemma CurrentUsecTimeMonotone(sec1: nat, usec1: nat, sec2: nat, usec2: nat)
    requires usec1 < USEC_PER_SEC && usec2 < USEC_PER_SEC
    requires sec1 < sec2 || (sec1 == sec2 && usec1 <= usec2)
    requires USEC_PER_SEC * sec2 + usec2 < TWO_64
    ensures CurrentUsecTime(sec1, usec1) <= CurrentUsecTime(sec2, usec2)
  {
    if sec1 < sec2 {
      assert USEC_PER_SEC * sec1 + USEC_PER_SEC <= USEC_PER_SEC * sec2;
    }
  }

  class Clock {
    var first: U64
    var last: U64
    var current: U64

    /**
     * What holds for every reachable state when the wall clock never goes
     * back: the three stamps are ordered, and `first` is still 0 only if
     * every reading so far was 0.
     */
    ghost predicate Valid()
      reads this
    {
      first <= last <= current && (first == 0 ==> current == 0)
    }

    /** The three globals start at 0. */
    constructor ()
      ensures first == 0 && last == 0 && current == 0
      ensures Valid()
    {
      first, last, current := 0, 0, 0;
    }

    /**
     * `mark_frame_beginning`: a zero `first` takes the new reading; a zero
     * `last` makes both `last` and `current` the new reading; otherwise the
     * old `current` becomes `last` and the reading becomes `current`.
     */
    method MarkFrameBeginning(now: U64)
      modifies this
      ensures first == if old(first) == 0 then now else old(first)
      ensures old(last) == 0 ==> last == now && current == now
      ensures old(last) != 0 ==> last == old(current) && current == now
    {
      if first == 0 {
        first := now;
      }
      if last == 0 {
        last, current := now, now;
      } else {
        last, current := current, now;
      }
    }

    /**
     * With a clock that does not go back, marking a frame keeps the stamps
     * ordered and the time since the first frame never decreases.
     */
    method MarkFrameMonotone(now: U64)
      requires Valid() && current <= now
      modifies this
      ensures Valid()
      ensures current == now
      ensures old(FrameUsecTime()) <= FrameUsecTime()
    {
      MarkFrameBeginning(now);
    }

    /** `frame_usec_time`: microseconds from the first frame to the current one. */
    function FrameUsecTime(): (r: U64)
      reads this
      ensures first <= current ==> r == current - first
      ensures first == 0 ==> r == current
    {
      Sub64(current, first)
    }

    /** The numerator of `delta_time`: microseconds from the previous frame to the current one. */
    function DeltaUsecTime(): (r: U64)
      reads this
      ensures last <= current ==> r == current - last
      ensures current < last ==> r > current
    {
      Sub64(current, last)
    }
  }

  /** The first mark sets all three stamps to the reading, so both spans are 0 right after it. */
  method FirstFrame(now: U64) returns (frameUsec: U64, deltaUsec: U64)
    ensures frameUsec == 0 && deltaUsec == 0
  {
    var clock := new Clock();
    clock.MarkFrameBeginning(now);
    frameUsec := clock.FrameUsecTime();
    deltaUsec := clock.DeltaUsecTime();
  }

  /** A second mark at a later reading: `last` is the first reading and both spans are the gap. */
  method SecondFrame(t1: U64, t2: U64) returns (frameUsec: U64, deltaUsec: U64)
    requires 0 < t1 <= t2
    ensures frameUsec == t2 - t1 && deltaUsec == t2 - t1
  {
    var clock := new Clock();
    clock.MarkFrameBeginning(t1);
    clock.MarkFrameBeginning(t2);
    frameUsec := clock.FrameUsecTime();
    deltaUsec := clock.DeltaUsecTime();
  }
}
