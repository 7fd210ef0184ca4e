/**
 * The day/night cycle driven by the frame counter `ageCounter`: at the start
 * of every frame the flag `dayTime` is flipped when the counter, read before
 * it is incremented, is a multiple of the period.
 */
module Clock {

  /** Frames between two flips of the day/night flag. */
  const DAY_PERIOD: nat := 300

  /** The flag after one frame processed with counter value `counter`. */
  function Toggle(dayTime: bool, counter: nat): (r: bool)
    ensures r != dayTime <==> counter % DAY_PERIOD == 0
  {
    if counter % DAY_PERIOD == 0 then !dayTime else dayTime
  }

  /** The flag after `frames` frames, starting from day with the counter at 0. */
  function DayAfter(frames: nat): bool {
    if frames == 0 then true else Toggle(DayAfter(frames - 1), frames - 1)
  }

  /**
   * After the frame processed with counter `k`, it is day exactly when
   * `floor(k / 300)` is odd. The flip already happens on the very first
   * frame (counter 0), so frames 0..299 are night, 300..599 day, and so on.
   */
  lemma {:induction false} DayNightCycle(k: nat)
    ensures DayAfter(k + 1) == ((k / DAY_PERIOD) % 2 == 1)
  {
    if k > 0 {
      DayNightCycle(k - 1);
      if k % DAY_PERIOD == 0 {
        assert k / DAY_PERIOD == (k - 1) / DAY_PERIOD + 1;
      } else {
        assert k / DAY_PERIOD == (k - 1) / DAY_PERIOD;
      }
    }
  }

  /** The very first frame is night. */
  lemma FirstFrameIsNight()
    ensures !DayAfter(1)
  {
  }
}
