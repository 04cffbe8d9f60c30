/** The arithmetic of a game session: the level a score earns and the length
    of a round at a given level. */
module Scoring {

  /** The level for a score, `Math.floorDiv(score, 1000)`: the largest level
      whose thousand points the score reaches. Dafny's `/` is Euclidean, which
      agrees with floor division whenever the divisor is positive. */
  function LevelFor(score: int): (level: int)
    ensures 1000 * level <= score < 1000 * level + 1000
  {
    score / 1000
  }

  /** A level is never negative for a non-negative score, and a higher score
      never earns a lower level. */
  lemma LevelForMonotone(s1: int, s2: int)
    requires 0 <= s1 <= s2
    ensures 0 <= LevelFor(s1) <= LevelFor(s2)
  {
  }

  /** The points for clearing `lines` lines of `blocks` distinct blocks at
      multiplier `m`; never negative, so the score never falls by clearing. */
  lemma PointsNonNegative(lines: int, blocks: int, m: int)
    requires lines >= 0 && blocks >= 0 && m >= 0
    ensures lines * blocks * m * 10 >= 0
  {
    assert lines * blocks >= 0;
    assert lines * blocks * m >= 0;
  }

  /** The round length in milliseconds: 12000 shortened by 500 per level,
      but never below the 2500 floor. */
  function TimerDelay(level: int): (delay: int)
    ensures delay >= 2500 && delay >= 12000 - 500 * level
    ensures delay == 2500 || delay == 12000 - 500 * level
  {
    var shortened := 12000 - 500 * level;
    if shortened > 2500 then shortened else 2500
  }

  /** A higher level never gets a longer round. */
  lemma TimerDelayNonIncreasing(l1: int, l2: int)
    requires l1 <= l2
    ensures TimerDelay(l2) <= TimerDelay(l1)
  {
  }

  /** From level 19 on every round lasts exactly the 2500 ms floor; below it
      each level takes 500 ms off the 12000 ms of level 0. */
  lemma TimerDelayFloor(level: int)
    ensures level >= 19 ==> TimerDelay(level) == 2500
    ensures level < 19 ==> TimerDelay(level) == 12000 - 500 * level
  {
  }
}
