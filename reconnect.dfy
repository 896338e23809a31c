/** The desktop agent's reconnection backoff
    (windows-agent/src/agent/reconnect.ts, with the constants of
    linux-agent/src/config.ts): the base delay doubles from 1 s up to a
    30 s cap, and a jitter drawn from `Math.random()` is added. The random
    draw is an input in [0, 1); floating-point arithmetic is modelled by
    exact reals. */
module Reconnect {

  const ReconnectMinDelay: int := 1000
  const ReconnectMaxDelay: int := 30000
  const ReconnectFactor: nat := 2
  const ReconnectJitter: real := 0.15

  function Pow(b: nat, e: nat): nat {
    if e == 0 then 1 else b * Pow(b, e - 1)
  }

  /** `Math.min(MIN_DELAY * FACTOR ** attempt, MAX_DELAY)`. */
  function BaseDelay(attempt: nat): int {
    var grown := ReconnectMinDelay * Pow(ReconnectFactor, attempt);
    if grown < ReconnectMaxDelay then grown else ReconnectMaxDelay
  }

  /** `Math.round`: halves go up. */
  function Round(x: real): int {
    (x + 0.5).Floor
  }

  /** `baseDelay + (random * JITTER * 2 - JITTER / 2) * baseDelay`, before
      rounding. */
  function Jittered(base: int, random: real): real {
    base as real + (random * (ReconnectJitter * 2.0) - ReconnectJitter / 2.0) * base as real
  }

  /** The delay `getNextDelay` returns when the counter is at `attempt`
      and `Math.random()` gives `random`. */
  function NextDelay(attempt: nat, random: real): int {
    Round(Jittered(BaseDelay(attempt), random))
  }

  lemma {:induction false} PowMonotone(b: nat, e: nat)
    requires b >= 1
    ensures Pow(b, e) <= Pow(b, e + 1)
  {
    if e > 0 {
      PowMonotone(b, e - 1);
    }
  }

  /** The base delay never decreases as attempts accumulate, and stays
      between the minimum and the cap. */
  lemma BaseDelayMonotone(attempt: nat)
    ensures ReconnectMinDelay <= BaseDelay(attempt) <= BaseDelay(attempt + 1) <= ReconnectMaxDelay
  {
    PowMonotone(ReconnectFactor, attempt);
    PowPositive(attempt);
  }

  lemma {:induction false} PowPositive(e: nat)
    ensures Pow(ReconnectFactor, e) >= 1
  {
    if e > 0 {
      PowPositive(e - 1);
    }
  }

  /** reconnect.ts:5: 1 s, 2 s, 4 s, 8 s, 16 s, then 30 s for good. */
  lemma BaseDelaySchedule(attempt: nat)
    ensures BaseDelay(0) == 1000 && BaseDelay(1) == 2000 && BaseDelay(2) == 4000
    ensures BaseDelay(3) == 8000 && BaseDelay(4) == 16000
    ensures attempt >= 5 ==> BaseDelay(attempt) == ReconnectMaxDelay
  {
    assert Pow(2, 5) == 32;
    if attempt >= 5 {
      PowGrows(attempt);
    }
  }

  lemma {:induction false} PowGrows(e: nat)
    requires e >= 5
    ensures Pow(ReconnectFactor, e) >= 32
  {
    if e > 5 {
      PowGrows(e - 1);
    }
  }

  lemma RoundMonotone(x: real, y: real)
    requires x <= y
    ensures Round(x) <= Round(y)
  {
  }

  /** reconnect.ts:21-27: the jitter band is [-0.075, +0.225) times the
      base delay, so the delay is never below 92.5 % of the base and
      below 122.5 % of it before rounding. */
  lemma JitterBand(attempt: nat, random: real)
    requires 0.0 <= random < 1.0
    ensures var b := BaseDelay(attempt) as real;
      && 0.925 * b <= Jittered(BaseDelay(attempt), random) < 1.225 * b
      && Round(0.925 * b) <= NextDelay(attempt, random) <= Round(1.225 * b)
  {
    var base := BaseDelay(attempt);
    BaseDelayMonotone(attempt);
    JitteredBand(base, random);
    var b := base as real;
    var j := Jittered(base, random);
    RoundMonotone(0.925 * b, j);
    RoundMonotone(j, 1.225 * b);
  }

  lemma JitteredBand(base: int, random: real)
    requires base >= 1 && 0.0 <= random < 1.0
    ensures 0.925 * base as real <= Jittered(base, random) < 1.225 * base as real
  {
    JitteredBounds(base as real, random);
  }

  lemma JitteredBounds(b: real, random: real)
    requires b > 0.0 && 0.0 <= random < 1.0
    ensures 0.925 * b <= b + (random * (ReconnectJitter * 2.0) - ReconnectJitter / 2.0) * b < 1.225 * b
  {
    var rb := random * b;
    assert 0.0 <= rb by {
      assert random >= 0.0 && b > 0.0;
    }
    assert rb < b by {
      assert b - rb == (1.0 - random) * b;
      assert (1.0 - random) > 0.0;
    }
    assert (random * (ReconnectJitter * 2.0) - ReconnectJitter / 2.0) * b == 0.3 * rb - 0.075 * b;
  }

  /** The band is not centred on the base delay: the first delay ranges
      from 925 ms up to 1225 ms, around 1075 ms rather than 1000 ms. */
  lemma JitterIsAsymmetric()
    ensures NextDelay(0, 0.0) == 925
    ensures NextDelay(0, 0.9) == 1195
    ensures NextDelay(0, 0.999) == 1225
  {
    assert BaseDelay(0) == 1000;
  }

  /** `ReconnectionManager`: the private attempt counter. */
  class ReconnectionManager {
    var attempt: nat

    constructor ()
      ensures attempt == 0
    {
      attempt := 0;
    }

    /** `getNextDelay`: the jittered delay for the current count, then
        the count goes up by one. */
    method GetNextDelay(random: real) returns (delay: int)
      requires 0.0 <= random < 1.0
      modifies this
      ensures attempt == old(attempt) + 1
      ensures delay == NextDelay(old(attempt), random)
    {
      var baseDelay := BaseDelay(attempt);
      var jitterRange := ReconnectJitter * 2.0;
      var jitterOffset := ReconnectJitter / 2.0;
      var jitter := (random * jitterRange - jitterOffset) * baseDelay as real;
      attempt := attempt + 1;
      delay := Round(baseDelay as real + jitter);
    }

    /** `getAttempt`: reads the count without changing it. */
    method GetAttempt() returns (n: nat)
      ensures n == attempt
    {
      n := attempt;
    }

    /** `reset`, called once a connection is registered. */
    method Reset()
      modifies this
      ensures attempt == 0
    {
      attempt := 0;
    }
  }
}
