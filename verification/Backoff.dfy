/** The client's reconnect delay: exponential with a cap, spread by a random draw. */
module Backoff {

  const MAX_BACKOFF: real := 60.0
  const JITTER_FACTOR: real := 0.3

  function TwoTo(n: nat): (r: real)
    ensures r >= 1.0
  {
    if n == 0 then 1.0 else 2.0 * TwoTo(n - 1)
  }

  function Max(a: real, b: real): real {
    if a >= b then a else b
  }

  function Min(a: real, b: real): real {
    if a <= b then a else b
  }

  function BaseDelay(attempts: nat): real {
    Min(MAX_BACKOFF, TwoTo(attempts))
  }

  /** The random draw spreads the delay evenly over the jitter range; below a second it is a second. */
  function JitteredDelay(attempts: nat, random: real): real {
    var delay := BaseDelay(attempts) * (0.7 + 0.6 * random);
    if delay >= 1.0 then delay else 1.0
  }

  lemma JitterIsBounded(base: real, random: real)
    requires 0.0 <= random < 1.0 && base >= 0.0
    ensures -0.3 * base <= base * JITTER_FACTOR * (2.0 * random - 1.0)
    ensures base > 0.0 ==> base * JITTER_FACTOR * (2.0 * random - 1.0) < 0.3 * base
  {
    var width, swing := base * 0.3, 2.0 * random - 1.0;
    assert width * (swing + 1.0) >= 0.0;
    assert width * (swing + 1.0) == width * swing + width;
    assert base > 0.0 ==> width * (1.0 - swing) > 0.0;
    assert width * (1.0 - swing) == width - width * swing;
  }

  /** The delay grows to the cap and stays there: a minute, give or take the jitter, from the seventh failure on. */
  lemma {:induction false} BaseDelayIsCapped(attempts: nat)
    ensures 1.0 <= BaseDelay(attempts) <= 60.0
    ensures attempts < 6 ==> BaseDelay(attempts) == TwoTo(attempts) && BaseDelay(attempts + 1) <= 2.0 * BaseDelay(attempts)
    ensures attempts >= 6 ==> BaseDelay(attempts) == 60.0
  {
    Powers();
    if attempts > 6 {
      BaseDelayIsCapped(attempts - 1);
      PowerIsAtLeast(attempts);
    }
  }

  lemma Powers()
    ensures TwoTo(0) == 1.0 && TwoTo(1) == 2.0 && TwoTo(2) == 4.0 && TwoTo(3) == 8.0
    ensures TwoTo(4) == 16.0 && TwoTo(5) == 32.0 && TwoTo(6) == 64.0
  {
    assert TwoTo(2) == 2.0 * TwoTo(1) && TwoTo(4) == 2.0 * TwoTo(3) && TwoTo(6) == 2.0 * TwoTo(5);
  }

  lemma {:induction false} PowerIsAtLeast(n: nat)
    requires n >= 6
    ensures TwoTo(n) >= 64.0
  {
    Powers();
    if n > 6 {
      PowerIsAtLeast(n - 1);
    }
  }

  /** A smaller draw never waits longer, and different draws of a base of two seconds or more wait differently. */
  lemma DelayFollowsDraw(attempts: nat, a: real, b: real)
    requires 0.0 <= a < b < 1.0
    ensures JitteredDelay(attempts, a) <= JitteredDelay(attempts, b)
    ensures attempts > 0 ==> JitteredDelay(attempts, a) < JitteredDelay(attempts, b)
    ensures 1.0 <= JitteredDelay(attempts, a) <= 78.0
  {
    BaseDelayIsCapped(attempts);
    var base := BaseDelay(attempts);
    assert base * (0.6 * (b - a)) > 0.0;
    assert base * (0.7 + 0.6 * b) == base * (0.7 + 0.6 * a) + base * (0.6 * (b - a));
    assert base * (0.7 + 0.6 * a) <= 60.0 * 1.3 by {
      assert (60.0 - base) * (0.7 + 0.6 * a) >= 0.0;
      assert 60.0 * (1.3 - (0.7 + 0.6 * a)) >= 0.0;
    }
    if attempts > 0 {
      BaseGrows(attempts);
      assert (base - 2.0) * (0.7 + 0.6 * a) >= 0.0;
    }
  }

  lemma BaseGrows(attempts: nat)
    requires attempts > 0
    ensures BaseDelay(attempts) >= 2.0
  {
    assert TwoTo(attempts) == 2.0 * TwoTo(attempts - 1);
  }
}
