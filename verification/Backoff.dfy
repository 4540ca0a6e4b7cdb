/** Exponential backoff with jitter and reset (lib/expbackoff/expbackoff.go), over real numbers of
    nanoseconds.  The random draws are arguments. */
module Backoff {

  datatype Config = Config(baseDelay: real, multiplier: real, jitter: real, maxDelay: real)

  /** No delay is negative, the multiplier does not shrink one and jitter at most doubles it. */
  ghost predicate Sensible(c: Config) {
    c.baseDelay >= 0.0 && c.multiplier >= 1.0 && c.maxDelay >= 0.0 && 0.0 <= c.jitter <= 1.0
  }

  /** A draw of the random source. */
  type Draw = u: real | 0.0 <= u < 1.0

  function Scaled(delay: real, f: real): real {
    delay * f
  }

  function Raised(c: Config, delay: real): real {
    Scaled(delay, c.multiplier)
  }

  /** The most that jitter makes of a delay. */
  function Upper(delay: real, jitter: real): real {
    Scaled(delay, 1.0 + jitter)
  }

  /** The least that jitter makes of a delay, before truncation. */
  function Lower(delay: real, jitter: real): real {
    Scaled(delay, 1.0 - jitter)
  }

  /** Multiplies the delay up to n times, until it reaches the maximum, and caps it there. */
  ghost function Climb(c: Config, delay: real, n: nat): real
    decreases n
  {
    if delay < c.maxDelay && n > 0 then Climb(c, Raised(c, delay), n - 1)
    else if delay > c.maxDelay then c.maxDelay
    else delay
  }

  /** The delay before jitter: the base delay at first, uncapped. */
  ghost function PreJitter(c: Config, n: nat): real {
    if n == 0 then c.baseDelay else Climb(c, c.baseDelay, n)
  }

  /** What the jitter multiplies a delay by. */
  function JitterBy(jitter: real, u: Draw): real {
    1.0 + Scaled(jitter, u * 2.0 - 1.0)
  }

  /** Whole nanoseconds, and never a negative number of them. */
  function Truncated(d: real): real {
    if d < 0.0 then 0.0 else d.Floor as real
  }

  /** A delay moved by the jitter. */
  function Jittered(delay: real, jitter: real, u: Draw): real {
    Truncated(Scaled(delay, JitterBy(jitter, u)))
  }

  /** The delay after n retries. */
  ghost function DelayAt(c: Config, n: nat, u: Draw): real {
    if n == 0 then c.baseDelay else Jittered(PreJitter(c, n), c.jitter, u)
  }

  method Backoff(c: Config, retries: nat, u: Draw) returns (d: real)
    ensures d == DelayAt(c, retries, u)
  {
    if retries == 0 {
      return c.baseDelay;
    }
    var backoff, left := c.baseDelay, retries;
    while backoff < c.maxDelay && left > 0
      invariant Climb(c, backoff, left) == Climb(c, c.baseDelay, retries)
      decreases left
    {
      backoff := Raised(c, backoff);
      left := left - 1;
    }
    if backoff > c.maxDelay {
      backoff := c.maxDelay;
    }
    d := Jittered(backoff, c.jitter, u);
  }

  /** The base delay times the n-th power of the multiplier. */
  ghost function Power(c: Config, n: nat): real {
    if n == 0 then c.baseDelay else Raised(c, Power(c, n - 1))
  }

  ghost function Min(x: real, y: real): real {
    if x <= y then x else y
  }

  lemma {:induction false} Scale(x: real, y: real, f: real)
    requires x <= y && f >= 0.0
    ensures Scaled(f, x) <= Scaled(f, y)
  {
    assert f * (y - x) >= 0.0;
  }

  lemma {:induction false} ScaleFirst(x: real, y: real, f: real)
    requires x <= y && f >= 0.0
    ensures Scaled(x, f) <= Scaled(y, f)
  {
    assert (y - x) * f >= 0.0;
  }

  lemma {:induction false} Truncates(d: real)
    requires d >= 0.0
    ensures 0.0 <= Truncated(d) <= d < Truncated(d) + 1.0
  {
  }

  lemma {:induction false} RaisedIsMore(c: Config, d: real)
    requires Sensible(c) && d >= 0.0
    ensures d <= Raised(c, d)
  {
    Scale(1.0, c.multiplier, d);
  }

  lemma {:induction false} PowerGrows(c: Config, i: nat, n: nat)
    requires Sensible(c) && i <= n
    ensures 0.0 <= Power(c, i) <= Power(c, n)
    decreases n
  {
    if n > 0 {
      PowerGrows(c, if i < n then i else n - 1, n - 1);
      RaisedIsMore(c, Power(c, n - 1));
    }
  }

  lemma {:induction false} ClimbFrom(c: Config, i: nat, n: nat)
    requires Sensible(c)
    ensures Climb(c, Power(c, i), n) == Min(Power(c, i + n), c.maxDelay)
    decreases n
  {
    PowerGrows(c, i, i + n);
    if Power(c, i) < c.maxDelay && n > 0 {
      assert Power(c, i + 1) == Raised(c, Power(c, i));
      ClimbFrom(c, i + 1, n - 1);
    }
  }

  /** Stopping early changes nothing: the loop computes the power, capped at the maximum. */
  lemma {:induction false} CappedPower(c: Config, n: nat)
    requires Sensible(c) && n >= 1
    ensures PreJitter(c, n) == Min(Power(c, n), c.maxDelay) >= 0.0
  {
    ClimbFrom(c, 0, n);
    PowerGrows(c, 0, n);
  }

  /** From the first retry on, the delay before jitter never shrinks; it does not shrink from the
      very first delay on either exactly when the base delay is no more than the maximum. */
  lemma {:induction false} MonotoneExactlyWhen(c: Config)
    requires Sensible(c)
    ensures forall n :: n >= 1 ==> PreJitter(c, n) <= PreJitter(c, n + 1)
    ensures (forall n: nat :: PreJitter(c, n) <= PreJitter(c, n + 1)) <==> c.baseDelay <= c.maxDelay
  {
    forall n: nat
      ensures n >= 1 ==> PreJitter(c, n) <= PreJitter(c, n + 1)
      ensures n == 0 ==> (PreJitter(c, n) <= PreJitter(c, n + 1) <==> c.baseDelay <= c.maxDelay)
    {
      PowerGrows(c, n, n + 1);
      CappedPower(c, n + 1);
      if n >= 1 {
        CappedPower(c, n);
      }
    }
    assert PreJitter(c, 0) <= PreJitter(c, 0 + 1) <==> c.baseDelay <= c.maxDelay;
  }

  lemma {:induction false} JitterFactor(j: real, u: Draw)
    requires 0.0 <= j <= 1.0
    ensures 0.0 <= 1.0 - j <= JitterBy(j, u) <= 1.0 + j
  {
    Scale(-1.0, u * 2.0 - 1.0, j);
    Scale(u * 2.0 - 1.0, 1.0, j);
  }

  /** The factor goes evenly from one minus the jitter, at the least draw, towards one plus the jitter. */
  lemma {:induction false} JitterIsEven(j: real, u: Draw, u': Draw)
    ensures JitterBy(j, 0.0) == 1.0 - j
    ensures JitterBy(j, 0.5) == 1.0
    ensures JitterBy(j, u') - JitterBy(j, u) == 2.0 * Scaled(j, u' - u)
  {
    var x, y := u * 2.0 - 1.0, u' * 2.0 - 1.0;
    assert j * y - j * x == j * (y - x);
    assert y - x == 2.0 * (u' - u);
  }

  /** Jitter moves a delay by at most its share of it, up to the truncation. */
  lemma {:induction false} JitterBounds(d: real, j: real, u: Draw)
    requires d >= 0.0 && 0.0 <= j <= 1.0
    ensures 0.0 <= Jittered(d, j, u) <= Upper(d, j)
    ensures Lower(d, j) - 1.0 < Jittered(d, j, u)
  {
    var f := JitterBy(j, u);
    JitterFactor(j, u);
    Scale(1.0 - j, f, d);
    Scale(f, 1.0 + j, d);
    Scale(0.0, f, d);
    assert Scaled(d, 0.0) == 0.0;
    Truncates(Scaled(d, f));
  }

  lemma {:induction false} UpperGrows(x: real, y: real, j: real)
    requires x <= y && j >= 0.0
    ensures Upper(x, j) <= Upper(y, j)
  {
    ScaleFirst(x, y, 1.0 + j);
  }

  /** So a jittered delay lies within its share of the capped power, and under the maximum's. */
  lemma {:induction false} WithinJitter(c: Config, n: nat, u: Draw)
    requires Sensible(c) && n >= 1
    ensures var d := Min(Power(c, n), c.maxDelay);
            Lower(d, c.jitter) - 1.0 < DelayAt(c, n, u) <= Upper(d, c.jitter)
    ensures 0.0 <= DelayAt(c, n, u) <= Upper(c.maxDelay, c.jitter)
  {
    CappedPower(c, n);
    JitterBounds(PreJitter(c, n), c.jitter, u);
    UpperGrows(PreJitter(c, n), c.maxDelay, c.jitter);
  }

  /** The delay is exactly what the draw makes of the capped power, in whole nanoseconds: the share goes
      from one minus the jitter at the least draw to one plus the jitter. */
  lemma {:induction false} DelayExactly(c: Config, n: nat, u: Draw)
    requires Sensible(c) && n >= 1
    ensures var share := 1.0 - c.jitter + 2.0 * c.jitter * u;
            var d := DelayAt(c, n, u);
            && d <= Scaled(Min(Power(c, n), c.maxDelay), share) < d + 1.0
            && d == d.Floor as real
  {
    CappedPower(c, n);
    var d, f := PreJitter(c, n), JitterBy(c.jitter, u);
    assert f == 1.0 - c.jitter + 2.0 * c.jitter * u by {
      assert c.jitter * (u * 2.0 - 1.0) == 2.0 * c.jitter * u - c.jitter;
    }
    JitterFactor(c.jitter, u);
    Scale(0.0, f, d);
    assert Scaled(d, 0.0) == 0.0;
    Truncates(Scaled(d, f));
  }

  // ---------------------------------------------------------------------------------------
  // The backoff and reset functions
  // ---------------------------------------------------------------------------------------

  class Timer {
    const config: Config
    var retries: nat

    constructor (config: Config)
      ensures this.config == config && retries == 0
    {
      this.config, retries := config, 0;
    }

    /** The delay the caller waits for; a cancelled context returns at once. */
    method Wait(cancelled: bool, u: Draw) returns (delay: real)
      modifies this
      ensures delay == if cancelled then 0.0 else DelayAt(config, old(retries), u)
      ensures retries == if cancelled then old(retries) else old(retries) + 1
    {
      if cancelled {
        return 0.0;
      }
      delay := Backoff(config, retries, u);
      retries := retries + 1;
    }

    method Reset()
      modifies this
      ensures retries == 0
    {
      retries := 0;
    }
  }

  datatype Call = Waits(u: Draw) | Resets

  /** The delays of a run of calls, from a given number of retries. */
  ghost function Delays(c: Config, retries: nat, calls: seq<Call>): seq<real>
    decreases |calls|
  {
    if calls == [] then []
    else if calls[0].Resets? then Delays(c, 0, calls[1..])
    else [DelayAt(c, retries, calls[0].u)] + Delays(c, retries + 1, calls[1..])
  }

  /** Whatever was called before a reset, the delays after it are those of a fresh backoff given
      the same draws. */
  lemma {:induction false} ResetIsFresh(c: Config, retries: nat, before: seq<Call>, after: seq<Call>)
    ensures Delays(c, retries, before + [Resets] + after) == Delays(c, retries, before) + Delays(c, 0, after)
    decreases |before|
  {
    var all := before + [Resets] + after;
    if before == [] {
      assert all[1..] == after;
    } else {
      assert all[1..] == before[1..] + [Resets] + after;
      ResetIsFresh(c, if before[0].Resets? then 0 else retries + 1, before[1..], after);
    }
  }

  /** No delay of any run exceeds the base delay and the jittered maximum both. */
  lemma {:induction false} DelaysBounded(c: Config, retries: nat, calls: seq<Call>, i: nat)
    requires Sensible(c) && i < |Delays(c, retries, calls)|
    ensures var d := Delays(c, retries, calls)[i];
            0.0 <= d && (d <= c.baseDelay || d <= Upper(c.maxDelay, c.jitter))
    decreases |calls|
  {
    if calls[0].Resets? {
      DelaysBounded(c, 0, calls[1..], i);
    } else if i > 0 {
      DelaysBounded(c, retries + 1, calls[1..], i - 1);
    } else if retries > 0 {
      WithinJitter(c, retries, calls[0].u);
    }
  }

  /** Waits without a reset in between use the delays of consecutive retries, each with its own draw. */
  lemma {:induction false} WaitsCountUp(c: Config, retries: nat, calls: seq<Call>, i: nat)
    requires i < |calls| && forall j :: 0 <= j <= i ==> calls[j].Waits?
    ensures |Delays(c, retries, calls)| > i
    ensures Delays(c, retries, calls)[i] == DelayAt(c, retries + i, calls[i].u)
    decreases i
  {
    if i > 0 {
      WaitsCountUp(c, retries + 1, calls[1..], i - 1);
    }
  }

  /** A new backoff waits for the base delay first. */
  lemma {:induction false} FirstWaitIsBase(c: Config, calls: seq<Call>)
    requires calls != [] && calls[0].Waits?
    ensures |Delays(c, 0, calls)| > 0 && Delays(c, 0, calls)[0] == c.baseDelay
  {
  }
}
