/** The token-bucket rate limiter: a channel of tokens that a ticker tops up. */
module TokenBucket {
  import opened Arithmetic

  const SECOND := 1_000_000_000

  /** Nanoseconds between two ticks, by truncating division. */
  function Period(rate: nat): (p: nat)
    requires 0 < rate <= SECOND
    ensures p > 0 && rate * p <= 1_000_000_000 < rate * (p + 1)
  {
    SECOND / rate
  }

  /** `tokens` is the number of tokens in the channel, whose capacity is `burst`. */
  class TokenBucket {
    const rate: int
    const burst: int
    const period: int
    var tokens: int

    constructor (rate: int, burst: int)
      requires 0 < rate <= SECOND && 0 < burst
      ensures this.rate == rate && this.burst == burst && period == Period(rate)
      ensures tokens == AfterAll(burst, [])
    {
      this.rate, this.burst, period := rate, burst, SECOND / rate;
      tokens := 0;
      new;
      for i := 0 to burst
        invariant tokens == i
      {
        tokens := tokens + 1;
      }
    }

    method TakeToken() returns (ok: bool)
      modifies this
      ensures ok == Grants(old(tokens), Call) && tokens == After(burst, old(tokens), Call)
    {
      if tokens > 0 {
        tokens := tokens - 1;
        return true;
      }
      return false;
    }

    /** One tick received by the refill loop; a tick that finds the channel full is dropped. */
    method RefillOnce()
      modifies this
      ensures tokens == After(burst, old(tokens), Tick)
    {
      if tokens < burst {
        tokens := tokens + 1;
      }
    }
  }

  /**
   * A bucket without a positive rate and burst is a nil pointer. A rate above 10^9 makes the period zero,
   * which the ticker rejects by a panic.
   */
  method NewTokenBucket(rate: int, burst: int) returns (b: TokenBucket?)
    requires rate <= SECOND
    ensures b == null <==> rate <= 0 || burst <= 0
    ensures b != null ==> fresh(b) && b.rate == rate && b.burst == burst && b.tokens == AfterAll(burst, [])
  {
    if rate <= 0 || burst <= 0 {
      return null;
    }
    b := new TokenBucket(rate, burst);
  }

  /** A nil bucket limits nothing. */
  method Allow(b: TokenBucket?) returns (ok: bool)
    modifies b
    ensures b == null ==> ok
    ensures b != null ==> ok == Grants(old(b.tokens), Call) && b.tokens == After(b.burst, old(b.tokens), Call)
  {
    if b == null {
      return true;
    }
    ok := b.TakeToken();
  }

  /** A delivered tick, or a call of `Allow`. */
  datatype Event = Tick | Call

  ghost predicate Grants(tokens: int, e: Event) {
    e.Call? && tokens > 0
  }

  ghost function After(burst: int, tokens: int, e: Event): int {
    match e
    case Tick => if tokens < burst then tokens + 1 else tokens
    case Call => if tokens > 0 then tokens - 1 else tokens
  }

  /** The tokens left after a run that starts with a full bucket. */
  ghost function AfterAll(burst: int, h: seq<Event>): int {
    if h == [] then burst else After(burst, AfterAll(burst, h[..|h| - 1]), h[|h| - 1])
  }

  ghost function Ticks(h: seq<Event>): nat {
    if h == [] then 0 else Ticks(h[..|h| - 1]) + (if h[|h| - 1].Tick? then 1 else 0)
  }

  ghost function Granted(burst: int, h: seq<Event>): nat {
    if h == [] then 0
    else Granted(burst, h[..|h| - 1]) + (if Grants(AfterAll(burst, h[..|h| - 1]), h[|h| - 1]) then 1 else 0)
  }

  /** What the window from event i on leaves of the burst and of its own ticks. */
  ghost function Left(burst: int, h: seq<Event>, i: nat): int
    requires i <= |h|
  {
    burst + (Ticks(h) - Ticks(h[..i])) - (Granted(burst, h) - Granted(burst, h[..i]))
  }

  /** The token count is the minimum of what is left in any window that reaches up to now. */
  lemma {:induction false} TokensAreTheTightestWindow(burst: nat, h: seq<Event>) returns (i: nat)
    ensures i <= |h| && AfterAll(burst, h) == Left(burst, h, i)
    ensures forall k: nat | k <= |h| :: AfterAll(burst, h) <= Left(burst, h, k)
    ensures 0 <= AfterAll(burst, h) <= burst
  {
    assert h[..|h|] == h;
    i := |h|;
    if h != [] {
      var g := h[..|h| - 1];
      var best := TokensAreTheTightestWindow(burst, g);
      forall k: nat | k < |h|
        ensures Left(burst, h, k) == Left(burst, g, k) + (if h[|h| - 1].Tick? then 1 else 0)
                                     - (if Grants(AfterAll(burst, g), h[|h| - 1]) then 1 else 0)
      {
        assert g[..k] == h[..k];
      }
      if AfterAll(burst, h) != burst {
        i := best;
      }
    }
  }

  /** Every window grants at most the burst plus its own ticks. */
  lemma WindowGrantsBounded(burst: nat, h: seq<Event>, i: nat)
    requires i <= |h|
    ensures Granted(burst, h) - Granted(burst, h[..i]) <= burst + Ticks(h) - Ticks(h[..i])
  {
    var j := TokensAreTheTightestWindow(burst, h);
    assert AfterAll(burst, h) <= Left(burst, h, i);
  }

  /** A call is refused exactly when some window up to it has used up its burst and all its ticks. */
  lemma RefusedIffSomeWindowIsExhausted(burst: nat, h: seq<Event>)
    ensures !Grants(AfterAll(burst, h), Call) <==> exists i: nat :: i <= |h| && Left(burst, h, i) == 0
  {
    var j := TokensAreTheTightestWindow(burst, h);
  }

  /** Because the period is truncated, the rate can be exceeded, but by no more than a factor 10^9/(10^9-rate). */
  lemma RateBound(rate: nat, burst: nat, h: seq<Event>, T: nat)
    requires 0 < rate <= SECOND && Ticks(h) * Period(rate) <= T
    ensures (Granted(burst, h) - burst) * (1_000_000_000 - rate) <= rate * T
  {
    WindowGrantsBounded(burst, h, 0);
    assert h[..0] == [];
    assert SECOND - rate <= rate * Period(rate);
    ScaledBound(Granted(burst, h) - burst, Ticks(h), SECOND - rate, rate, Period(rate), T);
  }

  /** Grants stay within burst + rate * T / 10^9, whatever the calls. */
  ghost predicate KeepsNominalRate(rate: nat, burst: nat, h: seq<Event>, T: nat) {
    (Granted(burst, h) - burst) * SECOND <= rate * T
  }

  ghost function Calls(n: nat): seq<Event> {
    if n == 0 then [] else Calls(n - 1) + [Call]
  }

  lemma {:induction false} DrainBucket(burst: nat, n: nat)
    requires n <= burst
    ensures AfterAll(burst, Calls(n)) == burst - n && Granted(burst, Calls(n)) == n && Ticks(Calls(n)) == 0
  {
    if n > 0 {
      DrainBucket(burst, n - 1);
      assert Calls(n)[..|Calls(n)| - 1] == Calls(n - 1);
    }
  }

  /** The nominal rate is kept by every run exactly when the rate divides 10^9. */
  lemma NominalRateIff(rate: nat, burst: nat)
    requires 0 < rate <= SECOND && burst > 0
    ensures (forall h, T: nat | Ticks(h) * Period(rate) <= T :: KeepsNominalRate(rate, burst, h, T))
            <==> SECOND % rate == 0
  {
    var p := Period(rate);
    if SECOND % rate == 0 {
      forall h, T: nat | Ticks(h) * p <= T ensures KeepsNominalRate(rate, burst, h, T) {
        NominalRateKept(rate, burst, h, T);
      }
    } else {
      var g := Calls(burst);
      var h := g + [Tick] + [Call];
      DrainBucket(burst, burst);
      assert h[..|h| - 1] == g + [Tick] && (g + [Tick])[..|g|] == g;
      assert Ticks(h) == 1 && Granted(burst, h) == burst + 1;
      assert rate * p < SECOND;
      assert !KeepsNominalRate(rate, burst, h, p);
    }
  }

  lemma NominalRateKept(rate: nat, burst: nat, h: seq<Event>, T: nat)
    requires 0 < rate <= SECOND && SECOND % rate == 0 && Ticks(h) * Period(rate) <= T
    ensures KeepsNominalRate(rate, burst, h, T)
  {
    WindowGrantsBounded(burst, h, 0);
    assert h[..0] == [];
    assert SECOND == rate * Period(rate);
    ScaledBound(Granted(burst, h) - burst, Ticks(h), SECOND, rate, Period(rate), T);
  }
}
