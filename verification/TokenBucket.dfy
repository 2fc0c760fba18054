/** The token bucket that every client limiter owns: the arithmetic of
    `golang.org/x/time/rate` in exact reals, over integer nanoseconds. */
module TokenBucket {
  /** Nanoseconds since the zero `time.Time`. */
  type Time = nat

  const SECOND: nat := 1_000_000_000
  const MAX_INT64: nat := 0x7FFF_FFFF_FFFF_FFFF

  datatype Bucket = Bucket(limit: real, burst: int, tokens: real, last: Time)

  /** Tokens earned at `limit` tokens a second during `elapsed` nanoseconds. */
  function Gain(limit: real, elapsed: nat): (g: real)
  {
    if limit <= 0.0 then 0.0 else limit * (elapsed as real / SECOND as real)
  }

  /** A fresh bucket is full. */
  function NewBucket(limit: real, burst: int): Bucket {
    Bucket(limit, burst, burst as real, 0)
  }

  function Min(x: real, y: real): real { if x <= y then x else y }

  function Elapsed(b: Bucket, t: Time): nat { if t < b.last then 0 else t - b.last }

  /** The balance at time `t`, capped at the burst. */
  function TokensAt(b: Bucket, t: Time): real {
    Min(b.burst as real, b.tokens + Gain(b.limit, Elapsed(b, t)))
  }

  function SetLimitAt(b: Bucket, t: Time, limit: real): Bucket {
    b.(limit := limit, tokens := TokensAt(b, t), last := t)
  }

  function SetBurstAt(b: Bucket, t: Time, burst: int): Bucket {
    b.(burst := burst, tokens := TokensAt(b, t), last := t)
  }

  /** `AllowN(t, 1)`: one whole token is taken, or nothing changes. */
  function AllowOne(b: Bucket, t: Time): (Bucket, bool) {
    if TokensAt(b, t) >= 1.0
    then (b.(tokens := TokensAt(b, t) - 1.0, last := t), true)
    else (b, false)
  }

  function Ceil(x: real): int { -((-x).Floor) }

  /** Nanoseconds until `tokens` more tokens have been earned; saturates. */
  function RefillDelay(tokens: real, limit: real): nat {
    if tokens <= 0.0 then 0
    else if limit <= 0.0 then MAX_INT64
    else
      var delay := Ceil(tokens / limit * SECOND as real);
      if delay >= MAX_INT64 then MAX_INT64
      else DelayPositive(tokens, limit); delay
  }

  lemma DelayPositive(tokens: real, limit: real)
    requires tokens > 0.0 && limit > 0.0
    ensures Ceil(tokens / limit * SECOND as real) >= 0
  {}

  lemma GainNonNegative(limit: real, elapsed: nat)
    ensures Gain(limit, elapsed) >= 0.0
  {}

  /** A second earns as many tokens as the rate says. */
  lemma SecondEarnsRate(limit: real)
    requires limit > 0.0
    ensures Gain(limit, 1_000_000_000) == limit
  {}

  lemma GainAdds(limit: real, x: nat, y: nat)
    ensures Gain(limit, x + y) == Gain(limit, x) + Gain(limit, y)
  {}

  /** As time passes the balance grows, and by no more than the rate earns. */
  lemma TokensGrow(b: Bucket, t: Time, u: Time)
    requires t <= u
    ensures TokensAt(b, t) <= TokensAt(b, u) <= TokensAt(b, t) + Gain(b.limit, u - t)
  {}

  /** RefillDelay is the least wait that earns the tokens, unless it saturates. */
  lemma RefillDelayIsLeast(tokens: real, limit: real, wait: nat)
    requires limit > 0.0
    requires RefillDelay(tokens, limit) < MAX_INT64
    ensures Gain(limit, wait) >= tokens <==> wait >= RefillDelay(tokens, limit)
  {
    GainNonNegative(limit, wait);
    if tokens > 0.0 {
      var need := tokens / limit * SECOND as real;
      var share := wait as real / SECOND as real;
      assert share * SECOND as real == wait as real;
      assert tokens / limit * limit == tokens;
      if wait as real >= need {
        assert share >= tokens / limit;
        MulMono(limit, tokens / limit, share);
      } else {
        assert share < tokens / limit;
        MulMonoStrict(limit, share, tokens / limit);
      }
    }
  }

  /** No wait is longer than int64 nanoseconds can tell, and without a rate there is no shorter one. */
  lemma RefillDelaySaturates(tokens: real, limit: real)
    ensures RefillDelay(tokens, limit) <= 9_223_372_036_854_775_807
    ensures RefillDelay(tokens, limit) == 0 <==> tokens <= 0.0
    ensures tokens > 0.0 && (limit <= 0.0 || Gain(limit, 9_223_372_036_854_775_807) < tokens) ==>
              RefillDelay(tokens, limit) == 9_223_372_036_854_775_807
  {
    if tokens > 0.0 && limit > 0.0 {
      DelayPositive(tokens, limit);
      PositiveDelay(tokens, limit);
      if RefillDelay(tokens, limit) < MAX_INT64 { RefillDelayIsLeast(tokens, limit, MAX_INT64); }
    }
  }

  lemma PositiveDelay(tokens: real, limit: real)
    requires tokens > 0.0 && limit > 0.0
    ensures Ceil(tokens / limit * SECOND as real) >= 1
  {
    assert tokens / limit > 0.0;
  }

  lemma MulMono(l: real, x: real, y: real)
    requires l > 0.0 && x <= y
    ensures l * x <= l * y
  {}

  lemma MulMonoStrict(l: real, x: real, y: real)
    requires l > 0.0 && x < y
    ensures l * x < l * y
  {}

  lemma DivMono(l: real, x: real, y: real)
    requires l > 0.0 && x <= y
    ensures x / l <= y / l
  {
    var a, b := x / l, y / l;
    assert l * a == x && l * b == y;
    if b < a { MulMonoStrict(l, b, a); }
  }
}
