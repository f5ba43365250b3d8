/** The per-client token bucket: refill, reservation and settlement.

    Levels are exact reals. The clock counts microseconds and refills count
    whole milliseconds, so each refill drops a fraction of a millisecond. */
module RateLimiter {
  import Prelude

  datatype Policy = Policy(maxRequestsPerMinute: nat, maxTokensPerMinute: nat)

  datatype Bucket = Bucket(
    requestTokens: real, outputTokens: real, lastRefill: int,
    maxRequests: real, maxTokens: real,
    violations: nat, windowStart: int)

  datatype Outcome =
    | Allowed
    | RequestLimitExceeded(violations: nat)
    | TokenLimitExceeded(available: int, violations: nat)

  const MICROS_PER_MS: int := 1000
  const BURST: real := 2.0

  /** Seconds as clock ticks. */
  function Seconds(n: int): int {
    n * Prelude.MICROS_PER_SECOND
  }

  // ----- The bucket as a value -----

  /** Whole units, rounded toward zero. */
  function Whole(micros: int, unit: int): int
    requires unit > 0
  {
    if micros >= 0 then micros / unit else -((-micros) / unit)
  }

  /** What a limit per minute earns over a span, counted in whole milliseconds. */
  function Earned(limit: real, micros: int): real {
    limit * (Whole(micros, MICROS_PER_MS) as real / 1000.0) / 60.0
  }

  function Min(a: real, b: real): real {
    if a < b then a else b
  }

  function NewBucket(policy: Policy, now: int): Bucket {
    var req, tok := policy.maxRequestsPerMinute as real, policy.maxTokensPerMinute as real;
    Bucket(req, tok, now, req, tok, 0, now)
  }

  function Refilled(b: Bucket, now: int): Bucket {
    var elapsed := now - b.lastRefill;
    var lapsed := Whole(now - b.windowStart, Prelude.MICROS_PER_SECOND) >= 60;
    b.(lastRefill := now,
       requestTokens := Min(b.requestTokens + Earned(b.maxRequests, elapsed), b.maxRequests * BURST),
       outputTokens := Min(b.outputTokens + Earned(b.maxTokens, elapsed), b.maxTokens * BURST),
       violations := if lapsed then 0 else b.violations,
       windowStart := if lapsed then now else b.windowStart)
  }

  function Consumed(b: Bucket, need: nat, now: int): (Bucket, Outcome) {
    var r := Refilled(b, now);
    if r.requestTokens < 1.0 then
      (r.(violations := r.violations + 1), RequestLimitExceeded(r.violations + 1))
    else if r.outputTokens < need as real then
      (r.(violations := r.violations + 1), TokenLimitExceeded(r.outputTokens.Floor, r.violations + 1))
    else
      (r.(requestTokens := r.requestTokens - 1.0, outputTokens := r.outputTokens - need as real), Allowed)
  }

  function Settled(b: Bucket, reserved: nat, actual: nat): Bucket {
    if reserved <= actual then b
    else b.(outputTokens := Min(b.outputTokens + (reserved - actual) as real, b.maxTokens * BURST))
  }

  class ClientBucket {
    var requestTokens: real
    var outputTokens: real
    var lastRefill: int
    var maxRequests: real
    var maxTokens: real
    var violations: nat
    var windowStart: int

    ghost function View(): Bucket
      reads this
    {
      Bucket(requestTokens, outputTokens, lastRefill, maxRequests, maxTokens, violations, windowStart)
    }

    constructor (policy: Policy, now: int)
      ensures View() == NewBucket(policy, now)
    {
      maxRequests := policy.maxRequestsPerMinute as real;
      maxTokens := policy.maxTokensPerMinute as real;
      requestTokens := policy.maxRequestsPerMinute as real;
      outputTokens := policy.maxTokensPerMinute as real;
      lastRefill, violations, windowStart := now, 0, now;
    }

    method Refill(now: int)
      modifies this
      ensures View() == Refilled(old(View()), now)
    {
      var elapsed := now - lastRefill;
      lastRefill := now;
      requestTokens := Min(requestTokens + Earned(maxRequests, elapsed), maxRequests * BURST);
      outputTokens := Min(outputTokens + Earned(maxTokens, elapsed), maxTokens * BURST);
      if Whole(now - windowStart, Prelude.MICROS_PER_SECOND) >= 60 {
        violations, windowStart := 0, now;
      }
    }

    method TryConsume(need: nat, now: int) returns (r: Outcome)
      modifies this
      ensures (View(), r) == Consumed(old(View()), need, now)
    {
      Refill(now);
      if requestTokens < 1.0 {
        violations := violations + 1;
        return RequestLimitExceeded(violations);
      }
      if outputTokens < need as real {
        violations := violations + 1;
        return TokenLimitExceeded(outputTokens.Floor, violations);
      }
      requestTokens := requestTokens - 1.0;
      outputTokens := outputTokens - need as real;
      return Allowed;
    }

    method Settle(reserved: nat, actual: nat)
      modifies this
      ensures View() == Settled(old(View()), reserved, actual)
    {
      if reserved <= actual {
        return;
      }
      outputTokens := Min(outputTokens + (reserved - actual) as real, maxTokens * BURST);
    }
  }

  // ----- The map of buckets -----

  type Buckets = map<string, Bucket>

  /** A client's bucket, created on first contact. */
  function BucketOf(m: Buckets, client: string, policy: Policy, now: int): Bucket {
    if client in m then m[client] else NewBucket(policy, now)
  }

  function Checked(m: Buckets, client: string, need: nat, policy: Policy, now: int): (Buckets, Outcome) {
    var (b, r) := Consumed(BucketOf(m, client, policy, now), need, now);
    (m[client := b], r)
  }

  function SettledIn(m: Buckets, client: string, reserved: nat, actual: nat): Buckets {
    if client in m then m[client := Settled(m[client], reserved, actual)] else m
  }

  /** Whether a sweep at `now` keeps a bucket. */
  predicate Kept(b: Bucket, now: int, staleSecs: int) {
    b.lastRefill > now - Seconds(staleSecs)
  }

  function Pruned(m: Buckets, now: int, staleSecs: int): Buckets {
    map c | c in m && Kept(m[c], now, staleSecs) :: m[c]
  }

  class Limiter {
    var buckets: map<string, ClientBucket>

    /** No two clients share a bucket. */
    ghost predicate Valid()
      reads this
    {
      forall c, d :: c in buckets && d in buckets && c != d ==> buckets[c] != buckets[d]
    }

    ghost function View(): Buckets
      reads this, buckets.Values
    {
      map c | c in buckets :: buckets[c].View()
    }

    constructor ()
      ensures Valid() && View() == map[]
    {
      buckets := map[];
    }

    method Check(client: string, need: nat, policy: Policy, now: int) returns (r: Outcome)
      requires Valid()
      modifies this, buckets.Values
      ensures Valid() && fresh(buckets.Values - old(buckets.Values))
      ensures (View(), r) == Checked(old(View()), client, need, policy, now)
    {
      if client !in buckets {
        var created := new ClientBucket(policy, now);
        buckets := buckets[client := created];
      }
      var bucket := buckets[client];
      assert bucket.View() == BucketOf(old(View()), client, policy, now);
      r := bucket.TryConsume(need, now);
      assert View() == Checked(old(View()), client, need, policy, now).0;
    }

    method Settle(client: string, reserved: nat, actual: nat)
      requires Valid()
      modifies buckets.Values
      ensures Valid() && View() == SettledIn(old(View()), client, reserved, actual)
    {
      if client in buckets {
        var bucket := buckets[client];
        bucket.Settle(reserved, actual);
      }
    }

    method Prune(now: int, staleSecs: int)
      requires Valid()
      modifies this
      ensures Valid() && View() == Pruned(old(View()), now, staleSecs)
    {
      buckets := map c | c in buckets && buckets[c].lastRefill > now - Seconds(staleSecs) :: buckets[c];
    }
  }
}
