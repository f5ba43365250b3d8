/** What the token bucket guarantees over every run: levels stay in range, the
    requests allowed and the tokens held or spent stay within the limit per
    minute, and in any window the burst adds at most twice the limit. */
module RateBound {
  import opened RateLimiter

  /** What a limit per minute allows over a span, with no rounding. */
  function Rate(limit: real, micros: int): real {
    limit * (micros as real) / 60_000_000.0
  }

  // ----- Earning -----

  lemma {:induction false} ScaleMonotone(limit: real, x: real, y: real)
    requires limit >= 0.0 && x <= y
    ensures limit * x <= limit * y
  {
  }

  lemma {:induction false} EarnedIsScaled(limit: real, micros: int)
    ensures Earned(limit, micros) == limit * (Whole(micros, MICROS_PER_MS) as real / 60_000.0)
  {
  }

  lemma {:induction false} RateIsScaled(limit: real, micros: int)
    ensures Rate(limit, micros) == limit * (micros as real / 60_000_000.0)
  {
  }

  /** Rounding down to milliseconds only loses. */
  lemma {:induction false} EarnedBelowRate(limit: real, micros: int)
    requires limit >= 0.0 && micros >= 0
    ensures 0.0 <= Earned(limit, micros) <= Rate(limit, micros)
  {
    EarnedIsScaled(limit, micros);
    RateIsScaled(limit, micros);
    var ms := Whole(micros, MICROS_PER_MS);
    assert ms * 1000 <= micros;
    assert (ms * 1000) as real == ms as real * 1000.0;
    ScaleMonotone(limit, 0.0, ms as real / 60_000.0);
    ScaleMonotone(limit, ms as real / 60_000.0, micros as real / 60_000_000.0);
  }

  lemma {:induction false} RateAdds(limit: real, a: int, b: int)
    ensures Rate(limit, a) + Rate(limit, b) == Rate(limit, a + b)
  {
    assert (a + b) as real == a as real + b as real;
  }

  /** One long span earns at least what its parts earn. */
  lemma {:induction false} EarnedInParts(limit: real, a: int, b: int)
    requires limit >= 0.0 && a >= 0 && b >= 0
    ensures Earned(limit, a) + Earned(limit, b) <= Earned(limit, a + b)
  {
    EarnedIsScaled(limit, a);
    EarnedIsScaled(limit, b);
    EarnedIsScaled(limit, a + b);
    var x, y, z := Whole(a, MICROS_PER_MS), Whole(b, MICROS_PER_MS), Whole(a + b, MICROS_PER_MS);
    assert x + y <= z;
    ScaleMonotone(limit, (x + y) as real / 60_000.0, z as real / 60_000.0);
    assert limit * (x as real / 60_000.0) + limit * (y as real / 60_000.0) == limit * ((x + y) as real / 60_000.0);
  }

  /** A minute earns the whole limit. */
  lemma {:induction false} MinuteEarnsLimit(limit: real, micros: int)
    requires limit >= 0.0 && micros >= Seconds(60)
    ensures Earned(limit, micros) >= limit
  {
    EarnedIsScaled(limit, micros);
    var ms := Whole(micros, MICROS_PER_MS);
    assert ms >= 60_000;
    ScaleMonotone(limit, 1.0, ms as real / 60_000.0);
  }

  // ----- One refill -----

  function Topped(level: real, limit: real, micros: int): real {
    Min(level + Earned(limit, micros), limit * BURST)
  }

  ghost predicate InRange(level: real, limit: real) {
    0.0 <= limit && 0.0 <= level <= limit * BURST
  }

  lemma {:induction false} ToppedInRange(level: real, limit: real, micros: int)
    requires InRange(level, limit) && micros >= 0
    ensures InRange(Topped(level, limit, micros), limit)
    ensures level <= Topped(level, limit, micros) <= level + Rate(limit, micros)
  {
    EarnedBelowRate(limit, micros);
  }

  ghost predicate Levels(b: Bucket) {
    InRange(b.requestTokens, b.maxRequests) && InRange(b.outputTokens, b.maxTokens)
  }

  lemma {:induction false} NewLevels(policy: Policy, now: int)
    ensures Levels(NewBucket(policy, now))
  {
  }

  lemma {:induction false} RefillLevels(b: Bucket, now: int)
    requires Levels(b) && b.lastRefill <= now
    ensures
      var r := Refilled(b, now);
      && Levels(r) && r.maxRequests == b.maxRequests && r.maxTokens == b.maxTokens && r.lastRefill == now
      && r.requestTokens == Topped(b.requestTokens, b.maxRequests, now - b.lastRefill)
      && r.outputTokens == Topped(b.outputTokens, b.maxTokens, now - b.lastRefill)
  {
    ToppedInRange(b.requestTokens, b.maxRequests, now - b.lastRefill);
    ToppedInRange(b.outputTokens, b.maxTokens, now - b.lastRefill);
  }

  // ----- Accounts -----

  /** A bucket and everything ever taken from it: requests allowed, the
      reservations not yet settled, and the tokens settled as generated. */
  datatype Account = Account(bucket: Bucket, created: int, allowed: nat, pending: seq<nat>, spent: nat)

  datatype Op =
    | Request(need: nat, now: int)
    | Settlement(index: nat, actual: nat)

  function Sum(xs: seq<nat>): nat {
    if xs == [] then 0 else xs[0] + Sum(xs[1..])
  }

  function NewAccount(policy: Policy, now: int): Account {
    Account(NewBucket(policy, now), now, 0, [], 0)
  }

  /** The clock does not run back, each reservation is settled at most once,
      and no more was generated than reserved. */
  predicate Legal(a: Account, op: Op) {
    match op
    case Request(_, now) => a.bucket.lastRefill <= now
    case Settlement(i, actual) => i < |a.pending| && actual <= a.pending[i]
  }

  function Without(xs: seq<nat>, i: nat): seq<nat>
    requires i < |xs|
  {
    xs[..i] + xs[i + 1..]
  }

  function After(a: Account, op: Op): Account
    requires Legal(a, op)
  {
    match op
    case Request(need, now) =>
      var (b, r) := Consumed(a.bucket, need, now);
      if r.Allowed? then a.(bucket := b, allowed := a.allowed + 1, pending := a.pending + [need])
      else a.(bucket := b)
    case Settlement(i, actual) =>
      a.(bucket := Settled(a.bucket, a.pending[i], actual),
         pending := Without(a.pending, i), spent := a.spent + actual)
  }

  lemma {:induction false} SumSplit(xs: seq<nat>, i: nat)
    requires i <= |xs|
    ensures Sum(xs) == Sum(xs[..i]) + Sum(xs[i..])
    decreases i
  {
    if i == 0 {
      assert xs[..0] == [] && xs[0..] == xs;
    } else {
      SumSplit(xs[1..], i - 1);
      assert xs[1..][..i - 1] == xs[..i][1..] && xs[1..][i - 1..] == xs[i..];
    }
  }

  lemma {:induction false} SumSnoc(xs: seq<nat>, x: nat)
    ensures Sum(xs + [x]) == Sum(xs) + x
  {
    SumSplit(xs + [x], |xs|);
    assert (xs + [x])[..|xs|] == xs && (xs + [x])[|xs|..] == [x];
    assert [x][1..] == [];
  }

  lemma {:induction false} SumWithout(xs: seq<nat>, i: nat)
    requires i < |xs|
    ensures Sum(xs) == xs[i] + Sum(Without(xs, i))
  {
    SumSplit(xs, i);
    SumSplit(Without(xs, i), i);
    assert Without(xs, i)[..i] == xs[..i] && Without(xs, i)[i..] == xs[i + 1..];
    assert xs[i..][1..] == xs[i + 1..];
  }

  /** Tokens reserved and not refunded. */
  function Taken(a: Account): nat {
    Sum(a.pending) + a.spent
  }

  /** Nothing is taken that was not in the bucket or earned since. */
  ghost predicate Conserved(a: Account, requestsFrom: real, tokensFrom: real, since: int) {
    && Levels(a.bucket) && since <= a.bucket.lastRefill
    && a.bucket.requestTokens + a.allowed as real
         <= requestsFrom + Rate(a.bucket.maxRequests, a.bucket.lastRefill - since)
    && a.bucket.outputTokens + Taken(a) as real
         <= tokensFrom + Rate(a.bucket.maxTokens, a.bucket.lastRefill - since)
  }

  lemma {:induction false} RequestConserves(a: Account, need: nat, now: int, r0: real, t0: real, since: int)
    requires Conserved(a, r0, t0, since) && a.bucket.lastRefill <= now
    ensures Conserved(After(a, Request(need, now)), r0, t0, since)
  {
    var b := a.bucket;
    RefillLevels(b, now);
    ToppedInRange(b.requestTokens, b.maxRequests, now - b.lastRefill);
    ToppedInRange(b.outputTokens, b.maxTokens, now - b.lastRefill);
    RateAdds(b.maxRequests, b.lastRefill - since, now - b.lastRefill);
    RateAdds(b.maxTokens, b.lastRefill - since, now - b.lastRefill);
    SumSnoc(a.pending, need);
  }

  lemma {:induction false} SettlementConserves(a: Account, i: nat, actual: nat, r0: real, t0: real, since: int)
    requires Conserved(a, r0, t0, since) && Legal(a, Settlement(i, actual))
    ensures Conserved(After(a, Settlement(i, actual)), r0, t0, since)
  {
    SumWithout(a.pending, i);
    var next := After(a, Settlement(i, actual));
    assert Taken(next) + (a.pending[i] - actual) == Taken(a);
  }

  // ----- Every run -----

  ghost predicate IsRun(accounts: seq<Account>, ops: seq<Op>) {
    && |accounts| == |ops| + 1
    && forall k :: 0 <= k < |ops| ==> Steps(accounts[k], ops[k], accounts[k + 1])
  }

  ghost predicate Steps(a: Account, op: Op, next: Account) {
    Legal(a, op) && next == After(a, op)
  }

  lemma {:induction false} RunConserves(accounts: seq<Account>, ops: seq<Op>, k: nat, r0: real, t0: real, since: int)
    requires IsRun(accounts, ops) && k < |accounts| && Conserved(accounts[0], r0, t0, since)
    ensures Conserved(accounts[k], r0, t0, since)
    ensures accounts[k].bucket.maxRequests == accounts[0].bucket.maxRequests
    ensures accounts[k].bucket.maxTokens == accounts[0].bucket.maxTokens
    decreases k
  {
    if k > 0 {
      RunConserves(accounts, ops, k - 1, r0, t0, since);
      assert Steps(accounts[k - 1], ops[k - 1], accounts[k]);
      match ops[k - 1]
      case Request(need, now) => RequestConserves(accounts[k - 1], need, now, r0, t0, since);
      case Settlement(i, actual) => SettlementConserves(accounts[k - 1], i, actual, r0, t0, since);
    }
  }

  /** From the creation of a bucket, at any later clock reading, the requests
      allowed are at most the limit plus what the elapsed time earns, the same
      holds of the tokens reserved or spent, and levels stay between zero and
      twice the limit. */
  lemma {:induction false} RateIsBounded(policy: Policy, created: int, accounts: seq<Account>, ops: seq<Op>, k: nat)
    requires IsRun(accounts, ops) && k < |accounts| && accounts[0] == NewAccount(policy, created)
    ensures
      var a := accounts[k];
      var req, tok := policy.maxRequestsPerMinute as real, policy.maxTokensPerMinute as real;
      && Levels(a.bucket) && created <= a.bucket.lastRefill
      && a.allowed as real <= req + Rate(req, a.bucket.lastRefill - created)
      && Taken(a) as real <= tok + Rate(tok, a.bucket.lastRefill - created)
  {
    var req, tok := policy.maxRequestsPerMinute as real, policy.maxTokensPerMinute as real;
    NewLevels(policy, created);
    assert Rate(req, 0) == 0.0 && Rate(tok, 0) == 0.0;
    RunConserves(accounts, ops, k, req, tok, created);
  }

  // ----- Any window -----

  /** In a window beginning at `start`: either nothing was allowed in it yet, or
      the bucket has been refilled in it and the books balance from there. */
  ghost predicate Windowed(a: Account, allowed0: nat, taken0: int, start: int) {
    && Levels(a.bucket)
    && a.allowed >= allowed0
    && ((a.allowed == allowed0 && Taken(a) <= taken0)
        || (start <= a.bucket.lastRefill
            && a.bucket.requestTokens + (a.allowed - allowed0) as real
                 <= a.bucket.maxRequests * BURST + Rate(a.bucket.maxRequests, a.bucket.lastRefill - start)
            && a.bucket.outputTokens + (Taken(a) - taken0) as real
                 <= a.bucket.maxTokens * BURST + Rate(a.bucket.maxTokens, a.bucket.lastRefill - start)))
  }

  lemma {:induction false} WindowRequest(a: Account, need: nat, now: int, allowed0: nat, taken0: int, start: int)
    requires Windowed(a, allowed0, taken0, start) && a.bucket.lastRefill <= now && start <= now
    ensures Windowed(After(a, Request(need, now)), allowed0, taken0, start)
  {
    var b := a.bucket;
    RefillLevels(b, now);
    SumSnoc(a.pending, need);
    RateNonNegative(b.maxRequests, now - start);
    RateNonNegative(b.maxTokens, now - start);
    if start <= b.lastRefill {
      ToppedInRange(b.requestTokens, b.maxRequests, now - b.lastRefill);
      ToppedInRange(b.outputTokens, b.maxTokens, now - b.lastRefill);
      RateAdds(b.maxRequests, b.lastRefill - start, now - b.lastRefill);
      RateAdds(b.maxTokens, b.lastRefill - start, now - b.lastRefill);
    }
  }

  lemma {:induction false} RateNonNegative(limit: real, micros: int)
    requires limit >= 0.0 && micros >= 0
    ensures Rate(limit, micros) >= 0.0
  {
    RateIsScaled(limit, micros);
    ScaleMonotone(limit, 0.0, micros as real / 60_000_000.0);
  }

  lemma {:induction false} WindowSettlement(a: Account, i: nat, actual: nat, allowed0: nat, taken0: int, start: int)
    requires Windowed(a, allowed0, taken0, start) && Legal(a, Settlement(i, actual))
    ensures Windowed(After(a, Settlement(i, actual)), allowed0, taken0, start)
  {
    SumWithout(a.pending, i);
    var next := After(a, Settlement(i, actual));
    assert Taken(next) + (a.pending[i] - actual) == Taken(a);
  }

  /** The operations of a run from `i` to `j` happen at or after `start`. */
  ghost predicate NotBefore(ops: seq<Op>, i: nat, j: nat, start: int)
    requires i <= j <= |ops|
  {
    forall k :: i <= k < j && ops[k].Request? ==> start <= ops[k].now
  }

  lemma {:induction false} WindowKeeps(accounts: seq<Account>, ops: seq<Op>, i: nat, j: nat, start: int)
    requires IsRun(accounts, ops) && i <= j <= |ops| && NotBefore(ops, i, j, start) && Levels(accounts[i].bucket)
    ensures Windowed(accounts[j], accounts[i].allowed, Taken(accounts[i]), start)
    ensures accounts[j].bucket.maxRequests == accounts[i].bucket.maxRequests
    ensures accounts[j].bucket.maxTokens == accounts[i].bucket.maxTokens
    decreases j
  {
    if j > i {
      WindowKeeps(accounts, ops, i, j - 1, start);
      assert Steps(accounts[j - 1], ops[j - 1], accounts[j]);
      match ops[j - 1]
      case Request(need, now) =>
        WindowRequest(accounts[j - 1], need, now, accounts[i].allowed, Taken(accounts[i]), start);
      case Settlement(s, actual) =>
        WindowSettlement(accounts[j - 1], s, actual, accounts[i].allowed, Taken(accounts[i]), start);
    }
  }

  /** In any window `[start, end]` of any run, at most twice the limit plus what
      the window earns is allowed, and no more tokens are taken than that. */
  lemma {:induction false} WindowIsBounded(
      policy: Policy, created: int, accounts: seq<Account>, ops: seq<Op>, i: nat, j: nat, start: int, end: int)
    requires IsRun(accounts, ops) && accounts[0] == NewAccount(policy, created)
    requires i <= j <= |ops| && start <= end && NotBefore(ops, i, j, start) && accounts[j].bucket.lastRefill <= end
    ensures
      var req, tok := policy.maxRequestsPerMinute as real, policy.maxTokensPerMinute as real;
      && (accounts[j].allowed - accounts[i].allowed) as real <= req * BURST + Rate(req, end - start)
      && (Taken(accounts[j]) - Taken(accounts[i])) as real <= tok * BURST + Rate(tok, end - start)
  {
    var req, tok := policy.maxRequestsPerMinute as real, policy.maxTokensPerMinute as real;
    RateIsBounded(policy, created, accounts, ops, i);
    NewLevels(policy, created);
    assert Rate(req, 0) == 0.0 && Rate(tok, 0) == 0.0;
    RunConserves(accounts, ops, i, req, tok, created);
    WindowKeeps(accounts, ops, i, j, start);
    RateNonNegative(req, end - start);
    RateNonNegative(tok, end - start);
    var last := accounts[j].bucket.lastRefill;
    if start <= last {
      RateAdds(req, last - start, end - last);
      RateAdds(tok, last - start, end - last);
      RateNonNegative(req, end - last);
      RateNonNegative(tok, end - last);
    }
  }
}
