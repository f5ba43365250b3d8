/** Pruning idle buckets gives nothing away. A limiter that prunes is run beside
    one that never does; the second one is charged with exactly the requests
    the first accepts and credited with exactly the same settlements. */
module Pruning {
  import opened RateLimiter
  import opened Bounds = RateBound

  /** One client's bucket in the pruning limiter, gone while pruned, and the
      never-pruned account it is compared with. */
  datatype Pair = Pair(pruned: Slot, account: Account, clock: int)

  datatype Slot = Absent | Present(bucket: Bucket)

  datatype Event =
    | Check(need: nat, now: int)
    | Settle(index: nat, actual: nat)
    | Prune(now: int)

  predicate Possible(s: Pair, e: Event) {
    match e
    case Check(_, now) => s.clock <= now && s.account.bucket.lastRefill <= now
    case Settle(i, actual) => Legal(s.account, Settlement(i, actual))
    case Prune(now) => s.clock <= now
  }

  function BucketNow(s: Pair, policy: Policy, now: int): Bucket {
    match s.pruned
    case Present(b) => b
    case Absent => NewBucket(policy, now)
  }

  predicate AcceptedByPruning(s: Pair, policy: Policy, need: nat, now: int) {
    Consumed(BucketNow(s, policy, now), need, now).1.Allowed?
  }

  predicate AcceptedByReference(s: Pair, need: nat, now: int) {
    Consumed(s.account.bucket, need, now).1.Allowed?
  }

  function Next(s: Pair, policy: Policy, staleSecs: int, e: Event): Pair
    requires Possible(s, e)
  {
    match e
    case Check(need, now) =>
      Pair(Present(Consumed(BucketNow(s, policy, now), need, now).0),
           if AcceptedByPruning(s, policy, need, now) then Bounds.After(s.account, Request(need, now)) else s.account,
           now)
    case Settle(i, actual) =>
      Pair(match s.pruned
           case Present(b) => Present(Settled(b, s.account.pending[i], actual))
           case Absent => Absent,
           Bounds.After(s.account, Settlement(i, actual)), s.clock)
    case Prune(now) =>
      Pair(match s.pruned
           case Present(b) => if Kept(b, now, staleSecs) then s.pruned else Absent
           case Absent => Absent,
           s.account, now)
  }

  /** First contact creates both. */
  function Start(policy: Policy, now: int): Pair {
    Pair(Present(NewBucket(policy, now)), NewAccount(policy, now), now)
  }

  // ----- Levels as time passes -----

  lemma {:induction false} ToppedMonotone(x: real, y: real, limit: real, micros: int)
    requires x <= y
    ensures Topped(x, limit, micros) <= Topped(y, limit, micros)
  {
  }

  /** Refilling once earns at least what refilling twice earns. */
  lemma {:induction false} ToppedOnce(level: real, limit: real, a: int, b: int)
    requires InRange(level, limit) && a >= 0 && b >= 0
    ensures Topped(Topped(level, limit, a), limit, b) <= Topped(level, limit, a + b)
  {
    EarnedInParts(limit, a, b);
    EarnedBelowRate(limit, b);
  }

  lemma {:induction false} StillCovered(x: real, y: real, limit: real, a: int, b: int)
    requires InRange(x, limit) && a >= 0 && b >= 0 && y <= Topped(x, limit, a)
    ensures Topped(y, limit, b) <= Topped(x, limit, a + b)
  {
    ToppedMonotone(y, Topped(x, limit, a), limit, b);
    ToppedOnce(x, limit, a, b);
  }

  lemma {:induction false} RestedIsFull(level: real, limit: real, micros: int)
    requires InRange(level, limit) && micros >= Seconds(60)
    ensures limit <= Topped(level, limit, micros)
  {
    MinuteEarnsLimit(limit, micros);
  }

  lemma {:induction false} ToppedAtOnce(level: real, limit: real)
    requires InRange(level, limit)
    ensures Topped(level, limit, 0) == level
  {
    EarnedIsScaled(limit, 0);
  }

  // ----- The simulation -----

  ghost predicate Limits(b: Bucket, policy: Policy) {
    b.maxRequests == policy.maxRequestsPerMinute as real && b.maxTokens == policy.maxTokensPerMinute as real
  }

  /** Brought up to the same moment, `u` holds at least what `p` holds. */
  ghost predicate Covers(u: Bucket, p: Bucket) {
    && u.lastRefill <= p.lastRefill
    && p.requestTokens <= Topped(u.requestTokens, u.maxRequests, p.lastRefill - u.lastRefill)
    && p.outputTokens <= Topped(u.outputTokens, u.maxTokens, p.lastRefill - u.lastRefill)
  }

  ghost predicate Simulates(s: Pair, policy: Policy) {
    var u := s.account.bucket;
    && Levels(u) && Limits(u, policy) && u.lastRefill <= s.clock
    && match s.pruned
       case Present(p) => Levels(p) && Limits(p, policy) && p.lastRefill <= s.clock && Covers(u, p)
       case Absent => s.clock - u.lastRefill >= Seconds(60)
  }

  /** At a check, the never-pruned bucket is at least as full. */
  lemma {:induction false} FullerAt(s: Pair, policy: Policy, now: int)
    requires Simulates(s, policy) && s.clock <= now
    ensures
      var u, p := s.account.bucket, BucketNow(s, policy, now);
      && Levels(p) && Limits(p, policy) && p.lastRefill <= now
      && Topped(p.requestTokens, p.maxRequests, now - p.lastRefill)
           <= Topped(u.requestTokens, u.maxRequests, now - u.lastRefill)
      && Topped(p.outputTokens, p.maxTokens, now - p.lastRefill)
           <= Topped(u.outputTokens, u.maxTokens, now - u.lastRefill)
  {
    var u := s.account.bucket;
    match s.pruned
    case Present(p) =>
      StillCovered(u.requestTokens, p.requestTokens, u.maxRequests, p.lastRefill - u.lastRefill, now - p.lastRefill);
      StillCovered(u.outputTokens, p.outputTokens, u.maxTokens, p.lastRefill - u.lastRefill, now - p.lastRefill);
    case Absent =>
      NewLevels(policy, now);
      ToppedAtOnce(policy.maxRequestsPerMinute as real, policy.maxRequestsPerMinute as real);
      ToppedAtOnce(policy.maxTokensPerMinute as real, policy.maxTokensPerMinute as real);
      RestedIsFull(u.requestTokens, u.maxRequests, now - u.lastRefill);
      RestedIsFull(u.outputTokens, u.maxTokens, now - u.lastRefill);
  }

  /** Every request the pruning limiter accepts, the other accepts. */
  lemma {:induction false} AcceptedByBoth(s: Pair, policy: Policy, need: nat, now: int)
    requires Simulates(s, policy) && s.clock <= now && AcceptedByPruning(s, policy, need, now)
    ensures AcceptedByReference(s, need, now)
  {
    FullerAt(s, policy, now);
    RefillLevels(s.account.bucket, now);
    RefillLevels(BucketNow(s, policy, now), now);
  }

  lemma {:induction false} CheckSimulates(s: Pair, policy: Policy, staleSecs: int, need: nat, now: int)
    requires Simulates(s, policy) && Possible(s, Check(need, now))
    ensures Simulates(Next(s, policy, staleSecs, Check(need, now)), policy)
  {
    var u, p := s.account.bucket, BucketNow(s, policy, now);
    FullerAt(s, policy, now);
    RefillLevels(u, now);
    RefillLevels(p, now);
    if AcceptedByPruning(s, policy, need, now) {
      AcceptedByBoth(s, policy, need, now);
      var after := Consumed(u, need, now).0;
      ToppedAtOnce(after.requestTokens, after.maxRequests);
      ToppedAtOnce(after.outputTokens, after.maxTokens);
    }
  }

  lemma {:induction false} RefundCovers(x: real, y: real, limit: real, a: int, refund: real)
    requires InRange(x, limit) && a >= 0 && refund >= 0.0 && y <= Topped(x, limit, a)
    ensures Min(y + refund, limit * BURST) <= Topped(Min(x + refund, limit * BURST), limit, a)
  {
    EarnedBelowRate(limit, a);
  }

  lemma {:induction false} SettleSimulates(s: Pair, policy: Policy, staleSecs: int, i: nat, actual: nat)
    requires Simulates(s, policy) && Possible(s, Settle(i, actual))
    ensures Simulates(Next(s, policy, staleSecs, Settle(i, actual)), policy)
  {
    var u, reserved := s.account.bucket, s.account.pending[i];
    if reserved > actual && s.pruned.Present? {
      var p := s.pruned.bucket;
      RefundCovers(u.outputTokens, p.outputTokens, u.maxTokens, p.lastRefill - u.lastRefill, (reserved - actual) as real);
    }
  }

  lemma {:induction false} StepSimulates(s: Pair, policy: Policy, staleSecs: int, e: Event)
    requires staleSecs >= 60 && Simulates(s, policy) && Possible(s, e)
    ensures Simulates(Next(s, policy, staleSecs, e), policy)
  {
    match e
    case Check(need, now) => CheckSimulates(s, policy, staleSecs, need, now);
    case Settle(i, actual) => SettleSimulates(s, policy, staleSecs, i, actual);
    case Prune(now) =>
  }

  // ----- Every run -----

  ghost predicate Steps(s: Pair, policy: Policy, staleSecs: int, e: Event, next: Pair) {
    Possible(s, e) && next == Next(s, policy, staleSecs, e)
  }

  ghost predicate IsRun(policy: Policy, staleSecs: int, states: seq<Pair>, events: seq<Event>) {
    && |states| == |events| + 1
    && states[0] == Start(policy, states[0].clock)
    && forall k :: 0 <= k < |events| ==> Steps(states[k], policy, staleSecs, events[k], states[k + 1])
  }

  lemma {:induction false} RunSimulates(policy: Policy, staleSecs: int, states: seq<Pair>, events: seq<Event>, k: nat)
    requires staleSecs >= 60 && IsRun(policy, staleSecs, states, events) && k < |states|
    ensures Simulates(states[k], policy)
    decreases k
  {
    if k == 0 {
      NewLevels(policy, states[0].clock);
      ToppedAtOnce(policy.maxRequestsPerMinute as real, policy.maxRequestsPerMinute as real);
      ToppedAtOnce(policy.maxTokensPerMinute as real, policy.maxTokensPerMinute as real);
    } else {
      RunSimulates(policy, staleSecs, states, events, k - 1);
      assert Steps(states[k - 1], policy, staleSecs, events[k - 1], states[k]);
      StepSimulates(states[k - 1], policy, staleSecs, events[k - 1]);
    }
  }

  /** Through any interleaving of checks, prunes and late refunds, no check the
      pruning limiter accepts is one the other refuses. */
  ghost predicate PruningRefines(staleSecs: int) {
    forall policy: Policy, states: seq<Pair>, events: seq<Event>, k: nat ::
      k < |events| && IsRun(policy, staleSecs, states, events) ==>
        AcceptedIsAccepted(policy, states, events, k)
  }

  ghost predicate AcceptedIsAccepted(policy: Policy, states: seq<Pair>, events: seq<Event>, k: nat)
    requires k < |events| && k < |states|
  {
    events[k].Check? && AcceptedByPruning(states[k], policy, events[k].need, events[k].now) ==>
      AcceptedByReference(states[k], events[k].need, events[k].now)
  }

  /** Two requests a pruning apart, under a limit of one per minute. */
  lemma {:induction false} EarlyPruningForgets(staleSecs: int)
    returns (policy: Policy, states: seq<Pair>, events: seq<Event>)
    requires staleSecs < 60
    ensures IsRun(policy, staleSecs, states, events) && |events| == 3
    ensures !AcceptedIsAccepted(policy, states, events, 2)
  {
    policy := Policy(1, 0);
    var t := if staleSecs > 0 then Seconds(staleSecs) else 0;
    events := [Check(0, 0), Prune(t), Check(0, t)];
    var s0 := Start(policy, 0);
    EarnedIsScaled(1.0, 0);
    EarnedIsScaled(0.0, 0);
    EarnedIsScaled(1.0, t);
    assert Whole(t, MICROS_PER_MS) < 60_000;
    var s1 := Next(s0, policy, staleSecs, events[0]);
    assert s1.account.bucket.requestTokens == 0.0 && s1.account.bucket.outputTokens == 0.0;
    var s2 := Next(s1, policy, staleSecs, events[1]);
    assert s2.pruned == Absent && s2.account == s1.account;
    var s3 := Next(s2, policy, staleSecs, events[2]);
    states := [s0, s1, s2, s3];
    assert Steps(s0, policy, staleSecs, events[0], s1);
    assert Steps(s1, policy, staleSecs, events[1], s2);
    assert Steps(s2, policy, staleSecs, events[2], s3);
  }

  /** Pruning is a refinement exactly when it waits at least a minute. */
  lemma {:induction false} PruningRefinesIffItWaitsAMinute(staleSecs: int)
    ensures PruningRefines(staleSecs) <==> staleSecs >= 60
  {
    if staleSecs >= 60 {
      forall policy: Policy, states: seq<Pair>, events: seq<Event>, k: nat | k < |events| && IsRun(policy, staleSecs, states, events)
        ensures AcceptedIsAccepted(policy, states, events, k)
      {
        RunSimulates(policy, staleSecs, states, events, k);
        assert Steps(states[k], policy, staleSecs, events[k], states[k + 1]);
        if events[k].Check? && AcceptedByPruning(states[k], policy, events[k].need, events[k].now) {
          AcceptedByBoth(states[k], policy, events[k].need, events[k].now);
        }
      }
    } else {
      var policy, states, events := EarlyPruningForgets(staleSecs);
    }
  }

  lemma {:induction false} RunConserves(policy: Policy, staleSecs: int, states: seq<Pair>, events: seq<Event>, k: nat)
    requires IsRun(policy, staleSecs, states, events) && k < |states|
    ensures
      var req, tok := policy.maxRequestsPerMinute as real, policy.maxTokensPerMinute as real;
      Conserved(states[k].account, req, tok, states[0].clock)
    decreases k
  {
    var req, tok := policy.maxRequestsPerMinute as real, policy.maxTokensPerMinute as real;
    if k == 0 {
      NewLevels(policy, states[0].clock);
      assert Rate(req, 0) == 0.0 && Rate(tok, 0) == 0.0;
    } else {
      RunConserves(policy, staleSecs, states, events, k - 1);
      var s := states[k - 1];
      assert Steps(s, policy, staleSecs, events[k - 1], states[k]);
      match events[k - 1]
      case Check(need, now) => RequestConserves(s.account, need, now, req, tok, states[0].clock);
      case Settle(i, actual) => SettlementConserves(s.account, i, actual, req, tok, states[0].clock);
      case Prune(_) =>
    }
  }

  /** So the rate bound holds of the pruning limiter too: from first contact on,
      whatever was pruned in between, it accepts at most the limit plus what
      the elapsed time earns. */
  lemma {:induction false} PruningKeepsTheBound(policy: Policy, staleSecs: int, states: seq<Pair>, events: seq<Event>, k: nat)
    requires staleSecs >= 60 && IsRun(policy, staleSecs, states, events) && k < |states|
    ensures
      var req, tok := policy.maxRequestsPerMinute as real, policy.maxTokensPerMinute as real;
      var a, elapsed := states[k].account, states[k].clock - states[0].clock;
      && elapsed >= 0
      && a.allowed as real <= req + Rate(req, elapsed)
      && Taken(a) as real <= tok + Rate(tok, elapsed)
  {
    var req, tok := policy.maxRequestsPerMinute as real, policy.maxTokensPerMinute as real;
    RunSimulates(policy, staleSecs, states, events, k);
    RunConserves(policy, staleSecs, states, events, k);
    var last, now, start := states[k].account.bucket.lastRefill, states[k].clock, states[0].clock;
    RateAdds(req, last - start, now - last);
    RateAdds(tok, last - start, now - last);
    RateNonNegative(req, now - last);
    RateNonNegative(tok, now - last);
  }

  // ----- Which buckets a prune keeps -----

  /** The latest check by step `k` is the one that ended at state `p`; none if `p`
      is the start. */
  ghost predicate LatestContact(events: seq<Event>, k: nat, p: nat)
    requires p <= k <= |events|
  {
    (p > 0 ==> events[p - 1].Check?) && forall q :: p <= q < k ==> !events[q].Check?
  }

  /** When the client was last heard of. */
  function Contact(states: seq<Pair>, events: seq<Event>, p: nat): int
    requires p <= |events| < |states|
  {
    if p > 0 && events[p - 1].Check? then events[p - 1].now else states[0].clock
  }

  ghost predicate Spares(e: Event, contact: int, staleSecs: int) {
    e.Prune? ==> e.now - contact < Seconds(staleSecs)
  }

  /** Over every run, a bucket is there exactly while no prune has come the waiting
      time or more after its client's latest check, accepted or not. */
  lemma {:induction false} PrunesExactlyTheIdle(
      policy: Policy, staleSecs: int, states: seq<Pair>, events: seq<Event>, k: nat, p: nat)
    requires IsRun(policy, staleSecs, states, events) && p <= k < |states| && LatestContact(events, k, p)
    ensures states[k].pruned.Present? <==> forall q :: p <= q < k ==> Spares(events[q], Contact(states, events, p), staleSecs)
    ensures states[k].pruned.Present? ==> states[k].pruned.bucket.lastRefill == Contact(states, events, p)
    decreases k
  {
    if k > 0 {
      assert Steps(states[k - 1], policy, staleSecs, events[k - 1], states[k]);
    }
    if p < k {
      PrunesExactlyTheIdle(policy, staleSecs, states, events, k - 1, p);
    }
  }

  // ----- One client of the shared map -----

  function SlotIn(m: Buckets, client: string): Slot {
    if client in m then Present(m[client]) else Absent
  }

  /** What the map operations do to one client is what the steps above do, and
      nothing done for another client touches it. */
  lemma {:induction false} ClientsAreIndependent(m: Buckets, s: Pair, client: string, other: string, policy: Policy,
                                                 staleSecs: int, need: nat, i: nat, actual: nat, now: int)
    requires s.pruned == SlotIn(m, client) && client != other
    ensures SlotIn(Checked(m, other, need, policy, now).0, client) == s.pruned
    ensures SlotIn(SettledIn(m, other, need, actual), client) == s.pruned
    ensures Possible(s, Check(need, now)) ==>
              && SlotIn(Checked(m, client, need, policy, now).0, client) == Next(s, policy, staleSecs, Check(need, now)).pruned
              && (Checked(m, client, need, policy, now).1.Allowed? <==> AcceptedByPruning(s, policy, need, now))
    ensures Possible(s, Settle(i, actual)) ==>
              SlotIn(SettledIn(m, client, s.account.pending[i], actual), client)
              == Next(s, policy, staleSecs, Settle(i, actual)).pruned
    ensures Possible(s, Prune(now)) ==>
              SlotIn(Pruned(m, now, staleSecs), client) == Next(s, policy, staleSecs, Prune(now)).pruned
  {
  }
}
