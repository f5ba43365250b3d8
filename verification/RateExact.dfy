/** The books of a bucket balance exactly: nothing vanishes but what overflows a
    full bucket, so a request is refused only when the account is short. */
module RateExact {
  import opened Prelude
  import opened RateLimiter
  import opened RateBound

  // ----- One settlement -----

  /** What a refund leaves, whatever happened to the bucket since it was charged:
      the difference comes back up to the burst, nothing does when as much or more
      was generated, and nothing else moves. */
  lemma {:induction false} SettlementRefunds(b: Bucket, reserved: nat, actual: nat)
    requires b.outputTokens <= b.maxTokens * BURST
    ensures
      var s, back := Settled(b, reserved, actual), if actual < reserved then reserved - actual else 0;
      && b.outputTokens <= s.outputTokens <= b.maxTokens * BURST
      && s.outputTokens <= b.outputTokens + back as real
      && (s.outputTokens == b.outputTokens + back as real || s.outputTokens == b.maxTokens * BURST)
      && s == b.(outputTokens := s.outputTokens)
      && (reserved <= actual ==> s == b)
  {
  }

  /** Settled at once, a reservation costs exactly what was generated. */
  lemma {:induction false} SettleAtOnce(b: Bucket, need: nat, actual: nat, now: int)
    requires Consumed(b, need, now).1.Allowed? && actual <= need
    ensures
      var s := Settled(Consumed(b, need, now).0, need, actual);
      && s.outputTokens == Topped(b.outputTokens, b.maxTokens, now - b.lastRefill) - actual as real
      && s.requestTokens == Topped(b.requestTokens, b.maxRequests, now - b.lastRefill) - 1.0
      && s == Refilled(b, now).(outputTokens := s.outputTokens, requestTokens := s.requestTokens)
  {
  }

  /** Reserving more and settling is charging what was generated. */
  lemma {:induction false} ReservingIsCharging(b: Bucket, need: nat, actual: nat, now: int)
    requires Consumed(b, need, now).1.Allowed? && actual <= need
    ensures Consumed(b, actual, now).1.Allowed?
    ensures Settled(Consumed(b, need, now).0, need, actual) == Consumed(b, actual, now).0
  {
  }

  lemma {:induction false} NoLapse(limit: real)
    ensures Earned(limit, 0) == 0.0
  {
    EarnedIsScaled(limit, 0);
  }

  /** A client met for the first time has its limit for a minute, and no more. */
  lemma {:induction false} FirstRequest(m: Buckets, client: string, need: nat, policy: Policy, now: int)
    requires client !in m
    ensures
      var (next, r) := Checked(m, client, need, policy, now);
      var asked, held := policy.maxRequestsPerMinute >= 1, policy.maxTokensPerMinute >= need;
      && (r.Allowed? <==> asked && held)
      && (r.RequestLimitExceeded? <==> !asked)
      && (r.TokenLimitExceeded? ==> r.available == policy.maxTokensPerMinute)
      && next.Keys == m.Keys + {client}
      && next[client].requestTokens == (policy.maxRequestsPerMinute - if r.Allowed? then 1 else 0) as real
      && next[client].outputTokens == (policy.maxTokensPerMinute - if r.Allowed? then need else 0) as real
  {
    NoLapse(policy.maxRequestsPerMinute as real);
    NoLapse(policy.maxTokensPerMinute as real);
  }

  // ----- The books -----

  /** Everything that came into an account, and what a full bucket let run over. */
  datatype Book = Book(earned: real, spilled: real)

  /** What does not fit of a level. */
  function Excess(level: real, limit: real): real {
    if level > limit * BURST then level - limit * BURST else 0.0
  }

  function Refund(a: Account, op: Op): nat
    requires Legal(a, op)
  {
    if op.Settlement? then a.pending[op.index] - op.actual else 0
  }

  function Lapse(a: Account, op: Op): int {
    if op.Request? then op.now - a.bucket.lastRefill else 0
  }

  /** The requests earned in the first `k` steps of a run. */
  function RequestBook(accounts: seq<Account>, ops: seq<Op>, k: nat): Book
    requires k <= |ops| < |accounts|
  {
    if k == 0 then Book(0.0, 0.0)
    else
      var sofar, a := RequestBook(accounts, ops, k - 1), accounts[k - 1];
      var more := Earned(a.bucket.maxRequests, Lapse(a, ops[k - 1]));
      Book(sofar.earned + more, sofar.spilled + Excess(a.bucket.requestTokens + more, a.bucket.maxRequests))
  }

  function TokenBook(accounts: seq<Account>, ops: seq<Op>, k: nat): Book
    requires IsRun(accounts, ops) && k <= |ops|
  {
    if k == 0 then Book(0.0, 0.0)
    else
      var sofar, a := TokenBook(accounts, ops, k - 1), accounts[k - 1];
      assert Steps(a, ops[k - 1], accounts[k]);
      var more := Earned(a.bucket.maxTokens, Lapse(a, ops[k - 1]));
      Book(sofar.earned + more,
           sofar.spilled
           + Excess(a.bucket.outputTokens + more + Refund(a, ops[k - 1]) as real, a.bucket.maxTokens))
  }

  /** Every level is what the bucket started with and earned, less what was taken
      and what ran over. */
  ghost predicate Balances(accounts: seq<Account>, ops: seq<Op>, k: nat)
    requires IsRun(accounts, ops) && k <= |ops|
  {
    var first, a := accounts[0], accounts[k];
    var req, tok := RequestBook(accounts, ops, k), TokenBook(accounts, ops, k);
    && a.bucket.requestTokens + a.allowed as real + req.spilled
       == first.bucket.requestTokens + first.allowed as real + req.earned
    && a.bucket.outputTokens + Taken(a) as real + tok.spilled
       == first.bucket.outputTokens + Taken(first) as real + tok.earned
  }

  lemma {:induction false} RequestBalances(accounts: seq<Account>, ops: seq<Op>, k: nat)
    requires IsRun(accounts, ops) && 0 < k <= |ops| && ops[k - 1].Request?
    requires Balances(accounts, ops, k - 1)
    ensures Balances(accounts, ops, k)
  {
    var a, op := accounts[k - 1], ops[k - 1];
    assert Steps(a, op, accounts[k]);
    SumSnoc(a.pending, op.need);
  }

  lemma {:induction false} SettlementBalances(accounts: seq<Account>, ops: seq<Op>, k: nat)
    requires IsRun(accounts, ops) && 0 < k <= |ops| && ops[k - 1].Settlement?
    requires Balances(accounts, ops, k - 1) && Levels(accounts[k - 1].bucket)
    ensures Balances(accounts, ops, k)
  {
    var a, op := accounts[k - 1], ops[k - 1];
    assert Steps(a, op, accounts[k]);
    SumWithout(a.pending, op.index);
    NoLapse(a.bucket.maxRequests);
    NoLapse(a.bucket.maxTokens);
    assert Taken(accounts[k]) + Refund(a, op) == Taken(a);
  }

  lemma {:induction false} LevelsStay(accounts: seq<Account>, ops: seq<Op>, k: nat)
    requires IsRun(accounts, ops) && k <= |ops| && Levels(accounts[0].bucket)
    ensures Levels(accounts[k].bucket)
    ensures accounts[k].bucket.maxRequests == accounts[0].bucket.maxRequests
    ensures accounts[k].bucket.maxTokens == accounts[0].bucket.maxTokens
    decreases k
  {
    if k > 0 {
      LevelsStay(accounts, ops, k - 1);
      var a, op := accounts[k - 1], ops[k - 1];
      assert Steps(a, op, accounts[k]);
      if op.Request? {
        RefillLevels(a.bucket, op.now);
      }
    }
  }

  /** Exact conservation, over every run. */
  lemma {:induction false} BooksBalance(accounts: seq<Account>, ops: seq<Op>, k: nat)
    requires IsRun(accounts, ops) && k <= |ops| && Levels(accounts[0].bucket)
    ensures Balances(accounts, ops, k)
    decreases k
  {
    if k > 0 {
      BooksBalance(accounts, ops, k - 1);
      LevelsStay(accounts, ops, k - 1);
      if ops[k - 1].Request? {
        RequestBalances(accounts, ops, k);
      } else {
        SettlementBalances(accounts, ops, k);
      }
    }
  }

  // ----- What the passing time earns -----

  /** A refill rounds away less than a millisecond. */
  lemma {:induction false} EarnedNearRate(limit: real, micros: int)
    requires limit >= 0.0 && micros >= 0
    ensures Rate(limit, micros) - Rate(limit, MICROS_PER_MS) <= Earned(limit, micros) <= Rate(limit, micros)
  {
    EarnedBelowRate(limit, micros);
    EarnedIsScaled(limit, micros);
    var ms := Whole(micros, MICROS_PER_MS);
    assert Earned(limit, micros) == Rate(limit, ms * 1000) by {
      RateIsScaled(limit, ms * 1000);
      assert (ms * 1000) as real / 60_000_000.0 == ms as real / 60_000.0;
    }
    RateAdds(limit, ms * 1000, micros - ms * 1000);
    RateAdds(limit, micros - ms * 1000, 1000 - (micros - ms * 1000));
    RateNonNegative(limit, 1000 - (micros - ms * 1000));
  }

  function Refills(ops: seq<Op>, k: nat): nat
    requires k <= |ops|
  {
    if k == 0 then 0 else Refills(ops, k - 1) + if ops[k - 1].Request? then 1 else 0
  }

  /** Within a millisecond a request of what the elapsed time earns. */
  ghost predicate Tracks(earned: real, limit: real, micros: int, refills: nat) {
    Rate(limit, micros) - refills as real * Rate(limit, MICROS_PER_MS) <= earned <= Rate(limit, micros)
  }

  lemma {:induction false} TracksOn(earned: real, limit: real, micros: int, refills: nat, more: int)
    requires limit >= 0.0 && more >= 0 && Tracks(earned, limit, micros, refills)
    ensures Tracks(earned + Earned(limit, more), limit, micros + more, refills + 1)
  {
    EarnedNearRate(limit, more);
    RateAdds(limit, micros, more);
    var ms := Rate(limit, MICROS_PER_MS);
    assert (refills + 1) as real * ms == refills as real * ms + ms;
  }

  lemma {:induction false} TracksStill(earned: real, limit: real, micros: int, refills: nat)
    requires Tracks(earned, limit, micros, refills)
    ensures Tracks(earned + Earned(limit, 0), limit, micros + 0, refills)
  {
    NoLapse(limit);
  }

  /** The clock and the count of refills after one step. */
  lemma {:induction false} LapseOfStep(a: Account, op: Op)
    requires Legal(a, op)
    ensures After(a, op).bucket.lastRefill == a.bucket.lastRefill + Lapse(a, op) && Lapse(a, op) >= 0
    ensures op.Settlement? ==> Lapse(a, op) == 0
  {
  }

  lemma {:induction false} TracksStep(earned: real, limit: real, micros: int, refills: nat, a: Account, op: Op)
    requires limit >= 0.0 && Legal(a, op) && Tracks(earned, limit, micros, refills)
    ensures Tracks(earned + Earned(limit, Lapse(a, op)), limit, micros + Lapse(a, op), refills + if op.Request? then 1 else 0)
  {
    LapseOfStep(a, op);
    if op.Request? {
      TracksOn(earned, limit, micros, refills, Lapse(a, op));
    } else {
      TracksStill(earned, limit, micros, refills);
    }
  }

  function Elapsed(accounts: seq<Account>, k: nat): int
    requires k < |accounts|
  {
    accounts[k].bucket.lastRefill - accounts[0].bucket.lastRefill
  }

  lemma {:induction false} RequestsTrackTime(accounts: seq<Account>, ops: seq<Op>, k: nat)
    requires IsRun(accounts, ops) && k <= |ops| && Levels(accounts[0].bucket)
    ensures Tracks(RequestBook(accounts, ops, k).earned, accounts[0].bucket.maxRequests, Elapsed(accounts, k), Refills(ops, k))
    decreases k
  {
    if k > 0 {
      RequestsTrackTime(accounts, ops, k - 1);
      LevelsStay(accounts, ops, k - 1);
      var a, op := accounts[k - 1], ops[k - 1];
      assert Steps(a, op, accounts[k]);
      LapseOfStep(a, op);
      TracksStep(RequestBook(accounts, ops, k - 1).earned, a.bucket.maxRequests, Elapsed(accounts, k - 1), Refills(ops, k - 1), a, op);
    }
  }

  lemma {:induction false} TokensTrackTime(accounts: seq<Account>, ops: seq<Op>, k: nat)
    requires IsRun(accounts, ops) && k <= |ops| && Levels(accounts[0].bucket)
    ensures Tracks(TokenBook(accounts, ops, k).earned, accounts[0].bucket.maxTokens, Elapsed(accounts, k), Refills(ops, k))
    decreases k
  {
    if k > 0 {
      TokensTrackTime(accounts, ops, k - 1);
      LevelsStay(accounts, ops, k - 1);
      var a, op := accounts[k - 1], ops[k - 1];
      assert Steps(a, op, accounts[k]);
      LapseOfStep(a, op);
      TracksStep(TokenBook(accounts, ops, k - 1).earned, a.bucket.maxTokens, Elapsed(accounts, k - 1), Refills(ops, k - 1), a, op);
    }
  }

  /** Over every run, what was earned is what the elapsed time earns, short of at
      most a millisecond for each request. */
  lemma {:induction false} EarnedTracksTime(accounts: seq<Account>, ops: seq<Op>, k: nat)
    requires IsRun(accounts, ops) && k <= |ops| && Levels(accounts[0].bucket)
    ensures
      var b, elapsed := accounts[0].bucket, accounts[k].bucket.lastRefill - accounts[0].bucket.lastRefill;
      && Tracks(RequestBook(accounts, ops, k).earned, b.maxRequests, elapsed, Refills(ops, k))
      && Tracks(TokenBook(accounts, ops, k).earned, b.maxTokens, elapsed, Refills(ops, k))
  {
    RequestsTrackTime(accounts, ops, k);
    TokensTrackTime(accounts, ops, k);
  }

  // ----- Until a bucket is full -----

  /** What step `j` brings in fits the bucket. */
  ghost predicate TokensFit(accounts: seq<Account>, ops: seq<Op>, j: nat)
    requires IsRun(accounts, ops) && j < |ops|
  {
    assert Steps(accounts[j], ops[j], accounts[j + 1]);
    var b := accounts[j].bucket;
    b.outputTokens + Earned(b.maxTokens, Lapse(accounts[j], ops[j])) + Refund(accounts[j], ops[j]) as real
    <= b.maxTokens * BURST
  }

  ghost predicate RequestsFit(accounts: seq<Account>, ops: seq<Op>, j: nat)
    requires j < |ops| < |accounts|
  {
    var b := accounts[j].bucket;
    b.requestTokens + Earned(b.maxRequests, Lapse(accounts[j], ops[j])) <= b.maxRequests * BURST
  }

  lemma {:induction false} RequestSpill(accounts: seq<Account>, ops: seq<Op>, k: nat)
    requires 0 < k <= |ops| < |accounts|
    ensures
      var before, now := RequestBook(accounts, ops, k - 1).spilled, RequestBook(accounts, ops, k).spilled;
      before <= now && (now == before <==> RequestsFit(accounts, ops, k - 1))
  {
  }

  lemma {:induction false} TokenSpill(accounts: seq<Account>, ops: seq<Op>, k: nat)
    requires IsRun(accounts, ops) && 0 < k <= |ops|
    ensures
      var before, now := TokenBook(accounts, ops, k - 1).spilled, TokenBook(accounts, ops, k).spilled;
      before <= now && (now == before <==> TokensFit(accounts, ops, k - 1))
  {
  }

  ghost predicate AllTokensFit(accounts: seq<Account>, ops: seq<Op>, k: nat)
    requires IsRun(accounts, ops) && k <= |ops|
  {
    forall j :: 0 <= j < k ==> TokensFit(accounts, ops, j)
  }

  ghost predicate AllRequestsFit(accounts: seq<Account>, ops: seq<Op>, k: nat)
    requires k <= |ops| < |accounts|
  {
    forall j :: 0 <= j < k ==> RequestsFit(accounts, ops, j)
  }

  lemma {:induction false} OneMoreFits(accounts: seq<Account>, ops: seq<Op>, k: nat)
    requires IsRun(accounts, ops) && 0 < k <= |ops|
    ensures AllTokensFit(accounts, ops, k) <==> AllTokensFit(accounts, ops, k - 1) && TokensFit(accounts, ops, k - 1)
    ensures AllRequestsFit(accounts, ops, k) <==> AllRequestsFit(accounts, ops, k - 1) && RequestsFit(accounts, ops, k - 1)
  {
  }

  lemma {:induction false} RequestsSpillIff(accounts: seq<Account>, ops: seq<Op>, k: nat)
    requires IsRun(accounts, ops) && k <= |ops|
    ensures RequestBook(accounts, ops, k).spilled >= 0.0
    ensures RequestBook(accounts, ops, k).spilled == 0.0 <==> AllRequestsFit(accounts, ops, k)
    decreases k
  {
    if k > 0 {
      RequestsSpillIff(accounts, ops, k - 1);
      RequestSpill(accounts, ops, k);
      OneMoreFits(accounts, ops, k);
    }
  }

  lemma {:induction false} TokensSpillIff(accounts: seq<Account>, ops: seq<Op>, k: nat)
    requires IsRun(accounts, ops) && k <= |ops|
    ensures TokenBook(accounts, ops, k).spilled >= 0.0
    ensures TokenBook(accounts, ops, k).spilled == 0.0 <==> AllTokensFit(accounts, ops, k)
    decreases k
  {
    if k > 0 {
      TokensSpillIff(accounts, ops, k - 1);
      TokenSpill(accounts, ops, k);
      OneMoreFits(accounts, ops, k);
    }
  }

  /** Until something runs over, level and takings add up to the start and what was
      earned, to the last fraction; and never again after. */
  lemma {:induction false} ExactUntilFull(accounts: seq<Account>, ops: seq<Op>, k: nat)
    requires IsRun(accounts, ops) && k <= |ops| && Levels(accounts[0].bucket)
    ensures
      AllTokensFit(accounts, ops, k)
      <==> accounts[k].bucket.outputTokens + Taken(accounts[k]) as real
           == accounts[0].bucket.outputTokens + Taken(accounts[0]) as real + TokenBook(accounts, ops, k).earned
    ensures
      AllRequestsFit(accounts, ops, k)
      <==> accounts[k].bucket.requestTokens + accounts[k].allowed as real
           == accounts[0].bucket.requestTokens + accounts[0].allowed as real + RequestBook(accounts, ops, k).earned
  {
    BooksBalance(accounts, ops, k);
    RequestsSpillIff(accounts, ops, k);
    TokensSpillIff(accounts, ops, k);
  }

  // ----- Refused only when short -----

  /** What the books say is left when step `k` asks. */
  ghost function RequestsLeft(accounts: seq<Account>, ops: seq<Op>, k: nat): real
    requires k < |ops| < |accounts|
  {
    var book := RequestBook(accounts, ops, k + 1);
    accounts[0].bucket.requestTokens + accounts[0].allowed as real + book.earned - book.spilled - accounts[k].allowed as real
  }

  ghost function TokensLeft(accounts: seq<Account>, ops: seq<Op>, k: nat): real
    requires IsRun(accounts, ops) && k < |ops|
  {
    var book := TokenBook(accounts, ops, k + 1);
    accounts[0].bucket.outputTokens + Taken(accounts[0]) as real + book.earned - book.spilled - Taken(accounts[k]) as real
  }

  lemma {:induction false} LeftIsRefilled(accounts: seq<Account>, ops: seq<Op>, k: nat)
    requires IsRun(accounts, ops) && k < |ops| && ops[k].Request? && Levels(accounts[0].bucket)
    ensures
      var r := Refilled(accounts[k].bucket, ops[k].now);
      r.requestTokens == RequestsLeft(accounts, ops, k) && r.outputTokens == TokensLeft(accounts, ops, k)
  {
    BooksBalance(accounts, ops, k);
  }

  /** Over every run, a request is allowed exactly when the books leave a whole
      request and as many tokens as it may need; otherwise the answer names the
      shortage, and for tokens how many whole ones are left. */
  lemma {:induction false} RefusedOnlyWhenShort(accounts: seq<Account>, ops: seq<Op>, k: nat)
    requires IsRun(accounts, ops) && k < |ops| && ops[k].Request? && Levels(accounts[0].bucket)
    ensures
      var r := Consumed(accounts[k].bucket, ops[k].need, ops[k].now).1;
      var requests, tokens := RequestsLeft(accounts, ops, k), TokensLeft(accounts, ops, k);
      && (r.Allowed? <==> requests >= 1.0 && tokens >= ops[k].need as real)
      && (r.RequestLimitExceeded? <==> requests < 1.0)
      && (!r.Allowed? ==> r.violations == accounts[k + 1].bucket.violations)
      && (r.TokenLimitExceeded? ==> r.available as real <= tokens < (r.available + 1) as real)
      && accounts[k + 1].allowed == accounts[k].allowed + (if r.Allowed? then 1 else 0)
      && Taken(accounts[k + 1]) == Taken(accounts[k]) + (if r.Allowed? then ops[k].need else 0)
  {
    LeftIsRefilled(accounts, ops, k);
    assert Steps(accounts[k], ops[k], accounts[k + 1]);
    SumSnoc(accounts[k].pending, ops[k].need);
  }

  // ----- The count a refusal reports -----

  predicate Refused(a: Account, op: Op) {
    op.Request? && !Consumed(a.bucket, op.need, op.now).1.Allowed?
  }

  /** The refusals among steps `i` to `k`. */
  function Refusals(accounts: seq<Account>, ops: seq<Op>, i: nat, k: nat): nat
    requires i <= k <= |ops| < |accounts|
    decreases k
  {
    if k == i then 0
    else Refusals(accounts, ops, i, k - 1) + if Refused(accounts[k - 1], ops[k - 1]) then 1 else 0
  }

  predicate Begins(a: Account, op: Op) {
    op.Request? && op.now - a.bucket.windowStart >= Seconds(60)
  }

  /** The window now running began at state `i`, by a request a minute or more after
      the window before it began; none since came a minute after. */
  ghost predicate WindowBegan(accounts: seq<Account>, ops: seq<Op>, i: nat, k: nat)
    requires i <= k <= |ops| < |accounts|
  {
    && (i > 0 ==> Begins(accounts[i - 1], ops[i - 1]))
    && (forall j :: i <= j < k ==> Within(ops[j], WindowStart(accounts, ops, i)))
  }

  predicate Within(op: Op, start: int) {
    op.Request? ==> op.now - start < Seconds(60)
  }

  function WindowStart(accounts: seq<Account>, ops: seq<Op>, i: nat): int
    requires i <= |ops| < |accounts|
  {
    if i > 0 && ops[i - 1].Request? then ops[i - 1].now else accounts[0].bucket.windowStart
  }

  lemma {:induction false} CountedStep(a: Account, op: Op)
    requires Legal(a, op)
    ensures
      var b, next := a.bucket, After(a, op).bucket;
      && next.windowStart == (if Begins(a, op) then op.now else b.windowStart)
      && next.violations == (if Begins(a, op) then 0 else b.violations) + if Refused(a, op) then 1 else 0
  {
  }

  /** The count and the window, given where the window began. */
  ghost predicate Counted(accounts: seq<Account>, ops: seq<Op>, i: nat, k: nat)
    requires i <= k <= |ops| < |accounts|
  {
    && accounts[k].bucket.windowStart == WindowStart(accounts, ops, i)
    && accounts[k].bucket.violations == Refusals(accounts, ops, if i > 0 then i - 1 else 0, k)
  }

  lemma {:induction false} CountedOn(accounts: seq<Account>, ops: seq<Op>, i: nat, k: nat)
    requires IsRun(accounts, ops) && i < k <= |ops|
    requires Counted(accounts, ops, i, k - 1) && !Begins(accounts[k - 1], ops[k - 1])
    ensures Counted(accounts, ops, i, k) && Within(ops[k - 1], WindowStart(accounts, ops, i))
  {
    assert Steps(accounts[k - 1], ops[k - 1], accounts[k]);
    CountedStep(accounts[k - 1], ops[k - 1]);
  }

  lemma {:induction false} CountedAfresh(accounts: seq<Account>, ops: seq<Op>, k: nat)
    requires IsRun(accounts, ops) && 0 < k <= |ops| && Begins(accounts[k - 1], ops[k - 1])
    ensures Counted(accounts, ops, k, k)
  {
    assert Steps(accounts[k - 1], ops[k - 1], accounts[k]);
    CountedStep(accounts[k - 1], ops[k - 1]);
    assert Refusals(accounts, ops, k - 1, k - 1) == 0;
  }

  /** Over every run, the count is that of the refusals since the window began,
      the request that began it included. */
  lemma {:induction false} ViolationsAreRefusals(accounts: seq<Account>, ops: seq<Op>, k: nat) returns (i: nat)
    requires IsRun(accounts, ops) && k <= |ops| && accounts[0].bucket.violations == 0
    ensures i <= k && WindowBegan(accounts, ops, i, k) && Counted(accounts, ops, i, k)
    decreases k
  {
    if k == 0 {
      i := 0;
    } else if Begins(accounts[k - 1], ops[k - 1]) {
      i := k;
      CountedAfresh(accounts, ops, k);
    } else {
      i := ViolationsAreRefusals(accounts, ops, k - 1);
      CountedOn(accounts, ops, i, k);
    }
  }
}
