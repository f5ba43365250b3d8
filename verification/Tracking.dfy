/** Which keys a bounded map of counters follows: what a sweep keeps, and when a
    new key is taken in. */
module Tracking {
  import opened Prelude
  import opened AttackWindows

  /** An event of this counter is still inside the window. */
  ghost predicate Holding(c: Counter, window: int, now: int) {
    exists i :: 0 <= i < |c.events| && c.events[i] > now - window
  }

  /** Every counter holds its events in order, none of them later than this. */
  ghost predicate InOrder(c: Counter, clock: int) {
    Ordered(c.events) && (c.events != [] ==> c.events[|c.events| - 1] <= clock)
  }

  ghost predicate AllInOrder(m: map<string, Counter>, clock: int) {
    forall k :: k in m ==> InOrder(m[k], clock)
  }

  // ----- One counter -----

  /** Pruning keeps exactly the events inside the window. */
  lemma {:induction false} PruningKeepsTheLive(c: Counter, window: int, now: int, clock: int)
    requires InOrder(c, clock)
    ensures
      var p := Pruned(c, window, now);
      && |p.events| <= |c.events| && p.events == c.events[|c.events| - |p.events|..]
      && (forall i :: 0 <= i < |c.events| ==> (c.events[i] > now - window <==> i >= |c.events| - |p.events|))
      && (p.events != [] <==> Holding(c, window, now))
      && (p.events != [] ==> p.saturatedBy == c.saturatedBy)
  {
    LapsedSplits(c.events, now - window);
    PrunedEvents(c, window, now);
  }

  lemma {:induction false} PrunedInOrder(c: Counter, window: int, now: int, clock: int)
    requires InOrder(c, clock) && clock <= now
    ensures InOrder(Pruned(c, window, now), now)
  {
    PrunedEvents(c, window, now);
    OrderedDrop(c.events, Lapsed(c.events, now - window));
  }

  lemma {:induction false} IncrementedInOrder(c: Counter, window: int, now: int, clock: int)
    requires InOrder(c, clock) && clock <= now
    ensures InOrder(Incremented(c, window, now), now)
  {
    PrunedInOrder(c, window, now, clock);
    OrderedSnoc(Pruned(c, window, now).events, now);
  }

  // ----- A flood -----

  /** However many events a full counter is sent inside its window, it counts them
      all, up to the largest number 32 bits hold, and stays there. */
  lemma {:induction false} FloodIsCounted(window: int, t: int, d: nat)
    requires 0 < t < window
    ensures Total(Replay(Times(0, MAX_EVENTS) + Times(t, d), window))
            == if MAX_EVENTS + d < 0xFFFF_FFFF then MAX_EVENTS + d else 0xFFFF_FFFF
  {
    Overflows(window, t, d);
  }

  // ----- One sweep -----

  /** A sweep keeps exactly the keys with an event still inside the window. */
  lemma {:induction false} SweepKeepsTheLive(m: map<string, Counter>, window: int, now: int, clock: int, key: string)
    requires AllInOrder(m, clock)
    ensures key in Swept(m, window, now) <==> key in m && Holding(m[key], window, now)
    ensures key in Swept(m, window, now) ==> Swept(m, window, now)[key] == Pruned(m[key], window, now)
  {
    if key in m {
      PruningKeepsTheLive(m[key], window, now, clock);
    }
  }

  lemma {:induction false} SweptInOrder(m: map<string, Counter>, window: int, now: int, clock: int)
    requires AllInOrder(m, clock) && clock <= now
    ensures AllInOrder(Swept(m, window, now), now)
  {
    forall k | k in Swept(m, window, now) ensures InOrder(Swept(m, window, now)[k], now) {
      PrunedInOrder(m[k], window, now, clock);
    }
  }

  /** It makes room exactly when some key holds none. */
  lemma {:induction false} SweepMakesRoomIff(m: map<string, Counter>, window: int, now: int, clock: int)
    requires AllInOrder(m, clock)
    ensures |Swept(m, window, now)| <= |m|
    ensures |Swept(m, window, now)| == |m| <==> forall k :: k in m ==> Holding(m[k], window, now)
  {
    var s := Swept(m, window, now);
    assert |s| == |s.Keys| && |m| == |m.Keys|;
    forall k ensures k in s.Keys <==> k in m && Holding(m[k], window, now) {
      SweepKeepsTheLive(m, window, now, clock, k);
    }
    SubsetSize(s.Keys, m.Keys);
    if k :| k in m && !Holding(m[k], window, now) {
      SubsetSize(s.Keys, m.Keys - {k});
    } else {
      assert s.Keys == m.Keys;
    }
  }

  // ----- One record -----

  lemma {:induction false} RecordDeclines(m: map<string, Counter>, lastSweep: int, window: int, key: string, now: int, clock: int)
    requires AllInOrder(m, clock) && |m| <= MAX_TRACKED_KEYS
    ensures
      AfterRecord(m, lastSweep, window, key, now).2.NotTracked?
      <==> (&& key !in m && |m| == MAX_TRACKED_KEYS
            && (now - lastSweep < SWEEP_INTERVAL * MICROS_PER_SECOND || forall k :: k in m ==> Holding(m[k], window, now)))
  {
    SweepMakesRoomIff(m, window, now, clock);
  }

  lemma {:induction false} RecordInOrder(m: map<string, Counter>, lastSweep: int, window: int, key: string, now: int, clock: int)
    requires AllInOrder(m, clock) && clock <= now
    ensures AllInOrder(AfterRecord(m, lastSweep, window, key, now).0, now)
  {
    SweptInOrder(m, window, now, clock);
    var room := MakeRoom(m, lastSweep, window, key, now).0;
    assert AllInOrder(room, now);
    IncrementedInOrder(Held(SlotOf(room, key)), window, now, now);
  }

  // ----- Every run -----

  lemma {:induction false} RunInOrder(window: int, followed: string, states: seq<Tracker>, ops: seq<Op>, k: nat)
    requires IsRun(window, followed, states, ops) && k < |states|
    ensures AllInOrder(states[k].counters, states[k].clock)
    decreases k
  {
    if k > 0 {
      RunInOrder(window, followed, states, ops, k - 1);
      var s := states[k - 1];
      assert Steps(s, window, followed, ops[k - 1], states[k]);
      match ops[k - 1]
      case Rec(key, now) => RecordInOrder(s.counters, s.lastSweep, window, key, now, s.clock);
      case Cleanup(now) => SweptInOrder(s.counters, window, now, s.clock);
    }
  }

  /** Step `k` looks through the whole map: a cleanup, or a new key that finds the
      map full a second or more after the last time. */
  predicate Sweeps(s: Tracker, op: Op) {
    match op
    case Cleanup(_) => true
    case Rec(key, now) =>
      key !in s.counters && |s.counters| == MAX_TRACKED_KEYS && now - s.lastSweep >= SWEEP_INTERVAL * MICROS_PER_SECOND
  }

  ghost predicate LatestSweep(states: seq<Tracker>, ops: seq<Op>, k: nat, p: nat)
    requires p <= k <= |ops| < |states|
  {
    (p > 0 ==> Sweeps(states[p - 1], ops[p - 1])) && forall q :: p <= q < k ==> !Sweeps(states[q], ops[q])
  }

  lemma {:induction false} SweepMovesClock(s: Tracker, window: int, followed: string, op: Op)
    requires |s.counters| <= MAX_TRACKED_KEYS
    ensures After(s, window, followed, op).lastSweep == if Sweeps(s, op) then op.now else s.lastSweep
  {
  }

  lemma {:induction false} LatestSweepOn(states: seq<Tracker>, ops: seq<Op>, k: nat, p: nat)
    requires p <= k < |ops| < |states|
    ensures Sweeps(states[k], ops[k]) ==> LatestSweep(states, ops, k + 1, k + 1)
    ensures !Sweeps(states[k], ops[k]) && LatestSweep(states, ops, k, p) ==> LatestSweep(states, ops, k + 1, p)
  {
  }

  lemma {:induction false} SweepTime(window: int, followed: string, states: seq<Tracker>, ops: seq<Op>, k: nat) returns (p: nat)
    requires IsRun(window, followed, states, ops) && k < |states|
    ensures p <= k && LatestSweep(states, ops, k, p)
    ensures states[k].lastSweep == if p > 0 then ops[p - 1].now else states[0].clock
    decreases k
  {
    if k == 0 {
      p := 0;
    } else {
      var s, op := states[k - 1], ops[k - 1];
      assert Steps(s, window, followed, op, states[k]);
      RunIsFaithful(window, followed, states, ops, k - 1);
      SweepMovesClock(s, window, followed, op);
      p := SweepTime(window, followed, states, ops, k - 1);
      LatestSweepOn(states, ops, k - 1, p);
      if Sweeps(s, op) {
        p := k;
      }
    }
  }

  /** Over every run, an event goes uncounted exactly when its key is new, the map
      is full, and either the last sweep was less than a second ago or every key
      tracked still has an event inside its window. */
  lemma {:induction false} DeclinedIff(window: int, followed: string, states: seq<Tracker>, ops: seq<Op>, k: nat) returns (p: nat)
    requires IsRun(window, followed, states, ops) && k < |ops| && ops[k].Rec?
    ensures p <= k && LatestSweep(states, ops, k, p)
    ensures
      var s, op := states[k], ops[k];
      var lastSweep := if p > 0 then ops[p - 1].now else states[0].clock;
      AfterRecord(s.counters, s.lastSweep, window, op.key, op.now).2.NotTracked?
      <==> (&& op.key !in s.counters && |s.counters| == MAX_TRACKED_KEYS
            && (op.now - lastSweep < SWEEP_INTERVAL * MICROS_PER_SECOND
                || forall key :: key in s.counters ==> Holding(s.counters[key], window, op.now)))
  {
    var s, op := states[k], ops[k];
    RunInOrder(window, followed, states, ops, k);
    RunIsFaithful(window, followed, states, ops, k);
    p := SweepTime(window, followed, states, ops, k);
    RecordDeclines(s.counters, s.lastSweep, window, op.key, op.now, s.clock);
  }

  /** Over every run, a cleanup leaves exactly the keys with an event inside their
      window, each with just those events. */
  lemma {:induction false} CleanupKeepsTheLive(
      window: int, followed: string, states: seq<Tracker>, ops: seq<Op>, k: nat, key: string)
    requires IsRun(window, followed, states, ops) && k < |ops| && ops[k].Cleanup?
    ensures key in states[k + 1].counters <==> key in states[k].counters && Holding(states[k].counters[key], window, ops[k].now)
    ensures key in states[k + 1].counters ==>
              var was, left := states[k].counters[key].events, states[k + 1].counters[key].events;
              var gone := |was| - |left|;
              gone >= 0 && left == was[gone..] && forall i :: 0 <= i < |was| ==> (was[i] > ops[k].now - window <==> i >= gone)
  {
    var s := states[k];
    assert Steps(s, window, followed, ops[k], states[k + 1]);
    RunInOrder(window, followed, states, ops, k);
    SweepKeepsTheLive(s.counters, window, ops[k].now, s.clock, key);
    if key in states[k + 1].counters {
      PruningKeepsTheLive(s.counters[key], window, ops[k].now, s.clock);
    }
  }
}
