/** Sliding-window event counters in a capacity-bounded map: what they count
    exactly, what sweeping may not change, and where saturation forgets. */
module AttackWindows {
  import opened Prelude

  const MAX_TRACKED_KEYS: nat := 16_384
  const MAX_EVENTS: nat := 512
  const SWEEP_INTERVAL: int := 1

  /** Timestamps still held, oldest first, and events dropped at capacity. */
  datatype Counter = Counter(events: seq<int>, saturatedBy: nat)

  const EMPTY: Counter := Counter([], 0)

  // ----- One counter -----

  function SaturatingAdd(a: nat, b: nat): nat {
    if a + b <= U32_MAX then a + b else U32_MAX
  }

  /** How many leading timestamps are at or before the cutoff. */
  function Lapsed(events: seq<int>, cutoff: int): (k: nat)
    ensures k <= |events|
  {
    if events == [] || events[0] > cutoff then 0 else 1 + Lapsed(events[1..], cutoff)
  }

  /** The counter without its first `k` timestamps. */
  function Without(c: Counter, k: nat): Counter
    requires k <= |c.events|
  {
    if k == 0 then c
    else if k == |c.events| then EMPTY
    else Counter(c.events[k..], c.saturatedBy)
  }

  function Pruned(c: Counter, window: int, now: int): Counter {
    Without(c, Lapsed(c.events, now - window))
  }

  function Incremented(c: Counter, window: int, now: int): Counter {
    var p := Pruned(c, window, now);
    if |p.events| >= MAX_EVENTS then p.(saturatedBy := SaturatingAdd(p.saturatedBy, 1))
    else p.(events := p.events + [now])
  }

  function Total(c: Counter): nat {
    SaturatingAdd(|c.events|, c.saturatedBy)
  }

  // ----- The bounded map -----

  datatype Recorded = NotTracked | Count(total: nat)

  class BoundedCounters {
    const window: int
    var counters: map<string, Counter>
    var lastSweep: int

    ghost predicate Valid()
      reads this
    {
      && |counters| <= MAX_TRACKED_KEYS
      && forall k :: k in counters ==> |counters[k].events| <= MAX_EVENTS
    }

    constructor (windowSeconds: int, now: int)
      ensures Valid() && window == windowSeconds * MICROS_PER_SECOND && counters == map[] && lastSweep == now
    {
      window, counters, lastSweep := windowSeconds * MICROS_PER_SECOND, map[], now;
    }

    /** Count one event, sweeping first if a new key finds the map full. */
    method Record(key: string, now: int) returns (r: Recorded)
      requires Valid()
      modifies this
      ensures Valid()
      ensures (counters, lastSweep, r) == AfterRecord(old(counters), old(lastSweep), window, key, now)
    {
      if key !in counters && |counters| >= MAX_TRACKED_KEYS {
        SweepIfDue(now);
        if |counters| >= MAX_TRACKED_KEYS {
          return NotTracked;
        }
      }
      var c := Incremented(Held(SlotOf(counters, key)), window, now);
      counters := counters[key := c];
      r := Count(Total(c));
    }

    method SweepIfDue(now: int)
      requires Valid()
      modifies this
      ensures Valid() && (counters, lastSweep) == AfterSweepIfDue(old(counters), old(lastSweep), window, now)
    {
      if SweepIsDue(lastSweep, now) {
        PruneLapsed(now);
      }
    }

    method PruneLapsed(now: int)
      requires Valid()
      modifies this
      ensures Valid() && counters == Swept(old(counters), window, now) && lastSweep == now
    {
      SweptIsSmaller(counters, window, now);
      counters := Swept(counters, window, now);
      lastSweep := now;
    }
  }

  predicate SweepIsDue(lastSweep: int, now: int) {
    now - lastSweep >= SWEEP_INTERVAL * MICROS_PER_SECOND
  }

  /** Every counter pruned, and the emptied ones evicted. */
  function Swept(m: map<string, Counter>, window: int, now: int): map<string, Counter> {
    map k | k in m && Pruned(m[k], window, now).events != [] :: Pruned(m[k], window, now)
  }

  function AfterSweepIfDue(m: map<string, Counter>, lastSweep: int, window: int, now: int): (map<string, Counter>, int) {
    if SweepIsDue(lastSweep, now) then (Swept(m, window, now), now) else (m, lastSweep)
  }

  /** A new key finding the map full sweeps first. */
  function MakeRoom(m: map<string, Counter>, lastSweep: int, window: int, key: string, now: int): (map<string, Counter>, int) {
    if key !in m && |m| >= MAX_TRACKED_KEYS then AfterSweepIfDue(m, lastSweep, window, now) else (m, lastSweep)
  }

  function Tally(m: map<string, Counter>, window: int, key: string, now: int): (map<string, Counter>, Recorded) {
    if key !in m && |m| >= MAX_TRACKED_KEYS then (m, NotTracked)
    else
      var c := Incremented(Held(SlotOf(m, key)), window, now);
      (m[key := c], Count(Total(c)))
  }

  function AfterRecord(m: map<string, Counter>, lastSweep: int, window: int, key: string, now: int)
    : (map<string, Counter>, int, Recorded)
  {
    var (room, sweep) := MakeRoom(m, lastSweep, window, key, now);
    var (counted, r) := Tally(room, window, key, now);
    (counted, sweep, r)
  }

  lemma {:induction false} SweptIsSmaller(m: map<string, Counter>, window: int, now: int)
    ensures |Swept(m, window, now)| <= |m|
    ensures forall k :: k in Swept(m, window, now) ==> |Swept(m, window, now)[k].events| <= |m[k].events|
  {
    var s := Swept(m, window, now);
    assert s.Keys <= m.Keys;
    SubsetSize(s.Keys, m.Keys);
    assert |s| == |s.Keys| && |m| == |m.Keys|;
  }

  // ----- Sweeping is invisible -----

  ghost predicate Ordered(events: seq<int>) {
    forall i, j :: 0 <= i < j < |events| ==> events[i] <= events[j]
  }

  lemma {:induction false} LapsedSplits(events: seq<int>, cutoff: int)
    requires Ordered(events)
    ensures forall i :: 0 <= i < Lapsed(events, cutoff) ==> events[i] <= cutoff
    ensures forall i :: Lapsed(events, cutoff) <= i < |events| ==> events[i] > cutoff
    decreases |events|
  {
    if events != [] && events[0] <= cutoff {
      LapsedSplits(events[1..], cutoff);
      assert forall i :: 1 <= i < |events| ==> events[i] == events[1..][i - 1];
    }
  }

  lemma {:induction false} LapsedTwice(events: seq<int>, a: int, b: int)
    requires a <= b
    ensures Lapsed(events, a) <= Lapsed(events, b)
    ensures Lapsed(events[Lapsed(events, a)..], b) == Lapsed(events, b) - Lapsed(events, a)
    decreases |events|
  {
    if events != [] && events[0] <= a {
      LapsedTwice(events[1..], a, b);
      var k := Lapsed(events[1..], a);
      assert events[1..][k..] == events[1 + k..];
    } else {
      assert events[0..] == events;
    }
  }

  /** A counter that holds no event has nothing left to saturate over. */
  ghost predicate Sane(c: Counter) {
    c.events == [] ==> c == EMPTY
  }

  lemma {:induction false} WithoutTwice(c: Counter, k: nat, n: nat)
    requires k <= n <= |c.events|
    ensures Without(c, k).events == c.events[k..]
    ensures Without(Without(c, k), n - k) == Without(c, n)
  {
    SliceTwice(c.events, k, n);
  }

  /** Pruning early and again later is pruning later. */
  lemma {:induction false} PruneTwice(c: Counter, window: int, a: int, b: int)
    requires a <= b
    ensures Pruned(Pruned(c, window, a), window, b) == Pruned(c, window, b)
  {
    LapsedTwice(c.events, a - window, b - window);
    WithoutTwice(c, Lapsed(c.events, a - window), Lapsed(c.events, b - window));
  }

  lemma {:induction false} SliceTwice(events: seq<int>, k: nat, n: nat)
    requires k <= n <= |events|
    ensures events[k..][n - k..] == events[n..]
  {
  }

  /** A key's place in the map. */
  datatype Slot = Absent | Present(counter: Counter)

  function Held(s: Slot): Counter {
    match s
    case Absent => EMPTY
    case Present(c) => c
  }

  function SlotOf(m: map<string, Counter>, key: string): Slot {
    if key in m then Present(m[key]) else Absent
  }

  /** From `clock` on, the slot cannot be told apart from a counter of the same
      events that no sweep ever touched. */
  ghost predicate Alike(s: Slot, unswept: Counter, window: int, clock: int) {
    && Sane(Held(s))
    && forall now :: clock <= now ==> Pruned(Held(s), window, now) == Pruned(unswept, window, now)
  }

  lemma {:induction false} SweptSlot(m: map<string, Counter>, key: string, window: int, now: int)
    requires Sane(Held(SlotOf(m, key)))
    ensures Held(SlotOf(Swept(m, window, now), key)) == Pruned(Held(SlotOf(m, key)), window, now)
  {
  }

  /** A sweep changes nothing that can be seen later. */
  lemma {:induction false} SweepKeepsAlike(m: map<string, Counter>, key: string, unswept: Counter, window: int, clock: int, now: int)
    requires Alike(SlotOf(m, key), unswept, window, clock) && clock <= now
    ensures Alike(SlotOf(Swept(m, window, now), key), unswept, window, now)
  {
    SweptSlot(m, key, window, now);
    var c := Held(SlotOf(m, key));
    forall later | now <= later
      ensures Pruned(Pruned(c, window, now), window, later) == Pruned(unswept, window, later)
    {
      PruneTwice(c, window, now, later);
    }
  }

  // ----- What the unswept counter counts -----

  /** A counter, the events it recorded and the events it dropped. */
  datatype Book = Book(counter: Counter, kept: seq<int>, lost: seq<int>)

  function Entered(b: Book, window: int, now: int): Book {
    var c := Incremented(b.counter, window, now);
    if |Pruned(b.counter, window, now).events| >= MAX_EVENTS then Book(c, b.kept, b.lost + [now])
    else Book(c, b.kept + [now], b.lost)
  }

  /** The book after one increment at each of these times. */
  function Books(times: seq<int>, window: int): Book {
    if times == [] then Book(EMPTY, [], [])
    else Entered(Books(times[..|times| - 1], window), window, times[|times| - 1])
  }

  function Replay(times: seq<int>, window: int): Counter {
    Books(times, window).counter
  }

  /** How many of these times are after the cutoff. */
  function Live(times: seq<int>, cutoff: int): nat {
    if times == [] then 0 else (if times[0] > cutoff then 1 else 0) + Live(times[1..], cutoff)
  }

  lemma {:induction false} LiveSnoc(times: seq<int>, t: int, cutoff: int)
    ensures Live(times + [t], cutoff) == Live(times, cutoff) + if t > cutoff then 1 else 0
    decreases |times|
  {
    if times == [] {
      assert [] + [t] == [t] && [t][1..] == [];
    } else {
      assert (times + [t])[1..] == times[1..] + [t];
      LiveSnoc(times[1..], t, cutoff);
    }
  }

  lemma {:induction false} LiveIsRest(events: seq<int>, cutoff: int)
    requires Ordered(events)
    ensures Live(events, cutoff) == |events| - Lapsed(events, cutoff)
    decreases |events|
  {
    if events != [] {
      LiveIsRest(events[1..], cutoff);
      LapsedSplits(events[1..], cutoff);
      if events[0] > cutoff && |events| > 1 {
        assert events[1] == events[1..][0];
      }
    }
  }

  lemma {:induction false} LapsedSnoc(events: seq<int>, t: int, cutoff: int)
    requires t > cutoff
    ensures Lapsed(events + [t], cutoff) == Lapsed(events, cutoff)
    decreases |events|
  {
    if events == [] {
      assert [] + [t] == [t];
    } else {
      assert (events + [t])[1..] == events[1..] + [t];
      LapsedSnoc(events[1..], t, cutoff);
    }
  }

  /** What a book says of the times it was made from, as of `now`: the counter
      holds the recorded events inside the window, every event was recorded or
      dropped, and no more were counted as dropped than were. */
  ghost predicate Holds(b: Book, times: seq<int>, window: int, now: int) {
    Consistent(b, |times|, window, now) && Complete(b, times)
  }

  ghost predicate Consistent(b: Book, n: nat, window: int, now: int) {
    && Ordered(b.kept) && (b.kept != [] ==> b.kept[|b.kept| - 1] <= now)
    && b.counter.events == b.kept[Lapsed(b.kept, now - window)..]
    && b.counter.saturatedBy <= |b.lost|
    && |b.kept| + |b.lost| == n
  }

  ghost predicate Complete(b: Book, times: seq<int>) {
    forall cutoff :: Live(times, cutoff) == Live(b.kept, cutoff) + Live(b.lost, cutoff)
  }

  /** Pruning at a later time keeps what is still inside the window. */
  lemma {:induction false} PrunedHolds(b: Book, n: nat, window: int, before: int, now: int)
    requires Consistent(b, n, window, before) && before <= now
    ensures Pruned(b.counter, window, now).events == b.kept[Lapsed(b.kept, now - window)..]
    ensures Pruned(b.counter, window, now).saturatedBy <= |b.lost|
  {
    LapsedTwice(b.kept, before - window, now - window);
    PrunedSuffix(b.counter, b.kept, window, now, Lapsed(b.kept, before - window), Lapsed(b.kept, now - window));
  }

  /** A suffix of these events pruned is a shorter one. */
  lemma {:induction false} PrunedSuffix(c: Counter, kept: seq<int>, window: int, now: int, k: nat, m: nat)
    requires k <= m <= |kept| && c.events == kept[k..] && Lapsed(c.events, now - window) == m - k
    ensures Pruned(c, window, now).events == kept[m..]
    ensures Pruned(c, window, now).saturatedBy <= c.saturatedBy
  {
    PrunedEvents(c, window, now);
    SliceTwice(kept, k, m);
  }

  lemma {:induction false} LiveEntered(b: Book, times: seq<int>, window: int, now: int, cutoff: int)
    requires Live(times, cutoff) == Live(b.kept, cutoff) + Live(b.lost, cutoff)
    ensures
      var e := Entered(b, window, now);
      Live(times + [now], cutoff) == Live(e.kept, cutoff) + Live(e.lost, cutoff)
  {
    LiveSnoc(times, now, cutoff);
    LiveSnoc(b.kept, now, cutoff);
    LiveSnoc(b.lost, now, cutoff);
  }

  lemma {:induction false} OrderedSnoc(xs: seq<int>, t: int)
    requires Ordered(xs) && (xs != [] ==> xs[|xs| - 1] <= t)
    ensures Ordered(xs + [t])
  {
  }

  lemma {:induction false} SuffixSnoc(xs: seq<int>, t: int, k: nat)
    requires k <= |xs|
    ensures (xs + [t])[k..] == xs[k..] + [t]
  {
  }

  lemma {:induction false} LiveSuffixSnoc(xs: seq<int>, now: int, window: int)
    requires window > 0
    ensures (xs + [now])[Lapsed(xs + [now], now - window)..] == xs[Lapsed(xs, now - window)..] + [now]
  {
    LapsedSnoc(xs, now, now - window);
    SuffixSnoc(xs, now, Lapsed(xs, now - window));
  }

  lemma {:induction false} RecordedIsConsistent(p: Book, n: nat, window: int, now: int)
    requires window > 0 && Consistent(p, n, window, now)
    ensures Consistent(Book(p.counter.(events := p.counter.events + [now]), p.kept + [now], p.lost), n + 1, window, now)
  {
    OrderedSnoc(p.kept, now);
    LiveSuffixSnoc(p.kept, now, window);
  }

  lemma {:induction false} PrunedIsConsistent(b: Book, n: nat, window: int, before: int, now: int)
    requires Consistent(b, n, window, before) && before <= now
    ensures Consistent(b.(counter := Pruned(b.counter, window, now)), n, window, now)
  {
    PrunedHolds(b, n, window, before, now);
  }

  lemma {:induction false} LostIsConsistent(p: Book, n: nat, window: int, now: int)
    requires Consistent(p, n, window, now)
    ensures Consistent(Book(p.counter.(saturatedBy := SaturatingAdd(p.counter.saturatedBy, 1)), p.kept, p.lost + [now]),
                       n + 1, window, now)
  {
  }

  lemma {:induction false} EnteredIsConsistent(b: Book, n: nat, window: int, before: int, now: int)
    requires window > 0 && Consistent(b, n, window, before) && before <= now
    ensures Consistent(Entered(b, window, now), n + 1, window, now)
  {
    PrunedIsConsistent(b, n, window, before, now);
    var p := b.(counter := Pruned(b.counter, window, now));
    if |p.counter.events| < MAX_EVENTS {
      RecordedIsConsistent(p, n, window, now);
    } else {
      LostIsConsistent(p, n, window, now);
    }
  }

  lemma {:induction false} EnteredIsComplete(b: Book, times: seq<int>, window: int, now: int)
    requires Complete(b, times)
    ensures Complete(Entered(b, window, now), times + [now])
  {
    var e := Entered(b, window, now);
    forall cutoff ensures Live(times + [now], cutoff) == Live(e.kept, cutoff) + Live(e.lost, cutoff) {
      LiveEntered(b, times, window, now, cutoff);
    }
  }

  function LastOr(times: seq<int>, now: int): int {
    if times == [] then now else times[|times| - 1]
  }

  lemma {:induction false} BooksSnoc(before: seq<int>, now: int, window: int)
    ensures Books(before + [now], window) == Entered(Books(before, window), window, now)
  {
    assert (before + [now])[..|before|] == before;
  }

  lemma {:induction false} OrderedBefore(times: seq<int>)
    requires Ordered(times) && times != []
    ensures
      var before, now := times[..|times| - 1], times[|times| - 1];
      times == before + [now] && Ordered(before) && LastOr(before, now) <= now
  {
  }

  lemma {:induction false} BooksHoldNext(before: seq<int>, window: int, last: int, now: int)
    requires window > 0 && last <= now && Holds(Books(before, window), before, window, last)
    ensures Holds(Books(before + [now], window), before + [now], window, now)
  {
    BooksSnoc(before, now, window);
    EnteredIsConsistent(Books(before, window), |before|, window, last, now);
    EnteredIsComplete(Books(before, window), before, window, now);
  }

  lemma {:induction false} NoBooks(window: int, now: int)
    ensures Holds(Books([], window), [], window, now)
  {
    var b := Book(EMPTY, [], []);
    assert Books([], window) == b;
    assert Lapsed(b.kept, now - window) == 0;
    assert Complete(b, []);
  }

  lemma {:induction false} BooksHold(times: seq<int>, window: int, now: int)
    requires Ordered(times) && window > 0 && LastOr(times, now) == now
    ensures Holds(Books(times, window), times, window, now)
    decreases |times|
  {
    if times == [] {
      NoBooks(window, now);
    } else {
      var before := times[..|times| - 1];
      OrderedBefore(times);
      BooksHold(before, window, LastOr(before, now));
      BooksHoldNext(before, window, LastOr(before, now), now);
    }
  }

  lemma {:induction false} PrunedEvents(c: Counter, window: int, now: int)
    ensures Pruned(c, window, now).events == c.events[Lapsed(c.events, now - window)..]
    ensures Pruned(c, window, now).saturatedBy <= c.saturatedBy
  {
  }

  /** What one record returns, and exactly when it is the number of records in
      the window: when the dropped count is the number of dropped events still
      in the window. */
  lemma {:induction false} RecordIsExactIff(times: seq<int>, window: int)
    requires Ordered(times) && times != [] && window > 0 && |times| <= U32_MAX
    ensures
      var cutoff, b := times[|times| - 1] - window, Books(times, window);
      && Total(b.counter) == Live(b.kept, cutoff) + b.counter.saturatedBy
      && (Total(b.counter) == Live(times, cutoff) <==> b.counter.saturatedBy == Live(b.lost, cutoff))
  {
    var now := times[|times| - 1];
    BooksHold(times, window, now);
    LiveIsRest(Books(times, window).kept, now - window);
  }

  /** No window before an event ever held as many as `cap` events. */
  ghost predicate Within(times: seq<int>, window: int, cap: nat) {
    forall k :: 0 <= k < |times| ==> LiveBefore(times, k, window) < cap
  }

  ghost predicate BelowCapacity(times: seq<int>, window: int) {
    Within(times, window, MAX_EVENTS)
  }

  function LiveBefore(times: seq<int>, k: nat, window: int): nat
    requires k < |times|
  {
    Live(times[..k], times[k] - window)
  }

  /** With fewer than the capacity in the window, the next event is recorded. */
  lemma {:induction false} RoomIsRecorded(b: Book, times: seq<int>, window: int, before: int, now: int)
    requires Holds(b, times, window, before) && before <= now && Live(times, now - window) < MAX_EVENTS
    ensures Entered(b, window, now).lost == b.lost
  {
    PrunedHolds(b, |times|, window, before, now);
    LiveIsRest(b.kept, now - window);
  }

  lemma {:induction false} BelowBefore(times: seq<int>, window: int, k: nat)
    requires BelowCapacity(times, window) && k <= |times|
    ensures BelowCapacity(times[..k], window)
  {
    forall j | 0 <= j < k ensures LiveBefore(times[..k], j, window) < MAX_EVENTS {
      assert times[..k][..j] == times[..j];
      assert LiveBefore(times, j, window) < MAX_EVENTS;
    }
  }

  lemma {:induction false} LastIsRecorded(before: seq<int>, now: int, window: int)
    requires Ordered(before + [now]) && window > 0 && Live(before, now - window) < MAX_EVENTS
    ensures Books(before + [now], window).lost == Books(before, window).lost
  {
    var last := LastOr(before, now);
    OrderedBefore(before + [now]);
    assert (before + [now])[..|before|] == before;
    BooksHold(before, window, last);
    RoomIsRecorded(Books(before, window), before, window, last, now);
    BooksSnoc(before, now, window);
  }

  lemma {:induction false} BelowCapacityLosesNothing(times: seq<int>, window: int)
    requires Ordered(times) && window > 0 && BelowCapacity(times, window)
    ensures Books(times, window).lost == []
    decreases |times|
  {
    if times != [] {
      var k := |times| - 1;
      BelowBefore(times, window, k);
      BelowCapacityLosesNothing(times[..k], window);
      assert LiveBefore(times, k, window) < MAX_EVENTS;
      assert times == times[..k] + [times[k]];
      LastIsRecorded(times[..k], times[k], window);
    }
  }

  /** Window counting is exact for any key that stays below capacity. */
  lemma {:induction false} ExactBelowCapacity(times: seq<int>, window: int)
    requires Ordered(times) && times != [] && window > 0 && |times| <= U32_MAX && BelowCapacity(times, window)
    ensures Total(Replay(times, window)) == Live(times, times[|times| - 1] - window)
  {
    BelowCapacityLosesNothing(times, window);
    BooksHold(times, window, times[|times| - 1]);
    RecordIsExactIff(times, window);
  }

  lemma {:induction false} LiveConcat(a: seq<int>, b: seq<int>, cutoff: int)
    ensures Live(a + b, cutoff) == Live(a, cutoff) + Live(b, cutoff)
    decreases |a|
  {
    if a == [] {
      assert a + b == b;
    } else {
      assert (a + b)[1..] == a[1..] + b;
      LiveConcat(a[1..], b, cutoff);
    }
  }

  // ----- After a quiet window -----

  lemma {:induction false} LiveFalls(times: seq<int>, a: int, b: int)
    requires a <= b
    ensures Live(times, b) <= Live(times, a)
    decreases |times|
  {
    if times != [] {
      LiveFalls(times[1..], a, b);
    }
  }

  lemma {:induction false} ReplayIsSane(times: seq<int>, window: int)
    ensures Sane(Replay(times, window)) && |Replay(times, window).events| <= MAX_EVENTS
    decreases |times|
  {
    if times != [] {
      ReplayIsSane(times[..|times| - 1], window);
      IncrementedIsSane(Replay(times[..|times| - 1], window), window, times[|times| - 1]);
    }
  }

  lemma {:induction false} QuietKeepsNone(b: Book, times: seq<int>, window: int, last: int, now: int)
    requires Holds(b, times, window, last) && last <= now && Live(times, now - window) == 0
    ensures Pruned(b.counter, window, now).events == []
  {
    PrunedHolds(b, |times|, window, last, now);
    LiveIsRest(b.kept, now - window);
  }

  lemma {:induction false} PrunedToNothing(c: Counter, window: int, now: int)
    requires Sane(c) && Pruned(c, window, now).events == []
    ensures Pruned(c, window, now) == EMPTY
  {
  }

  lemma {:induction false} QuietIsEmpty(before: seq<int>, last: int, now: int, window: int)
    requires Ordered(before) && window > 0 && last == LastOr(before, last) && last <= now && Live(before, now - window) == 0
    ensures Pruned(Replay(before, window), window, now) == EMPTY
  {
    BooksHold(before, window, last);
    QuietKeepsNone(Books(before, window), before, window, last, now);
    ReplayIsSane(before, window);
    PrunedToNothing(Replay(before, window), window, now);
  }

  /** An event that finds nothing in the window starts the counter afresh,
      whatever it dropped before. */
  lemma {:induction false} QuietStartsAfresh(before: seq<int>, now: int, window: int)
    requires Ordered(before + [now]) && window > 0 && Live(before, now - window) == 0
    ensures Replay(before + [now], window) == Replay([now], window)
  {
    OrderedBefore(before + [now]);
    assert (before + [now])[..|before|] == before;
    QuietIsEmpty(before, LastOr(before, now), now, window);
    ReplaySnoc(before, now, window);
    ReplaySnoc([], now, window);
    assert [] + [now] == [now];
  }

  lemma {:induction false} AppendLast(a: seq<int>, rest: seq<int>)
    requires rest != []
    ensures a + rest == a + rest[..|rest| - 1] + [rest[|rest| - 1]]
  {
  }

  lemma {:induction false} SameFromHere(a: seq<int>, b: seq<int>, rest: seq<int>, window: int)
    requires Replay(a, window) == Replay(b, window)
    ensures Replay(a + rest, window) == Replay(b + rest, window)
    decreases |rest|
  {
    if rest == [] {
      assert a + [] == a && b + [] == b;
    } else {
      var init, now := rest[..|rest| - 1], rest[|rest| - 1];
      SameFromHere(a, b, init, window);
      ReplaySnoc(a + init, now, window);
      ReplaySnoc(b + init, now, window);
      AppendLast(a, rest);
      AppendLast(b, rest);
    }
  }

  lemma {:induction false} OrderedTake(times: seq<int>, n: nat)
    requires Ordered(times) && n <= |times|
    ensures Ordered(times[..n])
  {
  }

  lemma {:induction false} OrderedDrop(times: seq<int>, n: nat)
    requires Ordered(times) && n <= |times|
    ensures Ordered(times[n..])
  {
  }

  lemma {:induction false} SplitAround(times: seq<int>, i: nat)
    requires i < |times|
    ensures times[..i + 1] == times[..i] + [times[i]]
    ensures times == times[..i] + [times[i]] + times[i + 1..]
    ensures times[i..] == [times[i]] + times[i + 1..]
  {
  }

  lemma {:induction false} ForgottenBefore(times: seq<int>, i: nat, window: int)
    requires Ordered(times) && window > 0 && i < |times| && Live(times[..i], times[i] - window) == 0
    ensures Replay(times, window) == Replay(times[i..], window)
  {
    SplitAround(times, i);
    OrderedTake(times, i + 1);
    QuietStartsAfresh(times[..i], times[i], window);
    SameFromHere(times[..i] + [times[i]], [times[i]], times[i + 1..], window);
  }

  lemma {:induction false} LiveSinceQuiet(times: seq<int>, i: nat, before: int, after: int)
    requires i <= |times| && before <= after && Live(times[..i], before) == 0
    ensures Live(times, after) == Live(times[i..], after)
  {
    LiveFalls(times[..i], before, after);
    LiveConcat(times[..i], times[i..], after);
    assert times == times[..i] + times[i..];
  }

  lemma {:induction false} NotAfterLast(times: seq<int>, i: nat)
    requires Ordered(times) && i < |times|
    ensures times[i] <= times[|times| - 1] && times[i..][|times[i..]| - 1] == times[|times| - 1]
  {
  }

  /** A key is counted exactly from any event that found its window empty, for
      as long as it has stayed below capacity since: a saturation before that
      leaves no trace. */
  lemma {:induction false} ExactSinceQuiet(times: seq<int>, i: nat, window: int)
    requires Ordered(times) && window > 0 && i < |times| && Live(times[..i], times[i] - window) == 0
    requires BelowCapacity(times[i..], window) && |times[i..]| <= U32_MAX
    ensures Total(Replay(times, window)) == Live(times, times[|times| - 1] - window)
  {
    ForgottenBefore(times, i, window);
    OrderedDrop(times, i);
    NotAfterLast(times, i);
    ExactBelowCapacity(times[i..], window);
    LiveSinceQuiet(times, i, times[i] - window, times[|times| - 1] - window);
  }

  // ----- Saturation forgets -----

  function Times(t: int, n: nat): seq<int> {
    seq(n, _ => t)
  }

  lemma {:induction false} ReplaySnoc(times: seq<int>, t: int, window: int)
    ensures Replay(times + [t], window) == Incremented(Replay(times, window), window, t)
  {
    assert (times + [t])[..|times|] == times;
  }

  lemma {:induction false} NoneLapsed(events: seq<int>, cutoff: int)
    requires events != [] ==> events[0] > cutoff
    ensures Lapsed(events, cutoff) == 0
  {
  }

  lemma {:induction false} FillsUp(window: int, n: nat)
    requires window > 0 && n <= MAX_EVENTS
    ensures Replay(Times(0, n), window) == Counter(Times(0, n), 0)
    decreases n
  {
    if n > 0 {
      FillsUp(window, n - 1);
      assert Times(0, n) == Times(0, n - 1) + [0];
      ReplaySnoc(Times(0, n - 1), 0, window);
      NoneLapsed(Times(0, n - 1), 0 - window);
    }
  }

  /** A burst of `d` more events once the counter is full. */
  lemma {:induction false} Overflows(window: int, t: int, d: nat)
    requires 0 < t < window
    ensures Replay(Times(0, MAX_EVENTS) + Times(t, d), window)
            == Counter(Times(0, MAX_EVENTS), if d < U32_MAX then d else U32_MAX)
    decreases d
  {
    var full := Times(0, MAX_EVENTS);
    if d == 0 {
      FillsUp(window, MAX_EVENTS);
      assert full + [] == full;
    } else {
      Overflows(window, t, d - 1);
      assert full + Times(t, d) == (full + Times(t, d - 1)) + [t];
      ReplaySnoc(full + Times(t, d - 1), t, window);
      NoneLapsed(full, t - window);
    }
  }

  lemma {:induction false} AllLapsed(t: int, n: nat, cutoff: int)
    requires t <= cutoff
    ensures Lapsed(Times(t, n), cutoff) == n && Live(Times(t, n), cutoff) == 0
    decreases n
  {
    if n > 0 {
      AllLapsed(t, n - 1, cutoff);
      assert Times(t, n)[1..] == Times(t, n - 1);
    }
  }

  lemma {:induction false} AllLive(t: int, n: nat, cutoff: int)
    requires t > cutoff
    ensures Live(Times(t, n), cutoff) == n
  {
    NoneLapsed(Times(t, n), cutoff);
    LiveIsRest(Times(t, n), cutoff);
  }

  /** A saturated counter does not keep firing. Fill it at time zero, send any
      number `d` of further events inside the window, and record once more when
      the first ones lapse: the count restarts at one while `d + 1` events lie
      inside the window. */
  lemma {:induction false} SaturationForgets(window: int, t: int, d: nat)
    requires 0 < t < window && d <= U32_MAX
    ensures
      var times := Times(0, MAX_EVENTS) + Times(t, d) + [window];
      && Total(Replay(times, window)) == 1
      && Live(times, window - window) == d + 1
  {
    var before := Times(0, MAX_EVENTS) + Times(t, d);
    Overflows(window, t, d);
    ReplaySnoc(before, window, window);
    AllLapsed(0, MAX_EVENTS, 0);
    AllLive(t, d, 0);
    LiveConcat(Times(0, MAX_EVENTS), Times(t, d), 0);
    LiveSnoc(before, window, 0);
  }

  // ----- The exact condition -----

  ghost predicate ExactFor(times: seq<int>, window: int)
    requires times != []
  {
    Total(Replay(times, window)) == Live(times, times[|times| - 1] - window)
  }

  ghost predicate Recordable(times: seq<int>, window: int, cap: nat) {
    times != [] && Ordered(times) && |times| <= U32_MAX && Within(times, window, cap)
  }

  /** Counting is exact on every history of at most `cap` events a window. */
  ghost predicate ExactUpTo(window: int, cap: nat) {
    forall times :: Recordable(times, window, cap) ==> ExactFor(times, window)
  }

  lemma {:induction false} LiveAtMost(times: seq<int>, cutoff: int)
    ensures Live(times, cutoff) <= |times|
    decreases |times|
  {
    if times != [] {
      LiveAtMost(times[1..], cutoff);
    }
  }

  lemma {:induction false} OrderedConcat(a: seq<int>, b: seq<int>)
    requires Ordered(a) && Ordered(b) && forall i, j :: 0 <= i < |a| && 0 <= j < |b| ==> a[i] <= b[j]
    ensures Ordered(a + b)
  {
  }

  /** A history counted wrongly: the capacity at time zero, one more event, and
      `n` when the first ones lapse. */
  function Missed(window: int, n: nat): seq<int> {
    Times(0, MAX_EVENTS) + Times(1, 1) + Times(window, n)
  }

  lemma {:induction false} MissedLive(window: int, n: nat)
    requires window > 1
    ensures Live(Missed(window, n), 0) == n + 1
  {
    AllLapsed(0, MAX_EVENTS, 0);
    AllLive(1, 1, 0);
    AllLive(window, n, 0);
    LiveConcat(Times(0, MAX_EVENTS), Times(1, 1), 0);
    LiveConcat(Times(0, MAX_EVENTS) + Times(1, 1), Times(window, n), 0);
  }

  lemma {:induction false} MissedOne(window: int)
    requires window > 1
    ensures Replay(Missed(window, 1), window) == Counter(Times(window, 1), 0)
  {
    var before := Times(0, MAX_EVENTS) + Times(1, 1);
    assert Missed(window, 1) == before + [window] && Times(window, 1) == [window];
    ReplaySnoc(before, window, window);
    Overflows(window, 1, 1);
    AllLapsed(0, MAX_EVENTS, 0);
  }

  /** The counter restarts and forgets the dropped event. */
  lemma {:induction false} MissedCount(window: int, n: nat)
    requires window > 1 && 0 < n <= U32_MAX
    ensures
      var c := Replay(Missed(window, n), window);
      if n <= MAX_EVENTS then c == Counter(Times(window, n), 0) else c == Counter(Times(window, MAX_EVENTS), n - MAX_EVENTS)
    decreases n
  {
    if n == 1 {
      MissedOne(window);
    } else {
      var before := Missed(window, n - 1);
      assert Missed(window, n) == before + [window];
      ReplaySnoc(before, window, window);
      MissedCount(window, n - 1);
      NoneLapsed(Replay(before, window).events, 0);
      assert n <= MAX_EVENTS ==> Times(window, n) == Times(window, n - 1) + [window];
    }
  }

  lemma {:induction false} MissedIsOrdered(window: int, n: nat)
    requires window > 1
    ensures Ordered(Missed(window, n))
  {
    OrderedConcat(Times(0, MAX_EVENTS), Times(1, 1));
    OrderedConcat(Times(0, MAX_EVENTS) + Times(1, 1), Times(window, n));
  }

  lemma {:induction false} MissedWithin(window: int, n: nat, k: nat)
    requires window > 1 && k < |Missed(window, n)|
    ensures LiveBefore(Missed(window, n), k, window) <= if n < MAX_EVENTS then MAX_EVENTS else n
  {
    var times := Missed(window, n);
    if k > MAX_EVENTS {
      assert times[..k] == Missed(window, k - MAX_EVENTS - 1);
      MissedLive(window, k - MAX_EVENTS - 1);
    } else {
      LiveAtMost(times[..k], times[k] - window);
    }
  }

  lemma {:induction false} MissedFits(window: int, n: nat, cap: nat)
    requires window > 1 && 0 < n && n + MAX_EVENTS < U32_MAX && cap > MAX_EVENTS && cap > n
    ensures Recordable(Missed(window, n), window, cap)
  {
    var times := Missed(window, n);
    MissedIsOrdered(window, n);
    forall k | 0 <= k < |times| ensures LiveBefore(times, k, window) < cap {
      MissedWithin(window, n, k);
    }
  }

  /** Counting is exact for a number of events a window exactly when that number
      does not pass the capacity: one event more and a history is miscounted. */
  lemma {:induction false} ExactIffCapacityHolds(window: int, cap: nat)
    requires window > 1
    ensures ExactUpTo(window, cap) <==> cap <= MAX_EVENTS
  {
    if cap <= MAX_EVENTS {
      forall times | Recordable(times, window, cap) ensures ExactFor(times, window) {
        SmallHistoryIsExact(times, window, cap);
      }
    } else {
      MissedFits(window, 1, cap);
      MissedLive(window, 1);
      MissedCount(window, 1);
    }
  }

  lemma {:induction false} SmallHistoryIsExact(times: seq<int>, window: int, cap: nat)
    requires window > 0 && cap <= MAX_EVENTS && Recordable(times, window, cap)
    ensures ExactFor(times, window)
  {
    assert forall k :: 0 <= k < |times| ==> LiveBefore(times, k, window) < cap;
    ExactBelowCapacity(times, window);
  }

  // ----- Firing -----

  /** The last event of this history brings the window to the threshold, and the
      count says so. */
  ghost predicate FiresFor(times: seq<int>, window: int, threshold: nat)
    requires times != []
  {
    Live(times, times[|times| - 1] - window) >= threshold ==> Total(Replay(times, window)) >= threshold
  }

  /** The threshold fires whenever it should, on every history of at most `cap`
      events a window. */
  ghost predicate FiresUpTo(window: int, cap: nat, threshold: nat) {
    forall times :: Recordable(times, window, cap) ==> FiresFor(times, window, threshold)
  }

  lemma {:induction false} CountIsPositive(times: seq<int>, window: int)
    requires times != []
    ensures Total(Replay(times, window)) >= 1
  {
  }

  lemma {:induction false} LiveIsWithin(times: seq<int>, window: int, cap: nat)
    requires times != [] && Within(times, window, cap)
    ensures Live(times, times[|times| - 1] - window) <= cap
  {
    var k := |times| - 1;
    assert LiveBefore(times, k, window) < cap;
    assert times == times[..k] + [times[k]];
    LiveSnoc(times[..k], times[k], times[k] - window);
  }

  lemma {:induction false} FiresWhenItShould(times: seq<int>, window: int, cap: nat, threshold: nat)
    requires window > 0 && Recordable(times, window, cap)
    requires threshold <= 1 || cap <= MAX_EVENTS || cap < threshold
    ensures FiresFor(times, window, threshold)
  {
    CountIsPositive(times, window);
    LiveIsWithin(times, window, cap);
    if cap <= MAX_EVENTS {
      SmallHistoryIsExact(times, window, cap);
    }
  }

  lemma {:induction false} MissedThreshold(window: int, threshold: nat)
    requires window > 1 && 2 <= threshold && threshold + MAX_EVENTS <= U32_MAX
    ensures !FiresFor(Missed(window, threshold - 1), window, threshold)
  {
    MissedLive(window, threshold - 1);
    MissedCount(window, threshold - 1);
  }

  /** A threshold of at least two fires whenever it should exactly when the
      traffic cannot pass the capacity, or cannot reach the threshold at all. */
  lemma {:induction false} FiresIffCapacityHolds(window: int, cap: nat, threshold: nat)
    requires window > 1 && threshold + MAX_EVENTS <= U32_MAX
    ensures FiresUpTo(window, cap, threshold) <==> threshold <= 1 || cap <= MAX_EVENTS || cap < threshold
  {
    if threshold <= 1 || cap <= MAX_EVENTS || cap < threshold {
      forall times | Recordable(times, window, cap) ensures FiresFor(times, window, threshold) {
        FiresWhenItShould(times, window, cap, threshold);
      }
    } else {
      MissedFits(window, threshold - 1, cap);
      MissedThreshold(window, threshold);
    }
  }

  // ----- Every run of the bounded map -----

  datatype Op = Rec(key: string, now: int) | Cleanup(now: int)

  /** The map, and the times at which the followed key was counted. */
  datatype Tracker = Tracker(counters: map<string, Counter>, lastSweep: int, times: seq<int>, clock: int)

  function After(s: Tracker, window: int, followed: string, op: Op): Tracker {
    match op
    case Cleanup(now) => Tracker(Swept(s.counters, window, now), now, s.times, now)
    case Rec(key, now) =>
      var (m, sweep, r) := AfterRecord(s.counters, s.lastSweep, window, key, now);
      Tracker(m, sweep, if key == followed && r.Count? then s.times + [now] else s.times, now)
  }

  ghost predicate Faithful(s: Tracker, window: int, followed: string) {
    && Alike(SlotOf(s.counters, followed), Replay(s.times, window), window, s.clock)
    && Ordered(s.times) && (s.times != [] ==> s.times[|s.times| - 1] <= s.clock)
    && |s.counters| <= MAX_TRACKED_KEYS
    && forall k :: k in s.counters ==> |s.counters[k].events| <= MAX_EVENTS
  }

  lemma {:induction false} IncrementedIsSane(c: Counter, window: int, now: int)
    requires |c.events| <= MAX_EVENTS
    ensures Sane(Incremented(c, window, now)) && |Incremented(c, window, now).events| <= MAX_EVENTS
  {
    PrunedEvents(c, window, now);
  }

  lemma {:induction false} CleanupStep(s: Tracker, window: int, followed: string, now: int)
    requires Faithful(s, window, followed) && s.clock <= now
    ensures Faithful(After(s, window, followed, Cleanup(now)), window, followed)
  {
    SweepKeepsAlike(s.counters, followed, Replay(s.times, window), window, s.clock, now);
    SweptIsSmaller(s.counters, window, now);
  }

  lemma {:induction false} RoomStep(s: Tracker, window: int, followed: string, key: string, now: int)
    requires Faithful(s, window, followed) && s.clock <= now
    ensures
      var (room, sweep) := MakeRoom(s.counters, s.lastSweep, window, key, now);
      Faithful(Tracker(room, sweep, s.times, now), window, followed)
  {
    if key !in s.counters && |s.counters| >= MAX_TRACKED_KEYS && SweepIsDue(s.lastSweep, now) {
      CleanupStep(s, window, followed, now);
    }
  }

  lemma {:induction false} TallyAlike(s: Slot, unswept: Counter, window: int, now: int)
    requires Alike(s, unswept, window, now) && |Held(s).events| <= MAX_EVENTS
    ensures Incremented(Held(s), window, now) == Incremented(unswept, window, now)
    ensures Alike(Present(Incremented(Held(s), window, now)), Incremented(unswept, window, now), window, now)
  {
    IncrementedIsSane(Held(s), window, now);
  }

  lemma {:induction false} TallyFollowed(s: Tracker, window: int, followed: string)
    requires Faithful(s, window, followed) && (followed in s.counters || |s.counters| < MAX_TRACKED_KEYS)
    ensures
      var c := Incremented(Held(SlotOf(s.counters, followed)), window, s.clock);
      && c == Replay(s.times + [s.clock], window)
      && Alike(Present(c), Replay(s.times + [s.clock], window), window, s.clock)
      && Ordered(s.times + [s.clock])
  {
    ReplaySnoc(s.times, s.clock, window);
    OrderedSnoc(s.times, s.clock);
    TallyAlike(SlotOf(s.counters, followed), Replay(s.times, window), window, s.clock);
  }

  lemma {:induction false} TallyBounds(m: map<string, Counter>, window: int, key: string, now: int)
    requires |m| <= MAX_TRACKED_KEYS && forall k :: k in m ==> |m[k].events| <= MAX_EVENTS
    ensures
      var counted := Tally(m, window, key, now).0;
      |counted| <= MAX_TRACKED_KEYS && forall k :: k in counted ==> |counted[k].events| <= MAX_EVENTS
  {
    if key in m || |m| < MAX_TRACKED_KEYS {
      var c := Incremented(Held(SlotOf(m, key)), window, now);
      IncrementedIsSane(Held(SlotOf(m, key)), window, now);
      InsertedSize(m, key, c);
    }
  }

  /** Counting the followed key. */
  lemma {:induction false} TallyOwn(s: Tracker, window: int, followed: string)
    requires Faithful(s, window, followed) && Tally(s.counters, window, followed, s.clock).1.Count?
    ensures
      var (counted, r) := Tally(s.counters, window, followed, s.clock);
      && Faithful(Tracker(counted, s.lastSweep, s.times + [s.clock], s.clock), window, followed)
      && r.total == Total(Replay(s.times + [s.clock], window))
  {
    var c := Incremented(Held(SlotOf(s.counters, followed)), window, s.clock);
    TallyBounds(s.counters, window, followed, s.clock);
    TallyFollowed(s, window, followed);
    assert SlotOf(s.counters[followed := c], followed) == Present(c);
  }

  /** Counting another key, or declining one. */
  lemma {:induction false} TallyOther(s: Tracker, window: int, followed: string, key: string)
    requires Faithful(s, window, followed)
    requires key != followed || Tally(s.counters, window, key, s.clock).1.NotTracked?
    ensures Faithful(s.(counters := Tally(s.counters, window, key, s.clock).0), window, followed)
  {
    var counted := Tally(s.counters, window, key, s.clock).0;
    TallyBounds(s.counters, window, key, s.clock);
    assert SlotOf(counted, followed) == SlotOf(s.counters, followed);
  }

  lemma {:induction false} RecordStep(s: Tracker, window: int, followed: string, key: string, now: int)
    requires Faithful(s, window, followed) && s.clock <= now
    ensures Faithful(After(s, window, followed, Rec(key, now)), window, followed)
  {
    RoomStep(s, window, followed, key, now);
    var (room, sweep) := MakeRoom(s.counters, s.lastSweep, window, key, now);
    var ready := Tracker(room, sweep, s.times, now);
    if key == followed && Tally(room, window, key, now).1.Count? {
      TallyOwn(ready, window, followed);
    } else {
      TallyOther(ready, window, followed, key);
    }
  }

  /** A record of the followed key returns what the unswept counter returns. */
  lemma {:induction false} RecordReturns(s: Tracker, window: int, followed: string, now: int)
    requires Faithful(s, window, followed) && s.clock <= now
    ensures
      var r := AfterRecord(s.counters, s.lastSweep, window, followed, now).2;
      && Ordered(s.times + [now])
      && (r.Count? ==> r.total == Total(Replay(s.times + [now], window)))
  {
    OrderedSnoc(s.times, now);
    RoomStep(s, window, followed, followed, now);
    var (room, sweep) := MakeRoom(s.counters, s.lastSweep, window, followed, now);
    if Tally(room, window, followed, now).1.Count? {
      TallyOwn(Tracker(room, sweep, s.times, now), window, followed);
    }
  }

  lemma {:induction false} InsertedSize(m: map<string, Counter>, key: string, c: Counter)
    ensures |m[key := c]| == if key in m then |m| else |m| + 1
  {
    assert m[key := c].Keys == m.Keys + {key};
    assert |m[key := c]| == |m[key := c].Keys| && |m| == |m.Keys|;
    if key in m {
      assert m.Keys + {key} == m.Keys;
    }
  }

  ghost predicate Steps(s: Tracker, window: int, followed: string, op: Op, next: Tracker) {
    s.clock <= op.now && next == After(s, window, followed, op)
  }

  ghost predicate IsRun(window: int, followed: string, states: seq<Tracker>, ops: seq<Op>) {
    && |states| == |ops| + 1 && states[0] == Tracker(map[], states[0].clock, [], states[0].clock)
    && forall k :: 0 <= k < |ops| ==> Steps(states[k], window, followed, ops[k], states[k + 1])
  }

  lemma {:induction false} RunIsFaithful(window: int, followed: string, states: seq<Tracker>, ops: seq<Op>, k: nat)
    requires IsRun(window, followed, states, ops) && k < |states|
    ensures Faithful(states[k], window, followed)
    decreases k
  {
    if k > 0 {
      RunIsFaithful(window, followed, states, ops, k - 1);
      assert Steps(states[k - 1], window, followed, ops[k - 1], states[k]);
      match ops[k - 1]
      case Rec(key, now) => RecordStep(states[k - 1], window, followed, key, now);
      case Cleanup(now) => CleanupStep(states[k - 1], window, followed, now);
    }
  }

  /** Since event `i` of `times`, which found its window empty, the key has
      stayed below capacity. */
  ghost predicate UnsaturatedSince(times: seq<int>, i: nat, window: int) {
    && i < |times| && Live(times[..i], times[i] - window) == 0
    && BelowCapacity(times[i..], window) && |times[i..]| <= U32_MAX
  }

  /** Recording the followed key now is declined, or returns exactly its records
      inside the window. */
  ghost predicate ReportsExactly(s: Tracker, window: int, followed: string, now: int) {
    var r := AfterRecord(s.counters, s.lastSweep, window, followed, now).2;
    r.Count? ==> r.total == Live(s.times + [now], now - window)
  }

  lemma {:induction false} ExactWhileUnsaturated(before: seq<int>, now: int, i: nat, window: int)
    requires window > 0 && Ordered(before + [now]) && UnsaturatedSince(before + [now], i, window)
    ensures Total(Replay(before + [now], window)) == Live(before + [now], now - window)
  {
    ExactSinceQuiet(before + [now], i, window);
  }

  lemma {:induction false} RecordIsExact(s: Tracker, window: int, followed: string, now: int, i: nat)
    requires window > 0 && Faithful(s, window, followed) && s.clock <= now
    requires UnsaturatedSince(s.times + [now], i, window)
    ensures ReportsExactly(s, window, followed, now)
  {
    RecordReturns(s, window, followed, now);
    ExactWhileUnsaturated(s.times, now, i, window);
  }

  lemma {:induction false} BeforeStep(window: int, followed: string, states: seq<Tracker>, ops: seq<Op>, k: nat)
    requires IsRun(window, followed, states, ops) && k < |ops|
    ensures Faithful(states[k], window, followed) && states[k].clock <= ops[k].now
  {
    RunIsFaithful(window, followed, states, ops, k);
    assert Steps(states[k], window, followed, ops[k], states[k + 1]);
  }

  /** Over every run of records of any keys, sweeps and cleanups, the map stays
      within its bounds, and a tracked record of a key that has not saturated
      since its window was last empty returns exactly its records inside the
      window. */
  lemma {:induction false} CountingIsExact(
      window: int, states: seq<Tracker>, ops: seq<Op>, k: nat, followed: string, i: nat)
    requires window > 0 && IsRun(window, followed, states, ops) && k < |ops|
    ensures |states[k].counters| <= MAX_TRACKED_KEYS
    ensures UnsaturatedSince(states[k].times + [ops[k].now], i, window) ==>
              ReportsExactly(states[k], window, followed, ops[k].now)
  {
    BeforeStep(window, followed, states, ops, k);
    if UnsaturatedSince(states[k].times + [ops[k].now], i, window) {
      RecordIsExact(states[k], window, followed, ops[k].now, i);
    }
  }
}
