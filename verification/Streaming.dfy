/** The streaming filter: a policy applied to a response as it is generated,
    releasing only text that lies a holdback away from the end of a completed
    scan, and re-scanning at a growing stride. */
module Streaming {
  import opened Prelude
  import opened OutputFilter
  import opened FilterLag

  const MIN_STRIDE: nat := 16
  const STRIDE_DIVISOR: nat := 64

  // ----- One stream as a value -----

  datatype State = State(
    raw: string, rawChars: nat, scannedChars: nat,
    releasedChars: nat, released: string, matches: seq<Match>)

  datatype Pushed = Chunk(text: string) | Violation(ruleId: string)

  datatype Finished = Tail(text: string, result: FilterResult) | Refused(ruleId: string)

  const START: State := State([], 0, 0, 0, [], [])

  function FirstRule(matches: seq<Match>): string {
    if matches == [] then [] else matches[0].id
  }

  function Skip(text: string, n: nat): string {
    if n <= |text| then text[n..] else []
  }

  predicate ScanIsDue(rawChars: nat, scannedChars: nat, holdback: nat) {
    && rawChars > holdback
    && var stride := scannedChars / STRIDE_DIVISOR;
       rawChars - scannedChars >= (if stride > MIN_STRIDE then stride else MIN_STRIDE)
  }

  /** The state once `delta` is in the buffer and before any scan. */
  function Buffer(s: State, delta: string): State {
    s.(raw := s.raw + delta, rawChars := s.rawChars + |delta|)
  }

  /** Release what a completed scan with this result allows. */
  function Release(s: State, result: FilterResult, holdback: nat): (State, Pushed) {
    var scanned := s.(scannedChars := s.rawChars, matches := result.matches);
    var releasable := |Held(result.text, holdback)|;
    if releasable <= s.releasedChars then (scanned, Chunk([]))
    else
      var chunk := result.text[s.releasedChars..releasable];
      (scanned.(releasedChars := releasable, released := s.released + chunk), Chunk(chunk))
  }

  function AfterPush(rules: seq<Rule>, holdback: nat, s: State, delta: string): (State, Pushed) {
    var b := Buffer(s, delta);
    if !ScanIsDue(b.rawChars, b.scannedChars, holdback) then (b, Chunk([]))
    else
      var result := Filter(rules, b.raw);
      if result.blocked then (b.(scannedChars := b.rawChars), Violation(FirstRule(result.matches)))
      else Release(b, result, holdback)
  }

  function AfterFinish(rules: seq<Rule>, s: State): (State, Finished) {
    var result := Filter(rules, s.raw);
    var taken := s.(raw := [], scannedChars := s.rawChars);
    if result.blocked then (taken, Refused(FirstRule(result.matches)))
    else
      var tail := Skip(result.text, s.releasedChars);
      (taken.(releasedChars := |result.text|, released := s.released + tail), Tail(tail, result))
  }

  /** The object whose fields the two operations update. */
  class StreamingFilter {
    const rules: seq<Rule>
    const holdback: nat
    var raw: string
    var scannedChars: nat
    var rawChars: nat
    var releasedChars: nat
    var released: string
    var matches: seq<Match>

    ghost function View(): State
      reads this
    {
      State(raw, rawChars, scannedChars, releasedChars, released, matches)
    }

    constructor (rules: seq<Rule>, holdback: nat)
      ensures this.rules == rules && this.holdback == holdback
      ensures View() == START
    {
      this.rules, this.holdback := rules, holdback;
      raw, scannedChars, rawChars, releasedChars, released, matches := [], 0, 0, 0, [], [];
    }

    method Push(delta: string) returns (r: Pushed)
      modifies this
      ensures (View(), r) == AfterPush(rules, holdback, old(View()), delta)
    {
      raw := raw + delta;
      rawChars := rawChars + |delta|;
      if !ScanIsDue(rawChars, scannedChars, holdback) {
        return Chunk([]);
      }
      var result := RunFilter(rules, raw);
      scannedChars := rawChars;
      if result.blocked {
        return Violation(FirstRule(result.matches));
      }
      matches := result.matches;
      var releasable := if |result.text| <= holdback then 0 else |result.text| - holdback;
      if releasable <= releasedChars {
        return Chunk([]);
      }
      var chunk := result.text[releasedChars..releasable];
      releasedChars := releasable;
      released := released + chunk;
      return Chunk(chunk);
    }

    method Finish() returns (r: Finished)
      modifies this
      ensures (View(), r) == AfterFinish(rules, old(View()))
    {
      var result := RunFilter(rules, raw);
      raw := [];
      scannedChars := rawChars;
      if result.blocked {
        return Refused(FirstRule(result.matches));
      }
      var tail := Skip(result.text, releasedChars);
      releasedChars := |result.text|;
      released := released + tail;
      return Tail(tail, result);
    }
  }

  // ----- Whole runs -----

  function Flat(chunks: seq<string>): string {
    if chunks == [] then [] else chunks[0] + Flat(chunks[1..])
  }

  /** Where a run of pushes got to. A violation ends it. */
  datatype Fed = Fed(state: State, out: seq<string>, violation: Option<string>)

  function Feed(rules: seq<Rule>, holdback: nat, s: State, chunks: seq<string>): (r: Fed)
    ensures |r.out| <= |chunks| && (r.violation.None? ==> |r.out| == |chunks|)
    decreases |chunks|
  {
    if chunks == [] then Fed(s, [], None)
    else
      var (next, pushed) := AfterPush(rules, holdback, s, chunks[0]);
      match pushed
      case Violation(id) => Fed(next, [], Some(id))
      case Chunk(text) =>
        var rest := Feed(rules, holdback, next, chunks[1..]);
        rest.(out := [text] + rest.out)
  }

  datatype Outcome = Completed(sent: string, released: string, result: FilterResult) | Stopped(ruleId: string)

  function Stream(rules: seq<Rule>, holdback: nat, chunks: seq<string>): Outcome {
    var fed := Feed(rules, holdback, START, chunks);
    if fed.violation.Some? then Stopped(fed.violation.value)
    else
      var (last, finished) := AfterFinish(rules, fed.state);
      match finished
      case Refused(id) => Stopped(id)
      case Tail(text, result) => Completed(Flat(fed.out) + text, last.released, result)
  }

  // ----- The invariant -----

  ghost predicate Counted(s: State) {
    && s.rawChars == |s.raw|
    && s.scannedChars <= s.rawChars
    && s.releasedChars == |s.released|
  }

  /** No continuation the policy accepts can take back what was released. */
  ghost predicate Committed(rules: seq<Rule>, s: State) {
    forall more: string :: !Filter(rules, s.raw + more).blocked ==>
      s.released <= Filter(rules, s.raw + more).text
  }

  /** Texts long enough to be scanned when they arrive at once. */
  predicate Scannable(x: string, holdback: nat) {
    |x| > holdback && |x| >= MIN_STRIDE
  }

  /** Should all of `x + more` be accepted, then a scan of `x` refuses nothing
      and releases only what the whole-response filter returns. */
  ghost predicate SafeAt(rules: seq<Rule>, holdback: nat, x: string, more: string) {
    Scannable(x, holdback) && !Filter(rules, x + more).blocked ==>
      && !Filter(rules, x).blocked
      && Held(Filter(rules, x).text, holdback) <= Filter(rules, x + more).text
  }

  /** A condition on the whole-response filter alone, with no stream in it. */
  ghost predicate Safe(rules: seq<Rule>, holdback: nat) {
    forall x: string, more: string :: SafeAt(rules, holdback, x, more)
  }

  ghost predicate CoversLag(rules: seq<Rule>, holdback: nat) {
    Lag(rules, 0).Some? && Lag(rules, 0).value <= holdback
  }

  lemma {:induction false} HeldShrinks(x: string, d: nat, h: nat)
    requires d <= h
    ensures Held(x, h) <= Held(x, d)
  {
  }

  /** A holdback that covers the policy's lag is safe. */
  lemma {:induction false} CoveredLagIsSafe(rules: seq<Rule>, holdback: nat)
    requires CoversLag(rules, holdback)
    ensures Safe(rules, holdback)
  {
    forall x: string, more: string ensures SafeAt(rules, holdback, x, more) {
      FilterNear(rules, x, x + more, 0);
      HeldShrinks(Filter(rules, x).text, Lag(rules, 0).value, holdback);
    }
  }

  lemma {:induction false} BufferKeepsCommitment(rules: seq<Rule>, s: State, delta: string)
    requires Committed(rules, s)
    ensures Committed(rules, Buffer(s, delta))
  {
    forall more: string | !Filter(rules, s.raw + delta + more).blocked
      ensures s.released <= Filter(rules, s.raw + delta + more).text
    {
      assert s.raw + delta + more == s.raw + (delta + more);
    }
  }

  lemma {:induction false} ReleaseKeeps(rules: seq<Rule>, holdback: nat, s: State)
    requires Safe(rules, holdback) && Counted(s) && Committed(rules, s)
    requires Scannable(s.raw, holdback) && !Filter(rules, s.raw).blocked
    ensures
      var (next, pushed) := Release(s, Filter(rules, s.raw), holdback);
      && Counted(next) && Committed(rules, next)
      && pushed.Chunk? && next.released == s.released + pushed.text
  {
    var text := Filter(rules, s.raw).text;
    assert s.raw + [] == s.raw;
    assert s.released <= text;
    var (next, pushed) := Release(s, Filter(rules, s.raw), holdback);
    if |Held(text, holdback)| > s.releasedChars {
      assert next.released == Held(text, holdback);
      forall more: string | !Filter(rules, next.raw + more).blocked
        ensures next.released <= Filter(rules, next.raw + more).text
      {
        assert SafeAt(rules, holdback, s.raw, more);
      }
    }
  }

  lemma {:induction false} PushKeeps(rules: seq<Rule>, holdback: nat, s: State, delta: string)
    requires Safe(rules, holdback) && Counted(s) && Committed(rules, s)
    ensures
      var (next, pushed) := AfterPush(rules, holdback, s, delta);
      && Counted(next) && Committed(rules, next) && next.raw == s.raw + delta
      && (pushed.Chunk? ==> next.released == s.released + pushed.text)
      && (pushed.Violation? ==>
            && next.released == s.released
            && Scannable(s.raw + delta, holdback) && Filter(rules, s.raw + delta).blocked)
  {
    BufferKeepsCommitment(rules, s, delta);
    var b := Buffer(s, delta);
    if ScanIsDue(b.rawChars, b.scannedChars, holdback) && !Filter(rules, b.raw).blocked {
      ReleaseKeeps(rules, holdback, b);
    }
  }

  /** A text that a scan refuses stays refused as it grows. */
  lemma {:induction false} BlockedStays(rules: seq<Rule>, holdback: nat, x: string, more: string)
    requires Safe(rules, holdback) && Scannable(x, holdback) && Filter(rules, x).blocked
    ensures Filter(rules, x + more).blocked
  {
    assert SafeAt(rules, holdback, x, more);
  }

  lemma {:induction false} Associate(a: string, b: string, c: string)
    ensures a + (b + c) == a + b + c
  {
  }

  lemma {:induction false} FlatCons(head: string, tail: seq<string>)
    ensures Flat([head] + tail) == head + Flat(tail)
  {
    assert ([head] + tail)[1..] == tail;
  }

  /** What a run of pushes has done to its state. */
  ghost predicate Fine(rules: seq<Rule>, holdback: nat, s: State, chunks: seq<string>, fed: Fed) {
    && Counted(fed.state) && Committed(rules, fed.state)
    && fed.state.released == s.released + Flat(fed.out)
    && (fed.violation.None? ==> fed.state.raw == s.raw + Flat(chunks))
    && (fed.violation.Some? ==>
          Scannable(s.raw + Flat(chunks), holdback) && Filter(rules, s.raw + Flat(chunks)).blocked)
  }

  /** A push before a fine run makes a fine run. */
  lemma {:induction false} FineAfterChunk(
      rules: seq<Rule>, holdback: nat, s: State, next: State, text: string, chunks: seq<string>, rest: Fed)
    requires chunks != [] && next.raw == s.raw + chunks[0] && next.released == s.released + text
    requires Fine(rules, holdback, next, chunks[1..], rest)
    ensures Fine(rules, holdback, s, chunks, rest.(out := [text] + rest.out))
  {
    Associate(s.raw, chunks[0], Flat(chunks[1..]));
    Associate(s.released, text, Flat(rest.out));
    FlatCons(text, rest.out);
  }

  lemma {:induction false} FeedKeeps(rules: seq<Rule>, holdback: nat, s: State, chunks: seq<string>)
    requires Safe(rules, holdback) && Counted(s) && Committed(rules, s)
    ensures Fine(rules, holdback, s, chunks, Feed(rules, holdback, s, chunks))
    decreases |chunks|
  {
    if chunks == [] {
      assert s.raw + [] == s.raw && s.released + [] == s.released;
    } else {
      var (next, pushed) := AfterPush(rules, holdback, s, chunks[0]);
      PushKeeps(rules, holdback, s, chunks[0]);
      match pushed
      case Violation(_) =>
        BlockedStays(rules, holdback, s.raw + chunks[0], Flat(chunks[1..]));
        Associate(s.raw, chunks[0], Flat(chunks[1..]));
        assert s.released + [] == s.released;
      case Chunk(text) =>
        FeedKeeps(rules, holdback, next, chunks[1..]);
        FineAfterChunk(rules, holdback, s, next, text, chunks, Feed(rules, holdback, next, chunks[1..]));
    }
  }

  /** For any policy, what was accepted is in the buffer. */
  lemma {:induction false} FedRaw(rules: seq<Rule>, holdback: nat, s: State, chunks: seq<string>)
    requires Feed(rules, holdback, s, chunks).violation.None?
    ensures Feed(rules, holdback, s, chunks).state.raw == s.raw + Flat(chunks)
    decreases |chunks|
  {
    if chunks == [] {
      assert s.raw + [] == s.raw;
    } else {
      FedRaw(rules, holdback, AfterPush(rules, holdback, s, chunks[0]).0, chunks[1..]);
      Associate(s.raw, chunks[0], Flat(chunks[1..]));
    }
  }

  /** The same from the start of a stream. */
  lemma {:induction false} FeedFromStart(rules: seq<Rule>, holdback: nat, chunks: seq<string>)
    requires Safe(rules, holdback)
    ensures
      var fed := Feed(rules, holdback, START, chunks);
      && Counted(fed.state) && Committed(rules, fed.state)
      && fed.state.released == Flat(fed.out)
      && (fed.violation.None? ==> fed.state.raw == Flat(chunks))
      && (fed.violation.Some? ==> Scannable(Flat(chunks), holdback) && Filter(rules, Flat(chunks)).blocked)
  {
    StartIsCommitted(rules);
    FeedKeeps(rules, holdback, START, chunks);
    var fed := Feed(rules, holdback, START, chunks);
    assert [] + Flat(chunks) == Flat(chunks) && [] + Flat(fed.out) == Flat(fed.out);
  }

  lemma {:induction false} StartIsCommitted(rules: seq<Rule>)
    ensures Counted(START) && Committed(rules, START)
  {
  }

  // ----- The main results -----

  /** Nothing released is ever taken back: after any run of pushes, the text
      released so far is a prefix of the whole filter applied to the text so
      far and any continuation that the policy does not refuse. */
  lemma {:induction false} ReleasedIsStable(rules: seq<Rule>, holdback: nat, chunks: seq<string>, more: string)
    requires Safe(rules, holdback)
    requires !Filter(rules, Flat(chunks) + more).blocked
    ensures
      var fed := Feed(rules, holdback, START, chunks);
      && fed.violation.None?
      && Flat(fed.out) == fed.state.released
      && fed.state.released <= Filter(rules, Flat(chunks) + more).text
  {
    FeedFromStart(rules, holdback, chunks);
    var fed := Feed(rules, holdback, START, chunks);
    if fed.violation.Some? {
      BlockedStays(rules, holdback, Flat(chunks), more);
      assert false;
    }
    assert Committed(rules, fed.state);
  }

  /** The stream and the whole-response filter give the same answer. */
  ghost predicate Agrees(rules: seq<Rule>, holdback: nat, chunks: seq<string>) {
    var whole := Filter(rules, Flat(chunks));
    if whole.blocked then Stream(rules, holdback, chunks).Stopped?
    else Stream(rules, holdback, chunks) == Completed(whole.text, whole.text, whole)
  }

  ghost predicate Refines(rules: seq<Rule>, holdback: nat) {
    forall chunks :: Agrees(rules, holdback, chunks)
  }

  lemma {:induction false} FinishCompletes(rules: seq<Rule>, s: State)
    requires Counted(s) && Committed(rules, s) && !Filter(rules, s.raw).blocked
    ensures
      var result := Filter(rules, s.raw);
      var (last, finished) := AfterFinish(rules, s);
      && finished.Tail? && finished.result == result
      && s.released + finished.text == result.text && last.released == result.text
  {
    assert s.raw + [] == s.raw;
    assert s.released <= Filter(rules, s.raw).text;
  }

  /** With a safe holdback, the stream and the whole-response filter agree on
      every way of cutting a text into chunks. */
  lemma {:induction false} StreamAgrees(rules: seq<Rule>, holdback: nat, chunks: seq<string>)
    requires Safe(rules, holdback)
    ensures Agrees(rules, holdback, chunks)
  {
    FeedFromStart(rules, holdback, chunks);
    var fed := Feed(rules, holdback, START, chunks);
    if fed.violation.None? && !Filter(rules, Flat(chunks)).blocked {
      FinishCompletes(rules, fed.state);
    }
  }

  // ----- The condition is exact -----

  /** A run only ever adds to what was released. */
  lemma {:induction false} FeedExtends(rules: seq<Rule>, holdback: nat, s: State, chunks: seq<string>)
    ensures s.released <= Feed(rules, holdback, s, chunks).state.released
    decreases |chunks|
  {
    if chunks != [] {
      FeedExtends(rules, holdback, AfterPush(rules, holdback, s, chunks[0]).0, chunks[1..]);
    }
  }

  lemma {:induction false} FlatPair(a: string, b: string)
    ensures Flat([a, b]) == a + b
  {
    assert [a, b][1..] == [b] && [b][1..] == [];
    assert Flat([b]) == b + [];
  }

  /** The first push of a long enough text is a scan of it. */
  lemma {:induction false} FirstPush(rules: seq<Rule>, holdback: nat, x: string)
    requires Scannable(x, holdback)
    ensures
      var (next, pushed) := AfterPush(rules, holdback, START, x);
      && (pushed.Violation? <==> Filter(rules, x).blocked)
      && (pushed.Chunk? ==> next.released == Held(Filter(rules, x).text, holdback))
  {
    assert [] + x == x;
  }

  lemma {:induction false} AgreementIsSafe(rules: seq<Rule>, holdback: nat, x: string, more: string)
    requires Agrees(rules, holdback, [x, more])
    ensures SafeAt(rules, holdback, x, more)
  {
    FlatPair(x, more);
    if Scannable(x, holdback) {
      FirstPush(rules, holdback, x);
      assert [x, more][1..] == [more];
      FeedExtends(rules, holdback, AfterPush(rules, holdback, START, x).0, [more]);
    }
  }

  /** For every policy and holdback: the stream agrees with the whole-response
      filter on every text and every cutting of it exactly when no scan refuses
      or releases what that filter, given any accepted continuation, would not. */
  lemma {:induction false} RefinesIffSafe(rules: seq<Rule>, holdback: nat)
    ensures Refines(rules, holdback) <==> Safe(rules, holdback)
  {
    if Safe(rules, holdback) {
      forall chunks ensures Agrees(rules, holdback, chunks) {
        StreamAgrees(rules, holdback, chunks);
      }
    }
    if Refines(rules, holdback) {
      forall x: string, more: string ensures SafeAt(rules, holdback, x, more) {
        assert Agrees(rules, holdback, [x, more]);
        AgreementIsSafe(rules, holdback, x, more);
      }
    }
  }

  /** With a holdback no smaller than the policy's lag, streaming refines the
      whole-response filter. */
  lemma {:induction false} StreamRefinesFilter(rules: seq<Rule>, holdback: nat)
    requires CoversLag(rules, holdback)
    ensures Refines(rules, holdback)
  {
    CoveredLagIsSafe(rules, holdback);
    RefinesIffSafe(rules, holdback);
  }
}
