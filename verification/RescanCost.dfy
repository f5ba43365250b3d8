/** The strided re-scan does linear work in the length of the response, and yet
    never leaves text waiting for longer than the stride. */
module RescanCost {
  import opened OutputFilter
  import opened Streaming

  /** Characters one push hands to the full filter. */
  function PushCost(holdback: nat, s: State, delta: string): nat {
    var b := Buffer(s, delta);
    if ScanIsDue(b.rawChars, b.scannedChars, holdback) then |b.raw| else 0
  }

  function FeedCost(rules: seq<Rule>, holdback: nat, s: State, chunks: seq<string>): nat
    decreases |chunks|
  {
    if chunks == [] then 0
    else
      var (next, pushed) := AfterPush(rules, holdback, s, chunks[0]);
      PushCost(holdback, s, chunks[0])
      + if pushed.Violation? then 0 else FeedCost(rules, holdback, next, chunks[1..])
  }

  /** Characters handed to the full filter by every push and by the finish. */
  function StreamCost(rules: seq<Rule>, holdback: nat, chunks: seq<string>): nat {
    var fed := Feed(rules, holdback, START, chunks);
    FeedCost(rules, holdback, START, chunks) + if fed.violation.Some? then 0 else |fed.state.raw|
  }

  /** Each scan pays for itself out of the characters since the previous one. */
  lemma {:induction false} ScanPays(rawChars: nat, scannedChars: nat, holdback: nat)
    requires ScanIsDue(rawChars, scannedChars, holdback)
    ensures 69 * scannedChars + rawChars <= 69 * rawChars
  {
  }

  lemma {:induction false} PushPays(rules: seq<Rule>, holdback: nat, s: State, delta: string, paid: nat)
    requires s.rawChars == |s.raw| && s.scannedChars <= s.rawChars && paid <= 69 * s.scannedChars
    ensures
      var next := AfterPush(rules, holdback, s, delta).0;
      && next.raw == s.raw + delta && next.rawChars == |next.raw| && next.scannedChars <= next.rawChars
      && paid + PushCost(holdback, s, delta) <= 69 * next.scannedChars
  {
    var b := Buffer(s, delta);
    if ScanIsDue(b.rawChars, b.scannedChars, holdback) {
      ScanPays(b.rawChars, b.scannedChars, holdback);
    }
  }

  lemma {:induction false} FeedPays(rules: seq<Rule>, holdback: nat, s: State, chunks: seq<string>, paid: nat)
    requires s.rawChars == |s.raw| && s.scannedChars <= s.rawChars && paid <= 69 * s.scannedChars
    ensures
      var end := Feed(rules, holdback, s, chunks).state;
      && end.scannedChars <= |end.raw| <= |s.raw| + |Flat(chunks)|
      && paid + FeedCost(rules, holdback, s, chunks) <= 69 * end.scannedChars
    decreases |chunks|
  {
    if chunks != [] {
      PushPays(rules, holdback, s, chunks[0], paid);
      var (next, pushed) := AfterPush(rules, holdback, s, chunks[0]);
      if pushed.Chunk? {
        FeedPays(rules, holdback, next, chunks[1..], paid + PushCost(holdback, s, chunks[0]));
      }
    }
  }

  /** Over any sequence of pushes and the finish, the characters handed to the
      full filter are at most seventy times the characters generated. */
  lemma {:induction false} RescanIsLinear(rules: seq<Rule>, holdback: nat, chunks: seq<string>)
    ensures StreamCost(rules, holdback, chunks) <= 70 * |Flat(chunks)|
  {
    FeedPays(rules, holdback, START, chunks, 0);
  }

  // ----- What is waiting -----

  /** No scan is owed: the text is within the holdback, or fewer characters than the
      stride came since the last scan. */
  predicate NotOwed(rawChars: nat, scannedChars: nat, holdback: nat) {
    rawChars <= holdback || rawChars < scannedChars + 16 || rawChars < scannedChars + scannedChars / 64
  }

  /** All that the last scan allowed has been released. */
  ghost predicate UpToDate(rules: seq<Rule>, holdback: nat, s: State) {
    && s.rawChars == |s.raw| && s.scannedChars <= |s.raw| && s.releasedChars == |s.released|
    && NotOwed(s.rawChars, s.scannedChars, holdback)
    && var seen := Filter(rules, s.raw[..s.scannedChars]);
       |seen.text| <= |s.released| + holdback
  }

  lemma {:induction false} PushIsUpToDate(rules: seq<Rule>, holdback: nat, s: State, delta: string)
    requires UpToDate(rules, holdback, s) && AfterPush(rules, holdback, s, delta).1.Chunk?
    ensures UpToDate(rules, holdback, AfterPush(rules, holdback, s, delta).0)
  {
    var raw := s.raw + delta;
    assert raw[..s.scannedChars] == s.raw[..s.scannedChars] && raw[..|raw|] == raw;
  }

  lemma {:induction false} FeedIsUpToDate(rules: seq<Rule>, holdback: nat, s: State, chunks: seq<string>)
    requires UpToDate(rules, holdback, s) && Feed(rules, holdback, s, chunks).violation.None?
    ensures UpToDate(rules, holdback, Feed(rules, holdback, s, chunks).state)
    decreases |chunks|
  {
    if chunks != [] {
      PushIsUpToDate(rules, holdback, s, chunks[0]);
      FeedIsUpToDate(rules, holdback, AfterPush(rules, holdback, s, chunks[0]).0, chunks[1..]);
    }
  }

  lemma {:induction false} EmptyStaysEmpty(rules: seq<Rule>)
    ensures Filter(rules, []).text == []
    decreases |rules|
  {
    if rules != [] {
      var r := ApplyRule(rules[0], []);
      if rules[0].kind.TokenBlocklist? {
        EmptyBlocklist(rules[0].id, rules[0].action, rules[0].kind.tokens);
      }
      EmptyStaysEmpty(rules[1..]);
    }
  }

  lemma {:induction false} EmptyBlocklist(id: string, action: Action, tokens: seq<string>)
    ensures Blocklist(id, action, tokens, []).text == []
    decreases |tokens|
  {
    if tokens != [] {
      EmptyBlocklist(id, action, tokens[1..]);
    }
  }

  /** For any policy, holdback and chunks, after every push that is accepted: of the
      text the last scan let through, no more than the holdback is kept back; and
      the text that scan has not seen is shorter than the stride, or else all the
      text is within the holdback. */
  lemma {:induction false} NothingIsOwed(rules: seq<Rule>, holdback: nat, chunks: seq<string>)
    requires Feed(rules, holdback, START, chunks).violation.None?
    ensures
      var s := Feed(rules, holdback, START, chunks).state;
      && s.scannedChars <= |Flat(chunks)|
      && NotOwed(|Flat(chunks)|, s.scannedChars, holdback)
      && |Filter(rules, Flat(chunks)[..s.scannedChars]).text| <= |s.released| + holdback
  {
    EmptyStaysEmpty(rules);
    assert START.raw[..0] == [];
    FeedIsUpToDate(rules, holdback, START, chunks);
    FedRaw(rules, holdback, START, chunks);
    assert START.raw + Flat(chunks) == Flat(chunks);
  }
}
