/** What each kind of rule does to a text, said without the loops and recursions
    that compute it, and what a whole policy does. */
module FilterMeaning {
  import opened Prelude
  import opened OutputFilter

  ghost predicate Occurs(text: string, token: string) {
    exists j :: OccursAt(text, token, j)
  }

  lemma {:induction false} FoundIffOccurs(text: string, token: string)
    ensures Find(text, token).Some? <==> Occurs(text, token)
  {
    FindIsFirst(text, token);
    if j :| OccursAt(text, token, j) {
      assert j >= 0;
    }
  }

  // ----- Topics -----

  ghost predicate HitBy(keywords: seq<string>, text: string, i: int) {
    0 <= i < |keywords| && keywords[i] != [] && Occurs(Lower(text), Lower(keywords[i]))
  }

  /** The places in the list, from `n` on, of the keywords the text mentions. */
  ghost function HitsFrom(keywords: seq<string>, text: string, n: nat): set<int> {
    set i | n <= i < |keywords| && HitBy(keywords, text, i)
  }

  ghost function Hits(keywords: seq<string>, text: string): set<int> {
    HitsFrom(keywords, text, 0)
  }

  lemma {:induction false} HitsAreCounted(keywords: seq<string>, text: string, n: nat)
    requires n <= |keywords|
    ensures TopicHits(keywords[n..], Lower(text)) == |HitsFrom(keywords, text, n)|
    decreases |keywords| - n
  {
    if n < |keywords| {
      HitsAreCounted(keywords, text, n + 1);
      assert keywords[n..][0] == keywords[n] && keywords[n..][1..] == keywords[n + 1..];
      FoundIffOccurs(Lower(text), Lower(keywords[n]));
      OneMoreHit(keywords, text, n);
    } else {
      assert HitsFrom(keywords, text, n) == {};
    }
  }

  lemma {:induction false} OneMoreHit(keywords: seq<string>, text: string, n: nat)
    requires n < |keywords|
    ensures |HitsFrom(keywords, text, n)| == |HitsFrom(keywords, text, n + 1)| + if HitBy(keywords, text, n) then 1 else 0
  {
    var here := if HitBy(keywords, text, n) then {n} else {};
    assert HitsFrom(keywords, text, n) == here + HitsFrom(keywords, text, n + 1);
  }

  lemma {:induction false} OneRule(rule: Rule, text: string)
    ensures Filter([rule], text) == ApplyRule(rule, text)
  {
    assert [rule][1..] == [];
    var r := ApplyRule(rule, text);
    assert Filter([], r.text) == FilterResult(r.text, [], false);
    assert r.matches + [] == r.matches;
  }

  /** A topic rule fires when the text mentions enough different entries of its
      list. It then blocks exactly under `ReturnError`, clears the text exactly
      under `Truncate`, and is recorded once whatever its action. */
  lemma {:induction false} TopicRuleMeans(id: string, keywords: seq<string>, minMatches: nat, action: Action, text: string)
    ensures
      var r := Filter([Rule(id, TopicFilter(keywords, minMatches), action)], text);
      var fires := |Hits(keywords, text)| >= minMatches > 0;
      && (r.blocked <==> action.ReturnError? && fires)
      && r.text == (if action.Truncate? && fires then [] else text)
      && r.matches == (if fires then [Match(id, action)] else [])
  {
    OneRule(Rule(id, TopicFilter(keywords, minMatches), action), text);
    HitsAreCounted(keywords, text, 0);
    assert keywords[0..] == keywords;
  }

  /** The same letter, in whichever case, or the same character. */
  predicate SameLetter(a: char, b: char) {
    || a == b
    || ('A' <= a <= 'Z' && b as int == a as int + 'a' as int - 'A' as int)
    || ('A' <= b <= 'Z' && a as int == b as int + 'a' as int - 'A' as int)
  }

  ghost predicate SameButForCase(a: string, b: string) {
    |a| == |b| && forall i :: 0 <= i < |a| ==> SameLetter(a[i], b[i])
  }

  lemma {:induction false} LoweredAlike(a: string, b: string)
    ensures SameButForCase(a, b) <==> Lower(a) == Lower(b)
  {
    if |a| == |b| {
      var x, y := Lower(a), Lower(b);
      assert forall i :: 0 <= i < |a| ==> (SameLetter(a[i], b[i]) <==> x[i] == y[i]);
    }
  }

  /** Topics are matched whatever the case: two texts that differ in case only,
      under lists that differ in case only, mention the same entries. */
  lemma {:induction false} TopicsIgnoreCase(keywords: seq<string>, others: seq<string>, text: string, other: string)
    requires |keywords| == |others| && forall i :: 0 <= i < |keywords| ==> SameButForCase(keywords[i], others[i])
    requires SameButForCase(text, other)
    ensures Hits(keywords, text) == Hits(others, other)
    ensures TopicHits(keywords, Lower(text)) == TopicHits(others, Lower(other))
  {
    LoweredAlike(text, other);
    forall i | 0 <= i < |keywords|
      ensures Lower(keywords[i]) == Lower(others[i]) && (keywords[i] == [] <==> others[i] == [])
    {
      LoweredAlike(keywords[i], others[i]);
    }
    assert forall i :: HitBy(keywords, text, i) <==> HitBy(others, other, i);
    HitsAreCounted(keywords, text, 0);
    HitsAreCounted(others, other, 0);
    assert keywords[0..] == keywords && others[0..] == others;
  }

  // ----- Length -----

  /** A length rule fires on a text longer than its limit. It then blocks exactly
      under `ReturnError` and leaves exactly the leading characters allowed under
      `Truncate`. */
  lemma {:induction false} LengthRuleMeans(id: string, n: nat, action: Action, text: string)
    ensures
      var r := Filter([Rule(id, MaxLength(n), action)], text);
      && (r.blocked <==> action.ReturnError? && |text| > n)
      && r.text <= text && |r.text| == (if action.Truncate? && |text| > n then n else |text|)
      && r.matches == (if |text| > n then [Match(id, action)] else [])
  {
    OneRule(Rule(id, MaxLength(n), action), text);
  }

  // ----- Tokens -----

  ghost predicate Holds(tokens: seq<string>, text: string, k: int) {
    0 <= k < |tokens| && tokens[k] != [] && Occurs(text, tokens[k])
  }

  /** The first entry of the list that the text holds. */
  ghost predicate FirstHeld(tokens: seq<string>, text: string, k: int) {
    Holds(tokens, text, k) && forall i :: 0 <= i < k ==> !Holds(tokens, text, i)
  }

  lemma {:induction false} HoldsTail(tokens: seq<string>, text: string, k: int)
    requires tokens != [] && k >= 1
    ensures Holds(tokens, text, k) <==> Holds(tokens[1..], text, k - 1)
  {
  }

  /** What cutting and blocking rules do with the first token held. */
  lemma {:induction false} StopsAtFirstHeld(id: string, action: Action, tokens: seq<string>, text: string, k: nat)
    requires action.ReturnError? || action.Truncate?
    requires FirstHeld(tokens, text, k)
    ensures
      var r := Blocklist(id, action, tokens, text);
      && r.matches == [Match(id, action)] && (r.blocked <==> action.ReturnError?)
      && Find(text, tokens[k]).Some?
      && r.text == if action.Truncate? then text[..Find(text, tokens[k]).value] else text
    decreases k
  {
    FoundIffOccurs(text, tokens[0]);
    if k > 0 {
      assert !Holds(tokens, text, 0);
      HoldsTail(tokens, text, k);
      forall i | 0 <= i < k - 1 ensures !Holds(tokens[1..], text, i) {
        HoldsTail(tokens, text, i + 1);
      }
      StopsAtFirstHeld(id, action, tokens[1..], text, k - 1);
    }
  }

  lemma {:induction false} PassesIfNoneHeld(id: string, action: Action, tokens: seq<string>, text: string)
    requires forall k :: !Holds(tokens, text, k)
    ensures Blocklist(id, action, tokens, text) == FilterResult(text, [], false)
    decreases |tokens|
  {
    if tokens != [] {
      assert !Holds(tokens, text, 0);
      FoundIffOccurs(text, tokens[0]);
      forall k ensures !Holds(tokens[1..], text, k) {
        if k >= 0 {
          HoldsTail(tokens, text, k + 1);
        }
      }
      PassesIfNoneHeld(id, action, tokens[1..], text);
    }
  }

  lemma {:induction false} FirstOf(tokens: seq<string>, text: string, k: nat) returns (first: nat)
    requires Holds(tokens, text, k)
    ensures FirstHeld(tokens, text, first)
    decreases k
  {
    if i: nat :| i < k && Holds(tokens, text, i) {
      first := FirstOf(tokens, text, i);
    } else {
      first := k;
    }
  }

  /** A blocking token rule refuses a text exactly when it holds one of its
      tokens, and never changes it. */
  lemma {:induction false} BlockingRuleMeans(id: string, tokens: seq<string>, text: string)
    ensures
      var r := Filter([Rule(id, TokenBlocklist(tokens), ReturnError)], text);
      && (r.blocked <==> exists k :: Holds(tokens, text, k))
      && r.text == text && r.matches == (if r.blocked then [Match(id, ReturnError)] else [])
  {
    OneRule(Rule(id, TokenBlocklist(tokens), ReturnError), text);
    if k :| Holds(tokens, text, k) {
      var first := FirstOf(tokens, text, k);
      StopsAtFirstHeld(id, ReturnError, tokens, text, first);
    } else {
      PassesIfNoneHeld(id, ReturnError, tokens, text);
    }
  }

  /** A cutting token rule keeps the text before the first occurrence of the first
      token in the list that the text holds. */
  lemma {:induction false} CuttingRuleMeans(id: string, tokens: seq<string>, text: string)
    ensures
      var r := Filter([Rule(id, TokenBlocklist(tokens), Truncate)], text);
      && !r.blocked
      && ((forall k :: !Holds(tokens, text, k)) ==> r.text == text && r.matches == [])
      && forall k :: FirstHeld(tokens, text, k) ==>
           && r.matches == [Match(id, Truncate)]
           && r.text <= text && OccursAt(text, tokens[k], |r.text|)
           && forall j :: 0 <= j < |r.text| ==> !OccursAt(text, tokens[k], j)
  {
    OneRule(Rule(id, TokenBlocklist(tokens), Truncate), text);
    if k :| Holds(tokens, text, k) {
      var first := FirstOf(tokens, text, k);
      StopsAtFirstHeld(id, Truncate, tokens, text, first);
      FindIsFirst(text, tokens[first]);
      forall other | FirstHeld(tokens, text, other) ensures other == first {
      }
    } else {
      PassesIfNoneHeld(id, Truncate, tokens, text);
    }
  }

  // ----- Tokens, one after another -----

  /** The text once the first `k` tokens have been redacted, in order. */
  function RedactedBy(tokens: seq<string>, text: string, k: nat): string
    requires k <= |tokens|
  {
    if k == 0 then text
    else if tokens[k - 1] == [] then RedactedBy(tokens, text, k - 1)
    else Replace(RedactedBy(tokens, text, k - 1), tokens[k - 1], MARK)
  }

  /** What token `k` of a redacting or logging rule is looked for in. */
  function SeenBy(action: Action, tokens: seq<string>, text: string, k: nat): string
    requires k <= |tokens|
  {
    if action.Redact? then RedactedBy(tokens, text, k) else text
  }

  ghost function MatchedFrom(action: Action, tokens: seq<string>, text: string, n: nat): set<int> {
    set k | n <= k < |tokens| && tokens[k] != [] && Occurs(SeenBy(action, tokens, text, k), tokens[k])
  }

  lemma {:induction false} NothingToReplace(text: string, token: string)
    requires token != [] && !Occurs(text, token)
    ensures Replace(text, token, MARK) == text
  {
    FoundIffOccurs(text, token);
  }

  lemma {:induction false} OneMoreMatched(action: Action, tokens: seq<string>, text: string, n: nat)
    requires n < |tokens|
    ensures |MatchedFrom(action, tokens, text, n)| == |MatchedFrom(action, tokens, text, n + 1)|
              + if tokens[n] != [] && Occurs(SeenBy(action, tokens, text, n), tokens[n]) then 1 else 0
  {
    var here := if tokens[n] != [] && Occurs(SeenBy(action, tokens, text, n), tokens[n]) then {n} else {};
    assert MatchedFrom(action, tokens, text, n) == here + MatchedFrom(action, tokens, text, n + 1);
  }

  ghost predicate AllAre(matches: seq<Match>, m: Match) {
    forall k :: 0 <= k < |matches| ==> matches[k] == m
  }

  lemma {:induction false} EveryTokenInTurn(id: string, action: Action, tokens: seq<string>, text: string, n: nat)
    requires (action.Redact? || action.LogAndContinue?) && n <= |tokens|
    ensures
      var r := Blocklist(id, action, tokens[n..], SeenBy(action, tokens, text, n));
      && !r.blocked && r.text == SeenBy(action, tokens, text, |tokens|)
      && AllAre(r.matches, Match(id, action)) && |r.matches| == |MatchedFrom(action, tokens, text, n)|
    decreases |tokens| - n
  {
    if n < |tokens| {
      var seen := SeenBy(action, tokens, text, n);
      assert tokens[n..][0] == tokens[n] && tokens[n..][1..] == tokens[n + 1..];
      EveryTokenInTurn(id, action, tokens, text, n + 1);
      OneMoreMatched(action, tokens, text, n);
      FoundIffOccurs(seen, tokens[n]);
      if tokens[n] != [] && !Occurs(seen, tokens[n]) {
        NothingToReplace(seen, tokens[n]);
      }
    } else {
      assert MatchedFrom(action, tokens, text, n) == {};
    }
  }

  /** A redacting rule redacts its tokens one after another, each in what the ones
      before it left, and is recorded once for each token it found; a logging rule
      looks for all of them in the text as it is. */
  lemma {:induction false} RedactingRuleMeans(id: string, action: Action, tokens: seq<string>, text: string)
    requires action.Redact? || action.LogAndContinue?
    ensures
      var r := Filter([Rule(id, TokenBlocklist(tokens), action)], text);
      && !r.blocked
      && r.text == (if action.Redact? then RedactedBy(tokens, text, |tokens|) else text)
      && AllAre(r.matches, Match(id, action)) && |r.matches| == |MatchedFrom(action, tokens, text, 0)|
  {
    OneRule(Rule(id, TokenBlocklist(tokens), action), text);
    EveryTokenInTurn(id, action, tokens, text, 0);
    assert tokens[0..] == tokens;
  }

  // ----- A whole policy -----

  /** The text that the first `k` rules leave, each on its own. */
  function LeftBy(rules: seq<Rule>, text: string, k: nat): string
    requires k <= |rules|
  {
    if k == 0 then text else Filter([rules[k - 1]], LeftBy(rules, text, k - 1)).text
  }

  function MatchesOf(rules: seq<Rule>, text: string, k: nat): seq<Match>
    requires k <= |rules|
  {
    if k == 0 then [] else MatchesOf(rules, text, k - 1) + Filter([rules[k - 1]], LeftBy(rules, text, k - 1)).matches
  }

  predicate BlocksAt(rules: seq<Rule>, text: string, k: nat) {
    k < |rules| && Filter([rules[k]], LeftBy(rules, text, k)).blocked
  }

  lemma {:induction false} PolicyFrom(rules: seq<Rule>, text: string, k: nat)
    requires k <= |rules| && forall i: nat :: i < k ==> !BlocksAt(rules, text, i)
    ensures Filter(rules, text) == Prepend(MatchesOf(rules, text, k), Filter(rules[k..], LeftBy(rules, text, k)))
    decreases k
  {
    if k == 0 {
      assert rules[0..] == rules;
      var all := Filter(rules, text);
      assert [] + all.matches == all.matches;
    } else {
      PolicyFrom(rules, text, k - 1);
      var before := LeftBy(rules, text, k - 1);
      FilterUnfolds(rules, k - 1, MatchesOf(rules, text, k - 1), before);
      OneRule(rules[k - 1], before);
      assert !BlocksAt(rules, text, k - 1);
    }
  }

  lemma {:induction false} PolicyBlocksAt(rules: seq<Rule>, text: string, k: nat)
    requires BlocksAt(rules, text, k) && forall i: nat :: i < k ==> !BlocksAt(rules, text, i)
    ensures
      var r := Filter(rules, text);
      r.blocked && r.matches == MatchesOf(rules, text, k + 1) && r.text == LeftBy(rules, text, k + 1)
  {
    PolicyFrom(rules, text, k);
    var before := LeftBy(rules, text, k);
    FilterUnfolds(rules, k, MatchesOf(rules, text, k), before);
    OneRule(rules[k], before);
  }

  lemma {:induction false} FirstBlock(rules: seq<Rule>, text: string, k: nat) returns (first: nat)
    requires BlocksAt(rules, text, k)
    ensures BlocksAt(rules, text, first) && forall i: nat :: i < first ==> !BlocksAt(rules, text, i)
    decreases k
  {
    if i: nat :| i < k && BlocksAt(rules, text, i) {
      first := FirstBlock(rules, text, i);
    } else {
      first := k;
    }
  }

  /** A policy blocks exactly when some rule blocks what the rules before it leave;
      otherwise every rule has its turn, on what the one before it left, and all
      that fired are recorded in order. */
  lemma {:induction false} PolicyMeans(rules: seq<Rule>, text: string)
    ensures
      var r := Filter(rules, text);
      && (r.blocked <==> exists k :: BlocksAt(rules, text, k))
      && (!r.blocked ==> r.text == LeftBy(rules, text, |rules|) && r.matches == MatchesOf(rules, text, |rules|))
  {
    if k :| BlocksAt(rules, text, k) {
      var first := FirstBlock(rules, text, k);
      PolicyBlocksAt(rules, text, first);
    } else {
      PolicyFrom(rules, text, |rules|);
      assert rules[|rules|..] == [];
      var left := LeftBy(rules, text, |rules|);
      assert Filter([], left) == FilterResult(left, [], false);
      assert MatchesOf(rules, text, |rules|) + [] == MatchesOf(rules, text, |rules|);
    }
  }
}
