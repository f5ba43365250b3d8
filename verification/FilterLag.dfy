/** How far the end of a filtered text can still change when more input arrives.

    The lag of a policy is computed rule by rule. A text filtered early agrees
    with the text filtered later everywhere except, at most, on its last `lag`
    characters. */
module FilterLag {
  import opened Prelude
  import opened OutputFilter

  /** `x` without its last `d` characters. */
  function Held(x: string, d: nat): string {
    if |x| <= d then [] else x[..|x| - d]
  }

  /** `x` and `y` agree up to the last `d` characters of `x`. */
  ghost predicate Near(x: string, y: string, d: nat) {
    Held(x, d) <= y
  }

  // ----- The lag of a policy -----

  /** The longest text redaction can make of `n` characters: a mark of this
      length, or the token itself where that is longer, for each token that
      fits. */
  function LongestRedacted(n: nat, length: nat, mark: nat): nat
    requires length > 0
  {
    if n < length then n
    else (if length < mark then mark else length) + LongestRedacted(n - length, length, mark)
  }

  /** The `d` unstable characters and the `length - 1` before them are open. */
  function RedactLag(d: nat, length: nat): nat
    requires length > 0
  {
    LongestRedacted(d + (length - 1), length, |MARK|)
  }

  function RedactAllLag(tokens: seq<string>, d: nat): nat {
    if tokens == [] then d
    else if tokens[0] == [] then RedactAllLag(tokens[1..], d)
    else RedactAllLag(tokens[1..], RedactLag(d, |tokens[0]|))
  }

  function NonEmpty(tokens: seq<string>): (r: seq<string>)
    ensures forall k :: 0 <= k < |r| ==> r[k] != []
  {
    if tokens == [] then []
    else (if tokens[0] == [] then [] else [tokens[0]]) + NonEmpty(tokens[1..])
  }

  function LongestToken(tokens: seq<string>): (m: nat)
    ensures forall k :: 0 <= k < |tokens| ==> |tokens[k]| <= m
  {
    if tokens == [] then 0
    else
      var rest := LongestToken(tokens[1..]);
      assert forall k :: 1 <= k < |tokens| ==> tokens[k] == tokens[1..][k - 1];
      if |tokens[0]| > rest then |tokens[0]| else rest
  }

  /** With several tokens, which of them cuts the text may change as it grows,
      so nothing unstable may reach the rule. */
  function TruncateLag(tokens: seq<string>, d: nat): Option<nat> {
    var tok := NonEmpty(tokens);
    if |tok| == 0 then Some(d)
    else if |tok| == 1 then Some(d + |tok[0]| - 1)
    else if d == 0 then
      var longest := LongestToken(tokens);
      Some(if longest == 0 then 0 else longest - 1)
    else None
  }

  /** The lag after one rule; `None` when this account gives no bound. */
  function LagAfter(rule: Rule, d: nat): Option<nat> {
    match (rule.kind, rule.action)
    case (TokenBlocklist(tokens), Redact) => Some(RedactAllLag(tokens, d))
    case (TokenBlocklist(tokens), Truncate) => TruncateLag(tokens, d)
    case (TopicFilter(_, minMatches), Truncate) => if minMatches == 0 then Some(d) else None
    case (_, ReturnError) => if d == 0 then Some(0) else None
    case (_, _) => Some(d)
  }

  function Lag(rules: seq<Rule>, d: nat): Option<nat> {
    if rules == [] then Some(d)
    else
      match LagAfter(rules[0], d)
      case None => None
      case Some(next) => Lag(rules[1..], next)
  }

  // ----- Literal search on a growing text -----

  lemma {:induction false} FindInPrefix(x: string, y: string, token: string)
    requires x <= y
    ensures Find(x, token).Some? ==> Find(y, token) == Find(x, token)
    ensures Find(x, token).None? && Find(y, token).Some? ==> Find(y, token).value + |token| > |x|
  {
    FindIsFirst(x, token);
    FindIsFirst(y, token);
    forall j | 0 <= j && j + |token| <= |x|
      ensures OccursAt(y, token, j) == OccursAt(x, token, j)
    {
      assert x[j..j + |token|] == y[j..j + |token|];
    }
  }

  lemma {:induction false} OccursDropped(x: string, token: string, k: nat, j: nat)
    requires k <= |x|
    ensures OccursAt(x[k..], token, j) == OccursAt(x, token, j + k)
  {
    if j + k + |token| <= |x| {
      assert x[k..][j..j + |token|] == x[j + k..j + k + |token|];
    }
  }

  lemma {:induction false} FirstIs(text: string, token: string, p: nat)
    requires OccursAt(text, token, p) && forall j :: 0 <= j < p ==> !OccursAt(text, token, j)
    ensures Find(text, token) == Some(p)
  {
    FindIsFirst(text, token);
  }

  lemma {:induction false} NoneIs(text: string, token: string)
    requires forall j :: 0 <= j ==> !OccursAt(text, token, j)
    ensures Find(text, token).None?
  {
    FindIsFirst(text, token);
  }

  /** No occurrence starts before `k`, so dropping `k` characters loses none. */
  lemma {:induction false} FindDropped(x: string, token: string, k: nat)
    requires k <= |x|
    requires Find(x, token).Some? ==> k <= Find(x, token).value
    ensures Find(x[k..], token) ==
              match Find(x, token) { case None => None case Some(p) => Some(p - k) }
  {
    FindIsFirst(x, token);
    match Find(x, token)
    case Some(p) =>
      OccursDropped(x, token, k, p - k);
      forall j | 0 <= j < p - k ensures !OccursAt(x[k..], token, j) {
        OccursDropped(x, token, k, j);
      }
      FirstIs(x[k..], token, p - k);
    case None =>
      forall j | 0 <= j ensures !OccursAt(x[k..], token, j) {
        OccursDropped(x, token, k, j);
      }
      NoneIs(x[k..], token);
  }

  // ----- Redaction -----

  lemma {:induction false} ReplaceFound(x: string, token: string, mark: string, p: nat)
    requires token != [] && Find(x, token) == Some(p)
    ensures Replace(x, token, mark) == x[..p] + mark + Replace(x[p + |token|..], token, mark)
  {
  }

  lemma {:induction false} ReplaceDroppedFound(x: string, token: string, mark: string, k: nat, p: nat)
    requires token != [] && k <= p && Find(x, token) == Some(p) && Find(x[k..], token) == Some(p - k)
    ensures Replace(x, token, mark) == x[..k] + Replace(x[k..], token, mark)
  {
    ReplaceFound(x, token, mark, p);
    ReplaceFound(x[k..], token, mark, p - k);
    SplitAround(x, k, p, p + |token|, mark, Replace(x[p + |token|..], token, mark));
  }

  lemma {:induction false} ReplaceDropped(x: string, token: string, mark: string, k: nat)
    requires token != [] && k <= |x|
    requires Find(x, token).Some? ==> k <= Find(x, token).value
    ensures Replace(x, token, mark) == x[..k] + Replace(x[k..], token, mark)
  {
    FindDropped(x, token, k);
    match Find(x, token)
    case Some(p) => ReplaceDroppedFound(x, token, mark, k, p);
    case None => assert x == x[..k] + x[k..];
  }

  lemma {:induction false} SplitAround(x: string, k: nat, p: nat, q: nat, mark: string, rest: string)
    requires k <= p <= q <= |x|
    ensures x[..p] + mark + rest == x[..k] + (x[k..][..p - k] + mark + rest)
    ensures x[k..][q - k..] == x[q..]
  {
    assert x[..p] == x[..k] + x[k..][..p - k];
  }

  /** The part of the redacted text that no later input can change. */
  function Settled(p: string, token: string, mark: string): string
    requires token != []
    decreases |p|
  {
    match Find(p, token)
    case Some(i) => p[..i] + mark + Settled(p[i + |token|..], token, mark)
    case None => Held(p, |token| - 1)
  }

  /** The part of the input whose redaction is still open. */
  function Open(p: string, token: string): (r: string)
    requires token != []
    ensures |r| < |token|
    decreases |p|
  {
    match Find(p, token)
    case Some(i) => Open(p[i + |token|..], token)
    case None => p[|Held(p, |token| - 1)|..]
  }

  /** Whatever follows, the redacted text is the settled part and then the
      redaction of the open part with what followed. */
  lemma {:induction false} RedactionSettles(p: string, u: string, token: string, mark: string)
    requires token != []
    ensures Replace(p + u, token, mark) == Settled(p, token, mark) + Replace(Open(p, token) + u, token, mark)
    decreases |p|
  {
    match Find(p, token)
    case Some(i) =>
      var rest := p[i + |token|..];
      RedactionSettles(rest, u, token, mark);
      calc {
        Replace(p + u, token, mark);
      == { FoundSettles(p, u, token, mark); }
        p[..i] + mark + Replace(rest + u, token, mark);
      == { Regroup(p[..i], mark, Settled(rest, token, mark), Replace(Open(rest, token) + u, token, mark)); }
        (p[..i] + mark + Settled(rest, token, mark)) + Replace(Open(rest, token) + u, token, mark);
      }
    case None =>
      OpenSettles(p, u, token, mark);
  }

  lemma {:induction false} FoundSettles(p: string, u: string, token: string, mark: string)
    requires token != [] && Find(p, token).Some?
    ensures
      var i := Find(p, token).value;
      Replace(p + u, token, mark) == p[..i] + mark + Replace(p[i + |token|..] + u, token, mark)
  {
    FindInPrefix(p, p + u, token);
    var i := Find(p, token).value;
    SplitAppend(p, u, i, i + |token|);
  }

  lemma {:induction false} OpenSettles(p: string, u: string, token: string, mark: string)
    requires token != [] && Find(p, token).None?
    ensures Replace(p + u, token, mark) == Settled(p, token, mark) + Replace(Open(p, token) + u, token, mark)
  {
    FindInPrefix(p, p + u, token);
    var k := |Held(p, |token| - 1)|;
    SplitAppend(p, u, k, k);
    ReplaceDropped(p + u, token, mark, k);
  }

  lemma {:induction false} SplitAppend(p: string, u: string, i: nat, j: nat)
    requires i <= j <= |p|
    ensures (p + u)[..i] == p[..i]
    ensures (p + u)[j..] == p[j..] + u
  {
  }

  lemma {:induction false} Regroup(a: string, b: string, c: string, d: string)
    ensures a + b + (c + d) == (a + b + c) + d
  {
  }

  lemma {:induction false} LongestRedactedGrows(a: nat, b: nat, length: nat, mark: nat)
    requires length > 0
    ensures a + LongestRedacted(b, length, mark) <= LongestRedacted(a + b, length, mark)
    decreases a, b
  {
    if a > 0 {
      LongestRedactedStep(a + b - 1, length, mark);
      LongestRedactedGrows(a - 1, b, length, mark);
    }
  }

  lemma {:induction false} LongestRedactedStep(n: nat, length: nat, mark: nat)
    requires length > 0
    ensures 1 + LongestRedacted(n, length, mark) <= LongestRedacted(n + 1, length, mark)
    decreases n
  {
    if n >= length {
      LongestRedactedStep(n - length, length, mark);
    }
  }

  /** The bound is sound: redaction never outgrows it. */
  lemma {:induction false} RedactedLength(x: string, token: string, mark: string)
    requires token != []
    ensures |Replace(x, token, mark)| <= LongestRedacted(|x|, |token|, |mark|)
    decreases |x|
  {
    match Find(x, token)
    case None => LongestRedactedGrows(|x|, 0, |token|, |mark|);
    case Some(p) =>
      RedactedLength(x[p + |token|..], token, mark);
      ReplaceFound(x, token, mark, p);
      LongestRedactedGrows(p, |x| - p, |token|, |mark|);
  }

  /** Each unstable character can become at most one mark. */
  lemma {:induction false} RedactLagIsLinear(d: nat, length: nat)
    requires length > 0
    ensures RedactLag(d, length) <= 10 * d + (length - 1)
    decreases d
  {
    assert |MARK| == 10;
    if d >= length {
      RedactLagIsLinear(d - length, length);
      assert d + (length - 1) - length == d - length + (length - 1);
    } else if d > 0 {
      assert LongestRedacted(d - 1, length, |MARK|) == d - 1;
    }
  }

  lemma {:induction false} RedactNear(x: string, y: string, d: nat, token: string)
    requires token != [] && Near(x, y, d)
    ensures Near(Replace(x, token, MARK), Replace(y, token, MARK), RedactLag(d, |token|))
  {
    var p, u, v := NearSplit(x, y, d);
    OpenWithin(p, u, d, token);
    RedactNearParts(p, u, v, RedactLag(d, |token|), token);
  }

  lemma {:induction false} RedactNearParts(p: string, u: string, v: string, lag: nat, token: string)
    requires token != [] && |Replace(Open(p, token) + u, token, MARK)| <= lag
    ensures Near(Replace(p + u, token, MARK), Replace(p + v, token, MARK), lag)
  {
    RedactionSettles(p, u, token, MARK);
    RedactionSettles(p, v, token, MARK);
    NearFrom(Settled(p, token, MARK), Replace(Open(p, token) + u, token, MARK),
             Replace(Open(p, token) + v, token, MARK), lag);
  }

  lemma {:induction false} OpenWithin(p: string, u: string, d: nat, token: string)
    requires token != [] && |u| <= d
    ensures |Replace(Open(p, token) + u, token, MARK)| <= RedactLag(d, |token|)
  {
    OpenLength(p, u, token, MARK);
    LongestRedactedGrows(d - |u|, |u| + |token| - 1, |token|, |MARK|);
  }

  lemma {:induction false} NearSplit(x: string, y: string, d: nat) returns (p: string, u: string, v: string)
    requires Near(x, y, d)
    ensures x == p + u && y == p + v && |u| <= d
  {
    p := Held(x, d);
    u, v := x[|p|..], y[|p|..];
  }

  lemma {:induction false} OpenLength(p: string, u: string, token: string, mark: string)
    requires token != []
    ensures |Replace(Open(p, token) + u, token, mark)| <= LongestRedacted(|u| + |token| - 1, |token|, |mark|)
  {
    var tail := Open(p, token) + u;
    RedactedLength(tail, token, mark);
    LongestRedactedGrows(|u| + |token| - 1 - |tail|, |tail|, |token|, |mark|);
  }

  lemma {:induction false} NearFrom(shared: string, u: string, v: string, d: nat)
    requires |u| <= d
    ensures Near(shared + u, shared + v, d)
  {
  }

  // ----- Truncation -----

  function Cut(text: string, token: string): string {
    match Find(text, token)
    case Some(i) => text[..i]
    case None => text
  }

  /** Truncation keeps exactly the text before the first occurrence. */
  lemma {:induction false} CutEndsAtToken(text: string, token: string)
    requires token != []
    ensures Cut(text, token) <= text && Find(Cut(text, token), token).None?
    ensures Cut(text, token) == text || OccursAt(text, token, |Cut(text, token)|)
  {
    FindIsFirst(text, token);
    if Find(text, token).Some? {
      BeforeFirstOccurrence(text, token);
    }
  }

  lemma {:induction false} CutNear(x: string, y: string, d: nat, token: string)
    requires token != [] && Near(x, y, d)
    ensures Near(Cut(x, token), Cut(y, token), d + |token| - 1)
  {
    var p := Held(x, d);
    FindInPrefix(p, x, token);
    FindInPrefix(p, y, token);
  }

  lemma {:induction false} CutManyIsPrefix(id: string, tokens: seq<string>, text: string)
    ensures Blocklist(id, Truncate, tokens, text).text <= text
    ensures !Blocklist(id, Truncate, tokens, text).blocked
    decreases |tokens|
  {
    if tokens != [] {
      CutManyIsPrefix(id, tokens[1..], text);
    }
  }

  lemma {:induction false} CutManyNear(id: string, tokens: seq<string>, x: string, y: string, m: nat)
    requires x <= y
    requires forall k :: 0 <= k < |tokens| ==> |tokens[k]| <= m + 1
    ensures Near(Blocklist(id, Truncate, tokens, x).text, Blocklist(id, Truncate, tokens, y).text, m)
    decreases |tokens|
  {
    if tokens != [] {
      FindInPrefix(x, y, tokens[0]);
      CutManyIsPrefix(id, tokens[1..], x);
      CutManyNear(id, tokens[1..], x, y, m);
    }
  }

  lemma {:induction false} CutOne(id: string, tokens: seq<string>, text: string)
    ensures |NonEmpty(tokens)| == 0 ==> Blocklist(id, Truncate, tokens, text).text == text
    ensures |NonEmpty(tokens)| == 1 ==>
              Blocklist(id, Truncate, tokens, text).text == Cut(text, NonEmpty(tokens)[0])
    decreases |tokens|
  {
    if tokens != [] {
      CutOne(id, tokens[1..], text);
    }
  }

  // ----- Rules that leave the text alone -----

  lemma {:induction false} LogKeepsText(id: string, tokens: seq<string>, text: string)
    ensures Blocklist(id, LogAndContinue, tokens, text).text == text
    ensures !Blocklist(id, LogAndContinue, tokens, text).blocked
    decreases |tokens|
  {
    if tokens != [] {
      LogKeepsText(id, tokens[1..], text);
    }
  }

  lemma {:induction false} BlockingGrows(id: string, tokens: seq<string>, x: string, y: string)
    requires x <= y
    ensures Blocklist(id, ReturnError, tokens, x).blocked ==> Blocklist(id, ReturnError, tokens, y).blocked
    ensures Blocklist(id, ReturnError, tokens, x).text == x
    decreases |tokens|
  {
    if tokens != [] {
      FindInPrefix(x, y, tokens[0]);
      BlockingGrows(id, tokens[1..], x, y);
    }
  }

  lemma {:induction false} TopicHitsGrow(keywords: seq<string>, x: string, y: string)
    requires x <= y
    ensures TopicHits(keywords, x) <= TopicHits(keywords, y)
    decreases |keywords|
  {
    if keywords != [] {
      FindInPrefix(x, y, Lower(keywords[0]));
      TopicHitsGrow(keywords[1..], x, y);
    }
  }

  lemma {:induction false} RedactAllNear(id: string, tokens: seq<string>, x: string, y: string, d: nat)
    requires Near(x, y, d)
    ensures Near(Blocklist(id, Redact, tokens, x).text, Blocklist(id, Redact, tokens, y).text,
                 RedactAllLag(tokens, d))
    ensures !Blocklist(id, Redact, tokens, x).blocked
    decreases |tokens|
  {
    if tokens != [] {
      if tokens[0] == [] {
        RedactAllNear(id, tokens[1..], x, y, d);
      } else {
        RedactNear(x, y, d, tokens[0]);
        RedactAllNear(id, tokens[1..], Replace(x, tokens[0], MARK), Replace(y, tokens[0], MARK), RedactLag(d, |tokens[0]|));
      }
    }
  }

  // ----- The whole pipeline -----

  lemma {:induction false} TruncateNear(id: string, tokens: seq<string>, x: string, y: string, d: nat)
    requires Near(x, y, d) && TruncateLag(tokens, d).Some?
    ensures Near(Blocklist(id, Truncate, tokens, x).text, Blocklist(id, Truncate, tokens, y).text,
                 TruncateLag(tokens, d).value)
  {
    var tok := NonEmpty(tokens);
    CutOne(id, tokens, x);
    CutOne(id, tokens, y);
    if |tok| == 1 {
      CutNear(x, y, d, tok[0]);
    } else if |tok| > 1 {
      CutManyNear(id, tokens, x, y, TruncateLag(tokens, d).value);
    }
  }

  /** One rule: a nearly settled text stays nearly settled, and a rule that
      blocks the early text blocks the later one. */
  lemma {:induction false} RuleNear(rule: Rule, x: string, y: string, d: nat)
    requires Near(x, y, d) && LagAfter(rule, d).Some?
    ensures ApplyRule(rule, x).blocked ==> ApplyRule(rule, y).blocked
    ensures !ApplyRule(rule, x).blocked && !ApplyRule(rule, y).blocked ==>
              Near(ApplyRule(rule, x).text, ApplyRule(rule, y).text, LagAfter(rule, d).value)
  {
    match rule.kind
    case MaxLength(n) =>
    case TopicFilter(keywords, minMatches) =>
      if d == 0 {
        assert Lower(x) <= Lower(y);
        TopicHitsGrow(keywords, Lower(x), Lower(y));
      }
    case TokenBlocklist(tokens) =>
      match rule.action
      case Redact => RedactAllNear(rule.id, tokens, x, y, d);
      case Truncate =>
        CutManyIsPrefix(rule.id, tokens, x);
        TruncateNear(rule.id, tokens, x, y, d);
      case LogAndContinue =>
        LogKeepsText(rule.id, tokens, x);
        LogKeepsText(rule.id, tokens, y);
      case ReturnError =>
        BlockingGrows(rule.id, tokens, x, y);
        BlockingGrows(rule.id, tokens, y, y);
  }

  /** The lag theorem: a text filtered early agrees with the text filtered
      later up to its last `Lag(rules, d)` characters, and an early block is
      a late block. */
  lemma {:induction false} FilterNear(rules: seq<Rule>, x: string, y: string, d: nat)
    requires Near(x, y, d) && Lag(rules, d).Some?
    ensures Filter(rules, x).blocked ==> Filter(rules, y).blocked
    ensures !Filter(rules, y).blocked ==>
              Near(Filter(rules, x).text, Filter(rules, y).text, Lag(rules, d).value)
    decreases |rules|
  {
    if rules != [] {
      var x', y' := ApplyRule(rules[0], x), ApplyRule(rules[0], y);
      RuleNear(rules[0], x, y, d);
      if !y'.blocked {
        FilterNear(rules[1..], x'.text, y'.text, LagAfter(rules[0], d).value);
      }
    }
  }
}
