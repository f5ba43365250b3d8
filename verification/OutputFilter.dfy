/** The whole-response output filter: literal token, topic and length rules
    applied in order to a text that each rule may rewrite, cut or refuse.

    A text is a sequence of characters. Positions are character positions. */
module OutputFilter {

  import opened Prelude

  datatype Action = ReturnError | Redact | Truncate | LogAndContinue

  datatype RuleType =
    | TokenBlocklist(tokens: seq<string>)
    | TopicFilter(keywords: seq<string>, minMatches: nat)
    | MaxLength(maxChars: nat)

  datatype Rule = Rule(id: string, kind: RuleType, action: Action)

  /** A rule that fired. */
  datatype Match = Match(id: string, action: Action)

  datatype FilterResult = FilterResult(text: string, matches: seq<Match>, blocked: bool)

  const MARK: string := "[REDACTED]"

  // ----- Literal search -----

  predicate OccursAt(text: string, token: string, i: int) {
    0 <= i && i + |token| <= |text| && text[i..i + |token|] == token
  }

  /** The first occurrence of `token` that starts at or after `start`. */
  function FindFrom(text: string, token: string, start: nat): (r: Option<nat>)
    ensures r.Some? ==> start <= r.value && r.value + |token| <= |text|
    decreases |text| - start
  {
    if start + |token| > |text| then None
    else if OccursAt(text, token, start) then Some(start)
    else FindFrom(text, token, start + 1)
  }

  function Find(text: string, token: string): (r: Option<nat>)
    ensures r.Some? ==> r.value + |token| <= |text|
  {
    FindFrom(text, token, 0)
  }

  /** `Find` yields the first occurrence, and yields one whenever there is one. */
  lemma FindIsFirst(text: string, token: string)
    ensures
      match Find(text, token)
      case Some(p) => OccursAt(text, token, p) && forall j :: 0 <= j < p ==> !OccursAt(text, token, j)
      case None => forall j :: 0 <= j ==> !OccursAt(text, token, j)
  {
    FindFromIsFirst(text, token, 0);
  }

  lemma {:induction false} FindFromIsFirst(text: string, token: string, start: nat)
    ensures
      match FindFrom(text, token, start)
      case Some(p) => OccursAt(text, token, p) && forall j :: start <= j < p ==> !OccursAt(text, token, j)
      case None => forall j :: start <= j ==> !OccursAt(text, token, j)
    decreases |text| - start
  {
    if start + |token| <= |text| && !OccursAt(text, token, start) {
      FindFromIsFirst(text, token, start + 1);
    }
  }

  /** Every occurrence replaced by `mark`, leftmost first, none overlapping. */
  function Replace(text: string, token: string, mark: string): string
    requires token != []
    decreases |text|
  {
    match Find(text, token)
    case None => text
    case Some(p) => text[..p] + mark + Replace(text[p + |token|..], token, mark)
  }

  /** At most `n` leading characters. */
  function TakeChars(text: string, n: nat): string {
    if n < |text| then text[..n] else text
  }

  // ----- Topic keywords -----

  function TopicHits(keywords: seq<string>, lowered: string): nat {
    if keywords == [] then 0
    else
      (if keywords[0] != [] && Find(lowered, Lower(keywords[0])).Some? then 1 else 0)
      + TopicHits(keywords[1..], lowered)
  }

  // ----- One rule -----

  /** The tokens of one blocklist rule, in order. `Truncate` and `ReturnError`
      stop at the first token found. */
  function Blocklist(id: string, action: Action, tokens: seq<string>, text: string): FilterResult
    decreases |tokens|
  {
    if tokens == [] then FilterResult(text, [], false)
    else if tokens[0] == [] || Find(text, tokens[0]).None? then
      Blocklist(id, action, tokens[1..], text)
    else
      var hit := Match(id, action);
      match action
      case ReturnError => FilterResult(text, [hit], true)
      case Truncate => FilterResult(text[..Find(text, tokens[0]).value], [hit], false)
      case Redact =>
        var rest := Blocklist(id, action, tokens[1..], Replace(text, tokens[0], MARK));
        FilterResult(rest.text, [hit] + rest.matches, rest.blocked)
      case LogAndContinue =>
        var rest := Blocklist(id, action, tokens[1..], text);
        FilterResult(rest.text, [hit] + rest.matches, rest.blocked)
  }

  function ApplyRule(rule: Rule, text: string): FilterResult {
    match rule.kind
    case MaxLength(n) =>
      if |text| > n then
        FilterResult(if rule.action.Truncate? then TakeChars(text, n) else text,
                     [Match(rule.id, rule.action)], rule.action.ReturnError?)
      else FilterResult(text, [], false)
    case TokenBlocklist(tokens) => Blocklist(rule.id, rule.action, tokens, text)
    case TopicFilter(keywords, minMatches) =>
      if TopicHits(keywords, Lower(text)) >= minMatches > 0 then
        FilterResult(if rule.action.Truncate? then [] else text,
                     [Match(rule.id, rule.action)], rule.action.ReturnError?)
      else FilterResult(text, [], false)
  }

  /** The policy applied to a complete text; stops at the first blocking rule. */
  function Filter(rules: seq<Rule>, text: string): FilterResult {
    if rules == [] then FilterResult(text, [], false)
    else
      var first := ApplyRule(rules[0], text);
      if first.blocked then first
      else
        var rest := Filter(rules[1..], first.text);
        FilterResult(rest.text, first.matches + rest.matches, rest.blocked)
  }

  // ----- The loops that compute it -----

  method ScanBlocklist(id: string, action: Action, tokens: seq<string>, input: string)
    returns (r: FilterResult)
    ensures r == Blocklist(id, action, tokens, input)
  {
    r := FilterResult(input, [], false);
    var i := 0;
    while i < |tokens|
      invariant 0 <= i <= |tokens| && !r.blocked
      invariant Prepend(r.matches, Blocklist(id, action, tokens[i..], r.text))
             == Blocklist(id, action, tokens, input)
    {
      var token := tokens[i];
      BlocklistUnfolds(id, action, tokens, i, r.matches, r.text);
      if token != [] {
        var position := Find(r.text, token);
        if position.Some? {
          r := r.(matches := r.matches + [Match(id, action)]);
          match action {
            case Redact => r := r.(text := Replace(r.text, token, MARK));
            case ReturnError => r := r.(blocked := true); break;
            case Truncate => r := r.(text := r.text[..position.value]); break;
            case LogAndContinue =>
          }
        }
      }
      i := i + 1;
    }
  }

  lemma {:induction false} BlocklistUnfolds(
      id: string, action: Action, tokens: seq<string>, i: nat, matches: seq<Match>, text: string)
    requires i < |tokens|
    ensures
      var hit := matches + [Match(id, action)];
      Prepend(matches, Blocklist(id, action, tokens[i..], text)) ==
        if tokens[i] == [] || Find(text, tokens[i]).None? then
          Prepend(matches, Blocklist(id, action, tokens[i + 1..], text))
        else match action
          case ReturnError => FilterResult(text, hit, true)
          case Truncate => FilterResult(text[..Find(text, tokens[i]).value], hit, false)
          case Redact => Prepend(hit, Blocklist(id, action, tokens[i + 1..], Replace(text, tokens[i], MARK)))
          case LogAndContinue => Prepend(hit, Blocklist(id, action, tokens[i + 1..], text))
  {
    assert tokens[i..][0] == tokens[i] && tokens[i..][1..] == tokens[i + 1..];
  }

  function Prepend(matches: seq<Match>, r: FilterResult): FilterResult {
    FilterResult(r.text, matches + r.matches, r.blocked)
  }

  /** One pass of the rule loop's body. */
  method ScanRule(rule: Rule, input: string) returns (r: FilterResult)
    ensures r == ApplyRule(rule, input)
  {
    var text, matches, blocked := input, [], false;
    match rule.kind {
      case MaxLength(n) =>
        if |text| > n {
          matches := [Match(rule.id, rule.action)];
          match rule.action {
            case Truncate => text := TakeChars(text, n);
            case ReturnError => blocked := true;
            case _ =>
          }
        }
      case TokenBlocklist(tokens) =>
        r := ScanBlocklist(rule.id, rule.action, tokens, text);
        return;
      case TopicFilter(keywords, minMatches) =>
        var hits := TopicHits(keywords, Lower(text));
        if hits >= minMatches && minMatches > 0 {
          matches := [Match(rule.id, rule.action)];
          match rule.action {
            case ReturnError => blocked := true;
            case Truncate => text := [];
            case _ =>
          }
        }
    }
    r := FilterResult(text, matches, blocked);
  }

  method RunFilter(rules: seq<Rule>, input: string) returns (r: FilterResult)
    ensures r == Filter(rules, input)
  {
    r := FilterResult(input, [], false);
    var i := 0;
    while i < |rules|
      invariant 0 <= i <= |rules| && !r.blocked
      invariant Prepend(r.matches, Filter(rules[i..], r.text)) == Filter(rules, input)
    {
      var step := ScanRule(rules[i], r.text);
      FilterUnfolds(rules, i, r.matches, r.text);
      r := Prepend(r.matches, step);
      if r.blocked { break; }
      i := i + 1;
    }
  }

  lemma {:induction false} FilterUnfolds(rules: seq<Rule>, i: nat, matches: seq<Match>, text: string)
    requires i < |rules|
    ensures
      var step := ApplyRule(rules[i], text);
      Prepend(matches, Filter(rules[i..], text)) ==
        if step.blocked then Prepend(matches, step)
        else Prepend(matches + step.matches, Filter(rules[i + 1..], step.text))
  {
    assert rules[i..][0] == rules[i] && rules[i..][1..] == rules[i + 1..];
    var step := ApplyRule(rules[i], text);
    var rest := Filter(rules[i + 1..], step.text);
    assert matches + (step.matches + rest.matches) == matches + step.matches + rest.matches;
  }

  // ----- What redaction does -----

  /** The text between the redacted occurrences. */
  function Pieces(text: string, token: string): seq<string>
    requires token != []
    decreases |text|
  {
    match Find(text, token)
    case None => [text]
    case Some(p) => [text[..p]] + Pieces(text[p + |token|..], token)
  }

  function Join(pieces: seq<string>, separator: string): string {
    if pieces == [] then []
    else if |pieces| == 1 then pieces[0]
    else pieces[0] + separator + Join(pieces[1..], separator)
  }

  /** Redaction rewrites the occurrences and nothing else: one list of pieces,
      none holding the token, joins by the token to the input and by the mark
      to the output. */
  lemma {:induction false} RedactionIsExact(text: string, token: string, mark: string)
    requires token != []
    ensures |Pieces(text, token)| > 0
    ensures Join(Pieces(text, token), token) == text
    ensures Join(Pieces(text, token), mark) == Replace(text, token, mark)
    ensures forall k :: 0 <= k < |Pieces(text, token)| ==> Find(Pieces(text, token)[k], token).None?
    decreases |text|
  {
    if Find(text, token).Some? {
      var p := Find(text, token).value;
      var rest := text[p + |token|..];
      RedactionIsExact(rest, token, mark);
      BeforeFirstOccurrence(text, token);
      var tail := Pieces(rest, token);
      JoinCons(text[..p], tail, token);
      JoinCons(text[..p], tail, mark);
      FindIsFirst(text, token);
      assert text == text[..p] + token + rest;
    }
  }

  lemma {:induction false} JoinCons(head: string, tail: seq<string>, separator: string)
    requires tail != []
    ensures Join([head] + tail, separator) == head + separator + Join(tail, separator)
  {
    assert ([head] + tail)[1..] == tail;
  }

  lemma {:induction false} BeforeFirstOccurrence(text: string, token: string)
    requires token != [] && Find(text, token).Some?
    ensures Find(text[..Find(text, token).value], token).None?
  {
    var head := text[..Find(text, token).value];
    FindIsFirst(text, token);
    FindIsFirst(head, token);
    if Find(head, token).Some? {
      var j := Find(head, token).value;
      assert text[j..j + |token|] == head[j..j + |token|];
      assert OccursAt(text, token, j);
    }
  }
}
