/** Where the holdback matters: how small it may be, which policies no holdback
    makes safe, and how far blocked text stays from release. */
module StreamLimits {
  import opened Prelude
  import opened OutputFilter
  import opened FilterLag
  import opened Streaming

  // ----- Padding -----

  function Repeat(c: char, n: nat): (s: string)
    ensures |s| == n && forall i :: 0 <= i < n ==> s[i] == c
  {
    seq(n, _ => c)
  }

  /** A character different from these four. */
  function Unlike(a: char, b: char, c: char, d: char): (r: char)
    ensures r != a && r != b && r != c && r != d
  {
    if a != 'p' && b != 'p' && c != 'p' && d != 'p' then 'p'
    else if a != 'q' && b != 'q' && c != 'q' && d != 'q' then 'q'
    else if a != 'r' && b != 'r' && c != 'r' && d != 'r' then 'r'
    else if a != 's' && b != 's' && c != 's' && d != 's' then 's'
    else 't'
  }

  /** No occurrence of the token starts in the padding. */
  lemma {:induction false} NoneInPad(pad: string, text: string, token: string)
    requires token != [] && forall i :: 0 <= i < |pad| ==> pad[i] != token[0]
    ensures Find(pad + text, token).Some? ==> |pad| <= Find(pad + text, token).value
  {
    var all := pad + text;
    FindIsFirst(all, token);
    if Find(all, token).Some? {
      var p := Find(all, token).value;
      assert all[p] == all[p..p + |token|][0];
    }
  }

  /** Searching and redacting pass over such padding. */
  lemma {:induction false} PadIsInert(pad: string, text: string, token: string)
    requires token != [] && forall i :: 0 <= i < |pad| ==> pad[i] != token[0]
    ensures Find(pad + text, token).Some? <==> Find(text, token).Some?
    ensures Find(text, token).Some? ==> Find(pad + text, token).value == |pad| + Find(text, token).value
    ensures Replace(pad + text, token, MARK) == pad + Replace(text, token, MARK)
  {
    NoneInPad(pad, text, token);
    SkipFront(pad, text, token);
  }

  lemma {:induction false} SkipFront(front: string, text: string, token: string)
    requires token != []
    requires Find(front + text, token).Some? ==> |front| <= Find(front + text, token).value
    ensures Find(front + text, token).Some? <==> Find(text, token).Some?
    ensures Find(text, token).Some? ==> Find(front + text, token).value == |front| + Find(text, token).value
    ensures Replace(front + text, token, MARK) == front + Replace(text, token, MARK)
  {
    assert (front + text)[..|front|] == front && (front + text)[|front|..] == text;
    FindDropped(front + text, token, |front|);
    ReplaceDropped(front + text, token, MARK, |front|);
  }

  lemma {:induction false} TooShort(text: string, token: string)
    requires |text| < |token|
    ensures Find(text, token).None? && Replace(text, token, MARK) == text
  {
  }

  lemma {:induction false} FindAtStart(token: string, rest: string)
    ensures Find(token + rest, token) == Some(0)
  {
    assert (token + rest)[0..|token|] == token;
    assert OccursAt(token + rest, token, 0);
  }

  lemma {:induction false} RedactedToken(token: string)
    requires token != []
    ensures Replace(token, token, MARK) == MARK
  {
    FindAtStart(token, []);
    assert token + [] == token && token[|token|..] == [] && token[..0] == [];
    assert Replace([], token, MARK) == [];
    assert [] + MARK + [] == MARK;
  }

  // ----- One redacted token: the exact holdback -----

  function Redacting(token: string): seq<Rule> {
    [Rule("redact", TokenBlocklist([token]), Redact)]
  }

  lemma {:induction false} RedactingText(token: string, text: string)
    requires token != []
    ensures Filter(Redacting(token), text).text == Replace(text, token, MARK)
    ensures !Filter(Redacting(token), text).blocked
  {
    RedactOne("redact", token, text);
    assert Redacting(token)[1..] == [];
  }

  lemma {:induction false} RedactOne(id: string, token: string, text: string)
    requires token != []
    ensures Blocklist(id, Redact, [token], text).text == Replace(text, token, MARK)
    ensures !Blocklist(id, Redact, [token], text).blocked
  {
    assert [token][1..] == [];
    var done := Replace(text, token, MARK);
    assert Blocklist(id, Redact, [], done) == FilterResult(done, [], false);
  }

  /** The length of the longest common prefix. */
  function Common(a: string, b: string): (n: nat)
    ensures n <= |a| && n <= |b| && a[..n] == b[..n]
    ensures n < |a| && n < |b| ==> a[n] != b[n]
  {
    if a == [] || b == [] || a[0] != b[0] then 0
    else
      var n := Common(a[1..], b[1..]);
      assert a[..n + 1] == [a[0]] + a[1..][..n] && b[..n + 1] == [b[0]] + b[1..][..n];
      n + 1
  }

  /** Where the token shares a prefix with the mark, the mark repeats it. */
  lemma {:induction false} MarkRepeats(token: string, text: string, p: nat, k: nat)
    requires OccursAt(text, token, p) && p <= k <= Common(token, MARK)
    ensures k <= |text| && (text[..p] + MARK)[..k] == text[..k]
  {
    TakeWithin(token, Common(token, MARK), k - p);
    TakeWithin(MARK, Common(token, MARK), k - p);
    SliceTake(text, p, p + |token|, k);
    TakeAcross(text[..p], MARK, k);
    TakeAcross(text[..p], text[p..], k);
    assert text == text[..p] + text[p..] && text[p..][..k - p] == text[p..k];
  }

  lemma {:induction false} TakeWithin(s: string, n: nat, m: nat)
    requires m <= n <= |s|
    ensures s[..n][..m] == s[..m]
  {
  }

  lemma {:induction false} SliceTake(s: string, p: nat, q: nat, k: nat)
    requires p <= k <= q <= |s|
    ensures s[p..q][..k - p] == s[p..k]
  {
  }

  lemma {:induction false} TakeAcross(a: string, b: string, k: nat)
    requires |a| <= k <= |a + b|
    ensures (a + b)[..k] == a + b[..k - |a|]
  {
  }

  /** A released start of the open part survives a later redaction, because what
      the mark puts there is the same. */
  lemma {:induction false} OpenStartSurvives(token: string, open: string, more: string, k: nat)
    requires token != [] && k <= |open| && k <= Common(token, MARK)
    ensures open[..k] <= Replace(open + more, token, MARK)
  {
    var text := open + more;
    FindIsFirst(text, token);
    assert text[..k] == open[..k];
    match Find(text, token)
    case None =>
    case Some(p) =>
      if p <= k {
        MarkRepeats(token, text, p, k);
      }
  }

  lemma {:induction false} RedactionSafeAt(token: string, holdback: nat, x: string, more: string)
    requires token != [] && |token| - 1 <= holdback + Common(token, MARK)
    ensures Held(Replace(x, token, MARK), holdback) <= Replace(x + more, token, MARK)
  {
    var settled, open := Settled(x, token, MARK), Open(x, token);
    RedactionSettles(x, more, token, MARK);
    RedactedNow(x, token);
    if |open| > holdback {
      OpenStartSurvives(token, open, more, |open| - holdback);
    }
    HeldBack(settled, open, Replace(open + more, token, MARK), holdback);
  }

  lemma {:induction false} RedactedNow(x: string, token: string)
    requires token != []
    ensures Replace(x, token, MARK) == Settled(x, token, MARK) + Open(x, token)
  {
    RedactionSettles(x, [], token, MARK);
    assert x + [] == x && Open(x, token) + [] == Open(x, token);
    TooShort(Open(x, token), token);
  }

  lemma {:induction false} HeldBack(settled: string, open: string, later: string, holdback: nat)
    requires |open| > holdback ==> open[..|open| - holdback] <= later
    ensures Held(settled + open, holdback) <= settled + later
  {
    if |open| > holdback {
      assert Held(settled + open, holdback) == settled + open[..|open| - holdback];
    }
  }

  /** One character less than that and the first characters of the token leak. */
  lemma {:induction false} ShortHoldbackLeaks(token: string, holdback: nat) returns (x: string, more: string)
    requires |token| - 1 > holdback + Common(token, MARK)
    ensures !SafeAt(Redacting(token), holdback, x, more)
  {
    var n, c := |token| - 1, Common(token, MARK);
    var pad := Repeat(Unlike(token[0], token[0], token[0], token[0]), holdback + MIN_STRIDE);
    x, more := pad + token[..n], token[n..];
    assert x + more == pad + token;
    RedactingText(token, x);
    RedactingText(token, x + more);
    TooShort(token[..n], token);
    RedactedToken(token);
    PadIsInert(pad, token[..n], token);
    PadIsInert(pad, token, token);
    HeldReaches(pad, token, n, c, holdback);
  }

  lemma {:induction false} HeldReaches(pad: string, token: string, n: nat, c: nat, holdback: nat)
    requires c == Common(token, MARK) && holdback + c < n < |token|
    ensures !(Held(pad + token[..n], holdback) <= pad + MARK)
  {
    var held := Held(pad + token[..n], holdback);
    assert |held| > |pad| + c && held[|pad| + c] == token[c];
    assert c < |MARK| ==> (pad + MARK)[|pad| + c] == MARK[c];
  }

  /** A one-token redaction streams faithfully exactly when the holdback and the
      prefix the token shares with the mark cover all but one of its characters. */
  lemma {:induction false} RedactionNeedsItsLag(token: string, holdback: nat)
    requires token != []
    ensures Refines(Redacting(token), holdback) <==> |token| - 1 <= holdback + Common(token, MARK)
  {
    var rules := Redacting(token);
    RefinesIffSafe(rules, holdback);
    if |token| - 1 <= holdback + Common(token, MARK) {
      forall x: string, more: string ensures SafeAt(rules, holdback, x, more) {
        RedactingText(token, x);
        RedactingText(token, x + more);
        RedactionSafeAt(token, holdback, x, more);
      }
    } else {
      var x, more := ShortHoldbackLeaks(token, holdback);
    }
  }

  // ----- One cutting token: the exact holdback -----

  function Cutting(token: string): seq<Rule> {
    [Rule("cut", TokenBlocklist([token]), Truncate)]
  }

  lemma {:induction false} CuttingText(token: string, text: string)
    requires token != []
    ensures Filter(Cutting(token), text).text == Cut(text, token)
    ensures !Filter(Cutting(token), text).blocked
  {
    assert [token][1..] == [] && Cutting(token)[1..] == [];
    assert Blocklist("cut", Truncate, [], text) == FilterResult(text, [], false);
    var kept := Cut(text, token);
    assert Filter([], kept) == FilterResult(kept, [], false);
  }

  lemma {:induction false} ShortHoldbackUncuts(token: string, holdback: nat) returns (x: string, more: string)
    requires |token| - 1 > holdback
    ensures !SafeAt(Cutting(token), holdback, x, more)
  {
    var n := |token| - 1;
    var pad := Repeat(Unlike(token[0], token[0], token[0], token[0]), holdback + MIN_STRIDE);
    x, more := pad + token[..n], token[n..];
    assert x + more == pad + token;
    CuttingText(token, x);
    CuttingText(token, x + more);
    TooShort(token[..n], token);
    PadIsInert(pad, token[..n], token);
    FindAtStart(token, []);
    assert token + [] == token;
    PadIsInert(pad, token, token);
    assert (pad + token)[..|pad|] == pad;
  }

  /** A one-token truncation streams faithfully exactly when the holdback covers
      all but one character of the token. */
  lemma {:induction false} CutNeedsItsLag(token: string, holdback: nat)
    requires token != []
    ensures Refines(Cutting(token), holdback) <==> |token| - 1 <= holdback
  {
    var rules := Cutting(token);
    if |token| - 1 <= holdback {
      assert rules[1..] == [] && NonEmpty([token]) == [token] + NonEmpty([token][1..]);
      assert Lag([], |token| - 1) == Some(|token| - 1);
      StreamRefinesFilter(rules, holdback);
    } else {
      var x, more := ShortHoldbackUncuts(token, holdback);
      RefinesIffSafe(rules, holdback);
    }
  }

  // ----- A blocking token after a redaction -----

  function RedactThenRefuse(redacted: string, refused: string): seq<Rule> {
    [Rule("redact", TokenBlocklist([redacted]), Redact), Rule("refuse", TokenBlocklist([refused]), ReturnError)]
  }

  lemma {:induction false} TwoRules(first: Rule, second: Rule, text: string)
    ensures
      var one := ApplyRule(first, text);
      var two := ApplyRule(second, one.text);
      var all := Filter([first, second], text);
      && (one.blocked ==> all.blocked)
      && (!one.blocked ==> all.text == two.text && all.blocked == two.blocked)
  {
    assert [first, second][1..] == [second] && [second][1..] == [];
    var two := ApplyRule(second, ApplyRule(first, text).text);
    assert Filter([], two.text) == FilterResult(two.text, [], false);
  }

  lemma {:induction false} RedactThenRefuseText(redacted: string, refused: string, text: string)
    requires redacted != [] && refused != []
    ensures
      var r, done := Filter(RedactThenRefuse(redacted, refused), text), Replace(text, redacted, MARK);
      r.text == done && (r.blocked <==> Find(done, refused).Some?)
  {
    var rules := RedactThenRefuse(redacted, refused);
    TwoRules(rules[0], rules[1], text);
    RedactOne("redact", redacted, text);
    assert [refused][1..] == [];
    var done := Replace(text, redacted, MARK);
    assert Blocklist("refuse", ReturnError, [], done) == FilterResult(done, [], false);
  }

  /** `more` turns a refused text into an accepted one. */
  ghost predicate Unblocks(rules: seq<Rule>, x: string, more: string) {
    Filter(rules, x).blocked && !Filter(rules, x + more).blocked
  }

  ghost predicate NeverUnblocks(rules: seq<Rule>) {
    forall x: string, more: string :: !Unblocks(rules, x, more)
  }

  /** One refused text with an accepted continuation, however short, defeats
      every holdback. */
  lemma {:induction false} UnblockingIsNeverSafe(redacted: string, refused: string, x: string, more: string, holdback: nat)
    requires redacted != [] && refused != [] && Unblocks(RedactThenRefuse(redacted, refused), x, more)
    ensures !Refines(RedactThenRefuse(redacted, refused), holdback)
  {
    var rules := RedactThenRefuse(redacted, refused);
    var pad := Repeat(Unlike(redacted[0], redacted[0], refused[0], refused[0]), holdback + MIN_STRIDE);
    forall text: string ensures Filter(rules, pad + text).blocked == Filter(rules, text).blocked {
      RedactThenRefuseText(redacted, refused, text);
      RedactThenRefuseText(redacted, refused, pad + text);
      PadIsInert(pad, text, redacted);
      PadIsInert(pad, Replace(text, redacted, MARK), refused);
    }
    assert pad + x + more == pad + (x + more);
    assert !SafeAt(rules, holdback, pad + x, more);
    RefinesIffSafe(rules, holdback);
  }

  /** With a holdback that suits the redaction, such a policy streams faithfully
      exactly when no refused text has an accepted continuation; where one has,
      no holdback at all will do. */
  lemma {:induction false} BlockAfterRedactionIsSafeIff(redacted: string, refused: string, holdback: nat)
    requires redacted != [] && refused != []
    ensures
      var rules := RedactThenRefuse(redacted, refused);
      && (Refines(rules, holdback) ==> NeverUnblocks(rules))
      && (NeverUnblocks(rules) && |redacted| - 1 <= holdback + Common(redacted, MARK) ==> Refines(rules, holdback))
  {
    var rules := RedactThenRefuse(redacted, refused);
    if Refines(rules, holdback) {
      forall x: string, more: string ensures !Unblocks(rules, x, more) {
        if Unblocks(rules, x, more) {
          UnblockingIsNeverSafe(redacted, refused, x, more, holdback);
        }
      }
    }
    if NeverUnblocks(rules) && |redacted| - 1 <= holdback + Common(redacted, MARK) {
      RefinesIffSafe(rules, holdback);
      forall x: string, more: string ensures SafeAt(rules, holdback, x, more) {
        assert !Unblocks(rules, x, more);
        RedactThenRefuseText(redacted, refused, x);
        RedactThenRefuseText(redacted, refused, x + more);
        RedactionSafeAt(redacted, holdback, x, more);
      }
    }
  }

  /** A blocking token inside a proper prefix of the redacted one, and not in the
      mark: the stream refuses a text that the whole-response filter accepts. */
  lemma {:induction false} BlockAfterRedactionNeverSafe(redacted: string, refused: string, n: nat, holdback: nat)
    requires refused != [] && n < |redacted|
    requires Find(redacted[..n], refused).Some? && Find(MARK, refused).None?
    ensures !Refines(RedactThenRefuse(redacted, refused), holdback)
  {
    var x, more := redacted[..n], redacted[n..];
    assert x + more == redacted;
    TooShort(x, redacted);
    RedactedToken(redacted);
    RedactThenRefuseText(redacted, refused, x);
    RedactThenRefuseText(redacted, refused, redacted);
    UnblockingIsNeverSafe(redacted, refused, x, more, holdback);
  }

  /** A blocking token that runs into a redacted one: it ends in a proper prefix of
      it, and completing the redaction leaves no other occurrence. */
  lemma {:induction false} BlockAcrossRedactionNeverSafe(redacted: string, before: string, j: nat, holdback: nat)
    requires 0 < j < |redacted|
    requires Find(before + redacted[..j], redacted).None?
    requires Find(Replace(before + redacted, redacted, MARK), before + redacted[..j]).None?
    ensures !Refines(RedactThenRefuse(redacted, before + redacted[..j]), holdback)
  {
    var refused, more := before + redacted[..j], redacted[j..];
    assert refused + more == before + redacted;
    FindAtStart(refused, []);
    assert refused + [] == refused;
    NothingToRedact(redacted, refused);
    RedactThenRefuseText(redacted, refused, refused);
    RedactThenRefuseText(redacted, refused, before + redacted);
    UnblockingIsNeverSafe(redacted, refused, refused, more, holdback);
  }

  lemma {:induction false} NothingToRedact(token: string, text: string)
    requires token != [] && Find(text, token).None?
    ensures Replace(text, token, MARK) == text
  {
  }

  /** A blocking token that shares no character with the redacted one is never
      taken away, so the redaction's own holdback is enough. */
  lemma {:induction false} DisjointTokensNeverUnblock(redacted: string, refused: string)
    requires redacted != [] && refused != [] && forall i :: 0 <= i < |refused| ==> refused[i] !in redacted
    ensures NeverUnblocks(RedactThenRefuse(redacted, refused))
  {
    var rules := RedactThenRefuse(redacted, refused);
    forall x: string, more: string ensures !Unblocks(rules, x, more) {
      RedactThenRefuseText(redacted, refused, x);
      RedactThenRefuseText(redacted, refused, x + more);
      if Find(Replace(x, redacted, MARK), refused).Some? {
        RedactionKeepsOthers(redacted, refused, x, more);
      }
    }
  }

  lemma {:induction false} RedactionKeepsOthers(redacted: string, other: string, x: string, more: string)
    requires redacted != [] && other != [] && forall i :: 0 <= i < |other| ==> other[i] !in redacted
    requires Find(Replace(x, redacted, MARK), other).Some?
    ensures Find(Replace(x + more, redacted, MARK), other).Some?
  {
    var settled, open := Settled(x, redacted, MARK), Open(x, redacted);
    RedactionSettles(x, more, redacted, MARK);
    RedactionSettles(x, [], redacted, MARK);
    assert x + [] == x && open + [] == open;
    TooShort(open, redacted);
    FindIsFirst(settled + open, other);
    var q := Find(settled + open, other).value;
    StaysOutside(redacted, other, settled, open, more, q);
    FindIsFirst(settled + Replace(open + more, redacted, MARK), other);
  }

  /** An occurrence that shares no character with the token ends before it. */
  lemma {:induction false} EndsBefore(
      redacted: string, other: string, settled: string, open: string, more: string, q: nat, p: nat)
    requires other != [] && |open| < |redacted| && forall i :: 0 <= i < |other| ==> other[i] !in redacted
    requires OccursAt(settled + open, other, q) && OccursAt(open + more, redacted, p)
    ensures q + |other| <= |settled| + p
  {
    var end := q + |other|;
    if end > |settled| {
      var e := end - 1 - |settled|;
      assert (settled + open)[q..end][|other| - 1] == open[e];
      assert other[|other| - 1] == open[e] && open[e] !in redacted;
      InToken(redacted, open, more, p, e);
    }
  }

  lemma {:induction false} InToken(redacted: string, open: string, more: string, p: nat, e: nat)
    requires e < |open| < |redacted| && OccursAt(open + more, redacted, p)
    ensures p <= e ==> open[e] in redacted
  {
    if p <= e {
      assert (open + more)[p..p + |redacted|][e - p] == open[e];
    }
  }

  lemma {:induction false} StaysOutside(
      redacted: string, other: string, settled: string, open: string, more: string, q: nat)
    requires other != [] && |open| < |redacted| && forall i :: 0 <= i < |other| ==> other[i] !in redacted
    requires OccursAt(settled + open, other, q)
    ensures OccursAt(settled + Replace(open + more, redacted, MARK), other, q)
  {
    var text, end := open + more, q + |other|;
    FindIsFirst(text, redacted);
    match Find(text, redacted)
    case None =>
      assert (settled + text)[q..end] == (settled + open)[q..end];
    case Some(p) =>
      EndsBefore(redacted, other, settled, open, more, q, p);
      var later := text[..p] + MARK + Replace(text[p + |redacted|..], redacted, MARK);
      OccursEarly(settled, open, later, other, q, if p < |open| then p else |open|);
  }

  lemma {:induction false} OccursEarly(settled: string, a: string, b: string, token: string, q: nat, m: nat)
    requires m <= |a| && m <= |b| && a[..m] == b[..m]
    requires OccursAt(settled + a, token, q) && q + |token| <= |settled| + m
    ensures OccursAt(settled + b, token, q)
  {
    assert settled + a == (settled + a[..m]) + a[m..];
    assert settled + b == (settled + b[..m]) + b[m..];
    assert (settled + a)[q..q + |token|] == (settled + a[..m])[q..q + |token|];
    assert (settled + b)[q..q + |token|] == (settled + b[..m])[q..q + |token|];
  }

  // ----- A truncation after a redaction -----

  function RedactThenCut(redacted: string, first: string, second: string): seq<Rule> {
    [Rule("redact", TokenBlocklist([redacted]), Redact), Rule("cut", TokenBlocklist([first, second]), Truncate)]
  }

  lemma {:induction false} RedactThenCutText(redacted: string, first: string, second: string, text: string)
    requires redacted != [] && first != [] && second != []
    ensures
      var r, done := Filter(RedactThenCut(redacted, first, second), text), Replace(text, redacted, MARK);
      && !r.blocked
      && r.text == if Find(done, first).Some? then Cut(done, first) else Cut(done, second)
  {
    var rules := RedactThenCut(redacted, first, second);
    var done := Replace(text, redacted, MARK);
    TwoRules(rules[0], rules[1], text);
    RedactOne("redact", redacted, text);
    assert [first, second][1..] == [second] && NonEmpty([second]) == [second] + NonEmpty([second][1..]);
    CutManyIsPrefix("cut", [first, second], done);
    CutOne("cut", [second], done);
  }

  /** Padding long enough, and of a character the token neither starts nor ends
      with. */
  ghost predicate Separates(pad: string, token: string) {
    && token != [] && |pad| >= |token|
    && forall i :: 0 <= i < |pad| ==> pad[i] != token[0] && pad[i] != token[|token| - 1]
  }

  lemma {:induction false} Separator(a: string, b: string, n: nat) returns (pad: string)
    requires a != [] && b != []
    ensures Separates(pad, a) && Separates(pad, b) && |pad| >= n
  {
    pad := Repeat(Unlike(a[0], a[|a| - 1], b[0], b[|b| - 1]), n + |a| + |b|);
  }

  /** Behind such padding no occurrence starts in front of it. */
  lemma {:induction false} NoneInFront(front: string, pad: string, text: string, token: string)
    requires Separates(pad, token) && Find(front, token).None?
    ensures Find(front + pad + text, token).Some? ==> |front + pad| <= Find(front + pad + text, token).value
  {
    var all := front + pad + text;
    FindIsFirst(all, token);
    FindIsFirst(front, token);
    forall j | 0 <= j < |front + pad| && j + |token| <= |all| ensures !OccursAt(all, token, j) {
      var end := j + |token|;
      assert all[j..end][0] == all[j] && all[j..end][|token| - 1] == all[end - 1];
      if end <= |front| {
        assert all[j..end] == front[j..end];
        assert !OccursAt(front, token, j);
      }
    }
  }

  /** Behind `front`, `x` leaves at least `front` of the text and `more` none. */
  ghost predicate Clears(rules: seq<Rule>, front: string, x: string, more: string) {
    && |Filter(rules, front + x).text| >= |front|
    && !Filter(rules, front + (x + more)).blocked && Filter(rules, front + (x + more)).text == []
  }

  lemma {:induction false} LostRelease(rules: seq<Rule>, holdback: nat, front: string, x: string, more: string)
    requires Scannable(front, holdback) && Clears(rules, front, x, more)
    ensures !Refines(rules, holdback)
  {
    Associate(front, x, more);
    assert !SafeAt(rules, holdback, front + x, more);
    RefinesIffSafe(rules, holdback);
  }

  /** Two cutting tokens after a redaction. Once the redaction completes, it takes
      away the token listed first, and the second, far before it, cuts instead:
      below text already released. Every holdback fails. */
  lemma {:induction false} CutAfterRedactionNeverSafe(
      redacted: string, first: string, second: string, x: string, more: string, holdback: nat)
    requires redacted != [] && first != [] && second != []
    requires Find(second, redacted).None? && Find(second, first).None?
    requires Find(Replace(x, redacted, MARK), first).Some? && Find(Replace(x + more, redacted, MARK), first).None?
    ensures !Refines(RedactThenCut(redacted, first, second), holdback)
  {
    var pad := Separator(redacted, first, holdback + MIN_STRIDE);
    ReleasedThenCut(redacted, first, second, pad, x, more);
    LostRelease(RedactThenCut(redacted, first, second), holdback, second + pad, x, more);
  }

  lemma {:induction false} ReleasedThenCut(
      redacted: string, first: string, second: string, pad: string, x: string, more: string)
    requires second != [] && Separates(pad, redacted) && Separates(pad, first)
    requires Find(second, redacted).None? && Find(second, first).None?
    requires Find(Replace(x, redacted, MARK), first).Some? && Find(Replace(x + more, redacted, MARK), first).None?
    ensures Clears(RedactThenCut(redacted, first, second), second + pad, x, more)
  {
    PassesFront(second, pad, x, redacted, first);
    PassesFront(second, pad, x + more, redacted, first);
    CutMovesBack(redacted, first, second, pad, x, more);
  }

  lemma {:induction false} CutKeepsFront(redacted: string, first: string, second: string, text: string, n: nat)
    requires redacted != [] && first != [] && second != []
    requires
      var done := Replace(text, redacted, MARK);
      Find(done, first).Some? && Find(done, first).value >= n
    ensures |Filter(RedactThenCut(redacted, first, second), text).text| >= n
  {
    RedactThenCutText(redacted, first, second, text);
  }

  lemma {:induction false} CutClears(redacted: string, first: string, second: string, text: string, rest: string)
    requires redacted != [] && first != [] && second != []
    requires Replace(text, redacted, MARK) == second + rest && Find(second + rest, first).None?
    ensures
      var r := Filter(RedactThenCut(redacted, first, second), text);
      !r.blocked && r.text == []
  {
    RedactThenCutText(redacted, first, second, text);
    FindAtStart(second, rest);
  }

  lemma {:induction false} CutMovesBack(
      redacted: string, first: string, second: string, pad: string, x: string, more: string)
    requires redacted != [] && first != [] && second != []
    requires
      var done := Replace(second + pad + x, redacted, MARK);
      Find(done, first).Some? && Find(done, first).value >= |second + pad|
    requires Replace(second + pad + (x + more), redacted, MARK) == second + pad + Replace(x + more, redacted, MARK)
    requires Find(second + pad + Replace(x + more, redacted, MARK), first).None?
    ensures Clears(RedactThenCut(redacted, first, second), second + pad, x, more)
  {
    CutKeepsFront(redacted, first, second, second + pad + x, |second + pad|);
    var done := Replace(x + more, redacted, MARK);
    Associate(second, pad, done);
    CutClears(redacted, first, second, second + pad + (x + more), pad + done);
  }

  lemma {:induction false} PassesFront(front: string, pad: string, text: string, redacted: string, other: string)
    requires Separates(pad, redacted) && Separates(pad, other)
    requires Find(front, redacted).None? && Find(front, other).None?
    ensures
      var done := Replace(text, redacted, MARK);
      && Replace(front + pad + text, redacted, MARK) == front + pad + done
      && (Find(front + pad + done, other).Some? <==> Find(done, other).Some?)
      && (Find(done, other).Some? ==> Find(front + pad + done, other).value >= |front + pad|)
  {
    var done := Replace(text, redacted, MARK);
    NoneInFront(front, pad, text, redacted);
    SkipFront(front + pad, text, redacted);
    NoneInFront(front, pad, done, other);
    SkipFront(front + pad, done, other);
  }

  /** So a first token inside a proper prefix of the redacted one, and not in the
      mark, is never safe before a second token that holds neither. */
  lemma {:induction false} CutInsideRedactedNeverSafe(redacted: string, first: string, second: string, n: nat, holdback: nat)
    requires first != [] && second != [] && n < |redacted|
    requires Find(second, redacted).None? && Find(second, first).None?
    requires Find(redacted[..n], first).Some? && Find(MARK, first).None?
    ensures !Refines(RedactThenCut(redacted, first, second), holdback)
  {
    var x, more := redacted[..n], redacted[n..];
    assert x + more == redacted;
    TooShort(x, redacted);
    RedactedToken(redacted);
    CutAfterRedactionNeverSafe(redacted, first, second, x, more, holdback);
  }

  // ----- Cutting on a topic -----

  function CutTopic(keywords: seq<string>, minMatches: nat): seq<Rule> {
    [Rule("topic", TopicFilter(keywords, minMatches), Truncate)]
  }

  predicate Fires(keywords: seq<string>, minMatches: nat, text: string) {
    TopicHits(keywords, Lower(text)) >= minMatches > 0
  }

  lemma {:induction false} CutTopicText(keywords: seq<string>, minMatches: nat, text: string)
    ensures
      var r := Filter(CutTopic(keywords, minMatches), text);
      !r.blocked && r.text == if Fires(keywords, minMatches, text) then [] else text
  {
    assert CutTopic(keywords, minMatches)[1..] == [];
    assert Filter([], text) == FilterResult(text, [], false) && Filter([], []) == FilterResult([], [], false);
  }

  lemma {:induction false} HitsAtMost(keywords: seq<string>, lowered: string)
    ensures TopicHits(keywords, lowered) <= |NonEmpty(keywords)|
    decreases |keywords|
  {
    if keywords != [] {
      HitsAtMost(keywords[1..], lowered);
    }
  }

  /** A text that ends in all the keywords hits every one of them. */
  lemma {:induction false} AllHit(keywords: seq<string>, before: string)
    ensures TopicHits(keywords, before + Lower(Flat(keywords))) == |NonEmpty(keywords)|
    decreases |keywords|
  {
    if keywords != [] {
      var word, rest := Lower(keywords[0]), Lower(Flat(keywords[1..]));
      var text := before + Lower(Flat(keywords));
      assert Lower(Flat(keywords)) == word + rest;
      assert text == (before + word) + rest;
      AllHit(keywords[1..], before + word);
      FindIsFirst(text, word);
      assert text[|before|..|before| + |word|] == word;
      assert OccursAt(text, word, |before|);
    }
  }

  lemma {:induction false} CutTopicSafeAt(keywords: seq<string>, minMatches: nat, holdback: nat, x: string, more: string)
    ensures
      SafeAt(CutTopic(keywords, minMatches), holdback, x, more) <==>
        (Scannable(x, holdback) ==> Fires(keywords, minMatches, x) || !Fires(keywords, minMatches, x + more))
  {
    CutTopicText(keywords, minMatches, x);
    CutTopicText(keywords, minMatches, x + more);
  }

  lemma {:induction false} CanFire(keywords: seq<string>, minMatches: nat, x: string)
    ensures Fires(keywords, minMatches, x) ==> 0 < minMatches <= |NonEmpty(keywords)|
    ensures 0 < minMatches <= |NonEmpty(keywords)| ==> Fires(keywords, minMatches, x + Flat(keywords))
  {
    HitsAtMost(keywords, Lower(x));
    AllHit(keywords, Lower(x));
    assert Lower(x + Flat(keywords)) == Lower(x) + Lower(Flat(keywords));
  }

  /** A topic rule that cuts clears the whole text when it fires. It streams
      faithfully exactly when it can never fire, or has always fired by the time
      anything is released. */
  lemma {:induction false} CutOnTopicIsSafeIff(keywords: seq<string>, minMatches: nat, holdback: nat)
    ensures
      Refines(CutTopic(keywords, minMatches), holdback) <==>
        || minMatches == 0 || |NonEmpty(keywords)| < minMatches
        || forall x :: Scannable(x, holdback) ==> Fires(keywords, minMatches, x)
  {
    var rules := CutTopic(keywords, minMatches);
    RefinesIffSafe(rules, holdback);
    if Safe(rules, holdback) && 0 < minMatches <= |NonEmpty(keywords)| {
      forall x | Scannable(x, holdback) ensures Fires(keywords, minMatches, x) {
        assert SafeAt(rules, holdback, x, Flat(keywords));
        CutTopicSafeAt(keywords, minMatches, holdback, x, Flat(keywords));
        CanFire(keywords, minMatches, x);
      }
    } else if !Safe(rules, holdback) {
      var x: string, more: string :| !SafeAt(rules, holdback, x, more);
      CutTopicSafeAt(keywords, minMatches, holdback, x, more);
      CanFire(keywords, minMatches, x + more);
    }
  }

  lemma {:induction false} NoHits(keywords: seq<string>, c: char, n: nat)
    requires forall k :: 0 <= k < |keywords| && keywords[k] != [] ==> LowerChar(keywords[k][0]) != c
    ensures TopicHits(keywords, Repeat(c, n)) == 0
    decreases |keywords|
  {
    if keywords != [] {
      NoHits(keywords[1..], c, n);
      if keywords[0] != [] {
        var word := Lower(keywords[0]);
        assert Repeat(c, n) + [] == Repeat(c, n);
        NoneInPad(Repeat(c, n), [], word);
      }
    }
  }

  /** So a rule that can fire is unsafe under every holdback, unless its keywords
      begin with every character there is. */
  lemma {:induction false} CutOnTopicNeverSafe(keywords: seq<string>, minMatches: nat, c: char, holdback: nat)
    requires 0 < minMatches <= |NonEmpty(keywords)| && LowerChar(c) == c
    requires forall k :: 0 <= k < |keywords| && keywords[k] != [] ==> LowerChar(keywords[k][0]) != c
    ensures !Refines(CutTopic(keywords, minMatches), holdback)
  {
    var x := Repeat(c, holdback + MIN_STRIDE);
    CutOnTopicIsSafeIff(keywords, minMatches, holdback);
    NoHits(keywords, c, |x|);
    assert Lower(x) == x;
    assert Scannable(x, holdback) && !Fires(keywords, minMatches, x);
  }

  // ----- Blocking -----

  /** A policy that refuses or logs and never rewrites. */
  ghost predicate NeverRewrites(rules: seq<Rule>) {
    forall k :: 0 <= k < |rules| ==> rules[k].action.ReturnError? || rules[k].action.LogAndContinue?
  }

  lemma {:induction false} UnrewrittenText(rules: seq<Rule>, text: string)
    requires NeverRewrites(rules)
    ensures Filter(rules, text).text == text
    decreases |rules|
  {
    if rules != [] {
      if rules[0].kind.TokenBlocklist? {
        LogKeepsText(rules[0].id, rules[0].kind.tokens, text);
        BlockingGrows(rules[0].id, rules[0].kind.tokens, text, text);
      }
      UnrewrittenText(rules[1..], text);
    }
  }

  lemma {:induction false} TokenBlocks(id: string, tokens: seq<string>, j: nat, text: string)
    requires j < |tokens| && tokens[j] != [] && Find(text, tokens[j]).Some?
    ensures Blocklist(id, ReturnError, tokens, text).blocked
    decreases |tokens|
  {
    if j > 0 {
      TokenBlocks(id, tokens[1..], j - 1, text);
    }
  }

  /** A blocking token anywhere in the text blocks it. */
  lemma {:induction false} BlockingTokenBlocks(rules: seq<Rule>, k: nat, j: nat, text: string)
    requires NeverRewrites(rules) && k < |rules| && rules[k].action.ReturnError?
    requires rules[k].kind.TokenBlocklist? && j < |rules[k].kind.tokens|
    requires rules[k].kind.tokens[j] != [] && Find(text, rules[k].kind.tokens[j]).Some?
    ensures Filter(rules, text).blocked
    decreases k
  {
    if k == 0 {
      TokenBlocks(rules[0].id, rules[0].kind.tokens, j, text);
    } else {
      UnrewrittenText([rules[0]], text);
      assert [rules[0]][1..] == [];
      BlockingTokenBlocks(rules[1..], k - 1, j, text);
    }
  }

  /** What was released ends a holdback before some accepted scan. */
  ghost predicate Behind(rules: seq<Rule>, holdback: nat, s: State, scanned: nat) {
    && Counted(s) && scanned <= |s.raw| && s.released <= s.raw
    && (s.released != [] ==> |s.released| + holdback <= scanned && !Filter(rules, s.raw[..scanned]).blocked)
  }

  lemma {:induction false} PushStaysBehind(
      rules: seq<Rule>, holdback: nat, s: State, delta: string, scanned: nat) returns (next: nat)
    requires NeverRewrites(rules) && Behind(rules, holdback, s, scanned)
    ensures Behind(rules, holdback, AfterPush(rules, holdback, s, delta).0, next)
  {
    var b := Buffer(s, delta);
    next := scanned;
    assert b.raw[..scanned] == s.raw[..scanned];
    if ScanIsDue(b.rawChars, b.scannedChars, holdback) && !Filter(rules, b.raw).blocked {
      UnrewrittenText(rules, b.raw);
      assert b.raw[..|b.raw|] == b.raw;
      if |Held(b.raw, holdback)| > s.releasedChars {
        next := |b.raw|;
      }
    }
  }

  lemma {:induction false} FeedStaysBehind(
      rules: seq<Rule>, holdback: nat, s: State, chunks: seq<string>, scanned: nat) returns (end: nat)
    requires NeverRewrites(rules) && Behind(rules, holdback, s, scanned)
    ensures Behind(rules, holdback, Feed(rules, holdback, s, chunks).state, end)
    ensures Feed(rules, holdback, s, chunks).state.raw <= s.raw + Flat(chunks)
    decreases |chunks|
  {
    if chunks == [] {
      end := scanned;
    } else {
      end := PushStaysBehind(rules, holdback, s, chunks[0], scanned);
      var (next, pushed) := AfterPush(rules, holdback, s, chunks[0]);
      assert s.raw + Flat(chunks) == next.raw + Flat(chunks[1..]);
      if pushed.Chunk? {
        end := FeedStaysBehind(rules, holdback, next, chunks[1..], end);
      }
    }
  }

  /** Under a policy that never rewrites, whatever was released when the stream
      stopped or paused lies wholly before every occurrence of a blocking token
      no longer than the holdback plus one. */
  lemma {:induction false} BlockedTextIsNeverReleased(
      rules: seq<Rule>, holdback: nat, chunks: seq<string>, k: nat, j: nat, p: nat)
    requires NeverRewrites(rules) && k < |rules| && rules[k].action.ReturnError?
    requires rules[k].kind.TokenBlocklist? && j < |rules[k].kind.tokens|
    requires 0 < |rules[k].kind.tokens[j]| <= holdback + 1
    requires OccursAt(Flat(chunks), rules[k].kind.tokens[j], p)
    ensures
      var released := Feed(rules, holdback, START, chunks).state.released;
      released <= Flat(chunks) && |released| <= p
  {
    var end := FeedStaysBehind(rules, holdback, START, chunks, 0);
    var s := Feed(rules, holdback, START, chunks).state;
    assert [] + Flat(chunks) == Flat(chunks);
    var token := rules[k].kind.tokens[j];
    if s.released != [] {
      var seen := s.raw[..end];
      if p + |token| <= end {
        assert seen[p..p + |token|] == Flat(chunks)[p..p + |token|];
        FindIsFirst(seen, token);
        assert OccursAt(seen, token, p);
        BlockingTokenBlocks(rules, k, j, seen);
        assert false;
      }
    }
  }

  lemma {:induction false} NeverRewritesHasNoLag(rules: seq<Rule>)
    requires NeverRewrites(rules)
    ensures Lag(rules, 0) == Some(0)
    decreases |rules|
  {
    if rules != [] {
      NeverRewritesHasNoLag(rules[1..]);
    }
  }

  /** Such a stream completes exactly when the whole text would be accepted. */
  lemma {:induction false} CompletesExactlyWhenAccepted(rules: seq<Rule>, holdback: nat, chunks: seq<string>)
    requires NeverRewrites(rules)
    ensures Stream(rules, holdback, chunks).Completed? <==> !Filter(rules, Flat(chunks)).blocked
    ensures Stream(rules, holdback, chunks).Completed? ==> Stream(rules, holdback, chunks).sent == Flat(chunks)
  {
    NeverRewritesHasNoLag(rules);
    CoveredLagIsSafe(rules, holdback);
    StreamAgrees(rules, holdback, chunks);
    UnrewrittenText(rules, Flat(chunks));
  }
}
