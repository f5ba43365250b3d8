/** What the record of a streamed response says of its end, and what the terminal
    event repeats. */
module StreamOutcome {
  import opened Prelude
  import opened OutputFilter
  import opened Streaming
  import opened StreamTask

  /** The items before delta number `n`, counted from zero; all if there are fewer. */
  function BeforeDelta(items: seq<Item>, n: nat): seq<Item>
    decreases |items|
  {
    if items == [] || (items[0].Delta? && n == 0) then []
    else [items[0]] + BeforeDelta(items[1..], if items[0].Delta? then n - 1 else n)
  }

  /** The items handled before the stream ended: all before the delta that was
      refused, or before the fault. */
  function Handled(rules: seq<Rule>, holdback: nat, items: seq<Item>): seq<Item> {
    BeforeDelta(Served(items), |Feed(rules, holdback, START, Texts(Served(items))).out|)
  }

  ghost predicate LastDone(items: seq<Item>, i: int) {
    0 <= i < |items| && items[i].Done? && forall j :: i < j < |items| ==> !items[j].Done?
  }

  ghost predicate NoneDone(items: seq<Item>) {
    forall i :: 0 <= i < |items| ==> !items[i].Done?
  }

  /** These are what the last report says, or what was known without one. */
  ghost predicate Reported(items: seq<Item>, reason: string, usage: nat, reason0: string, usage0: nat) {
    && (NoneDone(items) ==> reason == reason0 && usage == usage0)
    && (forall i :: LastDone(items, i) ==> items[i] == Done(reason, usage))
  }

  lemma {:induction false} NothingReported(reason: string, usage: nat)
    ensures Reported([], reason, usage, reason, usage)
  {
  }

  lemma {:induction false} LastDoneShifts(first: Item, rest: seq<Item>, i: int)
    ensures i > 0 ==> (LastDone([first] + rest, i) <==> LastDone(rest, i - 1))
    ensures LastDone([first] + rest, 0) <==> first.Done? && NoneDone(rest)
    ensures NoneDone([first] + rest) <==> !first.Done? && NoneDone(rest)
  {
    var all := [first] + rest;
    assert forall j :: 0 <= j < |rest| ==> rest[j] == all[j + 1];
    assert forall j :: 1 <= j < |all| ==> all[j] == rest[j - 1];
  }

  lemma {:induction false} ReportedOn(first: Item, rest: seq<Item>, reason: string, usage: nat, reason0: string, usage0: nat)
    requires
      if first.Done? then Reported(rest, reason, usage, first.reason, first.usage)
      else Reported(rest, reason, usage, reason0, usage0)
    ensures Reported([first] + rest, reason, usage, reason0, usage0)
  {
    var all := [first] + rest;
    LastDoneShifts(first, rest, 0);
    forall i | LastDone(all, i) ensures all[i] == Done(reason, usage) {
      LastDoneShifts(first, rest, i);
      if i > 0 {
        assert LastDone(rest, i - 1);
      }
    }
  }

  ghost predicate Tells(p: Progress, handled: seq<Item>, reason: string, usage: nat) {
    Reported(handled, p.reason, p.usage, reason, usage)
  }

  lemma {:induction false} PumpedTells(rules: seq<Rule>, holdback: nat, s: State, items: seq<Item>, reason: string, usage: nat)
    ensures
      Tells(Pumped(rules, holdback, s, items, reason, usage),
            BeforeDelta(Served(items), |Feed(rules, holdback, s, Texts(Served(items))).out|), reason, usage)
    decreases |items|
  {
    NothingReported(reason, usage);
    if items != [] && !items[0].Fault? {
      var rest := Served(items[1..]);
      assert Served(items)[1..] == rest;
      match items[0]
      case Done(r, u) =>
        PumpedTells(rules, holdback, s, items[1..], r, u);
        var p := Pumped(rules, holdback, s, items[1..], r, u);
        assert Texts(Served(items)) == Texts(rest);
        ReportedOn(items[0], BeforeDelta(rest, |Feed(rules, holdback, s, Texts(rest)).out|), p.reason, p.usage, reason, usage);
      case Delta(delta) =>
        assert Texts(Served(items))[1..] == Texts(rest);
        var (next, pushed) := AfterPush(rules, holdback, s, delta);
        if pushed.Chunk? {
          PumpedTells(rules, holdback, next, items[1..], reason, usage);
          var p := Pumped(rules, holdback, next, items[1..], reason, usage);
          ReportedOn(items[0], BeforeDelta(rest, |Feed(rules, holdback, next, Texts(rest)).out|), p.reason, p.usage, reason, usage);
        }
    }
  }

  /** The policy refused the stream: a push, or the finish of a generation that did
      not fail. */
  predicate PolicyStops(rules: seq<Rule>, holdback: nat, items: seq<Item>) {
    var fed := Feed(rules, holdback, START, Texts(Served(items)));
    fed.violation.Some? || (!Faults(items) && AfterFinish(rules, fed.state).1.Refused?)
  }

  /** For any policy, holdback and generation: the record of a stream the policy
      stopped says so, that of one a fault stopped says that, and any other carries
      the reason last reported, or `stop`. The tokens used are always those last
      reported before the end. */
  lemma {:induction false} RecordSaysWhyItEnded(rules: seq<Rule>, holdback: nat, items: seq<Item>)
    returns (reason: string, usage: nat)
    ensures Reported(Handled(rules, holdback, items), reason, usage, "stop", 0)
    ensures
      var record := Recorded(Delivered(rules, holdback, items));
      && record.usage == usage
      && record.reason == (if PolicyStops(rules, holdback, items) then "content_filter"
                           else if Faults(items) then "error" else reason)
      && (record.output.None? <==> PolicyStops(rules, holdback, items) || Faults(items))
    ensures
      Terminal(Delivered(rules, holdback, items))
      == if PolicyStops(rules, holdback, items) || Faults(items) then ErrorEvent(PolicyStops(rules, holdback, items))
         else DoneEvent(Delivered(rules, holdback, items).state.released, reason, usage)
  {
    var p := Pumped(rules, holdback, START, items, "stop", 0);
    PumpedTells(rules, holdback, START, items, "stop", 0);
    PumpingFeeds(rules, holdback, START, items, "stop", 0);
    reason, usage := p.reason, p.usage;
  }

  lemma {:induction false} AllDeltasHandled(items: seq<Item>, n: nat)
    requires n == |Texts(items)|
    ensures BeforeDelta(items, n) == items
    decreases |items|
  {
    if items != [] {
      AllDeltasHandled(items[1..], if items[0].Delta? then n - 1 else n);
    }
  }

  lemma {:induction false} AllServed(items: seq<Item>)
    requires !Faults(items)
    ensures Served(items) == items
    decreases |items|
  {
    if items != [] {
      AllServed(items[1..]);
    }
  }

  lemma {:induction false} EveryChunkAccepted(rules: seq<Rule>, holdback: nat, s: State, chunks: seq<string>)
    requires Feed(rules, holdback, s, chunks).violation.None?
    ensures |Feed(rules, holdback, s, chunks).out| == |chunks|
    decreases |chunks|
  {
    if chunks != [] {
      EveryChunkAccepted(rules, holdback, AfterPush(rules, holdback, s, chunks[0]).0, chunks[1..]);
    }
  }

  /** With a safe holdback the reason names the cause: a generation that did not
      fail is recorded as filtered exactly when the whole-response filter refuses
      it, and otherwise under what it last reported; one that failed is recorded as
      filtered only if that filter refuses what it produced, and as an error else. */
  lemma {:induction false} ReasonNamesTheCause(rules: seq<Rule>, holdback: nat, items: seq<Item>)
    requires Safe(rules, holdback)
    ensures
      var record, blocked := Recorded(Delivered(rules, holdback, items)), Whole(rules, items).blocked;
      && (!Faults(items) && blocked ==> record.output.None? && record.reason == "content_filter")
      && (!Faults(items) && !blocked ==>
            record.output == Some(Whole(rules, items).text) && Reported(items, record.reason, record.usage, "stop", 0))
      && (Faults(items) ==> record.output.None? && (record.reason == "error" || (blocked && record.reason == "content_filter")))
  {
    StreamedIsFiltered(rules, holdback, items);
    SafePumping(rules, holdback, items);
    PumpingFeeds(rules, holdback, START, items, "stop", 0);
    var reason, usage := RecordSaysWhyItEnded(rules, holdback, items);
    var fed := Feed(rules, holdback, START, Texts(Served(items)));
    if !Faults(items) && fed.violation.None? {
      AllServed(items);
      EveryChunkAccepted(rules, holdback, START, Texts(items));
      AllDeltasHandled(items, |Texts(items)|);
    }
  }

  // ----- The rule a refusal names -----

  lemma {:induction false} BlocklistNames(id: string, action: Action, tokens: seq<string>, text: string)
    requires Blocklist(id, action, tokens, text).blocked
    ensures Blocklist(id, action, tokens, text).matches != []
    decreases |tokens|
  {
    if tokens != [] {
      var later := Blocklist(id, action, tokens[1..], text);
      if later.blocked {
        BlocklistNames(id, action, tokens[1..], text);
      }
    }
  }

  /** A refusal names a rule. */
  lemma {:induction false} RefusalNamesARule(rules: seq<Rule>, text: string)
    requires Filter(rules, text).blocked
    ensures Filter(rules, text).matches != []
    decreases |rules|
  {
    if rules != [] {
      var r := ApplyRule(rules[0], text);
      if r.blocked {
        if rules[0].kind.TokenBlocklist? {
          BlocklistNames(rules[0].id, rules[0].action, rules[0].kind.tokens, text);
        }
      } else {
        RefusalNamesARule(rules[1..], r.text);
      }
    }
  }

  /** The filter refuses this text, and this is the first rule that fired in it. */
  ghost predicate RefusedFor(rules: seq<Rule>, text: string, ruleId: string) {
    var r := Filter(rules, text);
    r.blocked && r.matches != [] && r.matches[0].id == ruleId
  }

  lemma {:induction false} PushRefusedFor(rules: seq<Rule>, holdback: nat, s: State, chunks: seq<string>)
    requires Feed(rules, holdback, s, chunks).violation.Some?
    ensures
      var fed := Feed(rules, holdback, s, chunks);
      && |fed.out| < |chunks|
      && RefusedFor(rules, s.raw + Flat(chunks[..|fed.out| + 1]), fed.violation.value)
    decreases |chunks|
  {
    if chunks != [] {
      var (next, pushed) := AfterPush(rules, holdback, s, chunks[0]);
      if pushed.Violation? {
        RefusalNamesARule(rules, s.raw + chunks[0]);
        assert chunks[..1] == [chunks[0]] && [chunks[0]][1..] == [];
        assert Flat(chunks[..1]) == chunks[0] + Flat([]);
        assert chunks[0] + [] == chunks[0];
      } else {
        PushRefusedFor(rules, holdback, next, chunks[1..]);
        var n := |Feed(rules, holdback, s, chunks).out|;
        TakeOneMore(chunks, n);
        Associate(s.raw, chunks[0], Flat(chunks[1..][..n]));
      }
    }
  }

  /** For any policy, holdback and chunks, a stream that is stopped is stopped for
      the first rule that fired when the filter refused the text so far: up to the
      push that was refused, or all of it at the finish. */
  lemma {:induction false} StoppedForTheFirstRule(rules: seq<Rule>, holdback: nat, chunks: seq<string>)
    requires Stream(rules, holdback, chunks).Stopped?
    ensures
      var n := |Feed(rules, holdback, START, chunks).out|;
      RefusedFor(rules, Flat(if n < |chunks| then chunks[..n + 1] else chunks), Stream(rules, holdback, chunks).ruleId)
  {
    var fed := Feed(rules, holdback, START, chunks);
    if fed.violation.Some? {
      PushRefusedFor(rules, holdback, START, chunks);
      var x := Flat(chunks[..|fed.out| + 1]);
      assert START.raw + x == x;
    } else {
      FedRaw(rules, holdback, START, chunks);
      assert START.raw + Flat(chunks) == Flat(chunks);
      RefusalNamesARule(rules, Flat(chunks));
    }
  }
}
