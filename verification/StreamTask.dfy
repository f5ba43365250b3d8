/** The loop behind a streamed response: it pushes generated text through the
    streaming filter, sends what is released, and closes with one terminal
    event unless the receiver has gone. */
module StreamTask {
  import opened Prelude
  import opened OutputFilter
  import opened Streaming

  /** What the generation stream yields. */
  datatype Item = Delta(text: string) | Done(reason: string, usage: nat) | Fault(message: string)

  datatype Event =
    | DeltaEvent(text: string)
    | DoneEvent(text: string, reason: string, usage: nat)
    | ErrorEvent(stoppedByPolicy: bool)

  /** The outcome the node records: the text on success only. */
  datatype Record = Record(output: Option<string>, reason: string, usage: nat, rules: seq<string>)

  datatype Failure = Policy | Runtime

  // ----- A stream whose receiver stays -----

  /** Where a stream is: the filter's state, the deltas due so far, what the
      generation last reported and why it stopped early, if it did. */
  datatype Progress = Progress(state: State, due: seq<Event>, reason: string, usage: nat, failed: Option<Failure>)

  /** The delta event for a released text; none for an empty one. */
  function Carrying(text: string): seq<Event> {
    if text == [] then [] else [DeltaEvent(text)]
  }

  function Behind(events: seq<Event>, p: Progress): Progress {
    p.(due := events + p.due)
  }

  function Pumped(rules: seq<Rule>, holdback: nat, s: State, items: seq<Item>, reason: string, usage: nat): Progress
    decreases |items|
  {
    if items == [] then Progress(s, [], reason, usage, None)
    else
      match items[0]
      case Fault(_) => Progress(s, [], reason, usage, Some(Runtime))
      case Done(r, u) => Pumped(rules, holdback, s, items[1..], r, u)
      case Delta(delta) =>
        var (next, pushed) := AfterPush(rules, holdback, s, delta);
        match pushed
        case Violation(_) => Progress(next, [], reason, usage, Some(Policy))
        case Chunk(text) => Behind(Carrying(text), Pumped(rules, holdback, next, items[1..], reason, usage))
  }

  /** The finish, unless the generation already failed. */
  function Closed(rules: seq<Rule>, p: Progress): Progress {
    if p.failed.Some? then p
    else
      var (last, finished) := AfterFinish(rules, p.state);
      match finished
      case Refused(_) => p.(state := last, failed := Some(Policy))
      case Tail(tail, _) => p.(state := last, due := p.due + Carrying(tail))
  }

  function Delivered(rules: seq<Rule>, holdback: nat, items: seq<Item>): Progress {
    Closed(rules, Pumped(rules, holdback, START, items, "stop", 0))
  }

  function Ids(matches: seq<Match>): seq<string> {
    seq(|matches|, i requires 0 <= i < |matches| => matches[i].id)
  }

  function Recorded(p: Progress): Record {
    var fired := Ids(p.state.matches);
    match p.failed
    case Some(Policy) => Record(None, "content_filter", p.usage, fired)
    case Some(Runtime) => Record(None, "error", p.usage, fired)
    case None => Record(Some(p.state.released), p.reason, p.usage, fired)
  }

  function Terminal(p: Progress): Event {
    match p.failed
    case Some(f) => ErrorEvent(f.Policy?)
    case None => DoneEvent(p.state.released, p.reason, p.usage)
  }

  // ----- The loop -----

  /** What a receiver that leaves after `hangUp` events gets. */
  function Taken(hangUp: Option<nat>, events: seq<Event>): seq<Event> {
    if hangUp.Some? && hangUp.value < |events| then events[..hangUp.value] else events
  }

  predicate Outlasts(hangUp: Option<nat>, n: nat) {
    hangUp.None? || n <= hangUp.value
  }

  /** The channel to the receiver. */
  class Channel {
    const hangUp: Option<nat>
    var sent: seq<Event>

    ghost predicate Valid()
      reads this
    {
      Outlasts(hangUp, |sent|)
    }

    constructor (hangUp: Option<nat>)
      ensures Valid() && this.hangUp == hangUp && sent == []
    {
      this.hangUp, sent := hangUp, [];
    }

    /** Fails, sending nothing, once the receiver has gone. */
    method Send(e: Event) returns (ok: bool)
      requires Valid()
      modifies this
      ensures Valid() && sent == Taken(hangUp, old(sent) + [e])
      ensures ok <==> Outlasts(hangUp, |old(sent)| + 1)
    {
      ok := hangUp.None? || |sent| < hangUp.value;
      if ok {
        sent := sent + [e];
      }
    }
  }

  /** Send the delta for a released text, if it is not empty. */
  method SendText(channel: Channel, text: string) returns (ok: bool)
    requires channel.Valid()
    modifies channel
    ensures channel.Valid() && channel.sent == Taken(channel.hangUp, old(channel.sent) + Carrying(text))
    ensures ok <==> Outlasts(channel.hangUp, |old(channel.sent) + Carrying(text)|)
  {
    ok := true;
    if text != [] {
      ok := channel.Send(DeltaEvent(text));
    }
  }

  /** The loop over the generation stream; it ends at once when a delta cannot
      be sent. */
  method Pump(filter: StreamingFilter, channel: Channel, items: seq<Item>)
    returns (open: bool, failed: Option<Failure>, reason: string, usage: nat)
    requires filter.View() == START && channel.Valid() && channel.sent == []
    modifies filter, channel
    ensures
      var p := Pumped(filter.rules, filter.holdback, START, items, "stop", 0);
      && channel.sent == Taken(channel.hangUp, p.due)
      && (open <==> Outlasts(channel.hangUp, |p.due|))
      && (open ==> p == Progress(filter.View(), p.due, reason, usage, failed))
  {
    failed, reason, usage := None, "stop", 0;
    ghost var p := Pumped(filter.rules, filter.holdback, START, items, "stop", 0);
    assert items[0..] == items;
    for i := 0 to |items|
      invariant failed.None? && channel.Valid()
      invariant p == Behind(channel.sent, Pumped(filter.rules, filter.holdback, filter.View(), items[i..], reason, usage))
    {
      ghost var before, state := channel.sent, filter.View();
      PumpedUnfolds(filter.rules, filter.holdback, state, items, i, reason, usage, before);
      match items[i] {
        case Fault(_) => return true, Some(Runtime), reason, usage;
        case Done(fr, u) => reason, usage := fr, u;
        case Delta(delta) =>
          var pushed := filter.Push(delta);
          if pushed.Violation? {
            return true, Some(Policy), reason, usage;
          }
          var ok := SendText(channel, pushed.text);
          if !ok {
            TakenTwice(channel.hangUp, before + Carrying(pushed.text), p.due);
            return false, None, reason, usage;
          }
      }
    }
    open := true;
  }

  lemma {:induction false} PumpedUnfolds(
      rules: seq<Rule>, holdback: nat, s: State, items: seq<Item>, i: nat, reason: string, usage: nat, sent: seq<Event>)
    requires i < |items|
    ensures
      var p := Behind(sent, Pumped(rules, holdback, s, items[i..], reason, usage));
      match items[i]
      case Fault(_) => p == Progress(s, sent, reason, usage, Some(Runtime))
      case Done(r, u) => p == Behind(sent, Pumped(rules, holdback, s, items[i + 1..], r, u))
      case Delta(delta) =>
        var (next, pushed) := AfterPush(rules, holdback, s, delta);
        match pushed
        case Violation(_) => p == Progress(next, sent, reason, usage, Some(Policy))
        case Chunk(text) => p == Behind(sent + Carrying(text), Pumped(rules, holdback, next, items[i + 1..], reason, usage))
  {
    assert items[i..][0] == items[i] && items[i..][1..] == items[i + 1..];
    assert sent + [] == sent;
  }

  lemma {:induction false} TakenTwice(hangUp: Option<nat>, some: seq<Event>, all: seq<Event>)
    requires some <= all && !Outlasts(hangUp, |some|)
    ensures Taken(hangUp, some) == Taken(hangUp, all)
  {
  }

  /** One streamed response, for any policy, holdback, generation and receiver.
      The receiver gets the due deltas and one terminal event, up to where it
      leaves; the outcome is recorded unless it left before the last delta. */
  method Run(rules: seq<Rule>, holdback: nat, items: seq<Item>, hangUp: Option<nat>)
    returns (sent: seq<Event>, record: Option<Record>)
    ensures
      var p := Delivered(rules, holdback, items);
      && sent == Taken(hangUp, p.due + [Terminal(p)])
      && record == if Outlasts(hangUp, |p.due|) then Some(Recorded(p)) else None
  {
    var filter := new StreamingFilter(rules, holdback);
    var channel := new Channel(hangUp);
    var open, failed, reason, usage := Pump(filter, channel, items);
    ghost var p := Delivered(rules, holdback, items);
    if !open {
      TakenTwice(hangUp, Pumped(rules, holdback, START, items, "stop", 0).due, p.due + [Terminal(p)]);
      return channel.sent, None;
    }
    if failed.None? {
      var finished := filter.Finish();
      match finished {
        case Refused(_) => failed := Some(Policy);
        case Tail(tail, _) =>
          open := SendText(channel, tail);
          if !open {
            TakenTwice(hangUp, p.due, p.due + [Terminal(p)]);
            return channel.sent, None;
          }
      }
    }
    assert p == Progress(filter.View(), channel.sent, reason, usage, failed);
    var rulesMatched := Ids(filter.matches);
    var terminal;
    if failed.Some? {
      var stoppedByPolicy := failed.value.Policy?;
      record := Some(Record(None, if stoppedByPolicy then "content_filter" else "error", usage, rulesMatched));
      terminal := ErrorEvent(stoppedByPolicy);
    } else {
      record := Some(Record(Some(filter.released), reason, usage, rulesMatched));
      terminal := DoneEvent(filter.released, reason, usage);
    }
    var ok := channel.Send(terminal);
    sent := channel.sent;
  }

  // ----- What a run is about -----

  /** The items up to the first fault. */
  function Served(items: seq<Item>): seq<Item> {
    if items == [] || items[0].Fault? then [] else [items[0]] + Served(items[1..])
  }

  predicate Faults(items: seq<Item>) {
    items != [] && (items[0].Fault? || Faults(items[1..]))
  }

  function Texts(items: seq<Item>): seq<string> {
    if items == [] then [] else (if items[0].Delta? then [items[0].text] else []) + Texts(items[1..])
  }

  function TextOf(e: Event): string {
    if e.DeltaEvent? then e.text else []
  }

  function DeltaText(events: seq<Event>): string {
    if events == [] then [] else TextOf(events[0]) + DeltaText(events[1..])
  }

  predicate AllDeltas(events: seq<Event>) {
    forall k :: 0 <= k < |events| ==> events[k].DeltaEvent?
  }

  /** Deltas and then exactly one terminal event. */
  predicate TerminatedOnce(events: seq<Event>) {
    && |events| > 0 && !events[|events| - 1].DeltaEvent?
    && AllDeltas(events[..|events| - 1])
  }

  lemma {:induction false} DeltaTextConcat(a: seq<Event>, b: seq<Event>)
    ensures DeltaText(a + b) == DeltaText(a) + DeltaText(b)
    decreases |a|
  {
    if a == [] {
      assert a + b == b;
    } else {
      assert (a + b)[1..] == a[1..] + b;
      DeltaTextConcat(a[1..], b);
      Associate(TextOf(a[0]), DeltaText(a[1..]), DeltaText(b));
    }
  }

  lemma {:induction false} CarriedText(text: string)
    ensures DeltaText(Carrying(text)) == text && AllDeltas(Carrying(text))
  {
    assert [DeltaEvent(text)][1..] == [];
    assert DeltaText([DeltaEvent(text)]) == text + [];
  }

  // ----- A stream is a run of the filter -----

  /** Why a generation stops early: the policy first, then a fault. */
  function Cause(fed: Fed, items: seq<Item>): Option<Failure> {
    if fed.violation.Some? then Some(Policy) else if Faults(items) then Some(Runtime) else None
  }

  ghost predicate IsFed(p: Progress, fed: Fed, items: seq<Item>) {
    && p.state == fed.state && p.failed == Cause(fed, items)
    && AllDeltas(p.due) && DeltaText(p.due) == Flat(fed.out)
  }

  /** Pumping is feeding the texts generated before any fault. */
  lemma {:induction false} PumpingFeeds(rules: seq<Rule>, holdback: nat, s: State, items: seq<Item>, reason: string, usage: nat)
    ensures IsFed(Pumped(rules, holdback, s, items, reason, usage),
                  Feed(rules, holdback, s, Texts(Served(items))), items)
    decreases |items|
  {
    if items != [] && !items[0].Fault? {
      var rest := Served(items[1..]);
      assert Served(items)[1..] == rest;
      match items[0]
      case Done(r, u) =>
        PumpingFeeds(rules, holdback, s, items[1..], r, u);
        assert Texts(Served(items)) == Texts(rest);
      case Delta(delta) =>
        assert Texts(Served(items))[1..] == Texts(rest);
        var (next, pushed) := AfterPush(rules, holdback, s, delta);
        if pushed.Chunk? {
          PumpingFeeds(rules, holdback, next, items[1..], reason, usage);
          ChunkFeeds(pushed.text, Pumped(rules, holdback, next, items[1..], reason, usage),
                     Feed(rules, holdback, next, Texts(rest)));
        }
    }
  }

  lemma {:induction false} ChunkFeeds(text: string, p: Progress, fed: Fed)
    requires AllDeltas(p.due) && DeltaText(p.due) == Flat(fed.out)
    ensures AllDeltas(Behind(Carrying(text), p).due)
    ensures DeltaText(Behind(Carrying(text), p).due) == Flat([text] + fed.out)
  {
    CarriedText(text);
    DeltaTextConcat(Carrying(text), p.due);
    FlatCons(text, fed.out);
  }

  /** Releases and returned chunks are the same text, for any policy. */
  lemma {:induction false} FeedReleases(rules: seq<Rule>, holdback: nat, s: State, chunks: seq<string>)
    ensures
      var fed := Feed(rules, holdback, s, chunks);
      fed.state.released == s.released + Flat(fed.out)
    decreases |chunks|
  {
    if chunks != [] {
      var (next, pushed) := AfterPush(rules, holdback, s, chunks[0]);
      PushReleases(rules, holdback, s, chunks[0]);
      if pushed.Chunk? {
        FeedReleases(rules, holdback, next, chunks[1..]);
        var rest := Feed(rules, holdback, next, chunks[1..]).out;
        FlatCons(pushed.text, rest);
        Associate(s.released, pushed.text, Flat(rest));
      }
    }
  }

  lemma {:induction false} PushReleases(rules: seq<Rule>, holdback: nat, s: State, delta: string)
    ensures
      var (next, pushed) := AfterPush(rules, holdback, s, delta);
      next.released == s.released + if pushed.Chunk? then pushed.text else []
  {
  }

  /** The deltas due concatenate to everything the filter released. */
  lemma {:induction false} DueIsReleased(rules: seq<Rule>, holdback: nat, items: seq<Item>)
    ensures
      var p := Delivered(rules, holdback, items);
      AllDeltas(p.due) && DeltaText(p.due) == p.state.released
  {
    var pumped := Pumped(rules, holdback, START, items, "stop", 0);
    PumpingFeeds(rules, holdback, START, items, "stop", 0);
    FeedReleases(rules, holdback, START, Texts(Served(items)));
    assert [] + DeltaText(pumped.due) == DeltaText(pumped.due);
    if pumped.failed.None? {
      var finished := AfterFinish(rules, pumped.state).1;
      if finished.Tail? {
        CarriedText(finished.text);
        DeltaTextConcat(pumped.due, Carrying(finished.text));
      }
    }
  }

  // ----- The protocol -----

  lemma {:induction false} TextUpTo(events: seq<Event>, n: nat)
    requires n <= |events|
    ensures DeltaText(events[..n]) <= DeltaText(events)
  {
    DeltaTextConcat(events[..n], events[n..]);
    assert events == events[..n] + events[n..];
  }

  /** For any policy, generation and receiver: what is sent is deltas and then
      exactly one terminal event, or deltas only when the receiver left; and a
      `done` event carries exactly the text of the deltas sent before it. */
  lemma {:induction false} OneTerminalEvent(rules: seq<Rule>, holdback: nat, items: seq<Item>, hangUp: Option<nat>)
    ensures
      var p := Delivered(rules, holdback, items);
      var sent := Taken(hangUp, p.due + [Terminal(p)]);
      && (if hangUp.Some? && hangUp.value <= |p.due| then AllDeltas(sent) && |sent| == hangUp.value
          else TerminatedOnce(sent))
      && DeltaText(sent) <= p.state.released
      && (!AllDeltas(sent) && sent[|sent| - 1].DoneEvent? ==> sent[|sent| - 1].text == DeltaText(sent))
  {
    var p := Delivered(rules, holdback, items);
    var all := p.due + [Terminal(p)];
    DueIsReleased(rules, holdback, items);
    DeltaTextConcat(p.due, [Terminal(p)]);
    assert [Terminal(p)][1..] == [];
    assert DeltaText([Terminal(p)]) == [] + [];
    assert DeltaText(all) == p.state.released;
    assert all[..|all| - 1] == p.due;
    if hangUp.Some? && hangUp.value <= |p.due| {
      TextUpTo(all, hangUp.value);
    }
  }

  // ----- The safety of a run -----

  /** The whole-response filter on all the text the generation produced. */
  function Whole(rules: seq<Rule>, items: seq<Item>): FilterResult {
    Filter(rules, Flat(Texts(Served(items))))
  }

  lemma {:induction false} SafePumping(rules: seq<Rule>, holdback: nat, items: seq<Item>)
    requires Safe(rules, holdback)
    ensures
      var p, whole := Pumped(rules, holdback, START, items, "stop", 0), Whole(rules, items);
      && (p.failed == Some(Policy) ==> whole.blocked)
      && (p.failed == Some(Runtime) ==> Faults(items))
      && (p.failed.None? ==> !Faults(items))
      && (!whole.blocked ==> DeltaText(p.due) <= whole.text)
  {
    var chunks := Texts(Served(items));
    PumpingFeeds(rules, holdback, START, items, "stop", 0);
    FeedFromStart(rules, holdback, chunks);
    if !Whole(rules, items).blocked {
      assert Flat(chunks) + [] == Flat(chunks);
      ReleasedIsStable(rules, holdback, chunks, []);
    }
  }

  /** With a safe holdback the stream only ever sends text the whole-response
      filter would have returned; it succeeds exactly when the generation did
      not fail and that filter accepts everything generated; and the text it
      then records is that filter's output. */
  lemma {:induction false} StreamedIsFiltered(rules: seq<Rule>, holdback: nat, items: seq<Item>)
    requires Safe(rules, holdback)
    ensures
      var p, whole := Delivered(rules, holdback, items), Whole(rules, items);
      && (!whole.blocked ==> DeltaText(p.due) <= whole.text)
      && (Recorded(p).output.Some? <==> !Faults(items) && !whole.blocked)
      && (Recorded(p).output.Some? ==> Recorded(p).output.value == whole.text)
  {
    var chunks := Texts(Served(items));
    var pumped := Pumped(rules, holdback, START, items, "stop", 0);
    SafePumping(rules, holdback, items);
    PumpingFeeds(rules, holdback, START, items, "stop", 0);
    DueIsReleased(rules, holdback, items);
    StreamAgrees(rules, holdback, chunks);
    if pumped.failed.None? {
      assert pumped.state == Feed(rules, holdback, START, chunks).state;
    }
  }

  // ----- What the audit record names -----

  /** How much of the text the last scan of these pushes saw. It depends on the
      lengths of the chunks only. */
  function LastScan(holdback: nat, rawChars: nat, scannedChars: nat, chunks: seq<string>): (r: nat)
    requires scannedChars <= rawChars
    ensures r <= rawChars + |Flat(chunks)|
    decreases |chunks|
  {
    if chunks == [] then scannedChars
    else
      var next := rawChars + |chunks[0]|;
      LastScan(holdback, next, if ScanIsDue(next, scannedChars, holdback) then next else scannedChars, chunks[1..])
  }

  /** The text that scan saw: of all the chunks, or of those before the push that
      was refused. */
  function ScannedText(rules: seq<Rule>, holdback: nat, chunks: seq<string>): string {
    var accepted := chunks[..|Feed(rules, holdback, START, chunks).out|];
    Flat(accepted)[..LastScan(holdback, 0, 0, accepted)]
  }

  /** The matches in hand are those of the last scan. */
  ghost predicate Remembers(rules: seq<Rule>, s: State) {
    && s.rawChars == |s.raw| && s.scannedChars <= |s.raw|
    && s.matches == Filter(rules, s.raw[..s.scannedChars]).matches
  }

  lemma {:induction false} NothingMatchesEmpty(rules: seq<Rule>)
    ensures Filter(rules, []).matches == [] && Filter(rules, []).text == []
    decreases |rules|
  {
    if rules != [] {
      match rules[0].kind {
        case TokenBlocklist(tokens) => NoTokenInEmpty(rules[0].id, rules[0].action, tokens);
        case TopicFilter(keywords, _) => NoTopicInEmpty(keywords);
        case MaxLength(_) =>
      }
      NothingMatchesEmpty(rules[1..]);
    }
  }

  lemma {:induction false} NoTokenInEmpty(id: string, action: Action, tokens: seq<string>)
    ensures Blocklist(id, action, tokens, []) == FilterResult([], [], false)
    decreases |tokens|
  {
    if tokens != [] {
      NoTokenInEmpty(id, action, tokens[1..]);
    }
  }

  lemma {:induction false} NoTopicInEmpty(keywords: seq<string>)
    ensures Lower([]) == [] && TopicHits(keywords, []) == 0
    decreases |keywords|
  {
    if keywords != [] {
      NoTopicInEmpty(keywords[1..]);
    }
  }

  lemma {:induction false} PushRemembers(rules: seq<Rule>, holdback: nat, s: State, delta: string)
    requires Remembers(rules, s) && AfterPush(rules, holdback, s, delta).1.Chunk?
    ensures
      var next := AfterPush(rules, holdback, s, delta).0;
      && Remembers(rules, next) && next.raw == s.raw + delta
      && next.scannedChars ==
           if ScanIsDue(next.rawChars, s.scannedChars, holdback) then next.rawChars else s.scannedChars
  {
    var raw := s.raw + delta;
    assert raw[..s.scannedChars] == s.raw[..s.scannedChars] && raw[..|raw|] == raw;
  }

  lemma {:induction false} TakeOneMore(chunks: seq<string>, n: nat)
    requires n < |chunks|
    ensures chunks[..n + 1][0] == chunks[0] && chunks[..n + 1][1..] == chunks[1..][..n]
  {
  }

  lemma {:induction false} FeedRemembers(rules: seq<Rule>, holdback: nat, s: State, chunks: seq<string>)
    requires Remembers(rules, s) && Feed(rules, holdback, s, chunks).violation.None?
    ensures
      var last := Feed(rules, holdback, s, chunks).state;
      && Remembers(rules, last) && last.raw == s.raw + Flat(chunks)
      && last.scannedChars == LastScan(holdback, s.rawChars, s.scannedChars, chunks)
    decreases |chunks|
  {
    if chunks == [] {
      assert s.raw + [] == s.raw;
    } else {
      PushRemembers(rules, holdback, s, chunks[0]);
      FeedRemembers(rules, holdback, AfterPush(rules, holdback, s, chunks[0]).0, chunks[1..]);
      Associate(s.raw, chunks[0], Flat(chunks[1..]));
    }
  }

  /** The push that is refused leaves the matches of those before it. */
  lemma {:induction false} RefusalLeavesMatches(rules: seq<Rule>, holdback: nat, s: State, chunks: seq<string>)
    ensures
      var fed := Feed(rules, holdback, s, chunks);
      var accepted := Feed(rules, holdback, s, chunks[..|fed.out|]);
      accepted.violation.None? && accepted.state.matches == fed.state.matches
    decreases |chunks|
  {
    if chunks != [] && AfterPush(rules, holdback, s, chunks[0]).1.Chunk? {
      RefusalLeavesMatches(rules, holdback, AfterPush(rules, holdback, s, chunks[0]).0, chunks[1..]);
      TakeOneMore(chunks, |Feed(rules, holdback, s, chunks).out| - 1);
    }
  }

  lemma {:induction false} StateNamesLastScan(rules: seq<Rule>, holdback: nat, chunks: seq<string>)
    ensures
      var fed := Feed(rules, holdback, START, chunks);
      && fed.state.matches == Filter(rules, ScannedText(rules, holdback, chunks)).matches
      && (fed.violation.None? ==>
            ScannedText(rules, holdback, chunks) == Flat(chunks)[..LastScan(holdback, 0, 0, chunks)])
  {
    var accepted := chunks[..|Feed(rules, holdback, START, chunks).out|];
    RefusalLeavesMatches(rules, holdback, START, chunks);
    NothingMatchesEmpty(rules);
    assert START.raw[..0] == [];
    FeedRemembers(rules, holdback, START, accepted);
    assert START.raw + Flat(accepted) == Flat(accepted);
    assert chunks[..|chunks|] == chunks;
  }

  /** For every stream, finished or not, the record names the rules that fired in
      the last scan of an accepted push, so it names those the whole-response
      filter fires exactly when that scan fired them all: the final scan adds
      nothing. */
  lemma {:induction false} RecordNamesLastScan(rules: seq<Rule>, holdback: nat, items: seq<Item>)
    ensures
      var chunks := Texts(Served(items));
      var recorded := Recorded(Delivered(rules, holdback, items)).rules;
      var scanned := Ids(Filter(rules, ScannedText(rules, holdback, chunks)).matches);
      && recorded == scanned
      && (Delivered(rules, holdback, items).failed.None? ==>
            ScannedText(rules, holdback, chunks) == Flat(chunks)[..LastScan(holdback, 0, 0, chunks)])
  {
    PumpingFeeds(rules, holdback, START, items, "stop", 0);
    StateNamesLastScan(rules, holdback, Texts(Served(items)));
  }

  lemma {:induction false} NoScanBelowHoldback(holdback: nat, rawChars: nat, scannedChars: nat, chunks: seq<string>)
    requires scannedChars <= rawChars && rawChars + |Flat(chunks)| <= holdback
    ensures LastScan(holdback, rawChars, scannedChars, chunks) == scannedChars
    decreases |chunks|
  {
    if chunks != [] {
      NoScanBelowHoldback(holdback, rawChars + |chunks[0]|, scannedChars, chunks[1..]);
    }
  }

  lemma {:induction false} FlatTake(chunks: seq<string>, n: nat)
    requires n <= |chunks|
    ensures |Flat(chunks[..n])| <= |Flat(chunks)|
    decreases n
  {
    if n > 0 {
      assert chunks[..n][1..] == chunks[1..][..n - 1];
      FlatTake(chunks[1..], n - 1);
    }
  }

  /** So a response no longer than the holdback never records a rule, and its
      record is complete exactly when no rule fired. */
  lemma {:induction false} ShortStreamsRecordNoRules(rules: seq<Rule>, holdback: nat, items: seq<Item>)
    requires |Flat(Texts(Served(items)))| <= holdback
    ensures
      var recorded := Recorded(Delivered(rules, holdback, items)).rules;
      recorded == [] && (recorded == Ids(Whole(rules, items).matches) <==> Whole(rules, items).matches == [])
  {
    var chunks := Texts(Served(items));
    var n := |Feed(rules, holdback, START, chunks).out|;
    FlatTake(chunks, n);
    NoScanBelowHoldback(holdback, 0, 0, chunks[..n]);
    assert Flat(chunks[..n])[..0] == [];
    NothingMatchesEmpty(rules);
    RecordNamesLastScan(rules, holdback, items);
  }
}
