/** What the log holds over every run: the events given to it, in order, less
    what crashes cut away. */
module LogContents {
  import opened Prelude
  import opened AuditChain
  import opened LastEntry
  import opened AuditVerify
  import opened AuditLog
  import opened LogReaders

  /** What a caller gives the log. */
  datatype Event = Event(id: string, timestamp: string, payload: Bytes)

  function EventOf(e: Entry): Event {
    Event(e.logId, e.timestamp, e.payload)
  }

  function Events(es: seq<Entry>): seq<Event> {
    seq(|es|, i requires 0 <= i < |es| => EventOf(es[i]))
  }

  /** The events accepted in the first `k` steps and not cut away since: an append
      while the log is open, and the boot event of an opening that finds nothing. */
  function Given(logs: seq<Log>, steps: seq<Step>, k: nat): seq<Event>
    requires k <= |steps| < |logs|
  {
    if k == 0 then []
    else
      var before := Given(logs, steps, k - 1);
      var open := logs[k - 1].writer.Some?;
      match steps[k - 1]
      case Append(id, timestamp, payload, _) => if open then before + [Event(id, timestamp, payload)] else before
      case Close => before
      case Crash(keep, _) => if keep < |before| then before[..keep] else before
      case Open(bootId, bootTime, boot, _, _) =>
        if !open && before == [] then [Event(bootId, bootTime, boot)] else before
  }

  lemma {:induction false} EventsSnoc(es: seq<Entry>, e: Entry)
    ensures Events(es + [e]) == Events(es) + [EventOf(e)]
  {
  }

  lemma {:induction false} EventsPrefix(es: seq<Entry>, k: nat)
    requires k <= |es|
    ensures Events(es[..k]) == Events(es)[..k]
  {
  }

  lemma {:induction false} AppendGives(n: Node, log: Log, id: string, timestamp: string, payload: Bytes, rest: string)
    requires log.writer.Some? && log.writer.value.at < |log.files|
    requires Flatten(log.files[log.writer.value.at + 1..]) == []
    ensures
      var next := AfterAppend(n, log, id, timestamp, payload, rest);
      Events(Flatten(next.files)) == Events(Flatten(log.files)) + [Event(id, timestamp, payload)]
  {
    var w := log.writer.value;
    var e := NextEntry(n, w.lastHash, w.sequence, id, timestamp, payload);
    AppendLengthens(n, log, id, timestamp, payload, rest);
    EventsSnoc(Flatten(log.files), e);
  }

  lemma {:induction false} CrashGives(files: seq<LogFile>, keep: nat, gone: set<LogFile>)
    ensures
      var before := Events(Flatten(files));
      Events(Flatten(Remaining(Surviving(files, keep), gone))) == if keep < |before| then before[..keep] else before
  {
    SurvivingIsPrefix(files, keep);
    RemainingIsSame(Surviving(files, keep), gone);
    if keep <= |Flatten(files)| {
      EventsPrefix(Flatten(files), keep);
    }
  }

  lemma {:induction false} NothingTooLong(n: Node, files: seq<LogFile>)
    requires Flatten(files) == []
    ensures forall f :: f in files ==> !TooLongToResume(n, f)
  {
    forall f | f in files ensures !TooLongToResume(n, f) {
      var k :| 0 <= k < |files| && files[k] == f;
      EmptyIfFlat(files, k);
    }
  }

  lemma {:induction false} OpenGives(
      n: Node, files: seq<LogFile>, id: string, timestamp: string, boot: Bytes, rest: string, next: string)
    ensures
      var before := Events(Flatten(files));
      Events(Flatten(AfterOpen(n, files, id, timestamp, boot, rest, next).files))
      == if before == [] then [Event(id, timestamp, boot)] else before
  {
    LastUsedIsHead(files);
    if Flatten(files) == [] {
      NothingTooLong(n, files);
      FlattenNewFile(files, LogFile(1, rest, []));
      var start := Log(files + [LogFile(1, rest, [])], Some(Writer(|files|, GenesisHash(n.sha, n.deployment), 0, 0)));
      AppendGives(n, start, id, timestamp, boot, next);
      assert Events([]) + [Event(id, timestamp, boot)] == [Event(id, timestamp, boot)];
    } else {
      assert Events(Flatten(files))[0] == EventOf(Flatten(files)[0]);
    }
  }

  lemma {:induction false} StepGives(n: Node, logs: seq<Log>, steps: seq<Step>, k: nat)
    requires |logs| == |steps| + 1 && 0 < k <= |steps|
    requires RunsTo(n, logs[k - 1], steps[k - 1], logs[k]) && Inv(n, logs[k - 1])
    requires Events(Flatten(logs[k - 1].files)) == Given(logs, steps, k - 1)
    ensures Events(Flatten(logs[k].files)) == Given(logs, steps, k)
  {
    var log := logs[k - 1];
    match steps[k - 1]
    case Append(id, timestamp, payload, rest) =>
      if log.writer.Some? {
        AppendGives(n, log, id, timestamp, payload, rest);
      }
    case Close =>
    case Crash(keep, gone) => CrashGives(log.files, keep, gone);
    case Open(id, timestamp, boot, rest, next) =>
      if log.writer.None? {
        OpenGives(n, log.files, id, timestamp, boot, rest, next);
      }
  }

  /** Over every run, the log holds exactly the events given to it, in the order
      they were given, less what crashes cut away. */
  lemma {:induction false} LogHoldsWhatItWasGiven(n: Node, logs: seq<Log>, steps: seq<Step>, k: nat)
    requires Signs(n) && IsRun(n, logs, steps) && k < |logs|
    ensures Events(Flatten(logs[k].files)) == Given(logs, steps, k)
    decreases k
  {
    if k > 0 {
      LogHoldsWhatItWasGiven(n, logs, steps, k - 1);
      EveryRunKeepsInv(n, logs, steps, k - 1);
      assert RunsTo(n, logs[k - 1], steps[k - 1], logs[k]);
      StepGives(n, logs, steps, k);
    }
  }

  lemma {:induction false} EventsLastN(es: seq<Entry>, last: nat)
    ensures
      var all := Events(es);
      Events(LastN(es, last)) == if last >= |all| then all else all[|all| - last..]
  {
  }

  /** The readers and the verifier read these entries. */
  ghost predicate ReadsAs(listing: seq<LogFile>, es: seq<Entry>) {
    Flatten(LogFiles(listing)) == es && Load(AsSegments(listing)) == Some(es)
  }

  lemma {:induction false} ReadersReturnAll(n: Node, log: Log, listing: seq<LogFile>)
    requires Inv(n, log) && Lists(listing, log.files)
    ensures ReadsAs(listing, Flatten(log.files))
  {
    FilenameOrderIsChainOrder(n, log, listing);
    LoadSeesEntries(n, log, listing);
  }

  /** What the full read, the verifier's load and the tail read make of a listing:
      these events, and the last of them. */
  ghost predicate Returns(listing: seq<LogFile>, given: seq<Event>, last: nat) {
    var read, loaded := Flatten(LogFiles(listing)), Load(AsSegments(listing));
    && Events(read) == given
    && loaded.Some? && Events(loaded.value) == given
    && Events(LastN(read, last)) == if last >= |given| then given else given[|given| - last..]
  }

  lemma {:induction false} ReadEvents(listing: seq<LogFile>, es: seq<Entry>, last: nat)
    requires ReadsAs(listing, es)
    ensures Returns(listing, Events(es), last)
  {
    EventsLastN(es, last);
  }

  /** Both readers and the verifier see exactly those events, however the
      directory lists the segments. */
  lemma {:induction false} ReadersReturnWhatWasGiven(
      n: Node, logs: seq<Log>, steps: seq<Step>, k: nat, listing: seq<LogFile>, last: nat)
    requires Signs(n) && IsRun(n, logs, steps) && k < |logs| && Lists(listing, logs[k].files)
    ensures Returns(listing, Given(logs, steps, k), last)
  {
    LogHoldsWhatItWasGiven(n, logs, steps, k);
    EveryRunKeepsInv(n, logs, steps, k);
    ReadersReturnAll(n, logs[k], listing);
    ReadEvents(listing, Flatten(logs[k].files), last);
  }

  /** A segment is closed by the append that brings its rendered lines to the size
      limit, and by no other. */
  lemma {:induction false} AppendRotatesIffFull(
      n: Node, log: Log, id: string, timestamp: string, payload: Bytes, rest: string)
    requires log.writer.Some? && WriterAtHead(n, log.files, log.writer.value)
    ensures
      var w, next := log.writer.value, AfterAppend(n, log, id, timestamp, payload, rest);
      && |next.files| >= |log.files| && w.at < |next.files| && next.writer.Some?
      && (|next.files| > |log.files| <==> |Render(n, next.files[w.at].entries)| >= n.maxFileBytes)
      && (next.writer.value.at == w.at <==> |next.files| == |log.files|)
  {
    var w := log.writer.value;
    var e := NextEntry(n, w.lastHash, w.sequence, id, timestamp, payload);
    RenderSnoc(n, log.files[w.at].entries, e);
  }
}
