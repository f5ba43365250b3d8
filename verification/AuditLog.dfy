/** The audit log writer as a state machine over its segments: append with
    rotation, close, crash and reopen. */
module AuditLog {
  import opened Prelude
  import opened AuditChain
  import opened SegmentNames
  import opened LastEntry

  /** A segment named for the sequence number it was created to begin at. */
  datatype LogFile = LogFile(first: nat, rest: string, entries: seq<Entry>)

  /** The open writer: the segment it appends to and the head of the chain. */
  datatype Writer = Writer(at: nat, lastHash: string, sequence: nat, bytes: nat)

  /** Segments in the order they were created, and the writer while open. */
  datatype Log = Log(files: seq<LogFile>, writer: Option<Writer>)

  function Flatten(files: seq<LogFile>): seq<Entry> {
    if files == [] then [] else files[0].entries + Flatten(files[1..])
  }

  // ----- Steps -----

  function AfterAppend(n: Node, log: Log, id: string, timestamp: string, payload: Bytes, rest: string): Log
    requires log.writer.Some? && log.writer.value.at < |log.files|
  {
    var w := log.writer.value;
    var f := log.files[w.at];
    var e := NextEntry(n, w.lastHash, w.sequence, id, timestamp, payload);
    var files := log.files[w.at := f.(entries := f.entries + [e])];
    var bytes := w.bytes + |n.encode(e)| + 1;
    if bytes >= n.maxFileBytes then
      Log(files + [LogFile(w.sequence + 2, rest, [])], Some(Writer(|files|, e.entryHash, w.sequence + 1, 0)))
    else
      Log(files, Some(Writer(w.at, e.entryHash, w.sequence + 1, bytes)))
  }

  predicate TooLongToResume(n: Node, f: LogFile) {
    f.entries != [] && !FitsBlock(n, f.entries[|f.entries| - 1])
  }

  /** The youngest segment that holds an entry. */
  function LastUsed(files: seq<LogFile>): (r: Option<nat>)
    ensures r.Some? ==> r.value < |files| && files[r.value].entries != []
  {
    if files == [] then None
    else if files[|files| - 1].entries != [] then Some(|files| - 1)
    else LastUsed(files[..|files| - 1])
  }

  /** Opening: refused if some last entry cannot be read back; a fresh first
      segment and a boot entry if there is none; otherwise resume. */
  function AfterOpen(n: Node, files: seq<LogFile>, id: string, timestamp: string, boot: Bytes, rest: string, next: string): Log {
    if exists f :: f in files && TooLongToResume(n, f) then Log(files, None)
    else
      match LastUsed(files)
      case None =>
        var start := Log(files + [LogFile(1, rest, [])], Some(Writer(|files|, GenesisHash(n.sha, n.deployment), 0, 0)));
        AfterAppend(n, start, id, timestamp, boot, next)
      case Some(at) => Log(files, Some(ResumeAt(n, files, at)))
  }

  function ResumeAt(n: Node, files: seq<LogFile>, at: nat): Writer
    requires at < |files| && files[at].entries != []
  {
    var es := files[at].entries;
    Writer(at, es[|es| - 1].entryHash, es[|es| - 1].sequence, |Render(n, es)|)
  }

  /** A crash keeps the first `keep` entries of the log. */
  function Surviving(files: seq<LogFile>, keep: nat): seq<LogFile> {
    if files == [] then []
    else
      var f := files[0];
      if |f.entries| <= keep then [f] + Surviving(files[1..], keep - |f.entries|)
      else [f.(entries := f.entries[..keep])] + Surviving(files[1..], 0)
  }

  /** A segment left empty may also be missing after a crash. */
  function Remaining(files: seq<LogFile>, gone: set<LogFile>): seq<LogFile> {
    if files == [] then []
    else if files[0].entries == [] && files[0] in gone then Remaining(files[1..], gone)
    else [files[0]] + Remaining(files[1..], gone)
  }

  // ----- The invariant -----

  ghost predicate WriterAtHead(n: Node, files: seq<LogFile>, w: Writer) {
    && w.at < |files|
    && Flatten(files[w.at + 1..]) == []
    && w.sequence == |Flatten(files)|
    && w.lastHash == PrevHash(n.sha, n.deployment, Flatten(files), w.sequence)
    && w.bytes == |Render(n, files[w.at].entries)|
    && (files[w.at].entries == [] ==> files[w.at].first == w.sequence + 1)
  }

  /** A used segment begins at the number in its name. */
  ghost predicate WellNamed(f: LogFile) {
    && f.first <= MAX_SEQUENCE
    && (f.entries != [] ==> f.entries[0].sequence == f.first)
  }

  ghost predicate AllNamed(files: seq<LogFile>) {
    forall k :: 0 <= k < |files| ==> WellNamed(files[k])
  }

  ghost predicate Inv(n: Node, log: Log) {
    && Chain(n, Flatten(log.files))
    && AllNamed(log.files)
    && (log.writer.Some? ==> WriterAtHead(n, log.files, log.writer.value))
  }

  // ----- Flattening -----

  lemma {:induction false} FlattenSplit(files: seq<LogFile>, k: nat)
    requires k <= |files|
    ensures Flatten(files) == Flatten(files[..k]) + Flatten(files[k..])
    decreases k
  {
    if k == 0 {
      assert files[..0] == [] && files[0..] == files;
    } else {
      FlattenSplit(files[1..], k - 1);
      assert files[1..][..k - 1] == files[..k][1..] && files[1..][k - 1..] == files[k..];
    }
  }

  lemma {:induction false} FlattenOne(f: LogFile)
    ensures Flatten([f]) == f.entries
  {
    assert [f][1..] == [];
    assert f.entries + [] == f.entries;
  }

  lemma {:induction false} FlattenAt(files: seq<LogFile>, at: nat)
    requires at < |files|
    ensures Flatten(files) == Flatten(files[..at]) + files[at].entries + Flatten(files[at + 1..])
  {
    FlattenSplit(files, at);
    FlattenSplit(files[at..], 1);
    assert files[at..][..1] == [files[at]] && files[at..][1..] == files[at + 1..];
    FlattenOne(files[at]);
  }

  /** Appending to the youngest used segment appends to the log. */
  lemma {:induction false} FlattenAppend(files: seq<LogFile>, at: nat, e: Entry)
    requires at < |files| && Flatten(files[at + 1..]) == []
    ensures
      var f := files[at];
      var grown := files[at := f.(entries := f.entries + [e])];
      Flatten(grown) == Flatten(files) + [e] && Flatten(grown[at + 1..]) == []
  {
    var f := files[at];
    var grown := files[at := f.(entries := f.entries + [e])];
    FlattenAt(files, at);
    FlattenAt(grown, at);
    assert grown[..at] == files[..at] && grown[at + 1..] == files[at + 1..];
    assert Flatten(files[..at]) + (f.entries + [e]) + [] == Flatten(files[..at]) + f.entries + [] + [e];
  }

  lemma {:induction false} FlattenNewFile(files: seq<LogFile>, f: LogFile)
    requires f.entries == []
    ensures Flatten(files + [f]) == Flatten(files)
    ensures Flatten((files + [f])[|files| + 1..]) == []
  {
    FlattenSplit(files + [f], |files|);
    assert (files + [f])[..|files|] == files && (files + [f])[|files|..] == [f];
    FlattenOne(f);
    assert (files + [f])[|files| + 1..] == [];
  }

  // ----- Appending keeps the invariant -----

  lemma {:induction false} RenderSnoc(n: Node, es: seq<Entry>, e: Entry)
    ensures |Render(n, es + [e])| == |Render(n, es)| + |n.encode(e)| + 1
  {
    assert (es + [e])[..|es|] == es;
  }

  function Grown(n: Node, log: Log, e: Entry): Log
    requires log.writer.Some? && log.writer.value.at < |log.files|
  {
    var w := log.writer.value;
    var f := log.files[w.at];
    Log(log.files[w.at := f.(entries := f.entries + [e])],
        Some(Writer(w.at, e.entryHash, w.sequence + 1, w.bytes + |n.encode(e)| + 1)))
  }

  lemma {:induction false} GrownWriter(n: Node, log: Log, e: Entry)
    requires log.writer.Some? && WriterAtHead(n, log.files, log.writer.value)
    ensures
      var next := Grown(n, log, e);
      && Flatten(next.files) == Flatten(log.files) + [e]
      && WriterAtHead(n, next.files, next.writer.value)
  {
    var w := log.writer.value;
    FlattenAppend(log.files, w.at, e);
    RenderSnoc(n, log.files[w.at].entries, e);
  }

  lemma {:induction false} GrownNames(n: Node, log: Log, e: Entry)
    requires log.writer.Some? && WriterAtHead(n, log.files, log.writer.value)
    requires AllNamed(log.files)
    requires e.sequence == log.writer.value.sequence + 1
    ensures AllNamed(Grown(n, log, e).files)
  {
    var w := log.writer.value;
    var f := log.files[w.at];
    assert WellNamed(f);
    assert (f.entries + [e])[0] == if f.entries == [] then e else f.entries[0];
  }

  lemma {:induction false} GrownIsSound(n: Node, log: Log, id: string, timestamp: string, payload: Bytes)
    requires Signs(n) && Inv(n, log) && log.writer.Some?
    ensures
      var w := log.writer.value;
      var e := NextEntry(n, w.lastHash, w.sequence, id, timestamp, payload);
      Inv(n, Grown(n, log, e)) && Flatten(Grown(n, log, e).files) == Flatten(log.files) + [e]
  {
    var w := log.writer.value;
    var e := NextEntry(n, w.lastHash, w.sequence, id, timestamp, payload);
    ChainGrows(n, Flatten(log.files), id, timestamp, payload);
    GrownWriter(n, log, e);
    GrownNames(n, log, e);
  }

  /** A fresh segment named for the next sequence number, written to from now on. */
  function Rotated(log: Log, rest: string): Log
    requires log.writer.Some?
  {
    var w := log.writer.value;
    Log(log.files + [LogFile(w.sequence + 1, rest, [])], Some(w.(at := |log.files|, bytes := 0)))
  }

  lemma {:induction false} RotationKeeps(n: Node, log: Log, rest: string)
    requires Inv(n, log) && log.writer.Some? && log.writer.value.sequence < MAX_SEQUENCE
    ensures Inv(n, Rotated(log, rest)) && Flatten(Rotated(log, rest).files) == Flatten(log.files)
  {
    FlattenNewFile(log.files, LogFile(log.writer.value.sequence + 1, rest, []));
  }

  lemma {:induction false} AppendKeeps(n: Node, log: Log, id: string, timestamp: string, payload: Bytes, rest: string)
    requires Signs(n) && Inv(n, log) && log.writer.Some? && log.writer.value.sequence + 2 <= MAX_SEQUENCE
    ensures
      var next := AfterAppend(n, log, id, timestamp, payload, rest);
      && Inv(n, next) && next.writer.Some?
      && Flatten(next.files) == Flatten(log.files)
           + [NextEntry(n, log.writer.value.lastHash, log.writer.value.sequence, id, timestamp, payload)]
  {
    GrownIsSound(n, log, id, timestamp, payload);
    var w := log.writer.value;
    var grown := Grown(n, log, NextEntry(n, w.lastHash, w.sequence, id, timestamp, payload));
    RotationKeeps(n, grown, rest);
    AppendIsGrown(n, log, id, timestamp, payload, rest);
  }

  lemma {:induction false} AppendIsGrown(n: Node, log: Log, id: string, timestamp: string, payload: Bytes, rest: string)
    requires log.writer.Some? && log.writer.value.at < |log.files|
    ensures
      var w := log.writer.value;
      var grown := Grown(n, log, NextEntry(n, w.lastHash, w.sequence, id, timestamp, payload));
      AfterAppend(n, log, id, timestamp, payload, rest)
      == if grown.writer.value.bytes >= n.maxFileBytes then Rotated(grown, rest) else grown
  {
  }

  /** Whatever else holds, the entry written goes at the end of the log. */
  lemma {:induction false} AppendLengthens(n: Node, log: Log, id: string, timestamp: string, payload: Bytes, rest: string)
    requires log.writer.Some? && log.writer.value.at < |log.files|
    requires Flatten(log.files[log.writer.value.at + 1..]) == []
    ensures Flatten(AfterAppend(n, log, id, timestamp, payload, rest).files) == Flatten(log.files)
              + [NextEntry(n, log.writer.value.lastHash, log.writer.value.sequence, id, timestamp, payload)]
  {
    var w := log.writer.value;
    var e := NextEntry(n, w.lastHash, w.sequence, id, timestamp, payload);
    FlattenAppend(log.files, w.at, e);
    FlattenNewFile(Grown(n, log, e).files, LogFile(w.sequence + 2, rest, []));
  }

  // ----- Crashing keeps the invariant -----

  lemma {:induction false} SurvivingIsPrefix(files: seq<LogFile>, keep: nat)
    ensures Flatten(Surviving(files, keep)) ==
              if keep <= |Flatten(files)| then Flatten(files)[..keep] else Flatten(files)
    ensures |Surviving(files, keep)| == |files|
    ensures forall k :: 0 <= k < |files| ==>
              && Surviving(files, keep)[k].first == files[k].first
              && Surviving(files, keep)[k].entries <= files[k].entries
    decreases |files|
  {
    if files != [] {
      var f := files[0];
      var left := if |f.entries| <= keep then keep - |f.entries| else 0;
      SurvivingIsPrefix(files[1..], left);
      var rest := Surviving(files[1..], left);
      assert Surviving(files, keep)[1..] == rest;
      assert Flatten(files) == f.entries + Flatten(files[1..]);
    }
  }

  lemma {:induction false} RemainingIsSame(files: seq<LogFile>, gone: set<LogFile>)
    ensures Flatten(Remaining(files, gone)) == Flatten(files)
    ensures forall k :: 0 <= k < |Remaining(files, gone)| ==> Remaining(files, gone)[k] in files
    decreases |files|
  {
    if files != [] {
      RemainingIsSame(files[1..], gone);
      if !(files[0].entries == [] && files[0] in gone) {
        assert Remaining(files, gone)[1..] == Remaining(files[1..], gone);
      }
    }
  }

  lemma {:induction false} CrashKeeps(n: Node, log: Log, keep: nat, gone: set<LogFile>)
    requires Inv(n, log)
    ensures Inv(n, Log(Remaining(Surviving(log.files, keep), gone), None))
  {
    var cut := Surviving(log.files, keep);
    SurvivingIsPrefix(log.files, keep);
    RemainingIsSame(cut, gone);
    if keep <= |Flatten(log.files)| {
      ChainPrefix(n, Flatten(log.files), keep);
    }
    forall k | 0 <= k < |cut| ensures WellNamed(cut[k]) {
      assert WellNamed(log.files[k]);
    }
  }

  // ----- Opening keeps the invariant -----

  /** Segment `at` holds the last entry of the log, and none follows it. */
  ghost predicate HoldsHead(files: seq<LogFile>, at: nat) {
    && at < |files| && files[at].entries != [] && Flatten(files[at + 1..]) == []
    && Flatten(files) != []
    && files[at].entries[|files[at].entries| - 1] == Flatten(files)[|Flatten(files)| - 1]
  }

  lemma {:induction false} HeadInLast(files: seq<LogFile>)
    requires files != [] && files[|files| - 1].entries != []
    ensures HoldsHead(files, |files| - 1)
  {
    FlattenAt(files, |files| - 1);
    assert files[|files|..] == [];
  }

  lemma {:induction false} HeadBeforeLast(older: seq<LogFile>, last: LogFile, at: nat)
    requires last.entries == [] && HoldsHead(older, at)
    ensures HoldsHead(older + [last], at)
  {
    FlattenNewFile(older, last);
    FlattenNewFile(older[at + 1..], last);
    assert (older + [last])[at + 1..] == older[at + 1..] + [last];
    assert (older + [last])[at] == older[at];
  }

  lemma {:induction false} LastUsedIsHead(files: seq<LogFile>)
    ensures LastUsed(files).None? <==> Flatten(files) == []
    ensures LastUsed(files).Some? ==> HoldsHead(files, LastUsed(files).value)
    decreases |files|
  {
    if files != [] {
      var older, last := files[..|files| - 1], files[|files| - 1];
      if last.entries != [] {
        HeadInLast(files);
      } else {
        LastUsedIsHead(older);
        assert files == older + [last];
        FlattenNewFile(older, last);
        if LastUsed(older).Some? {
          HeadBeforeLast(older, last, LastUsed(older).value);
        }
      }
    }
  }

  lemma {:induction false} FirstOpenKeeps(n: Node, files: seq<LogFile>, id: string, timestamp: string, boot: Bytes, rest: string, next: string)
    requires Signs(n) && Inv(n, Log(files, None)) && Flatten(files) == []
    ensures
      var start := Log(files + [LogFile(1, rest, [])], Some(Writer(|files|, GenesisHash(n.sha, n.deployment), 0, 0)));
      var log := AfterAppend(n, start, id, timestamp, boot, next);
      Inv(n, log) && log.writer.Some? && log.writer.value.sequence == 1
  {
    var f := LogFile(1, rest, []);
    FlattenNewFile(files, f);
    var start := Log(files + [f], Some(Writer(|files|, GenesisHash(n.sha, n.deployment), 0, 0)));
    assert start.files[|files|] == f;
    AppendKeeps(n, start, id, timestamp, boot, next);
  }

  lemma {:induction false} ChainEnds(n: Node, es: seq<Entry>)
    requires Chain(n, es) && es != []
    ensures es[|es| - 1].sequence == |es|
  {
    assert SoundAt(n, es, |es| - 1);
  }

  lemma {:induction false} HeadWriter(n: Node, files: seq<LogFile>, at: nat)
    requires HoldsHead(files, at) && files[at].entries[|files[at].entries| - 1].sequence == |Flatten(files)|
    ensures WriterAtHead(n, files, ResumeAt(n, files, at))
  {
  }

  lemma {:induction false} ResumeAtHead(n: Node, files: seq<LogFile>, at: nat)
    requires Chain(n, Flatten(files)) && HoldsHead(files, at)
    ensures WriterAtHead(n, files, ResumeAt(n, files, at)) && ResumeAt(n, files, at).sequence > 0
  {
    ChainEnds(n, Flatten(files));
    HeadWriter(n, files, at);
  }

  lemma {:induction false} OpenKeeps(
      n: Node, files: seq<LogFile>, id: string, timestamp: string, boot: Bytes, rest: string, next: string)
    requires Signs(n) && Inv(n, Log(files, None))
    ensures
      var log := AfterOpen(n, files, id, timestamp, boot, rest, next);
      && Inv(n, log)
      && (log.writer.Some? <==> forall f :: f in files ==> !TooLongToResume(n, f))
      && (log.writer.Some? ==> log.writer.value.sequence > 0)
  {
    LastUsedIsHead(files);
    match LastUsed(files)
    case None => FirstOpenKeeps(n, files, id, timestamp, boot, rest, next);
    case Some(at) => ResumeAtHead(n, files, at);
  }

  // ----- Every run -----

  datatype Step =
    | Append(id: string, timestamp: string, payload: Bytes, rest: string)
    | Close
    | Crash(keep: nat, gone: set<LogFile>)
    | Open(bootId: string, bootTime: string, boot: Bytes, rest: string, next: string)

  /** Appending to a closed log and opening an open one are refused. */
  function After(n: Node, log: Log, step: Step): Log
    requires log.writer.Some? ==> log.writer.value.at < |log.files|
  {
    match step
    case Append(id, timestamp, payload, rest) =>
      if log.writer.Some? then AfterAppend(n, log, id, timestamp, payload, rest) else log
    case Close => log.(writer := None)
    case Crash(keep, gone) => Log(Remaining(Surviving(log.files, keep), gone), None)
    case Open(id, timestamp, boot, rest, next) =>
      if log.writer.Some? then log else AfterOpen(n, log.files, id, timestamp, boot, rest, next)
  }

  /** Sequence numbers stay within 64 bits. */
  predicate InRange(log: Log) {
    log.writer.Some? ==> log.writer.value.sequence + 2 <= MAX_SEQUENCE
  }

  /** An open log holds at least its boot entry. */
  predicate Begun(log: Log) {
    log.writer.Some? ==> log.writer.value.sequence > 0
  }

  lemma {:induction false} StepKeeps(n: Node, log: Log, step: Step)
    requires Signs(n) && Inv(n, log) && InRange(log) && Begun(log)
    ensures Inv(n, After(n, log, step)) && Begun(After(n, log, step))
  {
    match step
    case Append(id, timestamp, payload, rest) =>
      if log.writer.Some? {
        AppendKeeps(n, log, id, timestamp, payload, rest);
      }
    case Close =>
    case Crash(keep, gone) => CrashKeeps(n, log, keep, gone);
    case Open(id, timestamp, boot, rest, next) =>
      if log.writer.None? {
        OpenKeeps(n, log.files, id, timestamp, boot, rest, next);
      }
  }

  /** `logs` is a run from an empty directory. */
  ghost predicate IsRun(n: Node, logs: seq<Log>, steps: seq<Step>) {
    && |logs| == |steps| + 1 && logs[0] == Log([], None)
    && forall k :: 0 <= k < |steps| ==> RunsTo(n, logs[k], steps[k], logs[k + 1])
  }

  ghost predicate RunsTo(n: Node, log: Log, step: Step, next: Log) {
    && (log.writer.Some? ==> log.writer.value.at < |log.files|)
    && InRange(log) && next == After(n, log, step)
  }

  lemma {:induction false} EveryRunKeepsInv(n: Node, logs: seq<Log>, steps: seq<Step>, k: nat)
    requires Signs(n) && IsRun(n, logs, steps) && k < |logs|
    ensures Inv(n, logs[k]) && Begun(logs[k])
    decreases k
  {
    if k > 0 {
      EveryRunKeepsInv(n, logs, steps, k - 1);
      assert RunsTo(n, logs[k - 1], steps[k - 1], logs[k]);
      StepKeeps(n, logs[k - 1], steps[k - 1]);
    }
  }
}
