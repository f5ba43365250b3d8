/** Reading the log back: resuming at the chain head, the full read and the
    tail read, over a directory listed in any order. */
module LogReaders {
  import opened Prelude
  import opened AuditChain
  import opened Sorting
  import opened SegmentNames
  import opened LastEntry
  import opened AuditVerify
  import opened AuditLog

  predicate ByFileName(a: LogFile, b: LogFile) {
    LexLE(Name(a.first, a.rest), Name(b.first, b.rest))
  }

  /** Every segment, in filename order. */
  function LogFiles(listing: seq<LogFile>): (r: seq<LogFile>)
    ensures multiset(r) == multiset(listing)
  {
    Sort(ByFileName, listing)
  }

  lemma {:induction false} FileNamesAreTotalPreorder()
    ensures TotalPreorder(ByFileName)
  {
    forall a, b ensures ByFileName(a, b) || ByFileName(b, a) {
      LexTotal(Name(a.first, a.rest), Name(b.first, b.rest));
    }
    forall a, b, c | ByFileName(a, b) && ByFileName(b, c) ensures ByFileName(a, c) {
      LexTransitive(Name(a.first, a.rest), Name(b.first, b.rest), Name(c.first, c.rest));
    }
  }

  // ----- Filename order is chain order -----

  function FirstOf(f: LogFile): nat {
    f.first
  }

  function Used(files: seq<LogFile>): (r: seq<LogFile>)
    ensures forall f :: f in r ==> f in files && f.entries != []
  {
    if files == [] then []
    else (if files[0].entries == [] then [] else [files[0]]) + Used(files[1..])
  }

  lemma {:induction false} CountCons<T>(x: T, rest: seq<T>, y: T)
    ensures multiset([x] + rest)[y] == (if x == y then 1 else 0) + multiset(rest)[y]
  {
  }

  lemma {:induction false} UsedCons(files: seq<LogFile>, f: LogFile)
    requires files != []
    ensures multiset(Used(files))[f]
            == (if files[0] == f && f.entries != [] then 1 else 0) + multiset(Used(files[1..]))[f]
  {
    var rest := Used(files[1..]);
    if files[0].entries == [] {
      assert Used(files) == rest;
    } else {
      CountCons(files[0], rest, f);
    }
  }

  lemma {:induction false} UsedCount(files: seq<LogFile>, f: LogFile)
    ensures multiset(Used(files))[f] == if f.entries == [] then 0 else multiset(files)[f]
    decreases |files|
  {
    if files != [] {
      UsedCount(files[1..], f);
      UsedCons(files, f);
      CountCons(files[0], files[1..], f);
      assert files == [files[0]] + files[1..];
    }
  }

  lemma {:induction false} FlattenUsed(files: seq<LogFile>)
    ensures Flatten(Used(files)) == Flatten(files)
    decreases |files|
  {
    if files != [] {
      FlattenUsed(files[1..]);
      if files[0].entries == [] {
        assert Used(files) == Used(files[1..]);
      } else {
        assert Used(files)[1..] == Used(files[1..]);
      }
    }
  }

  ghost predicate Numbered(es: seq<Entry>, base: nat) {
    forall i :: 0 <= i < |es| ==> es[i].sequence == base + i + 1
  }

  lemma {:induction false} NumberedParts(a: seq<Entry>, b: seq<Entry>, base: nat)
    requires Numbered(a + b, base)
    ensures Numbered(b, base + |a|) && (a != [] ==> a[0].sequence == base + 1)
  {
    forall i | 0 <= i < |b| ensures b[i].sequence == base + |a| + i + 1 {
      assert (a + b)[|a| + i] == b[i];
    }
    assert a != [] ==> (a + b)[0] == a[0];
  }

  ghost predicate AllAfter(files: seq<LogFile>, base: nat) {
    forall k :: 0 <= k < |files| ==> FirstOf(files[k]) > base
  }

  lemma {:induction false} RisingCons(f: LogFile, rest: seq<LogFile>)
    requires Rising(FirstOf, rest) && AllAfter(rest, f.first)
    ensures Rising(FirstOf, [f] + rest)
  {
  }

  lemma {:induction false} UsedRises(files: seq<LogFile>, base: nat)
    requires Numbered(Flatten(files), base) && AllNamed(files)
    ensures Rising(FirstOf, Used(files)) && AllAfter(Used(files), base)
    decreases |files|
  {
    if files != [] {
      var f, rest := files[0], Used(files[1..]);
      NumberedParts(f.entries, Flatten(files[1..]), base);
      UsedRises(files[1..], base + |f.entries|);
      assert WellNamed(f);
      if f.entries != [] {
        RisingCons(f, rest);
      }
    }
  }

  lemma {:induction false} UsedKeepsOrder(files: seq<LogFile>)
    requires NonFalling(FirstOf, files)
    ensures NonFalling(FirstOf, Used(files))
    decreases |files|
  {
    if files != [] {
      UsedKeepsOrder(files[1..]);
      forall k | 0 <= k < |Used(files[1..])| ensures files[0].first <= Used(files[1..])[k].first {
        assert Used(files[1..])[k] in files[1..];
        var p :| 0 <= p < |files[1..]| && files[1..][p] == Used(files[1..])[k];
        assert FirstOf(files[0]) <= FirstOf(files[p + 1]);
      }
    }
  }

  lemma {:induction false} SortedByNumber(listing: seq<LogFile>)
    requires AllNamed(listing)
    ensures NonFalling(FirstOf, LogFiles(listing))
  {
    FileNamesAreTotalPreorder();
    SortSorts(ByFileName, listing);
    var s := LogFiles(listing);
    forall i, j | 0 <= i < j < |s| ensures FirstOf(s[i]) <= FirstOf(s[j]) {
      assert s[i] in multiset(listing) && s[j] in multiset(listing);
      assert WellNamed(s[i]) && WellNamed(s[j]);
      assert ByFileName(s[i], s[j]);
      if s[j].first < s[i].first {
        NamesSortByNumber(s[i].first, s[j].first, s[i].rest, s[j].rest);
      }
    }
  }

  ghost predicate Lists(listing: seq<LogFile>, files: seq<LogFile>) {
    multiset(listing) == multiset(files)
  }

  lemma {:induction false} ListedNames(listing: seq<LogFile>, files: seq<LogFile>)
    requires Lists(listing, files) && AllNamed(files)
    ensures AllNamed(listing)
  {
    forall k | 0 <= k < |listing| ensures WellNamed(listing[k]) {
      assert listing[k] in multiset(files);
    }
  }

  lemma {:induction false} SameUsed(a: seq<LogFile>, b: seq<LogFile>)
    requires multiset(a) == multiset(b)
    ensures multiset(Used(a)) == multiset(Used(b))
  {
    forall f ensures multiset(Used(a))[f] == multiset(Used(b))[f] {
      UsedCount(a, f);
      UsedCount(b, f);
    }
  }

  /** Through rotations, crashes and resumes, reading the segments in filename
      order reads the chain in order. */
  lemma {:induction false} FilenameOrderIsChainOrder(n: Node, log: Log, listing: seq<LogFile>)
    requires Inv(n, log) && Lists(listing, log.files)
    ensures Flatten(LogFiles(listing)) == Flatten(log.files)
  {
    var es := Flatten(log.files);
    assert Numbered(es, 0) by {
      forall i | 0 <= i < |es| ensures es[i].sequence == i + 1 {
        assert SoundAt(n, es, i);
      }
    }
    UsedRises(log.files, 0);
    ListedNames(listing, log.files);
    SortedByNumber(listing);
    UsedKeepsOrder(LogFiles(listing));
    SameUsed(log.files, LogFiles(listing));
    UniqueOrder(FirstOf, Used(log.files), Used(LogFiles(listing)));
    FlattenUsed(log.files);
    FlattenUsed(LogFiles(listing));
  }

  // ----- The readers -----

  function LastN(es: seq<Entry>, k: nat): seq<Entry> {
    if k >= |es| then es else es[|es| - k..]
  }

  lemma {:induction false} FlattenStep(files: seq<LogFile>, i: nat)
    requires i < |files|
    ensures Flatten(files[..i + 1]) == Flatten(files[..i]) + files[i].entries
  {
    FlattenSplit(files[..i + 1], i);
    assert files[..i + 1][..i] == files[..i] && files[..i + 1][i..] == [files[i]];
    FlattenOne(files[i]);
  }

  /** Every entry of every segment, by sequence number. */
  method ReadAllEntries(ghost n: Node, listing: seq<LogFile>) returns (r: seq<Entry>)
    ensures NonFalling(SequenceOf, r) && multiset(r) == multiset(Flatten(LogFiles(listing)))
    ensures Chain(n, Flatten(LogFiles(listing))) ==> r == Flatten(LogFiles(listing))
  {
    var files := LogFiles(listing);
    var entries := [];
    for i := 0 to |files|
      invariant entries == Flatten(files[..i])
    {
      FlattenStep(files, i);
      entries := entries + files[i].entries;
    }
    assert files[..|files|] == files;
    SortedBySequence(entries);
    if Chain(n, entries) {
      SortRestoresChain(n, entries, entries);
    }
    r := Sort(BySequence, entries);
  }

  /** `collected` is the end of `all`, last entry first. */
  ghost predicate TakenFromEnd(collected: seq<Entry>, all: seq<Entry>) {
    |collected| <= |all| && forall k :: 0 <= k < |collected| ==> collected[k] == all[|all| - 1 - k]
  }

  lemma {:induction false} LastNStep(all: seq<Entry>, k: nat)
    requires k < |all|
    ensures multiset(LastN(all, k + 1)) == multiset(LastN(all, k)) + multiset{all[|all| - 1 - k]}
  {
    var tail := all[|all| - k..];
    assert LastN(all, k) == tail;
    assert LastN(all, k + 1) == [all[|all| - 1 - k]] + tail;
  }

  lemma {:induction false} TakenIsLastN(collected: seq<Entry>, all: seq<Entry>)
    requires TakenFromEnd(collected, all)
    ensures multiset(collected) == multiset(LastN(all, |collected|))
    decreases |collected|
  {
    if collected == [] {
      assert LastN(all, 0) == [];
    } else {
      var k := |collected| - 1;
      var fewer := collected[..k];
      TakenIsLastN(fewer, all);
      LastNStep(all, k);
      assert collected == fewer + [collected[k]];
    }
  }

  lemma {:induction false} ChainTail(n: Node, all: seq<Entry>, xs: seq<Entry>, k: nat)
    requires Chain(n, all) && multiset(xs) == multiset(LastN(all, k))
    ensures Sort(BySequence, xs) == LastN(all, k)
  {
    ChainRises(n, all);
    SortedBySequence(xs);
    UniqueOrder(SequenceOf, LastN(all, k), Sort(BySequence, xs));
  }

  /** Where an entry of one segment sits in the whole log. */
  lemma {:induction false} EntryAt(files: seq<LogFile>, i: nat, j: nat)
    requires i < |files| && j < |files[i].entries|
    ensures
      var all := Flatten(files);
      var after := |Flatten(files[i + 1..])| + |files[i].entries| - 1 - j;
      0 <= |all| - 1 - after < |all| && all[|all| - 1 - after] == files[i].entries[j]
  {
    FlattenAt(files, i);
  }

  lemma {:induction false} FlattenFrom(files: seq<LogFile>, i: nat)
    requires i < |files|
    ensures |Flatten(files[i..])| == |files[i].entries| + |Flatten(files[i + 1..])|
    ensures |Flatten(files[i..])| <= |Flatten(files)|
  {
    assert files[i..][1..] == files[i + 1..];
    FlattenSplit(files, i);
  }

  /** The entries of one segment, newest first, until `k` are in hand. */
  method CollectFile(files: seq<LogFile>, i: nat, k: nat, before: seq<Entry>) returns (r: seq<Entry>)
    requires i < |files| && |before| < k
    requires TakenFromEnd(before, Flatten(files)) && |before| == |Flatten(files[i + 1..])|
    ensures TakenFromEnd(r, Flatten(files))
    ensures |r| == k || (|r| < k && |r| == |Flatten(files[i..])|)
  {
    FlattenFrom(files, i);
    r := before;
    var es := files[i].entries;
    var j := |es|;
    while j > 0
      invariant 0 <= j <= |es| && |r| < k
      invariant |r| == |before| + |es| - j && TakenFromEnd(r, Flatten(files))
    {
      j := j - 1;
      EntryAt(files, i, j);
      r := r + [es[j]];
      if |r| >= k {
        break;
      }
    }
  }

  lemma {:induction false} TailIsSorted(n: Node, all: seq<Entry>, collected: seq<Entry>, k: nat)
    requires TakenFromEnd(collected, all) && (|collected| == k || (|collected| < k && |collected| == |all|))
    ensures
      var r := Sort(BySequence, collected);
      && NonFalling(SequenceOf, r) && multiset(r) == multiset(LastN(all, k))
      && (Chain(n, all) ==> r == LastN(all, k))
  {
    TakenIsLastN(collected, all);
    assert LastN(all, |collected|) == LastN(all, k);
    SortedBySequence(collected);
    if Chain(n, all) {
      ChainTail(n, all, collected, k);
    }
  }

  /** The most recent `k` entries, visiting segments newest first. */
  method ReadTailEntries(ghost n: Node, listing: seq<LogFile>, k: nat) returns (r: seq<Entry>)
    ensures NonFalling(SequenceOf, r) && multiset(r) == multiset(LastN(Flatten(LogFiles(listing)), k))
    ensures Chain(n, Flatten(LogFiles(listing))) ==> r == LastN(Flatten(LogFiles(listing)), k)
  {
    var files := LogFiles(listing);
    ghost var all := Flatten(files);
    if k == 0 {
      assert LastN(all, 0) == [];
      return [];
    }
    var collected := [];
    var i := |files|;
    assert files[|files|..] == [] && files[0..] == files;
    while i > 0 && |collected| < k
      invariant 0 <= i <= |files| && |collected| <= k
      invariant TakenFromEnd(collected, all)
      invariant |collected| < k ==> |collected| == |Flatten(files[i..])|
    {
      i := i - 1;
      collected := CollectFile(files, i, k, collected);
    }
    TailIsSorted(n, all, collected, k);
    r := Sort(BySequence, collected);
  }

  /** Tail read refines full read, for every log a run can leave: with the
      readers' contracts, the tail is the last `k` of all the entries, and all
      the entries are the chain. */
  lemma {:induction false} ReadersSeeTheChain(n: Node, logs: seq<Log>, steps: seq<Step>, at: nat, listing: seq<LogFile>)
    requires Signs(n) && IsRun(n, logs, steps) && at < |logs| && Lists(listing, logs[at].files)
    ensures Chain(n, Flatten(LogFiles(listing)))
    ensures Flatten(LogFiles(listing)) == Flatten(logs[at].files)
  {
    EveryRunKeepsInv(n, logs, steps, at);
    FilenameOrderIsChainOrder(n, logs[at], listing);
  }

  // ----- Resuming -----

  datatype Found = Failed | Nothing | Resume(file: LogFile, lastHash: string, sequence: nat)

  function LastOf(f: LogFile): Entry
    requires f.entries != []
  {
    f.entries[|f.entries| - 1]
  }

  /** `best` is the used segment, among these, with the greatest last number. */
  ghost predicate Newest(files: seq<LogFile>, best: Found) {
    match best
    case Failed => false
    case Nothing => forall f :: f in files ==> f.entries == []
    case Resume(file, lastHash, sequence) =>
      && file in files && file.entries != []
      && lastHash == LastOf(file).entryHash && sequence == LastOf(file).sequence
      && forall f :: f in files && f.entries != [] ==> LastOf(f).sequence <= sequence
  }

  /** Reading the last entry back from the bytes of a segment. */
  method ReadLast(n: Node, f: LogFile) returns (r: Reading)
    requires LineFormat(n)
    ensures f.entries == [] ==> r == Reading.Empty
    ensures f.entries != [] ==> r == if TooLongToResume(n, f) then Broken else Reading.Found(LastOf(f))
  {
    RenderEnds(n, f.entries);
    if f.entries != [] {
      LastEntryIsReadIffItFits(n, f.entries);
    }
    r := ReadLastEntry(n, Render(n, f.entries));
  }

  /** The better of the newest so far and one more segment. */
  function Better(best: Found, f: LogFile): Found {
    if f.entries == [] then best
    else if best.Nothing? || (best.Resume? && LastOf(f).sequence > best.sequence) then
      Resume(f, LastOf(f).entryHash, LastOf(f).sequence)
    else best
  }

  function NewestOf(files: seq<LogFile>): Found {
    if files == [] then Nothing else Better(NewestOf(files[..|files| - 1]), files[|files| - 1])
  }

  lemma {:induction false} BetterIsNewest(files: seq<LogFile>, best: Found, f: LogFile)
    requires Newest(files, best)
    ensures Newest(files + [f], Better(best, f))
  {
  }

  lemma {:induction false} NewestOfIsNewest(files: seq<LogFile>)
    ensures Newest(files, NewestOf(files))
    decreases |files|
  {
    if files != [] {
      var older := files[..|files| - 1];
      NewestOfIsNewest(older);
      BetterIsNewest(older, NewestOf(older), files[|files| - 1]);
      assert files == older + [files[|files| - 1]];
    }
  }

  lemma {:induction false} NewestOfStep(files: seq<LogFile>, i: nat)
    requires i < |files|
    ensures NewestOf(files[..i + 1]) == Better(NewestOf(files[..i]), files[i])
  {
    assert files[..i + 1][..i] == files[..i];
  }

  ghost predicate NoneTooLong(n: Node, files: seq<LogFile>) {
    forall k :: 0 <= k < |files| ==> !TooLongToResume(n, files[k])
  }

  /** One pass over the segments in filename order. */
  method ScanSegments(n: Node, files: seq<LogFile>) returns (r: Found)
    requires LineFormat(n)
    ensures r == if NoneTooLong(n, files) then NewestOf(files) else Failed
  {
    r := Nothing;
    for i := 0 to |files|
      invariant r == NewestOf(files[..i])
      invariant NoneTooLong(n, files[..i])
    {
      NewestOfStep(files, i);
      var last := ReadLast(n, files[i]);
      match last {
        case Broken => return Failed;
        case Empty =>
        case Found(e) =>
          if r.Nothing? || (r.Resume? && e.sequence > r.sequence) {
            r := Resume(files[i], e.entryHash, e.sequence);
          }
      }
    }
    assert files[..|files|] == files;
  }

  /** The segment with the greatest last sequence number; fails if some last
      entry cannot be read back. */
  method FindExisting(n: Node, listing: seq<LogFile>) returns (r: Found)
    requires LineFormat(n)
    ensures r.Failed? <==> exists f :: f in listing && TooLongToResume(n, f)
    ensures !r.Failed? ==> Newest(listing, r)
  {
    var files := LogFiles(listing);
    r := ScanSegments(n, files);
    SameMembers(files, listing);
    NewestOfIsNewest(files);
    NewestCarries(files, listing, NewestOf(files));
    if NoneTooLong(n, files) {
      assert forall f :: f in files ==> !TooLongToResume(n, f);
    } else {
      var k :| 0 <= k < |files| && TooLongToResume(n, files[k]);
      assert files[k] in files;
    }
  }

  lemma {:induction false} NewestCarries(a: seq<LogFile>, b: seq<LogFile>, r: Found)
    requires Newest(a, r) && forall f :: f in a <==> f in b
    ensures Newest(b, r)
  {
  }

  lemma {:induction false} SameMembers(a: seq<LogFile>, b: seq<LogFile>)
    requires multiset(a) == multiset(b)
    ensures forall f :: f in a <==> f in b
  {
    forall f ensures f in a <==> f in b {
      assert f in a <==> f in multiset(a);
      assert f in b <==> f in multiset(b);
    }
  }

  /** The last entry of a used segment sits where its number says. */
  lemma {:induction false} LastSitsAt(n: Node, files: seq<LogFile>, at: nat)
    requires Chain(n, Flatten(files)) && at < |files| && files[at].entries != []
    ensures LastOf(files[at]).sequence + |Flatten(files[at + 1..])| == |Flatten(files)|
  {
    FlattenAt(files, at);
    var p := |Flatten(files[..at])| + |files[at].entries| - 1;
    assert Flatten(files)[p] == LastOf(files[at]);
    assert SoundAt(n, Flatten(files), p);
  }

  lemma {:induction false} GreatestIsLast(n: Node, files: seq<LogFile>, at: nat)
    requires Chain(n, Flatten(files)) && at < |files| && files[at].entries != []
    requires forall f :: f in files && f.entries != [] ==> LastOf(f).sequence <= LastOf(files[at]).sequence
    ensures Flatten(files[at + 1..]) == []
  {
    LastSitsAt(n, files, at);
    LastUsedIsHead(files);
    if LastUsed(files).Some? {
      var head := LastUsed(files).value;
      LastSitsAt(n, files, head);
      assert files[head] in files;
    } else {
      FlattenAt(files, at);
    }
  }

  /** Only the youngest used segment ends in the head of the chain. */
  lemma {:induction false} GreatestIsHead(n: Node, files: seq<LogFile>, at: nat)
    requires Chain(n, Flatten(files)) && at < |files| && files[at].entries != []
    requires forall f :: f in files && f.entries != [] ==> LastOf(f).sequence <= LastOf(files[at]).sequence
    ensures LastUsed(files) == Some(at)
  {
    GreatestIsLast(n, files, at);
    EmptyAfter(files, at);
    LastUsedFrom(files, at);
  }

  lemma {:induction false} EmptyAfter(files: seq<LogFile>, at: nat)
    requires at < |files| && Flatten(files[at + 1..]) == []
    ensures forall k :: at < k < |files| ==> files[k].entries == []
  {
    forall k | at < k < |files| ensures files[k].entries == [] {
      EmptyIfFlat(files[at + 1..], k - at - 1);
    }
  }

  lemma {:induction false} EmptyIfFlat(files: seq<LogFile>, k: nat)
    requires Flatten(files) == [] && k < |files|
    ensures files[k].entries == []
  {
    FlattenAt(files, k);
  }

  lemma {:induction false} LastUsedFrom(files: seq<LogFile>, at: nat)
    requires at < |files| && files[at].entries != []
    requires forall k :: at < k < |files| ==> files[k].entries == []
    ensures LastUsed(files) == Some(at)
    decreases |files|
  {
    if at < |files| - 1 {
      LastUsedFrom(files[..|files| - 1], at);
    }
  }

  /** No segment after this one holds an entry. */
  ghost predicate IsLastUsed(files: seq<LogFile>, at: nat) {
    at < |files| && Flatten(files[at + 1..]) == []
  }

  /** One entry more, at the end of the log. */
  ghost predicate Lengthened(before: seq<LogFile>, after: seq<LogFile>, e: Entry) {
    Flatten(after) == Flatten(before) + [e]
  }

  lemma {:induction false} AppendedAtEnd(n: Node, log: Log, id: string, timestamp: string, payload: Bytes, rest: string)
    requires log.writer.Some? && IsLastUsed(log.files, log.writer.value.at)
    ensures Lengthened(log.files, AfterAppend(n, log, id, timestamp, payload, rest).files,
                       NextEntry(n, log.writer.value.lastHash, log.writer.value.sequence, id, timestamp, payload))
  {
    AppendLengthens(n, log, id, timestamp, payload, rest);
  }

  /** The log object. Segments are listed on open in whatever order the
      directory gives them. */
  class AuditWriter {
    const n: Node
    var files: seq<LogFile>
    var writer: Option<Writer>

    ghost function View(): Log
      reads this
    {
      Log(files, writer)
    }

    constructor (n: Node, files: seq<LogFile>)
      ensures this.n == n && View() == Log(files, None)
    {
      this.n, this.files, writer := n, files, None;
    }

    /** Append one entry and rotate once the segment is full. */
    method Append(id: string, timestamp: string, payload: Bytes, rest: string) returns (entry: Option<Entry>)
      requires writer.Some? ==> writer.value.at < |files|
      modifies this
      ensures old(writer).None? ==> entry.None? && View() == old(View())
      ensures old(writer).Some? ==>
                && View() == AfterAppend(n, old(View()), id, timestamp, payload, rest)
                && entry == Some(NextEntry(n, old(writer).value.lastHash, old(writer).value.sequence, id, timestamp, payload))
                && entry.value.logId == id && entry.value.timestamp == timestamp && entry.value.payload == payload
      ensures old(writer).Some? && IsLastUsed(old(files), old(writer).value.at) ==>
                Lengthened(old(files), files, entry.value)
    {
      if writer.None? {
        return None;
      }
      var w := writer.value;
      if IsLastUsed(files, w.at) {
        AppendedAtEnd(n, View(), id, timestamp, payload, rest);
      }
      var payloadHash := n.sha(payload);
      var entryHash := n.sha(Preimage(w.lastHash, timestamp, payloadHash));
      var e := Entry(id, timestamp, payloadHash, entryHash, n.sign(entryHash), payload, w.sequence + 1);
      files := files[w.at := files[w.at].(entries := files[w.at].entries + [e])];
      writer := Some(Writer(w.at, entryHash, w.sequence + 1, w.bytes + |n.encode(e)| + 1));
      if writer.value.bytes >= n.maxFileBytes {
        Rotate(rest);
      }
      entry := Some(e);
    }

    method Rotate(rest: string)
      requires writer.Some?
      modifies this
      ensures files == old(files) + [LogFile(old(writer).value.sequence + 1, rest, [])]
      ensures writer == Some(old(writer).value.(at := |old(files)|, bytes := 0))
    {
      files := files + [LogFile(writer.value.sequence + 1, rest, [])];
      writer := Some(writer.value.(at := |files| - 1, bytes := 0));
    }

    /** Resume at the head of the chain, or begin a new log. On any directory a
        run can leave, resuming finds the true head, past empty rotated
        segments, and opening fails exactly when some last entry is too long
        to read back. */
    method Open(listing: seq<LogFile>, id: string, timestamp: string, boot: Bytes, rest: string, next: string)
      requires LineFormat(n) && writer.None? && Lists(listing, files)
      modifies this
      ensures Inv(n, old(View())) ==>
                View() == AfterOpen(n, old(files), id, timestamp, boot, rest, next)
    {
      var found := FindExisting(n, listing);
      SameMembers(listing, files);
      if !found.Failed? {
        NewestCarries(listing, files, found);
      }
      match found {
        case Failed =>
        case Nothing =>
          files := files + [LogFile(1, rest, [])];
          writer := Some(Writer(|files| - 1, GenesisHash(n.sha, n.deployment), 0, 0));
          var boot' := Append(id, timestamp, boot, next);
        case Resume(file, lastHash, sequence) =>
          var at := IndexOf(files, file);
          if Inv(n, View()) {
            GreatestIsHead(n, files, at);
          }
          writer := Some(Writer(at, lastHash, sequence, |Render(n, files[at].entries)|));
      }
    }
  }

  method IndexOf(files: seq<LogFile>, f: LogFile) returns (at: nat)
    requires f in files
    ensures at < |files| && files[at] == f
  {
    at := 0;
    while files[at] != f
      invariant at < |files| && f in files[at..]
      decreases |files| - at
    {
      assert files[at..] == [files[at]] + files[at + 1..];
      at := at + 1;
    }
  }

  // ----- The verifier accepts every log a run leaves -----

  function AsSegment(f: LogFile): Segment {
    Segment(Name(f.first, f.rest), AsLines(f.entries))
  }

  function AsLines(es: seq<Entry>): seq<Line> {
    seq(|es|, i requires 0 <= i < |es| => Record(es[i]))
  }

  function AsSegments(files: seq<LogFile>): seq<Segment> {
    if files == [] then [] else [AsSegment(files[0])] + AsSegments(files[1..])
  }

  lemma {:induction false} LinesAreEntries(files: seq<LogFile>)
    ensures AllLines(AsSegments(files)) == AsLines(Flatten(files))
    decreases |files|
  {
    if files != [] {
      LinesAreEntries(files[1..]);
      assert AsSegments(files)[1..] == AsSegments(files[1..]);
    }
  }

  lemma {:induction false} RecordsOfLines(es: seq<Entry>)
    ensures Records(AsLines(es)) == es
    decreases |es|
  {
    if es != [] {
      RecordsOfLines(es[1..]);
      assert AsLines(es)[1..] == AsLines(es[1..]);
    }
  }

  lemma {:induction false} FlattenOfInsert(x: LogFile, s: seq<LogFile>)
    ensures multiset(Flatten(Insert(ByFileName, x, s))) == multiset(x.entries) + multiset(Flatten(s))
    decreases |s|
  {
    if s == [] {
      FlattenOne(x);
    } else if ByFileName(x, s[0]) {
      assert ([x] + s)[1..] == s;
    } else {
      FlattenOfInsert(x, s[1..]);
      var rest := Insert(ByFileName, x, s[1..]);
      assert ([s[0]] + rest)[1..] == rest;
    }
  }

  lemma {:induction false} FlattenOfSort(s: seq<LogFile>)
    ensures multiset(Flatten(Sort(ByFileName, s))) == multiset(Flatten(s))
    decreases |s|
  {
    if s != [] {
      FlattenOfSort(s[1..]);
      FlattenOfInsert(s[0], Sort(ByFileName, s[1..]));
    }
  }

  lemma {:induction false} LoadSeesEntries(n: Node, log: Log, listing: seq<LogFile>)
    requires Inv(n, log) && Lists(listing, log.files)
    ensures Load(AsSegments(listing)) == Some(Flatten(log.files))
  {
    var segments := AsSegments(listing);
    var lines, plain := AllLines(Sort(ByName, segments)), AsLines(Flatten(listing));
    LinesOfSort(segments);
    LinesAreEntries(listing);
    assert multiset(lines) == multiset(plain);
    LinesDetermineRecords(lines, plain);
    RecordsOfLines(Flatten(listing));
    FilenameOrderIsChainOrder(n, log, listing);
    FlattenOfSort(listing);
    assert Corrupt !in plain;
    SortRestoresChain(n, Flatten(log.files), Records(lines));
  }

  /** Every run of appends, rotations, closes, crashes and reopenings leaves
      segments the verifier accepts, in whatever order they are listed. While
      the log is open, the verifier counts exactly its sequence number of
      entries and reports exactly its tail hash. */
  lemma {:induction false} EveryRunVerifies(n: Node, logs: seq<Log>, steps: seq<Step>, k: nat, listing: seq<LogFile>)
    requires Signs(n) && IsRun(n, logs, steps) && k < |logs| && Lists(listing, logs[k].files)
    ensures Accepts(n, AsSegments(listing))
    ensures logs[k].writer.Some? ==>
              var w, es := logs[k].writer.value, Load(AsSegments(listing)).value;
              |es| == w.sequence && LastHash(es) == Some(w.lastHash)
  {
    EveryRunKeepsInv(n, logs, steps, k);
    LoadSeesEntries(n, logs[k], listing);
  }
}
