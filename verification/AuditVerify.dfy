/** The offline verifier: it gathers the lines of every segment, orders the
    entries by their own sequence numbers and checks the chain. */
module AuditVerify {
  import opened Prelude
  import opened AuditChain
  import opened Sorting
  import opened SegmentNames

  datatype Line = Blank | Corrupt | Record(entry: Entry)

  datatype Segment = Segment(name: string, lines: seq<Line>)

  datatype Violation =
    | SequenceGap(at: nat)
    | ChainBroken(at: nat)
    | PayloadMismatch(at: nat)
    | BadSignature(at: nat)

  datatype Verdict =
    | Unreadable
    | Report(valid: bool, entries: nat, tail: Option<string>, violations: seq<Violation>)

  // ----- Loading -----

  predicate BySequence(a: Entry, b: Entry) {
    a.sequence <= b.sequence
  }

  predicate ByName(a: Segment, b: Segment) {
    LexLE(a.name, b.name)
  }

  function AllLines(segments: seq<Segment>): seq<Line> {
    if segments == [] then [] else segments[0].lines + AllLines(segments[1..])
  }

  function Records(lines: seq<Line>): seq<Entry> {
    if lines == [] then []
    else (if lines[0].Record? then [lines[0].entry] else []) + Records(lines[1..])
  }

  /** One unreadable line makes the whole load fail. */
  function Load(segments: seq<Segment>): Option<seq<Entry>> {
    var lines := AllLines(Sort(ByName, segments));
    if Corrupt in lines then None else Some(Sort(BySequence, Records(lines)))
  }

  lemma {:induction false} RecordsSnoc(lines: seq<Line>, line: Line)
    ensures Records(lines + [line]) == Records(lines) + if line.Record? then [line.entry] else []
    decreases |lines|
  {
    if lines == [] {
      assert [] + [line] == [line] && [line][1..] == [];
    } else {
      assert (lines + [line])[1..] == lines[1..] + [line];
      RecordsSnoc(lines[1..], line);
      var head := if lines[0].Record? then [lines[0].entry] else [];
      var last := if line.Record? then [line.entry] else [];
      assert head + (Records(lines[1..]) + last) == Records(lines) + last;
    }
  }

  lemma {:induction false} RecordsConcat(a: seq<Line>, b: seq<Line>)
    ensures Records(a + b) == Records(a) + Records(b)
    decreases |b|
  {
    if b == [] {
      assert a + b == a;
    } else {
      var l := b[0];
      assert a + b == (a + [l]) + b[1..];
      RecordsConcat(a + [l], b[1..]);
      RecordsSnoc(a, l);
      var one := if l.Record? then [l.entry] else [];
      assert Records(a) + one + Records(b[1..]) == Records(a) + (one + Records(b[1..]));
    }
  }

  /** The entries of one segment, or none if a line does not parse. */
  method LoadFile(lines: seq<Line>) returns (r: Option<seq<Entry>>)
    ensures r == if Corrupt in lines then None else Some(Records(lines))
  {
    var entries := [];
    for i := 0 to |lines|
      invariant Corrupt !in lines[..i] && entries == Records(lines[..i])
    {
      assert lines[..i + 1] == lines[..i] + [lines[i]];
      RecordsSnoc(lines[..i], lines[i]);
      match lines[i] {
        case Blank =>
        case Corrupt => return None;
        case Record(e) => entries := entries + [e];
      }
    }
    assert lines[..|lines|] == lines;
    r := Some(entries);
  }

  lemma {:induction false} AllLinesSplit(files: seq<Segment>, i: nat)
    requires i <= |files|
    ensures AllLines(files) == AllLines(files[..i]) + AllLines(files[i..])
    decreases i
  {
    if i == 0 {
      assert files[..0] == [] && files[0..] == files;
    } else {
      AllLinesSplit(files[1..], i - 1);
      assert files[1..][..i - 1] == files[..i][1..] && files[1..][i - 1..] == files[i..];
    }
  }

  lemma {:induction false} AllLinesStep(files: seq<Segment>, i: nat)
    requires i < |files|
    ensures AllLines(files[..i + 1]) == AllLines(files[..i]) + files[i].lines
  {
    var taken := files[..i + 1];
    AllLinesSplit(taken, i);
    assert taken[..i] == files[..i] && taken[i..] == [files[i]];
    assert [files[i]][1..] == [];
    assert AllLines([files[i]]) == files[i].lines + [];
  }

  method LoadEntries(segments: seq<Segment>) returns (r: Option<seq<Entry>>)
    ensures r == Load(segments)
  {
    var files := Sort(ByName, segments);
    var entries := [];
    for i := 0 to |files|
      invariant Corrupt !in AllLines(files[..i]) && entries == Records(AllLines(files[..i]))
    {
      AllLinesStep(files, i);
      RecordsConcat(AllLines(files[..i]), files[i].lines);
      var here := LoadFile(files[i].lines);
      if here.None? {
        AllLinesSplit(files, i + 1);
        return None;
      }
      entries := entries + here.value;
    }
    assert files[..|files|] == files;
    r := Some(Sort(BySequence, entries));
  }

  // ----- Checking -----

  function ExpectedSequence(es: seq<Entry>, i: nat): nat
    requires i < |es|
  {
    1 + if i == 0 then 0 else es[i - 1].sequence
  }

  /** What is wrong with entry `i`, judged against the entry before it. */
  function Faults(n: Node, es: seq<Entry>, i: nat): seq<Violation>
    requires i < |es|
  {
    var e := es[i];
    (if e.sequence != ExpectedSequence(es, i) then [SequenceGap(i)] else [])
    + (if e.entryHash != n.sha(EntryPreimage(n.sha, n.deployment, es, i)) then [ChainBroken(i)] else [])
    + (if e.payloadHash != n.sha(e.payload) then [PayloadMismatch(i)] else [])
    + (if !n.verify(e.entryHash, e.signature) then [BadSignature(i)] else [])
  }

  function FaultsUpTo(n: Node, es: seq<Entry>, k: nat): seq<Violation>
    requires k <= |es|
  {
    if k == 0 then [] else FaultsUpTo(n, es, k - 1) + Faults(n, es, k - 1)
  }

  ghost predicate ReadableUpTo(n: Node, es: seq<Entry>, k: nat)
    requires k <= |es|
  {
    forall i :: 0 <= i < k ==> n.wellFormed(es[i].signature)
  }

  ghost predicate Readable(n: Node, es: seq<Entry>) {
    ReadableUpTo(n, es, |es|)
  }

  // ----- What a report names -----

  /** Which entry a violation is about. */
  function PlaceOf(f: Violation): nat {
    f.at
  }

  /** Whether this is true of the entries: a number that does not follow the one
      before, a hash that does not follow from the entry before, a payload that
      does not match its hash, a signature that does not verify. */
  ghost predicate IsFault(n: Node, es: seq<Entry>, f: Violation) {
    && f.at < |es|
    && match f
       case SequenceGap(i) => es[i].sequence != (if i == 0 then 1 else es[i - 1].sequence + 1)
       case ChainBroken(i) =>
         es[i].entryHash != n.sha((if i == 0 then GenesisHash(n.sha, n.deployment) else es[i - 1].entryHash)
                                  + es[i].timestamp + es[i].payloadHash)
       case PayloadMismatch(i) => es[i].payloadHash != n.sha(es[i].payload)
       case BadSignature(i) => !n.verify(es[i].entryHash, es[i].signature)
  }

  /** The report names every fault there is, nothing else, in the order of the
      entries. */
  ghost predicate NamesEveryFault(n: Node, es: seq<Entry>, found: seq<Violation>) {
    && (forall f :: f in found <==> IsFault(n, es, f))
    && NonFalling(PlaceOf, found)
  }

  lemma {:induction false} FaultOfOne(n: Node, es: seq<Entry>, i: nat, f: Violation)
    requires i < |es|
    ensures f in Faults(n, es, i) <==> IsFault(n, es, f) && f.at == i
  {
  }

  lemma {:induction false} InEither<T>(a: seq<T>, b: seq<T>, x: T)
    ensures x in a + b <==> x in a || x in b
  {
  }

  lemma {:induction false} FaultIsNamed(n: Node, es: seq<Entry>, k: nat, i: nat, f: Violation)
    requires i < k <= |es| && f in Faults(n, es, i)
    ensures f in FaultsUpTo(n, es, k)
    decreases k
  {
    if i < k - 1 {
      FaultIsNamed(n, es, k - 1, i, f);
    }
  }

  lemma {:induction false} NamedIsFault(n: Node, es: seq<Entry>, k: nat, f: Violation) returns (i: nat)
    requires k <= |es| && f in FaultsUpTo(n, es, k)
    ensures i < k && f in Faults(n, es, i)
    decreases k
  {
    i := k - 1;
    InEither(FaultsUpTo(n, es, i), Faults(n, es, i), f);
    if f in FaultsUpTo(n, es, i) {
      i := NamedIsFault(n, es, i, f);
    }
  }

  ghost predicate PlacedBelow(found: seq<Violation>, k: nat) {
    forall j :: 0 <= j < |found| ==> PlaceOf(found[j]) < k
  }

  ghost predicate PlacedAt(found: seq<Violation>, k: nat) {
    forall j :: 0 <= j < |found| ==> PlaceOf(found[j]) == k
  }

  lemma {:induction false} InOrderOfEntries(a: seq<Violation>, b: seq<Violation>, k: nat)
    requires NonFalling(PlaceOf, a) && PlacedBelow(a, k) && PlacedAt(b, k)
    ensures NonFalling(PlaceOf, a + b) && PlacedBelow(a + b, k + 1)
  {
  }

  lemma {:induction false} FaultsPlaced(n: Node, es: seq<Entry>, i: nat)
    requires i < |es|
    ensures PlacedAt(Faults(n, es, i), i)
  {
  }

  lemma {:induction false} FaultsAreOrdered(n: Node, es: seq<Entry>, k: nat)
    requires k <= |es|
    ensures NonFalling(PlaceOf, FaultsUpTo(n, es, k)) && PlacedBelow(FaultsUpTo(n, es, k), k)
    decreases k
  {
    if k > 0 {
      FaultsAreOrdered(n, es, k - 1);
      FaultsPlaced(n, es, k - 1);
      InOrderOfEntries(FaultsUpTo(n, es, k - 1), Faults(n, es, k - 1), k - 1);
    }
  }

  lemma {:induction false} ReportNamesEveryFault(n: Node, es: seq<Entry>)
    ensures NamesEveryFault(n, es, FaultsUpTo(n, es, |es|))
  {
    FaultsAreOrdered(n, es, |es|);
    forall f | f in FaultsUpTo(n, es, |es|) ensures IsFault(n, es, f) {
      var i := NamedIsFault(n, es, |es|, f);
      FaultOfOne(n, es, i, f);
    }
    forall f | IsFault(n, es, f) ensures f in FaultsUpTo(n, es, |es|) {
      FaultOfOne(n, es, f.at, f);
      FaultIsNamed(n, es, |es|, f.at, f);
    }
  }

  lemma {:induction false} NoFaults(n: Node, es: seq<Entry>, i: nat)
    requires i < |es|
    ensures Faults(n, es, i) == [] <==>
              && es[i].sequence == ExpectedSequence(es, i)
              && LinkedAt(n.sha, n.deployment, es, i)
              && n.verify(es[i].entryHash, es[i].signature)
  {
  }

  /** After sound entries the next is sound exactly when it has no local fault. */
  lemma {:induction false} SoundIffFaultless(n: Node, es: seq<Entry>, i: nat)
    requires i < |es| && n.wellFormed(es[i].signature) && (i > 0 ==> SoundAt(n, es, i - 1))
    ensures Faults(n, es, i) == [] <==> SoundAt(n, es, i)
  {
    NoFaults(n, es, i);
  }

  /** Entries without local faults make a chain, and a chain has none. */
  lemma {:induction false} FaultlessUpTo(n: Node, es: seq<Entry>, k: nat)
    requires Readable(n, es) && k <= |es|
    ensures FaultsUpTo(n, es, k) == [] <==> forall i :: 0 <= i < k ==> SoundAt(n, es, i)
    decreases k
  {
    if k > 0 {
      FaultlessUpTo(n, es, k - 1);
      if FaultsUpTo(n, es, k - 1) == [] {
        SoundIffFaultless(n, es, k - 1);
      }
    }
  }

  /** The checks on one entry; none if its signature does not parse. */
  method CheckEntry(n: Node, es: seq<Entry>, i: nat, prevHash: string, expectedSeq: nat)
    returns (found: Option<seq<Violation>>)
    requires i < |es| && prevHash == PrevHash(n.sha, n.deployment, es, i)
    requires expectedSeq + 1 == ExpectedSequence(es, i)
    ensures found == if n.wellFormed(es[i].signature) then Some(Faults(n, es, i)) else None
  {
    var e := es[i];
    var gap := if e.sequence != expectedSeq + 1 then [SequenceGap(i)] else [];
    var broken := if e.entryHash != n.sha(Preimage(prevHash, e.timestamp, e.payloadHash)) then [ChainBroken(i)] else [];
    var payload := if n.sha(e.payload) != e.payloadHash then [PayloadMismatch(i)] else [];
    if !n.wellFormed(e.signature) {
      return None;
    }
    var unsigned := if !n.verify(e.entryHash, e.signature) then [BadSignature(i)] else [];
    found := Some(gap + broken + payload + unsigned);
  }

  /** What the loop carries before entry `i`. */
  ghost predicate Carries(n: Node, es: seq<Entry>, i: nat, violations: seq<Violation>, prevHash: string, expectedSeq: nat)
    requires i <= |es|
  {
    && violations == FaultsUpTo(n, es, i)
    && prevHash == PrevHash(n.sha, n.deployment, es, i)
    && expectedSeq == (if i == 0 then 0 else es[i - 1].sequence)
    && ReadableUpTo(n, es, i)
  }

  lemma {:induction false} CarriesOn(
      n: Node, es: seq<Entry>, i: nat, violations: seq<Violation>, prevHash: string, expectedSeq: nat)
    requires i < |es| && Carries(n, es, i, violations, prevHash, expectedSeq)
    ensures prevHash == PrevHash(n.sha, n.deployment, es, i) && expectedSeq + 1 == ExpectedSequence(es, i)
    ensures n.wellFormed(es[i].signature) ==>
              Carries(n, es, i + 1, violations + Faults(n, es, i), es[i].entryHash, es[i].sequence)
    ensures !n.wellFormed(es[i].signature) ==> !Readable(n, es)
  {
  }

  /** The verification loop: every fault in order, or none if a signature does
      not even parse. */
  method CollectFaults(n: Node, es: seq<Entry>) returns (found: Option<seq<Violation>>)
    ensures found == if Readable(n, es) then Some(FaultsUpTo(n, es, |es|)) else None
  {
    var violations := [];
    var prevHash := GenesisHash(n.sha, n.deployment);
    var expectedSeq := 0;
    for i := 0 to |es|
      invariant Carries(n, es, i, violations, prevHash, expectedSeq)
    {
      CarriesOn(n, es, i, violations, prevHash, expectedSeq);
      var here := CheckEntry(n, es, i, prevHash, expectedSeq);
      if here.None? {
        return None;
      }
      violations := violations + here.value;
      expectedSeq := es[i].sequence;
      prevHash := es[i].entryHash;
    }
    found := Some(violations);
  }

  /** It reports every violation and accepts exactly the complete signed chains;
      a signature that does not parse ends it. */
  method VerifyEntries(n: Node, es: seq<Entry>) returns (v: Verdict)
    ensures v.Unreadable? <==> !Readable(n, es)
    ensures v.Report? ==>
              && v.violations == FaultsUpTo(n, es, |es|)
              && (v.valid <==> Chain(n, es))
              && v.entries == |es|
              && v.tail == LastHash(es)
  {
    var found := CollectFaults(n, es);
    if found.None? {
      return Unreadable;
    }
    FaultlessUpTo(n, es, |es|);
    v := Report(found.value == [], |es|, LastHash(es), found.value);
  }

  lemma {:induction false} ChainIsReadable(n: Node, es: seq<Entry>)
    requires Chain(n, es)
    ensures Readable(n, es)
  {
    forall i | 0 <= i < |es| ensures n.wellFormed(es[i].signature) {
      assert SoundAt(n, es, i);
    }
  }

  method VerifyLog(n: Node, segments: seq<Segment>) returns (v: Verdict)
    ensures v.Report? && v.valid <==> Accepts(n, segments)
    ensures v.Unreadable? <==> Load(segments).None? || !Readable(n, Load(segments).value)
    ensures v.Report? ==> v.entries == |Load(segments).value|
    ensures v.Report? ==> v.tail == LastHash(Load(segments).value)
    ensures v.Report? ==> NamesEveryFault(n, Load(segments).value, v.violations)
  {
    var loaded := LoadEntries(segments);
    if loaded.None? {
      return Unreadable;
    }
    v := VerifyEntries(n, loaded.value);
    ReportNamesEveryFault(n, loaded.value);
    if Chain(n, loaded.value) {
      ChainIsReadable(n, loaded.value);
    }
  }

  function LastHash(es: seq<Entry>): Option<string> {
    if es == [] then None else Some(es[|es| - 1].entryHash)
  }

  /** The verdict `valid`. */
  ghost predicate Accepts(n: Node, segments: seq<Segment>) {
    Load(segments).Some? && Chain(n, Load(segments).value)
  }

  /** Up to these entries both histories are the same, or a collision is in
      hand. */
  ghost predicate SharesHistory(sha: Bytes -> string, deployment: string, x: seq<Entry>, i: nat, y: seq<Entry>, j: nat)
    requires i < |x| && j < |y|
  {
    match WalkBack(sha, deployment, x, i, y, j)
    case Collision(p, q) => p != q && sha(p) == sha(q)
    case Same => i == j && forall k :: 0 <= k <= i ==> SameContent(x[k], y[k])
  }

  /** Two valid chains of one deployment, whoever signed them, that share an
      entry hash share everything before it, or a collision is in hand. */
  lemma {:induction false} ChainsShareHistory(n: Node, x: seq<Entry>, i: nat, m: Node, y: seq<Entry>, j: nat)
    requires Hashes(n.sha) && m.sha == n.sha && m.deployment == n.deployment
    requires Chain(n, x) && Chain(m, y) && i < |x| && j < |y| && x[i].entryHash == y[j].entryHash
    ensures SharesHistory(n.sha, n.deployment, x, i, y, j)
  {
    ChainIsLinked(n, x);
    ChainIsLinked(m, y);
    AnchorFixesHistory(n.sha, n.deployment, x, i, y, j);
  }

  /** The anchor guarantee for any two accepted logs of one deployment. */
  lemma {:induction false} AcceptedLogsShareHistory(
      n: Node, a: seq<Segment>, i: nat, m: Node, b: seq<Segment>, j: nat)
    requires Hashes(n.sha) && m.sha == n.sha && m.deployment == n.deployment
    ensures
      && Accepts(n, a) && Accepts(m, b) && i < |Load(a).value| && j < |Load(b).value|
      && Load(a).value[i].entryHash == Load(b).value[j].entryHash
      ==> SharesHistory(n.sha, n.deployment, Load(a).value, i, Load(b).value, j)
  {
    if Accepts(n, a) && Accepts(m, b) && i < |Load(a).value| && j < |Load(b).value| {
      if Load(a).value[i].entryHash == Load(b).value[j].entryHash {
        ChainsShareHistory(n, Load(a).value, i, m, Load(b).value, j);
      }
    }
  }

  // ----- Order does not matter -----

  lemma {:induction false} SequenceIsTotalPreorder()
    ensures TotalPreorder(BySequence)
  {
  }

  function SequenceOf(e: Entry): nat {
    e.sequence
  }

  lemma {:induction false} SortedBySequence(xs: seq<Entry>)
    ensures NonFalling(SequenceOf, Sort(BySequence, xs))
  {
    SequenceIsTotalPreorder();
    SortSorts(BySequence, xs);
    var s := Sort(BySequence, xs);
    forall i, j | 0 <= i < j < |s| ensures SequenceOf(s[i]) <= SequenceOf(s[j]) {
      assert BySequence(s[i], s[j]);
    }
  }

  lemma {:induction false} ChainRises(n: Node, es: seq<Entry>)
    requires Chain(n, es)
    ensures Rising(SequenceOf, es)
  {
    forall i, j | 0 <= i < j < |es| ensures SequenceOf(es[i]) < SequenceOf(es[j]) {
      assert SoundAt(n, es, i) && SoundAt(n, es, j);
    }
  }

  /** Reordering the entries of a chain and sorting gives the chain back. */
  lemma {:induction false} SortRestoresChain(n: Node, es: seq<Entry>, xs: seq<Entry>)
    requires Chain(n, es) && multiset(xs) == multiset(es)
    ensures Sort(BySequence, xs) == es
  {
    ChainRises(n, es);
    SortedBySequence(xs);
    UniqueOrder(SequenceOf, es, Sort(BySequence, xs));
  }

  lemma {:induction false} RecordCount(lines: seq<Line>, e: Entry)
    ensures multiset(Records(lines))[e] == multiset(lines)[Record(e)]
    decreases |lines|
  {
    if lines != [] {
      RecordCount(lines[1..], e);
      assert lines == [lines[0]] + lines[1..];
    }
  }

  lemma {:induction false} LinesOfInsert(x: Segment, s: seq<Segment>)
    ensures multiset(AllLines(Insert(ByName, x, s))) == multiset(x.lines) + multiset(AllLines(s))
    decreases |s|
  {
    if s == [] {
      assert [x][1..] == [] && x.lines + [] == x.lines;
      assert AllLines([x]) == x.lines + AllLines([]);
    } else if ByName(x, s[0]) {
      assert ([x] + s)[1..] == s;
    } else {
      LinesOfInsert(x, s[1..]);
      var rest := Insert(ByName, x, s[1..]);
      assert ([s[0]] + rest)[1..] == rest;
    }
  }

  lemma {:induction false} LinesOfSort(s: seq<Segment>)
    ensures multiset(AllLines(Sort(ByName, s))) == multiset(AllLines(s))
    decreases |s|
  {
    if s != [] {
      LinesOfSort(s[1..]);
      LinesOfInsert(s[0], Sort(ByName, s[1..]));
    }
  }

  /** Two directories hold the same lines, blank ones aside, however the lines
      are spread over segments and the segments named. */
  ghost predicate SameLines(a: seq<Segment>, b: seq<Segment>) {
    forall line: Line :: line != Blank ==> multiset(AllLines(a))[line] == multiset(AllLines(b))[line]
  }

  lemma {:induction false} SameLinesSameRecords(a: seq<Segment>, b: seq<Segment>)
    requires SameLines(a, b)
    ensures
      var x, y := AllLines(Sort(ByName, a)), AllLines(Sort(ByName, b));
      && (Corrupt in x <==> Corrupt in y)
      && multiset(Records(x)) == multiset(Records(y))
  {
    LinesOfSort(a);
    LinesOfSort(b);
    var x, y := AllLines(Sort(ByName, a)), AllLines(Sort(ByName, b));
    LinesDetermineRecords(x, y);
  }

  lemma {:induction false} LinesDetermineRecords(x: seq<Line>, y: seq<Line>)
    requires forall line: Line :: line != Blank ==> multiset(x)[line] == multiset(y)[line]
    ensures Corrupt in x <==> Corrupt in y
    ensures multiset(Records(x)) == multiset(Records(y))
  {
    assert multiset(x)[Corrupt] == multiset(y)[Corrupt];
    assert Corrupt in multiset(x) <==> Corrupt in multiset(y);
    forall e: Entry ensures multiset(Records(x))[e] == multiset(Records(y))[e] {
      RecordCount(x, e);
      RecordCount(y, e);
      assert multiset(x)[Record(e)] == multiset(y)[Record(e)];
    }
  }

  lemma {:induction false} AcceptsOneWay(n: Node, a: seq<Segment>, b: seq<Segment>)
    requires SameLines(a, b) && Accepts(n, a)
    ensures Accepts(n, b)
  {
    SameLinesSameRecords(a, b);
    SortRestoresChain(n, Load(a).value, Records(AllLines(Sort(ByName, b))));
  }

  /** The verdict depends only on which lines there are: moving lines between
      segments, reordering them or renaming files changes nothing. */
  lemma {:induction false} VerdictIgnoresOrder(n: Node, a: seq<Segment>, b: seq<Segment>)
    requires SameLines(a, b)
    ensures Accepts(n, a) <==> Accepts(n, b)
  {
    if Accepts(n, a) {
      AcceptsOneWay(n, a, b);
    } else if Accepts(n, b) {
      AcceptsOneWay(n, b, a);
    }
  }

  /** Some entries of a valid log verify exactly when they are its first ones:
      a gap anywhere is caught, and only a lost tail goes unseen. */
  lemma {:induction false} SubCollectionIsValidIffPrefix(n: Node, es: seq<Entry>, xs: seq<Entry>)
    requires Chain(n, es) && multiset(xs) <= multiset(es)
    ensures Chain(n, Sort(BySequence, xs)) <==> |xs| <= |es| && multiset(xs) == multiset(es[..|xs|])
  {
    var s := Sort(BySequence, xs);
    assert |s| == |multiset(s)| == |xs|;
    if Chain(n, s) {
      PickedInOrder(n, es, s);
    } else if |xs| <= |es| && multiset(xs) == multiset(es[..|xs|]) {
      ChainPrefix(n, es, |xs|);
      SortRestoresChain(n, es[..|xs|], xs);
      assert false;
    }
  }

  lemma {:induction false} PickedInOrder(n: Node, es: seq<Entry>, s: seq<Entry>)
    requires Chain(n, es) && Chain(n, s) && multiset(s) <= multiset(es)
    ensures |s| <= |es| && s == es[..|s|]
  {
    forall i | 0 <= i < |s| ensures i < |es| && s[i] == es[i] {
      assert s[i] in multiset(s);
      assert s[i] in multiset(es);
      var k :| 0 <= k < |es| && es[k] == s[i];
      assert SoundAt(n, s, i) && SoundAt(n, es, k);
    }
    if |s| > 0 {
      var last := s[|s| - 1];
      assert |s| - 1 < |es|;
    }
  }
}
