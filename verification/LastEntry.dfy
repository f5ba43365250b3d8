/** Reading the last entry of a segment backwards, one block at a time. */
module LastEntry {
  import opened Prelude
  import opened AuditChain

  const BLOCK: nat := 65536

  datatype Reading = Empty | Found(entry: Entry) | Broken

  /** Where the last line starts: just after the last newline. */
  function LastBreak(t: Bytes): (k: nat)
    ensures k <= |t|
  {
    if t == [] then 0
    else if t[|t| - 1] == '\n' then |t|
    else LastBreak(t[..|t| - 1])
  }

  predicate IsBlankLine(line: Bytes) {
    forall i :: 0 <= i < |line| ==> IsAsciiSpace(line[i])
  }

  /** The last line that is not blank. */
  function LastLine(t: Bytes): Option<Bytes>
    decreases |t|
  {
    var k := LastBreak(t);
    if !IsBlankLine(t[k..]) then Some(t[k..])
    else if k == 0 then None
    else LastLine(t[..k - 1])
  }

  function Decoded(n: Node, line: Bytes): Reading {
    match n.decode(line)
    case None => Broken
    case Some(e) => Found(e)
  }

  /** The start of the block that ends at `end`. */
  function BlockStart(end: nat): nat {
    if end <= BLOCK then 0 else end - BLOCK
  }

  /** What the bytes read so far settle, if anything. A final line counts as
      complete once there is a newline anywhere or the whole file is read. */
  function Attempt(n: Node, tail: Bytes, whole: bool): (r: Option<Reading>)
    ensures whole ==> r.Some?
  {
    var last := LastLine(tail);
    if last.Some? && ('\n' in tail || whole) then Some(Decoded(n, last.value))
    else if whole then Some(Empty)
    else None
  }

  /** The reading once everything from `end` on has been tried. */
  function ScanBack(n: Node, file: Bytes, end: nat): Reading
    requires 0 < end <= |file|
    decreases end
  {
    var start := BlockStart(end);
    match Attempt(n, file[start..], start == 0)
    case Some(r) => r
    case None => ScanBack(n, file, start)
  }

  /** One block read in front of what is in hand. */
  method ReadBlock(file: Bytes, tail: Bytes, readFrom: nat) returns (from: nat, grown: Bytes)
    requires 0 < readFrom <= |file| && tail == file[readFrom..]
    ensures from == BlockStart(readFrom) && grown == file[from..]
  {
    var block := if BLOCK < readFrom then BLOCK else readFrom;
    from := readFrom - block;
    var buf := file[from..from + block];
    SliceJoin(file, from, readFrom);
    grown := buf + tail;
  }

  lemma {:induction false} ScanBackStep(n: Node, file: Bytes, end: nat)
    requires 0 < end <= |file|
    ensures
      var start := BlockStart(end);
      var settled := Attempt(n, file[start..], start == 0);
      && start < end && (settled.None? ==> start > 0)
      && ScanBack(n, file, end) == if settled.Some? then settled.value else ScanBack(n, file, start)
  {
  }

  method ReadLastEntry(n: Node, file: Bytes) returns (r: Reading)
    ensures file == [] ==> r == Empty
    ensures file != [] ==> r == ScanBack(n, file, |file|)
  {
    if |file| == 0 {
      return Empty;
    }
    var tail: Bytes := [];
    var readFrom := |file|;
    ghost var answer := ScanBack(n, file, readFrom);
    while true
      invariant 0 < readFrom <= |file| && tail == file[readFrom..]
      invariant ScanBack(n, file, readFrom) == answer
      decreases readFrom
    {
      ScanBackStep(n, file, readFrom);
      readFrom, tail := ReadBlock(file, tail, readFrom);
      var settled := Attempt(n, tail, readFrom == 0);
      if settled.Some? {
        return settled.value;
      }
    }
  }

  lemma {:induction false} SliceJoin(file: Bytes, a: nat, b: nat)
    requires a <= b <= |file|
    ensures file[a..b] + file[b..] == file[a..]
  {
  }

  // ----- Segments this node wrote -----

  /** The laws of the line format: a line holds no newline and ends in a
      visible character, reads back as its entry, and no proper end of it is
      an entry. */
  ghost predicate LineFormat(n: Node) {
    forall e: Entry :: LineOf(n, e)
  }

  ghost predicate LineOf(n: Node, e: Entry) {
    var line := n.encode(e);
    && |line| > 0 && '\n' !in line && !IsAsciiSpace(line[|line| - 1])
    && n.decode(line) == Some(e)
    && forall k :: 0 < k < |line| ==> n.decode(line[k..]) == None
  }

  function Render(n: Node, es: seq<Entry>): Bytes {
    if es == [] then [] else Render(n, es[..|es| - 1]) + n.encode(es[|es| - 1]) + "\n"
  }

  /** Whether the line of this entry and its newline fit in one block. */
  predicate FitsBlock(n: Node, e: Entry) {
    |n.encode(e)| + 1 <= BLOCK
  }

  lemma {:induction false} LastBreakAfter(a: Bytes, b: Bytes)
    requires '\n' !in b && (a == [] || a[|a| - 1] == '\n')
    ensures LastBreak(a + b) == |a|
    decreases |b|
  {
    if b == [] {
      assert a + b == a;
    } else {
      var shorter := b[..|b| - 1];
      assert (a + b)[..|a + b| - 1] == a + shorter;
      assert (a + b)[|a + b| - 1] == b[|b| - 1];
      LastBreakAfter(a, shorter);
    }
  }

  /** After complete lines, one line and its newline: that line is the last. */
  lemma {:induction false} LastLineAfter(a: Bytes, line: Bytes)
    requires '\n' !in line && (a == [] || a[|a| - 1] == '\n')
    requires |line| > 0 && !IsAsciiSpace(line[|line| - 1])
    ensures LastLine(a + line + "\n") == Some(line)
  {
    var t := a + line + "\n";
    assert t[|t| - 1] == '\n' && t[|t|..] == [];
    assert t[..|t| - 1] == a + line;
    LastBreakAfter(a, line);
    assert (a + line)[|a|..] == line;
    assert LastLine(a + line) == Some(line);
  }

  lemma {:induction false} RenderEnds(n: Node, es: seq<Entry>)
    ensures es == [] <==> Render(n, es) == []
    ensures es != [] ==> Render(n, es)[|Render(n, es)| - 1] == '\n'
  {
  }

  /** A suffix of a text that ends in a newline is empty or ends in one. */
  lemma {:induction false} TailOf(front: Bytes, line: Bytes, start: nat)
    requires start <= |front|
    ensures (front + line + "\n")[start..] == front[start..] + line + "\n"
    ensures '\n' in (front + line + "\n")[start..]
    ensures front[start..] == [] || front[start..][|front[start..]| - 1] == front[|front| - 1]
  {
    var t := front[start..] + line + "\n";
    assert (front + line + "\n")[start..] == t;
    assert t[|t| - 1] == '\n';
  }

  lemma {:induction false} ShortLineIsRead(n: Node, front: Bytes, e: Entry)
    requires LineOf(n, e) && FitsBlock(n, e) && (front == [] || front[|front| - 1] == '\n')
    ensures
      var file := front + n.encode(e) + "\n";
      ScanBack(n, file, |file|) == Found(e)
  {
    var line := n.encode(e);
    var file := front + line + "\n";
    var start := BlockStart(|file|);
    TailOf(front, line, start);
    LastLineAfter(front[start..], line);
  }

  lemma {:induction false} LongLineIsNot(n: Node, front: Bytes, e: Entry)
    requires LineOf(n, e) && !FitsBlock(n, e)
    ensures
      var file := front + n.encode(e) + "\n";
      ScanBack(n, file, |file|) == Broken
  {
    var line := n.encode(e);
    var file := front + line + "\n";
    var start := BlockStart(|file|);
    var k := start - |front|;
    var part := line[k..];
    assert 0 < k < |line|;
    assert file[start..] == [] + part + "\n";
    assert ([] + part + "\n")[|part|] == '\n';
    LastLineAfter([], part);
  }

  /** The backward read finds the last entry of a segment exactly when that
      entry's line, newline included, fits in one block. One byte longer and
      the first block already holds a newline, so the read stops with the
      tail of the line and fails. */
  lemma {:induction false} LastEntryIsReadIffItFits(n: Node, es: seq<Entry>)
    requires LineFormat(n) && es != []
    ensures
      var file := Render(n, es);
      var last := es[|es| - 1];
      file != [] && ScanBack(n, file, |file|) == if FitsBlock(n, last) then Found(last) else Broken
  {
    var last, front := es[|es| - 1], Render(n, es[..|es| - 1]);
    assert LineOf(n, last);
    RenderEnds(n, es[..|es| - 1]);
    if FitsBlock(n, last) {
      ShortLineIsRead(n, front, last);
    } else {
      LongLineIsNot(n, front, last);
    }
  }
}
