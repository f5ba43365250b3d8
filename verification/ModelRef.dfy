/** Model references: parsing `owner/repo[@revision][:quant]`, with an optional
    hub host in front, and printing them back. */
module ModelRef {
  import opened Prelude

  datatype Ref = Ref(owner: string, repo: string, revision: string, quant: Option<string>)

  const HOSTS: seq<string> :=
    ["https://huggingface.co/", "http://huggingface.co/", "hf.co/", "huggingface.co/"]

  const MAIN: string := "main"

  // ----- Text -----

  function StripPrefix(text: string, prefix: string): Option<string> {
    if prefix <= text then Some(text[|prefix|..]) else None
  }

  function SplitFirst(text: string, c: char): Option<(string, string)> {
    if text == [] then None
    else if text[0] == c then Some(([], text[1..]))
    else
      match SplitFirst(text[1..], c)
      case None => None
      case Some((a, b)) => Some(([text[0]] + a, b))
  }

  function SplitLast(text: string, c: char): Option<(string, string)> {
    if text == [] then None
    else if text[|text| - 1] == c then Some((text[..|text| - 1], []))
    else
      match SplitLast(text[..|text| - 1], c)
      case None => None
      case Some((a, b)) => Some((a, b + [text[|text| - 1]]))
  }

  function NonEmptyParts(parts: seq<string>): seq<string> {
    if parts == [] then []
    else (if parts[0] == [] then [] else [parts[0]]) + NonEmptyParts(parts[1..])
  }

  // ----- Validation -----

  predicate IsSegmentChar(c: char) {
    IsAlphanumeric(c) || c == '-' || c == '_' || c == '.'
  }

  predicate IsSegment(s: string) {
    && s != [] && s != "." && s != ".."
    && (forall i :: 0 <= i < |s| - 1 ==> !(s[i] == '.' && s[i + 1] == '.'))
    && forall i :: 0 <= i < |s| ==> IsSegmentChar(s[i])
  }

  predicate IsWellFormed(r: Ref) {
    IsSegment(r.owner) && IsSegment(r.repo) && IsSegment(r.revision) && (r.quant.Some? ==> IsSegment(r.quant.value))
  }

  // ----- Parsing and printing -----

  /** The first host that leads the text is discarded, and only that one. */
  function StripHost(text: string, hosts: seq<string>): string {
    if hosts == [] then text
    else
      match StripPrefix(text, hosts[0])
      case Some(rest) => rest
      case None => StripHost(text, hosts[1..])
  }

  function SplitQuant(text: string): (string, Option<string>) {
    match SplitLast(text, ':')
    case Some((head, tail)) =>
      if '/' !in tail && '@' !in tail && tail != [] then (head, Some(tail)) else (text, None)
    case None => (text, None)
  }

  function SplitRevision(text: string): (string, string) {
    match SplitFirst(text, '@')
    case Some((head, tail)) => if tail != [] then (head, tail) else (text, MAIN)
    case None => (text, MAIN)
  }

  /** What is left once blanks and a host have come off. */
  function ParseBare(text: string): (r: Option<Ref>)
    ensures r.Some? ==> IsWellFormed(r.value)
  {
    var (named, quant) := SplitQuant(text);
    var (path, revision) := SplitRevision(named);
    var parts := NonEmptyParts(Split(path, '/'));
    if |parts| != 2 then None
    else
      var ref := Ref(parts[0], parts[1], revision, quant);
      if IsWellFormed(ref) then Some(ref) else None
  }

  function Parse(input: string): (r: Option<Ref>)
    ensures r.Some? ==> IsWellFormed(r.value)
  {
    var text := Trim(input);
    if text == [] then None else ParseBare(StripHost(text, HOSTS))
  }

  function RevisionText(r: Ref): string {
    if r.revision != MAIN then ['@'] + r.revision else []
  }

  function QuantText(r: Ref): string {
    match r.quant
    case Some(q) => [':'] + q
    case None => []
  }

  function Display(r: Ref): string {
    r.owner + ['/'] + r.repo + RevisionText(r) + QuantText(r)
  }

  /** The hub's own names cannot be told from a host in front. */
  predicate LooksLikeHost(owner: string) {
    owner == "hf.co" || owner == "huggingface.co"
  }

  // ----- Lemmas on text -----

  lemma {:induction false} SplitFirstAt(a: string, c: char, b: string)
    requires c !in a
    ensures SplitFirst(a + [c] + b, c) == Some((a, b))
    decreases |a|
  {
    var text := a + [c] + b;
    if a == [] {
      assert text[0] == c && text[1..] == b;
    } else {
      assert text[1..] == a[1..] + [c] + b;
      SplitFirstAt(a[1..], c, b);
      assert [a[0]] + a[1..] == a;
    }
  }

  lemma {:induction false} SplitFirstNone(a: string, c: char)
    requires c !in a
    ensures SplitFirst(a, c) == None
    decreases |a|
  {
    if a != [] {
      SplitFirstNone(a[1..], c);
    }
  }

  lemma {:induction false} SplitLastAt(a: string, c: char, b: string)
    requires c !in b
    ensures SplitLast(a + [c] + b, c) == Some((a, b))
    decreases |b|
  {
    var text := a + [c] + b;
    if b == [] {
      assert text[|text| - 1] == c && text[..|text| - 1] == a;
    } else {
      var last := b[|b| - 1];
      assert text[|text| - 1] == last && text[..|text| - 1] == a + [c] + b[..|b| - 1];
      SplitLastAt(a, c, b[..|b| - 1]);
      assert b[..|b| - 1] + [last] == b;
    }
  }

  lemma {:induction false} SplitLastNone(a: string, c: char)
    requires c !in a
    ensures SplitLast(a, c) == None
    decreases |a|
  {
    if a != [] {
      SplitLastNone(a[..|a| - 1], c);
    }
  }

  lemma {:induction false} TwoParts(a: string, b: string)
    requires IsSegment(a) && IsSegment(b)
    ensures NonEmptyParts(Split(a + ['/'] + b, '/')) == [a, b]
  {
    SegmentIsPlain(a);
    SegmentIsPlain(b);
    SplitAt(a, '/', b);
    SplitNone(b, '/');
    assert [a] + [b] == [a, b] && [a, b][1..] == [b] && [b][1..] == [];
    assert NonEmptyParts([b]) == [b] + [];
    assert NonEmptyParts([a, b]) == [a] + [b];
  }

  lemma {:induction false} OnePart(a: string)
    requires IsSegment(a)
    ensures NonEmptyParts(Split(a, '/')) == [a]
  {
    SegmentIsPlain(a);
    SplitNone(a, '/');
    assert [a][1..] == [];
  }

  lemma {:induction false} SegmentIsPlain(s: string)
    requires IsSegment(s)
    ensures '/' !in s && ':' !in s && '@' !in s
    ensures !IsSpace(s[0]) && !IsSpace(s[|s| - 1])
  {
    assert IsSegmentChar(s[0]) && IsSegmentChar(s[|s| - 1]);
  }

  lemma {:induction false} TrimPlain(s: string)
    requires s != [] && !IsSpace(s[0]) && !IsSpace(s[|s| - 1])
    ensures Trim(s) == s
  {
  }

  // ----- Reading back what was printed -----

  /** Once the host is gone, the suffixes come off a path as they went on. */
  lemma {:induction false} SuffixesComeOff(r: Ref, path: string)
    requires IsWellFormed(r) && ':' !in path && '@' !in path
    ensures
      var (named, quant) := SplitQuant(path + RevisionText(r) + QuantText(r));
      quant == r.quant && SplitRevision(named) == (path, r.revision)
  {
    SegmentIsPlain(r.revision);
    RevisionComesOff(r, path);
    QuantComesOff(r, path + RevisionText(r));
  }

  lemma {:induction false} RevisionComesOff(r: Ref, path: string)
    requires IsSegment(r.revision) && '@' !in path
    ensures SplitRevision(path + RevisionText(r)) == (path, r.revision)
  {
    if r.revision != MAIN {
      assert path + RevisionText(r) == path + ['@'] + r.revision;
      SplitFirstAt(path, '@', r.revision);
    } else {
      assert path + [] == path;
      SplitFirstNone(path, '@');
    }
  }

  function Path(r: Ref): string {
    r.owner + ['/'] + r.repo
  }

  lemma {:induction false} PathIsPlain(r: Ref)
    requires IsWellFormed(r)
    ensures ':' !in Path(r) && '@' !in Path(r)
  {
    SegmentIsPlain(r.owner);
    SegmentIsPlain(r.repo);
  }

  lemma {:induction false} BareRoundTrip(r: Ref)
    requires IsWellFormed(r)
    ensures ParseBare(Display(r)) == Some(r)
  {
    PathIsPlain(r);
    SuffixesComeOff(r, Path(r));
    TwoParts(r.owner, r.repo);
  }

  lemma {:induction false} RepoAloneFails(r: Ref)
    requires IsWellFormed(r)
    ensures ParseBare(r.repo + RevisionText(r) + QuantText(r)) == None
  {
    SegmentIsPlain(r.repo);
    SuffixesComeOff(r, r.repo);
    OnePart(r.repo);
  }

  /** Starts and ends visibly, so trimming leaves it alone. */
  predicate IsTrimmed(s: string) {
    s != [] && !IsSpace(s[0]) && !IsSpace(s[|s| - 1])
  }

  lemma {:induction false} TrimmedJoin(a: string, b: string)
    requires IsTrimmed(a) && (b == [] || !IsSpace(b[|b| - 1]))
    ensures IsTrimmed(a + b)
  {
  }

  lemma {:induction false} Ends(a: char, s: string)
    requires IsSegment(s)
    ensures !IsSpace(([a] + s)[|s|])
  {
    SegmentIsPlain(s);
  }

  lemma {:induction false} PrintedEnds(r: Ref)
    requires IsWellFormed(r)
    ensures IsTrimmed(Display(r))
  {
    SegmentIsPlain(r.owner);
    Ends('/', r.repo);
    Ends('@', r.revision);
    TrimmedJoin(r.owner, ['/'] + r.repo);
    assert r.owner + ['/'] + r.repo == r.owner + (['/'] + r.repo);
    TrimmedJoin(Path(r), RevisionText(r));
    if r.quant.Some? {
      Ends(':', r.quant.value);
    }
    TrimmedJoin(Path(r) + RevisionText(r), QuantText(r));
  }

  lemma {:induction false} SameHead(a: string, x: string, b: string, y: string)
    requires '/' !in a && '/' !in b && a + ['/'] + x == b + ['/'] + y
    ensures a == b
  {
    SplitFirstAt(a, '/', x);
    SplitFirstAt(b, '/', y);
  }

  lemma {:induction false} RestOf(head: string, tail: string, text: string) returns (rest: string)
    requires head + tail <= text
    ensures text == head + (tail + rest)
  {
    rest := text[|head + tail|..];
    assert text == head + tail + rest;
    assert head + tail + rest == head + (tail + rest);
  }

  /** A host leads a printed reference only as its owner. */
  lemma {:induction false} HostIsOwner(r: Ref, host: string, tail: string)
    requires IsWellFormed(r) && '/' !in host && host + ['/'] + tail <= Display(r)
    ensures host == r.owner
  {
    var rest := RestOf(host + ['/'], tail, Display(r));
    DisplayStartsWithOwner(r);
    SegmentIsPlain(r.owner);
    SameHead(host, tail + rest, r.owner, AfterOwner(r));
  }

  lemma {:induction false} LeadingHosts(r: Ref)
    requires IsWellFormed(r)
    ensures !(HOSTS[0] <= Display(r)) && !(HOSTS[1] <= Display(r))
    ensures HOSTS[2] <= Display(r) ==> r.owner == "hf.co"
    ensures HOSTS[3] <= Display(r) ==> r.owner == "huggingface.co"
  {
    HostParts();
    SegmentIsPlain(r.owner);
    if HOSTS[0] <= Display(r) { HostIsOwner(r, "https:", "/huggingface.co/"); }
    if HOSTS[1] <= Display(r) { HostIsOwner(r, "http:", "/huggingface.co/"); }
    if HOSTS[2] <= Display(r) { HostIsOwner(r, "hf.co", []); }
    if HOSTS[3] <= Display(r) { HostIsOwner(r, "huggingface.co", []); }
  }

  lemma {:induction false} HostParts()
    ensures HOSTS[0] == "https:" + ['/'] + "/huggingface.co/" && ':' in "https:" && '/' !in "https:"
    ensures HOSTS[1] == "http:" + ['/'] + "/huggingface.co/" && ':' in "http:" && '/' !in "http:"
    ensures HOSTS[2] == "hf.co" + ['/'] + [] && '/' !in "hf.co"
    ensures HOSTS[3] == "huggingface.co" + ['/'] + [] && '/' !in "huggingface.co"
  {
    assert "https:"[5] == ':' && "http:"[4] == ':';
  }

  lemma {:induction false} StripUnfolds(text: string)
    ensures StripHost(text, HOSTS) ==
              if HOSTS[0] <= text then text[|HOSTS[0]|..]
              else if HOSTS[1] <= text then text[|HOSTS[1]|..]
              else if HOSTS[2] <= text then text[|HOSTS[2]|..]
              else if HOSTS[3] <= text then text[|HOSTS[3]|..]
              else text
  {
    StripStep(text, 0);
    StripStep(text, 1);
    StripStep(text, 2);
    StripStep(text, 3);
    assert HOSTS[0..] == HOSTS && HOSTS[4..] == [];
  }

  lemma {:induction false} StripStep(text: string, k: nat)
    requires k < |HOSTS|
    ensures StripHost(text, HOSTS[k..]) ==
              if HOSTS[k] <= text then text[|HOSTS[k]|..] else StripHost(text, HOSTS[k + 1..])
  {
    assert HOSTS[k..][1..] == HOSTS[k + 1..];
  }

  lemma {:induction false} OtherOwnersReadBack(r: Ref)
    requires IsWellFormed(r) && !LooksLikeHost(r.owner)
    ensures Parse(Display(r)) == Some(r)
  {
    PrintedEnds(r);
    TrimPlain(Display(r));
    LeadingHosts(r);
    StripUnfolds(Display(r));
    BareRoundTrip(r);
  }

  lemma {:induction false} Leads(host: string, tail: string, text: string)
    requires text == host + tail
    ensures host <= text && text[|host|..] == tail
  {
  }

  function AfterOwner(r: Ref): string {
    r.repo + RevisionText(r) + QuantText(r)
  }

  lemma {:induction false} DisplayStartsWithOwner(r: Ref)
    ensures Display(r) == (r.owner + ['/']) + AfterOwner(r)
  {
  }

  lemma {:induction false} HostText(owner: string)
    ensures owner == "hf.co" ==> owner + ['/'] == HOSTS[2]
    ensures owner == "huggingface.co" ==> owner + ['/'] == HOSTS[3]
  {
  }

  lemma {:induction false} OwnerIsStripped(r: Ref)
    requires IsWellFormed(r) && LooksLikeHost(r.owner)
    ensures StripHost(Display(r), HOSTS) == AfterOwner(r)
  {
    var text, host := Display(r), r.owner + ['/'];
    DisplayStartsWithOwner(r);
    Leads(host, AfterOwner(r), text);
    LeadingHosts(r);
    HostText(r.owner);
    StripStep(text, 0);
    StripStep(text, 1);
    StripStep(text, 2);
    StripStep(text, 3);
    assert HOSTS[0..] == HOSTS;
  }

  lemma {:induction false} HostOwnersFail(r: Ref)
    requires IsWellFormed(r) && LooksLikeHost(r.owner)
    ensures Parse(Display(r)) == None
  {
    PrintedEnds(r);
    TrimPlain(Display(r));
    OwnerIsStripped(r);
    RepoAloneFails(r);
  }

  /** Parsing what was printed gives the reference back exactly when its owner
      is not one of the hub's own host names, for every revision and
      quantisation. */
  lemma {:induction false} PrintThenParse(r: Ref)
    requires IsWellFormed(r)
    ensures Parse(Display(r)) == Some(r) <==> !LooksLikeHost(r.owner)
  {
    if LooksLikeHost(r.owner) {
      HostOwnersFail(r);
    } else {
      OtherOwnersReadBack(r);
    }
  }

  /** With the full address in front, every well-formed reference reads back,
      so `parse` returns exactly the well-formed references. */
  lemma {:induction false} AddressThenParse(r: Ref)
    requires IsWellFormed(r)
    ensures Parse(HOSTS[0] + Display(r)) == Some(r)
  {
    var text := HOSTS[0] + Display(r);
    PrintedEnds(r);
    assert text[0] == 'h' && text[|text| - 1] == Display(r)[|Display(r)| - 1];
    TrimPlain(text);
    StripUnfolds(text);
    assert text[|HOSTS[0]|..] == Display(r);
    BareRoundTrip(r);
  }

  // ----- Which texts name which reference -----

  /** The two ways to write the revision: `main` may be left out. */
  predicate NamesRevision(text: string, r: Ref) {
    text == RevisionText(r) || text == ['@'] + r.revision
  }

  /** An owner and a repository with any number of slashes around and between
      them, then the revision, then the quantisation. */
  ghost predicate Names(text: string, r: Ref, path: string, revision: string) {
    && NonEmptyParts(Split(path, '/')) == [r.owner, r.repo]
    && NamesRevision(revision, r)
    && text == path + revision + QuantText(r)
  }

  lemma {:induction false} SplitFirstJoins(text: string, c: char)
    ensures
      match SplitFirst(text, c)
      case Some((a, b)) => text == a + [c] + b
      case None => true
    decreases |text|
  {
    if text != [] && text[0] != c {
      SplitFirstJoins(text[1..], c);
      assert text == [text[0]] + text[1..];
    }
  }

  lemma {:induction false} SplitLastJoins(text: string, c: char)
    ensures
      match SplitLast(text, c)
      case Some((a, b)) => text == a + [c] + b
      case None => true
    decreases |text|
  {
    if text != [] && text[|text| - 1] != c {
      SplitLastJoins(text[..|text| - 1], c);
      assert text == text[..|text| - 1] + [text[|text| - 1]];
    }
  }

  /** Only the separators and the kept parts make up a path. */
  lemma {:induction false} PathChars(path: string, c: char)
    requires c != '/' && c in path
    ensures exists k :: 0 <= k < |NonEmptyParts(Split(path, '/'))| && c in NonEmptyParts(Split(path, '/'))[k]
  {
    SplitKeeps(path, '/', c);
    var k :| 0 <= k < |Split(path, '/')| && c in Split(path, '/')[k];
    KeptPart(Split(path, '/'), k);
  }

  lemma {:induction false} SplitKeeps(text: string, separator: char, c: char)
    requires c != separator && c in text
    ensures exists k :: 0 <= k < |Split(text, separator)| && c in Split(text, separator)[k]
    decreases |text|
  {
    var parts, rest := Split(text, separator), Split(text[1..], separator);
    if text[0] == c {
      assert c in parts[0];
    } else {
      assert c in text[1..];
      SplitKeeps(text[1..], separator, c);
      var k :| 0 <= k < |rest| && c in rest[k];
      if text[0] == separator {
        assert parts[k + 1] == rest[k];
      } else if k == 0 {
        assert parts[0] == [text[0]] + rest[0];
        assert c in parts[0];
      } else {
        assert parts[k] == rest[k];
      }
    }
  }

  lemma {:induction false} KeptPart(parts: seq<string>, k: nat)
    requires k < |parts| && parts[k] != []
    ensures exists j :: 0 <= j < |NonEmptyParts(parts)| && NonEmptyParts(parts)[j] == parts[k]
    decreases |parts|
  {
    var kept := NonEmptyParts(parts);
    if k == 0 {
      assert kept[0] == parts[0];
    } else {
      KeptPart(parts[1..], k - 1);
      var rest := NonEmptyParts(parts[1..]);
      var j :| 0 <= j < |rest| && rest[j] == parts[k];
      assert kept[j + if parts[0] == [] then 0 else 1] == rest[j];
    }
  }

  lemma {:induction false} NamedPathIsPlain(r: Ref, path: string)
    requires IsWellFormed(r) && NonEmptyParts(Split(path, '/')) == [r.owner, r.repo]
    ensures ':' !in path && '@' !in path
  {
    SegmentIsPlain(r.owner);
    SegmentIsPlain(r.repo);
    if ':' in path {
      PathChars(path, ':');
    }
    if '@' in path {
      PathChars(path, '@');
    }
  }

  lemma {:induction false} NamedParses(text: string, r: Ref, path: string, revision: string)
    requires IsWellFormed(r) && Names(text, r, path, revision)
    ensures ParseBare(text) == Some(r)
  {
    NamedPathIsPlain(r, path);
    if revision == RevisionText(r) {
      SuffixesComeOff(r, path);
    } else {
      SegmentIsPlain(r.revision);
      QuantComesOff(r, path + revision);
      assert path + revision == path + ['@'] + r.revision;
      SplitFirstAt(path, '@', r.revision);
    }
  }

  lemma {:induction false} QuantComesOff(r: Ref, named: string)
    requires (r.quant.Some? ==> IsSegment(r.quant.value)) && ':' !in named
    ensures SplitQuant(named + QuantText(r)) == (named, r.quant)
  {
    match r.quant
    case Some(q) =>
      SegmentIsPlain(q);
      assert named + QuantText(r) == named + [':'] + q;
      SplitLastAt(named, ':', q);
    case None =>
      assert named + [] == named;
      SplitLastNone(named, ':');
  }

  lemma {:induction false} QuantJoins(text: string)
    ensures
      var (named, quant) := SplitQuant(text);
      text == named + if quant.Some? then [':'] + quant.value else []
  {
    SplitLastJoins(text, ':');
    assert text + [] == text;
  }

  lemma {:induction false} RevisionJoins(named: string) returns (spelled: string)
    ensures
      var (path, revision) := SplitRevision(named);
      && named == path + spelled
      && (spelled == ['@'] + revision || (spelled == [] && revision == MAIN))
  {
    SplitFirstJoins(named, '@');
    var path := SplitRevision(named).0;
    spelled := named[|path|..];
    assert path <= named;
  }

  ghost predicate IsNamed(text: string, r: Ref) {
    IsWellFormed(r) && exists path, revision :: Names(text, r, path, revision)
  }

  lemma {:induction false} ParsedIsNamed(text: string)
    requires ParseBare(text).Some?
    ensures IsNamed(text, ParseBare(text).value)
  {
    var r := ParseBare(text).value;
    var named := SplitQuant(text).0;
    QuantJoins(text);
    var spelled := RevisionJoins(named);
    assert Names(text, r, SplitRevision(named).0, spelled);
  }

  lemma {:induction false} BareParsesWhatNames(text: string, r: Ref)
    ensures ParseBare(text) == Some(r) <==> IsNamed(text, r)
  {
    if ParseBare(text) == Some(r) {
      ParsedIsNamed(text);
    }
    if IsNamed(text, r) {
      var path, revision :| Names(text, r, path, revision);
      NamedParses(text, r, path, revision);
    }
  }

  /** Parsing is exact: a text yields a reference exactly when, once blanks and
      one host have come off, it names that reference. */
  lemma {:induction false} ParsesWhatNames(input: string, r: Ref)
    ensures Parse(input) == Some(r) <==> Trim(input) != [] && IsNamed(StripHost(Trim(input), HOSTS), r)
  {
    BareParsesWhatNames(StripHost(Trim(input), HOSTS), r);
  }
}
