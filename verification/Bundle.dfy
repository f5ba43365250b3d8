/** Sealing model weights into encrypted bundles, the two checkers that read
    them back, and why they agree.

    Hashing, key derivation, the authenticated cipher and the base64 form of a
    nonce are values the model takes as given, with the laws in `Lawful`. */
module Bundle {
  import opened Prelude
  import opened Sorting

  type Key = string

  datatype Vault = Vault(
    sha: Bytes -> string,
    bundleKey: (Key, string, string) -> Key,
    shardKey: (Key, nat) -> Key,
    encrypt: (Key, Bytes, Bytes) -> Bytes,
    decrypt: (Key, Bytes, Bytes) -> Option<Bytes>,
    encodeNonce: Bytes -> string,
    decodeNonce: string -> Option<Bytes>)

  ghost predicate Lawful(v: Vault) {
    && Hashes(v.sha)
    && (forall k: Key, p: Bytes, n: Bytes :: v.decrypt(k, v.encrypt(k, p, n), n) == Some(p))
    && (forall n: Bytes :: v.decodeNonce(v.encodeNonce(n)) == Some(n))
  }

  datatype Shard = Shard(
    path: string, plaintextSha: string, ciphertextSha: string,
    iv: string, size: nat, layerIndex: nat)

  datatype Manifest = Manifest(
    bundleId: string, encryption: string, derivation: string,
    shards: seq<Shard>, totalSha: string)

  /** Files of a bundle directory by relative path. */
  type Disk = map<string, Bytes>

  const ENCRYPTION: string := "AES-256-GCM"
  const DERIVATION: string := "HKDF-SHA256"
  const NONCE_BYTES: nat := 12
  const READ_CHUNK: nat := 8 * 1024 * 1024

  // ----- Structure -----

  predicate IsSafeBundleId(id: string) {
    && 0 < |id| <= 128 && id != "." && id != ".."
    && forall i :: 0 <= i < |id| ==> IsAlphanumeric(id[i]) || id[i] == '-' || id[i] == '_' || id[i] == '.'
  }

  predicate IsDigestText(s: string) {
    IsHash(Lower(s))
  }

  /** Relative, and never climbing out of the bundle. */
  predicate IsInnerPath(path: string) {
    var parts := Split(path, '/');
    && !(|path| > 0 && path[0] == '/')
    && parts[0] != "." && forall i :: 0 <= i < |parts| ==> parts[i] != ".."
  }

  function NonceOf(v: Vault, iv: string): Option<Bytes> {
    match v.decodeNonce(iv)
    case Some(n) => if |n| == NONCE_BYTES then Some(n) else None
    case None => None
  }

  predicate IsZero(n: Bytes) {
    forall i :: 0 <= i < |n| ==> n[i] == 0 as char
  }

  predicate IsEncryptedShard(v: Vault, d: Shard) {
    && IsInnerPath(d.path)
    && IsDigestText(d.plaintextSha) && IsDigestText(d.ciphertextSha)
    && !EqualIgnoringCase(d.plaintextSha, d.ciphertextSha)
    && NonceOf(v, d.iv).Some? && !IsZero(NonceOf(v, d.iv).value)
  }

  predicate IsStructured(v: Vault, m: Manifest) {
    && !IsBlank(m.bundleId) && IsSafeBundleId(m.bundleId)
    && EqualIgnoringCase(m.encryption, ENCRYPTION) && EqualIgnoringCase(m.derivation, DERIVATION)
    && m.shards != []
    && (forall i :: 0 <= i < |m.shards| ==> IsEncryptedShard(v, m.shards[i]))
    && (forall i, j :: 0 <= i < j < |m.shards| ==> m.shards[i].iv != m.shards[j].iv)
    && IsDigestText(m.totalSha)
  }

  // ----- Opening one shard -----

  datatype Checked = Missing | WrongCiphertext | BadNonce | Undecryptable | WrongPlaintext | Good(plaintext: Bytes)

  /** The keyed check of one shard. */
  function Opened(v: Vault, disk: Disk, index: nat, d: Shard, key: Key): Checked {
    if d.path !in disk then Missing
    else
      var c := disk[d.path];
      if v.sha(c) != d.ciphertextSha then WrongCiphertext
      else if NonceOf(v, d.iv).None? then BadNonce
      else
        match v.decrypt(v.shardKey(key, index), c, NonceOf(v, d.iv).value)
        case None => Undecryptable
        case Some(p) => if v.sha(p) != d.plaintextSha then WrongPlaintext else Good(p)
  }

  predicate CiphertextMatches(v: Vault, disk: Disk, d: Shard) {
    d.path in disk && v.sha(disk[d.path]) == d.ciphertextSha
  }

  function Concat(parts: seq<Bytes>): Bytes {
    if parts == [] then [] else parts[0] + Concat(parts[1..])
  }

  lemma {:induction false} ConcatSplit(a: seq<Bytes>, b: seq<Bytes>)
    ensures Concat(a + b) == Concat(a) + Concat(b)
    decreases |a|
  {
    if a == [] {
      assert a + b == b;
    } else {
      assert (a + b)[1..] == a[1..] + b;
      ConcatSplit(a[1..], b);
    }
  }

  lemma {:induction false} ConcatSnoc(a: seq<Bytes>, p: Bytes)
    ensures Concat(a + [p]) == Concat(a) + p
  {
    ConcatSplit(a, [p]);
    assert [p][1..] == [];
    assert Concat([p]) == p + [];
  }

  // ----- The verifier -----

  /** The plaintexts of the first `k` shards, while all of them open. */
  function Plaintexts(v: Vault, disk: Disk, shards: seq<Shard>, key: Key, k: nat): Option<seq<Bytes>>
    requires k <= |shards|
  {
    if k == 0 then Some([])
    else
      match (Plaintexts(v, disk, shards, key, k - 1), Opened(v, disk, k - 1, shards[k - 1], key))
      case (Some(ps), Good(p)) => Some(ps + [p])
      case (_, _) => None
  }

  /** Keyed verification: every shard opens and the whole digest matches. */
  predicate Passes(v: Vault, m: Manifest, disk: Disk, key: Key) {
    var ps := Plaintexts(v, disk, m.shards, key, |m.shards|);
    ps.Some? && v.sha(Concat(ps.value)) == m.totalSha
  }

  datatype Failure = BadShard(index: nat, problem: Checked) | BadTotal

  /** What is wrong with shard `i`, if anything. Without a key only its ciphertext
      is looked at. */
  ghost function ProblemWith(v: Vault, m: Manifest, disk: Disk, key: Option<Key>, i: nat): Option<Checked>
    requires i < |m.shards|
  {
    var d := m.shards[i];
    if key.Some? then
      var found := Opened(v, disk, i, d, key.value);
      if found.Good? then None else Some(found)
    else if d.path !in disk then Some(Missing)
    else if v.sha(disk[d.path]) != d.ciphertextSha then Some(WrongCiphertext)
    else None
  }

  ghost predicate NoProblem(v: Vault, m: Manifest, disk: Disk, key: Option<Key>) {
    forall i :: 0 <= i < |m.shards| ==> ProblemWith(v, m, disk, key, i).None?
  }

  /** What belongs in a report: each failing shard with what is wrong with it, and
      the whole digest only once all shards open. */
  ghost predicate IsReported(v: Vault, m: Manifest, disk: Disk, key: Option<Key>, f: Failure) {
    match f
    case BadShard(i, problem) => i < |m.shards| && ProblemWith(v, m, disk, key, i) == Some(problem)
    case BadTotal => key.Some? && NoProblem(v, m, disk, key) && !Passes(v, m, disk, key.value)
  }

  ghost predicate IsReportedBelow(v: Vault, m: Manifest, disk: Disk, key: Option<Key>, k: nat, f: Failure) {
    f.BadShard? && f.index < k && IsReported(v, m, disk, key, f)
  }

  ghost predicate ReportsBelow(v: Vault, m: Manifest, disk: Disk, key: Option<Key>, k: nat, failures: seq<Failure>) {
    forall f :: f in failures <==> IsReportedBelow(v, m, disk, key, k, f)
  }

  lemma {:induction false} ReportGrows(v: Vault, m: Manifest, disk: Disk, key: Option<Key>, k: nat, failures: seq<Failure>)
    requires k < |m.shards| && ReportsBelow(v, m, disk, key, k, failures)
    ensures
      match ProblemWith(v, m, disk, key, k)
      case None => ReportsBelow(v, m, disk, key, k + 1, failures)
      case Some(problem) => ReportsBelow(v, m, disk, key, k + 1, failures + [BadShard(k, problem)])
  {
    var problem := ProblemWith(v, m, disk, key, k);
    forall f ensures IsReportedBelow(v, m, disk, key, k + 1, f)
                     <==> IsReportedBelow(v, m, disk, key, k, f) || (problem.Some? && f == BadShard(k, problem.value))
    {
    }
  }

  lemma {:induction false} NothingReported(v: Vault, m: Manifest, disk: Disk, key: Option<Key>, failures: seq<Failure>)
    requires ReportsBelow(v, m, disk, key, |m.shards|, failures)
    ensures failures == [] <==> NoProblem(v, m, disk, key)
  {
    if failures != [] {
      assert IsReportedBelow(v, m, disk, key, |m.shards|, failures[0]);
    } else {
      forall i | 0 <= i < |m.shards| ensures ProblemWith(v, m, disk, key, i).None? {
        if ProblemWith(v, m, disk, key, i).Some? {
          assert IsReportedBelow(v, m, disk, key, |m.shards|, BadShard(i, ProblemWith(v, m, disk, key, i).value));
        }
      }
    }
  }

  lemma {:induction false} WholeReport(v: Vault, m: Manifest, disk: Disk, key: Option<Key>, failures: seq<Failure>, total: bool)
    requires ReportsBelow(v, m, disk, key, |m.shards|, failures)
    requires total <==> key.Some? && failures == [] && !Passes(v, m, disk, key.value)
    ensures forall f :: f in (if total then failures + [BadTotal] else failures) <==> IsReported(v, m, disk, key, f)
  {
    NothingReported(v, m, disk, key, failures);
    forall f | f in failures ensures f.BadShard? && IsReported(v, m, disk, key, f) {
      assert IsReportedBelow(v, m, disk, key, |m.shards|, f);
    }
    forall f | IsReported(v, m, disk, key, f) ensures f in failures || (total && f == BadTotal) {
      if f.BadShard? {
        assert IsReportedBelow(v, m, disk, key, |m.shards|, f);
      }
    }
  }

  /** The report names every failing shard with what is wrong with it, and the
      whole digest only once all shards open; nothing else is in it. */
  method CheckShards(v: Vault, m: Manifest, disk: Disk, key: Option<Key>) returns (failures: seq<Failure>)
    ensures forall f :: f in failures <==> IsReported(v, m, disk, key, f)
    ensures key.Some? ==> (failures == [] <==> Passes(v, m, disk, key.value))
    ensures key.None? ==>
              (failures == [] <==> forall i :: 0 <= i < |m.shards| ==> CiphertextMatches(v, disk, m.shards[i]))
  {
    failures := [];
    var hashed: Bytes := [];
    for i := 0 to |m.shards|
      invariant ReportsBelow(v, m, disk, key, i, failures)
      invariant key.Some? ==> Summary(v, m, disk, key.value, i, failures, hashed)
    {
      var d := m.shards[i];
      ReportGrows(v, m, disk, key, i, failures);
      if key.None? {
        if d.path !in disk {
          failures := failures + [BadShard(i, Missing)];
        } else if v.sha(disk[d.path]) != d.ciphertextSha {
          failures := failures + [BadShard(i, WrongCiphertext)];
        }
      } else {
        var checked := Opened(v, disk, i, d, key.value);
        SummaryGrows(v, m, disk, key.value, i, failures, hashed);
        match checked {
          case Good(p) => hashed := hashed + p;
          case _ => failures := failures + [BadShard(i, checked)];
        }
      }
    }
    NothingReported(v, m, disk, key, failures);
    WholeReport(v, m, disk, key, failures, key.Some? && failures == [] && !Passes(v, m, disk, key.value));
    assert key.None? ==> forall i :: 0 <= i < |m.shards| ==>
             (ProblemWith(v, m, disk, key, i).None? <==> CiphertextMatches(v, disk, m.shards[i]));
    if key.Some? && failures == [] && v.sha(hashed) != m.totalSha {
      failures := failures + [BadTotal];
    }
  }

  /** What the loop knows after `k` shards. */
  ghost predicate Summary(v: Vault, m: Manifest, disk: Disk, key: Key, k: nat, failures: seq<Failure>, hashed: Bytes)
    requires k <= |m.shards|
  {
    && (failures == [] <==> Plaintexts(v, disk, m.shards, key, k).Some?)
    && (failures == [] ==> hashed == Concat(Plaintexts(v, disk, m.shards, key, k).value))
  }

  lemma {:induction false} SummaryGrows(v: Vault, m: Manifest, disk: Disk, key: Key, k: nat, failures: seq<Failure>, hashed: Bytes)
    requires k < |m.shards| && Summary(v, m, disk, key, k, failures, hashed)
    ensures
      match Opened(v, disk, k, m.shards[k], key)
      case Good(p) => Summary(v, m, disk, key, k + 1, failures, hashed + p)
      case other => Summary(v, m, disk, key, k + 1, failures + [BadShard(k, other)], hashed)
  {
    var found := Opened(v, disk, k, m.shards[k], key);
    if found.Good? && failures == [] {
      ConcatSnoc(Plaintexts(v, disk, m.shards, key, k).value, found.plaintext);
    }
  }

  /** Verification of a bundle directory; none if its manifest is refused. */
  method Verify(v: Vault, m: Manifest, disk: Disk, key: Option<(Key, string)>) returns (report: Option<seq<Failure>>)
    ensures report.None? <==> !IsStructured(v, m)
    ensures report.Some? ==>
              var bundleKey := if key.Some? then Some(v.bundleKey(key.value.0, m.bundleId, key.value.1)) else None;
              forall f :: f in report.value <==> IsReported(v, m, disk, bundleKey, f)
    ensures report.Some? && key.Some? ==>
              (report.value == [] <==> Passes(v, m, disk, v.bundleKey(key.value.0, m.bundleId, key.value.1)))
    ensures report.Some? && key.None? ==>
              (report.value == [] <==> forall i :: 0 <= i < |m.shards| ==> CiphertextMatches(v, disk, m.shards[i]))
  {
    if !IsStructured(v, m) {
      return None;
    }
    var bundleKey := if key.Some? then Some(v.bundleKey(key.value.0, m.bundleId, key.value.1)) else None;
    var failures := CheckShards(v, m, disk, bundleKey);
    report := Some(failures);
  }

  // ----- Staging -----

  datatype Numbered = Numbered(index: nat, shard: Shard)

  predicate ByLayer(a: Numbered, b: Numbered) {
    a.shard.layerIndex <= b.shard.layerIndex
  }

  function Enumerate(shards: seq<Shard>): seq<Numbered> {
    seq(|shards|, i requires 0 <= i < |shards| => Numbered(i, shards[i]))
  }

  /** Shards in layer order, each keeping its place in the manifest. */
  function StagingOrder(m: Manifest): (r: seq<Numbered>)
    ensures |r| == |m.shards|
  {
    var r := Sort(ByLayer, Enumerate(m.shards));
    assert |multiset(r)| == |multiset(Enumerate(m.shards))|;
    r
  }

  function PlaintextsOf(v: Vault, disk: Disk, order: seq<Numbered>, key: Key, k: nat): Option<seq<Bytes>>
    requires k <= |order|
  {
    if k == 0 then Some([])
    else
      match (PlaintextsOf(v, disk, order, key, k - 1), Opened(v, disk, order[k - 1].index, order[k - 1].shard, key))
      case (Some(ps), Good(p)) => Some(ps + [p])
      case (_, _) => None
  }

  /** Refused staging may leave a partly written file behind. */
  datatype StageResult = Staged(content: Bytes) | Refused(leftBehind: Option<Bytes>)

  /** The shards before `k` open and this one does not. */
  predicate StopsAt(v: Vault, disk: Disk, order: seq<Numbered>, key: Key, k: nat)
    requires k < |order|
  {
    PlaintextsOf(v, disk, order, key, k).Some? && !Opened(v, disk, order[k].index, order[k].shard, key).Good?
  }

  /** Decrypt every shard into one file. A shard that fails ends it at once and
      leaves what was written; a wrong whole digest removes the file. */
  method Stage(v: Vault, m: Manifest, disk: Disk, key: Key) returns (r: StageResult)
    ensures
      var order := StagingOrder(m);
      var all := PlaintextsOf(v, disk, order, key, |order|);
      && (r.Staged? <==> all.Some? && v.sha(Concat(all.value)) == m.totalSha)
      && (r.Staged? ==> r.content == Concat(all.value))
      && (r.Refused? ==>
            if all.Some? then r.leftBehind == None
            else exists k :: 0 <= k < |order| && StopsAt(v, disk, order, key, k)
                   && r.leftBehind == Some(Concat(PlaintextsOf(v, disk, order, key, k).value)))
  {
    var order := StagingOrder(m);
    var written: Bytes := [];
    for k := 0 to |order|
      invariant PlaintextsOf(v, disk, order, key, k).Some?
      invariant written == Concat(PlaintextsOf(v, disk, order, key, k).value)
    {
      var shard := Opened(v, disk, order[k].index, order[k].shard, key);
      if !shard.Good? {
        NotAllOpen(v, disk, order, key, k, |order|);
        assert StopsAt(v, disk, order, key, k);
        return Refused(Some(written));
      }
      ConcatSnoc(PlaintextsOf(v, disk, order, key, k).value, shard.plaintext);
      written := written + shard.plaintext;
    }
    if v.sha(written) != m.totalSha {
      return Refused(None);
    }
    r := Staged(written);
  }

  lemma {:induction false} NotAllOpen(v: Vault, disk: Disk, order: seq<Numbered>, key: Key, k: nat, n: nat)
    requires k < n <= |order| && !Opened(v, disk, order[k].index, order[k].shard, key).Good?
    ensures PlaintextsOf(v, disk, order, key, n).None?
    decreases n
  {
    if k < n - 1 {
      NotAllOpen(v, disk, order, key, k, n - 1);
    }
  }

  // ----- The two checkers agree -----

  ghost predicate LayersInOrder(m: Manifest) {
    forall i, j :: 0 <= i < j < |m.shards| ==> m.shards[i].layerIndex <= m.shards[j].layerIndex
  }

  lemma {:induction false} OrderIsManifestOrder(m: Manifest)
    requires LayersInOrder(m)
    ensures StagingOrder(m) == Enumerate(m.shards)
  {
    var e := Enumerate(m.shards);
    forall i, j | 0 <= i < j < |e| ensures ByLayer(e[i], e[j]) {
    }
    SortedStays(ByLayer, e);
  }

  lemma {:induction false} SamePlaintexts(v: Vault, disk: Disk, shards: seq<Shard>, key: Key, k: nat)
    requires k <= |shards|
    ensures PlaintextsOf(v, disk, Enumerate(shards), key, k) == Plaintexts(v, disk, shards, key, k)
    decreases k
  {
    if k > 0 {
      SamePlaintexts(v, disk, shards, key, k - 1);
    }
  }

  /** What staging yields when it succeeds. */
  function StagedContent(v: Vault, m: Manifest, disk: Disk, key: Key): Option<Bytes> {
    var order := StagingOrder(m);
    match PlaintextsOf(v, disk, order, key, |order|)
    case None => None
    case Some(ps) => if v.sha(Concat(ps)) == m.totalSha then Some(Concat(ps)) else None
  }

  /** With layers in manifest order, the keyed verifier passes exactly the
      bundles that staging accepts, and what is staged has the manifest's
      whole digest. */
  lemma {:induction false} CheckersAgree(v: Vault, m: Manifest, disk: Disk, key: Key)
    requires LayersInOrder(m)
    ensures Passes(v, m, disk, key) <==> StagedContent(v, m, disk, key).Some?
    ensures StagedContent(v, m, disk, key).Some? ==> v.sha(StagedContent(v, m, disk, key).value) == m.totalSha
  {
    OrderIsManifestOrder(m);
    SamePlaintexts(v, disk, m.shards, key, |m.shards|);
  }

  // ----- Any layer order -----

  ghost predicate AllOpen(v: Vault, m: Manifest, disk: Disk, key: Key) {
    forall i :: 0 <= i < |m.shards| ==> Opened(v, disk, i, m.shards[i], key).Good?
  }

  lemma {:induction false} OpenInOrder(v: Vault, disk: Disk, order: seq<Numbered>, key: Key, n: nat)
    requires n <= |order|
    ensures PlaintextsOf(v, disk, order, key, n).Some?
            <==> forall k :: 0 <= k < n ==> Opened(v, disk, order[k].index, order[k].shard, key).Good?
    decreases n
  {
    if n > 0 {
      OpenInOrder(v, disk, order, key, n - 1);
    }
  }

  lemma {:induction false} OrderHoldsEveryShard(m: Manifest)
    ensures forall k :: 0 <= k < |StagingOrder(m)| ==>
              StagingOrder(m)[k].index < |m.shards| && StagingOrder(m)[k].shard == m.shards[StagingOrder(m)[k].index]
    ensures forall i :: 0 <= i < |m.shards| ==> Numbered(i, m.shards[i]) in StagingOrder(m)
  {
    var e, order := Enumerate(m.shards), StagingOrder(m);
    forall k | 0 <= k < |order|
      ensures order[k].index < |m.shards| && order[k].shard == m.shards[order[k].index]
    {
      assert order[k] in multiset(e);
    }
    forall i | 0 <= i < |m.shards| ensures Numbered(i, m.shards[i]) in order {
      assert e[i] in multiset(order);
    }
  }

  /** Whatever order staging takes the shards in, it needs the same ones open. */
  lemma {:induction false} SameShardsOpen(v: Vault, m: Manifest, disk: Disk, key: Key)
    ensures PlaintextsOf(v, disk, StagingOrder(m), key, |StagingOrder(m)|).Some? <==> AllOpen(v, m, disk, key)
    ensures Plaintexts(v, disk, m.shards, key, |m.shards|).Some? <==> AllOpen(v, m, disk, key)
  {
    var e, order := Enumerate(m.shards), StagingOrder(m);
    OpenInOrder(v, disk, order, key, |order|);
    OpenInOrder(v, disk, e, key, |e|);
    SamePlaintexts(v, disk, m.shards, key, |m.shards|);
    OrderHoldsEveryShard(m);
    if PlaintextsOf(v, disk, order, key, |order|).Some? {
      forall i | 0 <= i < |m.shards| ensures Opened(v, disk, i, m.shards[i], key).Good? {
        var k :| 0 <= k < |order| && order[k] == Numbered(i, m.shards[i]);
      }
    }
    assert forall i :: 0 <= i < |e| ==> e[i] == Numbered(i, m.shards[i]);
  }

  function VerifiedContent(v: Vault, m: Manifest, disk: Disk, key: Key): Option<Bytes> {
    match Plaintexts(v, disk, m.shards, key, |m.shards|)
    case None => None
    case Some(ps) => Some(Concat(ps))
  }

  /** The plaintexts in layer order. */
  function LayeredContent(v: Vault, m: Manifest, disk: Disk, key: Key): Option<Bytes> {
    match PlaintextsOf(v, disk, StagingOrder(m), key, |StagingOrder(m)|)
    case None => None
    case Some(ps) => Some(Concat(ps))
  }

  /** For any layer order. A bundle with a shard that does not open is refused by
      both checkers. When all shards open they disagree exactly when one of the
      two orders has the manifest's digest and the other has not; and when both
      accept, the bytes are the same or two inputs with one digest are in hand. */
  lemma {:induction false} AnyLayerOrder(v: Vault, m: Manifest, disk: Disk, key: Key)
    ensures AllOpen(v, m, disk, key) <==> VerifiedContent(v, m, disk, key).Some?
    ensures AllOpen(v, m, disk, key) <==> LayeredContent(v, m, disk, key).Some?
    ensures !AllOpen(v, m, disk, key) ==> !Passes(v, m, disk, key) && StagedContent(v, m, disk, key).None?
    ensures AllOpen(v, m, disk, key) ==>
              var verified, layered := VerifiedContent(v, m, disk, key).value, LayeredContent(v, m, disk, key).value;
              && ((Passes(v, m, disk, key) <==> StagedContent(v, m, disk, key).Some?)
                  <==> (v.sha(verified) == m.totalSha <==> v.sha(layered) == m.totalSha))
              && (Passes(v, m, disk, key) && StagedContent(v, m, disk, key).Some? ==>
                    verified == layered || (verified != layered && v.sha(verified) == v.sha(layered)))
  {
    SameShardsOpen(v, m, disk, key);
  }
}
