/** The hash chain of the audit log.

    Hashing, signing and the JSON form of an entry are values the model takes
    as given; only the laws stated here are used, and no hash is taken to be
    injective. */
module AuditChain {

  import opened Prelude

  datatype Entry = Entry(
    logId: string, timestamp: string, payloadHash: string,
    entryHash: string, signature: string, payload: Bytes, sequence: nat)

  datatype Node = Node(
    sha: Bytes -> string,
    sign: Bytes -> string,
    wellFormed: string -> bool,
    verify: (Bytes, string) -> bool,
    encode: Entry -> Bytes,
    decode: Bytes -> Option<Entry>,
    deployment: string,
    maxFileBytes: nat)

  const GENESIS_CONSTANT: Bytes := "CORDON_LOG_GENESIS_V2"

  /** A signature this key makes reads back and verifies. */
  ghost predicate Signs(n: Node) {
    forall m: Bytes :: n.wellFormed(n.sign(m)) && n.verify(m, n.sign(m))
  }

  function GenesisPreimage(deployment: string): Bytes {
    GENESIS_CONSTANT + deployment + "GENESIS"
  }

  function GenesisHash(sha: Bytes -> string, deployment: string): string {
    sha(GenesisPreimage(deployment))
  }

  function Preimage(prev: string, timestamp: string, payloadHash: string): Bytes {
    prev + timestamp + payloadHash
  }

  function PrevHash(sha: Bytes -> string, deployment: string, es: seq<Entry>, i: nat): string
    requires i <= |es|
  {
    if i == 0 then GenesisHash(sha, deployment) else es[i - 1].entryHash
  }

  function EntryPreimage(sha: Bytes -> string, deployment: string, es: seq<Entry>, i: nat): Bytes
    requires i < |es|
  {
    Preimage(PrevHash(sha, deployment, es, i), es[i].timestamp, es[i].payloadHash)
  }

  ghost predicate LinkedAt(sha: Bytes -> string, deployment: string, es: seq<Entry>, i: nat)
    requires i < |es|
  {
    && es[i].entryHash == sha(EntryPreimage(sha, deployment, es, i))
    && es[i].payloadHash == sha(es[i].payload)
  }

  /** The hashes link up, whoever signed them. */
  ghost predicate Linked(sha: Bytes -> string, deployment: string, es: seq<Entry>) {
    forall i :: 0 <= i < |es| ==> LinkedAt(sha, deployment, es, i)
  }

  /** Entry `i` links to the one before it, carries its number and is signed. */
  ghost predicate SoundAt(n: Node, es: seq<Entry>, i: nat)
    requires i < |es|
  {
    && LinkedAt(n.sha, n.deployment, es, i)
    && es[i].sequence == i + 1
    && n.wellFormed(es[i].signature) && n.verify(es[i].entryHash, es[i].signature)
  }

  /** A complete, signed chain numbered from one. */
  ghost predicate Chain(n: Node, es: seq<Entry>) {
    forall i :: 0 <= i < |es| ==> SoundAt(n, es, i)
  }

  lemma {:induction false} ChainIsLinked(n: Node, es: seq<Entry>)
    requires Chain(n, es)
    ensures Linked(n.sha, n.deployment, es)
  {
    forall i | 0 <= i < |es| ensures LinkedAt(n.sha, n.deployment, es, i) {
      assert SoundAt(n, es, i);
    }
  }

  // ----- Anchoring -----

  /** What walking two chains back from a common hash finds. */
  datatype Evidence = Same | Collision(x: Bytes, y: Bytes)

  function WalkBack(sha: Bytes -> string, deployment: string, a: seq<Entry>, i: nat, b: seq<Entry>, j: nat): Evidence
    requires i < |a| && j < |b|
    decreases i
  {
    var p, q := EntryPreimage(sha, deployment, a, i), EntryPreimage(sha, deployment, b, j);
    if p != q then Collision(p, q)
    else if a[i].payload != b[j].payload then Collision(a[i].payload, b[j].payload)
    else if i == 0 && j == 0 then Same
    else if i == 0 then Collision(GenesisPreimage(deployment), EntryPreimage(sha, deployment, b, j - 1))
    else if j == 0 then Collision(EntryPreimage(sha, deployment, a, i - 1), GenesisPreimage(deployment))
    else WalkBack(sha, deployment, a, i - 1, b, j - 1)
  }

  /** Both outer fields have a fixed width, so a preimage reads one way only. */
  lemma {:induction false} PreimageFields(p: string, t: string, h: string, p': string, t': string, h': string)
    requires |p| == |p'| && |h| == |h'| && Preimage(p, t, h) == Preimage(p', t', h')
    ensures p == p' && t == t' && h == h'
  {
    var x, y := Preimage(p, t, h), Preimage(p', t', h');
    assert p == x[..|p|] && p' == y[..|p|];
    assert h == x[|x| - |h|..] && h' == y[|y| - |h|..];
    assert t == x[|p|..|x| - |h|] && t' == y[|p|..|y| - |h|];
  }

  lemma {:induction false} PrevIsHash(sha: Bytes -> string, deployment: string, es: seq<Entry>, i: nat)
    requires Hashes(sha) && Linked(sha, deployment, es) && i <= |es|
    ensures IsHash(PrevHash(sha, deployment, es, i))
  {
    if i > 0 {
      assert LinkedAt(sha, deployment, es, i - 1);
    }
  }

  /** The genesis preimage starts outside the hexadecimal alphabet. */
  lemma {:induction false} GenesisIsNoEntry(sha: Bytes -> string, deployment: string, es: seq<Entry>, i: nat)
    requires Hashes(sha) && Linked(sha, deployment, es) && i < |es|
    ensures EntryPreimage(sha, deployment, es, i) != GenesisPreimage(deployment)
  {
    PrevIsHash(sha, deployment, es, i);
    var p := PrevHash(sha, deployment, es, i);
    assert EntryPreimage(sha, deployment, es, i)[0] == p[0];
    assert GenesisPreimage(deployment)[0] == GENESIS_CONSTANT[0] == 'C';
    assert IsHexDigit(p[0]);
  }

  ghost predicate SameContent(a: Entry, b: Entry) {
    a.timestamp == b.timestamp && a.payload == b.payload && a.entryHash == b.entryHash
  }

  /** The anchor guarantee. A tail hash kept outside the log fixes everything
      before it: two linked logs of one deployment that share an entry hash
      share its position and the timestamp and payload of every entry up to
      it, or walking back names two byte strings with the same digest. */
  lemma {:induction false} AnchorFixesHistory(
      sha: Bytes -> string, deployment: string, a: seq<Entry>, i: nat, b: seq<Entry>, j: nat)
    requires Hashes(sha) && Linked(sha, deployment, a) && Linked(sha, deployment, b)
    requires i < |a| && j < |b| && a[i].entryHash == b[j].entryHash
    ensures
      match WalkBack(sha, deployment, a, i, b, j)
      case Collision(x, y) => x != y && sha(x) == sha(y)
      case Same => i == j && forall k :: 0 <= k <= i ==> SameContent(a[k], b[k])
    decreases i
  {
    assert LinkedAt(sha, deployment, a, i) && LinkedAt(sha, deployment, b, j);
    if EntryPreimage(sha, deployment, a, i) == EntryPreimage(sha, deployment, b, j) {
      SamePreimage(sha, deployment, a, i, b, j);
      if a[i].payload == b[j].payload {
        if i > 0 && j > 0 {
          AnchorFixesHistory(sha, deployment, a, i - 1, b, j - 1);
        } else {
          GenesisEnds(sha, deployment, a, i, b, j);
        }
      }
    }
  }

  lemma {:induction false} SamePreimage(
      sha: Bytes -> string, deployment: string, a: seq<Entry>, i: nat, b: seq<Entry>, j: nat)
    requires Hashes(sha) && Linked(sha, deployment, a) && Linked(sha, deployment, b)
    requires i < |a| && j < |b| && EntryPreimage(sha, deployment, a, i) == EntryPreimage(sha, deployment, b, j)
    ensures PrevHash(sha, deployment, a, i) == PrevHash(sha, deployment, b, j)
    ensures a[i].timestamp == b[j].timestamp && a[i].payloadHash == b[j].payloadHash
  {
    PrevIsHash(sha, deployment, a, i);
    PrevIsHash(sha, deployment, b, j);
    assert LinkedAt(sha, deployment, a, i) && LinkedAt(sha, deployment, b, j);
    assert IsHash(a[i].payloadHash) && IsHash(b[j].payloadHash);
    PreimageFields(PrevHash(sha, deployment, a, i), a[i].timestamp, a[i].payloadHash,
                   PrevHash(sha, deployment, b, j), b[j].timestamp, b[j].payloadHash);
  }

  /** Only one chain reaching its start makes a collision with the genesis. */
  lemma {:induction false} GenesisEnds(
      sha: Bytes -> string, deployment: string, a: seq<Entry>, i: nat, b: seq<Entry>, j: nat)
    requires Hashes(sha) && Linked(sha, deployment, a) && Linked(sha, deployment, b)
    requires i < |a| && j < |b| && (i == 0 || j == 0)
    requires PrevHash(sha, deployment, a, i) == PrevHash(sha, deployment, b, j)
    ensures j > 0 ==>
              && EntryPreimage(sha, deployment, b, j - 1) != GenesisPreimage(deployment)
              && sha(EntryPreimage(sha, deployment, b, j - 1)) == sha(GenesisPreimage(deployment))
    ensures i > 0 ==>
              && EntryPreimage(sha, deployment, a, i - 1) != GenesisPreimage(deployment)
              && sha(EntryPreimage(sha, deployment, a, i - 1)) == sha(GenesisPreimage(deployment))
  {
    if j > 0 {
      assert LinkedAt(sha, deployment, b, j - 1);
      GenesisIsNoEntry(sha, deployment, b, j - 1);
    } else if i > 0 {
      assert LinkedAt(sha, deployment, a, i - 1);
      GenesisIsNoEntry(sha, deployment, a, i - 1);
    }
  }

  // ----- Growing and cutting a chain -----

  lemma {:induction false} ChainPrefix(n: Node, es: seq<Entry>, k: nat)
    requires Chain(n, es) && k <= |es|
    ensures Chain(n, es[..k])
  {
    forall i | 0 <= i < k ensures SoundAt(n, es[..k], i) {
      assert SoundAt(n, es, i);
    }
  }

  /** The entry `append` writes after this chain. */
  function NextEntry(n: Node, prev: string, sequence: nat, logId: string, timestamp: string, payload: Bytes): Entry {
    var payloadHash := n.sha(payload);
    var entryHash := n.sha(Preimage(prev, timestamp, payloadHash));
    Entry(logId, timestamp, payloadHash, entryHash, n.sign(entryHash), payload, sequence + 1)
  }

  lemma {:induction false} ChainGrows(n: Node, es: seq<Entry>, logId: string, timestamp: string, payload: Bytes)
    requires Signs(n) && Chain(n, es)
    ensures Chain(n, es + [NextEntry(n, PrevHash(n.sha, n.deployment, es, |es|), |es|, logId, timestamp, payload)])
  {
    var e := NextEntry(n, PrevHash(n.sha, n.deployment, es, |es|), |es|, logId, timestamp, payload);
    var grown := es + [e];
    forall i | 0 <= i < |grown| ensures SoundAt(n, grown, i) {
      if i < |es| {
        assert SoundAt(n, es, i);
      }
    }
  }
}
