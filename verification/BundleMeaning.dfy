/** What an accepted manifest and an opened shard guarantee: nothing outside the
    bundle is named, nothing is plaintext in disguise, the bytes are those the
    manifest fixed, and staging takes them in layer order. */
module BundleMeaning {
  import opened Prelude
  import opened Sorting
  import opened Bundle

  // ----- Paths -----

  /** How far below the bundle directory a path of these components ends. */
  function Depth(parts: seq<string>): int {
    if parts == [] then 0
    else
      var last := parts[|parts| - 1];
      Depth(parts[..|parts| - 1]) + (if last == ".." then -1 else if last == "." || last == "" then 0 else 1)
  }

  predicate HoldsDepth(parts: seq<string>, i: nat)
    requires i < |parts|
  {
    Depth(parts[..i]) <= Depth(parts[..i + 1])
  }

  /** No step of the path goes up. */
  ghost predicate NeverClimbs(parts: seq<string>) {
    forall i :: 0 <= i < |parts| ==> HoldsDepth(parts, i)
  }

  lemma {:induction false} NeverClimbsIff(parts: seq<string>)
    ensures NeverClimbs(parts) <==> forall i :: 0 <= i < |parts| ==> parts[i] != ".."
  {
    forall i | 0 <= i < |parts| ensures HoldsDepth(parts, i) <==> parts[i] != ".." {
      assert parts[..i + 1][..i] == parts[..i];
    }
  }

  lemma {:induction false} NeverBelowZero(parts: seq<string>, n: nat)
    requires NeverClimbs(parts) && n <= |parts|
    ensures Depth(parts[..n]) >= 0
    decreases n
  {
    if n > 0 {
      NeverBelowZero(parts, n - 1);
      assert HoldsDepth(parts, n - 1);
    }
  }

  /** A shard path is accepted exactly when it is relative, does not begin at `.`,
      and no step of it goes up; so no part of it is ever outside the bundle. */
  lemma {:induction false} InnerPathStaysInside(path: string)
    ensures
      var parts := Split(path, '/');
      && (IsInnerPath(path) <==> (path == [] || path[0] != '/') && parts[0] != "." && NeverClimbs(parts))
      && (IsInnerPath(path) ==> forall n :: 0 <= n <= |parts| ==> Depth(parts[..n]) >= 0)
  {
    var parts := Split(path, '/');
    NeverClimbsIff(parts);
    if IsInnerPath(path) {
      forall n | 0 <= n <= |parts| ensures Depth(parts[..n]) >= 0 {
        NeverBelowZero(parts, n);
      }
    }
  }

  /** The staging file is named after the bundle, and that name is one component
      that stays in the staging directory. */
  lemma {:induction false} BundleIdIsOneFile(id: string)
    requires IsSafeBundleId(id)
    ensures IsInnerPath(id) && Split(id, '/') == [id] && Depth([id]) == 1
  {
    SplitNone(id, '/');
    assert [id][..0] == [];
    assert Depth([]) == 0;
  }

  // ----- Opened shards -----

  /** A shard opens exactly when its file has the manifest's ciphertext digest and
      decrypts, under the shard's own key and nonce, to bytes of the manifest's
      plaintext digest; those bytes are what it opens to. */
  lemma {:induction false} OpensIff(v: Vault, disk: Disk, index: nat, d: Shard, key: Key, p: Bytes)
    ensures
      Opened(v, disk, index, d, key) == Good(p)
      <==> (&& CiphertextMatches(v, disk, d)
            && v.decodeNonce(d.iv).Some? && |v.decodeNonce(d.iv).value| == NONCE_BYTES
            && v.decrypt(v.shardKey(key, index), disk[d.path], v.decodeNonce(d.iv).value) == Some(p)
            && v.sha(p) == d.plaintextSha)
  {
  }

  /** A manifest fixes the bytes of each shard. On any two disks and under any two
      keys, a shard that opens opens to the same bytes, or two inputs with one
      digest are in hand; and the same goes for the files. */
  lemma {:induction false} ManifestFixesShards(
      v: Vault, a: Disk, b: Disk, index: nat, d: Shard, key: Key, other: Key, p: Bytes, q: Bytes)
    requires Opened(v, a, index, d, key) == Good(p) && Opened(v, b, index, d, other) == Good(q)
    ensures p == q || (p != q && v.sha(p) == v.sha(q))
    ensures d.path in a && d.path in b && (a[d.path] == b[d.path] || v.sha(a[d.path]) == v.sha(b[d.path]))
  {
    OpensIff(v, a, index, d, key, p);
    OpensIff(v, b, index, d, other, q);
  }

  /** Nothing the structure check accepts is plaintext in disguise: a shard that
      opens differs from its file. */
  lemma {:induction false} SealedIsNotPlaintext(v: Vault, m: Manifest, disk: Disk, key: Key, i: nat)
    requires IsStructured(v, m) && i < |m.shards| && Opened(v, disk, i, m.shards[i], key).Good?
    ensures disk[m.shards[i].path] != Opened(v, disk, i, m.shards[i], key).plaintext
    ensures Lower(m.encryption) == "aes-256-gcm" && Lower(m.derivation) == "hkdf-sha256"
  {
    assert IsEncryptedShard(v, m.shards[i]);
  }

  // ----- Staging order -----

  /** By layer, and within a layer by place in the manifest. */
  predicate Precedes(a: Numbered, b: Numbered) {
    a.shard.layerIndex < b.shard.layerIndex || (a.shard.layerIndex == b.shard.layerIndex && a.index < b.index)
  }

  ghost predicate InOrder(order: seq<Numbered>) {
    forall i, j :: 0 <= i < j < |order| ==> Precedes(order[i], order[j])
  }

  ghost predicate AllAfter(order: seq<Numbered>, index: int) {
    forall i :: 0 <= i < |order| ==> order[i].index > index
  }

  lemma {:induction false} InsertInOrder(x: Numbered, order: seq<Numbered>)
    requires InOrder(order) && AllAfter(order, x.index)
    ensures InOrder(Insert(ByLayer, x, order))
    decreases |order|
  {
    if order != [] && !ByLayer(x, order[0]) {
      InsertInOrder(x, order[1..]);
      var rest := Insert(ByLayer, x, order[1..]);
      forall k | 0 <= k < |rest| ensures Precedes(order[0], rest[k]) {
        assert rest[k] in multiset(rest);
        if rest[k] != x {
          assert rest[k] in order[1..];
          var p :| 0 <= p < |order[1..]| && order[1..][p] == rest[k];
          assert order[p + 1] == rest[k];
        }
      }
    }
  }

  lemma {:induction false} SortedAfter(s: seq<Numbered>, index: int)
    requires AllAfter(s, index)
    ensures AllAfter(Sort(ByLayer, s), index)
  {
    var r := Sort(ByLayer, s);
    forall i | 0 <= i < |r| ensures r[i].index > index {
      assert r[i] in multiset(s);
    }
  }

  lemma {:induction false} SortInOrder(s: seq<Numbered>)
    requires forall i, j :: 0 <= i < j < |s| ==> s[i].index < s[j].index
    ensures InOrder(Sort(ByLayer, s))
    decreases |s|
  {
    if s != [] {
      SortInOrder(s[1..]);
      SortedAfter(s[1..], s[0].index);
      InsertInOrder(s[0], Sort(ByLayer, s[1..]));
    }
  }

  /** Staging takes every shard once, by layer, and those of one layer in the order
      of the manifest. */
  lemma {:induction false} StagingIsByLayer(m: Manifest)
    ensures InOrder(StagingOrder(m)) && |StagingOrder(m)| == |m.shards|
    ensures forall k :: 0 <= k < |StagingOrder(m)| ==>
              StagingOrder(m)[k].index < |m.shards| && StagingOrder(m)[k].shard == m.shards[StagingOrder(m)[k].index]
    ensures forall i :: 0 <= i < |m.shards| ==> Numbered(i, m.shards[i]) in StagingOrder(m)
  {
    SortInOrder(Enumerate(m.shards));
    OrderHoldsEveryShard(m);
  }
}
