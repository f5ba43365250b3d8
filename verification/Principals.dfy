/** Sealing and verifying under a principal: sealing drops the blanks around it,
    verifying takes it as it is. */
module Principals {
  import opened Prelude
  import opened Bundle
  import opened Sealing

  // ----- Another key -----

  /** What another bundle key makes of shard `i`. */
  function Reopened(v: Vault, key: Key, other: Key, nonce: nat -> Bytes, chunks: seq<Bytes>, i: nat): Option<Bytes>
    requires i < |chunks|
  {
    v.decrypt(v.shardKey(other, i), Ciphertext(v, key, nonce, chunks, i), nonce(i))
  }

  /** Shard `i` decrypts under the other key to a text with the same digest. */
  ghost predicate OpensAt(v: Vault, key: Key, other: Key, nonce: nat -> Bytes, chunks: seq<Bytes>, i: nat)
    requires i < |chunks|
  {
    var p := Reopened(v, key, other, nonce, chunks, i);
    p.Some? && v.sha(p.value) == v.sha(chunks[i])
  }

  lemma {:induction false} SealedOpensIff(
      v: Vault, key: Key, other: Key, nonce: nat -> Bytes, chunks: seq<Bytes>, names: seq<string>, out: Output, i: nat)
    requires Lawful(v) && NoncesFit(nonce) && Sealed(v, key, nonce, chunks, names, out) && i < |chunks|
    ensures
      var found := Opened(v, out.disk, i, out.shards[i], other);
      && (found.Good? <==> OpensAt(v, key, other, nonce, chunks, i))
      && (found.Good? ==> Some(found.plaintext) == Reopened(v, key, other, nonce, chunks, i))
  {
    assert SealedAt(v, key, nonce, chunks[i], names[i], out, i);
    assert v.decodeNonce(v.encodeNonce(nonce(i))) == Some(nonce(i)) && |nonce(i)| == NONCE_BYTES;
  }

  /** Exactly when another bundle key opens every shard of what was sealed. */
  lemma {:induction false} OtherKeyOpensIff(
      v: Vault, key: Key, other: Key, nonce: nat -> Bytes, chunks: seq<Bytes>, names: seq<string>, out: Output, bundleId: string)
    requires Lawful(v) && NoncesFit(nonce) && Sealed(v, key, nonce, chunks, names, out)
    ensures AllOpen(v, SealedManifest(v, bundleId, out), out.disk, other) <==>
              forall i :: 0 <= i < |chunks| ==> OpensAt(v, key, other, nonce, chunks, i)
  {
    forall i | 0 <= i < |chunks|
      ensures Opened(v, out.disk, i, out.shards[i], other).Good? <==> OpensAt(v, key, other, nonce, chunks, i)
    {
      SealedOpensIff(v, key, other, nonce, chunks, names, out, i);
    }
  }

  /** Decryption under any other shard key fails, as authenticated encryption is
      meant to. */
  ghost predicate Authentic(v: Vault) {
    forall k: Key, other: Key, p: Bytes, n: Bytes :: k != other ==> v.decrypt(other, v.encrypt(k, p, n), n) == None
  }

  lemma {:induction false} OpensIffSameKey(v: Vault, key: Key, other: Key, nonce: nat -> Bytes, chunks: seq<Bytes>, i: nat)
    requires Lawful(v) && Authentic(v) && i < |chunks|
    ensures OpensAt(v, key, other, nonce, chunks, i) <==> v.shardKey(other, i) == v.shardKey(key, i)
  {
    var k, o, p, n := v.shardKey(key, i), v.shardKey(other, i), chunks[i], nonce(i);
    assert v.decrypt(k, v.encrypt(k, p, n), n) == Some(p);
    assert k != o ==> v.decrypt(o, v.encrypt(k, p, n), n) == None;
  }

  ghost predicate SameKeys(v: Vault, key: Key, other: Key, n: nat) {
    forall i :: 0 <= i < n ==> v.shardKey(other, i) == v.shardKey(key, i)
  }

  /** With authenticated encryption, another bundle key passes exactly when it
      derives the same key for every shard. */
  lemma {:induction false} OtherKeyPassesIff(
      v: Vault, key: Key, other: Key, nonce: nat -> Bytes, files: seq<Weights>, size: nat, out: Output, bundleId: string)
    requires Lawful(v) && NoncesFit(nonce) && size > 0 && Authentic(v)
    requires Sealed(v, key, nonce, AllChunks(files, size), AllNames(files, size), out)
    ensures Passes(v, SealedManifest(v, bundleId, out), out.disk, other) <==> SameKeys(v, key, other, |AllChunks(files, size)|)
  {
    var chunks, m := AllChunks(files, size), SealedManifest(v, bundleId, out);
    SameShardsOpen(v, m, out.disk, other);
    OtherKeyOpensIff(v, key, other, nonce, chunks, AllNames(files, size), out, bundleId);
    OpenMeansSameKeys(v, key, other, nonce, chunks);
    if SameKeys(v, key, other, |chunks|) {
      SameKeysOpen(v, key, other, nonce, chunks, AllNames(files, size), out, |chunks|);
      SealRoundTrip(v, key, nonce, files, size, out, bundleId);
    }
  }

  lemma {:induction false} OpenMeansSameKeys(v: Vault, key: Key, other: Key, nonce: nat -> Bytes, chunks: seq<Bytes>)
    requires Lawful(v) && Authentic(v)
    ensures (forall i :: 0 <= i < |chunks| ==> OpensAt(v, key, other, nonce, chunks, i)) <==> SameKeys(v, key, other, |chunks|)
  {
    forall i | 0 <= i < |chunks| ensures OpensAt(v, key, other, nonce, chunks, i) <==> v.shardKey(other, i) == v.shardKey(key, i) {
      OpensIffSameKey(v, key, other, nonce, chunks, i);
    }
  }

  lemma {:induction false} SameKeysOpen(
      v: Vault, key: Key, other: Key, nonce: nat -> Bytes, chunks: seq<Bytes>, names: seq<string>, out: Output, k: nat)
    requires Sealed(v, key, nonce, chunks, names, out) && k <= |chunks|
    requires SameKeys(v, key, other, |chunks|)
    ensures Plaintexts(v, out.disk, out.shards, other, k) == Plaintexts(v, out.disk, out.shards, key, k)
    decreases k
  {
    if k > 0 {
      SameKeysOpen(v, key, other, nonce, chunks, names, out, k - 1);
    }
  }

  /** Seal, then verify what was sealed with the same master key and the same
      principal, as the command line passes it to both. */
  method SealThenVerify(v: Vault, master: Key, principal: string, bundleId: string, files: seq<Weights>, shardSize: nat,
                        nonce: nat -> Bytes) returns (report: Option<seq<Failure>>)
    ensures report.Some? ==> shardSize > 0 && Trim(principal) != [] && IsSafeBundleId(bundleId)
    ensures report.Some? && Lawful(v) && NoncesFit(nonce) && Trim(principal) == principal ==> report.value == []
    ensures report.Some? && Lawful(v) && NoncesFit(nonce) && Authentic(v) ==>
              (report.value == [] <==>
                 SameKeys(v, v.bundleKey(master, bundleId, Trim(principal)), v.bundleKey(master, bundleId, principal),
                          |AllChunks(files, shardSize)|))
  {
    var sealed;
    ghost var out;
    sealed, out := Seal(v, master, principal, bundleId, files, shardSize, nonce);
    if sealed.None? {
      return None;
    }
    report := Verify(v, sealed.value.0, sealed.value.1, Some((master, principal)));
    if Lawful(v) && NoncesFit(nonce) && Authentic(v) {
      OtherKeyPassesIff(v, v.bundleKey(master, bundleId, Trim(principal)), v.bundleKey(master, bundleId, principal),
                        nonce, files, shardSize, out, bundleId);
    }
  }

  /** What is sealed under a principal verifies under that principal. */
  ghost predicate Reverifies(v: Vault, master: Key, principal: string, bundleId: string, nonce: nat -> Bytes,
                             files: seq<Weights>, size: nat, out: Output) {
    Lawful(v) && Authentic(v) && NoncesFit(nonce) && size > 0
    && Sealed(v, v.bundleKey(master, bundleId, Trim(principal)), nonce, AllChunks(files, size), AllNames(files, size), out)
    && IsStructured(v, SealedManifest(v, bundleId, out))
    ==> Passes(v, SealedManifest(v, bundleId, out), out.disk, v.bundleKey(master, bundleId, principal))
  }

  /** A key in front of a text, written so that no other key fits there. */
  function Tag(k: Key): Bytes {
    if k == [] then ['E'] else ['K', k[0]] + Tag(k[1..])
  }

  lemma {:induction false} TagIsOwn(k: Key, other: Key, p: Bytes)
    requires Tag(other) <= Tag(k) + p
    ensures k == other
    decreases |k|
  {
    var text := Tag(k) + p;
    assert text[0] == Tag(k)[0] && text[0] == Tag(other)[0];
    if k != [] {
      assert text[1] == k[0] == other[0];
      assert text[2..] == Tag(k[1..]) + p && Tag(other)[2..] == Tag(other[1..]);
      assert Tag(other)[2..] <= text[2..];
      TagIsOwn(k[1..], other[1..], p);
    }
  }

  /** The simplest vault that meets every law: a key opens what it sealed and no
      other key does. */
  function TagVault(): Vault {
    Vault(x => seq(HASH_CHARS, _ => if |x| > 0 && (x[0] == 'K' || x[0] == 'E') then '0' else '1'),
          (master, id, principal) => principal,
          (k, i) => k,
          (k, p, n) => Tag(k) + p,
          (k, c, n) => if Tag(k) <= c then Some(c[|Tag(k)|..]) else None,
          n => n,
          iv => Some(iv))
  }

  lemma {:induction false} TagVaultIsLawful()
    ensures Lawful(TagVault()) && Authentic(TagVault())
  {
    var v := TagVault();
    forall k: Key, p: Bytes, n: Bytes ensures v.decrypt(k, v.encrypt(k, p, n), n) == Some(p) {
      assert (Tag(k) + p)[|Tag(k)|..] == p;
    }
    forall k: Key, other: Key, p: Bytes, n: Bytes | k != other ensures v.decrypt(other, v.encrypt(k, p, n), n) == None {
      if Tag(other) <= Tag(k) + p {
        TagIsOwn(k, other, p);
      }
    }
  }

  function OneNonce(i: nat): Bytes {
    seq(NONCE_BYTES, _ => 'n')
  }

  const ONE_FILE: seq<Weights> := [Weights("w", "p")]

  lemma {:induction false} OneFileIsOneChunk()
    ensures AllChunks(ONE_FILE, 1) == ["p"] && AllNames(ONE_FILE, 1) == [Sanitize("w")]
  {
    assert ONE_FILE[1..] == [];
    assert Chunks("p", 1) == ["p"] && NamesOf(ONE_FILE[0], 1) == [Sanitize("w")];
    assert AllChunks([], 1) == [] && AllNames([], 1) == [];
  }

  /** One shard sealed in that vault. */
  function OneSealed(key: Key): Output {
    SealOne(TagVault(), key, OneNonce, "p", Sanitize("w"), Output([], map[], []))
  }

  lemma {:induction false} OneIsSealed(v: Vault, key: Key, p: Bytes, name: string)
    ensures Sealed(v, key, OneNonce, [p], [name], SealOne(v, key, OneNonce, p, name, Output([], map[], [])))
  {
    SealOneKeeps(v, key, OneNonce, [], [], Output([], map[], []), p, name);
    assert [] + [p] == [p] && [] + [name] == [name];
  }

  lemma {:induction false} OneEncrypts(key: Key)
    ensures Encrypts(TagVault(), key, OneNonce, ["p"]) && NoncesFit(OneNonce)
  {
    var v := TagVault();
    assert v.sha("p")[0] == '1' && v.sha(Ciphertext(v, key, OneNonce, ["p"], 0))[0] == '0';
    assert OneNonce(0)[0] == 'n';
  }

  lemma {:induction false} OneShardSealed(key: Key)
    ensures Sealed(TagVault(), key, OneNonce, AllChunks(ONE_FILE, 1), AllNames(ONE_FILE, 1), OneSealed(key))
    ensures |AllChunks(ONE_FILE, 1)| == 1 && IsStructured(TagVault(), SealedManifest(TagVault(), "m", OneSealed(key)))
  {
    OneFileIsOneChunk();
    OneIsSealed(TagVault(), key, "p", Sanitize("w"));
    OneEncrypts(key);
    TagVaultIsLawful();
    SomethingToSeal(ONE_FILE, 1);
    SealedIsStructuredIff(TagVault(), key, OneNonce, ONE_FILE, 1, OneSealed(key), "m");
  }

  lemma {:induction false} TrimmedReverifies(v: Vault, master: Key, principal: string, bundleId: string,
                                             nonce: nat -> Bytes, files: seq<Weights>, size: nat, out: Output)
    requires Trim(principal) == principal
    ensures Reverifies(v, master, principal, bundleId, nonce, files, size, out)
  {
    if Lawful(v) && NoncesFit(nonce) && size > 0 {
      var key := v.bundleKey(master, bundleId, principal);
      if Sealed(v, key, nonce, AllChunks(files, size), AllNames(files, size), out) {
        SealRoundTrip(v, key, nonce, files, size, out, bundleId);
      }
    }
  }

  lemma {:induction false} UntrimmedFails(principal: string) returns (v: Vault, files: seq<Weights>, out: Output)
    requires Trim(principal) != principal
    ensures !Reverifies(v, [], principal, "m", OneNonce, files, 1, out)
  {
    v, files, out := TagVault(), ONE_FILE, OneSealed(Trim(principal));
    OneShardSealed(Trim(principal));
    TagVaultIsLawful();
    OneEncrypts(Trim(principal));
    OtherKeyPassesIff(v, Trim(principal), principal, OneNonce, files, 1, out, "m");
    assert v.shardKey(principal, 0) != v.shardKey(Trim(principal), 0);
  }

  ghost predicate AlwaysReverifies(principal: string) {
    forall v, master, bundleId, nonce, files, size, out ::
      Reverifies(v, master, principal, bundleId, nonce, files, size, out)
  }

  lemma {:induction false} TrimmedAlwaysReverifies(principal: string)
    requires Trim(principal) == principal
    ensures AlwaysReverifies(principal)
  {
    forall v, master, bundleId, nonce, files, size, out
      ensures Reverifies(v, master, principal, bundleId, nonce, files, size, out)
    {
      TrimmedReverifies(v, master, principal, bundleId, nonce, files, size, out);
    }
  }

  /** The round trip with one principal given to both holds of every vault exactly
      when the principal has no blanks around it: sealing drops them, verifying
      does not. */
  lemma {:induction false} ReverifiesIffTrimmed(principal: string)
    ensures AlwaysReverifies(principal) <==> Trim(principal) == principal
  {
    if Trim(principal) == principal {
      TrimmedAlwaysReverifies(principal);
    } else {
      var v, files, out := UntrimmedFails(principal);
    }
  }
}
