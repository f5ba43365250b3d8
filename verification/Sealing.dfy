/** Sealing: weights are cut into fixed-size shards whatever sizes the reads
    return, each shard is encrypted under its own key, and what was sealed
    verifies and stages back to the original bytes. */
module Sealing {
  import opened Prelude
  import opened Bundle

  // ----- Shard names -----

  function Decimal(n: nat): string {
    if n < 10 then [Digit(n)] else Decimal(n / 10) + [Digit(n % 10)]
  }

  /** At least five digits. */
  function Padded(n: nat): string {
    var d := Decimal(n);
    if |d| >= 5 then d else seq(5 - |d|, _ => '0') + d
  }

  /** A weight file's name in characters that are safe in a path. */
  predicate IsSafeName(name: string) {
    name != [] && forall i :: 0 <= i < |name| ==> IsSafeChar(name[i])
  }

  predicate IsSafeChar(c: char) {
    IsAlphanumeric(c) || c == '-' || c == '_' || c == '.'
  }

  function Sanitize(name: string): (r: string)
    ensures IsSafeName(r)
  {
    var cleaned := seq(if |name| < 64 then |name| else 64,
                       i requires 0 <= i < |name| => if IsSafeChar(name[i]) then name[i] else '_');
    if cleaned == [] then "shard" else cleaned
  }

  /** A name is kept, character by character, but for what is unsafe in a path and
      what is past its limit; so one that is safe already stays as it is. */
  lemma {:induction false} SanitizeKeepsTheSafe(name: string)
    ensures name != [] ==> |Sanitize(name)| == (if |name| < 64 then |name| else 64)
    ensures forall i :: 0 <= i < |name| && i < 64 ==>
              (Sanitize(name)[i] == name[i] || (!IsSafeChar(name[i]) && Sanitize(name)[i] == '_'))
    ensures IsSafeName(name) && |name| <= 64 ==> Sanitize(name) == name
    ensures Sanitize([]) == "shard"
  {
    if name != [] {
      assert Sanitize(name) != [];
    }
  }

  function ShardPath(index: nat, name: string): string {
    "shards/" + (Padded(index) + ("-" + name + ".enc"))
  }

  function Value(digits: string): int {
    if digits == [] then 0
    else 10 * Value(digits[..|digits| - 1]) + (digits[|digits| - 1] as int - '0' as int)
  }

  lemma {:induction false} DecimalReads(n: nat)
    ensures Value(Decimal(n)) == n && '-' !in Decimal(n) && '/' !in Decimal(n)
    decreases n
  {
    if n >= 10 {
      DecimalReads(n / 10);
      assert Decimal(n)[..|Decimal(n)| - 1] == Decimal(n / 10);
    } else {
      assert Decimal(n)[..0] == [];
    }
  }

  lemma {:induction false} ZerosRead(k: nat, digits: string)
    ensures Value(seq(k, _ => '0') + digits) == Value(digits)
    decreases |digits|, k
  {
    var zeros := seq(k, _ => '0');
    if digits == [] {
      assert zeros + digits == zeros;
      if k > 0 {
        ZerosRead(k - 1, []);
        assert zeros[..k - 1] == seq(k - 1, _ => '0') + [];
      }
    } else {
      var shorter := digits[..|digits| - 1];
      ZerosRead(k, shorter);
      assert (zeros + digits)[..|zeros + digits| - 1] == zeros + shorter;
    }
  }

  lemma {:induction false} PaddedReads(n: nat)
    ensures Value(Padded(n)) == n && '-' !in Padded(n) && '/' !in Padded(n)
  {
    DecimalReads(n);
    var d := Decimal(n);
    if |d| < 5 {
      ZerosRead(5 - |d|, d);
    }
  }

  function FirstDash(s: string): nat {
    if s == [] || s[0] == '-' then 0 else 1 + FirstDash(s[1..])
  }

  lemma {:induction false} DashEnds(a: string, x: string)
    requires '-' !in a
    ensures FirstDash(a + ("-" + x)) == |a|
    decreases |a|
  {
    if a == [] {
      assert a + ("-" + x) == "-" + x;
    } else {
      assert (a + ("-" + x))[1..] == a[1..] + ("-" + x);
      DashEnds(a[1..], x);
    }
  }

  lemma {:induction false} SameUpToDash(a: string, b: string, x: string, y: string)
    requires '-' !in a && '-' !in b && a + ("-" + x) == b + ("-" + y)
    ensures a == b
  {
    DashEnds(a, x);
    DashEnds(b, y);
    assert a == (a + ("-" + x))[..|a|] && b == (b + ("-" + y))[..|b|];
  }

  /** Two shards never share a file, whatever the weights are called. */
  lemma {:induction false} ShardPathsDiffer(i: nat, j: nat, x: string, y: string)
    requires ShardPath(i, x) == ShardPath(j, y)
    ensures i == j
  {
    PaddedReads(i);
    PaddedReads(j);
    var p, q := ShardPath(i, x), ShardPath(j, y);
    assert p[7..] == Padded(i) + ("-" + x + ".enc") && q[7..] == Padded(j) + ("-" + y + ".enc");
    assert "-" + x + ".enc" == "-" + (x + ".enc") && "-" + y + ".enc" == "-" + (y + ".enc");
    SameUpToDash(Padded(i), Padded(j), x + ".enc", y + ".enc");
  }

  // ----- Reading -----

  /** A file being read; a read may return less than was asked for. */
  class Reader {
    const content: Bytes
    var pos: nat

    ghost predicate Valid()
      reads this
    {
      pos <= |content|
    }

    constructor (content: Bytes)
      ensures Valid() && this.content == content && pos == 0
    {
      this.content, pos := content, 0;
    }

    method Read(buffer: array<char>, from: nat, to: nat) returns (n: nat)
      requires Valid() && from < to <= buffer.Length
      modifies this`pos, buffer
      ensures Valid() && pos == old(pos) + n && n <= to - from
      ensures n == 0 <==> old(pos) == |content|
      ensures buffer[from..from + n] == content[old(pos)..pos]
      ensures buffer[..from] == old(buffer[..from])
    {
      var most := if to - from < |content| - pos then to - from else |content| - pos;
      if most == 0 {
        return 0;
      }
      n :| 1 <= n <= most;
      forall i | 0 <= i < n {
        buffer[from + i] := content[pos + i];
      }
      pos := pos + n;
    }
  }

  /** Fill the buffer completely unless the file ends first. */
  method Fill(reader: Reader, buffer: array<char>) returns (filled: nat)
    requires reader.Valid()
    modifies reader`pos, buffer
    ensures reader.Valid() && filled <= buffer.Length && reader.pos == old(reader.pos) + filled
    ensures buffer[..filled] == reader.content[old(reader.pos)..reader.pos]
    ensures filled < buffer.Length ==> reader.pos == |reader.content|
  {
    filled := 0;
    ghost var start := reader.pos;
    while filled < buffer.Length
      invariant reader.Valid() && filled <= buffer.Length && reader.pos == start + filled
      invariant buffer[..filled] == reader.content[start..reader.pos]
      decreases buffer.Length - filled
    {
      var end := if filled + READ_CHUNK < buffer.Length then filled + READ_CHUNK else buffer.Length;
      ghost var before := reader.pos;
      var n := reader.Read(buffer, filled, end);
      if n == 0 {
        break;
      }
      assert buffer[..filled + n] == buffer[..filled] + buffer[filled..filled + n];
      assert reader.content[start..reader.pos] == reader.content[start..before] + reader.content[before..reader.pos];
      filled := filled + n;
    }
  }

  // ----- Cutting -----

  /** The fixed-size cutting of a file. */
  function Chunks(content: Bytes, size: nat): seq<Bytes>
    requires size > 0
  {
    if content == [] then []
    else if |content| <= size then [content]
    else [content[..size]] + Chunks(content[size..], size)
  }

  datatype Weights = Weights(name: string, content: Bytes)

  function AllChunks(files: seq<Weights>, size: nat): seq<Bytes>
    requires size > 0
  {
    if files == [] then [] else Chunks(files[0].content, size) + AllChunks(files[1..], size)
  }

  /** The name each shard is filed under. */
  function NamesOf(file: Weights, size: nat): seq<string>
    requires size > 0
  {
    seq(|Chunks(file.content, size)|, _ => Sanitize(file.name))
  }

  function AllNames(files: seq<Weights>, size: nat): seq<string>
    requires size > 0
  {
    if files == [] then [] else NamesOf(files[0], size) + AllNames(files[1..], size)
  }

  function AllBytes(files: seq<Weights>): Bytes {
    if files == [] then [] else files[0].content + AllBytes(files[1..])
  }

  lemma {:induction false} ChunksRejoin(content: Bytes, size: nat)
    requires size > 0
    ensures Concat(Chunks(content, size)) == content
    ensures forall i :: 0 <= i < |Chunks(content, size)| ==> 0 < |Chunks(content, size)[i]| <= size
    ensures forall i :: 0 <= i < |Chunks(content, size)| - 1 ==> |Chunks(content, size)[i]| == size
    decreases |content|
  {
    if content == [] {
    } else if |content| <= size {
      assert [content][1..] == [];
      assert Concat([content]) == content + [];
    } else {
      ChunksRejoin(content[size..], size);
      var rest := Chunks(content[size..], size);
      assert ([content[..size]] + rest)[1..] == rest;
      assert content == content[..size] + content[size..];
    }
  }

  /** The cutting loses and invents nothing, and only the last shard of a file
      may be short. */
  lemma {:induction false} AllChunksRejoin(files: seq<Weights>, size: nat)
    requires size > 0
    ensures Concat(AllChunks(files, size)) == AllBytes(files)
    decreases |files|
  {
    if files != [] {
      ChunksRejoin(files[0].content, size);
      AllChunksRejoin(files[1..], size);
      ConcatSplit(Chunks(files[0].content, size), AllChunks(files[1..], size));
    }
  }

  // ----- Sealing -----

  datatype Output = Output(shards: seq<Shard>, disk: Disk, hashed: Bytes)

  function SealOne(v: Vault, key: Key, nonce: nat -> Bytes, p: Bytes, name: string, out: Output): Output {
    var i := |out.shards|;
    var c := v.encrypt(v.shardKey(key, i), p, nonce(i));
    var d := Shard(ShardPath(i, name), v.sha(p), v.sha(c), v.encodeNonce(nonce(i)), |p|, i);
    Output(out.shards + [d], out.disk[d.path := c], out.hashed + p)
  }

  /** Shard `i` on disk is `p`, encrypted and described. */
  ghost predicate SealedAt(v: Vault, key: Key, nonce: nat -> Bytes, p: Bytes, name: string, out: Output, i: nat)
    requires i < |out.shards|
  {
    var c := v.encrypt(v.shardKey(key, i), p, nonce(i));
    var d := out.shards[i];
    && d == Shard(ShardPath(i, name), v.sha(p), v.sha(c), v.encodeNonce(nonce(i)), |p|, i)
    && d.path in out.disk && out.disk[d.path] == c
  }

  ghost predicate Sealed(v: Vault, key: Key, nonce: nat -> Bytes, chunks: seq<Bytes>, names: seq<string>, out: Output) {
    && |chunks| == |names| == |out.shards|
    && out.hashed == Concat(chunks)
    && forall i :: 0 <= i < |chunks| ==> SealedAt(v, key, nonce, chunks[i], names[i], out, i)
  }

  lemma {:induction false} SealOneKeeps(
      v: Vault, key: Key, nonce: nat -> Bytes, chunks: seq<Bytes>, names: seq<string>, out: Output, p: Bytes, name: string)
    requires Sealed(v, key, nonce, chunks, names, out)
    ensures Sealed(v, key, nonce, chunks + [p], names + [name], SealOne(v, key, nonce, p, name, out))
  {
    var next := SealOne(v, key, nonce, p, name, out);
    var k := |chunks|;
    forall i | 0 <= i < k + 1 ensures SealedAt(v, key, nonce, (chunks + [p])[i], (names + [name])[i], next, i) {
      if i < k {
        assert SealedAt(v, key, nonce, chunks[i], names[i], out, i);
        if out.shards[i].path == ShardPath(k, name) {
          ShardPathsDiffer(i, k, names[i], name);
        }
      }
    }
    ConcatSnoc(chunks, p);
  }

  /** One file's shards, each filed under the file's own name. */
  method SealFile(v: Vault, key: Key, nonce: nat -> Bytes, file: Weights, buffer: array<char>, out: Output,
                  ghost chunks: seq<Bytes>, ghost names: seq<string>)
    returns (r: Output)
    requires buffer.Length > 0 && Sealed(v, key, nonce, chunks, names, out)
    modifies buffer
    ensures Sealed(v, key, nonce, chunks + Chunks(file.content, buffer.Length), names + NamesOf(file, buffer.Length), r)
  {
    r := out;
    var name := Sanitize(file.name);
    ghost var done: nat := 0;
    var reader := new Reader(file.content);
    NoneYet(v, key, nonce, file, buffer.Length, chunks, names, out);
    while true
      invariant reader.Valid() && reader.content == file.content
      invariant Ahead(file.content, buffer.Length, reader.pos, done)
      invariant SoFar(v, key, nonce, file, buffer.Length, chunks, names, done, r)
      decreases |file.content| - reader.pos
    {
      var size;
      size, r, done := SealNext(v, key, nonce, file, reader, buffer, r, name, chunks, names, done);
      if size < buffer.Length {
        AllSealed(v, key, nonce, file, buffer.Length, chunks, names, done, r, reader.pos);
        return;
      }
    }
  }

  /** Seal the next shard, if the file has not ended. */
  method SealNext(v: Vault, key: Key, nonce: nat -> Bytes, file: Weights, reader: Reader, buffer: array<char>, out: Output,
                  name: string, ghost chunks: seq<Bytes>, ghost names: seq<string>, ghost done: nat)
    returns (size: nat, r: Output, ghost done': nat)
    requires reader.Valid() && reader.content == file.content && buffer.Length > 0 && name == Sanitize(file.name)
    requires Ahead(file.content, buffer.Length, reader.pos, done)
    requires SoFar(v, key, nonce, file, buffer.Length, chunks, names, done, out)
    modifies reader`pos, buffer
    ensures reader.Valid() && reader.pos == old(reader.pos) + size
    ensures Ahead(file.content, buffer.Length, reader.pos, done')
    ensures SoFar(v, key, nonce, file, buffer.Length, chunks, names, done', r)
    ensures size < buffer.Length ==> Chunks(file.content[reader.pos..], buffer.Length) == []
  {
    ghost var from := reader.pos;
    var p := NextShard(reader, buffer);
    size, r, done' := |p|, out, done;
    if |p| > 0 {
      OneAhead(file.content, buffer.Length, from, reader.pos, done, p);
      OneMoreSealed(v, key, nonce, file, buffer.Length, chunks, names, done, out, p);
      r := SealOne(v, key, nonce, p, name, out);
      done' := done + 1;
    }
  }

  /** What is left of the file is what is left of its cutting. */
  ghost predicate Ahead(content: Bytes, size: nat, pos: nat, done: nat)
    requires size > 0
  {
    pos <= |content| && done <= |Chunks(content, size)| && Chunks(content[pos..], size) == Chunks(content, size)[done..]
  }

  lemma {:induction false} OneAhead(content: Bytes, size: nat, from: nat, pos: nat, done: nat, p: Bytes)
    requires size > 0 && Ahead(content, size, from, done) && pos <= |content|
    requires Chunks(content[from..], size) == [p] + Chunks(content[pos..], size)
    ensures done < |Chunks(content, size)| && p == Chunks(content, size)[done] && Ahead(content, size, pos, done + 1)
  {
    TakeHead(Chunks(content, size), done, p, Chunks(content[pos..], size));
  }

  lemma {:induction false} TakeHead<T>(all: seq<T>, n: nat, head: T, tail: seq<T>)
    requires n <= |all| && all[n..] == [head] + tail
    ensures n < |all| && all[n] == head && all[n + 1..] == tail
  {
    assert |all[n..]| == 1 + |tail|;
    assert all[n..][0] == head && all[n..][1..] == tail;
  }

  lemma {:induction false} NoneYet(v: Vault, key: Key, nonce: nat -> Bytes, file: Weights, size: nat,
                                   chunks: seq<Bytes>, names: seq<string>, out: Output)
    requires size > 0 && Sealed(v, key, nonce, chunks, names, out)
    ensures SoFar(v, key, nonce, file, size, chunks, names, 0, out) && Ahead(file.content, size, 0, 0)
  {
    assert chunks + Chunks(file.content, size)[..0] == chunks && names + NamesOf(file, size)[..0] == names;
    assert file.content[0..] == file.content;
  }

  lemma {:induction false} AllSealed(v: Vault, key: Key, nonce: nat -> Bytes, file: Weights, size: nat,
                                     chunks: seq<Bytes>, names: seq<string>, done: nat, out: Output, pos: nat)
    requires size > 0 && Ahead(file.content, size, pos, done) && Chunks(file.content[pos..], size) == []
    requires SoFar(v, key, nonce, file, size, chunks, names, done, out)
    ensures Sealed(v, key, nonce, chunks + Chunks(file.content, size), names + NamesOf(file, size), out)
  {
    assert |Chunks(file.content, size)[done..]| == 0;
    assert Chunks(file.content, size)[..done] == Chunks(file.content, size) && NamesOf(file, size)[..done] == NamesOf(file, size);
  }

  /** The first `done` shards of a file are sealed behind those before it. */
  ghost predicate SoFar(v: Vault, key: Key, nonce: nat -> Bytes, file: Weights, size: nat,
                        chunks: seq<Bytes>, names: seq<string>, done: nat, out: Output)
    requires size > 0 && done <= |Chunks(file.content, size)|
  {
    Sealed(v, key, nonce, chunks + Chunks(file.content, size)[..done], names + NamesOf(file, size)[..done], out)
  }

  lemma {:induction false} OneMoreSealed(
      v: Vault, key: Key, nonce: nat -> Bytes, file: Weights, size: nat,
      chunks: seq<Bytes>, names: seq<string>, done: nat, out: Output, p: Bytes)
    requires size > 0 && done < |Chunks(file.content, size)| && p == Chunks(file.content, size)[done]
    requires SoFar(v, key, nonce, file, size, chunks, names, done, out)
    ensures SoFar(v, key, nonce, file, size, chunks, names, done + 1, SealOne(v, key, nonce, p, Sanitize(file.name), out))
  {
    var all, filed := Chunks(file.content, size), NamesOf(file, size);
    SealOneKeeps(v, key, nonce, chunks + all[..done], names + filed[..done], out, p, Sanitize(file.name));
    TakeOneMore(chunks, all, done);
    TakeOneMore(names, filed, done);
  }

  lemma {:induction false} TakeOneMore<T>(front: seq<T>, all: seq<T>, n: nat)
    requires n < |all|
    ensures front + all[..n] + [all[n]] == front + all[..n + 1]
  {
  }

  /** The next shard's plaintext; empty at the end of the file. */
  method NextShard(reader: Reader, buffer: array<char>) returns (p: Bytes)
    requires reader.Valid() && buffer.Length > 0
    modifies reader`pos, buffer
    ensures reader.Valid() && reader.pos == old(reader.pos) + |p|
    ensures p == [] ==> Chunks(reader.content[reader.pos..], buffer.Length) == []
    ensures p != [] ==>
              Chunks(reader.content[old(reader.pos)..], buffer.Length)
              == [p] + Chunks(reader.content[reader.pos..], buffer.Length)
    ensures |p| < buffer.Length ==> Chunks(reader.content[reader.pos..], buffer.Length) == []
  {
    ghost var from := reader.pos;
    var filled := Fill(reader, buffer);
    NextChunk(reader.content, from, filled, buffer.Length);
    p := buffer[..filled];
  }

  /** What one fill of the buffer takes off the remaining cutting. */
  lemma {:induction false} NextChunk(content: Bytes, from: nat, filled: nat, size: nat)
    requires size > 0 && filled <= size && from + filled <= |content|
    requires filled < size ==> from + filled == |content|
    ensures filled == 0 ==> Chunks(content[from..], size) == []
    ensures filled > 0 ==>
              Chunks(content[from..], size) == [content[from..from + filled]] + Chunks(content[from + filled..], size)
    ensures filled < size ==> Chunks(content[from + filled..], size) == []
  {
    var rest := content[from..];
    if filled > 0 {
      assert rest[..filled] == content[from..from + filled] && rest[filled..] == content[from + filled..];
      if |rest| <= size {
        assert content[from..from + filled] == rest;
      }
    }
  }

  function SealedManifest(v: Vault, bundleId: string, out: Output): Manifest {
    Manifest(bundleId, ENCRYPTION, DERIVATION, out.shards, v.sha(out.hashed))
  }

  /** Seal a list of weight files under a principal, blanks around it removed. The
      shards are the fixed-size cutting of each file whatever the reads return.
      The manifest is refused if it does not describe an encrypted bundle. */
  method Seal(v: Vault, master: Key, principal: string, bundleId: string, files: seq<Weights>, shardSize: nat,
              nonce: nat -> Bytes)
    returns (r: Option<(Manifest, Disk)>, ghost out: Output)
    ensures shardSize == 0 || Trim(principal) == [] || !IsSafeBundleId(bundleId) ==> r.None?
    ensures shardSize > 0 && Trim(principal) != [] && IsSafeBundleId(bundleId) ==>
              var key := v.bundleKey(master, bundleId, Trim(principal));
              && Sealed(v, key, nonce, AllChunks(files, shardSize), AllNames(files, shardSize), out)
              && (Lawful(v) && NoncesFit(nonce) ==>
                    (r.Some? <==> AllBytes(files) != [] && Encrypts(v, key, nonce, AllChunks(files, shardSize))))
    ensures r.Some? ==> r.value == (SealedManifest(v, bundleId, out), out.disk) && IsStructured(v, r.value.0)
    ensures r.Some? && Lawful(v) && NoncesFit(nonce) ==>
              var key := v.bundleKey(master, bundleId, Trim(principal));
              && Passes(v, r.value.0, r.value.1, key)
              && StagedContent(v, r.value.0, r.value.1, key) == Some(AllBytes(files))
  {
    r, out := None, Output([], map[], []);
    if shardSize == 0 || Trim(principal) == [] || !IsSafeBundleId(bundleId) {
      return;
    }
    var key := v.bundleKey(master, bundleId, Trim(principal));
    var sealed := SealAll(v, key, nonce, files, shardSize);
    out := sealed;
    var manifest := Manifest(bundleId, ENCRYPTION, DERIVATION, sealed.shards, v.sha(sealed.hashed));
    if Lawful(v) && NoncesFit(nonce) {
      SealRoundTrip(v, key, nonce, files, shardSize, out, bundleId);
      SealedIsStructuredIff(v, key, nonce, files, shardSize, out, bundleId);
    }
    if IsStructured(v, manifest) {
      r := Some((manifest, sealed.disk));
    }
  }

  method SealAll(v: Vault, key: Key, nonce: nat -> Bytes, files: seq<Weights>, shardSize: nat) returns (sealed: Output)
    requires shardSize > 0
    ensures Sealed(v, key, nonce, AllChunks(files, shardSize), AllNames(files, shardSize), sealed)
  {
    var buffer := new char[shardSize];
    sealed := Output([], map[], []);
    ghost var done: seq<Bytes>, names: seq<string> := [], [];
    assert files[0..] == files;
    for i := 0 to |files|
      invariant Sealed(v, key, nonce, done, names, sealed)
      invariant done + AllChunks(files[i..], shardSize) == AllChunks(files, shardSize)
      invariant names + AllNames(files[i..], shardSize) == AllNames(files, shardSize)
    {
      ghost var more, called := Chunks(files[i].content, shardSize), NamesOf(files[i], shardSize);
      assert files[i..][1..] == files[i + 1..];
      Regroup(done, more, AllChunks(files[i + 1..], shardSize));
      Regroup(names, called, AllNames(files[i + 1..], shardSize));
      sealed := SealFile(v, key, nonce, files[i], buffer, sealed, done, names);
      done, names := done + more, names + called;
    }
    assert done == AllChunks(files, shardSize) && names == AllNames(files, shardSize);
  }

  lemma {:induction false} Regroup<T>(a: seq<T>, b: seq<T>, c: seq<T>)
    ensures a + (b + c) == (a + b) + c
  {
  }

  // ----- What is accepted -----

  /** The nonces drawn are distinct and none is zero, and no shard has the digest
      of its own plaintext. */
  ghost predicate Encrypts(v: Vault, key: Key, nonce: nat -> Bytes, chunks: seq<Bytes>) {
    && (forall i :: 0 <= i < |chunks| ==> !IsZero(nonce(i)))
    && (forall i, j :: 0 <= i < j < |chunks| ==> nonce(i) != nonce(j))
    && forall i :: 0 <= i < |chunks| ==> v.sha(chunks[i]) != v.sha(Ciphertext(v, key, nonce, chunks, i))
  }

  function Ciphertext(v: Vault, key: Key, nonce: nat -> Bytes, chunks: seq<Bytes>, i: nat): Bytes
    requires i < |chunks|
  {
    v.encrypt(v.shardKey(key, i), chunks[i], nonce(i))
  }

  lemma {:induction false} SafeNameIsPlain(name: string)
    requires IsSafeName(name)
    ensures '/' !in name
  {
    forall i | 0 <= i < |name| ensures name[i] != '/' {
      assert IsSafeChar(name[i]);
    }
  }

  lemma {:induction false} ShardPathIsInner(i: nat, name: string)
    requires IsSafeName(name)
    ensures IsInnerPath(ShardPath(i, name))
  {
    PaddedReads(i);
    SafeNameIsPlain(name);
    var rest := Padded(i) + ("-" + name + ".enc");
    assert '/' !in rest;
    SplitNone(rest, '/');
    SplitAt("shards", '/', rest);
    assert ShardPath(i, name) == "shards" + ['/'] + rest;
  }

  lemma {:induction false} SealedShardIsEncryptedIff(
      v: Vault, key: Key, nonce: nat -> Bytes, p: Bytes, name: string, out: Output, i: nat)
    requires Lawful(v) && NoncesFit(nonce) && IsSafeName(name)
    requires i < |out.shards| && SealedAt(v, key, nonce, p, name, out, i)
    ensures IsEncryptedShard(v, out.shards[i]) <==>
              !IsZero(nonce(i)) && v.sha(p) != v.sha(v.encrypt(v.shardKey(key, i), p, nonce(i)))
  {
    var c := v.encrypt(v.shardKey(key, i), p, nonce(i));
    ShardPathIsInner(i, name);
    assert IsHash(v.sha(p)) && IsHash(v.sha(c));
    LowerHash(v.sha(p));
    LowerHash(v.sha(c));
    assert v.decodeNonce(v.encodeNonce(nonce(i))) == Some(nonce(i)) && |nonce(i)| == NONCE_BYTES;
  }

  lemma {:induction false} DistinctNonces(v: Vault, a: Bytes, b: Bytes)
    requires Lawful(v)
    ensures v.encodeNonce(a) == v.encodeNonce(b) <==> a == b
  {
    assert v.decodeNonce(v.encodeNonce(a)) == Some(a) && v.decodeNonce(v.encodeNonce(b)) == Some(b);
  }

  lemma {:induction false} NamesAreSafe(files: seq<Weights>, size: nat)
    requires size > 0
    ensures forall k :: 0 <= k < |AllNames(files, size)| ==> IsSafeName(AllNames(files, size)[k])
    decreases |files|
  {
    if files != [] {
      NamesAreSafe(files[1..], size);
    }
  }

  lemma {:induction false} SafeIdIsVisible(id: string)
    requires IsSafeBundleId(id)
    ensures !IsBlank(id)
  {
    assert !IsSpace(id[0]);
  }

  lemma {:induction false} SomethingToSeal(files: seq<Weights>, size: nat)
    requires size > 0
    ensures AllChunks(files, size) != [] <==> AllBytes(files) != []
    decreases |files|
  {
    if files != [] {
      SomethingToSeal(files[1..], size);
    }
  }

  /** Every shard sealed is well described exactly when its nonce is not zero and
      its digests differ. */
  lemma {:induction false} ShardsEncryptedIff(
      v: Vault, key: Key, nonce: nat -> Bytes, chunks: seq<Bytes>, names: seq<string>, out: Output)
    requires Lawful(v) && NoncesFit(nonce) && Sealed(v, key, nonce, chunks, names, out)
    requires forall k :: 0 <= k < |names| ==> IsSafeName(names[k])
    ensures (forall i :: 0 <= i < |out.shards| ==> IsEncryptedShard(v, out.shards[i])) <==>
              forall i :: 0 <= i < |chunks| ==> !IsZero(nonce(i)) && v.sha(chunks[i]) != v.sha(Ciphertext(v, key, nonce, chunks, i))
  {
    forall i | 0 <= i < |chunks|
      ensures IsEncryptedShard(v, out.shards[i]) <==>
                !IsZero(nonce(i)) && v.sha(chunks[i]) != v.sha(Ciphertext(v, key, nonce, chunks, i))
    {
      assert SealedAt(v, key, nonce, chunks[i], names[i], out, i);
      SealedShardIsEncryptedIff(v, key, nonce, chunks[i], names[i], out, i);
    }
  }

  lemma {:induction false} IvsDistinctIff(
      v: Vault, key: Key, nonce: nat -> Bytes, chunks: seq<Bytes>, names: seq<string>, out: Output)
    requires Lawful(v) && Sealed(v, key, nonce, chunks, names, out)
    ensures (forall i, j :: 0 <= i < j < |out.shards| ==> out.shards[i].iv != out.shards[j].iv) <==>
              forall i, j :: 0 <= i < j < |chunks| ==> nonce(i) != nonce(j)
  {
    forall i, j | 0 <= i < j < |chunks| ensures out.shards[i].iv != out.shards[j].iv <==> nonce(i) != nonce(j) {
      assert SealedAt(v, key, nonce, chunks[i], names[i], out, i);
      assert SealedAt(v, key, nonce, chunks[j], names[j], out, j);
      DistinctNonces(v, nonce(i), nonce(j));
    }
  }

  /** What was sealed is accepted exactly when there was something to seal and it
      was encrypted. */
  lemma {:induction false} SealedIsStructuredIff(
      v: Vault, key: Key, nonce: nat -> Bytes, files: seq<Weights>, size: nat, out: Output, bundleId: string)
    requires Lawful(v) && NoncesFit(nonce) && size > 0 && IsSafeBundleId(bundleId)
    requires Sealed(v, key, nonce, AllChunks(files, size), AllNames(files, size), out)
    ensures IsStructured(v, SealedManifest(v, bundleId, out)) <==>
              AllBytes(files) != [] && Encrypts(v, key, nonce, AllChunks(files, size))
  {
    NamesAreSafe(files, size);
    SafeIdIsVisible(bundleId);
    SomethingToSeal(files, size);
    ShardsEncryptedIff(v, key, nonce, AllChunks(files, size), AllNames(files, size), out);
    IvsDistinctIff(v, key, nonce, AllChunks(files, size), AllNames(files, size), out);
    assert IsHash(v.sha(out.hashed));
    LowerHash(v.sha(out.hashed));
  }

  // ----- The round trip -----

  ghost predicate NoncesFit(nonce: nat -> Bytes) {
    forall i: nat :: |nonce(i)| == NONCE_BYTES
  }

  lemma {:induction false} SealedShardOpens(
      v: Vault, key: Key, nonce: nat -> Bytes, p: Bytes, name: string, out: Output, i: nat)
    requires Lawful(v) && NoncesFit(nonce) && i < |out.shards| && SealedAt(v, key, nonce, p, name, out, i)
    ensures Opened(v, out.disk, i, out.shards[i], key) == Good(p)
  {
    var n := nonce(i);
    assert v.decodeNonce(v.encodeNonce(n)) == Some(n);
    assert v.decrypt(v.shardKey(key, i), v.encrypt(v.shardKey(key, i), p, n), n) == Some(p);
  }

  lemma {:induction false} OneMoreOpens(v: Vault, disk: Disk, shards: seq<Shard>, key: Key, k: nat, chunks: seq<Bytes>)
    requires 0 < k <= |shards| && k <= |chunks|
    requires Plaintexts(v, disk, shards, key, k - 1) == Some(chunks[..k - 1])
    requires Opened(v, disk, k - 1, shards[k - 1], key) == Good(chunks[k - 1])
    ensures Plaintexts(v, disk, shards, key, k) == Some(chunks[..k])
  {
    assert chunks[..k] == chunks[..k - 1] + [chunks[k - 1]];
  }

  lemma {:induction false} SealedOpens(
      v: Vault, key: Key, nonce: nat -> Bytes, chunks: seq<Bytes>, names: seq<string>, out: Output, k: nat)
    requires Lawful(v) && NoncesFit(nonce) && Sealed(v, key, nonce, chunks, names, out) && k <= |chunks|
    ensures Plaintexts(v, out.disk, out.shards, key, k) == Some(chunks[..k])
    decreases k
  {
    if k == 0 {
      assert chunks[..0] == [];
    } else {
      SealedOpens(v, key, nonce, chunks, names, out, k - 1);
      assert SealedAt(v, key, nonce, chunks[k - 1], names[k - 1], out, k - 1);
      SealedShardOpens(v, key, nonce, chunks[k - 1], names[k - 1], out, k - 1);
      OneMoreOpens(v, out.disk, out.shards, key, k, chunks);
    }
  }

  lemma {:induction false} SealedInLayers(
      v: Vault, key: Key, nonce: nat -> Bytes, chunks: seq<Bytes>, names: seq<string>, out: Output, bundleId: string)
    requires Sealed(v, key, nonce, chunks, names, out)
    ensures LayersInOrder(SealedManifest(v, bundleId, out))
  {
    forall i, j | 0 <= i < j < |out.shards| ensures out.shards[i].layerIndex <= out.shards[j].layerIndex {
      assert SealedAt(v, key, nonce, chunks[i], names[i], out, i);
      assert SealedAt(v, key, nonce, chunks[j], names[j], out, j);
    }
  }

  /** Whatever was sealed passes keyed verification with the same key, and
      staging writes exactly the concatenation of the weight files. */
  lemma {:induction false} SealRoundTrip(
      v: Vault, key: Key, nonce: nat -> Bytes, files: seq<Weights>, size: nat, out: Output, bundleId: string)
    requires Lawful(v) && NoncesFit(nonce) && size > 0
    requires Sealed(v, key, nonce, AllChunks(files, size), AllNames(files, size), out)
    ensures
      var m := SealedManifest(v, bundleId, out);
      Passes(v, m, out.disk, key) && StagedContent(v, m, out.disk, key) == Some(AllBytes(files))
  {
    var chunks := AllChunks(files, size);
    var m := SealedManifest(v, bundleId, out);
    SealedOpens(v, key, nonce, chunks, AllNames(files, size), out, |chunks|);
    assert chunks[..|chunks|] == chunks;
    AllChunksRejoin(files, size);
    SealedInLayers(v, key, nonce, chunks, AllNames(files, size), out, bundleId);
    OrderIsManifestOrder(m);
    SamePlaintexts(v, out.disk, m.shards, key, |m.shards|);
  }
}
