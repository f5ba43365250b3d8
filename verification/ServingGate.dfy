/** The serving gate of the model store: registration, integrity verdicts,
    staging and what they admit. Each operation is one atomic step, and sees the
    files of that moment. */
module ServingGate {
  import opened Prelude
  import opened Bundle

  datatype Status = Encrypted | Ready | Tampered | Staging

  datatype Verdict = Verdict(checkedAt: int, passed: bool)

  datatype Entry = Entry(manifest: Manifest, status: Status, verdict: Option<Verdict>)

  type Store = map<string, Entry>

  datatype Answer = Admit | NotFound | Violation

  // ----- The gate -----

  function EnsureServable(m: Store, id: string, allowUnregistered: bool, ttl: int, now: int): Answer {
    if id !in m then (if m == map[] || allowUnregistered then Admit else NotFound)
    else if m[id].status.Tampered? then Violation
    else
      match m[id].verdict
      case Some(v) => if v.passed && now - v.checkedAt < ttl then Admit else Violation
      case None => Violation
  }

  // ----- Checking and staging -----

  /** The shards in order, up to the first that is missing or differs. None if a
      shard is there and cannot be read. */
  function ShardsMatch(v: Vault, disk: Disk, unreadable: set<string>, shards: seq<Shard>): Option<bool>
    decreases |shards|
  {
    if shards == [] then Some(true)
    else if shards[0].path !in disk then Some(false)
    else if shards[0].path in unreadable then None
    else if v.sha(disk[shards[0].path]) != shards[0].ciphertextSha then Some(false)
    else ShardsMatch(v, disk, unreadable, shards[1..])
  }

  /** `signed` is whether the vendor's signature, if one is required, verifies. */
  function CheckOutcome(v: Vault, m: Manifest, disk: Disk, unreadable: set<string>, signed: bool): Option<bool> {
    match ShardsMatch(v, disk, unreadable, m.shards)
    case Some(true) => Some(signed)
    case other => other
  }

  lemma {:induction false} MatchIsEveryShard(v: Vault, disk: Disk, unreadable: set<string>, shards: seq<Shard>)
    ensures ShardsMatch(v, disk, unreadable, shards) == Some(true) <==>
              forall i :: 0 <= i < |shards| ==> CiphertextMatches(v, disk, shards[i]) && shards[i].path !in unreadable
    decreases |shards|
  {
    if shards != [] {
      MatchIsEveryShard(v, disk, unreadable, shards[1..]);
      assert forall i :: 1 <= i < |shards| ==> shards[i] == shards[1..][i - 1];
    }
  }

  method CheckEveryShard(v: Vault, disk: Disk, unreadable: set<string>, shards: seq<Shard>) returns (r: Option<bool>)
    ensures r == ShardsMatch(v, disk, unreadable, shards)
    ensures r == Some(true) <==>
              forall i :: 0 <= i < |shards| ==> CiphertextMatches(v, disk, shards[i]) && shards[i].path !in unreadable
  {
    MatchIsEveryShard(v, disk, unreadable, shards);
    for i := 0 to |shards|
      invariant ShardsMatch(v, disk, unreadable, shards[i..]) == ShardsMatch(v, disk, unreadable, shards)
    {
      assert shards[i..][0] == shards[i] && shards[i..][1..] == shards[i + 1..];
      if shards[i].path !in disk {
        return Some(false);
      }
      if shards[i].path in unreadable {
        return None;
      }
      if v.sha(disk[shards[i].path]) != shards[i].ciphertextSha {
        return Some(false);
      }
    }
    r := Some(true);
  }

  // ----- Steps -----

  /** What an operation does to the store once the files have been looked at. A
      check that cannot read the shards and a manifest that is refused do
      nothing. */
  datatype Act =
    | Nothing
    | Enter(id: string, manifest: Manifest)
    | Judge(id: string, passed: bool, now: int)
    | Serve(id: string, now: int)
    | FailToStage(id: string)
    | Leave(id: string)

  function Recorded(m: Store, id: string, passed: bool, now: int): Store {
    if id !in m then m
    else m[id := Entry(m[id].manifest, if passed then m[id].status else Tampered, Some(Verdict(now, passed)))]
  }

  /** Staging first marks the bundle and, if it fails, leaves the mark. */
  function After(m: Store, act: Act): Store {
    match act
    case Nothing => m
    case Enter(id, manifest) => m[id := Entry(manifest, Encrypted, None)]
    case Judge(id, passed, now) => Recorded(m, id, passed, now)
    case Serve(id, now) =>
      if id in m then m[id := Entry(m[id].manifest, Ready, Some(Verdict(now, true)))] else m
    case FailToStage(id) => if id in m then m[id := m[id].(status := Staging)] else m
    case Leave(id) => map k | k in m && k != id :: m[k]
  }

  lemma {:induction false} MarkedThenServed(m: Store, id: string, now: int)
    ensures After(After(m, FailToStage(id)), Serve(id, now)) == After(m, Serve(id, now))
  {
  }

  /** `works` is whether the staging files can be read and written. */
  datatype Op =
    | Register(manifest: Manifest, signed: bool)
    | Check(id: string, disk: Disk, unreadable: set<string>, signed: bool, now: int)
    | Stage(id: string, disk: Disk, key: Key, works: bool, now: int)
    | Remove(id: string)

  function CheckAct(v: Vault, m: Store, id: string, disk: Disk, unreadable: set<string>, signed: bool, now: int): Act {
    if id !in m then Nothing
    else
      var outcome := CheckOutcome(v, m[id].manifest, disk, unreadable, signed);
      if outcome.Some? then Judge(id, outcome.value, now) else Nothing
  }

  function StageAct(v: Vault, m: Store, id: string, disk: Disk, key: Key, works: bool, now: int): Act {
    if id !in m then Nothing
    else if works && StagedContent(v, m[id].manifest, disk, key).Some? then Serve(id, now)
    else FailToStage(id)
  }

  function ActOf(v: Vault, m: Store, op: Op): Act {
    match op
    case Register(manifest, signed) =>
      if IsStructured(v, manifest) && signed then Enter(manifest.bundleId, manifest) else Nothing
    case Check(id, disk, unreadable, signed, now) => CheckAct(v, m, id, disk, unreadable, signed, now)
    case Stage(id, disk, key, works, now) => StageAct(v, m, id, disk, key, works, now)
    case Remove(id) => Leave(id)
  }

  /** What the staged file holds, if staging succeeds. */
  method StageBytes(v: Vault, m: Manifest, disk: Disk, key: Key) returns (r: Option<Bytes>)
    ensures r == StagedContent(v, m, disk, key)
  {
    var staged := Bundle.Stage(v, m, disk, key);
    match staged {
      case Staged(content) => r := Some(content);
      case Refused(_) => r := None;
    }
  }

  /** What finding this in the store directory does. */
  function FoundAct(v: Vault, found: Option<Manifest>): Act {
    if found.Some? && IsStructured(v, found.value) then Enter(found.value.bundleId, found.value) else Nothing
  }

  function Scanned(v: Vault, found: seq<Option<Manifest>>): Store {
    if found == [] then map[] else After(Scanned(v, found[..|found| - 1]), FoundAct(v, found[|found| - 1]))
  }

  lemma {:induction false} ScannedStep(v: Vault, found: seq<Option<Manifest>>, i: nat)
    requires i < |found|
    ensures Scanned(v, found[..i + 1]) == After(Scanned(v, found[..i]), FoundAct(v, found[i]))
  {
    assert found[..i + 1][..i] == found[..i];
  }

  class ModelStore {
    const v: Vault
    const ttl: int
    var bundles: Store

    /** `found` are the manifests of the store directory; none where one cannot be
        read. Those that are well structured are taken in, without a verdict. */
    constructor (v: Vault, ttlMinutes: int, found: seq<Option<Manifest>>)
      ensures this.v == v && bundles == Scanned(v, found)
      ensures ttl == (if ttlMinutes < 1 then 1 else ttlMinutes) * 60 * MICROS_PER_SECOND
    {
      this.v := v;
      ttl := (if ttlMinutes < 1 then 1 else ttlMinutes) * 60 * MICROS_PER_SECOND;
      bundles := map[];
      new;
      assert found[..0] == [];
      for i := 0 to |found|
        invariant bundles == Scanned(v, found[..i])
      {
        ScannedStep(v, found, i);
        if found[i].Some? && IsStructured(v, found[i].value) {
          var manifest := found[i].value;
          bundles := bundles[manifest.bundleId := Entry(manifest, Encrypted, None)];
        }
      }
      assert found[..|found|] == found;
    }

    method RegisterBundle(manifest: Manifest, signed: bool) returns (ok: bool)
      modifies this
      ensures bundles == After(old(bundles), ActOf(v, old(bundles), Register(manifest, signed)))
      ensures ok <==> IsStructured(v, manifest) && signed
      ensures bundles == if ok then old(bundles)[manifest.bundleId := Entry(manifest, Encrypted, None)] else old(bundles)
    {
      ok := IsStructured(v, manifest) && signed;
      if ok {
        bundles := bundles[manifest.bundleId := Entry(manifest, Encrypted, None)];
      }
    }

    method RecordVerdict(id: string, passed: bool, now: int)
      modifies this
      ensures bundles == Recorded(old(bundles), id, passed, now)
    {
      if id in bundles {
        var e := bundles[id].(verdict := Some(Verdict(now, passed)));
        if !passed {
          e := e.(status := Tampered);
        }
        bundles := bundles[id := e];
      }
    }

    method RunIntegrityCheck(id: string, disk: Disk, unreadable: set<string>, signed: bool, now: int)
      returns (r: Option<bool>)
      modifies this
      ensures bundles == After(old(bundles), CheckAct(v, old(bundles), id, disk, unreadable, signed, now))
      ensures r == if id in old(bundles) then CheckOutcome(v, old(bundles)[id].manifest, disk, unreadable, signed) else None
    {
      if id !in bundles {
        return None;
      }
      r := CheckEveryShard(v, disk, unreadable, bundles[id].manifest.shards);
      if r == Some(true) {
        r := Some(signed);
      }
      if r.Some? {
        RecordVerdict(id, r.value, now);
      }
    }

    method StagePlaintext(id: string, disk: Disk, key: Key, works: bool, now: int) returns (r: Option<Bytes>)
      modifies this
      ensures bundles == After(old(bundles), StageAct(v, old(bundles), id, disk, key, works, now))
      ensures r == if id in old(bundles) && works then StagedContent(v, old(bundles)[id].manifest, disk, key) else None
    {
      if id !in bundles {
        return None;
      }
      var manifest := bundles[id].manifest;
      MarkedThenServed(bundles, id, now);
      BeginStaging(id);
      if !works {
        return None;
      }
      r := StageBytes(v, manifest, disk, key);
      if r.None? {
        return;
      }
      ServeStaged(id, now);
    }

    method BeginStaging(id: string)
      modifies this
      ensures bundles == After(old(bundles), FailToStage(id))
    {
      if id in bundles {
        bundles := bundles[id := bundles[id].(status := Staging)];
      }
    }

    method ServeStaged(id: string, now: int)
      modifies this
      ensures bundles == After(old(bundles), Serve(id, now))
    {
      RecordVerdict(id, true, now);
      if id in bundles {
        bundles := bundles[id := bundles[id].(status := Ready)];
      }
    }

    method RemoveBundle(id: string) returns (found: bool)
      modifies this
      ensures bundles == After(old(bundles), Leave(id)) && found == (id in old(bundles))
    {
      found := id in bundles;
      bundles := map k | k in bundles && k != id :: bundles[k];
    }
  }

  // ----- Every run -----

  ghost predicate Steps(m: Store, act: Act, next: Store) {
    next == After(m, act)
  }

  ghost predicate IsRun(stores: seq<Store>, acts: seq<Act>) {
    && |stores| == |acts| + 1 && stores[0] == map[]
    && forall k :: 0 <= k < |acts| ==> Steps(stores[k], acts[k], stores[k + 1])
  }

  /** Whether this records this verdict on the bundle. */
  predicate Records(m: Store, act: Act, id: string, passed: bool) {
    id in m && ((act.Judge? && act.id == id && act.passed == passed) || (act.Serve? && act.id == id && passed))
  }

  predicate Forgets(act: Act, id: string) {
    (act.Enter? || act.Leave?) && act.id == id
  }

  /** A re-registration or a staging attempt. */
  predicate Resets(act: Act, id: string) {
    (act.Enter? || act.Serve? || act.FailToStage?) && act.id == id
  }

  /** No verdict is recorded and the entry is not replaced. */
  predicate LeavesVerdict(m: Store, act: Act, id: string) {
    !Records(m, act, id, true) && !Records(m, act, id, false) && !Forgets(act, id)
  }

  /** Step `p` recorded the latest verdict on the bundle, a pass. */
  ghost predicate LatestIsPass(stores: seq<Store>, acts: seq<Act>, k: nat, id: string, p: nat)
    requires p < k <= |acts| && |stores| == |acts| + 1
  {
    && Records(stores[p], acts[p], id, true)
    && forall q :: p < q < k ==> LeavesVerdict(stores[q], acts[q], id)
  }

  lemma {:induction false} VerdictIsLatest(stores: seq<Store>, acts: seq<Act>, k: nat, id: string) returns (p: nat)
    requires IsRun(stores, acts) && k < |stores| && id in stores[k]
    requires stores[k][id].verdict.Some? && stores[k][id].verdict.value.passed
    ensures p < k && LatestIsPass(stores, acts, k, id, p)
    ensures acts[p].now == stores[k][id].verdict.value.checkedAt
    ensures stores[p][id].manifest == stores[k][id].manifest
    decreases k
  {
    assert Steps(stores[k - 1], acts[k - 1], stores[k]);
    if Records(stores[k - 1], acts[k - 1], id, true) {
      p := k - 1;
    } else {
      assert id in stores[k - 1] && stores[k][id].verdict == stores[k - 1][id].verdict;
      p := VerdictIsLatest(stores, acts, k - 1, id);
    }
  }

  lemma {:induction false} PassStands(stores: seq<Store>, acts: seq<Act>, k: nat, id: string, p: nat)
    requires IsRun(stores, acts) && p < k < |stores| && LatestIsPass(stores, acts, k, id, p)
    ensures id in stores[k] && stores[k][id].verdict == Some(Verdict(acts[p].now, true))
    decreases k
  {
    assert Steps(stores[k - 1], acts[k - 1], stores[k]);
    if p < k - 1 {
      PassStands(stores, acts, k - 1, id, p);
      assert LeavesVerdict(stores[k - 1], acts[k - 1], id);
    }
  }

  /** A registered bundle is admitted only if the latest verdict on it since it
      was registered is a pass younger than the lifetime of a verdict. */
  lemma {:induction false} AdmittedOnlyOnFreshPass(
      stores: seq<Store>, acts: seq<Act>, k: nat, id: string, allowUnregistered: bool, ttl: int, now: int) returns (p: nat)
    requires IsRun(stores, acts) && k < |stores| && id in stores[k]
    requires EnsureServable(stores[k], id, allowUnregistered, ttl, now) == Admit
    ensures p < k && LatestIsPass(stores, acts, k, id, p) && now - acts[p].now < ttl
    ensures stores[p][id].manifest == stores[k][id].manifest
  {
    p := VerdictIsLatest(stores, acts, k, id);
  }

  /** A store that scanned its directory is one that a run of registrations
      reaches, so everything said of runs holds of it too. */
  lemma {:induction false} ScanIsARun(v: Vault, found: seq<Option<Manifest>>) returns (stores: seq<Store>, acts: seq<Act>)
    ensures IsRun(stores, acts) && |acts| == |found| && stores[|found|] == Scanned(v, found)
    ensures forall k :: 0 <= k < |acts| ==> acts[k] == FoundAct(v, found[k])
    decreases |found|
  {
    if found == [] {
      stores, acts := [map[]], [];
    } else {
      var last := |found| - 1;
      stores, acts := ScanIsARun(v, found[..last]);
      var next := Scanned(v, found);
      RunGrows(stores, acts, FoundAct(v, found[last]));
      stores, acts := stores + [next], acts + [FoundAct(v, found[last])];
    }
  }

  lemma {:induction false} RunGrows(stores: seq<Store>, acts: seq<Act>, act: Act)
    requires IsRun(stores, acts)
    ensures IsRun(stores + [After(stores[|acts|], act)], acts + [act])
  {
    var grown, more := stores + [After(stores[|acts|], act)], acts + [act];
    forall k | 0 <= k < |more| ensures Steps(grown[k], more[k], grown[k + 1]) {
      if k < |acts| {
        assert Steps(stores[k], acts[k], stores[k + 1]);
      }
    }
  }

  // ----- What a verdict was recorded from -----

  /** The acts of a run are what its operations come to. */
  ghost predicate Performed(v: Vault, stores: seq<Store>, ops: seq<Op>, acts: seq<Act>) {
    && |ops| == |acts| && |stores| == |acts| + 1
    && forall k :: 0 <= k < |acts| ==> Performs(v, stores[k], ops[k], acts[k])
  }

  ghost predicate Performs(v: Vault, m: Store, op: Op, act: Act) {
    act == ActOf(v, m, op)
  }

  ghost predicate EveryShardMatches(v: Vault, disk: Disk, m: Manifest) {
    forall i :: 0 <= i < |m.shards| ==> CiphertextMatches(v, disk, m.shards[i])
  }

  lemma {:induction false} PassMatchesDisk(v: Vault, m: Store, op: Op, id: string)
    requires Records(m, ActOf(v, m, op), id, true)
    ensures (op.Check? || op.Stage?) && EveryShardMatches(v, op.disk, m[id].manifest)
  {
    match op
    case Check(_, disk, unreadable, _, _) => MatchIsEveryShard(v, disk, unreadable, m[id].manifest.shards);
    case Stage(_, disk, key, _, _) => SameShardsOpen(v, m[id].manifest, disk, key);
    case _ =>
  }

  /** Whatever is admitted had, within the lifetime of a verdict, every shard of
      its present manifest matching the file on disk. */
  lemma {:induction false} AdmittedMatchedDisk(
      v: Vault, stores: seq<Store>, ops: seq<Op>, acts: seq<Act>, k: nat, id: string,
      allowUnregistered: bool, ttl: int, now: int) returns (p: nat)
    requires IsRun(stores, acts) && Performed(v, stores, ops, acts) && k < |stores| && id in stores[k]
    requires EnsureServable(stores[k], id, allowUnregistered, ttl, now) == Admit
    ensures p < k && (ops[p].Check? || ops[p].Stage?) && ops[p].id == id && now - ops[p].now < ttl
    ensures EveryShardMatches(v, ops[p].disk, stores[k][id].manifest)
  {
    p := AdmittedOnlyOnFreshPass(stores, acts, k, id, allowUnregistered, ttl, now);
    assert Performs(v, stores[p], ops[p], acts[p]);
    PassMatchesDisk(v, stores[p], ops[p], id);
  }

  // ----- After a failed check -----

  /** Step `i` recorded a failure that nothing up to step `k` has cleared. */
  ghost predicate FailureStands(stores: seq<Store>, acts: seq<Act>, k: nat, id: string, i: nat)
    requires i < k <= |acts| && |stores| == |acts| + 1
  {
    && Records(stores[i], acts[i], id, false)
    && forall q :: i < q < k ==> Uncleared(acts[q], id)
  }

  predicate Uncleared(act: Act, id: string) {
    !Resets(act, id) && !Forgets(act, id)
  }

  lemma {:induction false} MarkHasCause(stores: seq<Store>, acts: seq<Act>, k: nat, id: string) returns (i: nat)
    requires IsRun(stores, acts) && k < |stores| && id in stores[k] && stores[k][id].status.Tampered?
    ensures i < k && FailureStands(stores, acts, k, id, i)
    decreases k
  {
    assert Steps(stores[k - 1], acts[k - 1], stores[k]);
    if Records(stores[k - 1], acts[k - 1], id, false) {
      i := k - 1;
    } else {
      i := MarkHasCause(stores, acts, k - 1, id);
    }
  }

  lemma {:induction false} MarkStays(stores: seq<Store>, acts: seq<Act>, k: nat, id: string, i: nat)
    requires IsRun(stores, acts) && i < k < |stores| && FailureStands(stores, acts, k, id, i)
    ensures id in stores[k] && stores[k][id].status.Tampered?
    decreases k
  {
    assert Steps(stores[k - 1], acts[k - 1], stores[k]);
    if i < k - 1 {
      MarkStays(stores, acts, k - 1, id, i);
      assert Uncleared(acts[k - 1], id);
    }
  }

  lemma {:induction false} LaterPass(stores: seq<Store>, acts: seq<Act>, i: nat, k: nat, id: string)
    requires IsRun(stores, acts) && i < k < |stores| && Records(stores[i], acts[i], id, false)
    requires id in stores[k] && stores[k][id].verdict.Some? && stores[k][id].verdict.value.passed
    ensures exists q :: i < q < k && Records(stores[q], acts[q], id, true)
  {
    var p := VerdictIsLatest(stores, acts, k, id);
    assert !LeavesVerdict(stores[i], acts[i], id);
  }

  lemma {:induction false} ClearedAfter(stores: seq<Store>, acts: seq<Act>, i: nat, k: nat, id: string)
    requires IsRun(stores, acts) && i < k < |stores| && Records(stores[i], acts[i], id, false)
    requires id in stores[k] && !stores[k][id].status.Tampered?
    ensures exists q :: i < q < k && Resets(acts[q], id)
    decreases k
  {
    assert Steps(stores[k - 1], acts[k - 1], stores[k]);
    if i < k - 1 && !Resets(acts[k - 1], id) {
      ClearedAfter(stores, acts, i, k - 1, id);
    }
  }

  /** After a failed check a bundle stays refused until both a later pass and a
      re-registration or staging attempt have happened. */
  lemma {:induction false} FailureWithdraws(
      stores: seq<Store>, acts: seq<Act>, i: nat, k: nat, id: string, allowUnregistered: bool, ttl: int, now: int)
    requires IsRun(stores, acts) && i < k < |stores| && Records(stores[i], acts[i], id, false)
    requires id in stores[k] && EnsureServable(stores[k], id, allowUnregistered, ttl, now) == Admit
    ensures exists q :: i < q < k && Resets(acts[q], id)
    ensures exists q :: i < q < k && Records(stores[q], acts[q], id, true)
  {
    LaterPass(stores, acts, i, k, id);
    ClearedAfter(stores, acts, i, k, id);
  }

  // ----- Staging that fails -----

  /** A failed staging keeps the verdict and lifts the mark: afterwards the bundle
      is admitted exactly when its latest verdict is a fresh pass. */
  lemma {:induction false} FailedStagingDecidesNothing(m: Store, id: string, allowUnregistered: bool, ttl: int, later: int)
    requires id in m
    ensures
      EnsureServable(After(m, FailToStage(id)), id, allowUnregistered, ttl, later) == Admit
      <==> m[id].verdict.Some? && m[id].verdict.value.passed && later - m[id].verdict.value.checkedAt < ttl
  {
  }

  lemma {:induction false} MarkedIff(stores: seq<Store>, acts: seq<Act>, k: nat, id: string)
    requires IsRun(stores, acts) && k < |stores| && id in stores[k]
    ensures stores[k][id].status.Tampered? <==> exists i: nat :: i < k && FailureStands(stores, acts, k, id, i)
  {
    if stores[k][id].status.Tampered? {
      var i := MarkHasCause(stores, acts, k, id);
    }
    if i: nat :| i < k && FailureStands(stores, acts, k, id, i) {
      MarkStays(stores, acts, k, id, i);
    }
  }

  predicate FreshPass(e: Entry, ttl: int, now: int) {
    e.verdict.Some? && e.verdict.value.passed && now - e.verdict.value.checkedAt < ttl
  }

  lemma {:induction false} FreshPassIff(stores: seq<Store>, acts: seq<Act>, k: nat, id: string, ttl: int, now: int)
    requires IsRun(stores, acts) && k < |stores| && id in stores[k]
    ensures FreshPass(stores[k][id], ttl, now) <==>
              exists p: nat :: p < k && LatestIsPass(stores, acts, k, id, p) && now - acts[p].now < ttl
  {
    if FreshPass(stores[k][id], ttl, now) {
      var p := VerdictIsLatest(stores, acts, k, id);
    }
    if p: nat :| p < k && LatestIsPass(stores, acts, k, id, p) && now - acts[p].now < ttl {
      PassStands(stores, acts, k, id, p);
    }
  }

  /** Over every run, a failed staging turns a refusal into an admission exactly
      when the bundle stands marked by an earlier failed check and its latest
      verdict is nevertheless a fresh pass. */
  lemma {:induction false} FailedStagingReadmitsIff(
      stores: seq<Store>, acts: seq<Act>, k: nat, id: string, allowUnregistered: bool, ttl: int, later: int)
    requires IsRun(stores, acts) && k < |acts| && acts[k] == FailToStage(id) && id in stores[k]
    ensures
      (&& EnsureServable(stores[k], id, allowUnregistered, ttl, later) != Admit
       && EnsureServable(stores[k + 1], id, allowUnregistered, ttl, later) == Admit)
      <==>
      (&& (exists i: nat :: i < k && FailureStands(stores, acts, k, id, i))
       && (exists p: nat :: p < k && LatestIsPass(stores, acts, k, id, p) && later - acts[p].now < ttl))
  {
    assert Steps(stores[k], acts[k], stores[k + 1]);
    FailedStagingDecidesNothing(stores[k], id, allowUnregistered, ttl, later);
    MarkedIff(stores, acts, k, id);
    FreshPassIff(stores, acts, k, id, ttl, later);
  }

  /** It happens for every manifest: the files are missing at one check and back
      at the next, which passes and leaves the mark; a staging without them then
      fails, and the bundle is served. */
  lemma {:induction false} FailedStagingReadmits(
      v: Vault, manifest: Manifest, disk: Disk, key: Key, allowUnregistered: bool, ttl: int, now: int)
    returns (stores: seq<Store>, ops: seq<Op>, acts: seq<Act>)
    requires IsStructured(v, manifest) && ttl > 0 && EveryShardMatches(v, disk, manifest)
    ensures IsRun(stores, acts) && Performed(v, stores, ops, acts)
    ensures |acts| == 4 && acts[3] == FailToStage(manifest.bundleId)
    ensures EnsureServable(stores[3], manifest.bundleId, allowUnregistered, ttl, now) == Violation
    ensures EnsureServable(stores[4], manifest.bundleId, allowUnregistered, ttl, now) == Admit
  {
    var id := manifest.bundleId;
    ops := [Register(manifest, true), Check(id, map[], {}, true, now), Check(id, disk, {}, true, now),
            Op.Stage(id, map[], key, true, now)];
    acts := [Enter(id, manifest), Judge(id, false, now), Judge(id, true, now), FailToStage(id)];
    stores := ReadmittingStores(manifest, now);
    ReadmittingRun(manifest, now, acts);
    assert Performs(v, stores[0], ops[0], acts[0]);
    FilesMissing(v, stores[1], id, key, now);
    FilesBack(v, stores[2], id, disk, now);
    FilesMissing(v, stores[3], id, key, now);
  }

  lemma {:induction false} FilesMissing(v: Vault, m: Store, id: string, key: Key, now: int)
    requires id in m && m[id].manifest.shards != []
    ensures Performs(v, m, Check(id, map[], {}, true, now), Judge(id, false, now))
    ensures Performs(v, m, Op.Stage(id, map[], key, true, now), FailToStage(id))
  {
    NothingToStage(v, m[id].manifest, key);
  }

  lemma {:induction false} FilesBack(v: Vault, m: Store, id: string, disk: Disk, now: int)
    requires id in m && EveryShardMatches(v, disk, m[id].manifest)
    ensures Performs(v, m, Check(id, disk, {}, true, now), Judge(id, true, now))
  {
    MatchIsEveryShard(v, disk, {}, m[id].manifest.shards);
  }

  function ReadmittingStores(manifest: Manifest, now: int): seq<Store> {
    var id := manifest.bundleId;
    [map[],
     map[id := Entry(manifest, Encrypted, None)],
     map[id := Entry(manifest, Tampered, Some(Verdict(now, false)))],
     map[id := Entry(manifest, Tampered, Some(Verdict(now, true)))],
     map[id := Entry(manifest, Staging, Some(Verdict(now, true)))]]
  }

  lemma {:induction false} ReadmittingRun(manifest: Manifest, now: int, acts: seq<Act>)
    requires
      var id := manifest.bundleId;
      acts == [Enter(id, manifest), Judge(id, false, now), Judge(id, true, now), FailToStage(id)]
    ensures IsRun(ReadmittingStores(manifest, now), acts)
  {
    var stores := ReadmittingStores(manifest, now);
    assert Steps(stores[0], acts[0], stores[1]);
    assert Steps(stores[1], acts[1], stores[2]);
    assert Steps(stores[2], acts[2], stores[3]);
    assert Steps(stores[3], acts[3], stores[4]);
  }

  lemma {:induction false} NothingToStage(v: Vault, manifest: Manifest, key: Key)
    requires manifest.shards != []
    ensures StagedContent(v, manifest, map[], key).None?
    ensures ShardsMatch(v, map[], {}, manifest.shards) == Some(false)
  {
    SameShardsOpen(v, manifest, map[], key);
    assert Opened(v, map[], 0, manifest.shards[0], key) == Missing;
  }

  // ----- Every answer of the gate, over every run -----

  /** Step `p` registered the bundle, and it has not been replaced or removed since. */
  ghost predicate RegisteredAt(acts: seq<Act>, k: nat, id: string, p: nat)
    requires p < k <= |acts|
  {
    acts[p].Enter? && acts[p].id == id && forall q :: p < q < k ==> !Forgets(acts[q], id)
  }

  ghost predicate Registered(acts: seq<Act>, k: nat, id: string)
    requires k <= |acts|
  {
    exists p: nat :: p < k && RegisteredAt(acts, k, id, p)
  }

  lemma {:induction false} RegisteredOn(acts: seq<Act>, k: nat, id: string)
    requires 0 < k <= |acts|
    ensures Registered(acts, k, id) <==>
              if Forgets(acts[k - 1], id) then acts[k - 1].Enter? else Registered(acts, k - 1, id)
  {
    var j := k - 1;
    if p: nat :| p < j && RegisteredAt(acts, j, id, p) {
      assert !Forgets(acts[j], id) ==> RegisteredAt(acts, k, id, p);
    }
    if p: nat :| p < k && RegisteredAt(acts, k, id, p) {
      assert p < j ==> RegisteredAt(acts, j, id, p);
    }
    assert acts[j].Enter? && acts[j].id == id ==> RegisteredAt(acts, k, id, j);
  }

  /** The store holds what was registered and not removed since. */
  lemma {:induction false} HoldsTheRegistered(stores: seq<Store>, acts: seq<Act>, k: nat, id: string)
    requires IsRun(stores, acts) && k < |stores|
    ensures id in stores[k] <==> Registered(acts, k, id)
    decreases k
  {
    if k > 0 {
      HoldsTheRegistered(stores, acts, k - 1, id);
      RegisteredOn(acts, k, id);
      assert Steps(stores[k - 1], acts[k - 1], stores[k]);
    }
  }

  /** Each under the manifest it was last registered with. */
  lemma {:induction false} HoldsTheLatestManifest(stores: seq<Store>, acts: seq<Act>, k: nat, id: string, p: nat)
    requires IsRun(stores, acts) && p < k < |stores| && RegisteredAt(acts, k, id, p)
    ensures id in stores[k] && stores[k][id].manifest == acts[p].manifest
    decreases k
  {
    assert Steps(stores[k - 1], acts[k - 1], stores[k]);
    if p < k - 1 {
      HoldsTheLatestManifest(stores, acts, k - 1, id, p);
      assert !Forgets(acts[k - 1], id);
    }
  }

  /** A bundle that is not registered is not found, unless serving the unregistered
      is allowed or nothing at all is registered. */
  lemma {:induction false} UnregisteredIsNotFound(
      stores: seq<Store>, acts: seq<Act>, k: nat, id: string, allowUnregistered: bool, ttl: int, now: int)
    requires IsRun(stores, acts) && k < |stores| && !Registered(acts, k, id)
    ensures
      EnsureServable(stores[k], id, allowUnregistered, ttl, now)
      == if allowUnregistered || (forall other :: !Registered(acts, k, other)) then Admit else NotFound
  {
    forall other ensures other in stores[k] <==> Registered(acts, k, other) {
      HoldsTheRegistered(stores, acts, k, other);
    }
    if stores[k] != map[] {
      var other :| other in stores[k];
      assert Registered(acts, k, other);
    }
  }

  /** A bundle removed while another remains is refused. */
  lemma {:induction false} RemovedIsRefused(
      stores: seq<Store>, acts: seq<Act>, k: nat, id: string, other: string, ttl: int, now: int)
    requires IsRun(stores, acts) && k < |acts| && acts[k] == Leave(id) && other != id && Registered(acts, k, other)
    ensures EnsureServable(stores[k + 1], id, false, ttl, now) == NotFound
  {
    RegisteredOn(acts, k + 1, id);
    RegisteredOn(acts, k + 1, other);
    UnregisteredIsNotFound(stores, acts, k + 1, id, false, ttl, now);
  }

  /** A registered bundle is admitted exactly when no failed check stands against it
      and its latest verdict is a pass still fresh; otherwise it is refused as a
      violation, never as unknown. */
  lemma {:induction false} AdmittedIff(
      stores: seq<Store>, acts: seq<Act>, k: nat, id: string, allowUnregistered: bool, ttl: int, now: int)
    requires IsRun(stores, acts) && k < |stores| && Registered(acts, k, id)
    ensures
      EnsureServable(stores[k], id, allowUnregistered, ttl, now)
      == if !(exists i: nat :: i < k && FailureStands(stores, acts, k, id, i))
            && (exists p: nat :: p < k && LatestIsPass(stores, acts, k, id, p) && now - acts[p].now < ttl)
         then Admit else Violation
  {
    HoldsTheRegistered(stores, acts, k, id);
    MarkedIff(stores, acts, k, id);
    FreshPassIff(stores, acts, k, id, ttl, now);
  }

  // ----- What one check or staging decides -----

  /** The first shard that does not match, whatever the reason. */
  ghost predicate FirstUnmatched(v: Vault, disk: Disk, unreadable: set<string>, shards: seq<Shard>, i: int) {
    && 0 <= i < |shards|
    && !Matches(v, disk, unreadable, shards[i])
    && forall j :: 0 <= j < i ==> Matches(v, disk, unreadable, shards[j])
  }

  ghost predicate Matches(v: Vault, disk: Disk, unreadable: set<string>, d: Shard) {
    CiphertextMatches(v, disk, d) && d.path !in unreadable
  }

  /** A file that is there and cannot be read. */
  predicate Unread(disk: Disk, unreadable: set<string>, d: Shard) {
    d.path in disk && d.path in unreadable
  }

  /** The check ends at the first shard that does not match: without an answer if
      its file cannot be read, with a failure if it is missing or differs. */
  lemma {:induction false} CheckEndsAtTheFirst(v: Vault, disk: Disk, unreadable: set<string>, shards: seq<Shard>, i: nat)
    requires FirstUnmatched(v, disk, unreadable, shards, i)
    ensures ShardsMatch(v, disk, unreadable, shards) == if Unread(disk, unreadable, shards[i]) then None else Some(false)
    decreases |shards|
  {
    if i > 0 {
      assert Matches(v, disk, unreadable, shards[0]);
      assert FirstUnmatched(v, disk, unreadable, shards[1..], i - 1) by {
        assert forall j :: 0 <= j < i - 1 ==> shards[1..][j] == shards[j + 1];
      }
      CheckEndsAtTheFirst(v, disk, unreadable, shards[1..], i - 1);
    }
  }

  /** A check that meets a missing or differing shard first, or finds the signature
      wrong, withdraws the bundle at once; one that meets an unreadable file first
      decides nothing; and one that finds everything in place admits it for the
      lifetime of a verdict, unless an earlier failure stands. */
  lemma {:induction false} CheckDecides(
      v: Vault, m: Store, id: string, disk: Disk, unreadable: set<string>, signed: bool, now: int,
      allowUnregistered: bool, ttl: int, later: int)
    requires id in m
    ensures
      var shards := m[id].manifest.shards;
      var next := After(m, CheckAct(v, m, id, disk, unreadable, signed, now));
      var answer := EnsureServable(next, id, allowUnregistered, ttl, later);
      && (forall i: nat :: FirstUnmatched(v, disk, unreadable, shards, i) ==>
            if Unread(disk, unreadable, shards[i]) then next == m else answer == Violation)
      && ((forall i :: 0 <= i < |shards| ==> Matches(v, disk, unreadable, shards[i])) ==>
            (answer == Admit <==> signed && !m[id].status.Tampered? && later - now < ttl))
      && next.Keys == m.Keys && (forall other :: other in m && other != id ==> next[other] == m[other])
  {
    var shards := m[id].manifest.shards;
    MatchIsEveryShard(v, disk, unreadable, shards);
    forall i: nat | FirstUnmatched(v, disk, unreadable, shards, i)
      ensures ShardsMatch(v, disk, unreadable, shards) == if Unread(disk, unreadable, shards[i]) then None else Some(false)
    {
      CheckEndsAtTheFirst(v, disk, unreadable, shards, i);
    }
    if forall i :: 0 <= i < |shards| ==> Matches(v, disk, unreadable, shards[i]) {
      assert ShardsMatch(v, disk, unreadable, shards) == Some(true);
    }
  }

  /** A staging that succeeds admits the bundle for the lifetime of a verdict, an
      earlier failure notwithstanding; one that fails keeps the verdict there was. */
  lemma {:induction false} StagingDecides(
      v: Vault, m: Store, id: string, disk: Disk, key: Key, works: bool, now: int,
      allowUnregistered: bool, ttl: int, later: int)
    requires id in m
    ensures
      var next := After(m, StageAct(v, m, id, disk, key, works, now));
      var answer := EnsureServable(next, id, allowUnregistered, ttl, later);
      && next.Keys == m.Keys && next[id].manifest == m[id].manifest
      && (forall other :: other in m && other != id ==> next[other] == m[other])
      && (works && StagedContent(v, m[id].manifest, disk, key).Some? ==> (answer == Admit <==> later - now < ttl))
      && (!works || StagedContent(v, m[id].manifest, disk, key).None? ==>
            next[id].verdict == m[id].verdict && (answer == Admit <==> FreshPass(m[id], ttl, later)))
  {
  }

  // ----- What a scan takes in -----

  predicate Found(v: Vault, found: Option<Manifest>, id: string) {
    found.Some? && IsStructured(v, found.value) && found.value.bundleId == id
  }

  ghost predicate Offered(v: Vault, found: seq<Option<Manifest>>, id: string) {
    exists i :: 0 <= i < |found| && Found(v, found[i], id)
  }

  lemma {:induction false} OfferedOn(v: Vault, found: seq<Option<Manifest>>, id: string)
    requires found != []
    ensures Offered(v, found, id) <==> Offered(v, found[..|found| - 1], id) || Found(v, found[|found| - 1], id)
  {
    var older := found[..|found| - 1];
    if i :| 0 <= i < |found| && Found(v, found[i], id) {
      assert i < |older| ==> Found(v, older[i], id);
    }
    if i :| 0 <= i < |older| && Found(v, older[i], id) {
      assert found[i] == older[i];
    }
  }

  lemma {:induction false} ScanOn(v: Vault, m: Store, found: Option<Manifest>, id: string)
    ensures
      var next := After(m, FoundAct(v, found));
      && (id in next <==> id in m || Found(v, found, id))
      && (Found(v, found, id) ==> next[id] == Entry(found.value, Encrypted, None))
      && (id in m && !Found(v, found, id) ==> next[id] == m[id])
  {
  }

  /** A scan takes in exactly the identifiers it finds well structured. */
  lemma {:induction false} ScanTakesTheStructured(v: Vault, found: seq<Option<Manifest>>, id: string)
    ensures id in Scanned(v, found) <==> Offered(v, found, id)
    decreases |found|
  {
    if found != [] {
      var last := |found| - 1;
      ScanTakesTheStructured(v, found[..last], id);
      OfferedOn(v, found, id);
      ScanOn(v, Scanned(v, found[..last]), found[last], id);
    }
  }

  /** Each under the last such manifest and without a verdict, so that nothing
      scanned is served before it passes a check. */
  lemma {:induction false} ScanTakesTheLast(v: Vault, found: seq<Option<Manifest>>, id: string, i: nat)
    requires i < |found| && Found(v, found[i], id) && forall j :: i < j < |found| ==> !Found(v, found[j], id)
    ensures id in Scanned(v, found) && Scanned(v, found)[id] == Entry(found[i].value, Encrypted, None)
    decreases |found|
  {
    var last := |found| - 1;
    ScanOn(v, Scanned(v, found[..last]), found[last], id);
    if i < last {
      ScanTakesTheLast(v, found[..last], id, i);
    }
  }
}
