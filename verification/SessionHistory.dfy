/** The session table told by the operations alone: which sessions are there after
    any run, how recently and how often each was used, and what a cleanup takes. */
module SessionHistory {
  import opened Prelude
  import opened Sessions

  /** The session an admission is for. */
  function SessionOf(op: Op): Id
    requires op.Admit?
  {
    if op.named.Some? then op.named.value else op.generated
  }

  /** An accepted admission uses its session. */
  predicate Uses(c: Config, s: State, op: Op, id: Id) {
    && op.Admit? && SessionOf(op) == id
    && AfterAdmit(c, s, op.client, op.named, op.generated, op.now).1.Admitted?
  }

  /** Step `p` is the latest accepted admission for this session, the one that
      opened it or one that resumed it. */
  ghost predicate LatestUse(c: Config, states: seq<State>, ops: seq<Op>, k: nat, id: Id, p: nat)
    requires p < k <= |ops| && |states| == |ops| + 1
  {
    Uses(c, states[p], ops[p], id) && forall q :: p < q < k ==> !Uses(c, states[q], ops[q], id)
  }

  /** What ends a session last used at `used`. */
  predicate Ends(s: State, op: Op, id: Id, used: int) {
    match op
    case Admit(_, _, _, _) => false
    case Drop(lease) => lease in s.leases && s.leases[lease] == Lease(id, true)
    case End(session) => session == id
    case Cleanup(now, maxIdleSecs) => now - used >= maxIdleSecs * MICROS_PER_SECOND
  }

  /** Used at step `p` and not ended since. */
  ghost predicate Alive(states: seq<State>, ops: seq<Op>, k: nat, id: Id, p: nat)
    requires p < k <= |ops| && |states| == |ops| + 1 && ops[p].Admit?
  {
    forall q :: p < q < k ==> !Ends(states[q], ops[q], id, ops[p].now)
  }

  // ----- One step -----

  lemma {:induction false} UseRefreshes(c: Config, s: State, op: Op, id: Id)
    requires Uses(c, s, op, id) && Fresh(s, op)
    ensures
      var t := After(c, s, op).table;
      && id in t && t[id].lastActive == op.now && t[id].client == op.client
      && (id in s.table ==> t[id].createdAt == s.table[id].createdAt && s.table[id].client == op.client
                            && t[id].turns == if s.table[id].turns < U32_MAX then s.table[id].turns + 1 else s.table[id].turns)
      && (id !in s.table ==> t[id].createdAt == op.now && t[id].turns == 1)
  {
  }

  lemma {:induction false} OthersKeep(c: Config, s: State, op: Op, id: Id)
    requires !Uses(c, s, op, id) && Fresh(s, op)
    ensures
      var t := After(c, s, op).table;
      && (id in t <==> id in s.table && !Ends(s, op, id, s.table[id].lastActive))
      && (id in t ==> t[id] == s.table[id])
  {
  }

  // ----- Every run -----

  ghost predicate InUse(states: seq<State>, ops: seq<Op>, k: nat, id: Id, p: nat)
    requires p < k <= |ops| && |states| == |ops| + 1 && ops[p].Admit?
  {
    id in states[k].table && states[k].table[id].lastActive == ops[p].now && states[k].table[id].client == ops[p].client
  }

  lemma {:induction false} NotUsedOn(c: Config, states: seq<State>, ops: seq<Op>, k: nat, id: Id, p: nat)
    requires p < k < |ops| && |states| == |ops| + 1 && LatestUse(c, states, ops, k + 1, id, p)
    ensures LatestUse(c, states, ops, k, id, p) && !Uses(c, states[k], ops[k], id)
    ensures Alive(states, ops, k + 1, id, p) <==> Alive(states, ops, k, id, p) && !Ends(states[k], ops[k], id, ops[p].now)
  {
  }

  ghost predicate LivesIff(states: seq<State>, ops: seq<Op>, k: nat, id: Id, p: nat)
    requires p < k <= |ops| && |states| == |ops| + 1 && ops[p].Admit?
  {
    && (id in states[k].table <==> Alive(states, ops, k, id, p))
    && (id in states[k].table ==> InUse(states, ops, k, id, p))
  }

  lemma {:induction false} LivesOn(c: Config, states: seq<State>, ops: seq<Op>, k: nat, id: Id, p: nat)
    requires p < k < |ops| && |states| == |ops| + 1 && LatestUse(c, states, ops, k + 1, id, p)
    requires Steps(c, states[k], ops[k], states[k + 1]) && LivesIff(states, ops, k, id, p)
    ensures LivesIff(states, ops, k + 1, id, p)
  {
    NotUsedOn(c, states, ops, k, id, p);
    OthersKeep(c, states[k], ops[k], id);
  }

  lemma {:induction false} LivesOnceUsed(c: Config, states: seq<State>, ops: seq<Op>, id: Id, p: nat)
    requires p < |ops| && |states| == |ops| + 1 && Uses(c, states[p], ops[p], id)
    requires Steps(c, states[p], ops[p], states[p + 1])
    ensures LivesIff(states, ops, p + 1, id, p)
  {
    UseRefreshes(c, states[p], ops[p], id);
  }

  /** Over every run, a session is there exactly while nothing has ended it since it
      was last used, and it then belongs to whoever used it and carries that time. */
  lemma {:induction false} SessionLivesIff(c: Config, states: seq<State>, ops: seq<Op>, k: nat, id: Id, p: nat)
    requires IsRun(c, states, ops) && p < k < |states| && LatestUse(c, states, ops, k, id, p)
    ensures LivesIff(states, ops, k, id, p)
    decreases k
  {
    assert Steps(c, states[k - 1], ops[k - 1], states[k]);
    if p == k - 1 {
      LivesOnceUsed(c, states, ops, id, p);
    } else {
      NotUsedOn(c, states, ops, k - 1, id, p);
      SessionLivesIff(c, states, ops, k - 1, id, p);
      LivesOn(c, states, ops, k - 1, id, p);
    }
  }

  /** A session that is there has been used. */
  lemma {:induction false} LatestUseOf(c: Config, states: seq<State>, ops: seq<Op>, k: nat, id: Id) returns (p: nat)
    requires IsRun(c, states, ops) && k < |states| && id in states[k].table
    ensures p < k && LatestUse(c, states, ops, k, id, p)
    decreases k
  {
    assert Steps(c, states[k - 1], ops[k - 1], states[k]);
    if Uses(c, states[k - 1], ops[k - 1], id) {
      p := k - 1;
    } else {
      OthersKeep(c, states[k - 1], ops[k - 1], id);
      p := LatestUseOf(c, states, ops, k - 1, id);
    }
  }

  /** Over every run, a cleanup keeps exactly the sessions used after the cutoff,
      the opening or a resume, each just as it was. */
  lemma {:induction false} CleanupKeepsTheRecentlyUsed(c: Config, states: seq<State>, ops: seq<Op>, k: nat, id: Id)
    returns (p: nat)
    requires IsRun(c, states, ops) && k < |ops| && ops[k].Cleanup? && id in states[k].table
    ensures p < k && LatestUse(c, states, ops, k, id, p) && ops[p].client == states[k].table[id].client
    ensures id in states[k + 1].table <==> ops[p].now > ops[k].now - ops[k].maxIdleSecs * MICROS_PER_SECOND
    ensures id in states[k + 1].table ==> states[k + 1].table[id] == states[k].table[id]
    ensures forall other :: other in states[k + 1].table ==> other in states[k].table
  {
    p := LatestUseOf(c, states, ops, k, id);
    SessionLivesIff(c, states, ops, k, id, p);
    assert Steps(c, states[k], ops[k], states[k + 1]);
    OthersKeep(c, states[k], ops[k], id);
    forall other | other in states[k + 1].table ensures other in states[k].table {
      OthersKeep(c, states[k], ops[k], other);
    }
  }

  // ----- How often -----

  /** The accepted admissions for this session among steps `i` to `k`. */
  function UseCount(c: Config, states: seq<State>, ops: seq<Op>, i: nat, k: nat, id: Id): nat
    requires i <= k <= |ops| < |states|
    decreases k
  {
    if k == i then 0
    else UseCount(c, states, ops, i, k - 1, id) + if Uses(c, states[k - 1], ops[k - 1], id) then 1 else 0
  }

  /** Step `o` opened the session that is there at step `k`. */
  ghost predicate OpenedAt(c: Config, states: seq<State>, ops: seq<Op>, k: nat, id: Id, o: nat)
    requires o < k <= |ops| && |states| == |ops| + 1
  {
    Uses(c, states[o], ops[o], id) && id !in states[o].table && forall q :: o < q <= k ==> id in states[q].table
  }

  /** Over every run, a session dates from the admission that opened it and counts a
      turn for each accepted one since, up to the width of the counter. */
  lemma {:induction false} TurnsAreUses(c: Config, states: seq<State>, ops: seq<Op>, k: nat, id: Id) returns (o: nat)
    requires IsRun(c, states, ops) && k < |states| && id in states[k].table
    ensures o < k && OpenedAt(c, states, ops, k, id, o) && states[k].table[id].createdAt == ops[o].now
    ensures
      var uses := UseCount(c, states, ops, o, k, id);
      states[k].table[id].turns == if uses < U32_MAX then uses else U32_MAX
    decreases k
  {
    var s, op := states[k - 1], ops[k - 1];
    assert Steps(c, s, op, states[k]);
    if Uses(c, s, op, id) {
      UseRefreshes(c, s, op, id);
    } else {
      OthersKeep(c, s, op, id);
    }
    if id in s.table {
      o := TurnsAreUses(c, states, ops, k - 1, id);
    } else {
      o := k - 1;
      assert UseCount(c, states, ops, k - 1, k - 1, id) == 0;
    }
  }

  // ----- Who is admitted -----

  /** Over every run, an admission is refused exactly when every slot is leased, the
      session named belongs to another client, or a new session would pass one of
      the two ceilings; the refusal says which, and changes nothing. */
  lemma {:induction false} RefusedIff(c: Config, states: seq<State>, ops: seq<Op>, k: nat)
    requires IsRun(c, states, ops) && k < |ops| && ops[k].Admit?
    ensures
      var s, op := states[k], ops[k];
      var r := AfterAdmit(c, s, op.client, op.named, op.generated, op.now).1;
      var known := SessionOf(op) in s.table;
      var full := |s.leases| == c.maxConcurrent || (!known && |s.table| == c.maxSessions);
      && (r == Refused(Overloaded) <==> full)
      && (r == Refused(NotOwner) <==> !full && known && s.table[SessionOf(op)].client != op.client)
      && (r == Refused(TooManyForClient) <==> !full && !known && |SessionsOf(s.table, op.client)| == c.maxPerClient)
      && (r.Refused? ==> !r.why.Ok? && states[k + 1] == s)
      && (r.Admitted? ==> r.lease !in s.leases && r.lease in states[k + 1].leases)
  {
    RunKeepsInv(c, states, ops, k);
    assert Steps(c, states[k], ops[k], states[k + 1]);
    assert |SessionsOf(states[k].table, ops[k].client)| <= c.maxPerClient;
  }

  // ----- Where a lease comes from -----

  /** Step `i` gave this lease, for the session of its request. */
  ghost predicate GivenAt(c: Config, states: seq<State>, ops: seq<Op>, lease: nat, l: Lease, i: nat)
    requires i < |ops| < |states|
  {
    && ops[i].Admit?
    && AfterAdmit(c, states[i], ops[i].client, ops[i].named, ops[i].generated, ops[i].now).1 == Admitted(lease)
    && l == Lease(SessionOf(ops[i]), ops[i].named.None? && c.zeroOnEnd)
  }

  lemma {:induction false} LeaseIsNew(c: Config, s: State, op: Op, lease: nat)
    requires lease !in s.leases && lease in After(c, s, op).leases
    ensures op.Admit?
    ensures AfterAdmit(c, s, op.client, op.named, op.generated, op.now).1 == Admitted(lease)
    ensures After(c, s, op).leases[lease] == Lease(SessionOf(op), op.named.None? && c.zeroOnEnd)
  {
  }

  lemma {:induction false} LeaseIsKept(c: Config, s: State, op: Op, lease: nat)
    requires lease in s.leases && lease in After(c, s, op).leases && lease < s.nextLease
    ensures After(c, s, op).leases[lease] == s.leases[lease]
  {
  }

  /** A lease held was given by an accepted admission, for its session, and ends the
      session on its drop exactly when the request named none and zero-on-end is
      set. */
  lemma {:induction false} LeaseComesFrom(c: Config, states: seq<State>, ops: seq<Op>, k: nat, lease: nat) returns (i: nat)
    requires IsRun(c, states, ops) && k < |states| && lease in states[k].leases
    ensures i < k && GivenAt(c, states, ops, lease, states[k].leases[lease], i)
    decreases k
  {
    assert Steps(c, states[k - 1], ops[k - 1], states[k]);
    RunKeepsInv(c, states, ops, k - 1);
    if lease in states[k - 1].leases {
      LeaseIsKept(c, states[k - 1], ops[k - 1], lease);
      i := LeaseComesFrom(c, states, ops, k - 1, lease);
    } else {
      LeaseIsNew(c, states[k - 1], ops[k - 1], lease);
      i := k - 1;
    }
  }
}
