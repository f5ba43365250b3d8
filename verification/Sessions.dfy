/** Admission: concurrency slots, the session table and the leases that tie one
    to the other. Each public operation is one atomic step. */
module Sessions {
  import opened Prelude

  type Id = nat

  datatype Session = Session(client: string, createdAt: int, lastActive: int, turns: nat)

  datatype Lease = Lease(session: Id, endOnDrop: bool)

  datatype Config = Config(maxConcurrent: nat, maxSessions: nat, maxPerClient: nat, zeroOnEnd: bool)

  type Table = map<Id, Session>

  datatype Opened = Ok(id: Id) | Overloaded | TooManyForClient | NotOwner

  datatype Admitted = Admitted(lease: nat) | Refused(why: Opened)

  datatype State = State(table: Table, free: nat, leases: map<nat, Lease>, nextLease: nat)


  // ----- The session table -----

  function SessionsOf(t: Table, client: string): set<Id> {
    set id | id in t && t[id].client == client
  }

  function Insert(c: Config, t: Table, id: Id, client: string, now: int): (Table, Opened) {
    if |t| >= c.maxSessions then (t, Overloaded)
    else if |SessionsOf(t, client)| >= c.maxPerClient then (t, TooManyForClient)
    else (t[id := Session(client, now, now, 1)], Ok(id))
  }

  /** Open a new session or resume one the client owns. `generated` is the
      identifier drawn for an unnamed request. */
  function OpenSession(c: Config, t: Table, client: string, named: Option<Id>, generated: Id, now: int): (Table, Opened) {
    match named
    case None => Insert(c, t, generated, client, now)
    case Some(id) =>
      if id !in t then Insert(c, t, id, client, now)
      else if t[id].client != client then (t, NotOwner)
      else
        var s := t[id];
        (t[id := s.(lastActive := now, turns := if s.turns < U32_MAX then s.turns + 1 else s.turns)], Ok(id))
  }

  function Ended(t: Table, id: Id): Table {
    map k | k in t && k != id :: t[k]
  }

  function Unexpired(t: Table, now: int, maxIdleSecs: int): Table {
    map k | k in t && t[k].lastActive > now - maxIdleSecs * MICROS_PER_SECOND :: t[k]
  }

  // ----- Steps -----

  datatype Op =
    | Admit(client: string, named: Option<Id>, generated: Id, now: int)
    | Drop(lease: nat)
    | End(session: Id)
    | Cleanup(now: int, maxIdleSecs: int)

  /** A slot first, then the session; a refused session gives the slot back. */
  function AfterAdmit(c: Config, s: State, client: string, named: Option<Id>, generated: Id, now: int): (State, Admitted) {
    if s.free == 0 then (s, Refused(Overloaded))
    else
      var (t, got) := OpenSession(c, s.table, client, named, generated, now);
      if !got.Ok? then (s, Refused(got))
      else
        var lease := Lease(got.id, named.None? && c.zeroOnEnd);
        (State(t, s.free - 1, s.leases[s.nextLease := lease], s.nextLease + 1), Admitted(s.nextLease))
  }

  function AfterDrop(s: State, lease: nat): State {
    if lease !in s.leases then s
    else
      var l := s.leases[lease];
      s.(table := if l.endOnDrop then Ended(s.table, l.session) else s.table,
         free := s.free + 1,
         leases := Without(s.leases, lease))
  }

  function Without(m: map<nat, Lease>, lease: nat): map<nat, Lease> {
    map k | k in m && k != lease :: m[k]
  }

  function After(c: Config, s: State, op: Op): State {
    match op
    case Admit(client, named, generated, now) => AfterAdmit(c, s, client, named, generated, now).0
    case Drop(lease) => AfterDrop(s, lease)
    case End(id) => s.(table := Ended(s.table, id))
    case Cleanup(now, maxIdleSecs) => s.(table := Unexpired(s.table, now, maxIdleSecs))
  }

  class InferenceEngine {
    const c: Config
    var table: Table
    var free: nat
    var leases: map<nat, Lease>
    var nextLease: nat

    ghost function View(): State
      reads this
    {
      State(table, free, leases, nextLease)
    }

    constructor (maxConcurrent: nat, maxSessions: nat, maxPerClient: nat, zeroOnEnd: bool)
      ensures c == Config(if maxConcurrent == 0 then 1 else maxConcurrent, maxSessions,
                          if maxPerClient == 0 then 1 else maxPerClient, zeroOnEnd)
      ensures View() == Start(c)
    {
      c := Config(if maxConcurrent == 0 then 1 else maxConcurrent, maxSessions,
                  if maxPerClient == 0 then 1 else maxPerClient, zeroOnEnd);
      table, leases, nextLease := map[], map[], 0;
      free := if maxConcurrent == 0 then 1 else maxConcurrent;
    }

    method Admit(client: string, named: Option<Id>, generated: Id, now: int) returns (r: Admitted)
      modifies this
      ensures (View(), r) == AfterAdmit(c, old(View()), client, named, generated, now)
    {
      if free == 0 {
        return Refused(Overloaded);
      }
      free := free - 1;
      var got := Open(client, named, generated, now);
      if !got.Ok? {
        free := free + 1;
        return Refused(got);
      }
      leases := leases[nextLease := Lease(got.id, named.None? && c.zeroOnEnd)];
      nextLease := nextLease + 1;
      r := Admitted(nextLease - 1);
    }

    method Open(client: string, named: Option<Id>, generated: Id, now: int) returns (r: Opened)
      modifies this`table
      ensures (table, r) == OpenSession(c, old(table), client, named, generated, now)
    {
      if named.Some? && named.value in table {
        var s := table[named.value];
        if s.client != client {
          return NotOwner;
        }
        table := table[named.value := s.(lastActive := now, turns := if s.turns < U32_MAX then s.turns + 1 else s.turns)];
        return Ok(named.value);
      }
      var id := if named.Some? then named.value else generated;
      if |table| >= c.maxSessions {
        return Overloaded;
      }
      if |SessionsOf(table, client)| >= c.maxPerClient {
        return TooManyForClient;
      }
      table := table[id := Session(client, now, now, 1)];
      r := Ok(id);
    }

    method DropLease(lease: nat)
      modifies this
      ensures View() == AfterDrop(old(View()), lease)
    {
      if lease in leases {
        var l := leases[lease];
        if l.endOnDrop {
          EndSession(l.session);
        }
        leases := map k | k in leases && k != lease :: leases[k];
        free := free + 1;
      }
    }

    method EndSession(id: Id)
      modifies this`table
      ensures table == Ended(old(table), id)
    {
      table := map k | k in table && k != id :: table[k];
    }

    method CleanupExpired(now: int, maxIdleSecs: int) returns (removed: nat)
      modifies this`table
      ensures table == Unexpired(old(table), now, maxIdleSecs)
      ensures removed == |old(table)| - |table|
    {
      SubTableSize(Unexpired(table, now, maxIdleSecs), table);
      var kept := map k | k in table && table[k].lastActive > now - maxIdleSecs * MICROS_PER_SECOND :: table[k];
      removed := |table| - |kept|;
      table := kept;
    }
  }

  function Start(c: Config): State {
    State(map[], c.maxConcurrent, map[], 0)
  }

  // ----- Invariants -----

  ghost predicate ClientsWithin(c: Config, t: Table) {
    forall client :: |SessionsOf(t, client)| <= c.maxPerClient
  }

  ghost predicate Inv(c: Config, s: State) {
    && s.free + |s.leases| == c.maxConcurrent
    && |s.table| <= c.maxSessions
    && ClientsWithin(c, s.table)
    && forall k :: k in s.leases ==> k < s.nextLease
  }

  lemma {:induction false} SubTableSize(a: Table, b: Table)
    requires a.Keys <= b.Keys
    ensures |a| <= |b|
  {
    SubsetSize(a.Keys, b.Keys);
    assert |a| == |a.Keys| && |b| == |b.Keys|;
  }

  lemma {:induction false} SubTableKeepsClients(c: Config, a: Table, b: Table)
    requires ClientsWithin(c, b) && a.Keys <= b.Keys && forall k :: k in a ==> a[k] == b[k]
    ensures ClientsWithin(c, a)
  {
    forall client ensures |SessionsOf(a, client)| <= c.maxPerClient {
      SubsetSize(SessionsOf(a, client), SessionsOf(b, client));
    }
  }

  lemma {:induction false} InsertGrows(t: Table, id: Id, s: Session)
    requires id !in t
    ensures |t[id := s]| == |t| + 1
  {
    assert t[id := s].Keys == t.Keys + {id};
    assert |t[id := s]| == |t[id := s].Keys| && |t| == |t.Keys|;
  }

  lemma {:induction false} InsertCounts(t: Table, id: Id, s: Session, client: string)
    requires id !in t
    ensures |SessionsOf(t[id := s], client)| == |SessionsOf(t, client)| + if s.client == client then 1 else 0
  {
    if s.client == client {
      assert SessionsOf(t[id := s], client) == SessionsOf(t, client) + {id};
    } else {
      assert SessionsOf(t[id := s], client) == SessionsOf(t, client);
    }
  }

  lemma {:induction false} InsertKeeps(c: Config, t: Table, id: Id, client: string, now: int)
    requires id !in t && |t| <= c.maxSessions && ClientsWithin(c, t)
    ensures |Insert(c, t, id, client, now).0| <= c.maxSessions && ClientsWithin(c, Insert(c, t, id, client, now).0)
  {
    var s := Session(client, now, now, 1);
    var next := t[id := s];
    InsertGrows(t, id, s);
    if Insert(c, t, id, client, now).1.Ok? {
      forall other ensures |SessionsOf(next, other)| <= c.maxPerClient {
        InsertCounts(t, id, s, other);
      }
    }
  }

  lemma {:induction false} ResumeKeeps(c: Config, t: Table, id: Id, s: Session)
    requires id in t && s.client == t[id].client && ClientsWithin(c, t)
    ensures |t[id := s]| == |t| && ClientsWithin(c, t[id := s])
  {
    var next := t[id := s];
    assert next.Keys == t.Keys;
    assert |next| == |next.Keys| && |t| == |t.Keys|;
    forall client ensures |SessionsOf(next, client)| <= c.maxPerClient {
      assert SessionsOf(next, client) == SessionsOf(t, client);
    }
  }

  /** Generated identifiers are not in use. */
  predicate Fresh(s: State, op: Op) {
    op.Admit? && op.named.None? ==> op.generated !in s.table
  }

  lemma {:induction false} AdmitKeeps(c: Config, s: State, client: string, named: Option<Id>, generated: Id, now: int)
    requires Inv(c, s) && Fresh(s, Admit(client, named, generated, now))
    ensures Inv(c, AfterAdmit(c, s, client, named, generated, now).0)
  {
    var (t, r) := OpenSession(c, s.table, client, named, generated, now);
    if named.Some? && named.value in s.table {
      if r.Ok? {
        ResumeKeeps(c, s.table, named.value, t[named.value]);
      }
    } else {
      InsertKeeps(c, s.table, if named.Some? then named.value else generated, client, now);
    }
    if s.free > 0 && r.Ok? {
      LeaseCount(s.leases, s.nextLease, Lease(r.id, named.None? && c.zeroOnEnd));
    }
  }

  lemma {:induction false} LeaseCount(m: map<nat, Lease>, k: nat, l: Lease)
    requires k !in m
    ensures |m[k := l]| == |m| + 1
  {
    assert m[k := l].Keys == m.Keys + {k};
    assert |m[k := l]| == |m[k := l].Keys| && |m| == |m.Keys|;
  }

  lemma {:induction false} LeaseRemoved(m: map<nat, Lease>, lease: nat)
    requires lease in m
    ensures |Without(m, lease)| == |m| - 1
  {
    var rest := Without(m, lease);
    assert rest.Keys == m.Keys - {lease};
    assert |rest| == |rest.Keys| && |m| == |m.Keys|;
  }

  lemma {:induction false} EndKeeps(c: Config, t: Table, id: Id)
    requires |t| <= c.maxSessions && ClientsWithin(c, t)
    ensures |Ended(t, id)| <= c.maxSessions && ClientsWithin(c, Ended(t, id))
  {
    SubTableSize(Ended(t, id), t);
    SubTableKeepsClients(c, Ended(t, id), t);
  }

  lemma {:induction false} DropKeeps(c: Config, s: State, lease: nat)
    requires Inv(c, s)
    ensures Inv(c, AfterDrop(s, lease))
  {
    if lease in s.leases {
      LeaseRemoved(s.leases, lease);
      EndKeeps(c, s.table, s.leases[lease].session);
    }
  }

  lemma {:induction false} StepKeeps(c: Config, s: State, op: Op)
    requires Inv(c, s) && Fresh(s, op)
    ensures Inv(c, After(c, s, op))
  {
    match op
    case Admit(client, named, generated, now) => AdmitKeeps(c, s, client, named, generated, now);
    case Drop(lease) => DropKeeps(c, s, lease);
    case End(id) => EndKeeps(c, s.table, id);
    case Cleanup(now, maxIdleSecs) =>
      SubTableSize(Unexpired(s.table, now, maxIdleSecs), s.table);
      SubTableKeepsClients(c, Unexpired(s.table, now, maxIdleSecs), s.table);
  }

  // ----- Every run -----

  ghost predicate Steps(c: Config, s: State, op: Op, next: State) {
    Fresh(s, op) && next == After(c, s, op)
  }

  ghost predicate IsRun(c: Config, states: seq<State>, ops: seq<Op>) {
    && |states| == |ops| + 1 && states[0] == Start(c)
    && forall k :: 0 <= k < |ops| ==> Steps(c, states[k], ops[k], states[k + 1])
  }

  /** Free slots and live leases always add up, and no ceiling is passed, over
      every interleaving, refused admissions included. */
  lemma {:induction false} RunKeepsInv(c: Config, states: seq<State>, ops: seq<Op>, k: nat)
    requires IsRun(c, states, ops) && k < |states|
    ensures Inv(c, states[k])
    decreases k
  {
    if k == 0 {
      forall client ensures |SessionsOf(map[], client)| <= c.maxPerClient {
        assert SessionsOf(map[], client) == {};
      }
    } else {
      RunKeepsInv(c, states, ops, k - 1);
      assert Steps(c, states[k - 1], ops[k - 1], states[k]);
      StepKeeps(c, states[k - 1], ops[k - 1]);
    }
  }

  /** A session keeps its owner for as long as it lives. */
  lemma {:induction false} OwnerIsFixed(c: Config, states: seq<State>, ops: seq<Op>, i: nat, j: nat, id: Id)
    requires IsRun(c, states, ops) && i <= j < |states|
    requires forall k :: i <= k <= j ==> id in states[k].table
    ensures states[j].table[id].client == states[i].table[id].client
    decreases j
  {
    if i < j {
      OwnerIsFixed(c, states, ops, i, j - 1, id);
      assert Steps(c, states[j - 1], ops[j - 1], states[j]);
      assert id in states[j - 1].table && id in states[j].table;
    }
  }

  /** Naming another client's session is refused and touches nothing. */
  lemma {:induction false} ForeignResumeIsInert(c: Config, s: State, client: string, id: Id, generated: Id, now: int)
    requires id in s.table && s.table[id].client != client
    ensures AfterAdmit(c, s, client, Some(id), generated, now).0 == s
    ensures AfterAdmit(c, s, client, Some(id), generated, now).1.Refused?
  {
  }

  predicate NotBy(op: Op, client: string) {
    op.Admit? ==> op.client != client
  }

  /** Over any run, as long as a session lives and its owner does nothing, no one
      changes it: not its turn count and not its idle clock. Every attempt to
      resume it meanwhile leaves the whole state as it was. */
  lemma {:induction false} OnlyItsOwnerTouchesASession(
      c: Config, states: seq<State>, ops: seq<Op>, i: nat, j: nat, id: Id)
    requires IsRun(c, states, ops) && i <= j < |states|
    requires forall k :: i <= k <= j ==> id in states[k].table
    requires forall k :: i <= k < j ==> NotBy(ops[k], states[i].table[id].client)
    ensures states[j].table[id] == states[i].table[id]
    ensures forall k :: i <= k < j && ops[k].Admit? && ops[k].named == Some(id) ==> states[k + 1] == states[k]
    decreases j
  {
    if i < j {
      OnlyItsOwnerTouchesASession(c, states, ops, i, j - 1, id);
      assert Steps(c, states[j - 1], ops[j - 1], states[j]);
      assert id in states[j - 1].table && id in states[j].table && NotBy(ops[j - 1], states[i].table[id].client);
      OthersLeaveIt(c, states[j - 1], ops[j - 1], id);
    }
  }

  lemma {:induction false} OthersLeaveIt(c: Config, s: State, op: Op, id: Id)
    requires id in s.table && Fresh(s, op) && NotBy(op, s.table[id].client)
    ensures id in After(c, s, op).table ==> After(c, s, op).table[id] == s.table[id]
    ensures op.Admit? && op.named == Some(id) ==> After(c, s, op) == s
  {
    if op.Admit? && op.named == Some(id) {
      ForeignResumeIsInert(c, s, op.client, id, op.generated, op.now);
    }
  }

  /** A lease never changes while it is held, and numbers are not reused. */
  lemma {:induction false} LeaseIsFixed(c: Config, states: seq<State>, ops: seq<Op>, i: nat, j: nat, lease: nat)
    requires IsRun(c, states, ops) && i <= j < |states| && lease < states[i].nextLease && lease in states[j].leases
    ensures lease in states[i].leases && states[j].leases[lease] == states[i].leases[lease]
    ensures lease < states[j].nextLease
    decreases j
  {
    if i < j {
      assert Steps(c, states[j - 1], ops[j - 1], states[j]);
      NextLeaseGrows(c, states, ops, i, j - 1);
      LeaseIsFixed(c, states, ops, i, j - 1, lease);
    }
  }

  lemma {:induction false} NextLeaseGrows(c: Config, states: seq<State>, ops: seq<Op>, i: nat, j: nat)
    requires IsRun(c, states, ops) && i <= j < |states|
    ensures states[i].nextLease <= states[j].nextLease
    decreases j
  {
    if i < j {
      NextLeaseGrows(c, states, ops, i, j - 1);
      assert Steps(c, states[j - 1], ops[j - 1], states[j]);
    }
  }

  /** With zero-on-end set, the session of an unnamed request is gone the moment
      its lease drops, however long it was held and whatever happened between. */
  lemma {:induction false} UnnamedSessionDiesWithItsLease(
      c: Config, states: seq<State>, ops: seq<Op>, i: nat, j: nat, lease: nat)
    requires IsRun(c, states, ops) && c.zeroOnEnd && i < j < |ops|
    requires ops[i].Admit? && ops[i].named.None?
    requires AfterAdmit(c, states[i], ops[i].client, None, ops[i].generated, ops[i].now).1 == Admitted(lease)
    requires ops[j] == Drop(lease) && lease in states[j].leases
    ensures ops[i].generated in states[i + 1].table
    ensures ops[i].generated !in states[j + 1].table
  {
    assert Steps(c, states[i], ops[i], states[i + 1]);
    LeaseIsFixed(c, states, ops, i + 1, j, lease);
    assert Steps(c, states[j], ops[j], states[j + 1]);
  }

  // ----- A lease that outlives its session -----

  /** Step `k` gives the identifier, free by then, to a session of another client,
      which lives until step `j`. */
  ghost predicate Retaken(states: seq<State>, ops: seq<Op>, k: nat, j: nat, id: Id, client: string)
    requires k < j <= |ops| && |states| == |ops| + 1
  {
    && ops[k].Admit? && ops[k].client != client && id !in states[k].table
    && forall q :: k < q <= j ==> id in states[q].table
  }

  /** A session enters the table as its opener's. */
  lemma {:induction false} OpenedByAdmit(c: Config, s: State, op: Op, id: Id)
    requires id !in s.table && id in After(c, s, op).table
    ensures op.Admit? && After(c, s, op).table[id].client == op.client
  {
  }

  lemma {:induction false} RetakenBy(c: Config, states: seq<State>, ops: seq<Op>, i: nat, j: nat, id: Id, client: string)
    returns (k: nat)
    requires IsRun(c, states, ops) && i <= j < |states|
    requires id in states[i].table && states[i].table[id].client == client
    requires id in states[j].table && states[j].table[id].client != client
    ensures i <= k < j && Retaken(states, ops, k, j, id, client)
    decreases j
  {
    assert Steps(c, states[j - 1], ops[j - 1], states[j]);
    if id in states[j - 1].table {
      k := RetakenBy(c, states, ops, i, j - 1, id, client);
    } else {
      OpenedByAdmit(c, states[j - 1], ops[j - 1], id);
      k := j - 1;
    }
  }

  lemma {:induction false} RetakenIsForeign(
      c: Config, states: seq<State>, ops: seq<Op>, k: nat, j: nat, id: Id, client: string)
    requires IsRun(c, states, ops) && k < j < |states| && Retaken(states, ops, k, j, id, client)
    ensures id in states[j].table && states[j].table[id].client != client
  {
    assert Steps(c, states[k], ops[k], states[k + 1]);
    OpenedByAdmit(c, states[k], ops[k], id);
    OwnerIsFixed(c, states, ops, k + 1, j, id);
  }

  /** Over every run, dropping the lease of an unnamed request ends a session of
      another client exactly when zero-on-end is set and, since the lease was
      taken, its own session went away and another client took the identifier. */
  lemma {:induction false} DropEndsForeignSessionIff(
      c: Config, states: seq<State>, ops: seq<Op>, i: nat, j: nat, lease: nat)
    requires IsRun(c, states, ops) && i < j < |ops| && ops[i].Admit? && ops[i].named.None?
    requires AfterAdmit(c, states[i], ops[i].client, None, ops[i].generated, ops[i].now).1 == Admitted(lease)
    requires ops[j] == Drop(lease) && lease in states[j].leases
    ensures
      var id, client := ops[i].generated, ops[i].client;
      (id in states[j].table && states[j].table[id].client != client && id !in states[j + 1].table)
      <==> c.zeroOnEnd && exists k: nat :: i < k < j && Retaken(states, ops, k, j, id, client)
  {
    var id, client := ops[i].generated, ops[i].client;
    assert Steps(c, states[i], ops[i], states[i + 1]);
    LeaseIsFixed(c, states, ops, i + 1, j, lease);
    assert Steps(c, states[j], ops[j], states[j + 1]);
    if id in states[j].table && states[j].table[id].client != client {
      var k := RetakenBy(c, states, ops, i + 1, j, id, client);
    }
    if k: nat :| i < k < j && Retaken(states, ops, k, j, id, client) {
      RetakenIsForeign(c, states, ops, k, j, id, client);
    }
  }

  /** It happens: an idle cleanup removes the session of a request still running,
      another client names its identifier, and the request ends. */
  lemma {:induction false} DropEndsForeignSession(c: Config, a: string, b: string)
    returns (states: seq<State>, ops: seq<Op>)
    requires a != b && c.zeroOnEnd && c.maxConcurrent >= 2 && c.maxSessions >= 1 && c.maxPerClient >= 1
    ensures IsRun(c, states, ops) && |ops| == 4 && ops[3] == Drop(0)
    ensures 0 in states[3].table && states[3].table[0].client == b && 0 !in states[4].table
  {
    ops := [Admit(a, None, 0, 0), Cleanup(0, 0), Admit(b, Some(0), 0, 0), Drop(0)];
    var s0 := Start(c);
    var s1 := State(map[0 := Session(a, 0, 0, 1)], c.maxConcurrent - 1, map[0 := Lease(0, true)], 1);
    var s2 := s1.(table := map[]);
    var s3 := State(map[0 := Session(b, 0, 0, 1)], c.maxConcurrent - 2, map[0 := Lease(0, true), 1 := Lease(0, false)], 2);
    var s4 := After(c, s3, ops[3]);
    states := [s0, s1, s2, s3, s4];
    assert SessionsOf(map[], a) == {} && SessionsOf(map[], b) == {};
    assert Steps(c, s0, ops[0], s1);
    assert Steps(c, s1, ops[1], s2);
    assert Steps(c, s2, ops[2], s3);
    assert Steps(c, s3, ops[3], s4);
  }
}
