/** `df.start()` against concurrent transactions: admission under a per-user lock
    (src/dsl.rs:1055-1171), reservation in an independent ledger transaction, the local claim
    in the caller's transaction, and the joint commit of ledger and queue
    (src/client.rs:327-453, src/dsl.rs:1516-1606, src/dsl.rs:953-967), as a transition system
    over any number of backends and any interleaving. */
module Submission {
  import opened Prelude

  type User = nat
  type Session = nat

  /** A local instance identifier under its origin; `EngineIds` proves the encoding injective. */
  datatype EngineId = EngineId(db: nat, local: string)

  const MAX_ID_ATTEMPTS: nat := 10

  /** Zero means unlimited. Superusers are not subject to admission control. */
  datatype Config = Config(maxConcurrent: nat, maxInstances: nat, superusers: set<User>)

  predicate Limited(cfg: Config, u: User) {
    u !in cfg.superusers && (cfg.maxConcurrent > 0 || cfg.maxInstances > 0)
  }

  datatype Engine = Queued | Live | Terminal

  /** A row of the protected ledger, with the start that wrote it. */
  datatype Entry = Entry(user: User, start: nat)

  /** Where a backend is inside `df.start()`. */
  datatype Pc =
    | Out
    | Waiting(u: User, start: nat)                                    // for the admission lock
    | Locked(u: User, start: nat)
    | Listed(u: User, start: nat, ids: set<EngineId>)                 // local identifiers read
    | Picking(u: User, start: nat, attempts: nat)                     // admitted
    | Reserved(u: User, start: nat, attempts: nat, c: EngineId)       // ledger row inserted, not committed
    | Claimed(u: User, start: nat, c: EngineId)                       // local row inserted as well
    | Broken                                                          // an error aborts the caller's transaction

  /** A backend with its open transaction: locks and local rows that are not committed yet. */
  datatype Backend = Backend(db: nat, locks: set<User>, claimed: map<EngineId, User>, pc: Pc)

  datatype Outcome = Returned(id: EngineId) | Failed | FailedUnacknowledged(id: EngineId)

  datatype Enqueued = Enqueued(id: EngineId, start: nat)

  /** `visible`, `ledger` and `engine` are committed; the last four fields are history. */
  datatype State = State(
    backends: map<Session, Backend>,
    visible: map<EngineId, User>,
    ledger: map<EngineId, Entry>,
    engine: map<EngineId, Engine>,
    enqueued: seq<Enqueued>,
    reconciled: set<EngineId>,
    outcomes: map<nat, Outcome>,
    nextStart: nat)

  datatype Action =
    | Begin(x: Session, u: User)
    | Acquire(x: Session)
    | List(x: Session)
    | Count(x: Session)
    | Reserve(x: Session, c: EngineId)
    | Claim(x: Session)
    | Commit(x: Session)                // ledger and queue commit, acknowledged
    | CommitLost(x: Session)            // they commit, but the acknowledgement is lost
    | Fail(x: Session)                  // any error; a dropped reservation rolls back
    | Publish(x: Session)               // the caller's commit makes its rows visible
    | Discard(x: Session)               // the caller's rollback
    | Release(x: Session)               // transaction end releases the admission locks
    | Progress(id: EngineId)            // engine: queued, then live, then terminal
    | Forget(id: EngineId)              // engine drops a terminal entry
    | DropRow(id: EngineId)             // reconciliation removes a local row
    | DropLedger(id: EngineId)          // reconciliation removes a ledger row

  // ----- counting -----

  function LedgerIds(s: State, db: nat, u: User): set<EngineId> {
    set id | id in s.ledger && id.db == db && s.ledger[id].user == u
  }

  function VisibleIds(s: State, db: nat, u: User): set<EngineId> {
    set id | id in s.visible && id.db == db && s.visible[id] == u
  }

  function OwnIds(b: Backend, u: User): set<EngineId> {
    set id | id in b.claimed && b.claimed[id] == u
  }

  function PendingIds(s: State, db: nat, u: User): set<EngineId> {
    set x, id | x in s.backends && s.backends[x].db == db && id in OwnIds(s.backends[x], u) :: id
  }

  /** Local rows, committed or not, together with ledger rows. */
  function Retained(s: State, db: nat, u: User): set<EngineId> {
    LedgerIds(s, db, u) + VisibleIds(s, db, u) + PendingIds(s, db, u)
  }

  predicate InFlight(s: State, id: EngineId) { id in s.engine && s.engine[id] != Terminal }

  function Active(s: State, ids: set<EngineId>): (r: set<EngineId>)
    ensures r <= ids
  {
    set id | id in ids && InFlight(s, id)
  }

  /** `enforce_instance_limits` on the counts of `submission_counts`: room for one more. */
  predicate WithinLimits(cfg: Config, s: State, requested: set<EngineId>) {
    && !(cfg.maxInstances > 0 && |requested| >= cfg.maxInstances)
    && !(cfg.maxConcurrent > 0 && |Active(s, requested)| >= cfg.maxConcurrent)
  }

  // ----- steps -----

  predicate Holds(s: State, x: Session, u: User) {
    x in s.backends && u in s.backends[x].locks
  }

  /** The candidate a backend holds in its open ledger transaction. */
  function Held(pc: Pc): Option<EngineId> {
    match pc
    case Reserved(_, _, _, c) => Some(c)
    case Claimed(_, _, c) => Some(c)
    case _ => None
  }

  function StartOf(pc: Pc): Option<nat> {
    if pc.Out? || pc.Broken? then None else Some(pc.start)
  }

  function UserOf(pc: Pc): Option<User> {
    if pc.Out? || pc.Broken? then None else Some(pc.u)
  }

  /** No other backend of the same database holds the user's admission lock. */
  predicate LockFree(s: State, x: Session, u: User)
    requires x in s.backends
  {
    forall y :: y in s.backends && y != x && s.backends[y].db == s.backends[x].db ==> u !in s.backends[y].locks
  }

  predicate ReservedElsewhere(s: State, x: Session, c: EngineId) {
    exists y :: y in s.backends && y != x && Held(s.backends[y].pc) == Some(c)
  }

  predicate ClaimedElsewhere(s: State, x: Session, c: EngineId) {
    exists y :: y in s.backends && y != x && c in s.backends[y].claimed
  }

  /** A step that would wait, or does not apply here, is disabled. */
  predicate Enabled(s: State, a: Action) {
    match a
    case Begin(x, _) => x in s.backends && s.backends[x].pc.Out?
    case Acquire(x) => x in s.backends && s.backends[x].pc.Waiting? && LockFree(s, x, s.backends[x].pc.u)
    case List(x) => x in s.backends && s.backends[x].pc.Locked?
    case Count(x) => x in s.backends && s.backends[x].pc.Listed?
    case Reserve(x, c) => x in s.backends && s.backends[x].pc.Picking? && s.backends[x].pc.attempts < MAX_ID_ATTEMPTS &&
      c.db == s.backends[x].db && !ReservedElsewhere(s, x, c)
    case Claim(x) => x in s.backends && s.backends[x].pc.Reserved? && !ClaimedElsewhere(s, x, s.backends[x].pc.c)
    case Commit(x) => x in s.backends && s.backends[x].pc.Claimed?
    case CommitLost(x) => x in s.backends && s.backends[x].pc.Claimed?
    case Fail(x) => x in s.backends && !s.backends[x].pc.Out? && !s.backends[x].pc.Broken?
    case Publish(x) => x in s.backends && s.backends[x].pc.Out?
    case Discard(x) => x in s.backends && (s.backends[x].pc.Out? || s.backends[x].pc.Broken?)
    case Release(x) => x in s.backends && s.backends[x].pc.Out? && s.backends[x].claimed == map[]
    case Progress(id) => InFlight(s, id)
    case Forget(id) => id in s.engine && s.engine[id] == Terminal
    case DropRow(id) => true
    case DropLedger(id) => id in s.ledger
  }

  function With(s: State, x: Session, b: Backend): State { s.(backends := s.backends[x := b]) }

  /** The joint commit of the ledger row and the queue entry. */
  function Enqueue(s: State, c: EngineId, u: User, start: nat): State {
    s.(ledger := s.ledger[c := Entry(u, start)],
       engine := s.engine[c := if c in s.engine then s.engine[c] else Queued],
       enqueued := s.enqueued + [Enqueued(c, start)])
  }

  function Do(cfg: Config, s: State, a: Action): State
    requires Enabled(s, a)
  {
    match a
    case Begin(x, u) =>
      var pc := if Limited(cfg, u) then Waiting(u, s.nextStart) else Picking(u, s.nextStart, 0);
      With(s, x, s.backends[x].(pc := pc)).(nextStart := s.nextStart + 1)
    case Acquire(x) =>
      var b := s.backends[x];
      With(s, x, b.(locks := b.locks + {b.pc.u}, pc := Locked(b.pc.u, b.pc.start)))
    case List(x) =>
      var b := s.backends[x];
      With(s, x, b.(pc := Listed(b.pc.u, b.pc.start, VisibleIds(s, b.db, b.pc.u) + OwnIds(b, b.pc.u))))
    case Count(x) =>
      var b := s.backends[x];
      if WithinLimits(cfg, s, b.pc.ids + LedgerIds(s, b.db, b.pc.u))
        then With(s, x, b.(pc := Picking(b.pc.u, b.pc.start, 0)))
      else With(s, x, b.(pc := Broken)).(outcomes := s.outcomes[b.pc.start := Failed])
    case Reserve(x, c) =>
      var b := s.backends[x];
      With(s, x, b.(pc := if c in s.ledger then Picking(b.pc.u, b.pc.start, b.pc.attempts + 1)
                          else Reserved(b.pc.u, b.pc.start, b.pc.attempts, c)))
    case Claim(x) =>
      var b := s.backends[x];
      if b.pc.c in s.visible || b.pc.c in b.claimed
        then With(s, x, b.(pc := Picking(b.pc.u, b.pc.start, b.pc.attempts + 1)))
      else With(s, x, b.(claimed := b.claimed[b.pc.c := b.pc.u], pc := Claimed(b.pc.u, b.pc.start, b.pc.c)))
    case Commit(x) =>
      var b := s.backends[x];
      With(Enqueue(s, b.pc.c, b.pc.u, b.pc.start), x, b.(pc := Out))
        .(outcomes := s.outcomes[b.pc.start := Returned(b.pc.c)])
    case CommitLost(x) =>
      var b := s.backends[x];
      With(Enqueue(s, b.pc.c, b.pc.u, b.pc.start), x, b.(pc := Broken))
        .(outcomes := s.outcomes[b.pc.start := FailedUnacknowledged(b.pc.c)])
    case Fail(x) =>
      var b := s.backends[x];
      With(s, x, b.(pc := Broken)).(outcomes := s.outcomes[b.pc.start := Failed])
    case Publish(x) =>
      var b := s.backends[x];
      With(s, x, b.(claimed := map[])).(visible := s.visible + b.claimed)
    case Discard(x) => With(s, x, s.backends[x].(claimed := map[], pc := Out))
    case Release(x) => With(s, x, s.backends[x].(locks := {}))
    case Progress(id) => s.(engine := s.engine[id := if s.engine[id] == Queued then Live else Terminal])
    case Forget(id) => s.(engine := s.engine - {id})
    case DropRow(id) => s.(visible := s.visible - {id})
    case DropLedger(id) => s.(ledger := s.ledger - {id}, reconciled := s.reconciled + {id})
  }

  function Step(cfg: Config, s: State, a: Action): State {
    if Enabled(s, a) then Do(cfg, s, a) else s
  }

  /** The state after any schedule of steps. */
  function Run(cfg: Config, s: State, acts: seq<Action>): State {
    if acts == [] then s else Step(cfg, Run(cfg, s, acts[..|acts| - 1]), acts[|acts| - 1])
  }

  predicate Initial(s: State) {
    && (forall x :: x in s.backends ==>
      s.backends[x].pc == Out && s.backends[x].locks == {} && s.backends[x].claimed == map[])
    && s.visible == map[] && s.ledger == map[] && s.engine == map[]
    && s.enqueued == [] && s.reconciled == {} && s.outcomes == map[] && s.nextStart == 0
  }

  // ----- what every step keeps: identifiers and locks -----

  ghost predicate LocksExclusive(s: State) {
    forall x, y, u :: Holds(s, x, u) && Holds(s, y, u) && s.backends[x].db == s.backends[y].db ==> x == y
  }

  predicate Admitting(pc: Pc) { pc.Locked? || pc.Listed? || pc.Picking? || pc.Reserved? || pc.Claimed? }

  /** Past admission, and while it has uncommitted rows, a backend holds the user's lock. */
  predicate LockDiscipline(cfg: Config, b: Backend) {
    && (Admitting(b.pc) && Limited(cfg, b.pc.u) ==> b.pc.u in b.locks)
    && (forall id :: id in b.claimed && Limited(cfg, b.claimed[id]) ==> b.claimed[id] in b.locks)
  }

  predicate BackendIds(s: State, b: Backend) {
    && (forall id :: id in b.claimed ==> id.db == b.db && id !in s.visible)
    && (Held(b.pc).Some? ==> Held(b.pc).value !in s.ledger && Held(b.pc).value.db == b.db)
    && (b.pc.Claimed? ==> b.pc.c in b.claimed && b.claimed[b.pc.c] == b.pc.u)
  }

  predicate SameHeld(pc: Pc, pc': Pc) { Held(pc).Some? && Held(pc) == Held(pc') }

  ghost predicate IdsExclusive(s: State) {
    && (forall x, y, id ::
          x in s.backends && y in s.backends && id in s.backends[x].claimed && id in s.backends[y].claimed ==> x == y)
    && (forall x, y :: x in s.backends && y in s.backends && SameHeld(s.backends[x].pc, s.backends[y].pc) ==> x == y)
  }

  ghost predicate IdsOk(cfg: Config, s: State) {
    && LocksExclusive(s) && IdsExclusive(s)
    && (forall x :: x in s.backends ==> LockDiscipline(cfg, s.backends[x]) && BackendIds(s, s.backends[x]))
  }

  /** A step of one backend keeps the invariant if what it newly holds is held by no other. */
  lemma IdsKeptByBackend(cfg: Config, s: State, s': State, x: Session)
    requires IdsOk(cfg, s) && x in s.backends && x in s'.backends
    requires s'.backends == s.backends[x := s'.backends[x]]
    requires forall id :: id in s'.visible ==> id in s.visible || id in s.backends[x].claimed
    requires forall id :: id in s'.ledger ==> id in s.ledger || Held(s.backends[x].pc) == Some(id)
    requires LockDiscipline(cfg, s'.backends[x]) && BackendIds(s', s'.backends[x])
    requires s'.backends[x].db == s.backends[x].db
    requires forall u :: u in s'.backends[x].locks && u !in s.backends[x].locks ==> LockFree(s, x, u)
    requires forall id :: id in s'.backends[x].claimed && id !in s.backends[x].claimed ==> !ClaimedElsewhere(s, x, id)
    requires match Held(s'.backends[x].pc) case None => true
             case Some(c) => Held(s.backends[x].pc) == Some(c) || !ReservedElsewhere(s, x, c)
    ensures IdsOk(cfg, s')
  {
    forall y | y in s'.backends ensures LockDiscipline(cfg, s'.backends[y]) && BackendIds(s', s'.backends[y]) {
      if y != x {
        assert s'.backends[y] == s.backends[y];
        assert !SameHeld(s.backends[x].pc, s.backends[y].pc);
      }
    }
    LocksKeptByBackend(s, s', x);
    ExclusiveKeptByBackend(s, s', x);
  }

  lemma LocksKeptByBackend(s: State, s': State, x: Session)
    requires LocksExclusive(s) && x in s.backends && x in s'.backends
    requires s'.backends == s.backends[x := s'.backends[x]] && s'.backends[x].db == s.backends[x].db
    requires forall u :: u in s'.backends[x].locks && u !in s.backends[x].locks ==> LockFree(s, x, u)
    ensures LocksExclusive(s')
  {
    forall y, z, u | Holds(s', y, u) && Holds(s', z, u) && s'.backends[y].db == s'.backends[z].db ensures y == z {
      assert y != x ==> Holds(s, y, u);
      assert z != x ==> Holds(s, z, u);
      assert u in s.backends[x].locks ==> Holds(s, x, u);
    }
  }

  lemma ExclusiveKeptByBackend(s: State, s': State, x: Session)
    requires IdsExclusive(s) && x in s.backends && x in s'.backends
    requires s'.backends == s.backends[x := s'.backends[x]]
    requires forall id :: id in s'.backends[x].claimed && id !in s.backends[x].claimed ==> !ClaimedElsewhere(s, x, id)
    requires match Held(s'.backends[x].pc) case None => true
             case Some(c) => Held(s.backends[x].pc) == Some(c) || !ReservedElsewhere(s, x, c)
    ensures IdsExclusive(s')
  {
    forall y | y in s.backends && y != x ensures !SameHeld(s'.backends[x].pc, s.backends[y].pc) {
      assert !SameHeld(s.backends[x].pc, s.backends[y].pc);
    }
  }

  /** So does a step of the engine or of reconciliation. */
  lemma IdsKeptByEnvironment(cfg: Config, s: State, s': State)
    requires IdsOk(cfg, s) && s'.backends == s.backends
    requires s'.visible.Keys <= s.visible.Keys && s'.ledger.Keys <= s.ledger.Keys
    ensures IdsOk(cfg, s')
  {
    forall x, y, u | Holds(s', x, u) && Holds(s', y, u) && s'.backends[x].db == s'.backends[y].db ensures x == y {
      assert Holds(s, x, u) && Holds(s, y, u);
    }
    forall y | y in s'.backends ensures LockDiscipline(cfg, s'.backends[y]) && BackendIds(s', s'.backends[y]) {
      assert BackendIds(s, s.backends[y]);
    }
  }

  /** The backend whose step an action is. */
  function Actor(a: Action): Option<Session> {
    match a
    case Progress(_) => None
    case Forget(_) => None
    case DropRow(_) => None
    case DropLedger(_) => None
    case _ => Some(a.x)
  }

  lemma IdsKeptByAdmission(cfg: Config, s: State, a: Action, x: Session)
    requires IdsOk(cfg, s) && Enabled(s, a) && Actor(a) == Some(x)
    requires a.Begin? || a.Acquire?
    ensures IdsOk(cfg, Do(cfg, s, a))
  {
    hide IdsOk, LockFree, ReservedElsewhere, Limited;
    IdsOfBackend(cfg, s, x);
    IdsKeptByBackend(cfg, s, Do(cfg, s, a), x);
  }

  lemma IdsKeptByCount(cfg: Config, s: State, a: Action, x: Session)
    requires IdsOk(cfg, s) && Enabled(s, a) && Actor(a) == Some(x)
    requires a.List? || a.Count?
    ensures IdsOk(cfg, Do(cfg, s, a))
  {
    hide IdsOk, LedgerIds, VisibleIds, OwnIds, WithinLimits, LockFree, ReservedElsewhere, ClaimedElsewhere, Limited;
    IdsOfBackend(cfg, s, x);
    CountFields(cfg, s, a, x);
    hide Do, Enabled;
    IdsKeptByBackend(cfg, s, Do(cfg, s, a), x);
  }

  lemma CountFields(cfg: Config, s: State, a: Action, x: Session)
    requires Enabled(s, a) && Actor(a) == Some(x) && (a.List? || a.Count?)
    requires LockDiscipline(cfg, s.backends[x])
    ensures var s' := Do(cfg, s, a);
            && x in s.backends && x in s'.backends && s'.visible == s.visible && s'.ledger == s.ledger
            && s'.backends == s.backends[x := s'.backends[x]] && LockDiscipline(cfg, s'.backends[x])
            && s'.backends[x] == s.backends[x].(pc := s'.backends[x].pc)
            && Held(s'.backends[x].pc) == None && !s'.backends[x].pc.Claimed?
  {
    hide LedgerIds, VisibleIds, OwnIds, WithinLimits, LockFree, ReservedElsewhere, ClaimedElsewhere, Limited;
  }

  lemma IdsKeptByReserve(cfg: Config, s: State, a: Action, x: Session)
    requires IdsOk(cfg, s) && Enabled(s, a) && Actor(a) == Some(x)
    requires a.Reserve?
    ensures IdsOk(cfg, Do(cfg, s, a))
  {
    hide IdsOk, LockFree, ReservedElsewhere, ClaimedElsewhere, Limited;
    IdsOfBackend(cfg, s, x);
    IdsKeptByBackend(cfg, s, Do(cfg, s, a), x);
  }

  lemma IdsKeptByClaim(cfg: Config, s: State, a: Action, x: Session)
    requires IdsOk(cfg, s) && Enabled(s, a) && a == Claim(x)
    ensures IdsOk(cfg, Do(cfg, s, a))
  {
    hide IdsOk, LockFree, ReservedElsewhere, ClaimedElsewhere, Limited, WithinLimits, LedgerIds, VisibleIds, OwnIds;
    IdsOfBackend(cfg, s, x);
    IdsKeptByBackend(cfg, s, Do(cfg, s, a), x);
  }

  lemma IdsKeptByCommit(cfg: Config, s: State, a: Action, x: Session)
    requires IdsOk(cfg, s) && Enabled(s, a) && Actor(a) == Some(x)
    requires a.Commit? || a.CommitLost? || a.Fail?
    ensures IdsOk(cfg, Do(cfg, s, a))
  {
    hide IdsOk, LockFree, ReservedElsewhere, ClaimedElsewhere, Limited;
    IdsOfBackend(cfg, s, x);
    IdsKeptByBackend(cfg, s, Do(cfg, s, a), x);
  }

  lemma IdsKeptByTransactionEnd(cfg: Config, s: State, a: Action, x: Session)
    requires IdsOk(cfg, s) && Enabled(s, a) && Actor(a) == Some(x)
    requires a.Publish? || a.Discard? || a.Release?
    ensures IdsOk(cfg, Do(cfg, s, a))
  {
    hide IdsOk, Limited;
    IdsOfBackend(cfg, s, x);
    IdsKeptByBackend(cfg, s, Do(cfg, s, a), x);
  }

  lemma EnvironmentOnlyShrinks(cfg: Config, s: State, a: Action)
    requires Enabled(s, a) && Actor(a) == None
    ensures var s' := Do(cfg, s, a);
            s'.backends == s.backends && s'.visible.Keys <= s.visible.Keys && s'.ledger.Keys <= s.ledger.Keys
  {
  }

  lemma IdsKept(cfg: Config, s: State, a: Action)
    requires IdsOk(cfg, s) && Enabled(s, a)
    ensures IdsOk(cfg, Do(cfg, s, a))
  {
    hide IdsOk, Do, Enabled;
    match Actor(a)
    case None => EnvironmentOnlyShrinks(cfg, s, a); IdsKeptByEnvironment(cfg, s, Do(cfg, s, a));
    case Some(x) =>
      if a.Begin? || a.Acquire? { IdsKeptByAdmission(cfg, s, a, x); }
      else if a.List? || a.Count? { IdsKeptByCount(cfg, s, a, x); }
      else if a.Reserve? { IdsKeptByReserve(cfg, s, a, x); }
      else if a.Claim? { IdsKeptByClaim(cfg, s, a, x); }
      else if a.Commit? || a.CommitLost? || a.Fail? { IdsKeptByCommit(cfg, s, a, x); }
      else { IdsKeptByTransactionEnd(cfg, s, a, x); }
  }

  lemma IdsOfBackend(cfg: Config, s: State, x: Session)
    requires IdsOk(cfg, s) && x in s.backends
    ensures LockDiscipline(cfg, s.backends[x]) && BackendIds(s, s.backends[x])
  {
  }
}
