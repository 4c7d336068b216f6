/** Admission control bounds every user's retained and active instances in every
    interleaving (src/dsl.rs:1130-1171, src/client.rs:185-273). */
module Quota {
  import opened Prelude
  import opened Submission

  predicate WithinQuota(cfg: Config, s: State, ids: set<EngineId>) {
    && (cfg.maxInstances > 0 ==> |ids| <= cfg.maxInstances)
    && (cfg.maxConcurrent > 0 ==> |Active(s, ids)| <= cfg.maxConcurrent)
  }

  /** What a backend has learned about its user's count, by its place in `df.start()`. */
  predicate Learned(cfg: Config, s: State, b: Backend) {
    match b.pc
    case Listed(u, _, ids) => VisibleIds(s, b.db, u) + OwnIds(b, u) <= ids
    case Picking(u, _, _) => WithinLimits(cfg, s, Retained(s, b.db, u))
    case Reserved(u, _, _, _) => WithinLimits(cfg, s, Retained(s, b.db, u))
    case Claimed(u, _, c) => WithinLimits(cfg, s, Retained(s, b.db, u) - {c})
    case _ => true
  }

  predicate LearnedIfLimited(cfg: Config, s: State, b: Backend) {
    UserOf(b.pc).Some? && Limited(cfg, UserOf(b.pc).value) ==> Learned(cfg, s, b)
  }

  ghost predicate QuotaOk(cfg: Config, s: State) {
    && (forall db, u :: Limited(cfg, u) ==> WithinQuota(cfg, s, Retained(s, db, u)))
    && (forall x :: x in s.backends ==> LearnedIfLimited(cfg, s, s.backends[x]))
  }

  // ----- counting lemmas -----

  lemma FewerWithinLimits(cfg: Config, s: State, s': State, ids: set<EngineId>, ids': set<EngineId>)
    requires ids' <= ids && forall id :: id in ids' && InFlight(s', id) ==> InFlight(s, id)
    ensures WithinLimits(cfg, s, ids) ==> WithinLimits(cfg, s', ids')
    ensures WithinQuota(cfg, s, ids) ==> WithinQuota(cfg, s', ids')
  {
    SubsetSize(ids', ids);
    SubsetSize(Active(s', ids'), Active(s, ids));
  }

  /** Room for one more means that one more fits. */
  lemma OneMoreFits(cfg: Config, s: State, s': State, ids: set<EngineId>, c: EngineId)
    requires WithinLimits(cfg, s, ids - {c})
    requires forall id :: id in ids && id != c && InFlight(s', id) ==> InFlight(s, id)
    ensures WithinQuota(cfg, s', ids)
  {
    SubsetSize(ids, (ids - {c}) + {c});
    SubsetSize(Active(s', ids), Active(s, ids - {c}) + {c});
  }

  // ----- which identifiers a step adds -----

  predicate ClaimedFor(s: State, x: Session, db: nat, u: User, id: EngineId) {
    x in s.backends && s.backends[x].db == db && id in s.backends[x].claimed && s.backends[x].claimed[id] == u
  }

  ghost predicate Pending(s: State, db: nat, u: User, id: EngineId) {
    exists x :: ClaimedFor(s, x, db, u, id)
  }

  lemma InRetained(s: State, db: nat, u: User, id: EngineId)
    ensures id in Retained(s, db, u) <==>
            || (id in s.ledger && id.db == db && s.ledger[id].user == u)
            || (id in s.visible && id.db == db && s.visible[id] == u)
            || Pending(s, db, u, id)
  {
    if x :| ClaimedFor(s, x, db, u, id) {
      assert id in OwnIds(s.backends[x], u);
    }
    if id in PendingIds(s, db, u) {
      var x :| x in s.backends && s.backends[x].db == db && id in OwnIds(s.backends[x], u);
      assert ClaimedFor(s, x, db, u, id);
    }
  }

  /** A step that adds no row, and starts nothing in the engine, keeps every bound. */
  lemma QuotaKeptByShrinking(cfg: Config, s: State, s': State)
    requires QuotaOk(cfg, s)
    requires forall db, u :: Retained(s', db, u) <= Retained(s, db, u)
    requires forall id :: InFlight(s', id) ==> InFlight(s, id)
    requires s'.backends.Keys == s.backends.Keys
    requires forall y :: y in s'.backends ==> LearnedIfLimited(cfg, s', s'.backends[y]) || Carried(s, s', y)
    ensures QuotaOk(cfg, s')
  {
    hide Retained, WithinLimits, WithinQuota, Limited, VisibleIds, OwnIds;
    forall db, u | Limited(cfg, u) ensures WithinQuota(cfg, s', Retained(s', db, u)) {
      FewerWithinLimits(cfg, s, s', Retained(s, db, u), Retained(s', db, u));
    }
    forall y | y in s'.backends && Carried(s, s', y) ensures LearnedIfLimited(cfg, s', s'.backends[y]) {
      var b := s.backends[y];
      if UserOf(b.pc).Some? {
        var R, R' := Retained(s, b.db, b.pc.u), Retained(s', b.db, b.pc.u);
        FewerWithinLimits(cfg, s, s', R, R');
        if b.pc.Claimed? { FewerWithinLimits(cfg, s, s', R - {b.pc.c}, R' - {b.pc.c}); }
        assert LearnedIfLimited(cfg, s, b);
      }
    }
  }

  /** A backend that stays where it was, and whose list of local rows is still complete. */
  predicate Carried(s: State, s': State, y: Session)
    requires y in s'.backends
  {
    && y in s.backends && s'.backends[y].pc == s.backends[y].pc && s'.backends[y].db == s.backends[y].db
    && (s.backends[y].pc.Listed? ==>
          var b, b' := s.backends[y], s'.backends[y];
          VisibleIds(s', b.db, b.pc.u) + OwnIds(b', b.pc.u) <= VisibleIds(s, b.db, b.pc.u) + OwnIds(b, b.pc.u))
  }

  predicate ClaimsOnlyDrop(b: Backend, b': Backend) {
    b'.db == b.db && forall id :: id in b'.claimed ==> id in b.claimed && b'.claimed[id] == b.claimed[id]
  }

  /** No ledger row is added, and visible rows come only from uncommitted ones. */
  ghost predicate RowsOnlyMove(s: State, s': State) {
    && (forall id :: id in s'.ledger ==> id in s.ledger && s'.ledger[id] == s.ledger[id])
    && (forall id :: id in s'.visible ==>
          || (id in s.visible && s'.visible[id] == s.visible[id])
          || (exists x :: ClaimedFor(s, x, id.db, s'.visible[id], id)))
    && (forall x :: x in s'.backends ==> x in s.backends && ClaimsOnlyDrop(s.backends[x], s'.backends[x]))
  }

  lemma RetainedShrinks(s: State, s': State)
    requires RowsOnlyMove(s, s')
    ensures forall db, u :: Retained(s', db, u) <= Retained(s, db, u)
  {
    forall db, u, id | id in Retained(s', db, u) ensures id in Retained(s, db, u) {
      InRetained(s', db, u, id);
      InRetained(s, db, u, id);
      if x :| ClaimedFor(s', x, db, u, id) { assert ClaimedFor(s, x, db, u, id); }
    }
  }

  /** A limited user's uncommitted rows all belong to the backend that holds the user's lock. */
  lemma PendingIsOwn(cfg: Config, s: State, x: Session, u: User)
    requires IdsOk(cfg, s) && Holds(s, x, u) && Limited(cfg, u)
    ensures PendingIds(s, s.backends[x].db, u) <= OwnIds(s.backends[x], u)
  {
    forall y, id | y in s.backends && s.backends[y].db == s.backends[x].db && id in OwnIds(s.backends[y], u)
      ensures y == x
    {
      assert LockDiscipline(cfg, s.backends[y]);
      assert Holds(s, y, u);
    }
  }

  /** Two backends of one database past admission for one limited user are the same. */
  lemma OneAdmitting(cfg: Config, s: State, x: Session, y: Session, u: User)
    requires IdsOk(cfg, s) && Limited(cfg, u)
    requires x in s.backends && y in s.backends && s.backends[x].db == s.backends[y].db
    requires Admitting(s.backends[x].pc) && s.backends[x].pc.u == u
    requires (Admitting(s.backends[y].pc) && s.backends[y].pc.u == u) || OwnIds(s.backends[y], u) != {}
    ensures x == y
  {
    assert LockDiscipline(cfg, s.backends[x]) && LockDiscipline(cfg, s.backends[y]);
    assert Holds(s, x, u);
    if OwnIds(s.backends[y], u) != {} {
      var id :| id in OwnIds(s.backends[y], u);
    }
    assert Holds(s, y, u);
  }

  // ----- steps that add nothing -----

  lemma QuotaKeptByEnvironment(cfg: Config, s: State, a: Action)
    requires QuotaOk(cfg, s) && Enabled(s, a) && Actor(a) == None
    ensures QuotaOk(cfg, Do(cfg, s, a))
  {
    hide QuotaOk;
    var s' := Do(cfg, s, a);
    assert RowsOnlyMove(s, s');
    RetainedShrinks(s, s');
    QuotaKeptByShrinking(cfg, s, s');
  }

  /** A step that moves one backend's program counter and touches no row. */
  lemma QuotaKeptByMove(cfg: Config, s: State, s': State, x: Session)
    requires QuotaOk(cfg, s) && x in s.backends && x in s'.backends
    requires s'.visible == s.visible && s'.ledger == s.ledger && s'.engine == s.engine
    requires s'.backends == s.backends[x := s'.backends[x]]
    requires s'.backends[x].db == s.backends[x].db && s'.backends[x].claimed == s.backends[x].claimed
    requires LearnedIfLimited(cfg, s', s'.backends[x])
    ensures QuotaOk(cfg, s')
  {
    hide QuotaOk, LearnedIfLimited;
    assert RowsOnlyMove(s, s');
    RetainedShrinks(s, s');
    forall y | y in s'.backends && y != x ensures Carried(s, s', y) {
      assert s'.backends[y] == s.backends[y];
    }
    QuotaKeptByShrinking(cfg, s, s');
  }

  /** Under the lock, the ids read and the ledger cover everything the user retains. */
  lemma CountCoversRetained(cfg: Config, s: State, x: Session)
    requires IdsOk(cfg, s) && QuotaOk(cfg, s) && x in s.backends && s.backends[x].pc.Listed?
             && Limited(cfg, s.backends[x].pc.u)
    ensures var b := s.backends[x];
            Retained(s, b.db, b.pc.u) <= b.pc.ids + LedgerIds(s, b.db, b.pc.u)
  {
    var b := s.backends[x];
    assert LockDiscipline(cfg, b) && LearnedIfLimited(cfg, s, b);
    hide IdsOk, QuotaOk, LedgerIds, VisibleIds, PendingIds, OwnIds;
    PendingIsOwn(cfg, s, x, b.pc.u);
  }

  lemma CountLearns(cfg: Config, s: State, x: Session)
    requires IdsOk(cfg, s) && QuotaOk(cfg, s) && Enabled(s, Count(x))
    ensures LearnedIfLimited(cfg, Do(cfg, s, Count(x)), Do(cfg, s, Count(x)).backends[x])
  {
    hide IdsOk, QuotaOk, WithinLimits, Retained, LedgerIds;
    var s', b := Do(cfg, s, Count(x)), s.backends[x];
    if Limited(cfg, b.pc.u) && s'.backends[x].pc.Picking? {
      CountCoversRetained(cfg, s, x);
      assert RowsOnlyMove(s, s');
      RetainedShrinks(s, s');
      FewerWithinLimits(cfg, s, s', b.pc.ids + LedgerIds(s, b.db, b.pc.u), Retained(s', b.db, b.pc.u));
    }
  }

  lemma ListLearns(cfg: Config, s: State, x: Session)
    requires Enabled(s, List(x))
    ensures LearnedIfLimited(cfg, Do(cfg, s, List(x)), Do(cfg, s, List(x)).backends[x])
  {
    var s', b := Do(cfg, s, List(x)), s.backends[x];
    assert VisibleIds(s', b.db, b.pc.u) == VisibleIds(s, b.db, b.pc.u);
    assert OwnIds(s'.backends[x], b.pc.u) == OwnIds(b, b.pc.u);
  }

  lemma ReserveMovesNothing(cfg: Config, s: State, x: Session, c: EngineId)
    requires Enabled(s, Reserve(x, c))
    ensures var s' := Do(cfg, s, Reserve(x, c));
            && RowsOnlyMove(s, s') && s'.engine == s.engine
            && x in s.backends && s.backends[x].pc.Picking? && x in s'.backends
            && (s'.backends[x].pc.Picking? || s'.backends[x].pc.Reserved?)
            && s'.backends[x].pc.u == s.backends[x].pc.u && s'.backends[x].db == s.backends[x].db
  {
    hide ReservedElsewhere;
  }

  lemma RoomIsKept(cfg: Config, s: State, s': State, db: nat, u: User)
    requires RowsOnlyMove(s, s') && s'.engine == s.engine && WithinLimits(cfg, s, Retained(s, db, u))
    ensures WithinLimits(cfg, s', Retained(s', db, u))
  {
    hide WithinLimits, Retained;
    RetainedShrinks(s, s');
    FewerWithinLimits(cfg, s, s', Retained(s, db, u), Retained(s', db, u));
  }

  lemma ReserveLearns(cfg: Config, s: State, x: Session, c: EngineId)
    requires QuotaOk(cfg, s) && Enabled(s, Reserve(x, c))
    ensures LearnedIfLimited(cfg, Do(cfg, s, Reserve(x, c)), Do(cfg, s, Reserve(x, c)).backends[x])
  {
    hide QuotaOk, WithinLimits, Retained, RowsOnlyMove, Do, Enabled, Limited, VisibleIds, OwnIds;
    ReserveMovesNothing(cfg, s, x, c);
    var b := s.backends[x];
    LearnedOf(cfg, s, x);
    if Limited(cfg, b.pc.u) {
      RoomIsKept(cfg, s, Do(cfg, s, Reserve(x, c)), b.db, b.pc.u);
    }
  }

  lemma LearnedOf(cfg: Config, s: State, x: Session)
    requires QuotaOk(cfg, s) && x in s.backends
    ensures LearnedIfLimited(cfg, s, s.backends[x])
  {
    hide LearnedIfLimited, WithinQuota, Retained;
  }

  /** These steps touch no row, and the others among them teach a limited user nothing. */
  lemma MovesPcOnly(cfg: Config, s: State, a: Action, x: Session)
    requires Enabled(s, a) && Actor(a) == Some(x)
    requires a.Begin? || a.Acquire? || a.List? || a.Count? || a.Reserve? || a.Fail? || a.Release?
    ensures var s' := Do(cfg, s, a);
            && s'.visible == s.visible && s'.ledger == s.ledger && s'.engine == s.engine
            && x in s.backends && x in s'.backends && s'.backends == s.backends[x := s'.backends[x]]
            && s'.backends[x].db == s.backends[x].db && s'.backends[x].claimed == s.backends[x].claimed
            && (a.Begin? || a.Acquire? || a.Fail? || a.Release? ==> LearnedIfLimited(cfg, s', s'.backends[x]))
  {
    hide WithinLimits, Retained, VisibleIds, OwnIds, LedgerIds, ReservedElsewhere, LockFree;
  }

  lemma QuotaKeptBeforeClaim(cfg: Config, s: State, a: Action, x: Session)
    requires IdsOk(cfg, s) && QuotaOk(cfg, s) && Enabled(s, a) && Actor(a) == Some(x)
    requires a.Begin? || a.Acquire? || a.List? || a.Count? || a.Reserve? || a.Fail? || a.Release?
    ensures QuotaOk(cfg, Do(cfg, s, a))
  {
    hide IdsOk, QuotaOk, Do, Enabled, LearnedIfLimited;
    MovesPcOnly(cfg, s, a, x);
    if a.List? { ListLearns(cfg, s, x); }
    if a.Count? { CountLearns(cfg, s, x); }
    if a.Reserve? { ReserveLearns(cfg, s, x, a.c); }
    QuotaKeptByMove(cfg, s, Do(cfg, s, a), x);
  }

  /** Publishing cannot complete another backend's list behind its back: the lock is in the way. */
  lemma PublishKeepsLists(cfg: Config, s: State, x: Session, y: Session)
    requires IdsOk(cfg, s) && Enabled(s, Publish(x)) && y in s.backends && y != x
    requires s.backends[y].pc.Listed? && Limited(cfg, s.backends[y].pc.u)
    ensures Carried(s, Do(cfg, s, Publish(x)), y)
  {
    var s', b := Do(cfg, s, Publish(x)), s.backends[y];
    var u := b.pc.u;
    if s.backends[x].db == b.db && OwnIds(s.backends[x], u) != {} { OneAdmitting(cfg, s, y, x, u); }
    assert BackendIds(s, s.backends[x]);
    hide IdsOk;
    forall id | id in VisibleIds(s', b.db, u) ensures id in VisibleIds(s, b.db, u) {
      assert s.backends[x].db != b.db || id !in OwnIds(s.backends[x], u);
    }
  }

  lemma TransactionEndMovesRows(cfg: Config, s: State, a: Action, x: Session)
    requires Enabled(s, a) && (a == Publish(x) || a == Discard(x)) && BackendIds(s, s.backends[x])
    ensures RowsOnlyMove(s, Do(cfg, s, a))
  {
    forall id | id in s.backends[x].claimed ensures ClaimedFor(s, x, id.db, s.backends[x].claimed[id], id) {}
  }

  /** A backend whose list of local rows is unaffected by another's rollback. */
  lemma DiscardKeepsLists(cfg: Config, s: State, x: Session, y: Session)
    requires Enabled(s, Discard(x)) && y in s.backends && y != x
    ensures Carried(s, Do(cfg, s, Discard(x)), y)
  {
  }

  /** The end of the caller's transaction: its rows become visible, or vanish. */
  lemma QuotaKeptByTransactionEnd(cfg: Config, s: State, a: Action, x: Session)
    requires IdsOk(cfg, s) && QuotaOk(cfg, s) && Enabled(s, a) && (a == Publish(x) || a == Discard(x))
    ensures QuotaOk(cfg, Do(cfg, s, a))
  {
    assert BackendIds(s, s.backends[x]);
    hide IdsOk, QuotaOk, WithinLimits, Retained, Limited;
    var s' := Do(cfg, s, a);
    TransactionEndMovesRows(cfg, s, a, x);
    RetainedShrinks(s, s');
    hide RowsOnlyMove, VisibleIds, OwnIds;
    forall y | y in s'.backends && !LearnedIfLimited(cfg, s', s'.backends[y]) ensures Carried(s, s', y) {
      assert y != x && s'.backends[y] == s.backends[y];
      if a.Discard? { DiscardKeepsLists(cfg, s, x, y); }
      else if s.backends[y].pc.Listed? { PublishKeepsLists(cfg, s, x, y); }
    }
    QuotaKeptByShrinking(cfg, s, s');
  }

  // ----- the two steps that add a row -----

  /** A candidate that is held belongs to nothing retained, until it is claimed. */
  lemma HeldIsNew(cfg: Config, s: State, x: Session, db: nat, u: User)
    requires IdsOk(cfg, s) && x in s.backends && Held(s.backends[x].pc).Some?
    ensures var b, c := s.backends[x], Held(s.backends[x].pc).value;
            && (b.pc.Reserved? && c !in s.visible && c !in b.claimed && !ClaimedElsewhere(s, x, c) ==>
              c !in Retained(s, db, u))
            && (b.pc.Claimed? && (db != b.db || u != b.pc.u) ==> c !in Retained(s, db, u))
            && (b.pc.Claimed? ==> c in Retained(s, b.db, b.pc.u))
  {
    var b, c := s.backends[x], Held(s.backends[x].pc).value;
    assert BackendIds(s, b);
    assert b.pc.Claimed? ==> ClaimedFor(s, x, b.db, b.pc.u, c);
    InRetained(s, db, u, c);
    InRetained(s, b.db, b.pc.u, c);
  }

  ghost predicate RetainedOnlyFor(s: State, db0: nat, u0: User, c: EngineId) {
    forall db, u :: c in Retained(s, db, u) ==> db == db0 && u == u0
  }

  /** `c` becomes a row of backend `x`'s user and of nobody else. */
  ghost predicate AddsRow(s: State, s': State, x: Session, c: EngineId)
    requires x in s.backends && UserOf(s.backends[x].pc).Some?
  {
    && s'.backends.Keys == s.backends.Keys
    && (forall y :: y in s.backends && y != x ==> s'.backends[y] == s.backends[y])
    && s'.visible == s.visible
    && (forall db, u :: Retained(s', db, u) ==
          Retained(s, db, u) + (if db == s.backends[x].db && u == s.backends[x].pc.u then {c} else {}))
    && (forall id :: InFlight(s', id) && id != c ==> InFlight(s, id))
  }

  /** The fields a successful claim changes. */
  lemma ClaimFields(cfg: Config, s: State, x: Session)
    requires Enabled(s, Claim(x))
    requires s.backends[x].pc.c !in s.visible && s.backends[x].pc.c !in s.backends[x].claimed
    ensures var s', b := Do(cfg, s, Claim(x)), s.backends[x];
            && s'.visible == s.visible && s'.ledger == s.ledger && s'.engine == s.engine
            && s'.backends == s.backends[x := s'.backends[x]]
            && s'.backends[x].db == b.db && s'.backends[x].claimed == b.claimed[b.pc.c := b.pc.u]
            && s'.backends[x].pc == Claimed(b.pc.u, b.pc.start, b.pc.c)
  {
    hide ClaimedElsewhere;
  }

  lemma ClaimRetainedSet(cfg: Config, s: State, x: Session, db: nat, u: User)
    requires Enabled(s, Claim(x))
    requires s.backends[x].pc.c !in s.visible && s.backends[x].pc.c !in s.backends[x].claimed
    ensures var b := s.backends[x];
            Retained(Do(cfg, s, Claim(x)), db, u) == Retained(s, db, u) +
              (if db == b.db && u == b.pc.u then {b.pc.c} else {})
  {
    var s', b := Do(cfg, s, Claim(x)), s.backends[x];
    ClaimFields(cfg, s, x);
    hide Do, Enabled, Retained;
    forall id ensures id in Retained(s', db, u) <==>
      id in Retained(s, db, u) || (db == b.db && u == b.pc.u && id == b.pc.c) {
      InRetained(s, db, u, id);
      InRetained(s', db, u, id);
      ClaimPending(s, s', x, db, u, id);
      hide Pending;
    }
  }

  lemma ClaimAddsRow(cfg: Config, s: State, x: Session)
    requires Enabled(s, Claim(x))
    requires s.backends[x].pc.c !in s.visible && s.backends[x].pc.c !in s.backends[x].claimed
    ensures AddsRow(s, Do(cfg, s, Claim(x)), x, s.backends[x].pc.c)
  {
    ClaimFields(cfg, s, x);
    hide Retained, Do, Enabled;
    forall db, u { ClaimRetainedSet(cfg, s, x, db, u); }
  }

  lemma ClaimPending(s: State, s': State, x: Session, db: nat, u: User, id: EngineId)
    requires x in s.backends && s.backends[x].pc.Reserved? && s.backends[x].pc.c !in s.backends[x].claimed
    requires x in s'.backends && s'.backends == s.backends[x := s'.backends[x]]
    requires s'.backends[x].db == s.backends[x].db
    requires s'.backends[x].claimed == s.backends[x].claimed[s.backends[x].pc.c := s.backends[x].pc.u]
    ensures Pending(s', db, u, id) <==>
            Pending(s, db, u, id) || (db == s.backends[x].db && u == s.backends[x].pc.u && id == s.backends[x].pc.c)
  {
    if y :| ClaimedFor(s, y, db, u, id) { assert ClaimedFor(s', y, db, u, id); }
    if y :| ClaimedFor(s', y, db, u, id) {
      assert ClaimedFor(s, y, db, u, id) || (y == x && id == s.backends[x].pc.c);
    }
    if db == s.backends[x].db && u == s.backends[x].pc.u && id == s.backends[x].pc.c {
      assert ClaimedFor(s', x, db, u, id);
    }
  }

  lemma PendingSame(s: State, s': State, db: nat, u: User, id: EngineId)
    requires s'.backends.Keys == s.backends.Keys
    requires forall y :: y in s.backends ==>
             s'.backends[y].db == s.backends[y].db && s'.backends[y].claimed == s.backends[y].claimed
    ensures Pending(s', db, u, id) <==> Pending(s, db, u, id)
  {
    if y :| ClaimedFor(s, y, db, u, id) { assert ClaimedFor(s', y, db, u, id); }
    if y :| ClaimedFor(s', y, db, u, id) { assert ClaimedFor(s, y, db, u, id); }
  }

  /** The fields a joint commit changes. */
  lemma CommitFields(cfg: Config, s: State, a: Action, x: Session)
    requires (a == Commit(x) || a == CommitLost(x)) && Enabled(s, a)
    ensures var s', b := Do(cfg, s, a), s.backends[x];
            && s'.visible == s.visible && s'.ledger == s.ledger[b.pc.c := Entry(b.pc.u, b.pc.start)]
            && s'.backends == s.backends[x := s'.backends[x]]
            && s'.backends[x].db == b.db && s'.backends[x].claimed == b.claimed
            && (s'.backends[x].pc.Out? || s'.backends[x].pc.Broken?)
            && (forall id :: InFlight(s', id) && id != b.pc.c ==> InFlight(s, id))
  {
  }

  lemma CommitRetains(cfg: Config, s: State, a: Action, x: Session, db: nat, u: User, id: EngineId)
    requires (a == Commit(x) || a == CommitLost(x)) && Enabled(s, a) && BackendIds(s, s.backends[x])
    ensures var b := s.backends[x];
            id in Retained(Do(cfg, s, a), db, u) <==>
              id in Retained(s, db, u) || (db == b.db && u == b.pc.u && id == b.pc.c)
  {
    var s' := Do(cfg, s, a);
    CommitFields(cfg, s, a, x);
    hide Do, Retained;
    InRetained(s, db, u, id);
    InRetained(s', db, u, id);
    PendingSame(s, s', db, u, id);
  }

  lemma CommitRetainedSet(cfg: Config, s: State, a: Action, x: Session, db: nat, u: User)
    requires (a == Commit(x) || a == CommitLost(x)) && Enabled(s, a) && BackendIds(s, s.backends[x])
    ensures var b := s.backends[x];
            Retained(Do(cfg, s, a), db, u) == Retained(s, db, u) + (if db == b.db && u == b.pc.u then {b.pc.c} else {})
  {
    assert x in s.backends && s.backends[x].pc.Claimed?;
    hide Retained, Do, Enabled, BackendIds;
    forall id { CommitRetains(cfg, s, a, x, db, u, id); }
  }

  lemma CommitAddsRow(cfg: Config, s: State, a: Action, x: Session)
    requires IdsOk(cfg, s) && (a == Commit(x) || a == CommitLost(x)) && Enabled(s, a)
    ensures AddsRow(s, Do(cfg, s, a), x, s.backends[x].pc.c)
  {
    assert x in s.backends && s.backends[x].pc.Claimed?;
    assert BackendIds(s, s.backends[x]);
    CommitFields(cfg, s, a, x);
    hide IdsOk, Retained, Do, Enabled, InFlight, BackendIds;
    forall db, u { CommitRetainedSet(cfg, s, a, x, db, u); }
  }

  lemma QuotaKeptByAdding(cfg: Config, s: State, s': State, x: Session, c: EngineId)
    requires IdsOk(cfg, s) && QuotaOk(cfg, s) && x in s.backends && Admitting(s.backends[x].pc) && AddsRow(s, s', x, c)
    requires RetainedOnlyFor(s, s.backends[x].db, s.backends[x].pc.u, c)
    requires Limited(cfg, s.backends[x].pc.u) ==>
             WithinLimits(cfg, s, Retained(s, s.backends[x].db, s.backends[x].pc.u) - {c})
    requires s'.backends[x].db == s.backends[x].db
    requires s'.backends[x].pc.Out? || s'.backends[x].pc.Broken?
             || s'.backends[x].pc == Claimed(s.backends[x].pc.u, s.backends[x].pc.start, c)
    ensures QuotaOk(cfg, s')
  {
    hide Retained, WithinLimits, WithinQuota, Limited, VisibleIds, OwnIds, IdsOk;
    var db0, u0 := s.backends[x].db, s.backends[x].pc.u;
    var R, R' := Retained(s, db0, u0), Retained(s', db0, u0);
    forall db, u | Limited(cfg, u) ensures WithinQuota(cfg, s', Retained(s', db, u)) {
      if db == db0 && u == u0 {
        assert R' - {c} == R - {c};
        OneMoreFits(cfg, s, s', R', c) by {
          assert R' - {c} <= R - {c};
          FewerWithinLimits(cfg, s, s, R - {c}, R' - {c});
        }
      } else {
        FewerWithinLimits(cfg, s, s', Retained(s, db, u), Retained(s', db, u));
      }
    }
    forall y | y in s'.backends ensures LearnedIfLimited(cfg, s', s'.backends[y]) {
      if y == x {
        if s'.backends[x].pc.Claimed? && Limited(cfg, u0) {
          FewerWithinLimits(cfg, s, s', R - {c}, R' - {c});
        }
      } else {
        OtherKeepsLearning(cfg, s, s', x, c, y);
      }
    }
  }

  lemma OtherKeepsLearning(cfg: Config, s: State, s': State, x: Session, c: EngineId, y: Session)
    requires IdsOk(cfg, s) && QuotaOk(cfg, s) && x in s.backends && Admitting(s.backends[x].pc) && AddsRow(s, s', x, c)
    requires RetainedOnlyFor(s, s.backends[x].db, s.backends[x].pc.u, c)
    requires y in s.backends && y != x
    ensures LearnedIfLimited(cfg, s', s'.backends[y])
  {
    var b := s.backends[y];
    assert LearnedIfLimited(cfg, s, b);
    if Admitting(b.pc) && Limited(cfg, b.pc.u) {
      if b.db == s.backends[x].db && b.pc.u == s.backends[x].pc.u { OneAdmitting(cfg, s, x, y, b.pc.u); }
      var R, R' := Retained(s, b.db, b.pc.u), Retained(s', b.db, b.pc.u);
      hide IdsOk, QuotaOk, Retained, WithinLimits, OwnIds;
      FewerWithinLimits(cfg, s, s', R, R');
      if b.pc.Claimed? { FewerWithinLimits(cfg, s, s', R - {b.pc.c}, R' - {b.pc.c}); }
      assert VisibleIds(s', b.db, b.pc.u) == VisibleIds(s, b.db, b.pc.u);
    }
  }

  lemma ClaimCollisionMovesNothing(cfg: Config, s: State, x: Session)
    requires Enabled(s, Claim(x)) && (s.backends[x].pc.c in s.visible || s.backends[x].pc.c in s.backends[x].claimed)
    ensures var s' := Do(cfg, s, Claim(x));
            && RowsOnlyMove(s, s') && s'.engine == s.engine && s'.ledger == s.ledger && s'.visible == s.visible
            && s'.backends == s.backends[x := s.backends[x].(pc := s'.backends[x].pc)] && s'.backends[x].pc.Picking?
            && s'.backends[x].pc.u == s.backends[x].pc.u
  {
    hide ClaimedElsewhere;
  }

  lemma QuotaKeptByCollision(cfg: Config, s: State, x: Session)
    requires QuotaOk(cfg, s) && Enabled(s, Claim(x))
    requires s.backends[x].pc.c in s.visible || s.backends[x].pc.c in s.backends[x].claimed
    ensures QuotaOk(cfg, Do(cfg, s, Claim(x)))
  {
    var s', b := Do(cfg, s, Claim(x)), s.backends[x];
    assert LearnedIfLimited(cfg, s, b);
    ClaimCollisionMovesNothing(cfg, s, x);
    hide QuotaOk, WithinLimits, Retained, RowsOnlyMove, Do, Enabled, Limited, VisibleIds, OwnIds;
    if Limited(cfg, b.pc.u) {
      RoomIsKept(cfg, s, s', b.db, b.pc.u);
    }
    QuotaKeptByMove(cfg, s, s', x);
  }

  lemma ClaimedOnlyForOwner(cfg: Config, s: State, x: Session)
    requires IdsOk(cfg, s) && x in s.backends && s.backends[x].pc.Claimed?
    ensures RetainedOnlyFor(s, s.backends[x].db, s.backends[x].pc.u, s.backends[x].pc.c)
  {
    hide IdsOk, Retained;
    var b := s.backends[x];
    forall db, u | b.pc.c in Retained(s, db, u) ensures db == b.db && u == b.pc.u { HeldIsNew(cfg, s, x, db, u); }
  }

  lemma ClaimedLeavesRoom(cfg: Config, s: State, x: Session)
    requires QuotaOk(cfg, s) && x in s.backends && s.backends[x].pc.Claimed? && Limited(cfg, s.backends[x].pc.u)
    ensures var b := s.backends[x]; WithinLimits(cfg, s, Retained(s, b.db, b.pc.u) - {b.pc.c})
  {
    assert LearnedIfLimited(cfg, s, s.backends[x]);
  }

  /** The joint commit: the row was retained already, as an uncommitted local row. */
  lemma QuotaKeptByCommit(cfg: Config, s: State, a: Action, x: Session)
    requires IdsOk(cfg, s) && QuotaOk(cfg, s) && Enabled(s, a) && (a == Commit(x) || a == CommitLost(x))
    ensures QuotaOk(cfg, Do(cfg, s, a))
  {
    var b := s.backends[x];
    CommitFields(cfg, s, a, x);
    if Limited(cfg, b.pc.u) { ClaimedLeavesRoom(cfg, s, x); }
    hide IdsOk, QuotaOk, WithinLimits, Retained, Limited, AddsRow, Do, Enabled, InFlight;
    ClaimedOnlyForOwner(cfg, s, x);
    CommitAddsRow(cfg, s, a, x);
    hide RetainedOnlyFor;
    QuotaKeptByAdding(cfg, s, Do(cfg, s, a), x, b.pc.c);
  }

  lemma QuotaKeptByClaim(cfg: Config, s: State, x: Session)
    requires IdsOk(cfg, s) && QuotaOk(cfg, s) && Enabled(s, Claim(x))
    requires s.backends[x].pc.c !in s.visible && s.backends[x].pc.c !in s.backends[x].claimed
    ensures QuotaOk(cfg, Do(cfg, s, Claim(x)))
  {
    var b := s.backends[x];
    assert LearnedIfLimited(cfg, s, b);
    hide IdsOk, QuotaOk, WithinLimits, Retained, Limited, OwnIds, VisibleIds, AddsRow, ClaimedElsewhere;
    forall db, u ensures b.pc.c !in Retained(s, db, u) { HeldIsNew(cfg, s, x, db, u); }
    ClaimAddsRow(cfg, s, x);
    assert Retained(s, b.db, b.pc.u) - {b.pc.c} == Retained(s, b.db, b.pc.u);
    QuotaKeptByAdding(cfg, s, Do(cfg, s, Claim(x)), x, b.pc.c);
  }

  lemma QuotaKeptByAnyClaim(cfg: Config, s: State, x: Session)
    requires IdsOk(cfg, s) && QuotaOk(cfg, s) && Enabled(s, Claim(x))
    ensures QuotaOk(cfg, Do(cfg, s, Claim(x)))
  {
    hide IdsOk, QuotaOk, Do, ClaimedElsewhere;
    if s.backends[x].pc.c in s.visible || s.backends[x].pc.c in s.backends[x].claimed {
      QuotaKeptByCollision(cfg, s, x);
    } else {
      QuotaKeptByClaim(cfg, s, x);
    }
  }

  lemma QuotaKept(cfg: Config, s: State, a: Action)
    requires IdsOk(cfg, s) && QuotaOk(cfg, s) && Enabled(s, a)
    ensures QuotaOk(cfg, Do(cfg, s, a))
  {
    hide IdsOk, QuotaOk, Do, Enabled;
    match Actor(a)
    case None => QuotaKeptByEnvironment(cfg, s, a);
    case Some(x) =>
      if a.Publish? || a.Discard? { QuotaKeptByTransactionEnd(cfg, s, a, x); }
      else if a.Commit? || a.CommitLost? { QuotaKeptByCommit(cfg, s, a, x); }
      else if a.Claim? { QuotaKeptByAnyClaim(cfg, s, x); }
      else { QuotaKeptBeforeClaim(cfg, s, a, x); }
  }

  // ----- the bounds over whole runs -----

  lemma {:induction false} RunKeepsIdsAndQuota(cfg: Config, s0: State, acts: seq<Action>)
    requires IdsOk(cfg, s0) && QuotaOk(cfg, s0)
    ensures IdsOk(cfg, Run(cfg, s0, acts)) && QuotaOk(cfg, Run(cfg, s0, acts))
  {
    hide IdsOk, QuotaOk, Do, Enabled;
    if acts != [] {
      var s, a := Run(cfg, s0, acts[..|acts| - 1]), acts[|acts| - 1];
      RunKeepsIdsAndQuota(cfg, s0, acts[..|acts| - 1]);
      if Enabled(s, a) {
        IdsKept(cfg, s, a);
        QuotaKept(cfg, s, a);
      }
    }
  }

  lemma InitiallyOk(cfg: Config, s: State)
    requires Initial(s)
    ensures IdsOk(cfg, s) && QuotaOk(cfg, s)
  {
    forall db, u ensures Retained(s, db, u) == {} {
      forall id ensures id !in Retained(s, db, u) { InRetained(s, db, u, id); }
    }
  }

  /** After any schedule of any number of backends, with commits, rollbacks, lost
      acknowledgements, engine progress and reconciliation, no limited user retains more
      instances than `max_instances_per_user`, nor has more of them active than
      `max_concurrent_per_user`. */
  lemma QuotaBoundsEveryRun(cfg: Config, s0: State, acts: seq<Action>, db: nat, u: User)
    requires Initial(s0) && u !in cfg.superusers
    ensures var s := Run(cfg, s0, acts);
            && (cfg.maxInstances > 0 ==> |Retained(s, db, u)| <= cfg.maxInstances)
            && (cfg.maxConcurrent > 0 ==> |Active(s, Retained(s, db, u))| <= cfg.maxConcurrent)
  {
    InitiallyOk(cfg, s0);
    RunKeepsIdsAndQuota(cfg, s0, acts);
    hide IdsOk;
    assert Limited(cfg, u) ==> WithinQuota(cfg, Run(cfg, s0, acts), Retained(Run(cfg, s0, acts), db, u));
  }
}
