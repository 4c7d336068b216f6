/** The protected ledger and the engine queue over whole runs: what each start leaves behind
    (src/client.rs:327-453, src/dsl.rs:1529-1606). */
module Ledger {
  import opened Prelude
  import opened Submission
  import Quota

  /** `id` has been enqueued by some start. */
  predicate WasEnqueued(s: State, id: EngineId) {
    exists i :: 0 <= i < |s.enqueued| && s.enqueued[i].id == id
  }

  predicate EnqueuedBy(s: State, id: EngineId, start: nat) {
    exists i :: 0 <= i < |s.enqueued| && s.enqueued[i] == Enqueued(id, start)
  }

  /** A start that has neither ended nor been superseded by an error. */
  predicate Open(s: State, x: Session, start: nat) {
    x in s.backends && StartOf(s.backends[x].pc) == Some(start)
  }

  /** The ledger and the engine know exactly what was enqueued, up to reconciliation. */
  predicate RowsOk(s: State) {
    && (forall i :: 0 <= i < |s.enqueued| ==> s.enqueued[i].id in s.ledger || s.enqueued[i].id in s.reconciled)
    && (forall id :: id in s.ledger ==> EnqueuedBy(s, id, s.ledger[id].start))
    && (forall id :: id in s.reconciled ==> WasEnqueued(s, id))
    && (forall id :: id in s.engine ==> WasEnqueued(s, id))
  }

  /** An identifier is enqueued again only after reconciliation removed its ledger row. */
  predicate NoRepeats(s: State) {
    forall i, j :: 0 <= i < j < |s.enqueued| && s.enqueued[i].id == s.enqueued[j].id ==>
      s.enqueued[i].id in s.reconciled
  }

  /** Starts are numbered apart, and an open one has no outcome yet. */
  ghost predicate StartsOk(s: State) {
    && (forall x, k: nat :: Open(s, x, k) ==> k < s.nextStart && k !in s.outcomes)
    && (forall x, y, k: nat :: Open(s, x, k) && Open(s, y, k) ==> x == y)
    && (forall k: nat :: k in s.outcomes ==> k < s.nextStart)
  }

  /** A start enqueued something exactly when its outcome says so. */
  predicate OutcomesOk(s: State) {
    && (forall i :: 0 <= i < |s.enqueued| ==>
          var e := s.enqueued[i];
          e.start in s.outcomes
            && (s.outcomes[e.start] == Returned(e.id) || s.outcomes[e.start] == FailedUnacknowledged(e.id)))
    && (forall k: nat :: k in s.outcomes && !s.outcomes[k].Failed? ==> EnqueuedBy(s, s.outcomes[k].id, k))
  }

  ghost predicate HistoryOk(s: State) { RowsOk(s) && NoRepeats(s) && StartsOk(s) && OutcomesOk(s) }

  /** The history fields grow by at most the joint commit of one start. */
  lemma OpenAfter(cfg: Config, s: State, a: Action, x: Session, k: nat)
    requires Enabled(s, a) && Open(Do(cfg, s, a), x, k)
    ensures Open(s, x, k) || (k == s.nextStart && a.Begin? && a.x == x)
  {
    hide WithinLimits, VisibleIds, OwnIds, LedgerIds, LockFree, ReservedElsewhere, ClaimedElsewhere, Limited;
  }

  lemma StartsKept(cfg: Config, s: State, a: Action)
    requires StartsOk(s) && Enabled(s, a)
    ensures StartsOk(Do(cfg, s, a))
  {
    var s' := Do(cfg, s, a);
    StartFields(cfg, s, a);
    hide Do, Enabled;
    forall x, k: nat | Open(s', x, k) ensures k < s'.nextStart && k !in s'.outcomes {
      OpenAfter(cfg, s, a, x, k);
    }
    forall x, y, k: nat | Open(s', x, k) && Open(s', y, k) ensures x == y {
      OpenAfter(cfg, s, a, x, k);
      OpenAfter(cfg, s, a, y, k);
    }
  }

  /** The outcome recorded by a step is that of a start it ends. */
  lemma StartFields(cfg: Config, s: State, a: Action)
    requires Enabled(s, a)
    ensures var s' := Do(cfg, s, a);
            && s.nextStart <= s'.nextStart
            && (a.Begin? ==> s'.outcomes == s.outcomes && s'.nextStart == s.nextStart + 1)
            && (forall k: nat :: k in s'.outcomes && k !in s.outcomes ==>
              exists x: Session :: Open(s, x, k) && !Open(s', x, k) && Actor(a) == Some(x))
            && (forall k: nat :: k in s.outcomes ==> k in s'.outcomes)
  {
    hide WithinLimits, VisibleIds, OwnIds, LedgerIds, LockFree, ReservedElsewhere, ClaimedElsewhere, Limited;
    var s' := Do(cfg, s, a);
    match Actor(a)
    case None =>
    case Some(x) =>
      forall k: nat | k in s'.outcomes && k !in s.outcomes ensures Open(s, x, k) && !Open(s', x, k) {}
  }

  predicate Joins(a: Action) { a.Commit? || a.CommitLost? }

  /** The joint commit appends one queue entry and writes its ledger row; no other step
      appends, and reconciliation accounts for the rows it removes. */
  lemma HistoryFields(cfg: Config, s: State, a: Action)
    requires Enabled(s, a)
    ensures var s' := Do(cfg, s, a);
            if Joins(a) then
              var pc := s.backends[a.x].pc;
              Open(s, a.x, pc.start) && Joined(s, s', pc.c, pc.u, pc.start)
            else NotJoined(s, s')
  {
    if !Joins(a) { OtherFields(cfg, s, a); }
    hide WithinLimits, VisibleIds, OwnIds, LedgerIds, LockFree, ReservedElsewhere, ClaimedElsewhere, Limited, NotJoined;
  }

  lemma OtherFields(cfg: Config, s: State, a: Action)
    requires Enabled(s, a) && !Joins(a)
    ensures NotJoined(s, Do(cfg, s, a))
  {
    hide WithinLimits, VisibleIds, OwnIds, LedgerIds, LockFree, ReservedElsewhere, ClaimedElsewhere, Limited;
    if a.Fail? || a.Count? {
      assert Open(s, a.x, StartOf(s.backends[a.x].pc).value);
    }
  }

  lemma EnqueuedGrows(s: State, s': State)
    requires s.enqueued <= s'.enqueued
    ensures forall id, k: nat :: EnqueuedBy(s, id, k) ==> EnqueuedBy(s', id, k)
    ensures forall id :: WasEnqueued(s, id) ==> WasEnqueued(s', id)
  {
    forall id, k: nat | EnqueuedBy(s, id, k) ensures EnqueuedBy(s', id, k) {
      var i :| 0 <= i < |s.enqueued| && s.enqueued[i] == Enqueued(id, k);
      assert s'.enqueued[i] == Enqueued(id, k);
    }
    forall id | WasEnqueued(s, id) ensures WasEnqueued(s', id) {
      var i :| 0 <= i < |s.enqueued| && s.enqueued[i].id == id;
      assert s'.enqueued[i].id == id;
    }
  }

  /** `s'` is `s` after the joint commit of `c` by the start `k`. */
  predicate Joined(s: State, s': State, c: EngineId, u: User, k: nat) {
    && s'.enqueued == s.enqueued + [Enqueued(c, k)] && s'.ledger == s.ledger[c := Entry(u, k)]
    && s'.engine.Keys == s.engine.Keys + {c} && s'.reconciled == s.reconciled
    && (s'.outcomes == s.outcomes[k := Returned(c)] || s'.outcomes == s.outcomes[k := FailedUnacknowledged(c)])
  }

  lemma JoinKeepsRows(s: State, s': State, c: EngineId, u: User, k: nat)
    requires RowsOk(s) && Joined(s, s', c, u, k)
    ensures RowsOk(s')
  {
    EnqueuedGrows(s, s');
    assert s'.enqueued[|s.enqueued|] == Enqueued(c, k);
    assert EnqueuedBy(s', c, k) && WasEnqueued(s', c);
    forall i | 0 <= i < |s'.enqueued| ensures s'.enqueued[i].id in s'.ledger || s'.enqueued[i].id in s'.reconciled {
      assert i < |s.enqueued| ==> s'.enqueued[i] == s.enqueued[i];
    }
  }

  lemma JoinKeepsNoRepeats(s: State, s': State, c: EngineId, u: User, k: nat)
    requires RowsOk(s) && NoRepeats(s) && Joined(s, s', c, u, k) && c !in s.ledger
    ensures NoRepeats(s')
  {
    forall i, j | 0 <= i < j < |s'.enqueued| && s'.enqueued[i].id == s'.enqueued[j].id
      ensures s'.enqueued[i].id in s'.reconciled
    {
      assert s'.enqueued[i] == s.enqueued[i];
      assert j < |s.enqueued| ==> s'.enqueued[j] == s.enqueued[j];
    }
  }

  lemma JoinKeepsOutcomes(s: State, s': State, c: EngineId, u: User, k: nat)
    requires OutcomesOk(s) && Joined(s, s', c, u, k) && k !in s.outcomes
    ensures OutcomesOk(s')
  {
    EnqueuedGrows(s, s');
    assert s'.enqueued[|s.enqueued|] == Enqueued(c, k);
    assert EnqueuedBy(s', c, k);
    assert forall i :: 0 <= i < |s.enqueued| ==> s'.enqueued[i] == s.enqueued[i];
  }

  /** `s'` is `s` after a step that enqueues nothing. */
  ghost predicate NotJoined(s: State, s': State) {
    && s'.enqueued == s.enqueued
    && (forall id :: id in s'.ledger ==> id in s.ledger && s'.ledger[id] == s.ledger[id])
    && (forall id :: id in s.ledger ==> id in s'.ledger || id in s'.reconciled)
    && s.reconciled <= s'.reconciled <= s.reconciled + s.ledger.Keys
    && s'.engine.Keys <= s.engine.Keys
    && (s'.outcomes == s.outcomes ||
        exists x: Session, k: nat :: Open(s, x, k) && s'.outcomes == s.outcomes[k := Failed])
  }

  lemma OtherKeepsRows(s: State, s': State)
    requires RowsOk(s) && NoRepeats(s) && NotJoined(s, s')
    ensures RowsOk(s') && NoRepeats(s')
  {
    EnqueuedGrows(s, s');
    hide EnqueuedBy;
    forall id | id in s'.reconciled ensures WasEnqueued(s', id) {
      if id !in s.reconciled {
        assert EnqueuedBy(s, id, s.ledger[id].start);
        RowWasEnqueued(s, id);
      }
    }
  }

  lemma RowWasEnqueued(s: State, id: EngineId)
    requires RowsOk(s) && id in s.ledger
    ensures WasEnqueued(s, id)
  {
    assert EnqueuedBy(s, id, s.ledger[id].start);
  }

  lemma OtherKeepsOutcomes(s: State, s': State)
    requires OutcomesOk(s) && StartsOk(s) && NotJoined(s, s')
    ensures OutcomesOk(s')
  {
    EnqueuedGrows(s, s');
    hide EnqueuedBy;
  }

  lemma HistoryKept(cfg: Config, s: State, a: Action)
    requires IdsOk(cfg, s) && HistoryOk(s) && Enabled(s, a)
    ensures HistoryOk(Do(cfg, s, a))
  {
    var s' := Do(cfg, s, a);
    StartsKept(cfg, s, a);
    HistoryFields(cfg, s, a);
    if Joins(a) {
      JoinIsNew(cfg, s, a);
      var pc := s.backends[a.x].pc;
      hide IdsOk, Do, Enabled, RowsOk, NoRepeats, OutcomesOk, StartsOk, Joined;
      JoinKeepsRows(s, s', pc.c, pc.u, pc.start);
      JoinKeepsNoRepeats(s, s', pc.c, pc.u, pc.start);
      JoinKeepsOutcomes(s, s', pc.c, pc.u, pc.start);
    } else {
      hide IdsOk, Do, Enabled, RowsOk, NoRepeats, OutcomesOk, StartsOk, NotJoined;
      OtherKeepsRows(s, s');
      OtherKeepsOutcomes(s, s');
    }
  }

  lemma JoinIsNew(cfg: Config, s: State, a: Action)
    requires IdsOk(cfg, s) && StartsOk(s) && Enabled(s, a) && Joins(a)
    ensures s.backends[a.x].pc.c !in s.ledger && s.backends[a.x].pc.start !in s.outcomes
  {
    assert BackendIds(s, s.backends[a.x]);
    assert Open(s, a.x, s.backends[a.x].pc.start);
  }

  lemma {:induction false} RunKeepsHistory(cfg: Config, s0: State, acts: seq<Action>)
    requires IdsOk(cfg, s0) && HistoryOk(s0)
    ensures IdsOk(cfg, Run(cfg, s0, acts)) && HistoryOk(Run(cfg, s0, acts))
  {
    hide IdsOk, HistoryOk, Do, Enabled;
    if acts != [] {
      var s, a := Run(cfg, s0, acts[..|acts| - 1]), acts[|acts| - 1];
      RunKeepsHistory(cfg, s0, acts[..|acts| - 1]);
      if Enabled(s, a) {
        IdsKept(cfg, s, a);
        HistoryKept(cfg, s, a);
      }
    }
  }

  lemma HistoryOfRun(cfg: Config, s0: State, acts: seq<Action>)
    requires Initial(s0)
    ensures IdsOk(cfg, Run(cfg, s0, acts)) && HistoryOk(Run(cfg, s0, acts))
  {
    assert IdsOk(cfg, s0) && HistoryOk(s0);
    hide IdsOk, HistoryOk, Run;
    RunKeepsHistory(cfg, s0, acts);
  }

  // ----- the promises -----

  /** In any run the identifiers ever enqueued are those of the ledger and those whose rows
      reconciliation removed; so before reconciliation the ledger is exactly the queue's history. */
  lemma LedgerIsQueueHistory(cfg: Config, s0: State, acts: seq<Action>)
    requires Initial(s0)
    ensures var s := Run(cfg, s0, acts);
            && (forall id :: WasEnqueued(s, id) <==> id in s.ledger || id in s.reconciled)
            && (s.reconciled == {} ==> forall id :: WasEnqueued(s, id) <==> id in s.ledger)
  {
    HistoryOfRun(cfg, s0, acts);
    hide Run, IdsOk;
    var s := Run(cfg, s0, acts);
    forall id | id in s.ledger ensures WasEnqueued(s, id) { RowWasEnqueued(s, id); }
  }

  /** No engine identifier is enqueued twice, unless its ledger row was reconciled away. */
  lemma NeverEnqueuedTwice(cfg: Config, s0: State, acts: seq<Action>, i: nat, j: nat)
    requires Initial(s0) && i < j < |Run(cfg, s0, acts).enqueued|
    requires Run(cfg, s0, acts).enqueued[i].id !in Run(cfg, s0, acts).reconciled
    ensures Run(cfg, s0, acts).enqueued[i].id != Run(cfg, s0, acts).enqueued[j].id
  {
    HistoryOfRun(cfg, s0, acts);
  }

  /** When exactly it happens: a start that is about to commit enqueues an identifier again if
      and only if reconciliation has removed the identifier's ledger row. */
  lemma CommitRepeatsIffReconciled(cfg: Config, s0: State, acts: seq<Action>, x: Session)
    requires Initial(s0) && Enabled(Run(cfg, s0, acts), Commit(x))
    ensures var s := Run(cfg, s0, acts);
            WasEnqueued(s, s.backends[x].pc.c) <==> s.backends[x].pc.c in s.reconciled
  {
    hide Run, HistoryOk, IdsOk, WasEnqueued, LockDiscipline;
    HistoryOfRun(cfg, s0, acts);
    LedgerIsQueueHistory(cfg, s0, acts);
    IdsOfBackend(cfg, Run(cfg, s0, acts), x);
  }

  /** A start that ended leaves a queue entry or a ledger row exactly when it returned an
      identifier, or failed on a commit whose acknowledgement was lost. In particular every
      other failure leaves neither. */
  lemma FailedStartLeavesNothing(cfg: Config, s0: State, acts: seq<Action>, start: nat)
    requires Initial(s0) && start in Run(cfg, s0, acts).outcomes
    ensures var s := Run(cfg, s0, acts);
            && (s.outcomes[start].Failed? <==> forall id :: !EnqueuedBy(s, id, start))
            && (s.outcomes[start].Failed? ==> forall id :: id in s.ledger ==> s.ledger[id].start != start)
            && (forall id :: EnqueuedBy(s, id, start) ==>
              s.outcomes[start] == Returned(id) || s.outcomes[start] == FailedUnacknowledged(id))
  {
    HistoryOfRun(cfg, s0, acts);
    hide Run, IdsOk;
  }

  /** When `df.start()` returns, its identifier is claimed by the caller's transaction,
      reserved in the ledger for this start, and enqueued; and it is queued afresh unless an
      earlier use of the identifier was reconciled away. */
  lemma ReturnedIsStarted(cfg: Config, s: State, x: Session)
    requires IdsOk(cfg, s) && HistoryOk(s) && Enabled(s, Commit(x))
    ensures var s', pc := Do(cfg, s, Commit(x)), s.backends[x].pc;
            && s'.outcomes[pc.start] == Returned(pc.c)
            && pc.c in s'.backends[x].claimed && s'.backends[x].claimed[pc.c] == pc.u
            && pc.c !in s.ledger && s'.ledger[pc.c] == Entry(pc.u, pc.start)
            && EnqueuedBy(s', pc.c, pc.start) && pc.c in s'.engine
            && (pc.c !in s.reconciled ==> s'.engine[pc.c] == Queued && !WasEnqueued(s, pc.c))
  {
    var s', pc := Do(cfg, s, Commit(x)), s.backends[x].pc;
    assert BackendIds(s, s.backends[x]);
    assert s'.enqueued[|s.enqueued|] == Enqueued(pc.c, pc.start);
  }

  /** As long as reconciliation keeps the ledger rows of instances in flight, the engine
      itself never has more instances of a limited user in flight than the limit allows. */
  lemma EngineLoadBounded(cfg: Config, s0: State, acts: seq<Action>, db: nat, u: User)
    requires Initial(s0) && u !in cfg.superusers && cfg.maxConcurrent > 0
    requires forall id :: InFlight(Run(cfg, s0, acts), id) ==> id in Run(cfg, s0, acts).ledger
    ensures var s := Run(cfg, s0, acts);
            |set id | id in s.engine && InFlight(s, id) && id.db == db && s.ledger[id].user == u| <= cfg.maxConcurrent
  {
    Quota.QuotaBoundsEveryRun(cfg, s0, acts, db, u);
    var s := Run(cfg, s0, acts);
    hide Run;
    var load := set id | id in s.engine && InFlight(s, id) && id.db == db && s.ledger[id].user == u;
    SubsetSize(load, Active(s, Retained(s, db, u)));
  }

  /** One backend, no limits, an empty database. */
  function FirstState(): State {
    State(map[1 := Backend(0, {}, map[], Out)], map[], map[], map[], [], {}, map[], 0)
  }

  lemma FirstClaim(cfg: Config, c: EngineId) returns (acts: seq<Action>)
    requires cfg == Config(0, 0, {}) && c.db == 0
    ensures Run(cfg, FirstState(), acts) ==
            FirstState().(backends := map[1 := Backend(0, {}, map[c := 7], Claimed(7, 0, c))], nextStart := 1)
  {
    hide Run, WithinLimits, VisibleIds, OwnIds, LedgerIds;
    var s0, b := FirstState(), Backend(0, {}, map[], Out);
    var begun := s0.(backends := map[1 := b.(pc := Picking(7, 0, 0))], nextStart := 1);
    var reserved := begun.(backends := map[1 := b.(pc := Reserved(7, 0, 0, c))]);
    var claimed := begun.(backends := map[1 := b.(claimed := map[c := 7], pc := Claimed(7, 0, c))]);
    RunNothing(cfg, s0);
    StepOfRun(cfg, s0, [], s0, Begin(1, 7), begun);
    StepOfRun(cfg, s0, [] + [Begin(1, 7)], begun, Reserve(1, c), reserved);
    StepOfRun(cfg, s0, [] + [Begin(1, 7)] + [Reserve(1, c)], reserved, Claim(1), claimed);
    acts := [] + [Begin(1, 7)] + [Reserve(1, c)] + [Claim(1)];
  }

  /** The exception exists: a run in which a start's commit goes unacknowledged, so that it
      fails and yet leaves its ledger row and its queue entry. */
  lemma LostCommitLeavesEntry() returns (cfg: Config, s0: State, acts: seq<Action>, s: State)
    ensures Initial(s0) && s == Run(cfg, s0, acts) && acts != [] && acts[|acts| - 1] == CommitLost(1)
    ensures var c := EngineId(0, "a");
            && s.outcomes == map[0 := FailedUnacknowledged(c)] && IsBroken(s, 1)
            && s.ledger == map[c := Entry(7, 0)] && s.engine == map[c := Queued] && EnqueuedBy(s, c, 0)
  {
    hide Run;
    var c := EngineId(0, "a");
    cfg, s0 := Config(0, 0, {}), FirstState();
    var before := FirstClaim(cfg, c);
    var claimed := Run(cfg, s0, before);
    s := Do(cfg, claimed, CommitLost(1));
    StepOfRun(cfg, s0, before, claimed, CommitLost(1), s);
    acts := before + [CommitLost(1)];
    assert s.enqueued[0] == Enqueued(c, 0);
  }

  /** The other exception exists: after a rollback the instance ends, reconciliation removes its
      ledger row, and the next start happens to draw the same identifier and enqueues it again. */
  lemma ReconciledIdIsEnqueuedAgain() returns (cfg: Config, s0: State, acts: seq<Action>, s: State)
    ensures Initial(s0) && s == Run(cfg, s0, acts)
    ensures var c := EngineId(0, "a");
            && s.enqueued == [Enqueued(c, 0), Enqueued(c, 1)] && c in s.reconciled
            && s.outcomes == map[0 := Returned(c), 1 := Returned(c)] && s.engine == map[c := Queued]
  {
    hide Run;
    var c := EngineId(0, "a");
    cfg, s0 := Config(0, 0, {}), FirstState();
    RunNothing(cfg, s0);
    acts, s := UnlimitedStart(cfg, s0, [], s0, c);
    acts, s := RolledBackAndGone(cfg, s0, acts, s, c);
    acts, s := UnlimitedStart(cfg, s0, acts, s, c);
  }

  lemma UnlimitedStart(cfg: Config, s0: State, before: seq<Action>, s: State, c: EngineId)
      returns (acts: seq<Action>, s': State)
    requires cfg == Config(0, 0, {}) && s == Run(cfg, s0, before) && IsFresh(s) && c.db == 0 && c !in s.engine
    ensures s' == Run(cfg, s0, acts) && s'.ledger == map[c := Entry(7, s.nextStart)] && s'.visible == map[]
    ensures s'.backends == map[1 := Backend(0, {}, map[c := 7], Out)] && s'.engine == s.engine[c := Queued]
    ensures s'.outcomes == s.outcomes[s.nextStart := Returned(c)] && s'.nextStart == s.nextStart + 1
    ensures s'.enqueued == s.enqueued + [Enqueued(c, s.nextStart)] && s'.reconciled == s.reconciled
  {
    hide Run, WithinLimits, VisibleIds, OwnIds, LedgerIds;
    acts, s' := Then(cfg, s0, before, s, Begin(1, 7));
    acts, s' := Then(cfg, s0, acts, s', Reserve(1, c));
    acts, s' := Then(cfg, s0, acts, s', Claim(1));
    acts, s' := Then(cfg, s0, acts, s', Commit(1));
  }

  lemma RolledBackAndGone(cfg: Config, s0: State, before: seq<Action>, s: State, c: EngineId)
      returns (acts: seq<Action>, s': State)
    requires s == Run(cfg, s0, before) && s.visible == map[] && s.ledger.Keys == {c} && s.engine == map[c := Queued]
    requires s.backends == map[1 := Backend(0, {}, map[c := 7], Out)]
    ensures s' == Run(cfg, s0, acts) && IsFresh(s') && s'.engine == map[] && s'.reconciled == s.reconciled + {c}
    ensures s'.enqueued == s.enqueued && s'.outcomes == s.outcomes && s'.nextStart == s.nextStart
  {
    hide Run;
    acts, s' := Then(cfg, s0, before, s, Discard(1));
    acts, s' := Then(cfg, s0, acts, s', Progress(c));
    acts, s' := Then(cfg, s0, acts, s', Progress(c));
    acts, s' := Then(cfg, s0, acts, s', DropLedger(c));
    acts, s' := Then(cfg, s0, acts, s', Forget(c));
  }

  lemma Then(cfg: Config, s0: State, acts: seq<Action>, s: State, a: Action) returns (acts': seq<Action>, s': State)
    requires Run(cfg, s0, acts) == s && Enabled(s, a)
    ensures acts' == acts + [a] && s' == Run(cfg, s0, acts') == Do(cfg, s, a)
  {
    acts', s' := acts + [a], Do(cfg, s, a);
    StepOfRun(cfg, s0, acts, s, a, s');
  }

  /** The condition of `EngineLoadBounded` is needed: if reconciliation takes the rows of an
      instance that still runs, its user may start another beyond the limit of one. */
  lemma EngineLoadWithoutRows() returns (cfg: Config, s0: State, acts: seq<Action>, s: State)
    ensures Initial(s0) && s == Run(cfg, s0, acts) && cfg == Config(1, 0, {})
    ensures s.engine == map[EngineId(0, "a") := Queued, EngineId(0, "b") := Queued]
    ensures s.outcomes == map[0 := Returned(EngineId(0, "a")), 1 := Returned(EngineId(0, "b"))]
  {
    hide Run, WithinLimits, VisibleIds, OwnIds, LedgerIds, Do, Enabled;
    var a, b := EngineId(0, "a"), EngineId(0, "b");
    cfg, s0 := Config(1, 0, {}), FirstState();
    RunNothing(cfg, s0);
    acts, s := LimitedStart(cfg, s0, [], s0, a);
    acts, s := RowsLost(cfg, s0, acts, s, a);
    acts, s := LimitedStart(cfg, s0, acts, s, b);
  }

  /** One backend between starts, with no row of its user anywhere. */
  predicate IsFresh(s: State) {
    && s.backends == map[1 := Backend(0, {}, map[], Out)]
    && s.visible == map[] && s.ledger == map[]
  }

  lemma FreshIsWithinLimits(cfg: Config, s: State)
    requires cfg == Config(1, 0, {}) && s.ledger == map[]
    ensures WithinLimits(cfg, s, {} + LedgerIds(s, 0, 7))
  {
    assert Active(s, {} + LedgerIds(s, 0, 7)) == {};
  }

  lemma NothingListed(s: State, b: Backend)
    requires s.visible == map[] && b.claimed == map[]
    ensures VisibleIds(s, 0, 7) + OwnIds(b, 7) == {}
  {
  }

  /** A limited start through admission, from nothing. */
  lemma Admitted(cfg: Config, s0: State, before: seq<Action>, s: State) returns (acts: seq<Action>, s': State)
    requires cfg == Config(1, 0, {}) && s == Run(cfg, s0, before) && IsFresh(s)
    ensures s' == Run(cfg, s0, acts)
    ensures s' == s.(backends := map[1 := Backend(0, {7}, map[], Picking(7, s.nextStart, 0))],
                     nextStart := s.nextStart + 1)
  {
    hide Run, WithinLimits, VisibleIds, OwnIds, LedgerIds;
    acts, s' := Then(cfg, s0, before, s, Begin(1, 7));
    acts, s' := Then(cfg, s0, acts, s', Acquire(1));
    NothingListed(s', s'.backends[1]);
    acts, s' := Then(cfg, s0, acts, s', List(1));
    FreshIsWithinLimits(cfg, s');
    acts, s' := Then(cfg, s0, acts, s', Count(1));
  }

  lemma LimitedStart(cfg: Config, s0: State, before: seq<Action>, s: State, c: EngineId)
      returns (acts: seq<Action>, s': State)
    requires cfg == Config(1, 0, {}) && s == Run(cfg, s0, before) && IsFresh(s) && c.db == 0 && c !in s.engine
    ensures s' == Run(cfg, s0, acts) && s'.ledger == map[c := Entry(7, s.nextStart)] && s'.visible == map[]
    ensures s'.backends == map[1 := Backend(0, {7}, map[c := 7], Out)] && s'.engine == s.engine[c := Queued]
    ensures s'.outcomes == s.outcomes[s.nextStart := Returned(c)] && s'.nextStart == s.nextStart + 1
  {
    hide Run, WithinLimits, VisibleIds, OwnIds, LedgerIds;
    acts, s' := Admitted(cfg, s0, before, s);
    acts, s' := Then(cfg, s0, acts, s', Reserve(1, c));
    acts, s' := Then(cfg, s0, acts, s', Claim(1));
    acts, s' := Then(cfg, s0, acts, s', Commit(1));
  }

  /** The caller commits, and reconciliation removes both rows of the running instance. */
  lemma RowsLost(cfg: Config, s0: State, before: seq<Action>, s: State, c: EngineId)
      returns (acts: seq<Action>, s': State)
    requires s == Run(cfg, s0, before) && s.visible == map[] && s.ledger.Keys == {c}
    requires s.backends == map[1 := Backend(0, {7}, map[c := 7], Out)]
    ensures s' == Run(cfg, s0, acts) && IsFresh(s')
    ensures s'.engine == s.engine && s'.outcomes == s.outcomes && s'.nextStart == s.nextStart
  {
    hide Run;
    acts, s' := Then(cfg, s0, before, s, Publish(1));
    acts, s' := Then(cfg, s0, acts, s', Release(1));
    acts, s' := Then(cfg, s0, acts, s', DropRow(c));
    acts, s' := Then(cfg, s0, acts, s', DropLedger(c));
  }

  predicate IsBroken(s: State, x: Session) { x in s.backends && s.backends[x].pc == Broken }

  lemma RunNothing(cfg: Config, s0: State)
    ensures Run(cfg, s0, []) == s0
  {
  }

  lemma StepOfRun(cfg: Config, s0: State, acts: seq<Action>, s: State, a: Action, s': State)
    requires Run(cfg, s0, acts) == s && Enabled(s, a) && Do(cfg, s, a) == s'
    ensures Run(cfg, s0, acts + [a]) == s'
  {
    assert (acts + [a])[..|acts|] == acts;
  }
}
