/** The code of `df.start()` in the caller's transaction (src/dsl.rs:1371-1698), run against a
    world that other backends, the engine and reconciliation change between any two of its
    calls. Everything it does is a run of the protocol in `Submission`. */
module StartFlow {
  import opened Prelude
  import opened Submission
  import Ledger
  import Admission

  /** The shared database. `log` records every step taken since the initial state. */
  class World {
    const cfg: Config
    ghost const initial: State
    var state: State
    ghost var log: seq<Action>
    ghost var faults: nat      // failed statements, lock waits and lost acknowledgements so far

    constructor (cfg: Config, s0: State)
      requires Initial(s0)
      ensures Valid() && state == s0 && this.cfg == cfg && log == []
    {
      this.cfg := cfg;
      initial, state := s0, s0;
      log := [];
    }

    ghost predicate Valid()
      reads this
    {
      Initial(initial) && state == Run(cfg, initial, log)
    }

    /** One atomic step. */
    method Take(a: Action)
      requires Valid() && Enabled(state, a)
      modifies this`state, this`log
      ensures Valid() && log == old(log) + [a] && state == Do(cfg, old(state), a)
      ensures forall y :: Attempts(log, y) == Attempts(old(log), y) + (if a.Reserve? && a.x == y then 1 else 0)
    {
      state := Do(cfg, state, a);
      log := log + [a];
      assert log[..|log| - 1] == old(log);
    }

    /** Everybody but `x` may take any number of steps here. */
    method Others(x: Session)
      requires Valid()
      modifies this`state, this`log
      ensures Valid() && OnlyOthers(old(log), log, x) && Attempts(log, x) == Attempts(old(log), x)
      ensures x in old(state).backends ==> x in state.backends && state.backends[x] == old(state).backends[x]
    {
      hide Run, Initial, Do, Attempts;
      var schedule: seq<Action> := *;
      for i := 0 to |schedule|
        invariant Valid() && OnlyOthers(old(log), log, x) && Attempts(log, x) == Attempts(old(log), x)
        invariant x in old(state).backends ==> x in state.backends && state.backends[x] == old(state).backends[x]
      {
        var a := schedule[i];
        if Actor(a) != Some(x) && Enabled(state, a) {
          if x in state.backends { StepLeavesBackend(cfg, state, a, x); }
          Take(a);
        }
      }
    }

    /** Whether the next statement, lock wait or commit fails. */
    method Fails() returns (fails: bool)
      modifies this`faults
      ensures faults == old(faults) + (if fails then 1 else 0)
    {
      fails := *;
      faults := faults + (if fails then 1 else 0);
    }

    /** The same before a step that may also have to wait, and times out if it does. */
    method FailsBefore(a: Action) returns (fails: bool)
      modifies this`faults
      ensures faults == old(faults) + (if fails then 1 else 0)
      ensures !fails ==> Enabled(state, a)
    {
      fails := Fails();
      if !fails && !Enabled(state, a) {
        faults := faults + 1;
        fails := true;
      }
    }
  }

  /** How many candidates `x` has tried to reserve. */
  ghost function Attempts(log: seq<Action>, x: Session): nat {
    if log == [] then 0
    else
      var last := log[|log| - 1];
      Attempts(log[..|log| - 1], x) + (if last.Reserve? && last.x == x then 1 else 0)
  }

  /** In the run, from some step on, `x` tried the candidate, and the ledger or the local table
      had it. */
  ghost predicate Collided(cfg: Config, s0: State, log: seq<Action>, from: nat, x: Session, c: EngineId) {
    exists i :: from <= i < |log| &&
      CollidedAt(log[i], Run(cfg, s0, log[..i]), x, c)
  }

  predicate CollidedAt(a: Action, s: State, x: Session, c: EngineId) {
    || (a == Reserve(x, c) && c in s.ledger)
    || (a == Claim(x) && x in s.backends && (c in s.visible || c in s.backends[x].claimed))
  }

  /** `log'` continues `log` with steps of others than `x`. */
  ghost predicate OnlyOthers(log: seq<Action>, log': seq<Action>, x: Session) {
    log <= log' && forall i :: |log| <= i < |log'| ==> Actor(log'[i]) != Some(x)
  }

  /** Steps of others leave a backend where it was, which is what `World.Others` promises. */
  lemma {:induction false} OthersLeaveBackend(cfg: Config, s0: State, log: seq<Action>, log': seq<Action>, x: Session)
    requires OnlyOthers(log, log', x) && x in Run(cfg, s0, log).backends
    ensures var s, s' := Run(cfg, s0, log), Run(cfg, s0, log');
            x in s'.backends && s'.backends[x] == s.backends[x]
  {
    if |log'| > |log| {
      var before := log'[..|log'| - 1];
      OthersLeaveBackend(cfg, s0, log, before, x);
      StepLeavesBackend(cfg, Run(cfg, s0, before), log'[|log'| - 1], x);
    } else {
      assert log == log';
    }
  }

  lemma StepLeavesBackend(cfg: Config, s: State, a: Action, x: Session)
    requires Actor(a) != Some(x) && x in s.backends
    ensures var s' := Step(cfg, s, a); x in s'.backends && s'.backends[x] == s.backends[x]
  {
    hide WithinLimits, VisibleIds, OwnIds, LedgerIds, LockFree, ReservedElsewhere, ClaimedElsewhere, Limited;
  }

  /** `start` has failed, and its backend's transaction is aborted. */
  predicate HasFailed(s: State, x: Session, start: nat) {
    x in s.backends && s.backends[x].pc.Broken? && start in s.outcomes && !s.outcomes[start].Returned?
  }

  method FailStart(w: World, x: Session, ghost start: nat)
    requires w.Valid() && x in w.state.backends && StartOf(w.state.backends[x].pc) == Some(start)
    modifies w`state, w`log
    ensures w.Valid() && w.log == old(w.log) + [Fail(x)] && Attempts(w.log, x) == Attempts(old(w.log), x)
            && HasFailed(w.state, x, start) && w.state.outcomes[start].Failed?
    ensures w.state.backends[x].db == old(w.state.backends[x].db)
    ensures w.state.ledger == old(w.state.ledger) && w.state.engine == old(w.state.engine)
  {
    w.Take(Fail(x));
  }

  /** The source's claim closure: reserve the candidate in the ledger, then claim it locally. */
  method TryClaim(w: World, x: Session, candidate: EngineId, ghost u: User, ghost start: nat, ghost attempt: nat)
      returns (r: Result<bool, string>)
    requires w.Valid() && x in w.state.backends && w.state.backends[x].pc == Picking(u, start, attempt)
    requires attempt < MAX_ID_ATTEMPTS && candidate.db == w.state.backends[x].db
    modifies w
    ensures w.Valid() && old(w.log) <= w.log && x in w.state.backends
            && w.state.backends[x].db == old(w.state.backends[x].db)
    ensures r.Ok? ==>
            w.state.backends[x].pc == if r.value then Claimed(u, start, candidate) else Picking(u, start, attempt + 1)
    ensures r.Ok? ==> Attempts(w.log, x) == Attempts(old(w.log), x) + 1
    ensures r == Ok(false) ==> Collided(w.cfg, w.initial, w.log, |old(w.log)|, x, candidate)
    ensures r.Err? ==> HasFailed(w.state, x, start) && w.state.outcomes[start].Failed?
    ensures w.faults >= old(w.faults) && (r.Err? <==> w.faults > old(w.faults))
  {
    hide Run, Initial, Attempts;
    w.Others(x);
    // a lock timeout while another transaction holds the identifier, or any other error
    var reserveFails := w.FailsBefore(Reserve(x, candidate));
    if reserveFails {
      FailStart(w, x, start);
      return Err("reservation failed");
    }
    label reserving:
    w.Take(Reserve(x, candidate));
    assert w.log[..|old@reserving(w.log)|] == old@reserving(w.log);
    if w.state.backends[x].pc.Picking? {
      r := ReleaseReservation(w, x, start);
      return;
    }
    w.Others(x);
    var claimFails := w.FailsBefore(Claim(x));
    if claimFails {
      FailStart(w, x, start);
      return Err("claim failed");
    }
    label claiming:
    w.Take(Claim(x));
    assert w.log[..|old@claiming(w.log)|] == old@claiming(w.log);
    if w.state.backends[x].pc.Picking? {
      r := ReleaseReservation(w, x, start);
      return;
    }
    r := Ok(true);
  }

  /** After a collision the reservation's transaction is rolled back, which may fail. */
  method ReleaseReservation(w: World, x: Session, ghost start: nat) returns (r: Result<bool, string>)
    requires w.Valid() && x in w.state.backends && StartOf(w.state.backends[x].pc) == Some(start)
    modifies w
    ensures w.Valid() && old(w.log) <= w.log && x in w.state.backends
            && w.state.backends[x].db == old(w.state.backends[x].db)
    ensures w.faults == old(w.faults) + (if r.Err? then 1 else 0)
    ensures r.Ok? ==> !r.value && w.state == old(w.state) && w.log == old(w.log)
    ensures r.Err? ==> HasFailed(w.state, x, start) && w.state.outcomes[start].Failed?
  {
    var fails := w.Fails();
    if fails {
      FailStart(w, x, start);
      return Err("failed to release submission reservation");
    }
    r := Ok(false);
  }

  /** `pick_id_with_retry`: re-roll on a collision, give up on any error or after ten
      collisions. */
  method PickId(w: World, x: Session, u: User, ghost start: nat) returns (r: Result<EngineId, string>)
    requires w.Valid() && x in w.state.backends && w.state.backends[x].pc == Picking(u, start, 0)
    modifies w
    ensures w.Valid() && old(w.log) <= w.log && x in w.state.backends && w.faults >= old(w.faults)
    ensures r.Ok? ==> w.state.backends[x].pc == Claimed(u, start, r.value) && w.faults == old(w.faults)
    ensures r.Err? ==> HasFailed(w.state, x, start) && w.state.outcomes[start].Failed?
    ensures r.Err? && w.faults == old(w.faults) ==> Attempts(w.log, x) == Attempts(old(w.log), x) + 10
  {
    hide Run, Do, Initial, Attempts;
    for attempt := 0 to MAX_ID_ATTEMPTS
      invariant w.Valid() && old(w.log) <= w.log && x in w.state.backends
      invariant w.state.backends[x].pc == Picking(u, start, attempt)
      invariant w.faults == old(w.faults) && Attempts(w.log, x) == Attempts(old(w.log), x) + attempt
    {
      var local: string := *;
      var candidate := EngineId(w.state.backends[x].db, local);
      var claimed := TryClaim(w, x, candidate, u, start, attempt);
      if claimed.Err? {
        return Err(claimed.error);
      }
      if claimed.value {
        return Ok(candidate);
      }
    }
    FailStart(w, x, start);
    r := Err("exhausted attempts to generate a collision-free ID");
  }

  /** `acquire_instance_quota_lock`: the wait may be cancelled. */
  method LockAdmission(w: World, x: Session, u: User, ghost start: nat) returns (locked: bool)
    requires w.Valid() && x in w.state.backends && w.state.backends[x].pc == Waiting(u, start)
    modifies w
    ensures w.Valid() && old(w.log) <= w.log && x in w.state.backends
    ensures locked ==> w.state.backends[x].pc == Locked(u, start)
    ensures !locked ==> HasFailed(w.state, x, start) && w.state.outcomes[start].Failed?
    ensures w.faults >= old(w.faults) && (locked <==> w.faults == old(w.faults))
            && Attempts(w.log, x) == Attempts(old(w.log), x)
  {
    hide Run, Initial, Attempts;
    w.Others(x);
    var waitFails := w.FailsBefore(Acquire(x));
    if waitFails {
      FailStart(w, x, start);
      return false;
    }
    w.Take(Acquire(x));
    locked := true;
  }

  /** `current_instance_ids`, then `submission_counts` at a later moment. */
  method CountInstances(w: World, x: Session, u: User, ghost start: nat) returns (admitted: bool)
    requires w.Valid() && x in w.state.backends && w.state.backends[x].pc == Locked(u, start)
    requires u !in w.cfg.superusers
    modifies w
    ensures w.Valid() && old(w.log) <= w.log && x in w.state.backends
    ensures admitted ==> w.state.backends[x].pc == Picking(u, start, 0)
    ensures !admitted ==> HasFailed(w.state, x, start) && w.state.outcomes[start].Failed?
    ensures w.faults >= old(w.faults) && (admitted ==> w.faults == old(w.faults))
            && Attempts(w.log, x) == Attempts(old(w.log), x)
    ensures !admitted && w.faults == old(w.faults) ==> Admission.Rejected(w.cfg, w.initial, w.log, |old(w.log)|, x, u)
  {
    hide Run, Initial, Attempts, VisibleIds, OwnIds, LedgerIds, WithinLimits, Admission.AtLimit, Admission.LocalRows;
    label listing:
    Admission.ListReadsLocalRows(w.cfg, w.state, x);
    w.Take(List(x));
    assert w.log[..|old@listing(w.log)|] == old@listing(w.log);
    w.Others(x);
    var lookupFails := w.Fails();
    if lookupFails {
      FailStart(w, x, start);
      return false;
    }
    label counting:
    Admission.CountDecides(w.cfg, w.state, x);
    w.Take(Count(x));
    assert w.log[..|old@listing(w.log)|] == old@listing(w.log);
    assert w.log[..|old@counting(w.log)|] == old@counting(w.log);
    admitted := w.state.backends[x].pc.Picking?;
    if !admitted {
      assert Admission.RejectedAt(w.cfg, old@listing(w.state), old@counting(w.state), x, u);
      assert w.log[|old@listing(w.log)|] == List(x) && w.log[|old@counting(w.log)|] == Count(x);
    }
  }

  /** `enforce_instance_limits` for the running start. */
  method EnforceLimits(w: World, x: Session, u: User, ghost start: nat) returns (admitted: bool)
    requires w.Valid() && x in w.state.backends
    requires w.state.backends[x].pc == (if Limited(w.cfg, u) then Waiting(u, start) else Picking(u, start, 0))
    modifies w
    ensures w.Valid() && old(w.log) <= w.log && x in w.state.backends
    ensures admitted ==> w.state.backends[x].pc == Picking(u, start, 0)
    ensures !admitted ==> HasFailed(w.state, x, start) && w.state.outcomes[start].Failed?
    ensures w.faults >= old(w.faults) && (admitted ==> w.faults == old(w.faults))
            && Attempts(w.log, x) == Attempts(old(w.log), x)
    ensures !admitted && w.faults == old(w.faults) ==> Admission.Rejected(w.cfg, w.initial, w.log, |old(w.log)|, x, u)
  {
    hide Run, Do, Initial, Attempts;
    admitted := true;
    if w.state.backends[x].pc.Waiting? {
      admitted := LockAdmission(w, x, u, start);
      if admitted {
        w.Others(x);
        admitted := CountInstances(w, x, u, start);
      }
    }
  }

  /** `PendingSubmission::enqueue`: joint commit, an error before it, or a lost acknowledgement. */
  method EnqueueSubmission(w: World, x: Session, ghost start: nat) returns (ok: bool)
    requires w.Valid() && x in w.state.backends && w.state.backends[x].pc.Claimed?
             && w.state.backends[x].pc.start == start
    modifies w
    ensures w.Valid() && old(w.log) <= w.log
    ensures ok ==> Enabled(old(w.state), Commit(x)) && w.state == Do(w.cfg, old(w.state), Commit(x))
    ensures !ok ==> HasFailed(w.state, x, start)
    ensures w.faults >= old(w.faults) && (ok <==> w.faults == old(w.faults))
  {
    var enqueueFails := w.Fails();
    if enqueueFails {
      FailStart(w, x, start);
      return false;
    }
    var commitUnacknowledged := w.Fails();
    if commitUnacknowledged {
      w.Take(CommitLost(x));
      return false;
    }
    w.Take(Commit(x));
    ok := true;
  }

  /** `start_in_caller_transaction`. On success the identifier is claimed, reserved and
      enqueued; on failure the start has left nothing, unless its commit went through
      unacknowledged. Without faults it fails only at a limit or after ten collisions. */
  method StartInCallerTransaction(w: World, x: Session, u: User) returns (r: Result<EngineId, string>)
    requires w.Valid() && x in w.state.backends && w.state.backends[x].pc.Out?
    modifies w
    ensures w.Valid() && old(w.log) <= w.log && x in w.state.backends
    ensures r.Ok? ==>
              && w.state.backends[x].pc.Out?
              && r.value in w.state.backends[x].claimed && w.state.backends[x].claimed[r.value] == u
              && r.value in w.state.ledger && w.state.ledger[r.value] == Entry(u, old(w.state.nextStart))
              && r.value in w.state.engine && Ledger.EnqueuedBy(w.state, r.value, old(w.state.nextStart))
              && (r.value !in w.state.reconciled ==> w.state.engine[r.value] == Queued)
    ensures r.Err? ==> HasFailed(w.state, x, old(w.state.nextStart))
    ensures r.Err? && w.state.outcomes[old(w.state.nextStart)].Failed? ==>
              && (forall id :: !Ledger.EnqueuedBy(w.state, id, old(w.state.nextStart)))
              && (forall id :: id in w.state.ledger ==> w.state.ledger[id].start != old(w.state.nextStart))
    ensures r.Err? && w.faults == old(w.faults) ==>
              || (Attempts(w.log, x) == Attempts(old(w.log), x) &&
                  Admission.Rejected(w.cfg, w.initial, w.log, |old(w.log)|, x, u))
              || Attempts(w.log, x) == Attempts(old(w.log), x) + 10
  {
    hide Run, Attempts, Ledger.HistoryOk, IdsOk;
    ghost var start := w.state.nextStart;
    w.Take(Begin(x, u));
    var admitted := EnforceLimits(w, x, u, start);
    if !admitted {
      Ledger.FailedStartLeavesNothing(w.cfg, w.initial, w.log, start);
      return Err("limit reached");
    }
    r := PickId(w, x, u, start);
    if r.Err? {
      Ledger.FailedStartLeavesNothing(w.cfg, w.initial, w.log, start);
      return;
    }
    w.Others(x);
    var insertFails := w.Fails();   // nodes, variables and the transaction id
    if insertFails {
      FailStart(w, x, start);
      Ledger.FailedStartLeavesNothing(w.cfg, w.initial, w.log, start);
      return Err("failed to insert node batch");
    }
    Ledger.HistoryOfRun(w.cfg, w.initial, w.log);
    Ledger.ReturnedIsStarted(w.cfg, w.state, x);
    var ok := EnqueueSubmission(w, x, start);
    if !ok {
      Ledger.FailedStartLeavesNothing(w.cfg, w.initial, w.log, start);
      r := Err("failed to start durable function");
    }
  }
}
