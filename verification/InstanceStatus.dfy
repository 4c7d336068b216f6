/** The status of one instance under status updates, cancels and waiters
    (src/activities/update_instance_status.rs:14-70, src/dsl.rs:1699-1740,
    src/dsl.rs:1803-1865). */
module InstanceStatus {
  import opened Prelude

  /** The values the table's check constraint admits (src/lib.rs:520). */
  datatype Status = Pending | Running | Completed | Failed | Cancelled

  predicate IsTerminal(s: Status) { s.Completed? || s.Failed? || s.Cancelled? }

  type Time = nat

  datatype Row = Row(status: Status, completedAt: Option<Time>, updatedAt: Time)

  /** A new row is pending and has no completion time. */
  predicate RowOk(r: Row) { r.completedAt.Some? <==> r.status.Completed? }

  type Session = nat

  /** The committed row, unless it has been removed, and the row version written by a
      transaction that has not ended; its row lock keeps every other writer out. */
  datatype State = State(row: Option<Row>, pending: Option<(Session, Row)>)

  /** What a statement of this session sees. */
  function View(s: State, x: Session): Option<Row> {
    if s.pending.Some? && s.pending.value.0 == x then Some(s.pending.value.1) else s.row
  }

  predicate Blocked(s: State, x: Session) { s.pending.Some? && s.pending.value.0 != x }

  /** UPDATE … SET status WHERE the status is not terminal; `completed` also sets the time. */
  function Written(r: Row, status: Status, now: Time): Row {
    if status.Completed? then Row(status, Some(now), now) else r.(status := status, updatedAt := now)
  }

  function Updated(s: State, x: Session, status: Status, now: Time): State {
    var r := View(s, x);
    if r.None? || IsTerminal(r.value.status) then s
    else s.(pending := Some((x, Written(r.value, status, now))))
  }

  datatype Step =
    | Update(status: Status, now: Time)     // by the activity; a cancel is Update(Cancelled, now)
    | Commit | Abort
    | Remove

  predicate Enabled(s: State, x: Session, step: Step) {
    match step
    case Update(_, _) => !Blocked(s, x)
    case Commit => s.pending.Some? && s.pending.value.0 == x
    case Abort => s.pending.Some? && s.pending.value.0 == x
    case Remove => s.pending.None?
  }

  function Do(s: State, x: Session, step: Step): State
    requires Enabled(s, x, step)
  {
    match step
    case Update(status, now) => Updated(s, x, status, now)
    case Commit => State(Some(s.pending.value.1), None)
    case Abort => s.(pending := None)
    case Remove => State(None, None)
  }

  /** The completion time is there exactly on a completed row, and nobody has written over a
      committed terminal row or a missing one. */
  predicate Inv(s: State) {
    && (s.row.Some? ==> RowOk(s.row.value))
    && (s.pending.Some? ==> RowOk(s.pending.value.1) && s.row.Some? && !IsTerminal(s.row.value.status))
  }

  ghost predicate Next(s: State, s': State) { exists x, step :: Enabled(s, x, step) && Do(s, x, step) == s' }

  lemma NextKeeps(s: State, s': State)
    requires Inv(s) && Next(s, s')
    ensures Inv(s')
    ensures s.row.Some? && IsTerminal(s.row.value.status) ==> s'.row == s.row || s'.row == None
    ensures s.row.None? ==> s'.row.None?
  {
  }

  /** A run of updates, cancels, commits and rollbacks by any sessions. */
  ghost predicate IsRun(trace: seq<State>) {
    |trace| > 0 && Inv(trace[0]) && forall i: nat :: i < |trace| - 1 ==> Next(trace[i], trace[i + 1])
  }

  lemma {:induction false} RunKeepsInv(trace: seq<State>, i: nat)
    requires IsRun(trace) && i < |trace|
    ensures Inv(trace[i])
  {
    if i > 0 {
      RunKeepsInv(trace, i - 1);
      hide Inv, Next;
      var j: nat := i - 1;
      assert Next(trace[j], trace[j + 1]);
      NextKeeps(trace[j], trace[j + 1]);
    }
  }

  /** The first terminal row to be committed is final: status, completion time and update time
      never change again, up to the removal of the row. */
  lemma {:induction false} TerminalIsPermanent(trace: seq<State>, i: nat, j: nat)
    requires IsRun(trace) && i <= j < |trace|
    requires trace[i].row.Some? && IsTerminal(trace[i].row.value.status)
    ensures trace[j].row == trace[i].row || trace[j].row == None
  {
    if i < j {
      TerminalIsPermanent(trace, i, j - 1);
      RunKeepsInv(trace, j - 1);
      var k: nat := j - 1;
      assert Next(trace[k], trace[k + 1]);
      NextKeeps(trace[k], trace[k + 1]);
    }
  }

  /** In so many words: a committed completed, failed or cancelled row never changes again. */
  lemma EndedNeverChanges(trace: seq<State>, i: nat, j: nat)
    requires IsRun(trace) && i <= j < |trace| && trace[i].row.Some?
    requires trace[i].row.value.status in {Completed, Failed, Cancelled}
    ensures trace[j].row == trace[i].row || trace[j].row == None
  {
    TerminalIsPermanent(trace, i, j);
  }

  /** And no other row is protected: every pending or running row can be given every status. */
  lemma OpenRowCanChange(s: State, x: Session, status: Status, now: Time)
    requires s.row.Some? && s.row.value.status in {Pending, Running} && s.pending.None?
    ensures var s' := Do(Do(s, x, Update(status, now)), x, Commit);
            s'.row == Some(Row(status, if status == Completed then Some(now) else s.row.value.completedAt, now))
  {
  }

  lemma {:induction false} RemovedStaysRemoved(trace: seq<State>, i: nat, j: nat)
    requires IsRun(trace) && i <= j < |trace| && trace[i].row.None?
    ensures trace[j].row.None?
  {
    if i < j {
      RemovedStaysRemoved(trace, i, j - 1);
      RunKeepsInv(trace, j - 1);
      var k: nat := j - 1;
      assert Next(trace[k], trace[k + 1]);
      NextKeeps(trace[k], trace[k + 1]);
    }
  }

  /** `completed_at` is set exactly when the status is `completed`, for every reader. */
  lemma CompletedAtIff(trace: seq<State>, i: nat, x: Session)
    requires IsRun(trace) && i < |trace| && View(trace[i], x).Some?
    ensures View(trace[i], x).value.completedAt.Some? <==> View(trace[i], x).value.status.Completed?
  {
    RunKeepsInv(trace, i);
  }

  /** `x` reads what its own unfinished transaction wrote. */
  predicate ReadsOwn(s: State, x: Session) { s.pending.Some? && s.pending.value.0 == x }

  predicate SeesTerminal(s: State, x: Session) { View(s, x).Some? && IsTerminal(View(s, x).value.status) }

  /** What two waiters see as terminal is the same, however far apart they look, unless the
      first reads what its own unfinished transaction wrote. */
  lemma WaitersAgree(trace: seq<State>, i: nat, j: nat, x: Session, y: Session)
    requires IsRun(trace) && i <= j < |trace|
    requires SeesTerminal(trace[i], x) && SeesTerminal(trace[j], y) && !ReadsOwn(trace[i], x)
    ensures View(trace[j], y) == View(trace[i], x) == trace[j].row
  {
    TerminalIsPermanent(trace, i, j);
    RunKeepsInv(trace, j);
    if trace[j].row.None? {
      assert trace[j].pending.None?;
    }
  }

  /** Whatever happens from here on, everybody who sees a terminal row sees what `x` sees now. */
  ghost predicate IsFinal(s: State, x: Session) {
    forall trace: seq<State>, j: nat, y: Session ::
      IsRun(trace) && trace[0] == s && j < |trace| && SeesTerminal(trace[j], y) ==>
      View(trace[j], y) == View(s, x)
  }

  /** A terminal row is final if and only if it is not the reader's own unfinished write. */
  lemma FinalUnlessOwn(s: State, x: Session)
    requires Inv(s) && SeesTerminal(s, x)
    ensures IsFinal(s, x) <==> !ReadsOwn(s, x)
  {
    if ReadsOwn(s, x) {
      var trace := OwnWriteMayVanish(s, x);
      assert SeesTerminal(trace[3], x);
    } else {
      hide View, Inv;
      forall trace: seq<State>, j: nat, y: Session | IsRun(trace) && trace[0] == s && j < |trace|
        && SeesTerminal(trace[j], y)
        ensures View(trace[j], y) == View(s, x)
      {
        WaitersAgree(trace, 0, j, x, y);
      }
    }
  }

  /** From every state in which a session sees its own unfinished terminal write, a run leads
      to a committed terminal row of another status: it rolls back, another session writes. */
  lemma OwnWriteMayVanish(s: State, x: Session) returns (trace: seq<State>)
    requires Inv(s) && ReadsOwn(s, x) && SeesTerminal(s, x)
    ensures IsRun(trace) && |trace| == 4 && trace[0] == s
    ensures trace[3].row.Some? && trace[3].pending.None? && IsTerminal(trace[3].row.value.status)
    ensures trace[3].row.value.status != View(s, x).value.status
  {
    var status := if View(s, x).value.status.Completed? then Failed else Completed;
    var other := x + 1;
    var undone := Do(s, x, Abort);
    var wrote := Do(undone, other, Update(status, 0));
    var done := Do(wrote, other, Commit);
    trace := [s, undone, wrote, done];
    assert Next(s, undone) && Next(undone, wrote) && Next(wrote, done);
  }

  /** So it goes for a cancel: a session that cancels and waits in one transaction is told
      `cancelled`; after its rollback the instance ends otherwise. */
  lemma OwnCancelMayVanish()
    ensures exists trace: seq<State>, x: Session {:trigger Told(trace, x)} ::
              IsRun(trace) && Told(trace, x)
  {
    var row := Row(Running, None, 0);
    var start := State(Some(row), None);
    var wrote := Do(start, 1, Update(Cancelled, 1));
    assert Next(start, wrote);
    var rest := OwnWriteMayVanish(wrote, 1);
    var trace := [start] + rest;
    forall i: nat | i < |trace| - 1 ensures Next(trace[i], trace[i + 1]) {
      if i > 0 { assert Next(rest[i - 1], rest[i]); }
    }
    assert Told(trace, 1);
  }

  predicate Told(trace: seq<State>, x: Session) {
    && |trace| == 5 && trace[0].row == Some(Row(Running, None, 0)) && trace[0].pending.None?
    && View(trace[1], x).Some? && View(trace[1], x).value.status.Cancelled?
    && trace[4].row.Some? && IsTerminal(trace[4].row.value.status) && !trace[4].row.value.status.Cancelled?
  }

  /** A step of another session, as one session sees it: its own unfinished write stays, and
      none appears that it did not make. */
  lemma OthersStep(s: State, x: Session, step: Step, me: Session)
    requires Inv(s) && Enabled(s, x, step) && x != me
    ensures s.pending.Some? && s.pending.value.0 == me ==> Do(s, x, step) == s
    ensures Do(s, x, step).pending.Some? && Do(s, x, step).pending.value.0 == me ==> Do(s, x, step) == s
  {
  }

  // ----- the code -----

  type i32 = n: int | -0x8000_0000 <= n < 0x8000_0000

  /** The product as 32-bit arithmetic gives it in an optimised build. */
  function TimesTen(t: i32): (r: i32)
    ensures (10 * t - r) % 4294967296 == 0
  {
    var low := (t * 10) % 0x1_0000_0000;
    if low < 0x8000_0000 then low else low - 0x1_0000_0000
  }

  /** How often a waiter looks before it gives up. */
  function Polls(t: i32): nat { if TimesTen(t) < 1 then 1 else TimesTen(t) }

  /** The timeout is honoured, at ten looks a second, exactly for those that do not overflow. */
  lemma TimeoutHonoured(t: i32)
    requires t > 0
    ensures Polls(t) == 10 * t <==> t <= 214_748_364
  {
  }

  datatype WaitError = BadTimeout | InsideWorkflow | QueryFailed | NotFound | TimedOut

  class Instance {
    var s: State
    ghost var faults: nat     // failed statements, lock waits and commits so far
    ghost var looks: seq<Option<Row>>   // what the status queries of waiters found so far

    constructor (now: Time)
      ensures Inv(s) && s == State(Some(Row(Pending, None, now)), None)
    {
      s := State(Some(Row(Pending, None, now)), None);
    }

    predicate Mine(x: Session)
      reads this
    {
      ReadsOwn(s, x)
    }

    /** Other sessions take any number of steps; what this session has written stays. */
    method Others(me: Session)
      requires Inv(s)
      modifies this`s
      ensures Inv(s) && (old(Mine(me)) || Mine(me) ==> s == old(s))
      ensures old(s).row.Some? && IsTerminal(old(s).row.value.status) ==> s.row == old(s).row || s.row == None
    {
      hide Inv;
      var schedule: seq<(Session, Step)> := *;
      for i := 0 to |schedule|
        invariant Inv(s) && (old(Mine(me)) || Mine(me) ==> s == old(s))
        invariant old(s).row.Some? && IsTerminal(old(s).row.value.status) ==> s.row == old(s).row || s.row == None
      {
        var (x, step) := schedule[i];
        if x != me && Enabled(s, x, step) {
          assert Next(s, Do(s, x, step));
          NextKeeps(s, Do(s, x, step));
          OthersStep(s, x, step, me);
          s := Do(s, x, step);
        }
      }
    }

    /** Whether the next statement or commit fails. */
    method Fails() returns (fails: bool)
      modifies this`faults
      ensures faults == old(faults) + (if fails then 1 else 0)
    {
      fails := *;
      faults := faults + (if fails then 1 else 0);
    }

    /** Waiting for the row lock; giving up is an error of the statement. */
    method WaitForLock(me: Session) returns (ok: bool)
      requires Inv(s)
      modifies this
      ensures Inv(s) && (old(Mine(me)) || Mine(me) ==> s == old(s))
      ensures if ok then !Blocked(s, me) && faults == old(faults) else faults == old(faults) + 1
    {
      Others(me);
      var fails := Fails();
      if !fails && Blocked(s, me) {
        faults := faults + 1;       // the lock timeout
        return false;
      }
      ok := !fails;
    }

    /** The status activity: one guarded update in its own transaction. A terminal or missing
        row is left alone. Any other has the new status on success; after a failure it may
        have it too, for the acknowledgement of a commit can be lost. `before` is the row
        when the update ran. */
    method Execute(me: Session, status: Status, now: Time) returns (ok: bool, ghost before: Option<Row>)
      requires Inv(s) && !Mine(me)
      modifies this
      ensures Inv(s) && !Mine(me) && (ok <==> faults == old(faults))
      ensures before.None? || before.value.status in {Completed, Failed, Cancelled} ==> s.row == before
      ensures before.Some? && before.value.status in {Pending, Running} ==>
                var after := Row(status, if status.Completed? then Some(now) else before.value.completedAt, now);
                s.row == Some(after) || (!ok && s.row == before)
    {
      var locked := WaitForLock(me);
      before := s.row;
      if !locked {
        return false, before;
      }
      s := Updated(s, me, status, now);
      var lost := Fails();
      var commits: bool := *;
      if s.pending.Some? {
        s := if commits || !lost then State(Some(s.pending.value.1), None) else s.(pending := None);
      }
      ok := !lost;
    }

    /** `cancel`: the row is written in the caller's transaction, and only if the engine took
        the request and the row is not terminal. `before` is the row when the update ran. */
    method Cancel(me: Session, now: Time) returns (accepted: bool, ghost before: Option<Row>)
      requires Inv(s)
      modifies this
      ensures Inv(s)
      ensures accepted ==> (before.None? || before.value.status in {Completed, Failed, Cancelled}) ==>
              View(s, me) == before
      ensures accepted && before.Some? && before.value.status in {Pending, Running} ==>
                && View(s, me).Some?
                && (View(s, me) == before || View(s, me).value == before.value.(status := Cancelled, updatedAt := now))
                && (faults == old(faults) ==> View(s, me).value.status == Cancelled)
      ensures !accepted && (old(Mine(me)) || Mine(me)) ==> s == old(s)
      ensures !accepted && faults == old(faults) ==> View(s, me).None?
    {
      Others(me);
      before := View(s, me);
      var queryFails := Fails();
      if queryFails || View(s, me).None? {
        return false, before;
      }
      var refused := Fails();
      if refused {
        return false, before;
      }
      var locked := WaitForLock(me);
      before := View(s, me);
      if locked {
        s := Updated(s, me, Cancelled, now);     // otherwise only a warning
      }
      accepted := true;
    }

    /** One poll: a query in a fresh snapshot. */
    method Look(me: Session) returns (r: Result<Option<Row>, WaitError>)
      requires Inv(s)
      modifies this
      ensures Inv(s) && looks == old(looks) + (if r.Ok? then [View(s, me)] else [])
      ensures r.Ok? ==> r.value == View(s, me) && faults == old(faults)
      ensures r.Err? ==> r.error.QueryFailed? && faults == old(faults) + 1
    {
      Others(me);
      var fails := Fails();
      looks := if fails then looks else looks + [View(s, me)];
      r := if fails then Err(QueryFailed) else Ok(View(s, me));
    }

    /** `await_instance`: it looks until a look finds no row, or a completed, failed or cancelled
        one, whose status is the answer; or until a query fails, or all looks the timeout allows
        have found the row pending or running. */
    method Await(me: Session, timeout: i32, inWorkflow: bool) returns (r: Result<Status, WaitError>)
      requires Inv(s)
      modifies this
      ensures Inv(s) && old(looks) <= looks
      ensures r.Err? && r.error.InsideWorkflow? <==> inWorkflow
      ensures r.Err? && r.error.BadTimeout? <==> !inWorkflow && timeout <= 0
      ensures r.Err? && r.error.QueryFailed? <==> faults > old(faults)
      ensures (inWorkflow || timeout <= 0) ==> looks == old(looks)
      ensures |looks| - |old(looks)| <= Polls(timeout)
      // every look but the last, and the last of a timeout, finds an unfinished row
      ensures forall k :: |old(looks)| <= k < |looks| && (k < |looks| - 1 || (r.Err? && !r.error.NotFound?)) ==>
                looks[k].Some? && looks[k].value.status in {Pending, Running}
      ensures r.Ok? ==>
                && |looks| > |old(looks)| && looks[|looks| - 1] == View(s, me) && View(s, me).Some?
                && View(s, me).value.status == r.value && r.value in {Completed, Failed, Cancelled}
      ensures r.Ok? && !Mine(me) ==> s.row.Some? && s.row.value.status == r.value
      ensures r.Err? && r.error.NotFound? ==> |looks| > |old(looks)| && looks[|looks| - 1] == View(s, me) == None
      ensures r.Err? && r.error.TimedOut? ==> |looks| - |old(looks)| == Polls(timeout)
    {
      if inWorkflow {
        return Err(InsideWorkflow);
      }
      if timeout <= 0 {
        return Err(BadTimeout);
      }
      var maxAttempts := TimesTen(timeout);
      var attempts: i32 := 0;
      while true
        invariant Inv(s) && faults == old(faults) && old(looks) <= looks
        invariant attempts == |looks| - |old(looks)| && (attempts == 0 || attempts < maxAttempts)
        invariant forall k :: |old(looks)| <= k < |looks| ==>
                  looks[k].Some? && looks[k].value.status in {Pending, Running}
        decreases Polls(timeout) - attempts
      {
        var row := Look(me);
        if row.Err? {
          return Err(row.error);
        }
        if row.value.None? {
          return Err(NotFound);
        }
        if IsTerminal(row.value.value.status) {
          return Ok(row.value.value.status);
        }
        attempts := attempts + 1;
        if attempts >= maxAttempts {
          return Err(TimedOut);
        }
      }
    }
  }
}
