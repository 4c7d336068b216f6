/** Launch slots: a bounded number of loopback sessions, by one session-level advisory lock
    object a slot (src/dsl.rs:1192-1259). */
module LaunchSlots {
  import opened Prelude

  type Session = nat

  /** Where a session is in its launch: outside, about to try a slot, or with its guard. */
  datatype Pc = Idle | Trying(slot: nat) | Holding(slot: nat)

  /** An advisory lock belongs to a session, which may take it more than once. */
  datatype Lock = Lock(session: Session, count: nat)

  /** `leaks` counts the unlocks that failed, by session and slot, while the session lasts; the
      guard ignores such a failure. The limit is fixed at server start. */
  datatype State = State(limit: nat, locks: map<nat, Lock>, pc: map<Session, Pc>, leaks: map<(Session, nat), nat>)

  function PcOf(s: State, x: Session): Pc { if x in s.pc then s.pc[x] else Idle }

  predicate Owns(s: State, x: Session, k: nat) { k in s.locks && s.locks[k].session == x }

  /** How often the session has the slot locked. */
  function Count(s: State, x: Session, k: nat): nat { if Owns(s, x, k) then s.locks[k].count else 0 }

  function Leaks(s: State, x: Session, k: nat): nat { if (x, k) in s.leaks then s.leaks[(x, k)] else 0 }

  function Guards(s: State, x: Session, k: nat): nat { if PcOf(s, x) == Holding(k) then 1 else 0 }

  /** Every lock is accounted for: once by the guard that holds it, and once by every unlock
      that failed. */
  ghost predicate Inv(s: State) {
    && (forall k :: k in s.locks ==> k < s.limit && s.locks[k].count > 0)
    && (forall x :: x in s.pc && s.pc[x].Trying? ==> s.pc[x].slot <= s.limit)
    && Balanced(s)
  }

  ghost predicate Balanced(s: State) { forall x, k :: Count(s, x, k) == Leaks(s, x, k) + Guards(s, x, k) }

  datatype Step =
    | Begin
    | TryLock                       // one pg_try_advisory_lock
    | TryFails                      // it raised an error
    | NextRound | TimesOut          // after a round without success
    | Drop | DropFails              // the guard goes: the unlock works, or its error is ignored
    | Exit                          // the session ends, and all its locks with it

  predicate Enabled(s: State, x: Session, step: Step) {
    var pc := PcOf(s, x);
    match step
    case Begin => pc.Idle?
    case TryLock => pc.Trying? && pc.slot < s.limit
    case TryFails => pc.Trying? && pc.slot < s.limit
    case NextRound => pc == Trying(s.limit)
    case TimesOut => pc == Trying(s.limit)
    case Drop => pc.Holding? && Owns(s, x, pc.slot) && s.locks[pc.slot].count > 0
    case DropFails => pc.Holding?
    case Exit => true
  }

  function Goes(s: State, x: Session, pc: Pc): State { s.(pc := s.pc[x := pc]) }

  function Granted(s: State, x: Session, k: nat): State {
    var count := if k in s.locks then s.locks[k].count else 0;
    s.(locks := s.locks[k := Lock(x, count + 1)])
  }

  function Unlocked(s: State, k: nat): State
    requires k in s.locks && s.locks[k].count > 0
  {
    var lock := s.locks[k];
    if lock.count == 1 then s.(locks := s.locks - {k}) else s.(locks := s.locks[k := lock.(count := lock.count - 1)])
  }

  predicate Taken(s: State, x: Session, k: nat) { k in s.locks && s.locks[k].session != x }

  function Do(s: State, x: Session, step: Step): State
    requires Enabled(s, x, step)
  {
    var pc := PcOf(s, x);
    match step
    case Begin => Goes(s, x, Trying(0))
    case TryLock =>
      if Taken(s, x, pc.slot) then Goes(s, x, Trying(pc.slot + 1))
      else Goes(Granted(s, x, pc.slot), x, Holding(pc.slot))
    case TryFails => Goes(s, x, Idle)
    case NextRound => Goes(s, x, Trying(0))
    case TimesOut => Goes(s, x, Idle)
    case Drop => Goes(Unlocked(s, pc.slot), x, Idle)
    case DropFails => Goes(s, x, Idle).(leaks := s.leaks[(x, pc.slot) := Leaks(s, x, pc.slot) + 1])
    case Exit =>
      Goes(s, x, Idle).(
        leaks := map p | p in s.leaks && p.0 != x :: s.leaks[p],
        locks := map k | k in s.locks && s.locks[k].session != x :: s.locks[k])
  }

  predicate Next(s: State, s': State, x: Session) {
    exists step :: Enabled(s, x, step) && Do(s, x, step) == s'
  }

  ghost predicate SomeoneSteps(s: State, s': State) { exists x :: Next(s, s', x) }

  lemma Balances(s: State, x: Session, step: Step)
    requires Inv(s) && Enabled(s, x, step)
    ensures Balanced(Do(s, x, step))
  {
    var s' := Do(s, x, step);
    forall y, k ensures Count(s', y, k) == Leaks(s', y, k) + Guards(s', y, k) {
      assert Count(s, y, k) == Leaks(s, y, k) + Guards(s, y, k);
    }
  }

  lemma StepKeeps(s: State, x: Session, step: Step)
    requires Inv(s) && Enabled(s, x, step)
    ensures Inv(Do(s, x, step)) && Do(s, x, step).limit == s.limit
  {
    Balances(s, x, step);
    hide Count, Leaks, Guards;
  }

  /** A run of any sessions from an empty lock table. */
  ghost predicate IsRun(trace: seq<State>) {
    && |trace| > 0 && trace[0].locks == map[] && trace[0].pc == map[] && trace[0].leaks == map[]
    && forall i: nat :: i < |trace| - 1 ==> SomeoneSteps(trace[i], trace[i + 1])
  }

  lemma {:induction false} RunKeeps(trace: seq<State>, i: nat)
    requires IsRun(trace) && i < |trace|
    ensures Inv(trace[i]) && trace[i].limit == trace[0].limit
  {
    if i > 0 {
      RunKeeps(trace, i - 1);
      hide Inv, Do, Enabled;
      var j: nat := i - 1;
      var x :| Next(trace[j], trace[j + 1], x);
      var step :| Enabled(trace[j], x, step) && Do(trace[j], x, step) == trace[j + 1];
      StepKeeps(trace[j], x, step);
    }
  }

  // ----- counting -----

  function Below(n: nat): (r: set<nat>)
    ensures forall k: nat :: k in r <==> k < n
    ensures |r| == n
  {
    if n == 0 then {} else Below(n - 1) + {n - 1}
  }

  function Owners(locks: map<nat, Lock>): set<Session> { set k | k in locks :: locks[k].session }

  /** Each lock has one owner. */
  lemma {:induction false} OwnersAtMostLocks(locks: map<nat, Lock>)
    ensures |Owners(locks)| <= |locks.Keys|
    decreases |locks.Keys|
  {
    if locks.Keys != {} {
      var k :| k in locks.Keys;
      var rest := locks - {k};
      assert rest.Keys == locks.Keys - {k};
      OwnersAtMostLocks(rest);
      assert Owners(locks) == Owners(rest) + {locks[k].session};
    }
  }

  function Holders(s: State): set<Session> { set x | x in s.pc && s.pc[x].Holding? }

  /** In every interleaving at most `limit` sessions are past the guard at a time, and no two
      of them on the same slot. */
  lemma AtMostLimit(trace: seq<State>, i: nat)
    requires IsRun(trace) && i < |trace|
    ensures |Holders(trace[i])| <= trace[0].limit
    ensures forall x, y :: x in Holders(trace[i]) && y in Holders(trace[i]) && x != y ==>
              trace[i].pc[x].slot != trace[i].pc[y].slot
  {
    RunKeeps(trace, i);
    hide IsRun;
    var s := trace[i];
    OwnersAtMostLocks(s.locks);
    SubsetSize(s.locks.Keys, Below(s.limit));
    forall x | x in Holders(s) ensures Owns(s, x, s.pc[x].slot) {
      assert Count(s, x, s.pc[x].slot) > 0;
    }
    SubsetSize(Holders(s), Owners(s.locks));
  }

  /** Who owns what, exactly: a session owns a slot if and only if it is past the guard with it
      or an unlock of it has failed in the session. */
  lemma OwnsExactly(trace: seq<State>, i: nat, x: Session, k: nat)
    requires IsRun(trace) && i < |trace|
    ensures Owns(trace[i], x, k) <==> PcOf(trace[i], x) == Holding(k) || Leaks(trace[i], x, k) > 0
  {
    RunKeeps(trace, i);
    assert Count(trace[i], x, k) == Leaks(trace[i], x, k) + Guards(trace[i], x, k);
  }

  /** Some unlock has failed in the session. */
  ghost predicate Leaky(s: State, x: Session) { exists k: nat :: Leaks(s, x, k) > 0 }

  /** A session that is not past the guard, waiting, timed out, failed or done, owns no lock if
      and only if no unlock has failed in it. */
  lemma OthersHoldNothing(trace: seq<State>, i: nat, x: Session)
    requires IsRun(trace) && i < |trace| && !PcOf(trace[i], x).Holding?
    ensures (forall k: nat :: !Owns(trace[i], x, k)) <==> !Leaky(trace[i], x)
  {
    hide IsRun;
    forall k: nat ensures Owns(trace[i], x, k) <==> Leaks(trace[i], x, k) > 0 {
      OwnsExactly(trace, i, x, k);
    }
  }

  /** A slot is taken exactly while some session is past its guard with it, or lasts after an
      unlock of it failed. */
  lemma TakenWhileHeld(trace: seq<State>, i: nat, k: nat)
    requires IsRun(trace) && i < |trace|
    ensures k in trace[i].locks <==> exists x :: PcOf(trace[i], x) == Holding(k) || Leaks(trace[i], x, k) > 0
  {
    hide IsRun;
    var s := trace[i];
    if k in s.locks {
      OwnsExactly(trace, i, s.locks[k].session, k);
    }
    if x :| PcOf(s, x) == Holding(k) || Leaks(s, x, k) > 0 {
      OwnsExactly(trace, i, x, k);
    }
  }

  /** One step, which is not the end of session `x`. */
  ghost predicate NextWithoutExit(s: State, s': State, x: Session) {
    exists y, step :: !(y == x && step == Exit) && Enabled(s, y, step) && Do(s, y, step) == s'
  }

  /** A failed unlock makes a leak, and nothing but the session's end mends it. */
  lemma DropFailsLeaks(s: State, x: Session)
    requires Enabled(s, x, DropFails)
    ensures Leaks(Do(s, x, DropFails), x, PcOf(s, x).slot) > 0
  {
  }

  lemma LeakOutlastsStep(s: State, s': State, x: Session, k: nat)
    requires NextWithoutExit(s, s', x)
    ensures Leaks(s', x, k) >= Leaks(s, x, k)
  {
  }

  /** Over every run: once an unlock has failed the session keeps the slot until it ends. */
  lemma {:induction false} LeakedSlotIsKept(trace: seq<State>, i: nat, j: nat, x: Session, k: nat)
    requires IsRun(trace) && i <= j < |trace| && Leaks(trace[i], x, k) > 0
    requires forall l: nat :: i <= l < j ==> NextWithoutExit(trace[l], trace[l + 1], x)
    ensures Owns(trace[j], x, k) && Leaks(trace[j], x, k) >= Leaks(trace[i], x, k)
    decreases j
  {
    hide IsRun;
    if i < j {
      var l: nat := j - 1;
      LeakedSlotIsKept(trace, i, l, x, k);
      assert NextWithoutExit(trace[l], trace[l + 1], x);
      LeakOutlastsStep(trace[l], trace[l + 1], x, k);
    }
    OwnsExactly(trace, j, x, k);
  }

  /** A slot nobody has is granted, and one of another session refused; the answer changes
      nothing else. */
  lemma TryLockAnswers(s: State, x: Session, k: nat)
    requires PcOf(s, x) == Trying(k) && k < s.limit
    ensures Enabled(s, x, TryLock)
    ensures k !in s.locks ==>
              Do(s, x, TryLock) == s.(locks := s.locks[k := Lock(x, 1)], pc := s.pc[x := Holding(k)])
    ensures k in s.locks && s.locks[k].session != x ==> Do(s, x, TryLock) == s.(pc := s.pc[x := Trying(k + 1)])
    ensures k in s.locks && s.locks[k].session == x ==>
              Do(s, x, TryLock) == s.(locks := s.locks[k := Lock(x, s.locks[k].count + 1)], pc := s.pc[x := Holding(k)])
  {
  }

  /** A session alone gets the first slot, whatever others have done before, if they are gone. */
  lemma LoneSessionGetsSlot(s: State, x: Session)
    requires PcOf(s, x).Idle? && s.locks == map[] && s.limit > 0
    ensures Enabled(s, x, Begin) && Enabled(Do(s, x, Begin), x, TryLock)
    ensures PcOf(Do(Do(s, x, Begin), x, TryLock), x) == Holding(0)
  {
    TryLockAnswers(Do(s, x, Begin), x, 0);
  }

  // ----- the code of one session -----

  /** The same unlocks have failed in the session. */
  ghost predicate SameLeaks(s: State, s': State, x: Session) { forall k: nat :: Leaks(s', x, k) == Leaks(s, x, k) }

  /** What the steps of other sessions cannot touch. */
  ghost predicate SameFor(s: State, s': State, me: Session) {
    && s'.limit == s.limit && PcOf(s', me) == PcOf(s, me) && SameLeaks(s, s', me)
    && forall k: nat :: Count(s', me, k) == Count(s, me, k)
  }

  lemma OthersStepKeepsMine(s: State, x: Session, step: Step, me: Session)
    requires Enabled(s, x, step) && x != me
    ensures SameFor(s, Do(s, x, step), me)
  {
    var s' := Do(s, x, step);
    forall k: nat ensures Count(s', me, k) == Count(s, me, k) {}
  }

  datatype Failure = TimedOut | LockError

  /** The slots of one round, and of several. */
  function Slots(n: nat): seq<nat> { if n == 0 then [] else Slots(n - 1) + [n - 1] }

  function Rounds(limit: nat, n: nat): seq<nat> { if n == 0 then [] else Rounds(limit, n - 1) + Slots(limit) }

  class Server {
    var s: State
    ghost var faults: nat         // errors raised by lock calls so far
    ghost var refused: seq<nat>   // slots found in the hands of another session so far, in order

    constructor (limit: nat)
      ensures Inv(s) && s == State(limit, map[], map[], map[])
    {
      s := State(limit, map[], map[], map[]);
    }

    /** Other sessions take any number of steps. */
    method Others(me: Session)
      requires Inv(s)
      modifies this`s
      ensures Inv(s) && SameFor(old(s), s, me)
    {
      hide Do, Inv, Enabled;
      var schedule: seq<(Session, Step)> := *;
      for i := 0 to |schedule|
        invariant Inv(s) && SameFor(old(s), s, me)
      {
        var (x, step) := schedule[i];
        if x != me && Enabled(s, x, step) {
          OthersStepKeepsMine(s, x, step, me);
          Takes(x, step);
        }
      }
    }

    method Takes(me: Session, step: Step)
      requires Inv(s) && Enabled(s, me, step)
      modifies this`s
      ensures Inv(s) && s == Do(old(s), me, step)
    {
      StepKeeps(s, me, step);
      s := Do(s, me, step);
    }

    /** One pg_try_advisory_lock, which may raise an error instead of answering. A slot that the
        session has already, since an unlock failed, is granted once more. */
    method TryLockSlot(me: Session, slot: nat) returns (r: Result<bool, Failure>)
      requires Inv(s) && PcOf(s, me) == Trying(slot) && slot < s.limit
      modifies this
      ensures Inv(s) && SameLeaks(old(s), s, me) && s.limit == old(s.limit)
      ensures r.Err? ==> r.error == LockError && PcOf(s, me) == Idle && faults == old(faults) + 1
      ensures r.Ok? ==> PcOf(s, me) == (if r.value then Holding(slot) else Trying(slot + 1))
      ensures r.Ok? ==> faults == old(faults)
      ensures refused == old(refused) + (if r == Ok(false) then [slot] else [])
      ensures r == Ok(false) ==> slot in s.locks && s.locks[slot].session != me
      ensures Leaks(old(s), me, slot) > 0 ==> r != Ok(false)
    {
      Others(me);
      var fails: bool := *;
      if fails {
        faults := faults + 1;
        Takes(me, TryFails);
        return Err(LockError);
      }
      assert Count(s, me, slot) == Leaks(s, me, slot) + Guards(s, me, slot);
      var free := !Taken(s, me, slot);
      refused := if free then refused else refused + [slot];
      Takes(me, TryLock);
      r := Ok(free);
    }

    /** `try_acquire_new_transaction_start_slot`: one round over the slots, others running in
        between. */
    method TryAcquire(me: Session) returns (r: Result<Option<nat>, Failure>)
      requires Inv(s) && PcOf(s, me) == Trying(0)
      modifies this
      ensures Inv(s) && SameLeaks(old(s), s, me) && s.limit == old(s.limit)
      ensures faults == old(faults) + (if r.Err? then 1 else 0)
      ensures r.Err? ==> r.error == LockError && PcOf(s, me) == Idle
      ensures r.Ok? && r.value.None? ==> PcOf(s, me) == Trying(s.limit) && refused == old(refused) + Slots(s.limit)
      ensures r.Ok? && r.value.Some? ==> r.value.value < s.limit && PcOf(s, me) == Holding(r.value.value)
    {
      hide Inv;
      var slot := 0;
      while slot < s.limit
        invariant Inv(s) && PcOf(s, me) == Trying(slot) && slot <= s.limit
        invariant SameLeaks(old(s), s, me) && s.limit == old(s.limit)
        invariant faults == old(faults) && refused == old(refused) + Slots(slot)
        decreases old(s.limit) - slot
      {
        var locked := TryLockSlot(me, slot);
        if locked.Err? {
          return Err(locked.error);
        }
        if locked.value {
          return Ok(Some(slot));
        }
        slot := slot + 1;
      }
      r := Ok(None);
    }

    /** `acquire_new_transaction_start_slot`: round after round until the deadline, which is
        reached after `rounds` more of them. It adds exactly the returned slot to what failed
        unlocks have left in the session, and a failure adds nothing; a timeout means that every
        slot was refused in every round. */
    method Acquire(me: Session, rounds: nat) returns (r: Result<nat, Failure>)
      requires Inv(s) && PcOf(s, me) == Idle
      modifies this
      ensures Inv(s) && SameLeaks(old(s), s, me) && s.limit == old(s.limit)
      ensures r.Ok? ==> r.value < s.limit && PcOf(s, me) == Holding(r.value)
      ensures r.Err? ==> PcOf(s, me) == Idle
      ensures forall k: nat :: Count(s, me, k) == Count(old(s), me, k) + (if r == Ok(k) then 1 else 0)
      ensures r == Err(LockError) <==> faults > old(faults)
      ensures r == Err(TimedOut) ==> refused == old(refused) + Rounds(s.limit, rounds + 1)
    {
      ghost var before := s;
      hide Slots;
      Takes(me, Begin);
      hide Inv;
      var left: nat := rounds;
      while true
        invariant Inv(s) && PcOf(s, me) == Trying(0) && SameLeaks(before, s, me) && s.limit == before.limit
        invariant left <= rounds && faults == old(faults) && refused == old(refused) + Rounds(s.limit, rounds - left)
        decreases left
      {
        var tried := TryAcquire(me);
        if tried.Err? {
          CountsAdd(before, s, me);
          return Err(tried.error);
        }
        if tried.value.Some? {
          CountsAdd(before, s, me);
          return Ok(tried.value.value);
        }
        if left == 0 {
          Takes(me, TimesOut);
          CountsAdd(before, s, me);
          return Err(TimedOut);
        }
        Takes(me, NextRound);
        left := left - 1;
        Others(me);
      }
    }

    /** The guard's `drop`: the session has the slot locked once less, or its unlock failed and
        nobody notices. If no unlock of it failed before, the slot is free again. */
    method DropGuard(me: Session, slot: nat)
      requires Inv(s) && PcOf(s, me) == Holding(slot)
      modifies this
      ensures Inv(s) && PcOf(s, me) == Idle && old(faults) <= faults <= old(faults) + 1
      ensures faults == old(faults) ==>
                && SameLeaks(old(s), s, me)
                && forall k: nat :: Count(old(s), me, k) == Count(s, me, k) + (if k == slot then 1 else 0)
      ensures faults == old(faults) && Leaks(old(s), me, slot) == 0 ==> slot !in s.locks
      ensures faults > old(faults) ==> s.locks == old(s.locks) && Leaks(s, me, slot) == Leaks(old(s), me, slot) + 1
    {
      assert Count(s, me, slot) == Leaks(s, me, slot) + Guards(s, me, slot);
      var fails: bool := *;
      if fails {
        faults := faults + 1;
        Takes(me, DropFails);
      } else {
        Takes(me, Drop);
      }
    }
  }

  lemma CountsAdd(s: State, s': State, me: Session)
    requires Inv(s) && Inv(s') && PcOf(s, me).Idle? && SameLeaks(s, s', me)
    ensures forall k: nat :: Count(s', me, k) == Count(s, me, k) + Guards(s', me, k)
  {
  }
}
