/** When `df.start()` is refused, and when it cannot be (src/dsl.rs:1085-1171,
    src/client.rs:185-273): admission in plain terms, and the start nobody hinders. */
module Admission {
  import opened Prelude
  import opened Submission
  import Ledger

  // ----- refusal -----

  /** The user's rows of the local table that a statement of the backend sees. */
  function LocalRows(s: State, b: Backend, u: User): set<EngineId> {
    (set id | id in s.visible && id.db == b.db && s.visible[id] == u)
    + (set id | id in b.claimed && b.claimed[id] == u)
  }

  /** With these local rows read before, the user is at one of the limits now: of the local and
      ledger rows together there are too many, or too many of them are queued or live. */
  predicate AtLimit(cfg: Config, s: State, db: nat, u: User, local: set<EngineId>) {
    var counted := local + (set id | id in s.ledger && id.db == db && s.ledger[id].user == u);
    var running := set id | id in counted && id in s.engine && (s.engine[id].Queued? || s.engine[id].Live?);
    || (cfg.maxInstances > 0 && |counted| >= cfg.maxInstances)
    || (cfg.maxConcurrent > 0 && |running| >= cfg.maxConcurrent)
  }

  /** Reading the local rows. */
  lemma ListReadsLocalRows(cfg: Config, s: State, x: Session)
    requires Enabled(s, List(x))
    ensures var b := s.backends[x];
            Do(cfg, s, List(x)).backends[x] == b.(pc := Listed(b.pc.u, b.pc.start, LocalRows(s, b, b.pc.u)))
  {
    var b := s.backends[x];
    assert VisibleIds(s, b.db, b.pc.u) + OwnIds(b, b.pc.u) == LocalRows(s, b, b.pc.u);
  }

  /** Counting refuses the start at a limit, and admits it in every other state. */
  lemma CountDecides(cfg: Config, s: State, x: Session)
    requires Enabled(s, Count(x))
    ensures var b, s' := s.backends[x], Do(cfg, s, Count(x));
            if AtLimit(cfg, s, b.db, b.pc.u, b.pc.ids)
            then s'.backends[x].pc == Broken && s'.outcomes == s.outcomes[b.pc.start := Failed]
            else s' == s.(backends := s.backends[x := b.(pc := Picking(b.pc.u, b.pc.start, 0))])
  {
    var b := s.backends[x];
    var counted := b.pc.ids + LedgerIds(s, b.db, b.pc.u);
    assert counted == b.pc.ids + (set id | id in s.ledger && id.db == b.db && s.ledger[id].user == b.pc.u);
    assert Active(s, counted) ==
           (set id | id in counted && id in s.engine && (s.engine[id].Queued? || s.engine[id].Live?));
  }

  /** Somewhere in the run from `from` on, `x` read the user's local rows, counted, and was at a
      limit. */
  ghost predicate Rejected(cfg: Config, s0: State, log: seq<Action>, from: nat, x: Session, u: User) {
    exists j: nat, i: nat ::
      from <= j < i < |log| && log[j] == List(x) && log[i] == Count(x) &&
      RejectedAt(cfg, Run(cfg, s0, log[..j]), Run(cfg, s0, log[..i]), x, u)
  }

  predicate RejectedAt(cfg: Config, listing: State, counting: State, x: Session, u: User) {
    x in listing.backends && u !in cfg.superusers &&
    AtLimit(cfg, counting, listing.backends[x].db, u, LocalRows(listing, listing.backends[x], u))
  }

  /** A candidate is given up exactly because the ledger has it, or the local table. */
  lemma CandidateDecides(cfg: Config, s: State, x: Session, c: EngineId)
    ensures Enabled(s, Reserve(x, c)) ==>
              (Do(cfg, s, Reserve(x, c)).backends[x].pc.Reserved? <==> c !in s.ledger)
    ensures Enabled(s, Claim(x)) && s.backends[x].pc.c == c ==>
              (Do(cfg, s, Claim(x)).backends[x].pc.Claimed? <==> c !in s.visible && c !in s.backends[x].claimed)
  {
  }

  // ----- the start nobody hinders -----

  /** No other backend of the database holds the user's admission lock. */
  predicate LockIsFree(s: State, x: Session, u: User)
    requires x in s.backends
  {
    forall y :: y in s.backends && y != x && u in s.backends[y].locks ==> s.backends[y].db != s.backends[x].db
  }

  /** Nobody has the identifier, finished or not. */
  predicate IsUnused(s: State, c: EngineId) {
    && c !in s.ledger && c !in s.visible
    && forall y :: y in s.backends ==>
         && c !in s.backends[y].claimed
         && (s.backends[y].pc.Reserved? || s.backends[y].pc.Claimed? ==> s.backends[y].pc.c != c)
  }

  /** What a completed start leaves. */
  function Started(s: State, x: Session, u: User, c: EngineId): State
    requires x in s.backends
  {
    s.(backends := s.backends[x := s.backends[x].(claimed := s.backends[x].claimed[c := u])],
       ledger := s.ledger[c := Entry(u, s.nextStart)],
       engine := s.engine[c := if c in s.engine then s.engine[c] else Queued],
       enqueued := s.enqueued + [Enqueued(c, s.nextStart)],
       outcomes := s.outcomes[s.nextStart := Returned(c)],
       nextStart := s.nextStart + 1)
  }

  /** From the choice of the identifier on. */
  lemma PickedReturns(cfg: Config, s: State, x: Session, u: User, k: nat, c: EngineId) returns (acts: seq<Action>)
    requires x in s.backends && s.backends[x].pc == Picking(u, k, 0) && c.db == s.backends[x].db && IsUnused(s, c)
    ensures Run(cfg, s, acts) ==
            s.(backends := s.backends[x := s.backends[x].(pc := Out, claimed := s.backends[x].claimed[c := u])],
               ledger := s.ledger[c := Entry(u, k)],
               engine := s.engine[c := if c in s.engine then s.engine[c] else Queued],
               enqueued := s.enqueued + [Enqueued(c, k)],
               outcomes := s.outcomes[k := Returned(c)])
  {
    hide Run, WithinLimits, VisibleIds, OwnIds, LedgerIds, LockFree;
    Ledger.RunNothing(cfg, s);
    var s' := s;
    acts, s' := Ledger.Then(cfg, s, [], s', Reserve(x, c));
    acts, s' := Ledger.Then(cfg, s, acts, s', Claim(x));
    acts, s' := Ledger.Then(cfg, s, acts, s', Commit(x));
    assert s'.backends == s.backends[x := s.backends[x].(pc := Out, claimed := s.backends[x].claimed[c := u])];
  }

  lemma {:induction false} RunAppend(cfg: Config, s: State, a: seq<Action>, b: seq<Action>)
    ensures Run(cfg, s, a + b) == Run(cfg, Run(cfg, s, a), b)
    decreases |b|
  {
    hide Step;
    if b == [] {
      assert a + b == a;
    } else {
      assert (a + b)[..|a + b| - 1] == a + b[..|b| - 1];
      RunAppend(cfg, s, a, b[..|b| - 1]);
    }
  }

  /** Without limits, or for a superuser, a start that meets nobody returns, whatever is retained. */
  lemma UnlimitedStartReturns(cfg: Config, s: State, x: Session, u: User, c: EngineId) returns (acts: seq<Action>)
    requires x in s.backends && s.backends[x].pc.Out? && c.db == s.backends[x].db && IsUnused(s, c)
    requires u in cfg.superusers || (cfg.maxConcurrent == 0 && cfg.maxInstances == 0)
    ensures Run(cfg, s, acts) == Started(s, x, u, c)
  {
    hide Run, WithinLimits, VisibleIds, OwnIds, LedgerIds, LockFree;
    Ledger.RunNothing(cfg, s);
    var begun, s' := Ledger.Then(cfg, s, [], s, Begin(x, u));
    var rest := PickedReturns(cfg, s', x, u, s.nextStart, c);
    acts := begun + rest;
    RunAppend(cfg, s, begun, rest);
    assert Run(cfg, s, acts).backends == Started(s, x, u, c).backends;
  }

  /** A limited user below both limits, whose lock is free, is admitted. */
  lemma BelowLimitsIsAdmitted(cfg: Config, s: State, x: Session, u: User) returns (acts: seq<Action>)
    requires x in s.backends && s.backends[x].pc.Out? && LockIsFree(s, x, u)
    requires u !in cfg.superusers && (cfg.maxConcurrent > 0 || cfg.maxInstances > 0)
    requires !AtLimit(cfg, s, s.backends[x].db, u, LocalRows(s, s.backends[x], u))
    ensures Run(cfg, s, acts) ==
            s.(backends := s.backends[x :=
              s.backends[x].(locks := s.backends[x].locks + {u}, pc := Picking(u, s.nextStart, 0))],
               nextStart := s.nextStart + 1)
  {
    hide Run, WithinLimits, VisibleIds, OwnIds, LedgerIds, AtLimit, LocalRows;
    Ledger.RunNothing(cfg, s);
    var b := s.backends[x];
    var s' := s;
    acts, s' := Ledger.Then(cfg, s, [], s', Begin(x, u));
    acts, s' := Ledger.Then(cfg, s, acts, s', Acquire(x));
    ListReadsLocalRows(cfg, s', x);
    SameRows(s, s', x, u);
    acts, s' := Ledger.Then(cfg, s, acts, s', List(x));
    CountDecides(cfg, s', x);
    SameLimit(cfg, s, s', b.db, u, LocalRows(s, b, u));
    acts, s' := Ledger.Then(cfg, s, acts, s', Count(x));
    assert s'.backends == s.backends[x := b.(locks := b.locks + {u}, pc := Picking(u, s.nextStart, 0))];
  }

  lemma SameRows(s: State, s': State, x: Session, u: User)
    requires x in s.backends && x in s'.backends && s'.visible == s.visible
    requires s'.backends[x].db == s.backends[x].db && s'.backends[x].claimed == s.backends[x].claimed
    ensures LocalRows(s', s'.backends[x], u) == LocalRows(s, s.backends[x], u)
  {
  }

  lemma SameLimit(cfg: Config, s: State, s': State, db: nat, u: User, local: set<EngineId>)
    requires s'.ledger == s.ledger && s'.engine == s.engine
    ensures AtLimit(cfg, s', db, u, local) == AtLimit(cfg, s, db, u, local)
  {
  }

  /** A start is never refused below the limits: if the user is at none of them, the admission
      lock is free and the identifier drawn is unused, a start that meets nobody returns it. */
  lemma UnhinderedStartReturns(cfg: Config, s: State, x: Session, u: User, c: EngineId) returns (acts: seq<Action>)
    requires x in s.backends && s.backends[x].pc.Out? && c.db == s.backends[x].db && IsUnused(s, c)
    requires u !in cfg.superusers && (cfg.maxConcurrent > 0 || cfg.maxInstances > 0) && LockIsFree(s, x, u)
    requires !AtLimit(cfg, s, s.backends[x].db, u, LocalRows(s, s.backends[x], u))
    ensures var s' := Run(cfg, s, acts);
            && x in s'.backends && c in s'.backends[x].claimed && s'.outcomes == s.outcomes[s.nextStart := Returned(c)]
            && s'.ledger == s.ledger[c := Entry(u, s.nextStart)] && s'.visible == s.visible
            && s'.engine == s.engine[c := if c in s.engine then s.engine[c] else Queued]
  {
    hide Run, AtLimit, LocalRows;
    var first := BelowLimitsIsAdmitted(cfg, s, x, u);
    var s' := Run(cfg, s, first);
    var rest := PickedReturns(cfg, s', x, u, s.nextStart, c);
    acts := first + rest;
    RunAppend(cfg, s, first, rest);
  }

  /** Finished instances do not count as active: with at most one active instance allowed, a
      user whose first instance is retained but has ended starts a second one. */
  lemma SecondStartAfterEnd() returns (cfg: Config, s0: State, acts: seq<Action>, s: State)
    ensures cfg == Config(1, 0, {}) && Initial(s0) && s == Run(cfg, s0, acts)
    ensures s.outcomes == map[0 := Returned(EngineId(0, "a")), 1 := Returned(EngineId(0, "b"))]
    ensures s.engine == map[EngineId(0, "a") := Terminal, EngineId(0, "b") := Queued]
    ensures s.ledger == map[EngineId(0, "a") := Entry(7, 0), EngineId(0, "b") := Entry(7, 1)]
    ensures EngineId(0, "a") in s.visible
  {
    hide Run, AtLimit;
    var a, b := EngineId(0, "a"), EngineId(0, "b");
    cfg, s0 := Config(1, 0, {}), Ledger.FirstState();
    Ledger.RunNothing(cfg, s0);
    acts, s := Ledger.LimitedStart(cfg, s0, [], s0, a);
    acts, s := Ended(cfg, s0, acts, s, a);
    OnlyEnded(cfg, s, a);
    var rest := UnhinderedStartReturns(cfg, s, 1, 7, b);
    RunAppend(cfg, s0, acts, rest);
    acts := acts + rest;
    s := Run(cfg, s0, acts);
  }

  /** The caller commits, and the engine finishes the instance. */
  lemma Ended(cfg: Config, s0: State, before: seq<Action>, s: State, c: EngineId)
      returns (acts: seq<Action>, s': State)
    requires s == Run(cfg, s0, before) && s.visible == map[] && s.engine == map[c := Queued]
    requires s.backends == map[1 := Backend(0, {7}, map[c := 7], Out)]
    ensures s' == Run(cfg, s0, acts)
    ensures s' == s.(backends := map[1 := Backend(0, {}, map[], Out)], visible := map[c := 7], engine :=
            map[c := Terminal])
  {
    hide Run;
    acts, s' := Ledger.Then(cfg, s0, before, s, Publish(1));
    acts, s' := Ledger.Then(cfg, s0, acts, s', Release(1));
    acts, s' := Ledger.Then(cfg, s0, acts, s', Progress(c));
    acts, s' := Ledger.Then(cfg, s0, acts, s', Progress(c));
  }

  lemma OnlyEnded(cfg: Config, s: State, c: EngineId)
    requires cfg == Config(1, 0, {}) && s.engine == map[c := Terminal]
    requires s.backends == map[1 := Backend(0, {}, map[], Out)]
    ensures !AtLimit(cfg, s, 0, 7, LocalRows(s, s.backends[1], 7))
  {
    var counted := LocalRows(s, s.backends[1], 7) + (set id | id in s.ledger && id.db == 0 && s.ledger[id].user == 7);
    assert (set id | id in counted && id in s.engine && (s.engine[id].Queued? || s.engine[id].Live?)) == {};
  }
}
