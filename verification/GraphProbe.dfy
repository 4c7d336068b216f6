/** The transaction-aware graph probe (src/activities/load_function_graph.rs:90-155,
    src/activities/load_function_graph.rs:439-728): a series of separate reads, each in its own
    snapshot, against a transaction that may end at any moment between them. */
module GraphProbe {
  import opened Prelude

  type NodeId = string

  /** `Committing`: recorded as committed, but still in the running set of new snapshots. */
  datatype Phase = InProgress | Committing | Visible | Aborted

  /** The origin transaction and what it wrote. `removed`: its rows were deleted again after
      they became visible; `forgotten`: its status is no longer available. */
  datatype Origin = Origin(phase: Phase, wrote: bool, nodes: map<NodeId, string>, removed: bool, forgotten: bool)

  predicate PhaseLater(p: Phase, p': Phase) {
    p == p' || p == InProgress || (p == Committing && p' == Visible)
  }

  predicate Sound(o: Origin) {
    && (o.removed ==> o.phase == Visible)
    && (o.forgotten ==> o.phase == Visible || o.phase == Aborted)
  }

  /** How the origin can look some time after it looked like `o`. */
  predicate Later(o: Origin, o': Origin) {
    && PhaseLater(o.phase, o'.phase) && o'.wrote == o.wrote && o'.nodes == o.nodes
    && (o.removed ==> o'.removed) && (o.forgotten ==> o'.forgotten)
    && Sound(o) && Sound(o')
  }

  // ----- error classification -----

  datatype ErrorClass = Transient | Permanent

  /** A failed read: the client-side deadline, a replaced installation, an error reported by
      the server, or one that never reached it. */
  datatype ReadError = Deadline | Replaced | Server(code: string) | Connection

  /** `classify_sqlstate` */
  function ClassifySqlstate(code: string): ErrorClass {
    if code in {"08000", "08001", "08003", "08004", "08006", "08007", "08P01", "40001", "40P01",
                "57014", "55P03", "57P01", "57P02", "57P03"} then Transient
    else Permanent
  }

  function Classify(e: ReadError): ErrorClass {
    match e
    case Deadline => Transient
    case Replaced => Permanent
    case Server(code) => ClassifySqlstate(code)
    case Connection => Transient
  }

  // ----- the environment -----

  datatype Probe = Ready(graph: map<NodeId, string>) | Pending | Retry | OriginAborted | CommittedMissing

  /** `pg_xact_status`; while committing it may report either side of the commit. */
  datatype Status = StatusInProgress | StatusCommitted | StatusAborted | StatusUnavailable

  predicate StatusOf(o: Origin, s: Status) {
    if o.forgotten then s == StatusUnavailable
    else match o.phase
         case InProgress => s == StatusInProgress
         case Committing => s == StatusInProgress || s == StatusCommitted
         case Visible => s == StatusCommitted
         case Aborted => s == StatusAborted
  }

  predicate RowVisible(o: Origin) { o.phase == Visible && o.wrote && !o.removed }

  /** The database as the probe meets it; `errors` are the reads of the probes that failed. */
  class World {
    var origin: Origin
    ghost var errors: seq<ReadError>

    constructor (origin: Origin)
      requires Sound(origin)
      ensures Valid() && this.origin == origin && errors == []
    {
      this.origin, errors := origin, [];
    }

    ghost predicate Valid() reads this { Sound(origin) }

    /** What every read does besides answering: time passes, and a failure is recorded. */
    twostate predicate Reads(error: Option<ReadError>)
      reads this
    {
      && Sound(origin) && Later(old(origin), origin)
      && errors == (if error.Some? then old(errors) + [error.value] else old(errors))
    }

    /** Time passes. */
    method Elapse()
      requires Valid()
      modifies this`origin
      ensures Valid() && Later(old(origin), origin)
    {
      var later: Origin := *;
      if Later(origin, later) {
        origin := later;
      }
    }

    /** One read of the instance row, in a fresh snapshot; it may fail instead. */
    method FindInstance() returns (r: Result<bool, ReadError>)
      requires Valid()
      modifies this
      ensures Reads(ErrorOf(r))
      ensures r.Ok? ==> r.value == RowVisible(origin)
    {
      Elapse();
      var error: Option<ReadError> := *;
      errors := if error.Some? then errors + [error.value] else errors;
      r := if error.Some? then Err(error.value) else Ok(RowVisible(origin));
    }

    method OriginStatus() returns (r: Result<Status, ReadError>)
      requires Valid()
      modifies this
      ensures Reads(ErrorOf(r))
      ensures r.Ok? ==> StatusOf(origin, r.value)
    {
      Elapse();
      var error: Option<ReadError>, early: bool := *, *;
      if error.Some? {
        errors := errors + [error.value];
        return Err(error.value);
      }
      r := Ok(if origin.forgotten then StatusUnavailable
              else match origin.phase
                   case InProgress => StatusInProgress
                   case Committing => if early then StatusInProgress else StatusCommitted
                   case Visible => StatusCommitted
                   case Aborted => StatusAborted);
    }

    method SnapshotVisible() returns (r: Result<bool, ReadError>)
      requires Valid()
      modifies this
      ensures Reads(ErrorOf(r))
      ensures r.Ok? ==> r.value == (origin.phase == Visible || origin.phase == Aborted)
    {
      Elapse();
      var error: Option<ReadError> := *;
      errors := if error.Some? then errors + [error.value] else errors;
      r := if error.Some? then Err(error.value) else Ok(origin.phase == Visible || origin.phase == Aborted);
    }

    /** `load_visible_graph`: the node rows are fetched in yet another snapshot. */
    method LoadGraph() returns (r: Result<map<NodeId, string>, ReadError>)
      requires Valid()
      modifies this
      ensures Reads(ErrorOf(r))
      ensures r.Ok? ==> r.value == if RowVisible(origin) then origin.nodes else map[]
    {
      Elapse();
      var error: Option<ReadError> := *;
      errors := if error.Some? then errors + [error.value] else errors;
      r := if error.Some? then Err(error.value) else Ok(if RowVisible(origin) then origin.nodes else map[]);
    }
  }

  function ErrorOf<T>(r: Result<T, ReadError>): Option<ReadError> {
    if r.Err? then Some(r.error) else None
  }

  /** `probe_error_outcome` and `retry_probe` */
  function ErrorOutcome(e: ReadError): Result<Probe, string> {
    if Classify(e) == Transient then Ok(Retry) else Err("failed permanently")
  }

  /** What a probe's answer asserts about the origin at the moment it is given. */
  predicate Asserts(o: Origin, r: Result<Probe, string>) {
    match r
    case Ok(Ready(graph)) => o.phase == Visible && o.wrote && (graph == o.nodes || (o.removed && graph == map[]))
    case Ok(OriginAborted) => o.phase == Aborted
    case Ok(CommittedMissing) => o.phase == Visible && (!o.wrote || o.removed)
    case _ => true
  }

  predicate IsVerdict(r: Result<Probe, string>) {
    r.Ok? && (r.value.Ready? || r.value.OriginAborted? || r.value.CommittedMissing?)
  }

  /** A failure worth another probe: the client-side deadline, a connection that never reached the
      server, or one of the server's transient states. Everything else is final. */
  predicate IsPassing(e: ReadError) {
    || e == Deadline
    || e == Connection
    // connection exceptions
    || e == Server("08000") || e == Server("08001") || e == Server("08003") || e == Server("08004")
    || e == Server("08006") || e == Server("08007") || e == Server("08P01")
    // serialization failure, deadlock
    || e == Server("40001") || e == Server("40P01")
    // statement and lock timeouts, shutdown and start-up
    || e == Server("57014") || e == Server("55P03") || e == Server("57P01") || e == Server("57P02")
      || e == Server("57P03")
  }

  /** Of the reads between two moments none failed, or one, which then decided the answer. */
  predicate OneErrorDecides(before: seq<ReadError>, after: seq<ReadError>, r: Result<Probe, string>) {
    || after == before
    || (|after| == |before| + 1 && before <= after &&
        if IsPassing(after[|before|]) then r == Ok(Retry) else r.Err?)
  }

  /** `probe_transaction` */
  method ProbeTransaction(w: World) returns (r: Result<Probe, string>)
    requires w.Valid()
    modifies w
    ensures w.Valid() && Later(old(w.origin), w.origin) && OneErrorDecides(old(w.errors), w.errors, r)
    ensures Asserts(w.origin, r)
    // a graph already deleted when the probe began is never ready
    ensures r.Ok? && r.value.Ready? ==> !old(w.origin).removed
    // only an outcome not yet visible when the probe began is reported as pending
    ensures r == Ok(Pending) ==> old(w.origin).phase == InProgress || old(w.origin).phase == Committing
    // without a failed read, a probe begun after the outcome is visible gives a verdict
    ensures w.errors == old(w.errors) && (old(w.origin).phase == Visible || old(w.origin).phase == Aborted)
            && !w.origin.forgotten ==>
              IsVerdict(r)
    // and the verdict is `Ready` whenever the graph was there all along
    ensures w.errors == old(w.errors) && old(w.origin).phase == Visible && old(w.origin).wrote && !w.origin.removed ==>
              r == Ok(Ready(w.origin.nodes))
    // if neither deletion nor loss of the status falls into it, exactly these probes do: those
    // that find the row, or may still ask for the status
    ensures w.errors == old(w.errors) && (old(w.origin).phase == Visible || old(w.origin).phase == Aborted) &&
            w.origin.forgotten == old(w.origin).forgotten && w.origin.removed == old(w.origin).removed ==>
              (IsVerdict(r) <==> RowVisible(old(w.origin)) || !old(w.origin).forgotten)
    // where the row is not to be seen and the status is no longer available, it is an error
    ensures w.errors == old(w.errors) && old(w.origin).forgotten && !RowVisible(old(w.origin)) ==> r.Err?
    // begun after a visible commit, the graph is missing exactly if it was never written or is deleted
    ensures w.errors == old(w.errors) && old(w.origin).phase == Visible && !w.origin.forgotten &&
            w.origin.removed == old(w.origin).removed ==>
              (r == Ok(CommittedMissing) <==> !w.origin.wrote || w.origin.removed)
    // rows deleted before the probe began read as missing, although they were written
    ensures w.errors == old(w.errors) && old(w.origin).removed && !w.origin.forgotten ==> r == Ok(CommittedMissing)
    // while the transaction stays in progress the answer is pending
    ensures w.errors == old(w.errors) && w.origin.phase == InProgress ==> r == Ok(Pending)
  {
    var row := w.FindInstance();
    if row.Err? {
      return ErrorOutcome(row.error);
    }
    if row.value {
      r := ReadyOutcome(w);
      return;
    }
    var status := w.OriginStatus();
    if status.Err? {
      return ErrorOutcome(status.error);
    }
    match status.value {
      case StatusInProgress =>
        return Ok(Pending);
      case StatusAborted =>
        return Ok(OriginAborted);
      case StatusUnavailable =>
        return Err("no available status");
      case StatusCommitted =>
        r := CommittedOutcome(w);
    }
  }

  method ReadyOutcome(w: World) returns (r: Result<Probe, string>)
    requires w.Valid() && w.origin.phase == Visible && w.origin.wrote
    modifies w
    ensures w.Valid() && Later(old(w.origin), w.origin) && OneErrorDecides(old(w.errors), w.errors, r)
    ensures w.errors == old(w.errors) ==> r.Ok? && r.value.Ready? && Asserts(w.origin, r)
    ensures w.errors != old(w.errors) ==> !IsVerdict(r) && r != Ok(Pending)
  {
    var loaded := w.LoadGraph();
    match loaded
    case Ok(graph) => r := Ok(Ready(graph));
    case Err(error) => r := ErrorOutcome(error);
  }

  /** After `committed`: wait for snapshot visibility before trusting a re-read. */
  method CommittedOutcome(w: World) returns (r: Result<Probe, string>)
    requires w.Valid() && (w.origin.phase == Committing || w.origin.phase == Visible)
    modifies w
    ensures w.Valid() && Later(old(w.origin), w.origin) && OneErrorDecides(old(w.errors), w.errors, r)
    ensures Asserts(w.origin, r) && r != Ok(Pending)
    ensures r.Ok? && r.value.Ready? ==> !old(w.origin).removed
    ensures w.errors == old(w.errors) && old(w.origin).phase == Visible ==> IsVerdict(r)
    ensures w.errors == old(w.errors) && old(w.origin).phase == Visible && old(w.origin).wrote && !w.origin.removed ==>
              r.Ok? && r.value.Ready?
  {
    var visible := w.SnapshotVisible();
    if visible.Err? {
      return ErrorOutcome(visible.error);
    }
    if !visible.value {
      return Ok(Retry);
    }
    var row := w.FindInstance();
    if row.Err? {
      return ErrorOutcome(row.error);
    }
    if row.value {
      r := ReadyOutcome(w);
    } else {
      r := Ok(CommittedMissing);
    }
  }

  // ----- verdicts over time -----

  /** A verdict stays true of the origin for ever: an aborted graph never appears, a ready one
      was committed, and a missing one was never written, unless its rows were deleted. */
  lemma VerdictsAreStable(o: Origin, r: Result<Probe, string>, o': Origin)
    requires Asserts(o, r) && Later(o, o')
    ensures Asserts(o', r)
    ensures r == Ok(OriginAborted) ==> !RowVisible(o') && o'.phase == Aborted
    ensures r == Ok(CommittedMissing) ==> !RowVisible(o') && o'.phase == Visible
    ensures r.Ok? && r.value.Ready? ==> o'.phase == Visible && o'.wrote && (RowVisible(o') || o'.removed)
  {
  }

  /** `CommittedMissing` does not say that nothing was written: these rows were written and
      visible, when a probe finds them ready, and later deleted, when it finds them missing. */
  lemma MissingMayMeanDeleted(nodes: map<NodeId, string>) returns (before: Origin, after: Origin)
    ensures before.wrote && RowVisible(before) && Asserts(before, Ok(Ready(nodes)))
    ensures Later(before, after) && after.removed && Asserts(after, Ok(CommittedMissing))
  {
    before := Origin(Visible, true, nodes, false, false);
    after := before.(removed := true);
  }

  /** Why the snapshot check is there: a re-read that trusts `committed` alone could find no
      row although the graph was written and is about to appear. */
  lemma CommittedIsNotYetVisible(o: Origin) returns (o': Origin)
    requires Sound(o) && o.phase == Committing && o.wrote
    ensures StatusOf(o, StatusCommitted) && !RowVisible(o)
    ensures Later(o, o') && RowVisible(o')
  {
    o' := o.(phase := Visible);
  }

  /** A later answer does not contradict an earlier verdict; only deletion in between turns
      `Ready` into missing. */
  predicate Agrees(first: Result<Probe, string>, second: Result<Probe, string>, removed: bool) {
    IsVerdict(first) ==>
      && second != Ok(Pending)
      && (IsVerdict(second) ==>
            if first.value.Ready? then
              (second.value.Ready? && (second.value.graph == first.value.graph || removed))
                || (second.value.CommittedMissing? && removed)
            else second == first)
  }

  /** Any number of probes of one origin, begun one after the other at any time, agree. */
  method ProbeRepeatedly(w: World, n: nat) returns (answers: seq<Result<Probe, string>>)
    requires w.Valid()
    modifies w
    ensures |answers| == n
    ensures forall i, j :: 0 <= i < j < n ==> Agrees(answers[i], answers[j], w.origin.removed)
  {
    answers := [];
    for k := 0 to n
      invariant w.Valid() && |answers| == k
      invariant forall i :: 0 <= i < k ==> Asserts(w.origin, answers[i])
      invariant forall i, j :: 0 <= i < j < k ==> Agrees(answers[i], answers[j], w.origin.removed)
    {
      ghost var before := w.origin;
      w.Elapse();
      ghost var began := w.origin;
      forall i | 0 <= i < k ensures Asserts(began, answers[i]) { VerdictsAreStable(before, answers[i], began); }
      var answer := ProbeTransaction(w);
      forall i | 0 <= i < k ensures Asserts(w.origin, answers[i]) && Agrees(answers[i], answer, w.origin.removed) {
        VerdictsAreStable(began, answers[i], w.origin);
      }
      answers := answers + [answer];
    }
  }
}
