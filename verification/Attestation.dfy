/** Attest, lock, re-attest: fencing a transaction to the installation it was validated
    against while other transactions run DDL (src/origin.rs:42-178). */
module Attestation {
  import opened Prelude

  type Oid = nat
  type Name = string

  datatype Scope = Installation | Graph

  /** `MetadataScope::names`, also the order in which LOCK TABLE takes the locks. */
  function Names(scope: Scope): (r: seq<Name>)
    ensures |r| > 0 && r[0] == "_installation"
    ensures forall i, j :: 0 <= i < j < |r| ==> r[i] != r[j]
  {
    match scope
    case Installation => ["_installation"]
    case Graph => ["_installation", "instances", "nodes"]
  }

  /** The committed catalog: what each name denotes, which of these relations pass the
      attestation query (extension membership, owners, kind), and the installation row. */
  datatype Catalog = Catalog(denotes: map<Name, Oid>, attested: set<Oid>, installation: map<Oid, set<string>>)

  /** The shared database: our transaction's ACCESS SHARE locks, and the relations on which
      another transaction holds the exclusive lock that DDL needs. */
  datatype Db = Db(catalog: Catalog, shared: set<Oid>, exclusive: set<Oid>)

  predicate Compatible(d: Db) { d.shared !! d.exclusive }

  /** A committed DDL step: it rebinds, alters or drops relations only under its own exclusive
      locks, which it gives up at its end. That what the attestation reads of a relation changes
      only so is an assumption of the model. */
  predicate DdlStep(d: Db, d': Db) {
    && d'.shared == d.shared && d'.exclusive <= d.exclusive
    // a name whose relation is not locked by the DDL keeps its relation
    && (forall n :: n in d.catalog.denotes && d.catalog.denotes[n] !in d.exclusive ==>
          n in d'.catalog.denotes && d'.catalog.denotes[n] == d.catalog.denotes[n])
    // an object that is not locked by the DDL keeps its attributes
    && (forall o :: o !in d.exclusive && o in d.catalog.denotes.Values ==>
          (o in d'.catalog.attested <==> o in d.catalog.attested))
  }

  /** DDL acquires an exclusive lock: refused while a shared lock is held. */
  predicate DdlLocks(d: Db, d': Db) {
    && d'.catalog == d.catalog && d'.shared == d.shared
    && d.exclusive <= d'.exclusive && d'.exclusive !! d.shared
  }

  predicate OtherStep(d: Db, d': Db) { DdlStep(d, d') || DdlLocks(d, d') || d == d' }

  /** Any number of steps of other transactions. */
  ghost predicate Elapsed(d: Db, d': Db, trace: seq<Db>) {
    && |trace| > 0 && trace[0] == d && trace[|trace| - 1] == d'
    && forall i :: 0 <= i < |trace| - 1 ==> OtherStep(trace[i], trace[i + 1])
  }

  /** While its relation is share-locked, a name keeps denoting it, attested or not. */
  predicate Pinned(d: Db, n: Name, o: Oid) {
    o in d.shared && n in d.catalog.denotes && d.catalog.denotes[n] == o
  }

  lemma StepKeepsPinned(d: Db, d': Db, n: Name, o: Oid)
    requires Compatible(d) && OtherStep(d, d') && Pinned(d, n, o)
    ensures Compatible(d') && Pinned(d', n, o)
    ensures o in d'.catalog.attested <==> o in d.catalog.attested
  {
    assert o in d.catalog.denotes.Values;
  }

  /** From lock grant to the end of the transaction, whatever DDL others run. */
  lemma {:induction false} LockedNamesStay(d: Db, d': Db, trace: seq<Db>, n: Name, o: Oid)
    requires Compatible(d) && Elapsed(d, d', trace) && Pinned(d, n, o)
    ensures Compatible(d') && Pinned(d', n, o)
    ensures o in d'.catalog.attested <==> o in d.catalog.attested
    decreases |trace|
  {
    if |trace| > 1 {
      var k := |trace| - 1;
      assert Elapsed(d, trace[k - 1], trace[..k]);
      LockedNamesStay(d, trace[k - 1], trace[..k], n, o);
      StepKeepsPinned(trace[k - 1], d', n, o);
    }
  }

  ghost predicate Reaches(d: Db, d': Db) { exists trace :: Elapsed(d, d', trace) }

  ghost predicate KeepsPins(d: Db, d': Db) {
    forall n, o :: Pinned(d, n, o) ==> Pinned(d', n, o) && (o in d'.catalog.attested <==> o in d.catalog.attested)
  }

  lemma ReachesKeepsPins(d: Db, d': Db)
    requires Compatible(d) && Reaches(d, d')
    ensures KeepsPins(d, d')
  {
    var trace :| Elapsed(d, d', trace);
    forall n, o | Pinned(d, n, o) ensures Pinned(d', n, o) && (o in d'.catalog.attested <==> o in d.catalog.attested) {
      LockedNamesStay(d, d', trace, n, o);
    }
  }

  lemma {:induction false} StaysCompatible(d: Db, d': Db, trace: seq<Db>)
    requires Compatible(d) && Elapsed(d, d', trace)
    ensures Compatible(d') && d'.shared == d.shared
    decreases |trace|
  {
    if |trace| > 1 {
      var k := |trace| - 1;
      assert Elapsed(d, trace[k - 1], trace[..k]);
      StaysCompatible(d, trace[k - 1], trace[..k]);
      assert OtherStep(trace[k - 1], trace[k]);
    }
  }

  // ----- the code -----

  /** `Replaced` is the source's verdict; anything else is an error of the connection or a
      lock or statement timeout. */
  datatype Failure = Replaced | Unavailable

  /** The attestation query on one snapshot: the relations behind all names, or fewer rows. */
  predicate AllAttested(c: Catalog, names: seq<Name>) {
    forall i :: 0 <= i < |names| ==> names[i] in c.denotes && c.denotes[names[i]] in c.attested
  }

  function Objects(c: Catalog, names: seq<Name>): (r: seq<Oid>)
    requires AllAttested(c, names)
    ensures |r| == |names| && forall i :: 0 <= i < |r| ==> r[i] == c.denotes[names[i]]
  {
    seq(|names|, i requires 0 <= i < |names| => c.denotes[names[i]])
  }

  /** Every name denotes the given relation, on which we hold the shared lock. */
  ghost predicate AllPinned(d: Db, names: seq<Name>, oids: seq<Oid>) {
    |oids| <= |names| && forall i :: 0 <= i < |oids| ==> Pinned(d, names[i], oids[i])
  }

  /** What the identity query asks: the relation behind `df._installation` has the expected id. */
  predicate Identified(c: Catalog, expected: string) {
    "_installation" in c.denotes && c.denotes["_installation"] in c.installation &&
    expected in c.installation[c.denotes["_installation"]]
  }

  class Connection {
    var d: Db
    ghost var faults: nat                                // failed statements and lock waits so far
    ghost var answers: seq<Result<seq<Oid>, Failure>>    // of the attestation queries so far
    ghost var seen: seq<Catalog>                         // what these queries read

    ghost predicate Valid() reads this { Compatible(d) }

    /** Other transactions run. */
    method Elapse()
      requires Valid()
      modifies this`d
      ensures Valid() && Reaches(old(d), d)
    {
      ghost var trace := [d];
      var schedule: seq<Db> := *;
      for i := 0 to |schedule|
        invariant Elapsed(old(d), d, trace)
      {
        var next := schedule[i];
        if OtherStep(d, next) {
          d := next;
          trace := trace + [next];
        }
      }
      assert Reaches(old(d), d);
      StaysCompatible(old(d), d, trace);
    }

    /** Whether the next statement fails. */
    method Fails() returns (fails: bool)
      modifies this`faults
      ensures faults == old(faults) + (if fails then 1 else 0)
    {
      fails := *;
      faults := faults + (if fails then 1 else 0);
    }

    /** `attest_metadata` */
    method Attest(names: seq<Name>) returns (r: Result<seq<Oid>, Failure>)
      requires Valid()
      modifies this
      ensures Valid() && Reaches(old(d), d) && answers == old(answers) + [r] && seen == old(seen) + [d.catalog]
      ensures r.Ok? ==> AllAttested(d.catalog, names) && r.value == Objects(d.catalog, names)
      ensures r.Err? && r.error.Replaced? ==> !AllAttested(d.catalog, names)
      ensures (r.Err? && r.error.Unavailable?) <==> faults > old(faults)
      ensures faults >= old(faults)
    {
      Elapse();
      var fails := Fails();
      r := if fails then Err(Unavailable)
           else if AllAttested(d.catalog, names) then Ok(Objects(d.catalog, names))
           else Err(Replaced);
      answers, seen := answers + [r], seen + [d.catalog];
    }

    /** One relation of LOCK TABLE: the name is resolved, and resolved again when the lock is
        granted, so the lock is on what the name denotes at that moment. */
    method LockOne(n: Name) returns (r: Result<Oid, Failure>)
      requires Valid()
      modifies this`d, this`faults
      ensures Valid() && KeepsPins(old(d), d)
      ensures r.Ok? ==> Pinned(d, n, r.value) && faults == old(faults)
      ensures r.Err? ==> r.error == Unavailable && faults > old(faults)
    {
      Elapse();
      ReachesKeepsPins(old(d), d);
      var fails := Fails();
      if fails {
        return Err(Unavailable);
      }
      if n !in d.catalog.denotes || d.catalog.denotes[n] in d.exclusive {
        faults := faults + 1;          // no such relation, or the lock timeout
        return Err(Unavailable);
      }
      var o := d.catalog.denotes[n];
      d := d.(shared := d.shared + {o});
      r := Ok(o);
    }

    /** LOCK TABLE takes the locks one after the other. */
    method LockTable(names: seq<Name>) returns (r: Result<seq<Oid>, Failure>)
      requires Valid()
      modifies this`d, this`faults
      ensures Valid()
      ensures r.Ok? ==> |r.value| == |names| && AllPinned(d, names, r.value) && faults == old(faults)
      ensures r.Err? ==> r.error == Unavailable && faults > old(faults)
    {
      var granted: seq<Oid> := [];
      for i := 0 to |names|
        invariant Valid() && |granted| == i && AllPinned(d, names, granted) && faults == old(faults)
      {
        var one := LockOne(names[i]);
        if one.Err? {
          return Err(one.error);
        }
        granted := granted + [one.value];
      }
      r := Ok(granted);
    }

    /** `lock_attested_metadata`. Without faults it decides exactly whether the locks are on
        what was attested before; in particular a replacement in place at lock grant is always
        reported. */
    method LockAttested(names: seq<Name>, before: seq<Oid>) returns (r: Result<(), Failure>)
      requires Valid() && |before| == |names|
      modifies this
      ensures Valid() && old(answers) <= answers && old(seen) <= seen && faults >= old(faults)
      ensures (r.Err? && r.error.Unavailable?) <==> faults > old(faults)
      ensures faults == old(faults) ==>
                exists granted: seq<Oid> ::
                  && |granted| == |names| && AllPinned(d, names, granted)
                  && (r.Ok? <==> granted == before && AllAttested(d.catalog, names))
    {
      var locks := LockTable(names);
      if locks.Err? {
        return Err(locks.error);
      }
      label locked:
      var after := Attest(names);
      ReachesKeepsPins(old@locked(d), d);
      assert AllPinned(d, names, locks.value);
      if after.Err? {
        return Err(after.error);
      }
      assert after.value == locks.value;
      r := if before != after.value then Err(Replaced) else Ok(());
    }

    /** `begin_metadata` and `lock_and_validate`: attest, lock, attest again, check the identity.
        Without faults it decides exactly whether, at its end, every relation of the scope is the
        one that the first attestation read, attested then and now and share-locked, and the
        installation has the expected identity. */
    method LockAndValidate(scope: Scope, expected: string) returns (r: Result<(), Failure>)
      requires Valid()
      modifies this
      ensures Valid() && |seen| > |old(seen)| && old(seen) <= seen && faults >= old(faults)
      ensures (r.Err? && r.error.Unavailable?) <==> faults > old(faults)
      ensures faults == old(faults) ==>
                (r.Ok? <==>
                   && Fenced(d, seen[|old(seen)|], "_installation")
                   && (scope.Graph? ==>
                     Fenced(d, seen[|old(seen)|], "instances") && Fenced(d, seen[|old(seen)|], "nodes"))
                   && expected in InstallationIds(d.catalog))
    {
      hide AllAttested;
      var names := Names(scope);
      var before := Attest(names);
      ghost var first := d.catalog;
      if before.Err? {
        if faults == old(faults) { ScopeIsFenced(d, first, scope, []); }
        return Err(before.error);
      }
      label attested:
      var locked := LockAttested(names, before.value);
      assert seen[|old(seen)|] == first;
      if locked.Err? {
        if faults == old(faults) {
          NotPinnedTwice(d, names, before.value);
          ScopeIsFenced(d, first, scope, before.value);
        }
        return Err(locked.error);
      }
      label fenced:
      Elapse();
      ReachesKeepsPins(old@fenced(d), d);
      AttestedStays(old@fenced(d), d, names, before.value);
      ScopeIsFenced(d, first, scope, before.value);
      var fails := Fails();
      if fails {
        return Err(Unavailable);
      }
      // SELECT EXISTS (… FROM ONLY df._installation …): the name now denotes the locked relation
      r := if Identified(d.catalog, expected) then Ok(()) else Err(Replaced);
    }
  }

  /** The name denotes the relation it denoted in the earlier catalog; the relation was attested
      then, is attested now, and is share-locked. */
  predicate Fenced(d: Db, first: Catalog, n: Name) {
    && n in first.denotes && first.denotes[n] in first.attested
    && n in d.catalog.denotes && d.catalog.denotes[n] == first.denotes[n]
    && d.catalog.denotes[n] in d.shared && d.catalog.denotes[n] in d.catalog.attested
  }

  /** The ids in the installation table. */
  function InstallationIds(c: Catalog): set<string> {
    if "_installation" in c.denotes && c.denotes["_installation"] in c.installation
    then c.installation[c.denotes["_installation"]]
    else {}
  }

  /** A scope fenced as a whole is the fence of its relations. */
  lemma ScopeIsFenced(d: Db, first: Catalog, scope: Scope, oids: seq<Oid>)
    requires AllAttested(first, Names(scope)) ==> oids == Objects(first, Names(scope))
    ensures AllAttested(first, Names(scope)) && AllPinned(d, Names(scope), oids)
            && AllAttested(d.catalog, Names(scope)) <==>
              && Fenced(d, first, "_installation")
              && (scope.Graph? ==> Fenced(d, first, "instances") && Fenced(d, first, "nodes"))
  {
    var names := Names(scope);
    assert names[0] == "_installation";
    assert scope.Graph? ==> names[1] == "instances" && names[2] == "nodes";
    assert forall i :: 0 <= i < |names| ==> names[i] in {"_installation", "instances", "nodes"};
  }

  /** From a successful fence to the end of the transaction, through any schedule of DDL, each
      fenced name keeps denoting its relation, locked and attested. */
  lemma FencedStays(d: Db, d': Db, first: Catalog, n: Name)
    requires Compatible(d) && Fenced(d, first, n) && Reaches(d, d')
    ensures Fenced(d', first, n) && d'.catalog.denotes[n] == d.catalog.denotes[n]
  {
    ReachesKeepsPins(d, d');
    assert Pinned(d, n, d.catalog.denotes[n]);
  }

  /** Names are pinned to one relation each. */
  lemma NotPinnedTwice(d: Db, names: seq<Name>, oids: seq<Oid>)
    requires |oids| == |names|
    ensures forall other: seq<Oid> :: |other| == |names| && AllPinned(d, names, other) && AllPinned(d, names, oids) ==>
            other == oids
  {
  }

  lemma AttestedStays(d: Db, d': Db, names: seq<Name>, oids: seq<Oid>)
    requires KeepsPins(d, d') && |oids| == |names| && AllPinned(d, names, oids) && AllAttested(d.catalog, names)
    ensures AllPinned(d', names, oids) && AllAttested(d'.catalog, names)
  {
    forall i | 0 <= i < |names| ensures Pinned(d', names[i], oids[i]) && oids[i] in d'.catalog.attested {
      assert Pinned(d, names[i], oids[i]);
    }
  }

  /** After a successful fence, `df._installation` and every other name of the scope keep
      denoting the relation attested before the locks, to the end of the transaction. */
  lemma FenceHolds(scope: Scope, d: Db, d': Db, attested: seq<Oid>, i: nat)
    requires Compatible(d) && AllPinned(d, Names(scope), attested) && AllAttested(d.catalog, Names(scope))
    requires i < |attested| == |Names(scope)| && Reaches(d, d')
    ensures Names(scope)[i] in d'.catalog.denotes && d'.catalog.denotes[Names(scope)[i]] == attested[i]
    ensures attested[i] in d'.catalog.attested
  {
    ReachesKeepsPins(d, d');
    assert Pinned(d, Names(scope)[i], attested[i]);
  }
}
