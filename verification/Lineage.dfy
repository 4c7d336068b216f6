/** Orchestration instance lineages and execution stamps (src/node_status.rs:10-76), and the
    question the stamps exist to answer: does a stamp belong to a superseded generation
    (src/node_status.rs:131-162)? */
module Lineage {
  import opened Prelude
  import opened Text

  const I64_MIN: int := -0x8000_0000_0000_0000
  const I64_MAX: int := 0x7fff_ffff_ffff_ffff

  /** A scope's identifier together with a generation of it. */
  datatype Scoped = Scoped(id: string, generation: int)

  predicate IsI64(n: int) { I64_MIN <= n <= I64_MAX }

  const SEP := "::"

  datatype InstanceLineage = InstanceLineage(instanceId: string, generations: seq<int>, nodeIds: seq<string>)

  function ParseI64(s: string): (r: Option<int>)
    ensures r.Some? ==> IsI64(r.value)
  {
    ParseSigned(s, I64_MIN, I64_MAX)
  }

  // ----- parsing -----

  /** Number of complete token pairs after the root. */
  function PairCount(tokens: seq<string>): nat {
    if |tokens| == 0 then 0 else (|tokens| - 1) / 2
  }

  function GenerationToken(tokens: seq<string>, k: nat): string
    requires k < PairCount(tokens)
  {
    tokens[2 * k + 1]
  }

  function NodeToken(tokens: seq<string>, k: nat): string
    requires k < PairCount(tokens)
  {
    tokens[2 * k + 2]
  }

  predicate PairOk(tokens: seq<string>, k: nat)
    requires k < PairCount(tokens)
  {
    ParseI64(GenerationToken(tokens, k)).Some? && NodeToken(tokens, k) != ""
  }

  /** The tokens after the root are (generation, node) pairs that all parse. */
  predicate PairsOk(tokens: seq<string>) {
    forall k :: 0 <= k < PairCount(tokens) ==> PairOk(tokens, k)
  }

  predicate Accepts(instanceId: string) {
    var tokens := Split(instanceId, SEP);
    tokens[0] != "" && |tokens| % 2 == 1 && PairsOk(tokens)
  }

  function GenerationAt(tokens: seq<string>, k: nat): int
    requires k < PairCount(tokens)
  {
    var g := ParseI64(GenerationToken(tokens, k));
    if g.Some? then g.value else 0
  }

  /** What a successful parse returns: the generations and the nodes of the token pairs. */
  function Parsed(instanceId: string): (r: Option<InstanceLineage>)
    ensures r.Some? <==> Accepts(instanceId)
    ensures r.Some? ==> r.value.instanceId == instanceId
  {
    var tokens := Split(instanceId, SEP);
    if Accepts(instanceId) then
      Some(InstanceLineage(instanceId,
                           seq(PairCount(tokens), k requires 0 <= k < PairCount(tokens) => GenerationAt(tokens, k)),
                           seq(PairCount(tokens), k requires 0 <= k < PairCount(tokens) => NodeToken(tokens, k))))
    else None
  }

  /** `InstanceLineage::parse`, pair by pair. */
  method Parse(instanceId: string) returns (r: Option<InstanceLineage>)
    ensures r == Parsed(instanceId)
  {
    hide Split, ParseI64;
    var tokens := Split(instanceId, SEP);
    if tokens[0] == "" || |tokens| % 2 == 0 {
      return None;
    }
    var generations: seq<int>, nodeIds: seq<string> := [], [];
    var pair := 0;
    while pair < PairCount(tokens)
      invariant 0 <= pair <= PairCount(tokens)
      invariant |generations| == |nodeIds| == pair
      invariant forall k :: 0 <= k < pair ==> PairOk(tokens, k)
      invariant forall k :: 0 <= k < pair ==> generations[k] == GenerationAt(tokens, k)
      invariant forall k :: 0 <= k < pair ==> nodeIds[k] == NodeToken(tokens, k)
    {
      var generation := ParseI64(GenerationToken(tokens, pair));
      if generation.None? {
        assert !PairOk(tokens, pair);
        return None;
      }
      generations := generations + [generation.value];
      if NodeToken(tokens, pair) == "" {
        assert !PairOk(tokens, pair);
        return None;
      }
      nodeIds := nodeIds + [NodeToken(tokens, pair)];
      pair := pair + 1;
    }
    r := Some(InstanceLineage(instanceId, generations, nodeIds));
    assert generations == Parsed(instanceId).value.generations;
    assert nodeIds == Parsed(instanceId).value.nodeIds;
  }

  /** `InstanceLineage::parent` on the identifier of a lineage that parsed. */
  function ParentOf(lineage: InstanceLineage): (r: Option<Scoped>)
    ensures r.Some? ==> |r.value.id| < |lineage.instanceId| && IsI64(r.value.generation)
  {
    if |lineage.nodeIds| == 0 then None
    else
      match RSplitOnce(lineage.instanceId, SEP)
      case None => None
      case Some((parentWithGeneration, _)) =>
        match RSplitOnce(parentWithGeneration, SEP)
        case None => None
        case Some((parentId, generation)) =>
          match ParseI64(generation)
          case None => None
          case Some(g) => Some(Scoped(parentId, g))
  }

  /** `InstanceLineage::parse(id).and_then(|l| l.parent())` */
  function Parent(instanceId: string): (r: Option<Scoped>)
    ensures r.Some? ==> |r.value.id| < |instanceId| && IsI64(r.value.generation)
  {
    match Parsed(instanceId)
    case None => None
    case Some(lineage) => ParentOf(lineage)
  }

  /** `parse_execution_stamp`, keeping the scope's identifier and the generation. */
  function ParseStamp(executionId: string): (r: Option<Scoped>)
    ensures r.Some? ==> Accepts(r.value.id) && IsI64(r.value.generation)
  {
    match RSplitOnce(executionId, SEP)
    case None => None
    case Some((instanceId, generation)) =>
      if !Accepts(instanceId) || ParseI64(generation).None? then None
      else Some(Scoped(instanceId, ParseI64(generation).value))
  }

  /** A printed generation is read back exactly if it fits 64 bits. */
  lemma GenerationFits(n: int)
    ensures ParseI64(PrintInt(n)) == Some(n) <==> -9223372036854775808 <= n <= 9223372036854775807
  {
    if IsI64(n) { PrintParseSigned(n, I64_MIN, I64_MAX); }
  }

  // ----- printing: how identifiers and stamps are composed -----

  /** A spawn step: the generation of the parent that spawned the scope, and the scope's root node. */
  datatype Spawn = Spawn(generation: int, nodeId: string)

  predicate GoodToken(t: string) { t != "" && Avoids(t, ':') }

  predicate GoodScope(root: string, spawns: seq<Spawn>) {
    GoodToken(root) && forall s :: s in spawns ==> IsI64(s.generation) && GoodToken(s.nodeId)
  }

  function Tokens(root: string, spawns: seq<Spawn>): (r: seq<string>)
    ensures |r| == 2 * |spawns| + 1 && r[0] == root
  {
    if spawns == [] then [root]
    else
      var n := |spawns| - 1;
      Tokens(root, spawns[..n]) + [PrintInt(spawns[n].generation), spawns[n].nodeId]
  }

  /** `root`, then `::{generation}::{node}` for every spawn. */
  function ScopeId(root: string, spawns: seq<Spawn>): string {
    if spawns == [] then root
    else
      var n := |spawns| - 1;
      ScopeId(root, spawns[..n]) + SEP + PrintInt(spawns[n].generation) + SEP + spawns[n].nodeId
  }

  function Stamp(scopeId: string, generation: int): string {
    scopeId + SEP + PrintInt(generation)
  }

  lemma {:induction false} ScopeIdIsJoin(root: string, spawns: seq<Spawn>)
    ensures ScopeId(root, spawns) == Join(Tokens(root, spawns), SEP)
  {
    if spawns != [] {
      var n := |spawns| - 1;
      var init := Tokens(root, spawns[..n]);
      var gen, node := PrintInt(spawns[n].generation), spawns[n].nodeId;
      ScopeIdIsJoin(root, spawns[..n]);
      JoinAppend(init, gen, SEP);
      JoinAppend(init + [gen], node, SEP);
      assert init + [gen, node] == init + [gen] + [node];
    }
  }

  lemma {:induction false} TokensAvoid(root: string, spawns: seq<Spawn>)
    requires GoodScope(root, spawns)
    ensures AllAvoid(Tokens(root, spawns), ':')
  {
    if spawns != [] {
      var n := |spawns| - 1;
      assert spawns[n] in spawns;
      TokensAvoid(root, spawns[..n]);
      PrintIntAvoids(spawns[n].generation, ':');
    }
  }

  lemma {:induction false} TokenPairs(root: string, spawns: seq<Spawn>, k: nat)
    requires k < |spawns|
    ensures var ts := Tokens(root, spawns);
            PairCount(ts) == |spawns| &&
            GenerationToken(ts, k) == PrintInt(spawns[k].generation) && NodeToken(ts, k) == spawns[k].nodeId
  {
    var n := |spawns| - 1;
    if k < n {
      TokenPairs(root, spawns[..n], k);
    }
  }

  lemma TokenPairsParse(root: string, spawns: seq<Spawn>, k: nat)
    requires GoodScope(root, spawns) && k < |spawns|
    ensures var ts := Tokens(root, spawns);
            PairCount(ts) == |spawns| && PairOk(ts, k) &&
            GenerationAt(ts, k) == spawns[k].generation && NodeToken(ts, k) == spawns[k].nodeId
  {
    assert spawns[k] in spawns;
    TokenPairs(root, spawns, k);
    PrintParseSigned(spawns[k].generation, I64_MIN, I64_MAX);
    hide ParseSigned, PrintInt;
  }

  function GenerationsOf(spawns: seq<Spawn>): (r: seq<int>)
    ensures |r| == |spawns| && forall k :: 0 <= k < |r| ==> r[k] == spawns[k].generation
  {
    seq(|spawns|, k requires 0 <= k < |spawns| => spawns[k].generation)
  }

  function NodesOf(spawns: seq<Spawn>): (r: seq<string>)
    ensures |r| == |spawns| && forall k :: 0 <= k < |r| ==> r[k] == spawns[k].nodeId
  {
    seq(|spawns|, k requires 0 <= k < |spawns| => spawns[k].nodeId)
  }

  /** Parsing a composed identifier recovers every generation and node of its lineage. */
  lemma LineageRoundTrip(root: string, spawns: seq<Spawn>)
    requires GoodScope(root, spawns)
    ensures Parsed(ScopeId(root, spawns)) ==
            Some(InstanceLineage(ScopeId(root, spawns), GenerationsOf(spawns), NodesOf(spawns)))
  {
    hide ScopeId, Tokens, Split, Join, ParseI64;
    var id, tokens := ScopeId(root, spawns), Tokens(root, spawns);
    ScopeIdIsJoin(root, spawns);
    TokensAvoid(root, spawns);
    SplitJoin(tokens, SEP, ':');
    forall k | 0 <= k < |spawns| ensures PairOk(tokens, k) && GenerationAt(tokens, k) == spawns[k].generation
      && NodeToken(tokens, k) == spawns[k].nodeId {
      TokenPairsParse(root, spawns, k);
    }
    assert Accepts(id);
    assert Parsed(id).value.generations == GenerationsOf(spawns);
    assert Parsed(id).value.nodeIds == NodesOf(spawns);
  }

  /** The parent of a composed identifier drops exactly the last (generation, node) pair. */
  lemma ParentDropsLastSpawn(root: string, spawns: seq<Spawn>)
    requires GoodScope(root, spawns)
    ensures Parent(ScopeId(root, spawns)) ==
            if spawns == [] then None
            else Some(Scoped(ScopeId(root, spawns[..|spawns| - 1]), spawns[|spawns| - 1].generation))
  {
    LineageRoundTrip(root, spawns);
    if spawns != [] {
      var n := |spawns| - 1;
      assert spawns[n] in spawns;
      var parent, gen := ScopeId(root, spawns[..n]), PrintInt(spawns[n].generation);
      LastBeforeToken(parent + SEP + gen, spawns[n].nodeId, SEP, ':');
      PrintIntAvoids(spawns[n].generation, ':');
      LastBeforeToken(parent, gen, SEP, ':');
      PrintParseSigned(spawns[n].generation, I64_MIN, I64_MAX);
    }
  }

  lemma StampRoundTrip(root: string, spawns: seq<Spawn>, generation: int)
    requires GoodScope(root, spawns) && IsI64(generation)
    ensures ParseStamp(Stamp(ScopeId(root, spawns), generation)) == Some(Scoped(ScopeId(root, spawns), generation))
  {
    LineageRoundTrip(root, spawns);
    PrintIntAvoids(generation, ':');
    LastBeforeToken(ScopeId(root, spawns), PrintInt(generation), SEP, ':');
    PrintParseSigned(generation, I64_MIN, I64_MAX);
  }

  // ----- superseded generations -----

  type ScopeMax = map<string, int>

  /** `is_superseded` */
  predicate IsSuperseded(instanceId: string, generation: int, scopeMax: ScopeMax)
    decreases |instanceId|
  {
    if instanceId in scopeMax && generation < scopeMax[instanceId] then true
    else
      match Parent(instanceId)
      case Some(Scoped(parentId, parentGeneration)) => IsSuperseded(parentId, parentGeneration, scopeMax)
      case None => false
  }

  /** The scope `k` steps up the spawn lineage of a stamp, with the generation the lineage
      names for it; `None` above the root. */
  function Ancestor(instanceId: string, generation: int, k: nat): Option<Scoped> {
    if k == 0 then Some(Scoped(instanceId, generation))
    else
      match Parent(instanceId)
      case None => None
      case Some(Scoped(p, g)) => Ancestor(p, g, k - 1)
  }

  predicate Overtaken(scope: Option<Scoped>, scopeMax: ScopeMax) {
    scope.Some? && scope.value.id in scopeMax && scope.value.generation < scopeMax[scope.value.id]
  }

  lemma {:induction false} SupersededHasOvertaken(instanceId: string, generation: int, scopeMax: ScopeMax)
      returns (k: nat)
    requires IsSuperseded(instanceId, generation, scopeMax)
    ensures Overtaken(Ancestor(instanceId, generation, k), scopeMax)
    decreases |instanceId|
  {
    hide Parent;
    if instanceId in scopeMax && generation < scopeMax[instanceId] {
      k := 0;
    } else {
      var parent := Parent(instanceId).value;
      k := SupersededHasOvertaken(parent.id, parent.generation, scopeMax);
      k := k + 1;
    }
  }

  lemma {:induction false} OvertakenSupersedes(instanceId: string, generation: int, scopeMax: ScopeMax, k: nat)
    requires Overtaken(Ancestor(instanceId, generation, k), scopeMax)
    ensures IsSuperseded(instanceId, generation, scopeMax)
    decreases k
  {
    hide Parent;
    if k > 0 {
      var parent := Parent(instanceId).value;
      OvertakenSupersedes(parent.id, parent.generation, scopeMax, k - 1);
    }
  }

  /** Superseded exactly when some scope on the spawn lineage has a recorded maximum above
      the generation the lineage names for it; for every string, well formed or not. */
  lemma SupersededIff(instanceId: string, generation: int, scopeMax: ScopeMax)
    ensures IsSuperseded(instanceId, generation, scopeMax) <==>
            exists k: nat :: Overtaken(Ancestor(instanceId, generation, k), scopeMax)
  {
    hide Parent, IsSuperseded, Ancestor, ScopeId;
    if IsSuperseded(instanceId, generation, scopeMax) {
      var k := SupersededHasOvertaken(instanceId, generation, scopeMax);
    }
    if k: nat :| Overtaken(Ancestor(instanceId, generation, k), scopeMax) {
      OvertakenSupersedes(instanceId, generation, scopeMax, k);
    }
  }

  /** The generation a composed scope's lineage names for its prefix of length `k`. */
  function NamedGeneration(spawns: seq<Spawn>, generation: int, k: nat): int
    requires k <= |spawns|
  {
    if k == |spawns| then generation else spawns[k].generation
  }

  lemma {:induction false} AncestorOfComposed(root: string, spawns: seq<Spawn>, generation: int, k: nat)
    requires GoodScope(root, spawns)
    ensures Ancestor(ScopeId(root, spawns), generation, k) ==
            if k > |spawns| then None
            else Some(Scoped(ScopeId(root, spawns[..|spawns| - k]), NamedGeneration(spawns, generation, |spawns| - k)))
    decreases k
  {
    hide Parent, ScopeId;
    if k == 0 {
      assert spawns[..|spawns|] == spawns;
    } else {
      ParentDropsLastSpawn(root, spawns);
      if spawns != [] {
        var init := spawns[..|spawns| - 1];
        AncestorOfComposed(root, init, spawns[|spawns| - 1].generation, k - 1);
        if k <= |spawns| {
          assert init[..|init| - (k - 1)] == spawns[..|spawns| - k];
        }
      }
    }
  }

  /** The prefix of length `k` of a composed scope has a maximum above the generation the
      lineage names for it. */
  predicate PrefixOvertaken(root: string, spawns: seq<Spawn>, generation: int, scopeMax: ScopeMax, k: nat)
    requires k <= |spawns|
  {
    var id := ScopeId(root, spawns[..k]);
    id in scopeMax && NamedGeneration(spawns, generation, k) < scopeMax[id]
  }

  /** The same for composed identifiers, in terms of the spawns themselves. */
  lemma SupersededIffSomeScopeAdvanced(root: string, spawns: seq<Spawn>, generation: int, scopeMax: ScopeMax)
    requires GoodScope(root, spawns)
    ensures IsSuperseded(ScopeId(root, spawns), generation, scopeMax) <==>
            exists k :: 0 <= k <= |spawns| && PrefixOvertaken(root, spawns, generation, scopeMax, k)
  {
    hide Parent, IsSuperseded, Ancestor, ScopeId;
    var id := ScopeId(root, spawns);
    if IsSuperseded(id, generation, scopeMax) {
      var k := SupersededHasOvertaken(id, generation, scopeMax);
      AncestorOfComposed(root, spawns, generation, k);
      assert PrefixOvertaken(root, spawns, generation, scopeMax, |spawns| - k);
    }
    if k :| 0 <= k <= |spawns| && PrefixOvertaken(root, spawns, generation, scopeMax, k) {
      AncestorOfComposed(root, spawns, generation, |spawns| - k);
      OvertakenSupersedes(id, generation, scopeMax, |spawns| - k);
    }
  }

  /** Every scope spawned, however deep, by a superseded generation is superseded, whatever
      generation of its own it is stamped with. */
  lemma SupersededPassesToDescendants(root: string, spawns: seq<Spawn>, spawn: Spawn, more: seq<Spawn>,
                                      generation: int, scopeMax: ScopeMax)
    requires GoodScope(root, spawns + [spawn] + more)
    requires IsSuperseded(ScopeId(root, spawns), spawn.generation, scopeMax)
    ensures IsSuperseded(ScopeId(root, spawns + [spawn] + more), generation, scopeMax)
  {
    hide IsSuperseded, ScopeId;
    var all := spawns + [spawn] + more;
    assert forall s :: s in spawns ==> s in all;
    assert all[..|spawns|] == spawns;
    SupersededIffSomeScopeAdvanced(root, spawns, spawn.generation, scopeMax);
    var k :| 0 <= k <= |spawns| && PrefixOvertaken(root, spawns, spawn.generation, scopeMax, k);
    assert all[..k] == spawns[..k];
    assert PrefixOvertaken(root, all, generation, scopeMax, k);
    SupersededIffSomeScopeAdvanced(root, all, generation, scopeMax);
  }

  /** Recording higher maxima never makes a superseded stamp current again. */
  lemma {:induction false} SupersededMonotone(instanceId: string, generation: int, lower: ScopeMax, higher: ScopeMax)
    requires forall s :: s in lower ==> s in higher && lower[s] <= higher[s]
    requires IsSuperseded(instanceId, generation, lower)
    ensures IsSuperseded(instanceId, generation, higher)
    decreases |instanceId|
  {
    hide Parent;
    if !(instanceId in lower && generation < lower[instanceId]) {
      var parent := Parent(instanceId).value;
      SupersededMonotone(parent.id, parent.generation, lower, higher);
    }
  }

  /** A root-scope stamp is superseded exactly when its scope has a higher maximum; so a
      stamp that holds the maximum is current. */
  lemma RootScopeComparesGenerations(root: string, generation: int, scopeMax: ScopeMax)
    requires GoodToken(root)
    ensures IsSuperseded(root, generation, scopeMax) <==> root in scopeMax && generation < scopeMax[root]
  {
    ParentDropsLastSpawn(root, []);
    assert ScopeId(root, []) == root;
  }
}
