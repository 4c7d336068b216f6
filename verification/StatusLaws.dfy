/** What inference answers, in terms of the stored statuses and execution stamps themselves
    (src/node_status.rs:131-344). */
module StatusLaws {
  import opened Prelude
  import opened NodeStatus
  import Lineage

  /** The node is stored as finished. */
  predicate Finished(n: Node) { n.status == Some("completed") || n.status == Some("failed") }

  // ----- stamps -----

  predicate Stamped(n: Node, root: string, spawns: seq<Lineage.Spawn>, generation: int) {
    && Lineage.GoodScope(root, spawns) && Lineage.IsI64(generation)
    && n.executionId == Some(Lineage.Stamp(Lineage.ScopeId(root, spawns), generation))
  }

  /** Another node is stamped with a later generation of the node's own scope, or of a scope it
      was spawned from than the one that spawned it. */
  ghost predicate IsOlder(g: Graph, n: Node) {
    exists root: string, spawns: seq<Lineage.Spawn>, generation: int, k: int, id: Id, newer: int ::
      IsOlderBy(g, n, root, spawns, generation, k, id, newer)
  }

  ghost predicate IsOlderBy(g: Graph, n: Node, root: string, spawns: seq<Lineage.Spawn>, generation: int,
                            k: int, id: Id, newer: int) {
    && Stamped(n, root, spawns, generation) && 0 <= k <= |spawns| && id in g
    && Stamped(g[id], root, spawns[..k], newer)
    && (if k == |spawns| then generation else spawns[k].generation) < newer
  }

  /** The node has no stamp, or one that no stamp in the graph has overtaken. */
  ghost predicate IsCurrent(g: Graph, n: Node) {
    n.executionId == None ||
    exists root: string, spawns: seq<Lineage.Spawn>, generation: int ::
      Stamped(n, root, spawns, generation) && NotOvertaken(g, root, spawns, generation)
  }

  ghost predicate NotOvertaken(g: Graph, root: string, spawns: seq<Lineage.Spawn>, generation: int) {
    forall k: nat, id, newer :: k <= |spawns| && Holds(g, id, Lineage.ScopeId(root, spawns[..k]), newer) ==>
      newer <= (if k == |spawns| then generation else spawns[k].generation)
  }

  /** The node's stamp, however its numerals are written, names the scope and the generation. */
  predicate Holds(g: Graph, id: Id, scope: string, generation: int) {
    id in g && g[id].executionId.Some? &&
    Lineage.ParseStamp(g[id].executionId.value) == Some(Lineage.Scoped(scope, generation))
  }

  lemma StampedHolds(g: Graph, id: Id, root: string, spawns: seq<Lineage.Spawn>, generation: int)
    requires id in g && Stamped(g[id], root, spawns, generation)
    ensures StampOf(g[id]) == Some(Lineage.Scoped(Lineage.ScopeId(root, spawns), generation))
  {
    Lineage.StampRoundTrip(root, spawns, generation);
  }

  lemma OlderIsSuperseded(g: Graph, scopeMax: Lineage.ScopeMax, id: Id)
    requires IsScopeMax(g.Keys, g, scopeMax) && id in g && IsOlder(g, g[id])
    ensures Superseded(g[id], scopeMax)
  {
    hide Lineage.IsSuperseded, Lineage.ScopeId, Lineage.Stamp, Lineage.ParseStamp, StampOf;
    var root, spawns, generation, k, other, newer :| IsOlderBy(g, g[id], root, spawns, generation, k, other, newer);
    StampedHolds(g, id, root, spawns, generation);
    StampedHolds(g, other, root, spawns[..k], newer);
    assert Lineage.PrefixOvertaken(root, spawns, generation, scopeMax, k);
    Lineage.SupersededIffSomeScopeAdvanced(root, spawns, generation, scopeMax);
  }

  lemma CurrentIsNotSuperseded(g: Graph, scopeMax: Lineage.ScopeMax, id: Id)
    requires IsScopeMax(g.Keys, g, scopeMax) && id in g && IsCurrent(g, g[id])
    ensures !Superseded(g[id], scopeMax)
  {
    hide Lineage.IsSuperseded, Lineage.ScopeId, Lineage.Stamp, Lineage.ParseStamp;
    if g[id].executionId.Some? {
      var root: string, spawns: seq<Lineage.Spawn>, generation: int :|
        Stamped(g[id], root, spawns, generation) && NotOvertaken(g, root, spawns, generation);
      StampedHolds(g, id, root, spawns, generation);
      Lineage.SupersededIffSomeScopeAdvanced(root, spawns, generation, scopeMax);
      forall k: nat | k <= |spawns| ensures !Lineage.PrefixOvertaken(root, spawns, generation, scopeMax, k) {
        var scope := Lineage.ScopeId(root, spawns[..k]);
        if scope in scopeMax {
          var j :| j in g.Keys && StampOf(g[j]) == Some(Lineage.Scoped(scope, scopeMax[scope]));
          assert Holds(g, j, scope, scopeMax[scope]);
        }
      }
    }
  }

  /** What settles the fate of descendants, without the words of the walk. */
  lemma FinishedCurrentDecides(g: Graph, scopeMax: Lineage.ScopeMax, id: Id)
    requires IsScopeMax(g.Keys, g, scopeMax) && id in g
    ensures Finished(g[id]) && IsCurrent(g, g[id]) ==> Decides(g[id], scopeMax)
    ensures !Finished(g[id]) || IsOlder(g, g[id]) ==> !Decides(g[id], scopeMax)
  {
    hide IsOlder, IsCurrent, IsScopeMax, Superseded;
    if IsOlder(g, g[id]) { OlderIsSuperseded(g, scopeMax, id); }
    if IsCurrent(g, g[id]) { CurrentIsNotSuperseded(g, scopeMax, id); }
  }

  // ----- the laws, for every node of a tree -----

  /** `out` and `scopeMax` are what `InferStatuses` answers for a tree with this root; `id` is one
      of its nodes, below `above`. */
  ghost predicate Answers(root: Id, g: Graph, scopeMax: Lineage.ScopeMax, out: map<Id, Inferred>, above: seq<Id>,
                          id: Id) {
    OnTree(root, g, scopeMax, out, above, id) && IsScopeMax(g.Keys, g, scopeMax)
  }

  /** A node stored as completed or failed, and not overtaken, reads as it is stored. */
  lemma FinishedReadsAsStored(root: Id, g: Graph, scopeMax: Lineage.ScopeMax, out: map<Id, Inferred>, above: seq<Id>,
                              id: Id)
    requires Answers(root, g, scopeMax, out, above, id) && Finished(g[id]) && IsCurrent(g, g[id])
    ensures out[id] == Inferred(g[id].status.value, None)
  {
    hide IsInference, TreeShaped, IsPath, IsScopeMax, IsCurrent, Decides;
    FinishedCurrentDecides(g, scopeMax, id);
    TreeKeeps(root, g, scopeMax, out, above, id);
  }

  /** Below it, under no nearer finished node, every node that is not finished, or is overtaken,
      is skipped by it. */
  lemma FinishedSkipsBelow(root: Id, g: Graph, scopeMax: Lineage.ScopeMax, out: map<Id, Inferred>, above: seq<Id>,
                           i: nat, id: Id)
    requires Answers(root, g, scopeMax, out, above, id) && i < |above|
    requires Finished(g[above[i]]) && IsCurrent(g, g[above[i]])
    requires forall j :: i < j < |above| ==> !Finished(g[above[j]]) || IsOlder(g, g[above[j]])
    requires !Finished(g[id]) || IsOlder(g, g[id])
    ensures out[id] == Inferred("skipped", Some(above[i]))
  {
    hide IsInference, TreeShaped, IsPath, IsScopeMax, IsCurrent, IsOlder, Decides;
    FinishedCurrentDecides(g, scopeMax, id);
    forall j | i <= j < |above| ensures Decides(g[above[j]], scopeMax) <==> j == i {
      FinishedCurrentDecides(g, scopeMax, above[j]);
    }
    TreeSkipped(root, g, scopeMax, out, above, id);
  }

  /** Nothing else makes a node skipped: the ancestor named is stored as completed or failed, is
      not overtaken, and so is no node between. */
  lemma SkippedOnlyByFinished(root: Id, g: Graph, scopeMax: Lineage.ScopeMax, out: map<Id, Inferred>, above: seq<Id>,
                              id: Id)
    requires Answers(root, g, scopeMax, out, above, id) && out[id].status == "skipped"
    ensures exists i :: 0 <= i < |above| && out[id].fromAncestor == Some(above[i]) &&
              Finished(g[above[i]]) && !IsOlder(g, g[above[i]]) &&
              forall j :: i < j < |above| ==> !(Finished(g[above[j]]) && IsCurrent(g, g[above[j]]))
  {
    hide IsScopeMax, IsOlder, IsCurrent, Superseded, IsInference, TreeShaped, IsPath;
    if Decides(g[id], scopeMax) {
      TreeKeeps(root, g, scopeMax, out, above, id);
    } else if SomeDecides(g, scopeMax, above) {
      TreeSkipped(root, g, scopeMax, out, above, id);
      var i :| 0 <= i < |above| && IsNearestDecider(g, scopeMax, above, i)
        && out[id] == Inferred("skipped", Some(above[i]));
      forall j | i <= j < |above|
        ensures j == i ==> Finished(g[above[j]]) && !IsOlder(g, g[above[j]])
        ensures j > i ==> !(Finished(g[above[j]]) && IsCurrent(g, g[above[j]]))
      {
        FinishedCurrentDecides(g, scopeMax, above[j]);
      }
    } else if IsTerminal(g[id]) {
      TreeSuperseded(root, g, scopeMax, out, above, id);
    } else {
      TreeKeeps(root, g, scopeMax, out, above, id);
    }
  }

  /** Under no finished node but overtaken ones, an unfinished node is running if stored so and
      otherwise pending; an overtaken finished node is pending again. */
  lemma OtherwiseRunningOrPending(root: Id, g: Graph, scopeMax: Lineage.ScopeMax, out: map<Id, Inferred>,
                                  above: seq<Id>, id: Id)
    requires Answers(root, g, scopeMax, out, above, id)
    requires forall j :: 0 <= j < |above| ==> !Finished(g[above[j]]) || IsOlder(g, g[above[j]])
    ensures !Finished(g[id]) ==>
              out[id] == Inferred(if g[id].status == Some("running") then "running" else "pending", None)
    ensures Finished(g[id]) && IsOlder(g, g[id]) ==> out[id].status == "pending"
  {
    hide IsScopeMax, IsOlder, Superseded, IsInference, TreeShaped, IsPath;
    forall j | 0 <= j < |above| ensures !Decides(g[above[j]], scopeMax) {
      FinishedCurrentDecides(g, scopeMax, above[j]);
    }
    FinishedCurrentDecides(g, scopeMax, id);
    if IsTerminal(g[id]) {
      if IsOlder(g, g[id]) { TreeSuperseded(root, g, scopeMax, out, above, id); }
    } else {
      TreeKeeps(root, g, scopeMax, out, above, id);
    }
  }

  /** A node that no path reaches reads as stored, or as pending if nothing is stored. */
  lemma UnreachedReadsAsStored(root: Option<Id>, g: Graph, scopeMax: Lineage.ScopeMax, out: map<Id, Inferred>, id: Id)
    requires IsInference(root, g, scopeMax, out) && id in g && !Reachable(root, g, id)
    ensures id in out
    ensures g[id].status.Some? ==> out[id] == Inferred(g[id].status.value, None)
    ensures g[id].status.None? ==> out[id] == Inferred("pending", None)
  {
  }

  /** Which nodes are children, by node type. */
  lemma ChildrenAre(n: Node, c: Id)
    ensures c in Children(n) <==>
              || (Some(c) == n.left && n.kind in {Then, Race, Join, If, Loop})
              || (Some(c) == n.right && n.kind in {Then, Race, Join, If})
              || (Some(c) == n.condition && n.kind in {If, Loop})
              || (c in n.extras && n.kind == Join)
  {
  }

  function FailedRoot(): Graph {
    map["r" := Node(Then, Some("c"), None, None, [], Some("failed"), None),
        "c" := Node(Other, None, None, None, [], None, None)]
  }

  lemma StepOfFailedRoot(p: seq<Id>, i: nat)
    requires IsPath("r", FailedRoot(), p) && 0 < i < |p|
    ensures p[i - 1] == "r" && p[i] == "c"
  {
    var g := FailedRoot();
    assert Children(g["r"]) == ["c"] && Children(g["c"]) == [];
    assert p[i] in Children(g[p[i - 1]]);
  }

  lemma PathsOfFailedRoot(p: seq<Id>)
    requires IsPath("r", FailedRoot(), p)
    ensures p == ["r"] || p == ["r", "c"]
  {
    if |p| > 1 { StepOfFailedRoot(p, 1); }
    if |p| > 2 { StepOfFailedRoot(p, 2); }
  }

  lemma FailedRootIsTree()
    ensures TreeShaped("r", FailedRoot()) && IsPath("r", FailedRoot(), ["r"]) && IsPath("r", FailedRoot(), ["r", "c"])
  {
    var g := FailedRoot();
    assert "c" in Children(g["r"]);
    hide Children;
    forall p, q | IsPath("r", g, p) && IsPath("r", g, q) && p[|p| - 1] == q[|q| - 1]
      ensures p == q
    {
      PathsOfFailedRoot(p);
      PathsOfFailedRoot(q);
    }
  }

  /** An example: a failed root reads failed, and its child is skipped by it. */
  lemma FailedRootSkips(scopeMax: Lineage.ScopeMax, out: map<Id, Inferred>)
    requires IsScopeMax(FailedRoot().Keys, FailedRoot(), scopeMax)
    requires IsInference(Some("r"), FailedRoot(), scopeMax, out)
    ensures out == map["r" := Inferred("failed", None), "c" := Inferred("skipped", Some("r"))]
  {
    hide Children, IsScopeMax, IsPath, PathStatus, TreeShaped, IsCurrent, IsOlder;
    FailedRootIsTree();
    var g := FailedRoot();
    assert out.Keys == g.Keys;
    hide IsInference;
    assert [] + ["r"] == ["r"] && ["r"] + ["c"] == ["r", "c"];
    Unstamped(g, "r");
    FinishedReadsAsStored("r", g, scopeMax, out, [], "r");
    FinishedSkipsBelow("r", g, scopeMax, out, ["r"], 0, "c");
  }

  lemma Unstamped(g: Graph, id: Id)
    requires id in g && g[id].executionId == None
    ensures IsCurrent(g, g[id])
  {
  }
}
