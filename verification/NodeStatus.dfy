/** Read-time status inference over a workflow graph (src/node_status.rs:98-344). */
module NodeStatus {
  import opened Prelude
  import Lineage

  type Id = string

  /** A node's upper-cased type, as far as `children_of` distinguishes it. */
  datatype Kind = Then | Race | Join | If | Loop | Other

  /** The facts inference reads of a node. The configuration entries `condition_node` and
      `extra_nodes` and the `execution_id` of the status details stand for their JSON. */
  datatype Node = Node(kind: Kind, left: Option<Id>, right: Option<Id>, condition: Option<Id>, extras: seq<Id>,
                       status: Option<string>, executionId: Option<string>)

  type Graph = map<Id, Node>

  datatype Inferred = Inferred(status: string, fromAncestor: Option<Id>)

  /** A generation and the node stamped with it. */
  datatype Stamped = Stamped(generation: int, id: Id)

  /** A walk frame without its node: what the ancestors above it decide. */
  datatype Context = Context(decider: Option<Id>, highest: Option<Stamped>)

  datatype Frame = Frame(id: Id, context: Context)

  /** `children_of` */
  function Children(n: Node): seq<Id> {
    match n.kind
    case Then => ToSeq(n.left) + ToSeq(n.right)
    case Race => ToSeq(n.left) + ToSeq(n.right)
    case Join => ToSeq(n.left) + ToSeq(n.right) + n.extras
    case If => ToSeq(n.condition) + ToSeq(n.left) + ToSeq(n.right)
    case Loop => ToSeq(n.left) + ToSeq(n.condition)
    case Other => []
  }

  /** `stamp_of` */
  function StampOf(n: Node): Option<Lineage.Scoped> {
    match n.executionId
    case None => None
    case Some(e) => Lineage.ParseStamp(e)
  }

  predicate IsTerminal(n: Node) { n.status == Some("completed") || n.status == Some("failed") }

  predicate Superseded(n: Node, scopeMax: Lineage.ScopeMax) {
    var stamp := StampOf(n);
    stamp.Some? && Lineage.IsSuperseded(stamp.value.id, stamp.value.generation, scopeMax)
  }

  /** A terminal node of the current generation settles the fate of its descendants. */
  predicate Decides(n: Node, scopeMax: Lineage.ScopeMax) {
    IsTerminal(n) && !Superseded(n, scopeMax)
  }

  function StoredStatus(n: Node): string {
    match n.status
    case Some(s) => s
    case None => "pending"
  }

  // ----- the maximum generation recorded per scope -----

  /** `m` holds, for exactly the stamped scopes, the highest stamped generation. */
  ghost predicate IsScopeMax(ids: set<Id>, g: Graph, m: Lineage.ScopeMax)
    requires ids <= g.Keys
  {
    && (forall i :: i in ids && StampOf(g[i]).Some? ==>
          StampOf(g[i]).value.id in m && StampOf(g[i]).value.generation <= m[StampOf(g[i]).value.id])
    && (forall s :: s in m ==> exists i :: i in ids && StampOf(g[i]) == Some(Lineage.Scoped(s, m[s])))
  }

  /** The nodes determine the map, so the order in which they are visited cannot matter. */
  lemma ScopeMaxUnique(g: Graph, m: Lineage.ScopeMax, m': Lineage.ScopeMax)
    requires IsScopeMax(g.Keys, g, m) && IsScopeMax(g.Keys, g, m')
    ensures m == m'
  {
    hide StampOf;
    ScopeMaxBelow(g, m, m');
    ScopeMaxBelow(g, m', m);
  }

  lemma ScopeMaxBelow(g: Graph, m: Lineage.ScopeMax, m': Lineage.ScopeMax)
    requires IsScopeMax(g.Keys, g, m) && IsScopeMax(g.Keys, g, m')
    ensures forall s :: s in m ==> s in m' && m[s] <= m'[s]
  {
    hide StampOf;
    forall s | s in m ensures s in m' && m[s] <= m'[s] {
      var i :| i in g.Keys && StampOf(g[i]) == Some(Lineage.Scoped(s, m[s]));
    }
  }

  method ScopeMaxOf(g: Graph) returns (m: Lineage.ScopeMax)
    ensures IsScopeMax(g.Keys, g, m)
  {
    m := map[];
    NothingStamped(g);
    hide IsScopeMax, StampOf;
    var todo := g.Keys;
    ghost var done: set<Id> := {};
    while todo != {}
      invariant done + todo == g.Keys && done !! todo
      invariant IsScopeMax(done, g, m)
    {
      var i :| i in todo;
      todo := todo - {i};
      var stamp := StampOf(g[i]);
      if stamp.Some? {
        var Scoped(scope, generation) := stamp.value;
        var slot := if scope in m then m[scope] else Lineage.I64_MIN;
        ScopeMaxStep(done, g, m, i);
        m := m[scope := if generation > slot then generation else slot];
      } else {
        UnstampedAddsNothing(done, g, m, i);
      }
      done := done + {i};
    }
    assert done == g.Keys;
  }

  lemma NothingStamped(g: Graph)
    ensures IsScopeMax({}, g, map[])
  {
  }

  /** One round of the loop: the map is raised to a stamped node's generation. */
  lemma ScopeMaxStep(ids: set<Id>, g: Graph, m: Lineage.ScopeMax, i: Id)
    requires ids <= g.Keys && IsScopeMax(ids, g, m) && i in g && StampOf(g[i]).Some?
    ensures var Scoped(scope, generation) := StampOf(g[i]).value;
            var slot := if scope in m then m[scope] else Lineage.I64_MIN;
            IsScopeMax(ids + {i}, g, m[scope := if generation > slot then generation else slot])
  {
    StampIsI64(g[i]);
    hide StampOf, IsScopeMax;
    var Scoped(scope, generation) := StampOf(g[i]).value;
    if scope in m && generation <= m[scope] {
      assert m[scope := m[scope]] == m;
      ScopeMaxCovers(ids, g, m, i);
    } else {
      ScopeMaxRaised(ids, g, m, i);
    }
  }

  lemma ScopeMaxCovers(ids: set<Id>, g: Graph, m: Lineage.ScopeMax, i: Id)
    requires ids <= g.Keys && IsScopeMax(ids, g, m) && i in g && StampOf(g[i]).Some?
    requires StampOf(g[i]).value.id in m && StampOf(g[i]).value.generation <= m[StampOf(g[i]).value.id]
    ensures IsScopeMax(ids + {i}, g, m)
  {
    hide StampOf;
    forall s | s in m ensures exists j :: j in ids + {i} && StampOf(g[j]) == Some(Lineage.Scoped(s, m[s])) {
      var j :| j in ids && StampOf(g[j]) == Some(Lineage.Scoped(s, m[s]));
    }
  }

  lemma ScopeMaxRaised(ids: set<Id>, g: Graph, m: Lineage.ScopeMax, i: Id)
    requires ids <= g.Keys && IsScopeMax(ids, g, m) && i in g && StampOf(g[i]).Some?
    requires StampOf(g[i]).value.id in m ==> m[StampOf(g[i]).value.id] <= StampOf(g[i]).value.generation
    ensures IsScopeMax(ids + {i}, g, m[StampOf(g[i]).value.id := StampOf(g[i]).value.generation])
  {
    hide StampOf;
    var stamp := StampOf(g[i]).value;
    var m' := m[stamp.id := stamp.generation];
    forall s | s in m' ensures exists j :: j in ids + {i} && StampOf(g[j]) == Some(Lineage.Scoped(s, m'[s])) {
      if s == stamp.id {
        assert StampOf(g[i]) == Some(Lineage.Scoped(s, m'[s]));
      } else {
        var j :| j in ids && StampOf(g[j]) == Some(Lineage.Scoped(s, m[s]));
      }
    }
  }

  lemma StampIsI64(n: Node)
    ensures StampOf(n).Some? ==> StampOf(n).value.generation >= Lineage.I64_MIN
  {
  }

  lemma UnstampedAddsNothing(ids: set<Id>, g: Graph, m: Lineage.ScopeMax, i: Id)
    requires ids <= g.Keys && IsScopeMax(ids, g, m) && i in g && StampOf(g[i]).None?
    ensures IsScopeMax(ids + {i}, g, m)
  {
    hide StampOf;
    forall s | s in m ensures exists j :: j in ids + {i} && StampOf(g[j]) == Some(Lineage.Scoped(s, m[s])) {
      var j :| j in ids && StampOf(g[j]) == Some(Lineage.Scoped(s, m[s]));
    }
  }

  // ----- the path specification -----

  /** `p` is a real path of known nodes from `root`, each a child of the one before. */
  predicate IsPath(root: Id, g: Graph, p: seq<Id>) {
    && |p| > 0 && p[0] == root
    && (forall i :: 0 <= i < |p| ==> p[i] in g)
    && (forall i :: 0 < i < |p| ==> p[i] in Children(g[p[i - 1]]))
  }

  predicate Known(g: Graph, p: seq<Id>) { forall i :: 0 <= i < |p| ==> p[i] in g }

  /** The nearest deciding node of a path. */
  function NearestDecider(g: Graph, scopeMax: Lineage.ScopeMax, p: seq<Id>): Option<Id>
    requires Known(g, p)
  {
    if p == [] then None
    else
      var last := p[|p| - 1];
      if Decides(g[last], scopeMax) then Some(last) else NearestDecider(g, scopeMax, p[..|p| - 1])
  }

  /** The stamped node of highest generation of a path; the deepest of them on ties. */
  function HighestGeneration(g: Graph, p: seq<Id>): Option<Stamped>
    requires Known(g, p)
  {
    if p == [] then None
    else
      var above := HighestGeneration(g, p[..|p| - 1]);
      var last := p[|p| - 1];
      match StampOf(g[last])
      case None => above
      case Some(s) =>
        if above.Some? && s.generation < above.value.generation then above else Some(Stamped(s.generation, last))
  }

  function ContextOf(g: Graph, scopeMax: Lineage.ScopeMax, p: seq<Id>): Context
    requires Known(g, p)
  {
    Context(NearestDecider(g, scopeMax, p), HighestGeneration(g, p))
  }

  /** What a node reads as under what its ancestors decide. */
  function Judge(n: Node, scopeMax: Lineage.ScopeMax, c: Context): Inferred {
    if Decides(n, scopeMax) then Inferred(StoredStatus(n), None)
    else if c.decider.Some? then Inferred("skipped", c.decider)
    else if IsTerminal(n) then
      Inferred("pending", match c.highest case None => None case Some(s) => Some(s.id))
    else if n.status == Some("running") then Inferred("running", None)
    else Inferred("pending", None)
  }

  /** The status of the last node of a path, by its proper ancestors on the path. */
  function PathStatus(g: Graph, scopeMax: Lineage.ScopeMax, p: seq<Id>): Inferred
    requires |p| > 0 && Known(g, p)
  {
    Judge(g[p[|p| - 1]], scopeMax, ContextOf(g, scopeMax, p[..|p| - 1]))
  }

  ghost predicate EndsAt(root: Id, g: Graph, p: seq<Id>, id: Id) {
    IsPath(root, g, p) && p[|p| - 1] == id
  }

  ghost predicate Reachable(root: Option<Id>, g: Graph, id: Id) {
    root.Some? && exists p :: EndsAt(root.value, g, p, id)
  }

  /** The result of inference on any graph whatever: one entry per known node; a reachable
      node is judged by some real path from the root; any other keeps its stored status. */
  ghost predicate IsInference(root: Option<Id>, g: Graph, scopeMax: Lineage.ScopeMax, out: map<Id, Inferred>) {
    && out.Keys == g.Keys
    && (forall id :: id in g && Reachable(root, g, id) ==>
          exists p :: EndsAt(root.value, g, p, id) && out[id] == PathStatus(g, scopeMax, p))
    && (forall id :: id in g && !Reachable(root, g, id) ==> out[id] == Inferred(StoredStatus(g[id]), None))
  }

  // ----- the walk -----

  /** The frame's node is the root or a child of the end of `p`, and its context is that of `p`. */
  predicate FrameOn(root: Id, g: Graph, scopeMax: Lineage.ScopeMax, f: Frame, p: seq<Id>) {
    if p == [] then f == Frame(root, Context(None, None))
    else IsPath(root, g, p) && f.id in Children(g[p[|p| - 1]]) && f.context == ContextOf(g, scopeMax, p)
  }

  /** `node`'s context extended by `node` itself. */
  function Extend(id: Id, n: Node, scopeMax: Lineage.ScopeMax, c: Context): Context {
    Context(
      if IsTerminal(n) && !Superseded(n, scopeMax) then Some(id) else c.decider,
      match (StampOf(n), c.highest)
      case (Some(s), Some(a)) => if s.generation >= a.generation then Some(Stamped(s.generation, id)) else Some(a)
      case (Some(s), None) => Some(Stamped(s.generation, id))
      case (None, previous) => previous)
  }

  lemma ExtendIsContextOf(root: Id, g: Graph, scopeMax: Lineage.ScopeMax, f: Frame, p: seq<Id>)
    requires FrameOn(root, g, scopeMax, f, p) && f.id in g
    ensures IsPath(root, g, p + [f.id])
    ensures Extend(f.id, g[f.id], scopeMax, f.context) == ContextOf(g, scopeMax, p + [f.id])
    ensures PathStatus(g, scopeMax, p + [f.id]) == Judge(g[f.id], scopeMax, f.context)
  {
    hide StampOf, Superseded;
    var q := p + [f.id];
    assert q[..|q| - 1] == p && q[|q| - 1] == f.id;
    assert f.context == ContextOf(g, scopeMax, p);
  }

  /** Every node at the end of a path is visited once the visited set is closed under children. */
  lemma {:induction false} ClosedCoversPath(root: Id, g: Graph, visited: set<Id>, p: seq<Id>)
    requires IsPath(root, g, p) && root in visited
    requires forall i, c :: i in visited && i in g && c in Children(g[i]) ==> c in visited
    ensures p[|p| - 1] in visited
  {
    if |p| > 1 {
      var q := p[..|p| - 1];
      assert IsPath(root, g, q);
      ClosedCoversPath(root, g, visited, q);
    }
  }

  predicate InStack(stack: seq<Frame>, id: Id) { exists k :: 0 <= k < |stack| && stack[k].id == id }

  /** Children of visited nodes are visited or stacked. */
  predicate Frontier(g: Graph, visited: set<Id>, stack: seq<Frame>) {
    forall i, c :: i in visited && i in g && c in Children(g[i]) ==> c in visited || InStack(stack, c)
  }

  /** The stack from index `base` on starts with the given nodes. */
  predicate Stacked(kids: seq<Id>, stack: seq<Frame>, base: nat) {
    forall k :: 0 <= k < |kids| ==> base + k < |stack| && stack[base + k].id == kids[k]
  }

  /** Popping a frame and visiting its node keeps the frontier, once its children are stacked. */
  lemma FrontierAfterVisit(g: Graph, visited: set<Id>, stack: seq<Frame>, stack': seq<Frame>)
    requires stack != [] && Frontier(g, visited, stack)
    requires stack[..|stack| - 1] <= stack'
    requires stack[|stack| - 1].id in g ==> Stacked(Children(g[stack[|stack| - 1].id]), stack', |stack| - 1)
    ensures Frontier(g, visited + {stack[|stack| - 1].id}, stack')
    ensures forall r :: InStack(stack, r) ==> r == stack[|stack| - 1].id || InStack(stack', r)
  {
    hide Children;
    var top := stack[|stack| - 1].id;
    forall r | InStack(stack, r) ensures r == top || InStack(stack', r) {
      var k :| 0 <= k < |stack| && stack[k].id == r;
      assert k < |stack| - 1 ==> stack'[k] == stack[k];
    }
    forall i, c | i in visited + {top} && i in g && c in Children(g[i])
      ensures c in visited + {top} || InStack(stack', c)
    {
      if i !in visited {
        var k :| 0 <= k < |Children(g[top])| && Children(g[top])[k] == c;
        assert stack'[|stack| - 1 + k].id == c;
      }
    }
  }

  lemma FrontierAfterPop(g: Graph, visited: set<Id>, stack: seq<Frame>)
    requires stack != [] && Frontier(g, visited, stack) && stack[|stack| - 1].id in visited
    ensures Frontier(g, visited, stack[..|stack| - 1])
    ensures forall r :: InStack(stack, r) ==> r in visited || InStack(stack[..|stack| - 1], r)
  {
    hide Children;
    var stack' := stack[..|stack| - 1];
    forall r | InStack(stack, r) ensures r in visited || InStack(stack', r) {
      var k :| 0 <= k < |stack| && stack[k].id == r;
      assert k < |stack| - 1 ==> stack'[k].id == r;
    }
  }

  /** `infer_statuses` */
  method InferStatuses(root: Option<Id>, g: Graph) returns (out: map<Id, Inferred>, scopeMax: Lineage.ScopeMax)
    ensures IsScopeMax(g.Keys, g, scopeMax)
    ensures IsInference(root, g, scopeMax, out)
  {
    out := map[];
    scopeMax := ScopeMaxOf(g);
    var visited: set<Id> := {};
    if root.Some? {
      visited, out := Walk(root.value, g, scopeMax);
    }
    ghost var walked := out;
    var rest := g.Keys - visited;
    while rest != {}
      invariant rest <= g.Keys - visited
      invariant out.Keys == g.Keys - rest
      invariant forall id :: id in out && id in visited ==> id in walked && out[id] == walked[id]
      invariant forall id :: id in out && id !in visited ==> out[id] == Inferred(StoredStatus(g[id]), None)
    {
      var id :| id in rest;
      rest := rest - {id};
      out := out[id := Inferred(StoredStatus(g[id]), None)];
    }
  }

  lemma FrameOnRoot(root: Id, g: Graph, scopeMax: Lineage.ScopeMax)
    ensures FrameOn(root, g, scopeMax, Frame(root, Context(None, None)), [])
  {
  }

  /** The top-down worklist walk from the root. */
  method Walk(root: Id, g: Graph, scopeMax: Lineage.ScopeMax) returns (visited: set<Id>, out: map<Id, Inferred>)
    ensures out.Keys == visited * g.Keys
    ensures forall id :: id in g ==> (id in visited <==> Reachable(Some(root), g, id))
    ensures forall id :: id in out ==> exists p :: EndsAt(root, g, p, id) && out[id] == PathStatus(g, scopeMax, p)
  {
    hide Children, StampOf, Superseded, FrameOn, PathStatus, Judge, Extend, ContextOf;
    visited, out := {}, map[];
    var stack := [Frame(root, Context(None, None))];
    assert stack[0].id == root;
    FrameOnRoot(root, g, scopeMax);
    ghost var above: seq<seq<Id>> := [[]];   // the path leading to each stacked frame
    ghost var pathTo: map<Id, seq<Id>> := map[];
    while stack != []
      invariant |above| == |stack|
      invariant forall k :: 0 <= k < |stack| ==> FrameOn(root, g, scopeMax, stack[k], above[k])
      invariant out.Keys == pathTo.Keys == visited * g.Keys
      invariant forall id :: id in pathTo ==>
                EndsAt(root, g, pathTo[id], id) && out[id] == PathStatus(g, scopeMax, pathTo[id])
      invariant root in visited || InStack(stack, root)
      invariant Frontier(g, visited, stack)
      decreases g.Keys - visited, |stack|
    {
      ghost var before, seen := stack, visited;
      var frame, p := stack[|stack| - 1], above[|stack| - 1];
      stack, above := stack[..|stack| - 1], above[..|stack| - 1];
      if frame.id in visited {
        FrontierAfterPop(g, seen, before);
        continue;
      }
      visited := visited + {frame.id};
      if frame.id !in g {
        FrontierAfterVisit(g, seen, before, stack);
        continue;
      }
      var n := g[frame.id];
      ExtendIsContextOf(root, g, scopeMax, frame, p);
      out := out[frame.id := Judge(n, scopeMax, frame.context)];
      pathTo := pathTo[frame.id := p + [frame.id]];
      stack, above :=
        PushAll(stack, above, root, g, scopeMax, n, Extend(frame.id, n, scopeMax, frame.context), p + [frame.id]);
      FrontierAfterVisit(g, seen, before, stack);
    }
    forall id | id in g ensures id in visited <==> Reachable(Some(root), g, id) {
      if id in visited {
        assert EndsAt(root, g, pathTo[id], id);
      }
      if Reachable(Some(root), g, id) {
        var p :| EndsAt(root, g, p, id);
        ClosedCoversPath(root, g, visited, p);
      }
    }
  }

  /** Push every child of `n` with the context below `n`. */
  method PushAll(stack: seq<Frame>, ghost above: seq<seq<Id>>, ghost root: Id, ghost g: Graph,
                 ghost scopeMax: Lineage.ScopeMax, n: Node, context: Context, ghost p: seq<Id>)
      returns (stack': seq<Frame>, ghost above': seq<seq<Id>>)
    requires |above| == |stack|
    requires forall k :: 0 <= k < |stack| ==> FrameOn(root, g, scopeMax, stack[k], above[k])
    requires IsPath(root, g, p) && g[p[|p| - 1]] == n && context == ContextOf(g, scopeMax, p)
    ensures |stack'| == |stack| + |Children(n)| && stack'[..|stack|] == stack
    ensures forall k :: 0 <= k < |Children(n)| ==> stack'[|stack| + k] == Frame(Children(n)[k], context)
    ensures |above'| == |stack'|
    ensures forall k :: 0 <= k < |stack'| ==> FrameOn(root, g, scopeMax, stack'[k], above'[k])
  {
    hide ContextOf, Children;
    stack', above' := stack, above;
    var kids := Children(n);
    for k := 0 to |kids|
      invariant |stack'| == |above'| == |stack| + k && stack'[..|stack|] == stack
      invariant forall j :: 0 <= j < k ==> stack'[|stack| + j] == Frame(kids[j], context)
      invariant forall j :: 0 <= j < |stack'| ==> FrameOn(root, g, scopeMax, stack'[j], above'[j])
    {
      stack', above' := stack' + [Frame(kids[k], context)], above' + [p];
    }
  }

  // ----- what the result means -----

  /** On any graph a derived status names a node that decided it, or was stamped, on a real
      path from the root to the node. */
  lemma DerivedAncestorOnPath(root: Option<Id>, g: Graph, scopeMax: Lineage.ScopeMax, out: map<Id, Inferred>, id: Id)
    requires IsInference(root, g, scopeMax, out) && id in g && out[id].fromAncestor.Some?
    ensures exists p :: root.Some? && EndsAt(root.value, g, p, id) && out[id].fromAncestor.value in p[..|p| - 1]
  {
    hide StampOf, Superseded;
    var p :| EndsAt(root.value, g, p, id) && out[id] == PathStatus(g, scopeMax, p);
    var above := p[..|p| - 1];
    NearestDeciderIs(g, scopeMax, above);
    HighestGenerationIs(g, above);
  }

  /** Each node is reached by at most one path from the root. */
  ghost predicate TreeShaped(root: Id, g: Graph) {
    forall p, q :: IsPath(root, g, p) && IsPath(root, g, q) && p[|p| - 1] == q[|q| - 1] ==> p == q
  }

  lemma {:induction false} NearestDeciderIs(g: Graph, scopeMax: Lineage.ScopeMax, p: seq<Id>)
    requires Known(g, p)
    ensures NearestDecider(g, scopeMax, p).None? ==> forall i :: 0 <= i < |p| ==> !Decides(g[p[i]], scopeMax)
    ensures NearestDecider(g, scopeMax, p).Some? ==>
              exists i :: 0 <= i < |p| && NearestDecider(g, scopeMax, p) == Some(p[i]) && Decides(g[p[i]], scopeMax) &&
                forall j :: i < j < |p| ==> !Decides(g[p[j]], scopeMax)
  {
    hide Decides;
    if p != [] {
      var n := |p| - 1;
      NearestDeciderIs(g, scopeMax, p[..n]);
      if !Decides(g[p[n]], scopeMax) && NearestDecider(g, scopeMax, p).Some? {
        var i :| 0 <= i < n && NearestDecider(g, scopeMax, p[..n]) == Some(p[..n][i])
          && Decides(g[p[..n][i]], scopeMax) &&
          forall j :: i < j < n ==> !Decides(g[p[..n][j]], scopeMax);
        forall j | i < j < |p| ensures !Decides(g[p[j]], scopeMax) {
          assert j < n ==> p[..n][j] == p[j];
        }
      }
    }
  }

  /** `p[i]` is stamped with the highest generation of the path, and is the deepest such node. */
  predicate IsHighest(g: Graph, p: seq<Id>, i: nat)
    requires Known(g, p) && i < |p|
  {
    && StampOf(g[p[i]]).Some?
    && (forall j :: 0 <= j < |p| && StampOf(g[p[j]]).Some? ==>
          StampOf(g[p[j]]).value.generation <= StampOf(g[p[i]]).value.generation)
    && (forall j :: i < j < |p| && StampOf(g[p[j]]).Some? ==>
          StampOf(g[p[j]]).value.generation < StampOf(g[p[i]]).value.generation)
  }

  lemma {:induction false} HighestGenerationIs(g: Graph, p: seq<Id>)
    requires Known(g, p)
    ensures HighestGeneration(g, p).None? ==> forall i :: 0 <= i < |p| ==> StampOf(g[p[i]]).None?
    ensures HighestGeneration(g, p).Some? ==>
              exists i :: 0 <= i < |p| && IsHighest(g, p, i) &&
                HighestGeneration(g, p) == Some(Stamped(StampOf(g[p[i]]).value.generation, p[i]))
  {
    hide StampOf;
    if p != [] {
      var n := |p| - 1;
      var q := p[..n];
      HighestGenerationIs(g, q);
      assert forall j :: 0 <= j < n ==> q[j] == p[j];
      var above := HighestGeneration(g, q);
      if above.Some? {
        var i :| 0 <= i < n && IsHighest(g, q, i) && above == Some(Stamped(StampOf(g[q[i]]).value.generation, q[i]));
        var last := StampOf(g[p[n]]);
        if last.None? || last.value.generation < above.value.generation {
          assert IsHighest(g, p, i);
        } else {
          assert IsHighest(g, p, n);
        }
      } else if HighestGeneration(g, p).Some? {
        assert IsHighest(g, p, n);
      }
    }
  }

  /** `id` is a node of a tree, with the proper ancestors `above` from the root downwards, and
      `out` is what inference made of the tree. */
  ghost predicate OnTree(root: Id, g: Graph, scopeMax: Lineage.ScopeMax, out: map<Id, Inferred>, above: seq<Id>,
                         id: Id) {
    && Known(g, above) && id in g && id in out
    && IsInference(Some(root), g, scopeMax, out) && TreeShaped(root, g) && IsPath(root, g, above + [id])
  }

  lemma StatusOfExtended(g: Graph, scopeMax: Lineage.ScopeMax, above: seq<Id>, id: Id)
    requires Known(g, above) && id in g
    ensures Known(g, above + [id])
    ensures PathStatus(g, scopeMax, above + [id]) == Judge(g[id], scopeMax, ContextOf(g, scopeMax, above))
  {
    hide Judge, ContextOf;
    assert (above + [id])[..|above + [id]| - 1] == above;
  }

  /** On a tree the inferred status of every reachable node is the one its path gives. */
  lemma TreeStatusIsPathStatus(root: Id, g: Graph, scopeMax: Lineage.ScopeMax, out: map<Id, Inferred>, above: seq<Id>,
                               id: Id)
    requires OnTree(root, g, scopeMax, out, above, id)
    ensures out[id] == PathStatus(g, scopeMax, above + [id]) == Judge(g[id], scopeMax, ContextOf(g, scopeMax, above))
  {
    hide Children, Judge, ContextOf, PathStatus;
    var p := above + [id];
    StatusOfExtended(g, scopeMax, above, id);
    assert EndsAt(root, g, p, id);
    assert Reachable(Some(root), g, id);
    var q :| EndsAt(root, g, q, id) && out[id] == PathStatus(g, scopeMax, q);
    assert p == q;
  }

  /** `p[i]` decides and no later node of `p` does. */
  predicate IsNearestDecider(g: Graph, scopeMax: Lineage.ScopeMax, p: seq<Id>, i: nat)
    requires Known(g, p) && i < |p|
  {
    Decides(g[p[i]], scopeMax) && forall j :: i < j < |p| ==> !Decides(g[p[j]], scopeMax)
  }

  predicate SomeDecides(g: Graph, scopeMax: Lineage.ScopeMax, p: seq<Id>)
    requires Known(g, p)
  {
    exists i :: 0 <= i < |p| && Decides(g[p[i]], scopeMax)
  }

  /** A tree node under a terminal, current proper ancestor, itself not terminal in the
      current generation, is skipped by the nearest such ancestor. */
  lemma TreeSkipped(root: Id, g: Graph, scopeMax: Lineage.ScopeMax, out: map<Id, Inferred>, above: seq<Id>, id: Id)
    requires OnTree(root, g, scopeMax, out, above, id)
    requires !Decides(g[id], scopeMax) && SomeDecides(g, scopeMax, above)
    ensures exists i :: 0 <= i < |above| && IsNearestDecider(g, scopeMax, above, i) &&
                          out[id] == Inferred("skipped", Some(above[i]))
  {
    hide StampOf, Decides, IsInference, TreeShaped, IsPath, HighestGeneration;
    TreeStatusIsPathStatus(root, g, scopeMax, out, above, id);
    NearestDeciderIs(g, scopeMax, above);
    var i :| 0 <= i < |above| && NearestDecider(g, scopeMax, above) == Some(above[i])
      && IsNearestDecider(g, scopeMax, above, i);
  }

  /** A superseded terminal tree node with no such ancestor reads pending, and names the
      proper ancestor of highest generation, the deepest on ties, if any is stamped. */
  lemma TreeSuperseded(root: Id, g: Graph, scopeMax: Lineage.ScopeMax, out: map<Id, Inferred>, above: seq<Id>, id: Id)
    requires OnTree(root, g, scopeMax, out, above, id)
    requires IsTerminal(g[id]) && Superseded(g[id], scopeMax) && !SomeDecides(g, scopeMax, above)
    ensures out[id].status == "pending"
    ensures match out[id].fromAncestor
            case None => forall i :: 0 <= i < |above| ==> StampOf(g[above[i]]).None?
            case Some(a) => exists i :: 0 <= i < |above| && IsHighest(g, above, i) && a == above[i]
  {
    hide StampOf, Superseded, IsInference, TreeShaped, IsPath, NearestDecider;
    TreeStatusIsPathStatus(root, g, scopeMax, out, above, id);
    NearestDeciderIs(g, scopeMax, above);
    HighestGenerationIs(g, above);
  }

  /** Every other tree node: a terminal node of the current generation keeps its stored
      status, a non-terminal one is running or pending; no ancestor is named. */
  lemma TreeKeeps(root: Id, g: Graph, scopeMax: Lineage.ScopeMax, out: map<Id, Inferred>, above: seq<Id>, id: Id)
    requires OnTree(root, g, scopeMax, out, above, id)
    requires Decides(g[id], scopeMax) || (!IsTerminal(g[id]) && !SomeDecides(g, scopeMax, above))
    ensures var n := g[id];
            out[id] == Inferred(
                if IsTerminal(n) then n.status.value
                else if n.status == Some("running") then "running" else "pending", None)
  {
    hide StampOf, IsInference, TreeShaped, IsPath, HighestGeneration, Superseded, NearestDecider;
    TreeStatusIsPathStatus(root, g, scopeMax, out, above, id);
    NearestDeciderIs(g, scopeMax, above);
  }

  lemma SplitPath(root: Id, g: Graph, p: seq<Id>)
    requires IsPath(root, g, p)
    ensures p[..|p| - 1] + [p[|p| - 1]] == p && Known(g, p[..|p| - 1]) && p[|p| - 1] in g
  {
    hide Children;
  }

  lemma TreeAgrees(root: Id, g: Graph, scopeMax: Lineage.ScopeMax, out: map<Id, Inferred>, out': map<Id, Inferred>,
                   id: Id)
    requires TreeShaped(root, g) && id in g
    requires IsInference(Some(root), g, scopeMax, out) && IsInference(Some(root), g, scopeMax, out')
    ensures id in out && id in out' && out[id] == out'[id]
  {
    hide PathStatus, Children, TreeShaped, Judge, ContextOf;
    if Reachable(Some(root), g, id) {
      var p :| EndsAt(root, g, p, id);
      SplitPath(root, g, p);
      hide IsPath;
      TreeStatusIsPathStatus(root, g, scopeMax, out, p[..|p| - 1], id);
      TreeStatusIsPathStatus(root, g, scopeMax, out', p[..|p| - 1], id);
    }
  }

  /** On a tree the result does not depend on the order of the walk. */
  lemma TreeInferenceUnique(root: Id, g: Graph, scopeMax: Lineage.ScopeMax,
                            out: map<Id, Inferred>, out': map<Id, Inferred>)
    requires TreeShaped(root, g)
    requires IsInference(Some(root), g, scopeMax, out) && IsInference(Some(root), g, scopeMax, out')
    ensures out == out'
  {
    assert out.Keys == g.Keys == out'.Keys;
    hide IsInference, TreeShaped;
    forall id | id in g ensures out[id] == out'[id] {
      TreeAgrees(root, g, scopeMax, out, out', id);
    }
  }
}
