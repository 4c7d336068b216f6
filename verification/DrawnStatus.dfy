/** `df.explain` draws a graph whose statuses it has inferred (src/explain.rs:95-130): the
    drawing and the inference walk the same nodes, although each enumerates children by
    itself (src/node_status.rs:168-211, src/explain.rs:484-641). */
module DrawnStatus {
  import opened Prelude
  import opened Explain
  import NodeStatus

  function KindOf(k: Kind): NodeStatus.Kind {
    match k
    case Then => NodeStatus.Then
    case Loop => NodeStatus.Loop
    case If => NodeStatus.If
    case Join => NodeStatus.Join
    case Race => NodeStatus.Race
    case Plain => NodeStatus.Other
  }

  /** The same node as inference reads it; `status` and `stamp` are not drawn as such. */
  datatype Stored = Stored(node: Node, status: Option<string>, stamp: Option<string>)

  function FactsOf(s: Stored): NodeStatus.Node {
    NodeStatus.Node(KindOf(s.node.kind), s.node.left, s.node.right, s.node.condition, s.node.extras, s.status, s.stamp)
  }

  type Table = map<Id, Stored>

  function Drawing(t: Table): Graph { map id | id in t :: t[id].node }

  function Facts(t: Table): NodeStatus.Graph { map id | id in t :: FactsOf(t[id]) }

  lemma ChildrenConcat(a: seq<Block>, b: seq<Block>)
    ensures Children(a + b) == Children(a) + Children(b)
  {
  }

  lemma ChildrenOptional(text: string, child: Option<Id>)
    ensures Children(Optional(text, child)) == ToSeq(child)
  {
  }

  lemma ChildrenOfBranches(branches: seq<Id>)
    ensures Children(BranchBlocks(branches)) == branches
  {
  }

  /** Both enumerations give the same children in the same order. */
  lemma SameChildren(s: Stored)
    ensures Kids(s.node) == NodeStatus.Children(FactsOf(s))
  {
    hide Children, Optional, BranchBlocks;
    var n := s.node;
    match n.kind {
      case Loop =>
        ChildrenConcat(Optional("↻ body:", n.left), Optional("? while:", n.condition));
        ChildrenOptional("↻ body:", n.left);
        ChildrenOptional("? while:", n.condition);
      case If =>
        ChildrenConcat(Optional("? condition:", n.condition) + Optional("✓ then:", n.left),
          Optional("✗ else:", n.right));
        ChildrenConcat(Optional("? condition:", n.condition), Optional("✓ then:", n.left));
        ChildrenOptional("? condition:", n.condition);
        ChildrenOptional("✓ then:", n.left);
        ChildrenOptional("✗ else:", n.right);
      case Join => ChildrenOfBranches(Branches(n));
      case Race => ChildrenOfBranches(Branches(n));
      case _ =>
    }
  }

  lemma KidReached(g: Graph, rank: Id -> nat, kids: seq<Id>, r: nat, i: nat)
    requires Acyclic(g, rank) && KidsBelow(kids, rank, r) && i < |kids|
    ensures Reach(g, rank, kids[i]) <= ReachAll(g, rank, kids, r)
    decreases |kids|
  {
    hide Acyclic, Reach;
    if i > 0 {
      assert kids[1..][i - 1] == kids[i];
      KidReached(g, rank, kids[1..], r, i - 1);
    }
  }

  lemma {:induction false} ReachedByKid(g: Graph, rank: Id -> nat, kids: seq<Id>, r: nat, x: Id) returns (i: nat)
    requires Acyclic(g, rank) && KidsBelow(kids, rank, r) && x in ReachAll(g, rank, kids, r)
    ensures i < |kids| && x in Reach(g, rank, kids[i])
    decreases |kids|
  {
    hide Acyclic, Reach;
    if x in Reach(g, rank, kids[0]) {
      i := 0;
    } else {
      i := ReachedByKid(g, rank, kids[1..], r, x);
      i := i + 1;
    }
  }

  lemma ReachStep(g: Graph, rank: Id -> nat, id: Id)
    requires Acyclic(g, rank) && rank(id) > 0 && id in g
    ensures KidsBelow(Kids(g[id]), rank, rank(id))
    ensures Reach(g, rank, id) == {id} + ReachAll(g, rank, Kids(g[id]), rank(id))
  {
    KidsAreBelow(g, rank, id);
  }

  /** Every path of the inference stays within what the drawing reaches. */
  lemma {:induction false} PathIsReached(t: Table, rank: Id -> nat, root: Id, p: seq<Id>)
    requires Acyclic(Drawing(t), rank) && rank(root) > 0 && NodeStatus.IsPath(root, Facts(t), p)
    ensures p[|p| - 1] in Reach(Drawing(t), rank, root)
    decreases |p|
  {
    hide Acyclic;
    var g := Drawing(t);
    ReachStep(g, rank, root);
    if |p| > 1 {
      var kid := p[1];
      SameChildren(t[root]);
      assert kid in Kids(g[root]);
      var i :| 0 <= i < |Kids(g[root])| && Kids(g[root])[i] == kid;
      PathTail(root, Facts(t), p);
      PathIsReached(t, rank, kid, p[1..]);
      KidReached(g, rank, Kids(g[root]), rank(root), i);
    }
  }

  lemma PathTail(root: Id, f: NodeStatus.Graph, p: seq<Id>)
    requires NodeStatus.IsPath(root, f, p) && |p| > 1
    ensures p[0] in f && p[1] in f && p[1] in NodeStatus.Children(f[p[0]])
    ensures NodeStatus.IsPath(p[1], f, p[1..]) && p[1..][|p[1..]| - 1] == p[|p| - 1]
  {
    hide NodeStatus.Children;
    assert forall i :: 0 < i < |p| ==> p[i] in NodeStatus.Children(f[p[i - 1]]);
  }

  lemma PathExtends(root: Id, f: NodeStatus.Graph, p: seq<Id>, kid: Id)
    requires NodeStatus.IsPath(root, f, p) && kid in f && kid in NodeStatus.Children(f[p[|p| - 1]])
    ensures NodeStatus.IsPath(root, f, p + [kid])
  {
    hide NodeStatus.Children;
  }

  /** Everything the drawing reaches lies on a path of the inference. */
  lemma {:induction false} ReachedByPath(t: Table, rank: Id -> nat, root: Id, p: seq<Id>, x: Id) returns (q: seq<Id>)
    requires Acyclic(Drawing(t), rank) && NodeStatus.IsPath(root, Facts(t), p) && rank(p[|p| - 1]) > 0
    requires x in Reach(Drawing(t), rank, p[|p| - 1])
    ensures NodeStatus.EndsAt(root, Facts(t), q, x)
    decreases rank(p[|p| - 1])
  {
    hide Acyclic;
    var g, id := Drawing(t), p[|p| - 1];
    ReachStep(g, rank, id);
    if x == id {
      q := p;
    } else {
      var kids := Kids(g[id]);
      var i := ReachedByKid(g, rank, kids, rank(id), x);
      SameChildren(t[id]);
      assert kids[i] in kids && kids[i] in g;
      PathExtends(root, Facts(t), p, kids[i]);
      q := ReachedByPath(t, rank, root, p + [kids[i]], x);
    }
  }

  /** Reached by the drawing exactly when reached by the inference's walk. */
  lemma ReachIsReachable(t: Table, rank: Id -> nat, root: Id, x: Id)
    requires Acyclic(Drawing(t), rank) && rank(root) > 0
    ensures x in Reach(Drawing(t), rank, root) <==> NodeStatus.Reachable(Some(root), Facts(t), x)
  {
    hide Acyclic, NodeStatus.Children;
    if x in Reach(Drawing(t), rank, root) {
      var q := ReachedByPath(t, rank, root, [root], x);
    }
    if NodeStatus.Reachable(Some(root), Facts(t), x) {
      var p :| NodeStatus.EndsAt(root, Facts(t), p, x);
      PathIsReached(t, rank, root, p);
    }
  }

  lemma {:induction false} PreorderIsReach(g: Graph, rank: Id -> nat, id: Id, x: Id)
    requires Acyclic(g, rank) && rank(id) > 0
    ensures x in Preorder(g, rank, id) <==> x in Reach(g, rank, id) && x in g && !g[x].kind.Then?
    decreases rank(id), 1, 0
  {
    if id in g {
      KidsAreBelow(g, rank, id);
      PreorderAllIsReach(g, rank, Kids(g[id]), rank(id), x);
    }
  }

  lemma {:induction false} PreorderAllIsReach(g: Graph, rank: Id -> nat, kids: seq<Id>, r: nat, x: Id)
    requires Acyclic(g, rank) && KidsBelow(kids, rank, r)
    ensures x in PreorderAll(g, rank, kids, r) <==> x in ReachAll(g, rank, kids, r) && x in g && !g[x].kind.Then?
    decreases r, 0, |kids|
  {
    if kids != [] {
      PreorderIsReach(g, rank, kids[0], x);
      PreorderAllIsReach(g, rank, kids[1..], r, x);
    }
  }

  /** On every graph that can be drawn, shared children included, the nodes drawn are exactly the nodes
      that are not a THEN and whose status the inference derived from a path. */
  lemma DrawnIffInferred(t: Table, rank: Id -> nat, root: Id, prefix: string, isLast: bool, x: Id)
    requires Acyclic(Drawing(t), rank) && rank(root) > 0
    ensures x in Drawn(TreeLines(Drawing(t), rank, root, prefix, isLast)) <==>
            x in t && !t[x].node.kind.Then? && NodeStatus.Reachable(Some(root), Facts(t), x)
  {
    DrawnIsPreorder(Drawing(t), rank, root, prefix, isLast);
    PreorderIsReach(Drawing(t), rank, root, x);
    ReachIsReachable(t, rank, root, x);
    hide Acyclic, NodeStatus.Reachable, Drawn, TreeLines, Preorder, Reach;
  }

  // ----- one notion of tree -----

  lemma {:induction false} KidsApart(g: Graph, rank: Id -> nat, kids: seq<Id>, r: nat, i: nat, j: nat)
    requires Acyclic(g, rank) && KidsBelow(kids, rank, r) && TreeFromAll(g, rank, kids, r) && i < j < |kids|
    ensures Reach(g, rank, kids[i]) !! Reach(g, rank, kids[j])
    decreases |kids|
  {
    hide Acyclic, Reach, TreeFrom;
    if i == 0 {
      KidReached(g, rank, kids[1..], r, j - 1);
    } else {
      KidsApart(g, rank, kids[1..], r, i - 1, j - 1);
    }
  }

  lemma {:induction false} KidIsTree(g: Graph, rank: Id -> nat, kids: seq<Id>, r: nat, i: nat)
    requires Acyclic(g, rank) && KidsBelow(kids, rank, r) && TreeFromAll(g, rank, kids, r) && i < |kids|
    ensures TreeFrom(g, rank, kids[i])
    decreases |kids|
  {
    hide Acyclic, Reach, TreeFrom;
    if i > 0 { KidIsTree(g, rank, kids[1..], r, i - 1); }
  }

  /** Where children reach disjoint sets, a node has one path only. */
  lemma {:induction false} OnePath(t: Table, rank: Id -> nat, root: Id, p: seq<Id>, q: seq<Id>)
    requires Acyclic(Drawing(t), rank) && rank(root) > 0 && TreeFrom(Drawing(t), rank, root)
    requires NodeStatus.IsPath(root, Facts(t), p) && NodeStatus.IsPath(root, Facts(t), q) && p[|p| - 1] == q[|q| - 1]
    ensures p == q
    decreases |p|
  {
    hide Acyclic, Reach, TreeFrom, NodeStatus.Children;
    if |p| > 1 && |q| > 1 {
      SameKid(t, rank, root, p, q);
      var i := KidOnPath(t, rank, root, p);
      var j := KidOnPath(t, rank, root, q);
      hide NodeStatus.IsPath;
      OnePath(t, rank, p[1], p[1..], q[1..]);
      assert p == [p[0]] + p[1..] && q == [q[0]] + q[1..];
    } else {
      if |p| > 1 { BelowRoot(t, rank, root, p); }
      if |q| > 1 { BelowRoot(t, rank, root, q); }
      assert p == [root] && q == [root];
    }
  }

  /** Two paths to one node leave the root by the same child, whose own graph is a tree. */
  lemma SameKid(t: Table, rank: Id -> nat, root: Id, p: seq<Id>, q: seq<Id>)
    requires Acyclic(Drawing(t), rank) && rank(root) > 0 && TreeFrom(Drawing(t), rank, root)
    requires NodeStatus.IsPath(root, Facts(t), p) && NodeStatus.IsPath(root, Facts(t), q) && p[|p| - 1] == q[|q| - 1]
    requires |p| > 1 && |q| > 1
    ensures p[1] == q[1] && rank(p[1]) > 0 && TreeFrom(Drawing(t), rank, p[1])
  {
    hide Acyclic, Reach, TreeFrom, TreeFromAll, Kids, Drawing, Facts, NodeStatus.IsPath;
    var i := KidOnPath(t, rank, root, p);
    var j := KidOnPath(t, rank, root, q);
    var g := Drawing(t);
    var kids := Kids(g[root]);
    KidsAreTrees(g, rank, root);
    if i < j { KidsApart(g, rank, kids, rank(root), i, j); }
    if j < i { KidsApart(g, rank, kids, rank(root), j, i); }
    KidIsTree(g, rank, kids, rank(root), i);
  }

  lemma KidsAreTrees(g: Graph, rank: Id -> nat, id: Id)
    requires Acyclic(g, rank) && rank(id) > 0 && id in g && TreeFrom(g, rank, id)
    ensures KidsBelow(Kids(g[id]), rank, rank(id)) && TreeFromAll(g, rank, Kids(g[id]), rank(id))
  {
    KidsAreBelow(g, rank, id);
  }

  /** The second node of a path is a child of the first, and reaches the path's end. */
  lemma KidOnPath(t: Table, rank: Id -> nat, root: Id, p: seq<Id>) returns (i: nat)
    requires Acyclic(Drawing(t), rank) && rank(root) > 0 && NodeStatus.IsPath(root, Facts(t), p) && |p| > 1
    ensures root in Drawing(t) && i < |Kids(Drawing(t)[root])| && Kids(Drawing(t)[root])[i] == p[1]
    ensures NodeStatus.IsPath(p[1], Facts(t), p[1..]) && p[1..][|p[1..]| - 1] == p[|p| - 1]
    ensures rank(p[1]) > 0 && p[|p| - 1] in Reach(Drawing(t), rank, p[1])
  {
    hide Acyclic, Reach;
    PathTail(root, Facts(t), p);
    SameChildren(t[root]);
    i :| 0 <= i < |Kids(Drawing(t)[root])| && Kids(Drawing(t)[root])[i] == p[1];
    KidsAreBelow(Drawing(t), rank, root);
    PathIsReached(t, rank, p[1], p[1..]);
  }

  lemma BelowRoot(t: Table, rank: Id -> nat, root: Id, p: seq<Id>)
    requires Acyclic(Drawing(t), rank) && rank(root) > 0 && NodeStatus.IsPath(root, Facts(t), p) && |p| > 1
    ensures p[|p| - 1] != root
  {
    hide Reach;
    var i := KidOnPath(t, rank, root, p);
    KidsAreBelow(Drawing(t), rank, root);
    ReachIsBelow(Drawing(t), rank, p[1]);
  }

  /** A graph whose drawing is a tree is a tree for the inference: all that is proved of either
      on trees holds of the same graphs. */
  lemma DrawnTreeIsTree(t: Table, rank: Id -> nat, root: Id)
    requires Acyclic(Drawing(t), rank) && rank(root) > 0 && TreeFrom(Drawing(t), rank, root)
    ensures NodeStatus.TreeShaped(root, Facts(t))
  {
    hide Acyclic, TreeFrom, NodeStatus.Children;
    forall p, q | NodeStatus.IsPath(root, Facts(t), p) && NodeStatus.IsPath(root, Facts(t), q)
      && p[|p| - 1] == q[|q| - 1]
      ensures p == q
    {
      OnePath(t, rank, root, p, q);
    }
  }
}
