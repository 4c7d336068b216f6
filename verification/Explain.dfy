/** The tree drawing of `df.explain` (src/explain.rs:380-641). */
module Explain {
  import opened Prelude
  import opened Text

  type Id = string

  /** Node types as the drawing tells them apart. `Plain` stands for all types that draw no
      children. */
  datatype Kind = Then | Loop | If | Join | Race | Plain

  datatype Node = Node(kind: Kind, left: Option<Id>, right: Option<Id>, condition: Option<Id>, extras: seq<Id>,
    display: string)

  type Graph = map<Id, Node>

  /** A drawn line: a node's own line, or the heading of a branch. */
  datatype Line = Item(prefix: string, connector: string, id: Id) | Heading(prefix: string, text: string)

  /** A branch below a node: its heading, its node, and whether it is drawn as the last one. */
  datatype Block = Block(text: string, child: Id, isLast: bool)

  function Optional(text: string, child: Option<Id>): seq<Block> {
    match child
    case None => []
    case Some(c) => [Block(text, c, true)]
  }

  function Branches(n: Node): seq<Id> {
    ToSeq(n.left) + ToSeq(n.right) + (if n.kind.Join? then n.extras else [])
  }

  function BranchBlocks(branches: seq<Id>): (r: seq<Block>)
    ensures |r| == |branches| && forall i :: 0 <= i < |r| ==> r[i].child == branches[i]
  {
    seq(|branches|,
      i requires 0 <= i < |branches| => Block("║ branch " + Digits(i + 1) + ":", branches[i], i == |branches| - 1))
  }

  /** The branches `render_children` draws below a node. */
  function Blocks(n: Node): seq<Block> {
    match n.kind
    case Loop => Optional("↻ body:", n.left) + Optional("? while:", n.condition)
    case If => Optional("? condition:", n.condition) + Optional("✓ then:", n.left) + Optional("✗ else:", n.right)
    case Join => BranchBlocks(Branches(n))
    case Race => BranchBlocks(Branches(n))
    case Then => []
    case Plain => []
  }

  /** The children a drawing follows. */
  function Kids(n: Node): seq<Id> {
    if n.kind.Then? then ToSeq(n.left) + ToSeq(n.right) else Children(Blocks(n))
  }

  function Children(blocks: seq<Block>): (r: seq<Id>)
    ensures |r| == |blocks| && forall i :: 0 <= i < |r| ==> r[i] == blocks[i].child
  {
    seq(|blocks|, i requires 0 <= i < |blocks| => blocks[i].child)
  }

  ghost predicate KidsBelow(kids: seq<Id>, rank: Id -> nat, r: nat) {
    forall i :: 0 <= i < |kids| ==> 0 < rank(kids[i]) < r
  }

  /** The ranked nodes are closed under the children that are drawn, and rank above them. Zero
      ranks nothing: what is never drawn may be anything. `RankedIffNoCycle` says that a root can
      be ranked exactly when the drawing from it meets no cycle, that is, when the source's
      recursion ends. */
  ghost predicate Acyclic(g: Graph, rank: Id -> nat) {
    forall id :: id in g && rank(id) > 0 ==> KidsBelow(Kids(g[id]), rank, rank(id))
  }

  lemma LinksAreBelow(g: Graph, rank: Id -> nat, id: Id)
    requires Acyclic(g, rank) && rank(id) > 0 && id in g && g[id].kind.Then?
    ensures g[id].left.Some? ==> 0 < rank(g[id].left.value) < rank(id)
    ensures g[id].right.Some? ==> 0 < rank(g[id].right.value) < rank(id)
  {
    var n := g[id];
    assert n.left.Some? ==> Kids(n)[0] == n.left.value;
    assert n.right.Some? ==> Kids(n)[|ToSeq(n.left)|] == n.right.value;
  }

  lemma BlocksAreBelow(g: Graph, rank: Id -> nat, id: Id)
    requires Acyclic(g, rank) && rank(id) > 0 && id in g
    ensures BlocksBelow(Blocks(g[id]), rank, rank(id))
  {
    var n := g[id];
    if !n.kind.Then? {
      assert forall i :: 0 <= i < |Blocks(n)| ==> Kids(n)[i] == Blocks(n)[i].child;
    }
  }

  // ----- specification -----

  /** The non-THEN frontier under `id`, left to right. */
  ghost function Sequence(g: Graph, rank: Id -> nat, id: Id): (r: seq<Id>)
    requires Acyclic(g, rank) && rank(id) > 0
    ensures forall x :: x in r ==> x in g && !g[x].kind.Then? && 0 < rank(x) <= rank(id)
    ensures id in g && g[id].kind.Then? ==> forall x :: x in r ==> rank(x) < rank(id)
    decreases rank(id)
  {
    if id !in g then []
    else
      var n := g[id];
      if n.kind.Then? then
        LinksAreBelow(g, rank, id);
        (if n.left.Some? then Sequence(g, rank, n.left.value) else []) +
        (if n.right.Some? then Sequence(g, rank, n.right.value) else [])
      else [id]
  }

  ghost function OptSequence(g: Graph, rank: Id -> nat, id: Option<Id>): seq<Id>
    requires Acyclic(g, rank) && (id.Some? ==> rank(id.value) > 0)
  {
    if id.Some? then Sequence(g, rank, id.value) else []
  }

  lemma SequenceOfThen(g: Graph, rank: Id -> nat, id: Id)
    requires Acyclic(g, rank) && rank(id) > 0 && id in g && g[id].kind.Then?
    ensures g[id].left.Some? ==> 0 < rank(g[id].left.value) < rank(id)
    ensures g[id].right.Some? ==> 0 < rank(g[id].right.value) < rank(id)
    ensures Sequence(g, rank, id) == OptSequence(g, rank, g[id].left) + OptSequence(g, rank, g[id].right)
  {
    LinksAreBelow(g, rank, id);
  }

  lemma SequenceOfOther(g: Graph, rank: Id -> nat, id: Id)
    requires Acyclic(g, rank) && rank(id) > 0 && (id in g ==> !g[id].kind.Then?)
    ensures Sequence(g, rank, id) == if id in g then [id] else []
  {
  }

  function Connector(prefix: string, isLast: bool): string {
    if prefix == "" then "" else if isLast then "└─" else "├─"
  }

  function ChildPrefix(prefix: string, isLast: bool): string {
    if prefix == "" then "    " else if isLast then prefix + "    " else prefix + "│   "
  }

  ghost function TreeLines(g: Graph, rank: Id -> nat, id: Id, prefix: string, isLast: bool): seq<Line>
    requires Acyclic(g, rank) && rank(id) > 0
    decreases rank(id), 2, 0
  {
    if id !in g then []
    else if g[id].kind.Then?
      then SequenceLines(g, rank, Sequence(g, rank, id), rank(id), prefix, Connector(prefix, isLast))
    else [Item(prefix, Connector(prefix, isLast), id)] + ChildLines(g, rank, id, ChildPrefix(prefix, isLast))
  }

  ghost predicate AllBelow(items: seq<Id>, g: Graph, rank: Id -> nat, r: nat) {
    forall x :: x in items ==> x in g && 0 < rank(x) < r
  }

  /** The items of a flattened sequence, each with its children; later ones get an arrow. */
  ghost function SequenceLines(g: Graph, rank: Id -> nat, items: seq<Id>, r: nat, prefix: string,
                               connector: string): seq<Line>
    requires Acyclic(g, rank) && AllBelow(items, g, rank, r)
    decreases r, 1, |items|
  {
    if items == [] then []
    else
      [Item(prefix, connector, items[0])] + ChildLines(g, rank, items[0], prefix + "    ") +
      SequenceLines(g, rank, items[1..], r, prefix, "→ ")
  }

  ghost function ChildLines(g: Graph, rank: Id -> nat, id: Id, prefix: string): seq<Line>
    requires Acyclic(g, rank) && rank(id) > 0 && id in g
    decreases rank(id), 0, 0
  {
    BlocksAreBelow(g, rank, id);
    BlockLines(g, rank, Blocks(g[id]), rank(id), prefix)
  }

  ghost predicate BlocksBelow(blocks: seq<Block>, rank: Id -> nat, r: nat) {
    forall i :: 0 <= i < |blocks| ==> 0 < rank(blocks[i].child) < r
  }

  ghost function BlockLines(g: Graph, rank: Id -> nat, blocks: seq<Block>, r: nat, prefix: string): seq<Line>
    requires Acyclic(g, rank) && BlocksBelow(blocks, rank, r)
    decreases r, 0, 0, |blocks|
  {
    if blocks == [] then []
    else
      [Heading(prefix, blocks[0].text)] + TreeLines(g, rank, blocks[0].child, prefix + "  ", blocks[0].isLast) +
      BlockLines(g, rank, blocks[1..], r, prefix)
  }

  // ----- the code, appending to its buffers -----

  /** `collect_sequence_recursive` */
  method CollectSequence(g: Graph, ghost rank: Id -> nat, id: Id, sequence: seq<Id>) returns (sequence': seq<Id>)
    requires Acyclic(g, rank) && rank(id) > 0
    ensures sequence' == sequence + Sequence(g, rank, id)
    decreases rank(id)
  {
    hide Acyclic, Sequence;
    sequence' := sequence;
    if id !in g {
      SequenceOfOther(g, rank, id);
    } else {
      var n := g[id];
      if n.kind.Then? {
        SequenceOfThen(g, rank, id);
        if n.left.Some? { sequence' := CollectSequence(g, rank, n.left.value, sequence'); }
        if n.right.Some? { sequence' := CollectSequence(g, rank, n.right.value, sequence'); }
      } else {
        SequenceOfOther(g, rank, id);
        sequence' := sequence' + [id];
      }
    }
  }

  /** `build_tree_recursive` */
  method BuildTree(g: Graph, ghost rank: Id -> nat, id: Id, prefix: string, isLast: bool, output: seq<Line>)
      returns (output': seq<Line>)
    requires Acyclic(g, rank) && rank(id) > 0
    ensures output' == output + TreeLines(g, rank, id, prefix, isLast)
    decreases rank(id), 2
  {
    hide Acyclic, Sequence, ChildLines, SequenceLines, Connector, ChildPrefix;
    if id !in g {
      return output;
    }
    var connector := Connector(prefix, isLast);
    if g[id].kind.Then? {
      var sequence := CollectSequence(g, rank, id, []);
      assert sequence == Sequence(g, rank, id);
      output' := DrawSequence(g, rank, sequence, rank(id), prefix, connector, output);
    } else {
      output' := RenderChildren(g, rank, id, ChildPrefix(prefix, isLast), output + [Item(prefix, connector, id)]);
      assert output' == output + ([Item(prefix, connector, id)] + ChildLines(g, rank, id, ChildPrefix(prefix, isLast)));
    }
  }

  /** The loop of `build_tree_recursive` over a flattened sequence. */
  method DrawSequence(g: Graph, ghost rank: Id -> nat, sequence: seq<Id>, ghost r: nat, prefix: string,
                      connector: string,
                      output: seq<Line>) returns (output': seq<Line>)
    requires Acyclic(g, rank) && AllBelow(sequence, g, rank, r)
    ensures output' == output + SequenceLines(g, rank, sequence, r, prefix, connector)
    decreases r, 1
  {
    hide Acyclic, ChildLines, SequenceLines;
    output' := output;
    ghost var lines := SequenceLines(g, rank, sequence, r, prefix, connector);
    assert sequence[0..] == sequence;
    for i := 0 to |sequence|
      invariant output' + SequenceLines(g, rank, sequence[i..], r, prefix, if i == 0 then connector else "→ ") ==
                output + lines
    {
      var arrow := if i == 0 then connector else "→ ";
      SequenceLinesStep(g, rank, sequence, i, r, prefix, arrow);
      ghost var before := output';
      output' := RenderChildren(g, rank, sequence[i], prefix + "    ", output' + [Item(prefix, arrow, sequence[i])]);
      assert output' == before +
        ([Item(prefix, arrow, sequence[i])] + ChildLines(g, rank, sequence[i], prefix + "    "));
    }
    NoSequenceLines(g, rank, r, prefix, if |sequence| == 0 then connector else "→ ");
    assert sequence[|sequence|..] == [];
  }

  lemma NoSequenceLines(g: Graph, rank: Id -> nat, r: nat, prefix: string, connector: string)
    requires Acyclic(g, rank)
    ensures SequenceLines(g, rank, [], r, prefix, connector) == []
  {
  }

  lemma SequenceLinesStep(g: Graph, rank: Id -> nat, items: seq<Id>, i: nat, r: nat, prefix: string, connector: string)
    requires Acyclic(g, rank) && AllBelow(items, g, rank, r) && i < |items|
    ensures items[i] in g && 0 < rank(items[i]) < r
    ensures SequenceLines(g, rank, items[i..], r, prefix, connector) ==
            [Item(prefix, connector, items[i])] + ChildLines(g, rank, items[i], prefix + "    ") +
            SequenceLines(g, rank, items[i + 1..], r, prefix, "→ ")
  {
    hide Acyclic, ChildLines;
    assert items[i] in items;
    assert items[i..][0] == items[i] && items[i..][1..] == items[i + 1..];
  }

  /** `render_children` */
  method RenderChildren(g: Graph, ghost rank: Id -> nat, id: Id, prefix: string, output: seq<Line>)
      returns (output': seq<Line>)
    requires Acyclic(g, rank) && rank(id) > 0 && id in g
    ensures output' == output + ChildLines(g, rank, id, prefix)
    decreases rank(id), 0, 1
  {
    BlocksAreBelow(g, rank, id);
    output' := DrawBlocks(g, rank, Blocks(g[id]), rank(id), prefix, output);
  }

  method DrawBlocks(g: Graph, ghost rank: Id -> nat, blocks: seq<Block>, ghost r: nat, prefix: string,
                    output: seq<Line>)
      returns (output': seq<Line>)
    requires Acyclic(g, rank) && BlocksBelow(blocks, rank, r)
    ensures output' == output + BlockLines(g, rank, blocks, r, prefix)
    decreases r, 0, 0
  {
    hide Acyclic, BlockLines, TreeLines, BlocksBelow;
    output' := output;
    ghost var lines := BlockLines(g, rank, blocks, r, prefix);
    assert blocks[0..] == blocks;
    for i := 0 to |blocks|
      invariant BlocksBelow(blocks[i..], rank, r)
      invariant output' + BlockLines(g, rank, blocks[i..], r, prefix) == output + lines
    {
      BlockLinesStep(g, rank, blocks, i, r, prefix);
      ghost var before := output';
      output' := BuildTree(g, rank, blocks[i].child, prefix + "  ", blocks[i].isLast,
                           output' + [Heading(prefix, blocks[i].text)]);
      assert output' == before +
        ([Heading(prefix, blocks[i].text)] + TreeLines(g, rank, blocks[i].child, prefix + "  ", blocks[i].isLast));
    }
    NoBlockLines(g, rank, r, prefix);
    assert blocks[|blocks|..] == [];
  }

  lemma NoBlockLines(g: Graph, rank: Id -> nat, r: nat, prefix: string)
    requires Acyclic(g, rank)
    ensures BlocksBelow([], rank, r) && BlockLines(g, rank, [], r, prefix) == []
  {
  }

  lemma BlockLinesStep(g: Graph, rank: Id -> nat, blocks: seq<Block>, i: nat, r: nat, prefix: string)
    requires Acyclic(g, rank) && BlocksBelow(blocks, rank, r) && i < |blocks|
    ensures 0 < rank(blocks[i].child) < r && BlocksBelow(blocks[i..], rank, r) && BlocksBelow(blocks[i + 1..], rank, r)
    ensures BlockLines(g, rank, blocks[i..], r, prefix) ==
            [Heading(prefix, blocks[i].text)] + TreeLines(g, rank, blocks[i].child, prefix + "  ", blocks[i].isLast) +
            BlockLines(g, rank, blocks[i + 1..], r, prefix)
  {
    hide Acyclic, TreeLines;
    assert blocks[i..][0] == blocks[i] && blocks[i..][1..] == blocks[i + 1..];
  }

  // ----- the drawing in so many words -----

  /** What is drawn below a prefix for one branch: its heading, and its tree two columns further in. */
  ghost function Branch(g: Graph, rank: Id -> nat, prefix: string, text: string, child: Id, isLast: bool): seq<Line>
    requires Acyclic(g, rank) && rank(child) > 0
  {
    [Heading(prefix, text)] + TreeLines(g, rank, child, prefix + "  ", isLast)
  }

  lemma OneBlock(g: Graph, rank: Id -> nat, r: nat, prefix: string, block: Block, rest: seq<Block>)
    requires Acyclic(g, rank) && BlocksBelow([block] + rest, rank, r)
    ensures BlocksBelow(rest, rank, r) && 0 < rank(block.child) < r
    ensures BlockLines(g, rank, [block] + rest, r, prefix) ==
            Branch(g, rank, prefix, block.text, block.child, block.isLast) + BlockLines(g, rank, rest, r, prefix)
  {
    assert ([block] + rest)[0] == block && ([block] + rest)[1..] == rest;
    assert forall i :: 0 <= i < |rest| ==> rest[i] == ([block] + rest)[i + 1];
    hide TreeLines, Acyclic;
  }

  lemma TwoBlocks(g: Graph, rank: Id -> nat, r: nat, prefix: string, a: Block, b: Block)
    requires Acyclic(g, rank) && BlocksBelow([a, b], rank, r)
    ensures 0 < rank(a.child) < r && 0 < rank(b.child) < r
    ensures BlockLines(g, rank, [a, b], r, prefix) ==
            Branch(g, rank, prefix, a.text, a.child, a.isLast) + Branch(g, rank, prefix, b.text, b.child, b.isLast)
  {
    assert [a] + [b] == [a, b] && [b] + [] == [b];
    OneBlock(g, rank, r, prefix, a, [b]);
    OneBlock(g, rank, r, prefix, b, []);
    NoBlockLines(g, rank, r, prefix);
  }

  /** A node on its own line: nothing before it at the margin, otherwise the last or a middle
      connector; its branches are indented by four. */
  lemma NodeIsDrawn(g: Graph, rank: Id -> nat, id: Id, prefix: string, isLast: bool)
    requires Acyclic(g, rank) && rank(id) > 0 && id in g && !g[id].kind.Then?
    ensures prefix == "" ==>
            TreeLines(g, rank, id, prefix, isLast) == [Item("", "", id)] + ChildLines(g, rank, id, "    ")
    ensures prefix != "" && isLast ==>
              TreeLines(g, rank, id, prefix, isLast) ==
              [Item(prefix, "└─", id)] + ChildLines(g, rank, id, prefix + "    ")
    ensures prefix != "" && !isLast ==>
              TreeLines(g, rank, id, prefix, isLast) ==
              [Item(prefix, "├─", id)] + ChildLines(g, rank, id, prefix + "│   ")
  {
  }

  lemma TwoItems(g: Graph, rank: Id -> nat, r: nat, prefix: string, connector: string, a: Id, b: Id)
    requires Acyclic(g, rank) && AllBelow([a, b], g, rank, r)
    ensures a in g && b in g && rank(a) > 0 && rank(b) > 0
    ensures SequenceLines(g, rank, [a, b], r, prefix, connector) ==
            [Item(prefix, connector, a)] + ChildLines(g, rank, a, prefix + "    ") +
            ([Item(prefix, "→ ", b)] + ChildLines(g, rank, b, prefix + "    "))
  {
    SequenceLinesStep(g, rank, [a, b], 0, r, prefix, connector);
    SequenceLinesStep(g, rank, [a, b], 1, r, prefix, "→ ");
    NoSequenceLines(g, rank, r, prefix, "→ ");
    hide Acyclic, SequenceLines, ChildLines;
    assert [a, b][0..] == [a, b] && [a, b][2..] == [] && [a, b][1..] == [b];
  }

  /** A chain of two: the second item on its own line after an arrow. */
  lemma ChainIsDrawn(g: Graph, rank: Id -> nat, id: Id, a: Id, b: Id)
    requires Acyclic(g, rank) && rank(id) > 0 && id in g && g[id].kind.Then? && Sequence(g, rank, id) == [a, b]
    ensures a in g && b in g && rank(a) > 0 && rank(b) > 0
    ensures TreeLines(g, rank, id, "", true) ==
            [Item("", "", a)] + ChildLines(g, rank, a, "    ") + ([Item("", "→ ", b)] + ChildLines(g, rank, b, "    "))
  {
    hide Acyclic, SequenceLines, ChildLines, Sequence;
    TwoItems(g, rank, rank(id), "", "", a, b);
    assert "" + "    " == "    ";
  }

  /** A loop with a condition. */
  lemma LoopIsDrawn(g: Graph, rank: Id -> nat, id: Id, prefix: string, body: Id, condition: Id)
    requires Acyclic(g, rank) && rank(id) > 0 && id in g
    requires g[id].kind == Loop && g[id].left == Some(body) && g[id].condition == Some(condition)
    ensures rank(body) > 0 && rank(condition) > 0
    ensures ChildLines(g, rank, id, prefix) ==
            Branch(g, rank, prefix, "↻ body:", body, true) + Branch(g, rank, prefix, "? while:", condition, true)
  {
    BlocksAreBelow(g, rank, id);
    assert Blocks(g[id]) == [Block("↻ body:", body, true), Block("? while:", condition, true)];
    TwoBlocks(g, rank, rank(id), prefix, Block("↻ body:", body, true), Block("? while:", condition, true));
  }

  /** A conditional with all three parts. */
  lemma IfIsDrawn(g: Graph, rank: Id -> nat, id: Id, prefix: string, condition: Id, yes: Id, no: Id)
    requires Acyclic(g, rank) && rank(id) > 0 && id in g
    requires g[id].kind == If && g[id].condition == Some(condition) && g[id].left == Some(yes)
             && g[id].right == Some(no)
    ensures rank(condition) > 0 && rank(yes) > 0 && rank(no) > 0
    ensures ChildLines(g, rank, id, prefix) ==
            Branch(g, rank, prefix, "? condition:", condition, true) +
            (Branch(g, rank, prefix, "✓ then:", yes, true) + Branch(g, rank, prefix, "✗ else:", no, true))
  {
    BlocksAreBelow(g, rank, id);
    var a, b, c := Block("? condition:", condition, true), Block("✓ then:", yes, true), Block("✗ else:", no, true);
    assert Blocks(g[id]) == [a, b, c];
    assert [a] + [b, c] == [a, b, c];
    OneBlock(g, rank, rank(id), prefix, a, [b, c]);
    TwoBlocks(g, rank, rank(id), prefix, b, c);
  }

  /** Two branches that run side by side: numbered from one, the second drawn as the last. */
  lemma BranchesAreDrawn(g: Graph, rank: Id -> nat, id: Id, prefix: string, left: Id, right: Id)
    requires Acyclic(g, rank) && rank(id) > 0 && id in g
    requires g[id].kind == Race || (g[id].kind == Join && g[id].extras == [])
    requires g[id].left == Some(left) && g[id].right == Some(right)
    ensures rank(left) > 0 && rank(right) > 0
    ensures ChildLines(g, rank, id, prefix) ==
            Branch(g, rank, prefix, "║ branch 1:", left, false) + Branch(g, rank, prefix, "║ branch 2:", right, true)
  {
    BlocksAreBelow(g, rank, id);
    var a, b := Block("║ branch 1:", left, false), Block("║ branch 2:", right, true);
    assert Digits(1) == "1" && Digits(2) == "2";
    assert "║ branch " + "1" + ":" == "║ branch 1:" && "║ branch " + "2" + ":" == "║ branch 2:";
    assert Blocks(g[id]) == [a, b];
    TwoBlocks(g, rank, rank(id), prefix, a, b);
  }

  // ----- re-association leaves the drawing unchanged -----

  /** `id` is drawn as the same flattened sequence, or the same single node, in both graphs. */
  ghost predicate SamePosition(g: Graph, rank: Id -> nat, g': Graph, rank': Id -> nat, id: Id)
    requires Acyclic(g, rank) && Acyclic(g', rank') && rank(id) > 0 && rank'(id) > 0
  {
    && (id in g <==> id in g') && (id in g ==> g[id].kind.Then? == g'[id].kind.Then?)
    && Sequence(g, rank, id) == Sequence(g', rank', id)
  }

  /** The graphs agree outside their THEN nodes, and at every position below `id` that is
      drawn on its own: a child of a node that is not a THEN. */
  ghost predicate SameSkeleton(g: Graph, rank: Id -> nat, g': Graph, rank': Id -> nat)
    requires Acyclic(g, rank) && Acyclic(g', rank')
  {
    forall id :: id in g && rank(id) > 0 && rank'(id) > 0 && !g[id].kind.Then? ==>
      && id in g' && Blocks(g'[id]) == Blocks(g[id]) && !g'[id].kind.Then? && g'[id].display == g[id].display
      && (BlocksAreBelow(g, rank, id); BlocksAreBelow(g', rank', id);
          forall i :: 0 <= i < |Blocks(g[id])| ==> SamePosition(g, rank, g', rank', Blocks(g[id])[i].child))
  }

  /** The drawing depends on a graph only through its non-THEN nodes and the frontier of each
      drawn position: how a chain of `~>` is associated, and through which THEN nodes, is
      invisible. */
  lemma {:induction false} DrawingIgnoresAssociation(g: Graph, rank: Id -> nat, g': Graph, rank': Id -> nat,
                                                     id: Id, prefix: string, isLast: bool)
    requires Acyclic(g, rank) && Acyclic(g', rank') && rank(id) > 0 && rank'(id) > 0
    requires SameSkeleton(g, rank, g', rank') && SamePosition(g, rank, g', rank', id)
    ensures TreeLines(g, rank, id, prefix, isLast) == TreeLines(g', rank', id, prefix, isLast)
    decreases rank(id), 2, 0
  {
    if id in g {
      if g[id].kind.Then? {
        SameSequenceLines(g, rank, g', rank', Sequence(g, rank, id), rank(id), rank'(id), prefix,
          Connector(prefix, isLast));
      } else {
        SameChildLines(g, rank, g', rank', id, ChildPrefix(prefix, isLast));
      }
    }
  }

  lemma {:induction false} SameSequenceLines(g: Graph, rank: Id -> nat, g': Graph, rank': Id -> nat, items: seq<Id>,
                                             r: nat, r': nat, prefix: string, connector: string)
    requires Acyclic(g, rank) && Acyclic(g', rank') && SameSkeleton(g, rank, g', rank')
    requires AllBelow(items, g, rank, r) && AllBelow(items, g', rank', r')
    requires forall x :: x in items ==> !g[x].kind.Then?
    ensures SequenceLines(g, rank, items, r, prefix, connector) ==
            SequenceLines(g', rank', items, r', prefix, connector)
    decreases r, 1, |items|
  {
    if items != [] {
      assert items[0] in items;
      SameChildLines(g, rank, g', rank', items[0], prefix + "    ");
      SameSequenceLines(g, rank, g', rank', items[1..], r, r', prefix, "→ ");
    }
  }

  lemma {:induction false} SameChildLines(g: Graph, rank: Id -> nat, g': Graph, rank': Id -> nat, id: Id,
                                          prefix: string)
    requires Acyclic(g, rank) && Acyclic(g', rank') && rank(id) > 0 && rank'(id) > 0 && SameSkeleton(g, rank, g', rank')
    requires id in g && !g[id].kind.Then?
    ensures id in g' && ChildLines(g, rank, id, prefix) == ChildLines(g', rank', id, prefix)
    decreases rank(id), 0, 1
  {
    BlocksAreBelow(g, rank, id);
    BlocksAreBelow(g', rank', id);
    SameBlockLines(g, rank, g', rank', Blocks(g[id]), rank(id), rank'(id), prefix);
  }

  lemma {:induction false} SameBlockLines(g: Graph, rank: Id -> nat, g': Graph, rank': Id -> nat, blocks: seq<Block>,
                                          r: nat, r': nat, prefix: string)
    requires Acyclic(g, rank) && Acyclic(g', rank') && SameSkeleton(g, rank, g', rank')
    requires BlocksBelow(blocks, rank, r) && BlocksBelow(blocks, rank', r')
    requires forall i :: 0 <= i < |blocks| ==> SamePosition(g, rank, g', rank', blocks[i].child)
    ensures BlockLines(g, rank, blocks, r, prefix) == BlockLines(g', rank', blocks, r', prefix)
    decreases r, 0, 0, |blocks|
  {
    if blocks != [] {
      DrawingIgnoresAssociation(g, rank, g', rank', blocks[0].child, prefix + "  ", blocks[0].isLast);
      SameBlockLines(g, rank, g', rank', blocks[1..], r, r', prefix);
    }
  }

  lemma {:induction false} SequenceIgnoresRank(g: Graph, rank: Id -> nat, rank': Id -> nat, id: Id)
    requires Acyclic(g, rank) && Acyclic(g, rank') && rank(id) > 0 && rank'(id) > 0
    ensures Sequence(g, rank, id) == Sequence(g, rank', id)
    decreases rank(id)
  {
    hide Acyclic, Sequence;
    if id !in g || !g[id].kind.Then? {
      SequenceOfOther(g, rank, id);
      SequenceOfOther(g, rank', id);
    } else {
      SequenceOfThen(g, rank, id);
      SequenceOfThen(g, rank', id);
      if g[id].left.Some? { SequenceIgnoresRank(g, rank, rank', g[id].left.value); }
      if g[id].right.Some? { SequenceIgnoresRank(g, rank, rank', g[id].right.value); }
    }
  }

  /** The drawing is the graph's own: the ranking only shows that it ends. */
  lemma DrawingIgnoresRank(g: Graph, rank: Id -> nat, rank': Id -> nat, id: Id, prefix: string, isLast: bool)
    requires Acyclic(g, rank) && Acyclic(g, rank') && rank(id) > 0 && rank'(id) > 0
    ensures TreeLines(g, rank, id, prefix, isLast) == TreeLines(g, rank', id, prefix, isLast)
  {
    forall p | rank(p) > 0 && rank'(p) > 0 ensures SamePosition(g, rank, g, rank', p) {
      SequenceIgnoresRank(g, rank, rank', p);
    }
    forall n | n in g && rank(n) > 0 && rank'(n) > 0
      ensures BlocksBelow(Blocks(g[n]), rank, rank(n)) && BlocksBelow(Blocks(g[n]), rank', rank'(n))
    {
      BlocksAreBelow(g, rank, n);
      BlocksAreBelow(g, rank', n);
    }
    DrawingIgnoresAssociation(g, rank, g, rank', id, prefix, isLast);
  }

  /** `(x ~> y) ~> z`, held by the THEN nodes `a` and `b`, becomes `x ~> (y ~> z)`. */
  ghost predicate Rotated(g: Graph, rank: Id -> nat, g': Graph, a: Id, b: Id, x: Id, y: Id, z: Id) {
    && a in g && b in g && a != b && b != z
    && g[a].kind.Then? && g[a].left == Some(b) && g[a].right == Some(z)
    && g[b].kind.Then? && g[b].left == Some(x) && g[b].right == Some(y)
    && g' == g[a := g[a].(left := Some(x), right := Some(b))][b := g[b].(left := Some(y), right := Some(z))]
    // nothing drawn but `a` refers to `b`
    && (forall id :: id in g && rank(id) > 0 && id != a ==> !Refers(g[id], b))
  }

  predicate Refers(n: Node, c: Id) { c in Kids(n) }

  lemma {:induction false} RotationKeepsSequence(g: Graph, rank: Id -> nat, g': Graph, rank': Id -> nat,
                                                 a: Id, b: Id, x: Id, y: Id, z: Id, id: Id)
    requires Acyclic(g, rank) && Acyclic(g', rank') && rank(id) > 0 && rank'(id) > 0
             && Rotated(g, rank, g', a, b, x, y, z) && id != b
    ensures Sequence(g, rank, id) == Sequence(g', rank', id)
    decreases rank(id)
  {
    hide Acyclic, Sequence, Refers;
    if id !in g || !g[id].kind.Then? {
      SequenceOfOther(g, rank, id);
      SequenceOfOther(g', rank', id);
    } else {
      SequenceOfThen(g, rank, id);
      SequenceOfThen(g', rank', id);
      if id == a {
        SequenceOfThen(g, rank, b);
        SequenceOfThen(g', rank', b);
        RotationKeepsSequence(g, rank, g', rank', a, b, x, y, z, x);
        RotationKeepsSequence(g, rank, g', rank', a, b, x, y, z, y);
        RotationKeepsSequence(g, rank, g', rank', a, b, x, y, z, z);
      } else {
        RefersToChildren(g[id], b);
        if g[id].left.Some? { RotationKeepsSequence(g, rank, g', rank', a, b, x, y, z, g[id].left.value); }
        if g[id].right.Some? { RotationKeepsSequence(g, rank, g', rank', a, b, x, y, z, g[id].right.value); }
      }
    }
  }

  lemma RefersToChildren(n: Node, b: Id)
    requires !Refers(n, b) && n.kind.Then?
    ensures n.left != Some(b) && n.right != Some(b)
  {
    assert n.left.Some? ==> Kids(n)[0] == n.left.value;
    assert n.right.Some? ==> Kids(n)[|ToSeq(n.left)|] == n.right.value;
  }

  /** Re-associating a chain anywhere in a graph leaves every drawing unchanged. */
  lemma RotationKeepsDrawing(g: Graph, rank: Id -> nat, g': Graph, rank': Id -> nat,
                             a: Id, b: Id, x: Id, y: Id, z: Id, id: Id, prefix: string, isLast: bool)
    requires Acyclic(g, rank) && Acyclic(g', rank') && rank(id) > 0 && rank'(id) > 0
             && Rotated(g, rank, g', a, b, x, y, z) && id != b
    ensures TreeLines(g, rank, id, prefix, isLast) == TreeLines(g', rank', id, prefix, isLast)
  {
    forall p | p != b && rank(p) > 0 && rank'(p) > 0 ensures SamePosition(g, rank, g', rank', p) {
      RotationKeepsSequence(g, rank, g', rank', a, b, x, y, z, p);
    }
    forall n | n in g && rank(n) > 0 && rank'(n) > 0 && !g[n].kind.Then?
      ensures BlocksBelow(Blocks(g[n]), rank, rank(n)) && BlocksBelow(Blocks(g'[n]), rank', rank'(n))
      ensures forall i :: 0 <= i < |Blocks(g[n])| ==> SamePosition(g, rank, g', rank', Blocks(g[n])[i].child)
    {
      BlocksAreBelow(g, rank, n);
      BlocksAreBelow(g', rank', n);
      BlocksAvoid(g[n], b);
    }
    DrawingIgnoresAssociation(g, rank, g', rank', id, prefix, isLast);
  }

  lemma BlocksAvoid(n: Node, b: Id)
    requires !Refers(n, b) && !n.kind.Then?
    ensures forall i :: 0 <= i < |Blocks(n)| ==> Blocks(n)[i].child != b
  {
    assert forall i :: 0 <= i < |Blocks(n)| ==> Kids(n)[i] == Blocks(n)[i].child;
  }

  /** Re-association makes no cycle: what could be drawn before can be drawn afterwards. */
  lemma RotationStaysAcyclic(g: Graph, rank: Id -> nat, g': Graph, a: Id, b: Id, x: Id, y: Id, z: Id)
      returns (rank': Id -> nat)
    requires Acyclic(g, rank) && Rotated(g, rank, g', a, b, x, y, z)
    ensures Acyclic(g', rank') && forall id :: id != b && rank(id) > 0 ==> rank'(id) > 0
  {
    rank' := (id: Id) => if id != b then 2 * rank(id) else if rank(a) == 0 then 0 else 2 * rank(a) - 1;
    if rank(a) > 0 {
      LinksAreBelow(g, rank, a);
      LinksAreBelow(g, rank, b);
    }
    forall id | id in g' && rank'(id) > 0 ensures KidsBelow(Kids(g'[id]), rank', rank'(id)) {
      if id != a && id != b {
        KidsAreBelow(g, rank, id);
        assert !Refers(g[id], b);
        assert forall i :: 0 <= i < |Kids(g[id])| ==> Kids(g[id])[i] in Kids(g[id]);
      } else if id == a {
        assert Kids(g'[id]) == [x, b];
      } else {
        assert Kids(g'[id]) == [y, z];
      }
    }
  }

  // ----- on a tree every node is drawn once -----

  /** The nodes drawn, in order. */
  function Drawn(lines: seq<Line>): seq<Id> {
    if lines == [] then []
    else (if lines[0].Item? then [lines[0].id] else []) + Drawn(lines[1..])
  }

  lemma DrawnCons(l: Line, rest: seq<Line>)
    ensures Drawn([l] + rest) == (if l.Item? then [l.id] else []) + Drawn(rest)
  {
    assert ([l] + rest)[1..] == rest;
  }

  lemma DrawnNothing()
    ensures Drawn([]) == []
  {
  }

  lemma {:induction false} DrawnConcat(a: seq<Line>, b: seq<Line>)
    ensures Drawn(a + b) == Drawn(a) + Drawn(b)
  {
    hide Drawn;
    if a == [] {
      DrawnNothing();
      assert a + b == b;
    } else {
      var l, rest := a[0], a[1..];
      DrawnConcat(rest, b);
      DrawnCons(l, rest);
      DrawnCons(l, rest + b);
      assert a == [l] + rest;
      assert a + b == [l] + (rest + b);
    }
  }

  lemma KidsAreBelow(g: Graph, rank: Id -> nat, id: Id)
    requires Acyclic(g, rank) && rank(id) > 0 && id in g
    ensures KidsBelow(Kids(g[id]), rank, rank(id))
  {
  }

  /** The known nodes that can be reached from `id`. */
  ghost function Reach(g: Graph, rank: Id -> nat, id: Id): set<Id>
    requires Acyclic(g, rank) && rank(id) > 0
    decreases rank(id), 1, 0
  {
    if id !in g then {}
    else
      KidsAreBelow(g, rank, id);
      {id} + ReachAll(g, rank, Kids(g[id]), rank(id))
  }

  ghost function ReachAll(g: Graph, rank: Id -> nat, kids: seq<Id>, r: nat): set<Id>
    requires Acyclic(g, rank) && KidsBelow(kids, rank, r)
    decreases r, 0, |kids|
  {
    if kids == [] then {} else Reach(g, rank, kids[0]) + ReachAll(g, rank, kids[1..], r)
  }

  /** Tree-shaped: what is reached through different children of a node is disjoint. */
  ghost predicate TreeFrom(g: Graph, rank: Id -> nat, id: Id)
    requires Acyclic(g, rank) && rank(id) > 0
    decreases rank(id), 1, 0
  {
    id in g ==> (KidsAreBelow(g, rank, id); TreeFromAll(g, rank, Kids(g[id]), rank(id)))
  }

  ghost predicate TreeFromAll(g: Graph, rank: Id -> nat, kids: seq<Id>, r: nat)
    requires Acyclic(g, rank) && KidsBelow(kids, rank, r)
    decreases r, 0, |kids|
  {
    kids == [] ||
    (TreeFrom(g, rank, kids[0]) && TreeFromAll(g, rank, kids[1..], r) &&
     Reach(g, rank, kids[0]) !! ReachAll(g, rank, kids[1..], r))
  }

  /** Everything reached lies at or below the node's rank. */
  lemma {:induction false} ReachIsBelow(g: Graph, rank: Id -> nat, id: Id)
    requires Acyclic(g, rank) && rank(id) > 0
    ensures forall x :: x in Reach(g, rank, id) ==> x in g && 0 < rank(x) <= rank(id)
    decreases rank(id), 1, 0
  {
    if id in g {
      KidsAreBelow(g, rank, id);
      ReachAllIsBelow(g, rank, Kids(g[id]), rank(id));
    }
  }

  lemma {:induction false} ReachAllIsBelow(g: Graph, rank: Id -> nat, kids: seq<Id>, r: nat)
    requires Acyclic(g, rank) && KidsBelow(kids, rank, r)
    ensures forall x :: x in ReachAll(g, rank, kids, r) ==> x in g && 0 < rank(x) < r
    decreases r, 0, |kids|
  {
    if kids != [] {
      ReachIsBelow(g, rank, kids[0]);
      ReachAllIsBelow(g, rank, kids[1..], r);
    }
  }

  /** The nodes below `id` in the order of the drawing, THEN nodes left out. */
  ghost function Preorder(g: Graph, rank: Id -> nat, id: Id): seq<Id>
    requires Acyclic(g, rank) && rank(id) > 0
    decreases rank(id), 1, 0
  {
    if id !in g then []
    else
      KidsAreBelow(g, rank, id);
      (if g[id].kind.Then? then [] else [id]) + PreorderAll(g, rank, Kids(g[id]), rank(id))
  }

  ghost function PreorderAll(g: Graph, rank: Id -> nat, kids: seq<Id>, r: nat): seq<Id>
    requires Acyclic(g, rank) && KidsBelow(kids, rank, r)
    decreases r, 0, |kids|
  {
    if kids == [] then [] else Preorder(g, rank, kids[0]) + PreorderAll(g, rank, kids[1..], r)
  }

  /** One drawn line for each known node of the set that is not a THEN. */
  function LinesFor(g: Graph, ids: set<Id>, x: Id): nat {
    if x in ids && x in g && !g[x].kind.Then? then 1 else 0
  }

  lemma {:induction false} PreorderCounts(g: Graph, rank: Id -> nat, id: Id, x: Id)
    requires Acyclic(g, rank) && rank(id) > 0 && TreeFrom(g, rank, id)
    ensures multiset(Preorder(g, rank, id))[x] == LinesFor(g, Reach(g, rank, id), x)
    decreases rank(id), 1, 0
  {
    if id in g {
      KidsAreBelow(g, rank, id);
      var kids := Kids(g[id]);
      PreorderAllCounts(g, rank, kids, rank(id), x);
      ReachAllIsBelow(g, rank, kids, rank(id));
      assert id !in ReachAll(g, rank, kids, rank(id));
    }
  }

  lemma {:induction false} PreorderAllCounts(g: Graph, rank: Id -> nat, kids: seq<Id>, r: nat, x: Id)
    requires Acyclic(g, rank) && KidsBelow(kids, rank, r) && TreeFromAll(g, rank, kids, r)
    ensures multiset(PreorderAll(g, rank, kids, r))[x] == LinesFor(g, ReachAll(g, rank, kids, r), x)
    decreases r, 0, |kids|
  {
    if kids != [] {
      PreorderCounts(g, rank, kids[0], x);
      PreorderAllCounts(g, rank, kids[1..], r, x);
    }
  }

  /** Flattening draws the same nodes in the same order. */
  lemma {:induction false} DrawnIsPreorder(g: Graph, rank: Id -> nat, id: Id, prefix: string, isLast: bool)
    requires Acyclic(g, rank) && rank(id) > 0
    ensures Drawn(TreeLines(g, rank, id, prefix, isLast)) == Preorder(g, rank, id)
    decreases rank(id), 2, 0
  {
    if id in g {
      if g[id].kind.Then? {
        DrawnSequence(g, rank, Sequence(g, rank, id), rank(id), prefix, Connector(prefix, isLast));
        SequencePreorder(g, rank, id, rank(id));
      } else {
        DrawnItem(g, rank, id, prefix, Connector(prefix, isLast), ChildPrefix(prefix, isLast));
      }
    }
  }

  /** A node's own line and its branches. */
  lemma {:induction false} DrawnItem(g: Graph, rank: Id -> nat, id: Id, prefix: string, connector: string,
                                     childPrefix: string)
    requires Acyclic(g, rank) && rank(id) > 0 && id in g && !g[id].kind.Then?
    ensures Drawn([Item(prefix, connector, id)] + ChildLines(g, rank, id, childPrefix)) == Preorder(g, rank, id)
    decreases rank(id), 1, 0
  {
    BlocksAreBelow(g, rank, id);
    KidsAreBelow(g, rank, id);
    DrawnBlocks(g, rank, Blocks(g[id]), rank(id), childPrefix);
    var own := [Item(prefix, connector, id)];
    assert own[1..] == [];
    assert Drawn(own) == [id];
    DrawnConcat(own, ChildLines(g, rank, id, childPrefix));
  }

  lemma HeadingNotDrawn(prefix: string, text: string)
    ensures Drawn([Heading(prefix, text)]) == []
  {
    assert [Heading(prefix, text)][1..] == [];
  }

  lemma {:induction false} DrawnBlocks(g: Graph, rank: Id -> nat, blocks: seq<Block>, r: nat, prefix: string)
    requires Acyclic(g, rank) && BlocksBelow(blocks, rank, r)
    ensures Drawn(BlockLines(g, rank, blocks, r, prefix)) == PreorderAll(g, rank, Children(blocks), r)
    decreases r, 0, |blocks|
  {
    hide Acyclic, TreeLines, Preorder;
    if blocks != [] {
      var heading := [Heading(prefix, blocks[0].text)];
      var tree := TreeLines(g, rank, blocks[0].child, prefix + "  ", blocks[0].isLast);
      DrawnIsPreorder(g, rank, blocks[0].child, prefix + "  ", blocks[0].isLast);
      DrawnBlocks(g, rank, blocks[1..], r, prefix);
      HeadingNotDrawn(prefix, blocks[0].text);
      hide Drawn;
      DrawnConcat(heading, tree);
      DrawnConcat(heading + tree, BlockLines(g, rank, blocks[1..], r, prefix));
      assert Children(blocks)[1..] == Children(blocks[1..]);
    }
  }

  lemma {:induction false} DrawnSequence(g: Graph, rank: Id -> nat, items: seq<Id>, r: nat, prefix: string,
                                         connector: string)
    requires Acyclic(g, rank) && AllBelow(items, g, rank, r) && forall x :: x in items ==> !g[x].kind.Then?
    requires KidsBelow(items, rank, r)
    ensures Drawn(SequenceLines(g, rank, items, r, prefix, connector)) == PreorderAll(g, rank, items, r)
    decreases r, 1, |items|
  {
    if items != [] {
      assert items[0] in items;
      DrawnItem(g, rank, items[0], prefix, connector, prefix + "    ");
      DrawnSequence(g, rank, items[1..], r, prefix, "→ ");
      DrawnConcat([Item(prefix, connector, items[0])] + ChildLines(g, rank, items[0], prefix + "    "),
                  SequenceLines(g, rank, items[1..], r, prefix, "→ "));
    }
  }

  lemma PreorderAllCons(g: Graph, rank: Id -> nat, kid: Id, rest: seq<Id>, r: nat)
    requires Acyclic(g, rank) && KidsBelow([kid] + rest, rank, r)
    ensures KidsBelow(rest, rank, r) && 0 < rank(kid) < r
    ensures PreorderAll(g, rank, [kid] + rest, r) == Preorder(g, rank, kid) + PreorderAll(g, rank, rest, r)
  {
    hide Acyclic, Preorder;
    assert ([kid] + rest)[0] == kid && ([kid] + rest)[1..] == rest;
    forall i | 0 <= i < |rest| ensures 0 < rank(rest[i]) < r { assert ([kid] + rest)[i + 1] == rest[i]; }
  }

  lemma {:induction false} PreorderAllConcat(g: Graph, rank: Id -> nat, a: seq<Id>, b: seq<Id>, r: nat)
    requires Acyclic(g, rank) && KidsBelow(a, rank, r) && KidsBelow(b, rank, r) && KidsBelow(a + b, rank, r)
    ensures PreorderAll(g, rank, a + b, r) == PreorderAll(g, rank, a, r) + PreorderAll(g, rank, b, r)
    decreases |a|
  {
    hide Acyclic, Preorder, PreorderAll, KidsBelow;
    if a == [] {
      PreorderAllNone(g, rank, r);
      assert a + b == b;
    } else {
      var kid, rest := a[0], a[1..];
      assert a == [kid] + rest && a + b == [kid] + (rest + b);
      PreorderAllCons(g, rank, kid, rest, r);
      PreorderAllCons(g, rank, kid, rest + b, r);
      PreorderAllConcat(g, rank, rest, b, r);
    }
  }

  lemma KidsBelowSplit(a: seq<Id>, b: seq<Id>, rank: Id -> nat, r: nat)
    requires KidsBelow(a + b, rank, r)
    ensures KidsBelow(a, rank, r) && KidsBelow(b, rank, r)
  {
    forall i | 0 <= i < |a| ensures 0 < rank(a[i]) < r { assert (a + b)[i] == a[i]; }
    forall i | 0 <= i < |b| ensures 0 < rank(b[i]) < r { assert (a + b)[|a| + i] == b[i]; }
  }

  ghost function OptPreorder(g: Graph, rank: Id -> nat, id: Option<Id>): seq<Id>
    requires Acyclic(g, rank) && (id.Some? ==> rank(id.value) > 0)
  {
    if id.Some? then Preorder(g, rank, id.value) else []
  }

  lemma OptPreorderAll(g: Graph, rank: Id -> nat, id: Option<Id>, r: nat)
    requires Acyclic(g, rank) && (id.Some? ==> rank(id.value) > 0) && KidsBelow(ToSeq(id), rank, r)
    ensures PreorderAll(g, rank, ToSeq(id), r) == OptPreorder(g, rank, id)
  {
    hide Acyclic, Preorder;
    if id.Some? {
      assert ToSeq(id)[1..] == [];
    }
  }

  lemma PreorderOfThen(g: Graph, rank: Id -> nat, id: Id)
    requires Acyclic(g, rank) && rank(id) > 0 && id in g && g[id].kind.Then?
    ensures g[id].left.Some? ==> 0 < rank(g[id].left.value) < rank(id)
    ensures g[id].right.Some? ==> 0 < rank(g[id].right.value) < rank(id)
    ensures Preorder(g, rank, id) == OptPreorder(g, rank, g[id].left) + OptPreorder(g, rank, g[id].right)
  {
    LinksAreBelow(g, rank, id);
    KidsAreBelow(g, rank, id);
    var l, m := ToSeq(g[id].left), ToSeq(g[id].right);
    KidsBelowSplit(l, m, rank, rank(id));
    PreorderAllConcat(g, rank, l, m, rank(id));
    OptPreorderAll(g, rank, g[id].left, rank(id));
    OptPreorderAll(g, rank, g[id].right, rank(id));
  }

  /** The preorder of a node is that of the items of its flattened sequence. */
  lemma {:induction false} SequencePreorder(g: Graph, rank: Id -> nat, id: Id, r: nat)
    requires Acyclic(g, rank) && rank(id) > 0 && KidsBelow(Sequence(g, rank, id), rank, r)
    ensures PreorderAll(g, rank, Sequence(g, rank, id), r) == Preorder(g, rank, id)
    decreases rank(id)
  {
    if id !in g || !g[id].kind.Then? {
      SequenceOfOther(g, rank, id);
      assert [id][1..] == [];
    } else {
      SequenceOfThen(g, rank, id);
      PreorderOfThen(g, rank, id);
      hide Acyclic, Sequence, Preorder, PreorderAll, KidsBelow;
      var l, m := OptSequence(g, rank, g[id].left), OptSequence(g, rank, g[id].right);
      KidsBelowSplit(l, m, rank, r);
      PreorderAllConcat(g, rank, l, m, r);
      if g[id].left.Some? { SequencePreorder(g, rank, g[id].left.value, r); } else { PreorderAllNone(g, rank, r); }
      if g[id].right.Some? { SequencePreorder(g, rank, g[id].right.value, r); } else { PreorderAllNone(g, rank, r); }
    }
  }

  lemma PreorderAllNone(g: Graph, rank: Id -> nat, r: nat)
    requires Acyclic(g, rank)
    ensures KidsBelow([], rank, r) && PreorderAll(g, rank, [], r) == []
  {
  }

  /** On a tree the drawing shows every reachable node that is not a THEN exactly once, and
      no other node. */
  lemma TreeDrawnOnce(g: Graph, rank: Id -> nat, id: Id, prefix: string, isLast: bool, x: Id)
    requires Acyclic(g, rank) && rank(id) > 0 && TreeFrom(g, rank, id)
    ensures multiset(Drawn(TreeLines(g, rank, id, prefix, isLast)))[x] ==
            if x in Reach(g, rank, id) && x in g && !g[x].kind.Then? then 1 else 0
  {
    PreorderCounts(g, rank, id, x);
    DrawnIsPreorder(g, rank, id, prefix, isLast);
  }

  // ----- which graphs can be drawn -----

  /** A way along drawn children through known nodes. */
  predicate IsWay(g: Graph, p: seq<Id>) {
    && |p| > 0 && (forall i :: 0 <= i < |p| ==> p[i] in g)
    && (forall i :: 0 < i < |p| ==> p[i] in Kids(g[p[i - 1]]))
  }

  predicate Repeats(p: seq<Id>) { exists i, j :: 0 <= i < j < |p| && p[i] == p[j] }

  /** No way from the root comes to a node twice. */
  ghost predicate NoCycleFrom(g: Graph, root: Id) { forall p :: IsWay(g, p) && p[0] == root ==> !Repeats(p) }

  ghost predicate CanBeDrawn(g: Graph, root: Id) { exists rank: Id -> nat :: Acyclic(g, rank) && rank(root) > 0 }

  /** A ranking of what is drawn from the root exists exactly when no cycle is met. */
  lemma RankedIffNoCycle(g: Graph, root: Id)
    ensures CanBeDrawn(g, root) <==> NoCycleFrom(g, root)
  {
    if CanBeDrawn(g, root) {
      var rank: Id -> nat :| Acyclic(g, rank) && rank(root) > 0;
      forall p | IsWay(g, p) && p[0] == root ensures !Repeats(p) {
        forall i: nat, j: nat | i < j < |p| ensures p[i] != p[j] { RankFalls(g, rank, p, i, j); }
      }
    }
    if NoCycleFrom(g, root) { var rank := RankBySize(g, root); }
  }

  lemma {:induction false} RankFalls(g: Graph, rank: Id -> nat, p: seq<Id>, i: nat, j: nat)
    requires Acyclic(g, rank) && IsWay(g, p) && rank(p[0]) > 0 && i <= j < |p|
    ensures 0 < rank(p[j]) <= rank(p[i]) && (i < j ==> rank(p[j]) < rank(p[i]))
    decreases j
  {
    hide Acyclic, IsWay;
    if j > 0 {
      if i < j { RankFalls(g, rank, p, i, j - 1); } else { RankFalls(g, rank, p, j - 1, j - 1); }
      RankDrops(g, rank, p, j);
    }
  }

  lemma RankDrops(g: Graph, rank: Id -> nat, p: seq<Id>, j: nat)
    requires Acyclic(g, rank) && IsWay(g, p) && 0 < j < |p| && rank(p[j - 1]) > 0
    ensures 0 < rank(p[j]) < rank(p[j - 1])
  {
    hide Kids;
    KidsAreBelow(g, rank, p[j - 1]);
    var k :| 0 <= k < |Kids(g[p[j - 1]])| && Kids(g[p[j - 1]])[k] == p[j];
  }

  ghost predicate Leads(g: Graph, p: seq<Id>, x: Id, y: Id) { IsWay(g, p) && p[0] == x && p[|p| - 1] == y }

  ghost function Ahead(g: Graph, x: Id): set<Id> { set y | y in g && exists p :: Leads(g, p, x, y) }

  /** `x` is drawn from the root, or would be if it were known. */
  ghost predicate IsDrawn(g: Graph, root: Id, x: Id) {
    x == root || exists p :: IsWay(g, p) && p[0] == root && x in Kids(g[p[|p| - 1]])
  }

  /** Ranking by how much lies ahead. */
  lemma RankBySize(g: Graph, root: Id) returns (rank: Id -> nat)
    requires NoCycleFrom(g, root)
    ensures Acyclic(g, rank) && rank(root) > 0
  {
    rank := SizeAhead(g, root);
    hide NoCycleFrom, IsDrawn, Ahead;
    assert IsDrawn(g, root, root) by { RootIsDrawn(g, root); }
    forall id | id in g && rank(id) > 0 ensures KidsBelow(Kids(g[id]), rank, rank(id)) {
      forall i | 0 <= i < |Kids(g[id])| ensures 0 < rank(Kids(g[id])[i]) < rank(id) {
        LessAhead(g, root, id, Kids(g[id])[i]);
      }
    }
  }

  ghost function SizeAhead(g: Graph, root: Id): Id -> nat {
    (id: Id) => if IsDrawn(g, root, id) then 1 + |Ahead(g, id)| else 0
  }

  lemma RootIsDrawn(g: Graph, root: Id)
    ensures IsDrawn(g, root, root)
  {
  }

  lemma LessAhead(g: Graph, root: Id, id: Id, kid: Id)
    requires NoCycleFrom(g, root) && id in g && IsDrawn(g, root, id) && kid in Kids(g[id])
    ensures IsDrawn(g, root, kid) && |Ahead(g, kid)| < |Ahead(g, id)|
  {
    hide Kids;
    var p := WayTo(g, root, id);
    forall y | y in Ahead(g, kid) ensures y in Ahead(g, id) && y != id {
      var q :| Leads(g, q, kid, y);
      WayJoins(g, [id], q);
      assert Leads(g, [id] + q, id, y);
      WayJoins(g, p, q);
      assert !Repeats(p + q);
      assert (p + q)[|p| - 1] == id && (p + q)[|p + q| - 1] == y;
    }
    assert Leads(g, [id], id, id);
    SubsetSize(Ahead(g, kid) + {id}, Ahead(g, id));
  }

  lemma WayTo(g: Graph, root: Id, id: Id) returns (p: seq<Id>)
    requires id in g && IsDrawn(g, root, id)
    ensures Leads(g, p, root, id)
  {
    hide Kids;
    if id == root {
      p := [root];
    } else {
      var q :| IsWay(g, q) && q[0] == root && id in Kids(g[q[|q| - 1]]);
      p := q + [id];
      WayJoins(g, q, [id]);
    }
  }

  lemma WayJoins(g: Graph, p: seq<Id>, q: seq<Id>)
    requires IsWay(g, p) && IsWay(g, q) && q[0] in Kids(g[p[|p| - 1]])
    ensures IsWay(g, p + q)
  {
    hide Kids;
  }
}
