/**
 `replaceInNode` and `replaced` as they run: a copy of the tree and of the blocks, whose texts
 are changed in place.
 */
module DocumentInPlace {
  import opened Wrappers
  import Strings = Text
  import opened DocumentTree
  import opened HunkEdits
  import opened DocumentEdits

  function ToNodes(vs: seq<Node>): Nodes {
    if vs == [] then Nil else Cons(vs[0], ToNodes(vs[1..]))
  }

  function FromNodes(ns: Nodes): (vs: seq<Node>)
    ensures ToNodes(vs) == ns
  {
    match ns
    case Nil => []
    case Cons(head, tail) =>
      var rest := FromNodes(tail);
      assert ([head] + rest)[1..] == rest;
      [head] + rest
  }

  /** The first of the children that holds the old text is the one that changes. */
  lemma {:induction false} ReplacedAt(vs: seq<Node>, i: nat, from: string, to: string)
    requires i < |vs| && Applies(vs[i], from) && forall k :: 0 <= k < i ==> !Applies(vs[k], from)
    ensures AppliesIn(ToNodes(vs), from)
    ensures ReplacedIn(ToNodes(vs), from, to) == ToNodes(vs[i := Replaced(vs[i], from, to)])
  {
    if i > 0 {
      ReplacedAt(vs[1..], i - 1, from, to);
      assert vs[i := Replaced(vs[i], from, to)][1..] == vs[1..][i - 1 := Replaced(vs[i], from, to)];
    } else {
      assert vs[0 := Replaced(vs[0], from, to)][1..] == vs[1..];
    }
  }

  lemma {:induction false} NoneApplies(vs: seq<Node>, from: string)
    requires forall k :: 0 <= k < |vs| ==> !Applies(vs[k], from)
    ensures !AppliesIn(ToNodes(vs), from)
  {
    if vs != [] {
      NoneApplies(vs[1..], from);
    }
  }

  ghost function Under(children: seq<TreeNode>): set<TreeNode> {
    set c, n | c in children && n in c.nodes :: n
  }

  ghost function Above(children: seq<TreeNode>): nat {
    if children == [] then 0 else
      var rest := Above(children[1..]);
      if children[0].height < rest then rest else children[0].height + 1
  }

  lemma {:induction false} AboveAll(children: seq<TreeNode>)
    ensures forall i :: 0 <= i < |children| ==> children[i].height < Above(children)
  {
    if children != [] {
      AboveAll(children[1..]);
      assert forall i :: 0 < i < |children| ==> children[i] == children[1..][i - 1];
    }
  }

  /** `{ applied: boolean }`, shared by the whole recursion */
  class Flag {
    var applied: bool

    constructor ()
      ensures !applied
    {
      applied := false;
    }
  }

  /** A node of the copy: only its text ever changes. */
  class TreeNode {
    const kind: Kind
    const blockId: string
    const marks: seq<Mark>
    const children: seq<TreeNode>
    var text: string
    ghost const nodes: set<TreeNode>
    ghost const height: nat

    /** The children's nodes are apart from each other and from this one. */
    ghost predicate Valid()
      decreases height
    {
      && this in nodes
      && (forall i :: 0 <= i < |children| ==>
            && children[i].height < height
            && children[i].nodes <= nodes - {this}
            && children[i].Valid())
      && (forall i, j :: 0 <= i < j < |children| ==> children[i].nodes !! children[j].nodes)
    }

    ghost function Value(): Node
      requires Valid()
      reads nodes
      decreases height
    {
      Node(kind, text, blockId, marks,
          ToNodes(seq(|children|, i requires 0 <= i < |children| reads nodes => children[i].Value())))
    }

    ghost function Values(): (vs: seq<Node>)
      requires Valid()
      reads nodes
      ensures |vs| == |children| && forall i :: 0 <= i < |vs| ==> vs[i] == children[i].Value()
      ensures Value() == Node(kind, text, blockId, marks, ToNodes(vs))
    {
      seq(|children|, i requires 0 <= i < |children| reads nodes => children[i].Value())
    }

    constructor (n: Node, children: seq<TreeNode>)
      requires forall i :: 0 <= i < |children| ==> children[i].Valid()
      requires forall i, j :: 0 <= i < j < |children| ==> children[i].nodes !! children[j].nodes
      ensures Valid() && fresh(this) && text == n.text
      ensures kind == n.kind && blockId == n.blockId && marks == n.marks && this.children == children
      ensures nodes == {this} + Under(children)
    {
      kind, text, blockId, marks := n.kind, n.text, n.blockId, n.marks;
      this.children := children;
      nodes := {this} + Under(children);
      height := Above(children);
      new;
      AboveAll(children);
    }

    /** `replaceInNode` */
    method ReplaceInNode(from: string, to: string, state: Flag)
      requires Valid()
      modifies nodes, state
      ensures old(state.applied) ==> state.applied && Value() == old(Value())
      ensures !old(state.applied) ==>
                Value() == Replaced(old(Value()), from, to) && state.applied == Applies(old(Value()), from)
      decreases height, 2
    {
      if state.applied {
        return;
      }
      ghost var was, before := Values(), Value();
      if kind.Text? && Strings.Includes(text, from) {
        text := Strings.ReplaceFirst(text, from, to);
        state.applied := true;
        assert Values() == was;
        return;
      }
      assert !Hit(before, from);
      ghost var at := ReplaceInChildren(from, to, state);
      hide Applies, Replaced, Valid, Value;
      AfterChildren(before, was, state.applied, at, from, to);
      assert Values() == if state.applied then was[at := Replaced(was[at], from, to)] else was;
    }

    /** The loop of `replaceInNode`; `at` is the child that was changed. */
    method ReplaceInChildren(from: string, to: string, state: Flag) returns (ghost at: nat)
      requires Valid() && !state.applied
      modifies nodes - {this}, state
      ensures forall k :: 0 <= k < |children| && (state.applied ==> k < at) ==> !Applies(old(Values())[k], from)
      ensures state.applied ==> at < |children| && Applies(old(Values())[at], from)
      ensures Values() ==
              if state.applied then old(Values())[at := Replaced(old(Values())[at], from, to)] else old(Values())
      decreases height, 1
    {
      ghost var was := Values();
      at := 0;
      hide Applies, Replaced, Value;
      for i := 0 to |children|
        invariant if state.applied then
                    at < i && Applies(was[at], from) && Values() == was[at := Replaced(was[at], from, to)]
                  else Values() == was
        invariant forall k :: 0 <= k < i && (state.applied ==> k < at) ==> !Applies(was[k], from)
      {
        if !state.applied {
          at := i;
          if !Applies(was[i], from) {
            Untouched(was[i], from, to);
          }
        }
        ReplaceInChild(i, from, to, state);
      }
    }

    /** One child changes, and the others, being apart from it, do not. */
    method ReplaceInChild(i: nat, from: string, to: string, state: Flag)
      requires Valid() && i < |children|
      modifies children[i].nodes, state
      ensures old(state.applied) ==> state.applied && Values() == old(Values())
      ensures !old(state.applied) ==> Values() == old(Values())[i := Replaced(old(Values())[i], from, to)]
      ensures !old(state.applied) ==> state.applied == Applies(old(Values())[i], from)
      decreases height, 0
    {
      ghost var was := Values();
      hide Applies, Replaced, Value;
      children[i].ReplaceInNode(from, to, state);
      assert forall k :: 0 <= k < |children| && k != i ==> children[k].Value() == was[k];
    }
  }

  lemma AfterChildren(n: Node, was: seq<Node>, applied: bool, at: nat, from: string, to: string)
    requires n.content == ToNodes(was) && !Hit(n, from)
    requires forall k :: 0 <= k < |was| && (applied ==> k < at) ==> !Applies(was[k], from)
    requires applied ==> at < |was| && Applies(was[at], from)
    ensures applied == Applies(n, from)
    ensures Replaced(n, from, to) ==
            n.(content := ToNodes(if applied then was[at := Replaced(was[at], from, to)] else was))
  {
    if applied {
      ReplacedAt(was, at, from, to);
    } else {
      NoneApplies(was, from);
      UntouchedIn(n.content, from, to);
    }
  }

  /** `structuredClone` of a tree */
  method CloneNode(n: Node) returns (t: TreeNode)
    ensures t.Valid() && fresh(t.nodes) && t.Value() == n
    decreases n
  {
    hide TreeNode.Valid, TreeNode.Value, FromNodes, ToNodes;
    var children := CloneNodes(n.content);
    t := new TreeNode(n, children);
    assert FromNodes(n.content) == t.Values();
  }

  method CloneNodes(ns: Nodes) returns (ts: seq<TreeNode>)
    ensures |ts| == |FromNodes(ns)|
    ensures forall i :: 0 <= i < |ts| ==> ts[i].Valid() && fresh(ts[i].nodes) && ts[i].Value() == FromNodes(ns)[i]
    ensures forall i, j :: 0 <= i < j < |ts| ==> ts[i].nodes !! ts[j].nodes
    decreases ns
  {
    match ns
    case Nil => ts := [];
    case Cons(head, tail) =>
      assert FromNodes(ns) == [head] + FromNodes(tail);
      hide *;
      var rest := CloneNodes(tail);
      var first := CloneNode(head);
      ts := [first] + rest;
  }

  /** A block of the copy: only its text ever changes. */
  class BlockCell {
    const id: string
    const refs: seq<(string, int, int)>
    const claimStatus: string
    var text: string

    constructor (b: Block)
      ensures Value() == b
    {
      id, refs, claimStatus, text := b.id, b.refs, b.claimStatus, b.text;
    }

    ghost function Value(): Block
      reads this
    {
      Block(id, text, refs, claimStatus)
    }
  }

  predicate Apart(cells: seq<BlockCell>) {
    forall i, j :: 0 <= i < j < |cells| ==> cells[i] != cells[j]
  }

  method CloneBlocks(blocks: seq<Block>) returns (cells: seq<BlockCell>)
    ensures |cells| == |blocks| && fresh(set c | c in cells)
    ensures forall i :: 0 <= i < |cells| ==> cells[i].Value() == blocks[i]
    ensures Apart(cells)
  {
    cells := [];
    for i := 0 to |blocks|
      invariant |cells| == i && fresh(set c | c in cells)
      invariant forall k :: 0 <= k < i ==> cells[k].Value() == blocks[k]
      invariant forall j, k :: 0 <= j < k < i ==> cells[j] != cells[k]
    {
      var cell := new BlockCell(blocks[i]);
      cells := cells + [cell];
    }
  }

  /** The inner loop of `replaced`: every block that holds the old text has it replaced. */
  method ReplaceInBlocks(cells: seq<BlockCell>, from: string, to: string)
    requires Apart(cells)
    modifies set c | c in cells
    ensures forall i :: 0 <= i < |cells| ==> cells[i].Value() == ReplacedBlock(old(cells[i].Value()), from, to)
  {
    for i := 0 to |cells|
      invariant forall k :: 0 <= k < i ==> cells[k].Value() == ReplacedBlock(old(cells[k].Value()), from, to)
      invariant forall k :: i <= k < |cells| ==> cells[k].Value() == old(cells[k].Value())
    {
      if Strings.Includes(cells[i].text, from) {
        cells[i].text := Strings.ReplaceFirst(cells[i].text, from, to);
      }
    }
  }

  ghost predicate Holds(cells: seq<BlockCell>, blocks: seq<Block>)
    reads set c | c in cells
  {
    |cells| == |blocks| && forall i :: 0 <= i < |cells| ==> cells[i].Value() == blocks[i]
  }

  /** One turn of the outer loop of `replaced`. */
  method ReplaceOnce(copy: TreeNode, cells: seq<BlockCell>, ghost blocks: seq<Block>, from: string, to: string)
    returns (applied: bool)
    requires copy.Valid() && Apart(cells) && Holds(cells, blocks)
    modifies copy.nodes, set c | c in cells
    ensures applied == Applies(old(copy.Value()), from)
    ensures copy.Value() == if applied then Replaced(old(copy.Value()), from, to) else old(copy.Value())
    ensures Holds(cells, if applied then ReplacedBlocks(blocks, from, to) else blocks)
  {
    hide Applies, Replaced;
    ghost var was := copy.Value();
    var state := new Flag();
    copy.ReplaceInNode(from, to, state);
    applied := state.applied;
    assert Holds(cells, blocks);
    if applied {
      ReplaceInBlocks(cells, from, to);
    } else {
      Untouched(was, from, to);
    }
  }

  /** `replaced` */
  method ReplacedCopy(content: Node, blocks: seq<Block>, edits: seq<Edit>)
    returns (copy: TreeNode, cells: seq<BlockCell>, applied: bool)
    ensures copy.Valid() && fresh(copy.nodes) && fresh(set c | c in cells)
    ensures var r := AfterEdits(content, blocks, edits);
            copy.Value() == r.content && Holds(cells, r.blocks) && applied == (r.applied && edits != [])
    ensures applied <==> edits != [] && forall k :: 0 <= k < |edits| ==> Finds(content, edits, k)
    ensures forall k: nat :: Stops(content, edits, k) ==>
              copy.Value() == TreeAfter(content, edits[..k]) && Holds(cells, BlocksAfter(blocks, edits[..k]))
  {
    AppliedIffAllFind(content, blocks, edits);
    forall k: nat | Stops(content, edits, k)
      ensures AfterEdits(content, blocks, edits).content == TreeAfter(content, edits[..k])
      ensures AfterEdits(content, blocks, edits).blocks == BlocksAfter(blocks, edits[..k])
    {
      StopsAtTheFirst(content, blocks, edits, k);
    }
    hide Applies, Replaced, ReplacedBlocks, Finds, Stops, TreeAfter, BlocksAfter;
    copy := CloneNode(content);
    cells := CloneBlocks(blocks);
    ghost var now := blocks;
    for i := 0 to |edits|
      invariant copy.Valid() && fresh(copy.nodes) && fresh(set c | c in cells)
      invariant Apart(cells) && Holds(cells, now)
      invariant AfterEdits(copy.Value(), now, edits[i..]) == AfterEdits(content, blocks, edits)
    {
      assert edits[i..][0] == edits[i] && edits[i..][1..] == edits[i + 1..];
      var found := ReplaceOnce(copy, cells, now, edits[i].from, edits[i].to);
      if !found {
        return copy, cells, false;
      }
      now := ReplacedBlocks(now, edits[i].from, edits[i].to);
    }
    applied := |edits| > 0;
  }
}
