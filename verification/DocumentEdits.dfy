/** What `replaceInNode` and `replaced` make of a tree and its blocks, as functions. */
module DocumentEdits {
  import opened Wrappers
  import opened Sequences
  import Strings = Text
  import opened DocumentTree
  import opened HunkEdits

  predicate Hit(n: Node, from: string) {
    n.kind.Text? && Strings.Includes(n.text, from)
  }

  /** Some text node at or under n holds the old text. */
  predicate Applies(n: Node, from: string) {
    Hit(n, from) || AppliesIn(n.content, from)
  }

  predicate AppliesIn(ns: Nodes, from: string) {
    ns.Cons? && (Applies(ns.head, from) || AppliesIn(ns.tail, from))
  }

  /** The tree after `replaceInNode`: the first text node holding the old text has its first occurrence replaced. */
  function Replaced(n: Node, from: string, to: string): Node {
    if Hit(n, from) then n.(text := Strings.ReplaceFirst(n.text, from, to))
    else n.(content := ReplacedIn(n.content, from, to))
  }

  function ReplacedIn(ns: Nodes, from: string, to: string): Nodes {
    match ns
    case Nil => Nil
    case Cons(head, tail) =>
      if Applies(head, from) then Cons(Replaced(head, from, to), tail) else Cons(head, ReplacedIn(tail, from, to))
  }

  function ReplacedBlock(b: Block, from: string, to: string): Block {
    b.(text := Strings.ReplaceFirst(b.text, from, to))
  }

  function ReplacedBlocks(blocks: seq<Block>, from: string, to: string): (r: seq<Block>)
    ensures |r| == |blocks|
    ensures forall i :: 0 <= i < |blocks| ==> r[i] == ReplacedBlock(blocks[i], from, to)
  {
    if blocks == [] then [] else [ReplacedBlock(blocks[0], from, to)] + ReplacedBlocks(blocks[1..], from, to)
  }

  lemma {:induction false} Untouched(n: Node, from: string, to: string)
    requires !Applies(n, from)
    ensures Replaced(n, from, to) == n
    decreases n
  {
    UntouchedIn(n.content, from, to);
  }

  lemma {:induction false} UntouchedIn(ns: Nodes, from: string, to: string)
    requires !AppliesIn(ns, from)
    ensures ReplacedIn(ns, from, to) == ns
    decreases ns
  {
    if ns.Cons? {
      UntouchedIn(ns.tail, from, to);
    }
  }

  /** The document after a list of edits, and whether all of them found their text. */
  datatype Result = Result(content: Node, blocks: seq<Block>, applied: bool)

  function AfterEdits(content: Node, blocks: seq<Block>, edits: seq<Edit>): Result
    decreases |edits|
  {
    if edits == [] then Result(content, blocks, true)
    else if !Applies(content, edits[0].from) then Result(content, blocks, false)
    else
      AfterEdits(Replaced(content, edits[0].from, edits[0].to),
                 ReplacedBlocks(blocks, edits[0].from, edits[0].to), edits[1..])
  }

  // ----- the same, one edit after the other

  /** The tree after these edits, each made where it finds its text. */
  function TreeAfter(content: Node, edits: seq<Edit>): Node {
    if edits == [] then content
    else
      var last := edits[|edits| - 1];
      Replaced(TreeAfter(content, edits[..|edits| - 1]), last.from, last.to)
  }

  function BlocksAfter(blocks: seq<Block>, edits: seq<Edit>): seq<Block> {
    if edits == [] then blocks
    else
      var last := edits[|edits| - 1];
      ReplacedBlocks(BlocksAfter(blocks, edits[..|edits| - 1]), last.from, last.to)
  }

  /** Edit k finds its text in the tree that the edits before it leave. */
  predicate Finds(content: Node, edits: seq<Edit>, k: nat)
    requires k < |edits|
  {
    Applies(TreeAfter(content, edits[..k]), edits[k].from)
  }

  lemma {:induction false} AfterUncons(content: Node, blocks: seq<Block>, edits: seq<Edit>)
    requires edits != []
    ensures TreeAfter(content, edits) == TreeAfter(Replaced(content, edits[0].from, edits[0].to), edits[1..])
    ensures BlocksAfter(blocks, edits) == BlocksAfter(ReplacedBlocks(blocks, edits[0].from, edits[0].to), edits[1..])
    decreases |edits|
  {
    var n := |edits| - 1;
    if n == 0 {
      assert edits[..0] == [] && edits[1..] == [];
    } else {
      AfterUncons(content, blocks, edits[..n]);
      assert edits[..n][1..] == edits[1..][..n - 1];
    }
  }

  lemma FindsUncons(content: Node, edits: seq<Edit>, k: nat)
    requires 0 < k < |edits|
    ensures Finds(content, edits, k) <==>
            Finds(Replaced(content, edits[0].from, edits[0].to), edits[1..], k - 1)
  {
    AfterUncons(content, [], edits[..k]);
    assert edits[..k][1..] == edits[1..][..k - 1];
  }

  /** k is the first edit that does not find its text, or their number. */
  predicate Stops(content: Node, edits: seq<Edit>, k: nat) {
    && k <= |edits| && (forall j :: 0 <= j < k ==> Finds(content, edits, j))
    && (k < |edits| ==> !Finds(content, edits, k))
  }

  /**
   All edits are made exactly when each finds its text; otherwise those before
   the first that does not, and no more.
   */
  lemma {:induction false} StopsAtTheFirst(content: Node, blocks: seq<Block>, edits: seq<Edit>, k: nat)
    requires Stops(content, edits, k)
    ensures AfterEdits(content, blocks, edits) ==
            Result(TreeAfter(content, edits[..k]), BlocksAfter(blocks, edits[..k]), k == |edits|)
    decreases |edits|
  {
    if edits != [] {
      assert edits[..0] == [];
      if k > 0 {
        var Edit(from, to) := edits[0];
        assert Finds(content, edits, 0);
        forall j | 0 <= j < k - 1 ensures Finds(Replaced(content, from, to), edits[1..], j) {
          FindsUncons(content, edits, j + 1);
        }
        if k < |edits| {
          FindsUncons(content, edits, k);
        }
        StopsAtTheFirst(Replaced(content, from, to), ReplacedBlocks(blocks, from, to), edits[1..], k - 1);
        AfterUncons(content, blocks, edits[..k]);
        assert edits[..k][1..] == edits[1..][..k - 1];
      }
    }
  }

  lemma {:induction false} FirstMiss(content: Node, edits: seq<Edit>, n: nat) returns (k: nat)
    requires n <= |edits|
    ensures k <= n && (forall j :: 0 <= j < k ==> Finds(content, edits, j))
    ensures k < n ==> !Finds(content, edits, k)
  {
    if n == 0 {
      k := 0;
    } else {
      k := FirstMiss(content, edits, n - 1);
      if k == n - 1 && Finds(content, edits, k) {
        k := n;
      }
    }
  }

  lemma AppliedIffAllFind(content: Node, blocks: seq<Block>, edits: seq<Edit>)
    ensures AfterEdits(content, blocks, edits).applied <==>
            forall k :: 0 <= k < |edits| ==> Finds(content, edits, k)
  {
    var k := FirstMiss(content, edits, |edits|);
    StopsAtTheFirst(content, blocks, edits, k);
  }
}
