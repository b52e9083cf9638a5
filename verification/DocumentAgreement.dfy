/** When an edit keeps the tree and the blocks one document. */
module DocumentAgreement {
  import opened Wrappers
  import opened Sequences
  import Strings = Text
  import opened DocumentTree
  import opened DocumentEdits
  import opened HunkEdits

  /** Where in the node's text the replaced occurrence stands. */
  function TargetAt(n: Node, from: string): nat
    requires Applies(n, from)
  {
    if Hit(n, from) then Strings.IndexOf(n.text, from) else |n.text| + TargetIn(n.content, from)
  }

  function TargetIn(ns: Nodes, from: string): nat
    requires AppliesIn(ns, from)
  {
    if Applies(ns.head, from) then TargetAt(ns.head, from) else |NodeText(ns.head)| + TargetIn(ns.tail, from)
  }

  /** No block of these holds the old text. */
  predicate Quiet(es: seq<Entry>, from: string) {
    forall i :: 0 <= i < |es| ==> !Strings.Includes(es[i].text, from)
  }

  /** Replacing at i is what replacing the first occurrence does. */
  predicate SamePlace(s: string, i: nat, from: string, to: string) {
    Strings.At(s, i, from) && Strings.ReplaceAt(s, i, from, to) == Strings.ReplaceFirst(s, from, to)
  }

  /**
   Every block around the edited text node has the edit at its first
   occurrence of the old text, and no other block holds the old text.
   */
  predicate Aligned(n: Node, from: string, to: string)
    requires Applies(n, from)
  {
    && (IsBlock(n) ==> SamePlace(NodeText(n), TargetAt(n, from), from, to))
    && if Hit(n, from) then Quiet(AllEntries(n.content), from) else AlignedIn(n.content, from, to)
  }

  predicate AlignedIn(ns: Nodes, from: string, to: string)
    requires AppliesIn(ns, from)
  {
    if Applies(ns.head, from) then Aligned(ns.head, from, to) && Quiet(AllEntries(ns.tail), from)
    else Quiet(Entries(ns.head), from) && AlignedIn(ns.tail, from, to)
  }

  /** The entries with the edit made in each text, as the blocks have it made. */
  function Edited(es: seq<Entry>, from: string, to: string): (r: seq<Entry>)
    ensures |r| == |es|
    ensures forall i :: 0 <= i < |es| ==> r[i] == Entry(es[i].id, Strings.ReplaceFirst(es[i].text, from, to))
  {
    if es == [] then []
    else [Entry(es[0].id, Strings.ReplaceFirst(es[0].text, from, to))] + Edited(es[1..], from, to)
  }

  lemma EditedConcat(a: seq<Entry>, b: seq<Entry>, from: string, to: string)
    ensures Edited(a + b, from, to) == Edited(a, from, to) + Edited(b, from, to)
  {
  }

  lemma QuietConcat(a: seq<Entry>, b: seq<Entry>, from: string)
    ensures Quiet(a + b, from) <==> Quiet(a, from) && Quiet(b, from)
  {
    if Quiet(a + b, from) {
      assert forall i :: 0 <= i < |a| ==> (a + b)[i] == a[i];
      assert forall i :: 0 <= i < |b| ==> (a + b)[|a| + i] == b[i];
    }
  }

  /** Making a real edit changes nothing exactly where the old text does not occur. */
  lemma QuietMeansUnchanged(es: seq<Entry>, from: string, to: string)
    requires from != to
    ensures Edited(es, from, to) == es <==> Quiet(es, from)
  {
    if Edited(es, from, to) == es {
      forall i | 0 <= i < |es| ensures !Strings.Includes(es[i].text, from) {
        assert Edited(es, from, to)[i] == es[i];
        if Strings.Includes(es[i].text, from) {
          Strings.ReplacingChanges(es[i].text, Strings.IndexOf(es[i].text, from), from, to);
        }
      }
    }
  }

  // ----- the edit in the text of the whole tree

  lemma ReplaceInLeft(a: string, b: string, i: nat, from: string, to: string)
    requires Strings.At(a, i, from)
    ensures Strings.At(a + b, i, from)
    ensures Strings.ReplaceAt(a + b, i, from, to) == Strings.ReplaceAt(a, i, from, to) + b
  {
    assert forall k :: 0 <= k < |a| ==> (a + b)[k] == a[k];
    assert (a + b)[..i] == a[..i];
    assert (a + b)[i + |from|..] == a[i + |from|..] + b;
  }

  lemma ReplaceInRight(a: string, b: string, i: nat, from: string, to: string)
    requires Strings.At(b, i, from)
    ensures Strings.At(a + b, |a| + i, from)
    ensures Strings.ReplaceAt(a + b, |a| + i, from, to) == a + Strings.ReplaceAt(b, i, from, to)
  {
    assert forall k :: 0 <= k < |b| ==> (a + b)[|a| + k] == b[k];
    assert (a + b)[..|a| + i] == a + b[..i];
    assert (a + b)[|a| + i + |from|..] == b[i + |from|..];
  }

  /** The text of the edited tree is the text of the tree with the target replaced. */
  lemma {:induction false} TextFollows(n: Node, from: string, to: string)
    requires Applies(n, from)
    ensures Strings.At(NodeText(n), TargetAt(n, from), from)
    ensures NodeText(Replaced(n, from, to)) == Strings.ReplaceAt(NodeText(n), TargetAt(n, from), from, to)
    decreases n
  {
    if Hit(n, from) {
      ReplaceInLeft(n.text, NodesText(n.content), TargetAt(n, from), from, to);
    } else {
      TextFollowsIn(n.content, from, to);
      ReplaceInRight(n.text, NodesText(n.content), TargetIn(n.content, from), from, to);
    }
  }

  lemma {:induction false} TextFollowsIn(ns: Nodes, from: string, to: string)
    requires AppliesIn(ns, from)
    ensures Strings.At(NodesText(ns), TargetIn(ns, from), from)
    ensures NodesText(ReplacedIn(ns, from, to)) == Strings.ReplaceAt(NodesText(ns), TargetIn(ns, from), from, to)
    decreases ns
  {
    if Applies(ns.head, from) {
      TextFollows(ns.head, from, to);
      ReplaceInLeft(NodeText(ns.head), NodesText(ns.tail), TargetAt(ns.head, from), from, to);
    } else {
      TextFollowsIn(ns.tail, from, to);
      ReplaceInRight(NodeText(ns.head), NodesText(ns.tail), TargetIn(ns.tail, from), from, to);
    }
  }

  // ----- the blocks of the edited tree

  predicate SameIds(a: seq<Entry>, b: seq<Entry>) {
    |a| == |b| && forall i :: 0 <= i < |a| ==> a[i].id == b[i].id
  }

  lemma {:induction false} IdsStay(n: Node, from: string, to: string)
    requires Applies(n, from)
    ensures SameIds(Entries(n), Entries(Replaced(n, from, to)))
    decreases n
  {
    if !Hit(n, from) {
      IdsStayIn(n.content, from, to);
    }
  }

  lemma {:induction false} IdsStayIn(ns: Nodes, from: string, to: string)
    requires AppliesIn(ns, from)
    ensures SameIds(AllEntries(ns), AllEntries(ReplacedIn(ns, from, to)))
    decreases ns
  {
    if Applies(ns.head, from) {
      IdsStay(ns.head, from, to);
    } else {
      IdsStayIn(ns.tail, from, to);
    }
  }

  lemma ConcatEqual(a: seq<Entry>, b: seq<Entry>, c: seq<Entry>, d: seq<Entry>)
    requires |a| == |c|
    ensures a + b == c + d <==> a == c && b == d
  {
    if a + b == c + d {
      assert a == (a + b)[..|a|] == (c + d)[..|c|] == c;
      assert b == (a + b)[|a|..] == (c + d)[|c|..] == d;
    }
  }

  /** The tree's block texts move as the blocks do exactly when the edit is aligned. */
  lemma {:induction false} EntriesFollow(n: Node, from: string, to: string)
    requires Applies(n, from) && from != to
    ensures Entries(Replaced(n, from, to)) == Edited(Entries(n), from, to) <==> Aligned(n, from, to)
    decreases n
  {
    var m := Replaced(n, from, to);
    if Hit(n, from) {
      QuietMeansUnchanged(AllEntries(n.content), from, to);
    } else {
      EntriesFollowIn(n.content, from, to);
      if IsBlock(n) {
        TextFollows(n, from, to);
        var head, head' := Entry(n.blockId, NodeText(n)), Entry(n.blockId, NodeText(m));
        EditedConcat([head], AllEntries(n.content), from, to);
        ConcatEqual([head'], AllEntries(m.content), Edited([head], from, to), Edited(AllEntries(n.content), from, to));
        assert Edited([head], from, to)[0] == Entry(n.blockId, Strings.ReplaceFirst(NodeText(n), from, to));
      }
    }
  }

  lemma {:induction false} EntriesFollowIn(ns: Nodes, from: string, to: string)
    requires AppliesIn(ns, from) && from != to
    ensures AllEntries(ReplacedIn(ns, from, to)) == Edited(AllEntries(ns), from, to) <==> AlignedIn(ns, from, to)
    decreases ns
  {
    var a, b := Entries(ns.head), AllEntries(ns.tail);
    EditedConcat(a, b, from, to);
    if Applies(ns.head, from) {
      EntriesFollow(ns.head, from, to);
      IdsStay(ns.head, from, to);
      QuietMeansUnchanged(b, from, to);
      ConcatEqual(Entries(Replaced(ns.head, from, to)), b, Edited(a, from, to), Edited(b, from, to));
    } else {
      EntriesFollowIn(ns.tail, from, to);
      QuietMeansUnchanged(a, from, to);
      ConcatEqual(a, AllEntries(ReplacedIn(ns.tail, from, to)), Edited(a, from, to), Edited(b, from, to));
    }
  }

  // ----- the document

  lemma {:induction false} StaysGood(n: Node, from: string, to: string, goodUrl: string -> bool)
    requires Applies(n, from) && GoodNode(n, goodUrl)
    ensures GoodNode(Replaced(n, from, to), goodUrl)
    decreases n
  {
    if !Hit(n, from) {
      StaysGoodIn(n.content, from, to, goodUrl);
    }
  }

  lemma {:induction false} StaysGoodIn(ns: Nodes, from: string, to: string, goodUrl: string -> bool)
    requires AppliesIn(ns, from) && GoodNodes(ns, goodUrl)
    ensures GoodNodes(ReplacedIn(ns, from, to), goodUrl)
    decreases ns
  {
    if Applies(ns.head, from) {
      StaysGood(ns.head, from, to, goodUrl);
    } else {
      StaysGoodIn(ns.tail, from, to, goodUrl);
    }
  }

  lemma BlockOf(es: seq<Entry>, blocks: seq<Block>, i: nat) returns (k: nat)
    requires Corresponds(es, blocks) && i < |es|
    ensures k < |blocks| && EntryOf(blocks[k]) == es[i]
  {
    assert es[i] in es;
    var b :| b in blocks && EntryOf(b) == es[i];
    k :| 0 <= k < |blocks| && blocks[k] == b;
  }

  lemma NodeOf(es: seq<Entry>, blocks: seq<Block>, k: nat) returns (i: nat)
    requires Corresponds(es, blocks) && k < |blocks|
    ensures i < |es| && EntryOf(blocks[k]) == es[i]
  {
    assert blocks[k] in blocks;
    i :| 0 <= i < |es| && es[i] == EntryOf(blocks[k]);
  }

  lemma EditedCorresponds(es: seq<Entry>, blocks: seq<Block>, from: string, to: string)
    requires Corresponds(es, blocks)
    ensures Corresponds(Edited(es, from, to), ReplacedBlocks(blocks, from, to))
  {
    var after, moved := Edited(es, from, to), ReplacedBlocks(blocks, from, to);
    forall b | b in moved ensures EntryOf(b) in after {
      var k :| 0 <= k < |moved| && moved[k] == b;
      var i := NodeOf(es, blocks, k);
      assert after[i] == EntryOf(b);
    }
    forall e | e in after ensures exists b :: b in moved && EntryOf(b) == e {
      var i :| 0 <= i < |after| && after[i] == e;
      var k := BlockOf(es, blocks, i);
      assert moved[k] in moved && EntryOf(moved[k]) == e;
    }
  }

  lemma CorrespondsAfter(es: seq<Entry>, after: seq<Entry>, blocks: seq<Block>, from: string, to: string)
    requires DistinctIds(es) && Corresponds(es, blocks) && SameIds(es, after)
    ensures Corresponds(after, ReplacedBlocks(blocks, from, to)) <==> after == Edited(es, from, to)
  {
    EditedCorresponds(es, blocks, from, to);
    if Corresponds(after, ReplacedBlocks(blocks, from, to)) {
      forall i | 0 <= i < |es| ensures after[i] == Edited(es, from, to)[i] {
        var k := BlockOf(es, blocks, i);
        var j := NodeOf(after, ReplacedBlocks(blocks, from, to), k);
        assert es[j].id == es[i].id;
      }
    }
  }

  /**
   One edit that finds its text leaves the document valid exactly when it
   changes nothing or is aligned.
   */
  lemma EditKeepsValidIff(content: Node, blocks: seq<Block>, from: string, to: string, goodUrl: string -> bool)
    requires Valid(content, blocks, goodUrl) && Applies(content, from)
    ensures Valid(Replaced(content, from, to), ReplacedBlocks(blocks, from, to), goodUrl)
            <==> from == to || Aligned(content, from, to)
  {
    var after, moved := Replaced(content, from, to), ReplacedBlocks(blocks, from, to);
    StaysGood(content, from, to, goodUrl);
    IdsStay(content, from, to);
    if from == to {
      SameTree(content, from);
      SameBlocks(blocks, from);
    } else {
      EntriesFollow(content, from, to);
      CorrespondsAfter(Entries(content), Entries(after), blocks, from, to);
      assert DistinctIds(Entries(after));
      assert DistinctBlocks(moved);
    }
  }

  lemma SameText(s: string, from: string)
    ensures Strings.ReplaceFirst(s, from, from) == s
  {
    if Strings.Includes(s, from) {
      Strings.Slice(s, Strings.IndexOf(s, from), from);
    }
  }

  lemma {:induction false} SameTree(n: Node, from: string)
    requires Applies(n, from)
    ensures Replaced(n, from, from) == n
    decreases n
  {
    if Hit(n, from) {
      SameText(n.text, from);
    } else {
      SameTrees(n.content, from);
    }
  }

  lemma {:induction false} SameTrees(ns: Nodes, from: string)
    requires AppliesIn(ns, from)
    ensures ReplacedIn(ns, from, from) == ns
    decreases ns
  {
    if Applies(ns.head, from) {
      SameTree(ns.head, from);
    } else {
      SameTrees(ns.tail, from);
    }
  }

  lemma SameBlocks(blocks: seq<Block>, from: string)
    ensures ReplacedBlocks(blocks, from, from) == blocks
  {
    forall i | 0 <= i < |blocks| ensures ReplacedBlocks(blocks, from, from)[i] == blocks[i] {
      SameText(blocks[i].text, from);
    }
  }

  // ----- a text that occurs once

  /** Every block's text is part of its tree's text. */
  lemma {:induction false} QuietText(n: Node, from: string)
    requires !Strings.Includes(NodeText(n), from)
    ensures Quiet(Entries(n), from)
    decreases n
  {
    NotInParts(n.text, NodesText(n.content), from);
    QuietTexts(n.content, from);
    if IsBlock(n) {
      QuietConcat([Entry(n.blockId, NodeText(n))], AllEntries(n.content), from);
    }
  }

  lemma {:induction false} QuietTexts(ns: Nodes, from: string)
    requires !Strings.Includes(NodesText(ns), from)
    ensures Quiet(AllEntries(ns), from)
    decreases ns
  {
    if ns.Cons? {
      NotInParts(NodeText(ns.head), NodesText(ns.tail), from);
      QuietText(ns.head, from);
      QuietTexts(ns.tail, from);
      QuietConcat(Entries(ns.head), AllEntries(ns.tail), from);
    }
  }

  lemma InLeft(a: string, b: string, i: nat, from: string)
    requires Strings.At(a, i, from)
    ensures Strings.At(a + b, i, from)
  {
    ReplaceInLeft(a, b, i, from, from);
  }

  lemma InRight(a: string, b: string, i: nat, from: string)
    requires Strings.At(b, i, from)
    ensures Strings.At(a + b, |a| + i, from)
  {
    ReplaceInRight(a, b, i, from, from);
  }

  lemma NotInParts(a: string, b: string, from: string)
    requires !Strings.Includes(a + b, from)
    ensures !Strings.Includes(a, from) && !Strings.Includes(b, from)
  {
    if Strings.Includes(a, from) {
      InLeft(a, b, Strings.IndexOf(a, from), from);
      Strings.OccursMeansIncludes(a + b, Strings.IndexOf(a, from), from);
    }
    if Strings.Includes(b, from) {
      InRight(a, b, Strings.IndexOf(b, from), from);
      Strings.OccursMeansIncludes(a + b, |a| + Strings.IndexOf(b, from), from);
    }
  }

  /** A text that occurs once in a + b and in a occurs once in a and not in b. */
  lemma OnceInLeft(a: string, b: string, i: nat, from: string)
    requires from != "" && Strings.Once(a + b, from) && Strings.At(a, i, from)
    ensures Strings.Once(a, from) && !Strings.Includes(b, from)
  {
    InLeft(a, b, i, from);
    Strings.OccursMeansIncludes(a, i, from);
    forall j: nat | Strings.At(a, j, from) ensures j == Strings.IndexOf(a, from) {
      InLeft(a, b, j, from);
      InLeft(a, b, Strings.IndexOf(a, from), from);
    }
    if Strings.Includes(b, from) {
      InRight(a, b, Strings.IndexOf(b, from), from);
    }
  }

  lemma OnceInRight(a: string, b: string, i: nat, from: string)
    requires from != "" && Strings.Once(a + b, from) && Strings.At(b, i, from)
    ensures Strings.Once(b, from) && !Strings.Includes(a, from)
  {
    InRight(a, b, i, from);
    Strings.OccursMeansIncludes(b, i, from);
    forall j: nat | Strings.At(b, j, from) ensures j == Strings.IndexOf(b, from) {
      InRight(a, b, j, from);
      InRight(a, b, Strings.IndexOf(b, from), from);
    }
    if Strings.Includes(a, from) {
      InLeft(a, b, Strings.IndexOf(a, from), from);
    }
  }

  /** An old text that occurs once in the tree, and in a text node, makes an aligned edit. */
  lemma {:induction false} OnceIsAligned(n: Node, from: string, to: string)
    requires from != "" && Applies(n, from) && Strings.Once(NodeText(n), from)
    ensures Aligned(n, from, to)
    decreases n
  {
    TextFollows(n, from, to);
    if Hit(n, from) {
      OnceInLeft(n.text, NodesText(n.content), Strings.IndexOf(n.text, from), from);
      QuietTexts(n.content, from);
    } else {
      TextFollowsIn(n.content, from, to);
      OnceInRight(n.text, NodesText(n.content), TargetIn(n.content, from), from);
      OnceIsAlignedIn(n.content, from, to);
    }
  }

  lemma {:induction false} OnceIsAlignedIn(ns: Nodes, from: string, to: string)
    requires from != "" && AppliesIn(ns, from) && Strings.Once(NodesText(ns), from)
    ensures AlignedIn(ns, from, to)
    decreases ns
  {
    var a, b := NodeText(ns.head), NodesText(ns.tail);
    if Applies(ns.head, from) {
      TextFollows(ns.head, from, to);
      OnceInLeft(a, b, TargetAt(ns.head, from), from);
      OnceIsAligned(ns.head, from, to);
      QuietTexts(ns.tail, from);
    } else {
      TextFollowsIn(ns.tail, from, to);
      OnceInRight(a, b, TargetIn(ns.tail, from), from);
      QuietText(ns.head, from);
      OnceIsAlignedIn(ns.tail, from, to);
    }
  }

  // ----- all the edits of one call

  /** At its turn each edit's text is not empty, occurs once in the document's text, and lies in one text node. */
  ghost predicate UniqueEdits(content: Node, edits: seq<Edit>)
    decreases |edits|
  {
    edits == [] ||
    (var Edit(from, to) := edits[0];
     && from != "" && Strings.Once(NodeText(content), from) && Applies(content, from)
     && UniqueEdits(Replaced(content, from, to), edits[1..]))
  }

  /** So such edits are all applied, and leave a valid document with the same block ids. */
  lemma {:induction false} UniqueEditsKeepValid(content: Node, blocks: seq<Block>, edits: seq<Edit>,
                                                goodUrl: string -> bool)
    requires Valid(content, blocks, goodUrl) && UniqueEdits(content, edits)
    ensures var r := AfterEdits(content, blocks, edits);
            r.applied && Valid(r.content, r.blocks, goodUrl) && SameIds(Entries(content), Entries(r.content))
    decreases |edits|
  {
    if edits != [] {
      var Edit(from, to) := edits[0];
      OnceIsAligned(content, from, to);
      EditKeepsValidIff(content, blocks, from, to, goodUrl);
      IdsStay(content, from, to);
      UniqueEditsKeepValid(Replaced(content, from, to), ReplacedBlocks(blocks, from, to), edits[1..], goodUrl);
    }
  }

  // ----- an edit that does not keep it

  function Twin(id: string): Node {
    Node(Paragraph, "", id, [], Cons(Node(Kind.Text, "a", "", [], Nil), Nil))
  }

  /** Two paragraphs with one text, and their blocks. */
  const TWINS := Node(Doc, "", "", [], Cons(Twin("p"), Cons(Twin("q"), Nil)))
  const TWIN_BLOCKS := [Block("p", "a", [], ""), Block("q", "a", [], "")]

  lemma TwinIs(id: string, goodUrl: string -> bool)
    requires id != ""
    ensures NodeText(Twin(id)) == "a" && Entries(Twin(id)) == [Entry(id, "a")]
    ensures GoodNode(Twin(id), goodUrl) && Applies(Twin(id), "a") && !Hit(Twin(id), "a")
  {
    var leaf := Node(Kind.Text, "a", "", [], Nil);
    assert NodeText(leaf) == "a" && NodesText(Cons(leaf, Nil)) == "a";
    assert AllEntries(Cons(leaf, Nil)) == [];
    Strings.OccursMeansIncludes("a", 0, "a");
    assert Hit(leaf, "a");
  }

  lemma TwinsAreValid(goodUrl: string -> bool)
    ensures Entries(TWINS) == [Entry("p", "a"), Entry("q", "a")] && Valid(TWINS, TWIN_BLOCKS, goodUrl)
  {
    TwinIs("p", goodUrl);
    TwinIs("q", goodUrl);
    hide Twin;
    assert AllEntries(Cons(Twin("q"), Nil)) == [Entry("q", "a")];
    assert Entries(TWINS) == [Entry("p", "a"), Entry("q", "a")];
    assert EntryOf(TWIN_BLOCKS[0]) == Entries(TWINS)[0] && EntryOf(TWIN_BLOCKS[1]) == Entries(TWINS)[1];
    assert TWIN_BLOCKS[0] in TWIN_BLOCKS && TWIN_BLOCKS[1] in TWIN_BLOCKS;
  }

  /** The edit rewrites both blocks and one text node. */
  lemma TwinParagraphsPart(goodUrl: string -> bool)
    ensures Valid(TWINS, TWIN_BLOCKS, goodUrl) && Applies(TWINS, "a")
    ensures !Valid(Replaced(TWINS, "a", "b"), ReplacedBlocks(TWIN_BLOCKS, "a", "b"), goodUrl)
  {
    TwinsAreValid(goodUrl);
    TwinIs("p", goodUrl);
    TwinIs("q", goodUrl);
    hide Twin, Valid, Replaced, ReplacedBlocks;
    var later := AllEntries(Cons(Twin("q"), Nil));
    assert later == [Entry("q", "a")] && Strings.Includes(later[0].text, "a") by {
      Strings.OccursMeansIncludes("a", 0, "a");
    }
    assert !Quiet(later, "a");
    EditKeepsValidIff(TWINS, TWIN_BLOCKS, "a", "b", goodUrl);
  }
}
