/** What the recursive definitions on trees say of the list of all nodes. */
module DocumentNodes {
  import opened Wrappers
  import opened Sequences
  import Strings = Text
  import opened DocumentTree
  import opened DocumentEdits
  import opened HunkEdits

  /** All nodes, parents before children. */
  function Preorder(n: Node): seq<Node> {
    [n] + PreorderAll(n.content)
  }

  function PreorderAll(ns: Nodes): seq<Node> {
    match ns
    case Nil => []
    case Cons(head, tail) => Preorder(head) + PreorderAll(tail)
  }

  /** The texts of the nodes, one after the other. */
  function Joined(ms: seq<Node>): string {
    if ms == [] then "" else Joined(ms[..|ms| - 1]) + ms[|ms| - 1].text
  }

  /** The id and text of a paragraph, heading or list item. */
  function BlockNode(m: Node): seq<Entry> {
    if m.kind in {Paragraph, Heading, ListItem} then [Entry(m.blockId, Joined(Preorder(m)))] else []
  }

  /** The ids and texts of the paragraphs, headings and list items. */
  function BlockNodes(ms: seq<Node>): seq<Entry> {
    if ms == [] then [] else BlockNodes(ms[..|ms| - 1]) + BlockNode(ms[|ms| - 1])
  }

  lemma JoinedSnoc(a: seq<Node>, m: Node)
    ensures Joined(a + [m]) == Joined(a) + m.text
  {
    assert (a + [m])[..|a|] == a;
  }

  lemma {:induction false} JoinedConcat(a: seq<Node>, b: seq<Node>)
    ensures Joined(a + b) == Joined(a) + Joined(b)
    decreases |b|
  {
    if b == [] {
      assert a + b == a && Joined(a) + "" == Joined(a);
    } else {
      hide Joined;
      var less, last := b[..|b| - 1], b[|b| - 1];
      assert b == less + [last];
      JoinedConcat(a, less);
      Regroup(a, less, [last]);
      JoinedSnoc(a + less, last);
      JoinedSnoc(less, last);
      Regroup(Joined(a), Joined(less), last.text);
    }
  }

  lemma BlockNodesSnoc(a: seq<Node>, m: Node)
    ensures BlockNodes(a + [m]) == BlockNodes(a) + BlockNode(m)
  {
    assert (a + [m])[..|a|] == a;
  }

  lemma OneBlockNode(m: Node)
    ensures BlockNodes([m]) == BlockNode(m)
  {
    BlockNodesSnoc([], m);
    assert [] + [m] == [m] && [] + BlockNode(m) == BlockNode(m);
  }

  lemma {:induction false} BlockNodesConcat(a: seq<Node>, b: seq<Node>)
    ensures BlockNodes(a + b) == BlockNodes(a) + BlockNodes(b)
    decreases |b|
  {
    if b == [] {
      assert a + b == a && BlockNodes(a) + [] == BlockNodes(a);
    } else {
      hide BlockNodes, BlockNode;
      var less, last := b[..|b| - 1], b[|b| - 1];
      assert b == less + [last];
      BlockNodesConcat(a, less);
      Regroup(a, less, [last]);
      BlockNodesSnoc(a + less, last);
      BlockNodesSnoc(less, last);
      Regroup(BlockNodes(a), BlockNodes(less), BlockNode(last));
    }
  }

  lemma {:induction false} TextIsJoined(n: Node)
    ensures NodeText(n) == Joined(Preorder(n))
    decreases n
  {
    TextsAreJoined(n.content);
    JoinedConcat([n], PreorderAll(n.content));
    assert [n][..0] == [] && "" + n.text == n.text;
  }

  lemma {:induction false} TextsAreJoined(ns: Nodes)
    ensures NodesText(ns) == Joined(PreorderAll(ns))
    decreases ns
  {
    if ns.Cons? {
      TextIsJoined(ns.head);
      TextsAreJoined(ns.tail);
      JoinedConcat(Preorder(ns.head), PreorderAll(ns.tail));
    }
  }

  lemma {:induction false} EntriesAreBlockNodes(n: Node)
    ensures Entries(n) == BlockNodes(Preorder(n))
    decreases n
  {
    hide BlockNodes, Joined, NodeText;
    TextIsJoined(n);
    AllEntriesAreBlockNodes(n.content);
    BlockNodesConcat([n], PreorderAll(n.content));
    OneBlockNode(n);
    assert [] + AllEntries(n.content) == AllEntries(n.content);
  }

  lemma {:induction false} AllEntriesAreBlockNodes(ns: Nodes)
    ensures AllEntries(ns) == BlockNodes(PreorderAll(ns))
    decreases ns
  {
    if ns.Cons? {
      EntriesAreBlockNodes(ns.head);
      AllEntriesAreBlockNodes(ns.tail);
      BlockNodesConcat(Preorder(ns.head), PreorderAll(ns.tail));
    }
  }

  /** One node by itself is as it should be. */
  predicate Allowed(m: Node, goodUrl: string -> bool) {
    && m.kind in {Doc, Paragraph, Heading, BulletList, OrderedList, ListItem, Kind.Text}
    && (forall i :: 0 <= i < |m.marks| ==> m.marks[i].isLink && m.marks[i].href != "" && goodUrl(m.marks[i].href))
    && (m.kind in {Paragraph, Heading, ListItem} ==> m.blockId != "")
  }

  lemma {:induction false} GoodMeansAllAllowed(n: Node, goodUrl: string -> bool)
    ensures GoodNode(n, goodUrl) <==> forall m :: m in Preorder(n) ==> Allowed(m, goodUrl)
    decreases n
  {
    AllGoodMeansAllAllowed(n.content, goodUrl);
    assert forall i :: 0 <= i < |n.marks| ==> n.marks[i] in n.marks;
    assert GoodNode(n, goodUrl) <==> Allowed(n, goodUrl) && GoodNodes(n.content, goodUrl);
    assert forall m :: m in Preorder(n) <==> m == n || m in PreorderAll(n.content);
  }

  lemma {:induction false} AllGoodMeansAllAllowed(ns: Nodes, goodUrl: string -> bool)
    ensures GoodNodes(ns, goodUrl) <==> forall m :: m in PreorderAll(ns) ==> Allowed(m, goodUrl)
    decreases ns
  {
    if ns.Cons? {
      GoodMeansAllAllowed(ns.head, goodUrl);
      AllGoodMeansAllAllowed(ns.tail, goodUrl);
    }
  }

  /**
   So a document is valid exactly when its root is a doc, every node is
   allowed, no two block nodes and no two blocks share an id, and the blocks
   are the block nodes with their texts.
   */
  lemma ValidIsAboutAllNodes(content: Node, blocks: seq<Block>, goodUrl: string -> bool)
    ensures Valid(content, blocks, goodUrl) <==>
            && content.kind == Doc
            && (forall m :: m in Preorder(content) ==> Allowed(m, goodUrl))
            && var es := BlockNodes(Preorder(content));
               && (forall i, j :: 0 <= i < j < |es| ==> es[i].id != es[j].id)
               && (forall i, j :: 0 <= i < j < |blocks| ==> blocks[i].id != blocks[j].id)
               && (forall b :: b in blocks ==> Entry(b.id, b.text) in es)
               && (forall e :: e in es ==> exists b :: b in blocks && Entry(b.id, b.text) == e)
  {
    GoodMeansAllAllowed(content, goodUrl);
    EntriesAreBlockNodes(content);
    hide GoodNode, Entries, BlockNodes, Preorder;
    assert forall b: Block :: EntryOf(b) == Entry(b.id, b.text);
  }

  // ----- where an edit finds its text

  /** A text node of the tree whose text contains `from`. */
  ghost predicate SomeTextContains(n: Node, from: string) {
    exists m :: m in Preorder(n) && m.kind == Kind.Text && Strings.Contains(m.text, from)
  }

  lemma {:induction false} AppliesMeansContains(n: Node, from: string)
    ensures Applies(n, from) <==> SomeTextContains(n, from)
    decreases n
  {
    Strings.FirstIsReplaced(n.text, from, "");
    AppliesInMeansContains(n.content, from);
    hide Strings.Contains;
    assert forall m :: m in Preorder(n) <==> m == n || m in PreorderAll(n.content);
  }

  lemma {:induction false} AppliesInMeansContains(ns: Nodes, from: string)
    ensures AppliesIn(ns, from) <==>
            exists m :: m in PreorderAll(ns) && m.kind == Kind.Text && Strings.Contains(m.text, from)
    decreases ns
  {
    if ns.Cons? {
      AppliesMeansContains(ns.head, from);
      AppliesInMeansContains(ns.tail, from);
    }
  }

  // ----- what an edit leaves alone

  /** The tree without its texts. */
  function Blank(n: Node): Node {
    n.(text := "", content := BlankAll(n.content))
  }

  function BlankAll(ns: Nodes): Nodes {
    match ns
    case Nil => Nil
    case Cons(head, tail) => Cons(Blank(head), BlankAll(tail))
  }

  /** Whether each node is a text node, and its text. */
  function Texts(ms: seq<Node>): (r: seq<(bool, string)>)
    ensures |r| == |ms| && forall i :: 0 <= i < |ms| ==> r[i] == (ms[i].kind == Kind.Text, ms[i].text)
  {
    seq(|ms|, i requires 0 <= i < |ms| => (ms[i].kind == Kind.Text, ms[i].text))
  }

  /** Of these texts k is the first of a text node that contains `from`. */
  ghost predicate FirstText(ts: seq<(bool, string)>, from: string, k: nat) {
    && k < |ts| && ts[k].0 && Strings.Contains(ts[k].1, from)
    && forall j :: 0 <= j < k ==> !(ts[j].0 && Strings.Contains(ts[j].1, from))
  }

  /** Only the first occurrence in the first text that has one is replaced. */
  ghost predicate OneReplaced(before: seq<(bool, string)>, after: seq<(bool, string)>, from: string, to: string) {
    exists k: nat, i: nat :: FirstText(before, from, k) && Strings.FirstAt(before[k].1, from, i) &&
                             after == before[k := (true, before[k].1[..i] + to + before[k].1[i + |from|..])]
  }

  lemma OneReplacedLeft(a: seq<(bool, string)>, a': seq<(bool, string)>, b: seq<(bool, string)>, from: string,
                        to: string)
    requires OneReplaced(a, a', from, to)
    ensures OneReplaced(a + b, a' + b, from, to)
  {
    var k: nat, i: nat :| FirstText(a, from, k) && Strings.FirstAt(a[k].1, from, i) &&
                          a' == a[k := (true, a[k].1[..i] + to + a[k].1[i + |from|..])];
    hide Strings.Contains, Strings.FirstAt;
    assert forall j :: 0 <= j < |a| ==> (a + b)[j] == a[j];
    assert FirstText(a + b, from, k) && Strings.FirstAt((a + b)[k].1, from, i);
  }

  lemma OneReplacedRight(a: seq<(bool, string)>, b: seq<(bool, string)>, b': seq<(bool, string)>, from: string,
                         to: string)
    requires OneReplaced(b, b', from, to)
    requires forall j :: 0 <= j < |a| ==> !(a[j].0 && Strings.Contains(a[j].1, from))
    ensures OneReplaced(a + b, a + b', from, to)
  {
    var k: nat, i: nat :| FirstText(b, from, k) && Strings.FirstAt(b[k].1, from, i) &&
                          b' == b[k := (true, b[k].1[..i] + to + b[k].1[i + |from|..])];
    hide Strings.Contains, Strings.FirstAt;
    var all := a + b;
    assert all[|a| + k] == b[k];
    forall j | 0 <= j < |a| + k ensures !(all[j].0 && Strings.Contains(all[j].1, from)) {
      assert all[j] == if j < |a| then a[j] else b[j - |a|];
    }
    assert FirstText(all, from, |a| + k) && Strings.FirstAt(all[|a| + k].1, from, i);
  }

  lemma TextsConcat(a: seq<Node>, b: seq<Node>)
    ensures Texts(a + b) == Texts(a) + Texts(b)
  {
  }

  lemma NoTextContains(ms: seq<Node>, from: string)
    requires !exists m :: m in ms && m.kind == Kind.Text && Strings.Contains(m.text, from)
    ensures forall j :: 0 <= j < |ms| ==> !(Texts(ms)[j].0 && Strings.Contains(Texts(ms)[j].1, from))
  {
    assert forall j :: 0 <= j < |ms| ==> ms[j] in ms;
  }

  /** The edit replaces that occurrence and changes nothing else of the tree. */
  lemma {:induction false} EditTouchesOneText(n: Node, from: string, to: string)
    requires Applies(n, from)
    ensures Blank(Replaced(n, from, to)) == Blank(n)
    ensures OneReplaced(Texts(Preorder(n)), Texts(Preorder(Replaced(n, from, to))), from, to)
    decreases n
  {
    var m := Replaced(n, from, to);
    var rest := PreorderAll(n.content);
    TextsConcat([n], rest);
    TextsConcat([m], PreorderAll(m.content));
    if Hit(n, from) {
      Strings.FirstIsReplaced(n.text, from, to);
      var i := Strings.IndexOf(n.text, from);
      var ts := Texts([n]);
      assert FirstText(ts, from, 0) && Strings.FirstAt(ts[0].1, from, i);
      assert Texts([m]) == ts[0 := (true, n.text[..i] + to + n.text[i + |from|..])];
      OneReplacedLeft(ts, Texts([m]), Texts(rest), from, to);
    } else {
      EditTouchesOneTextIn(n.content, from, to);
      Strings.FirstIsReplaced(n.text, from, to);
      assert Texts([m]) == Texts([n]);
      OneReplacedRight(Texts([n]), Texts(rest), Texts(PreorderAll(m.content)), from, to);
    }
  }

  lemma {:induction false} EditTouchesOneTextIn(ns: Nodes, from: string, to: string)
    requires AppliesIn(ns, from)
    ensures BlankAll(ReplacedIn(ns, from, to)) == BlankAll(ns)
    ensures OneReplaced(Texts(PreorderAll(ns)), Texts(PreorderAll(ReplacedIn(ns, from, to))), from, to)
    decreases ns
  {
    var a, b := Preorder(ns.head), PreorderAll(ns.tail);
    TextsConcat(a, b);
    if Applies(ns.head, from) {
      EditTouchesOneText(ns.head, from, to);
      TextsConcat(Preorder(Replaced(ns.head, from, to)), b);
      OneReplacedLeft(Texts(a), Texts(Preorder(Replaced(ns.head, from, to))), Texts(b), from, to);
    } else {
      EditTouchesOneTextIn(ns.tail, from, to);
      var b' := PreorderAll(ReplacedIn(ns.tail, from, to));
      TextsConcat(a, b');
      AppliesMeansContains(ns.head, from);
      NoTextContains(a, from);
      OneReplacedRight(Texts(a), Texts(b), Texts(b'), from, to);
    }
  }

  /** All edits are made exactly when, at its turn, each has a text node that contains its old text. */
  lemma AppliedIff(content: Node, blocks: seq<Block>, edits: seq<Edit>)
    ensures AfterEdits(content, blocks, edits).applied <==>
            forall k :: 0 <= k < |edits| ==> SomeTextContains(TreeAfter(content, edits[..k]), edits[k].from)
  {
    AppliedIffAllFind(content, blocks, edits);
    forall k | 0 <= k < |edits|
      ensures Finds(content, edits, k) <==> SomeTextContains(TreeAfter(content, edits[..k]), edits[k].from)
    {
      AppliesMeansContains(TreeAfter(content, edits[..k]), edits[k].from);
    }
  }
}
