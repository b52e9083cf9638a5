/** The TipTap tree, its blocks, and when `validateDocumentContent` takes the two as one document. */
module DocumentTree {
  import opened Wrappers
  import opened Sequences

  datatype Kind = Doc | Paragraph | Heading | BulletList | OrderedList | ListItem | Text | Unknown(name: string)

  datatype Mark = Mark(isLink: bool, href: string)

  /** A missing text, blockId or href is empty. */
  datatype Node = Node(kind: Kind, text: string, blockId: string, marks: seq<Mark>, content: Nodes)
  datatype Nodes = Nil | Cons(head: Node, tail: Nodes)

  datatype Block = Block(id: string, text: string, refs: seq<(string, int, int)>, claimStatus: string)

  /** The block nodes of a tree: id and text, parents before children. */
  datatype Entry = Entry(id: string, text: string)

  datatype Error =
    | UnsupportedNode | UnsupportedMark | NoHref | BadUrl | NoBlockId | DuplicateBlockId(id: string)
    | RootNotDoc | BlockIdRequired | DuplicateBlock(id: string) | NoNode(id: string) | TextDiffers(id: string)
    | NoBlock(id: string)

  /** `nodeText` */
  function NodeText(n: Node): string {
    n.text + NodesText(n.content)
  }

  function NodesText(ns: Nodes): string {
    match ns
    case Nil => ""
    case Cons(head, tail) => NodeText(head) + NodesText(tail)
  }

  predicate IsBlock(n: Node) {
    n.kind.Paragraph? || n.kind.Heading? || n.kind.ListItem?
  }

  function Entries(n: Node): seq<Entry> {
    if IsBlock(n) then [Entry(n.blockId, NodeText(n))] + AllEntries(n.content) else AllEntries(n.content)
  }

  function AllEntries(ns: Nodes): seq<Entry> {
    match ns
    case Nil => []
    case Cons(head, tail) => Entries(head) + AllEntries(tail)
  }

  // ----- what is meant by a document

  predicate GoodMarks(marks: seq<Mark>, goodUrl: string -> bool) {
    forall m :: m in marks ==> m.isLink && m.href != "" && goodUrl(m.href)
  }

  predicate GoodNode(n: Node, goodUrl: string -> bool) {
    !n.kind.Unknown? && GoodMarks(n.marks, goodUrl) && (IsBlock(n) ==> n.blockId != "") && GoodNodes(n.content, goodUrl)
  }

  predicate GoodNodes(ns: Nodes, goodUrl: string -> bool) {
    match ns
    case Nil => true
    case Cons(head, tail) => GoodNode(head, goodUrl) && GoodNodes(tail, goodUrl)
  }

  predicate DistinctIds(es: seq<Entry>) {
    forall i, j :: 0 <= i < j < |es| ==> es[i].id != es[j].id
  }

  predicate DistinctBlocks(blocks: seq<Block>) {
    forall i, j :: 0 <= i < j < |blocks| ==> blocks[i].id != blocks[j].id
  }

  function EntryOf(b: Block): Entry {
    Entry(b.id, b.text)
  }

  /** The blocks and the block nodes are one finite map from ids to texts. */
  predicate Corresponds(es: seq<Entry>, blocks: seq<Block>) {
    && (forall b :: b in blocks ==> EntryOf(b) in es)
    && (forall e :: e in es ==> exists b :: b in blocks && EntryOf(b) == e)
  }

  predicate Valid(content: Node, blocks: seq<Block>, goodUrl: string -> bool) {
    && content.kind.Doc?
    && GoodNode(content, goodUrl)
    && DistinctIds(Entries(content))
    && DistinctBlocks(blocks)
    && Corresponds(Entries(content), blocks)
  }

  // ----- `walk` and `validateDocumentContent`

  function MarkError(marks: seq<Mark>, goodUrl: string -> bool): Option<Error> {
    if marks == [] then None
    else if !marks[0].isLink then Some(UnsupportedMark)
    else if marks[0].href == "" then Some(NoHref)
    else if !goodUrl(marks[0].href) then Some(BadUrl)
    else MarkError(marks[1..], goodUrl)
  }

  predicate Fresh(es: seq<Entry>, seen: map<string, string>) {
    forall e :: e in es ==> e.id !in seen
  }

  function MapOf(es: seq<Entry>): map<string, string> {
    if es == [] then map[] else MapOf(es[..|es| - 1])[es[|es| - 1].id := es[|es| - 1].text]
  }

  lemma {:induction false} MapOfHas(es: seq<Entry>)
    ensures forall id :: id in MapOf(es) <==> exists e :: e in es && e.id == id
    ensures DistinctIds(es) ==> forall e :: e in es ==> MapOf(es)[e.id] == e.text
  {
    if es != [] {
      var last := es[|es| - 1];
      MapOfHas(es[..|es| - 1]);
      assert es == es[..|es| - 1] + [last];
    }
  }

  class Walker {
    var extracted: map<string, string>
    var order: seq<string>
    ghost var found: seq<Entry>

    ghost predicate Gathered()
      reads this
    {
      extracted == MapOf(found) && |order| == |found| && (forall i :: 0 <= i < |found| ==> order[i] == found[i].id)
      && DistinctIds(found)
    }

    constructor ()
      ensures Gathered() && found == []
    {
      extracted, order, found := map[], [], [];
    }

    method Walk(n: Node, goodUrl: string -> bool) returns (error: Option<Error>)
      requires Gathered()
      modifies this
      ensures error.None? <==> GoodNode(n, goodUrl) && DistinctIds(old(found) + Entries(n))
      ensures error.None? ==> Gathered() && found == old(found) + Entries(n)
      decreases n
    {
      if n.kind.Unknown? {
        return Some(UnsupportedNode);
      }
      var bad := CheckMarks(n.marks, goodUrl);
      if bad.Some? {
        return bad;
      }
      if IsBlock(n) {
        if n.blockId == "" {
          return Some(NoBlockId);
        }
        MapOfHas(found);
        var entry := Entry(n.blockId, NodeText(n));
        Regroup(found, [entry], AllEntries(n.content));
        if n.blockId in extracted {
          Repeats(found, entry, AllEntries(n.content));
          return Some(DuplicateBlockId(n.blockId));
        }
        extracted := extracted[n.blockId := entry.text];
        order := order + [n.blockId];
        found := found + [entry];
        assert found[..|found| - 1] == old(found);
        Distinguish(old(found), entry);
      }
      error := WalkAll(n.content, goodUrl);
    }

    method WalkAll(ns: Nodes, goodUrl: string -> bool) returns (error: Option<Error>)
      requires Gathered()
      modifies this
      ensures error.None? <==> GoodNodes(ns, goodUrl) && DistinctIds(old(found) + AllEntries(ns))
      ensures error.None? ==> Gathered() && found == old(found) + AllEntries(ns)
      decreases ns
    {
      if ns.Nil? {
        assert found + [] == found;
        return None;
      }
      Regroup(found, Entries(ns.head), AllEntries(ns.tail));
      error := Walk(ns.head, goodUrl);
      if error.Some? {
        if GoodNode(ns.head, goodUrl) {
          PrefixDistinct(old(found) + Entries(ns.head), AllEntries(ns.tail));
        }
        return;
      }
      error := WalkAll(ns.tail, goodUrl);
    }
  }

  lemma PrefixDistinct(a: seq<Entry>, b: seq<Entry>)
    ensures DistinctIds(a + b) ==> DistinctIds(a)
  {
    if DistinctIds(a + b) {
      forall i, j | 0 <= i < j < |a| ensures a[i].id != a[j].id {
        assert (a + b)[i] == a[i] && (a + b)[j] == a[j];
      }
    }
  }

  lemma Repeats(a: seq<Entry>, e: Entry, b: seq<Entry>)
    requires exists x :: x in a && x.id == e.id
    ensures !DistinctIds(a + [e] + b)
  {
    var i :| 0 <= i < |a| && a[i].id == e.id;
    var all := a + [e] + b;
    assert all[i] == a[i] && all[|a|] == e;
  }

  lemma Distinguish(a: seq<Entry>, e: Entry)
    requires DistinctIds(a) && !(exists x :: x in a && x.id == e.id)
    ensures DistinctIds(a + [e])
  {
    forall i, j | 0 <= i < j < |a| + 1 ensures (a + [e])[i].id != (a + [e])[j].id {
      assert (a + [e])[i] == a[i] && a[i] in a;
    }
  }

  method CheckMarks(marks: seq<Mark>, goodUrl: string -> bool) returns (error: Option<Error>)
    ensures error == MarkError(marks, goodUrl)
    ensures error.None? <==> GoodMarks(marks, goodUrl)
  {
    for i := 0 to |marks|
      invariant MarkError(marks, goodUrl) == MarkError(marks[i..], goodUrl)
      invariant forall k :: 0 <= k < i ==> marks[k].isLink && marks[k].href != "" && goodUrl(marks[k].href)
    {
      assert marks[i..][1..] == marks[i + 1..] && marks[i] in marks;
      if !marks[i].isLink {
        return Some(UnsupportedMark);
      }
      if marks[i].href == "" {
        return Some(NoHref);
      }
      if !goodUrl(marks[i].href) {
        return Some(BadUrl);
      }
    }
    return None;
  }

  /** It succeeds exactly on a document, and refuses everything else. */
  method ValidateDocumentContent(content: Node, blocks: seq<Block>, goodUrl: string -> bool)
        returns (error: Option<Error>)
    ensures error.None? <==> Valid(content, blocks, goodUrl)
  {
    if !content.kind.Doc? {
      return Some(RootNotDoc);
    }
    var walker := new Walker();
    error := walker.Walk(content, goodUrl);
    assert [] + Entries(content) == Entries(content);
    if error.None? {
      NoEmptyIds(content, goodUrl);
      error := CheckBlocks(blocks, walker.extracted, walker.order, Entries(content));
    }
  }

  /** The two loops over the blocks and over the ids `walk` met. */
  method CheckBlocks(blocks: seq<Block>, extracted: map<string, string>, order: seq<string>, ghost es: seq<Entry>)
    returns (error: Option<Error>)
    requires DistinctIds(es) && forall e :: e in es ==> e.id != ""
    requires extracted == MapOf(es) && |order| == |es| && forall i :: 0 <= i < |es| ==> order[i] == es[i].id
    ensures error.None? <==> DistinctBlocks(blocks) && Corresponds(es, blocks)
  {
    MapOfHas(es);
    hide MapOf;
    var seen: set<string> := {};
    for i := 0 to |blocks|
      invariant forall id :: id in seen <==> exists k :: 0 <= k < i && blocks[k].id == id
      invariant forall j, k :: 0 <= j < k < i ==> blocks[j].id != blocks[k].id
      invariant forall k :: 0 <= k < i ==> EntryOf(blocks[k]) in es
    {
      var b := blocks[i];
      assert b in blocks;
      if b.id == "" {
        return Some(BlockIdRequired);
      }
      if b.id in seen {
        return Some(DuplicateBlock(b.id));
      }
      seen := seen + {b.id};
      if b.id !in extracted {
        return Some(NoNode(b.id));
      }
      if extracted[b.id] != b.text {
        return Some(TextDiffers(b.id));
      }
      ghost var e :| e in es && e.id == b.id;
      assert e == EntryOf(b);
    }
    for i := 0 to |order|
      invariant forall k :: 0 <= k < i ==> es[k].id in seen
    {
      if order[i] !in seen {
        assert es[i] in es;
        return Some(NoBlock(order[i]));
      }
    }
    AllCovered(es, blocks, seen);
    return None;
  }

  lemma AllCovered(es: seq<Entry>, blocks: seq<Block>, seen: set<string>)
    requires DistinctIds(es)
    requires forall k :: 0 <= k < |blocks| ==> EntryOf(blocks[k]) in es
    requires forall id :: id in seen ==> exists k :: 0 <= k < |blocks| && blocks[k].id == id
    requires forall k :: 0 <= k < |es| ==> es[k].id in seen
    ensures Corresponds(es, blocks)
  {
    forall e | e in es ensures exists b :: b in blocks && EntryOf(b) == e {
      var k :| 0 <= k < |es| && es[k] == e;
      assert es[k].id in seen;
      var j :| 0 <= j < |blocks| && blocks[j].id == es[k].id;
      var m :| 0 <= m < |es| && es[m] == EntryOf(blocks[j]);
      assert m == k;
      assert blocks[j] in blocks;
    }
  }

  lemma {:induction false} NoEmptyIds(n: Node, goodUrl: string -> bool)
    requires GoodNode(n, goodUrl)
    ensures forall e :: e in Entries(n) ==> e.id != ""
    decreases n
  {
    NoEmptyIdsAll(n.content, goodUrl);
  }

  lemma {:induction false} NoEmptyIdsAll(ns: Nodes, goodUrl: string -> bool)
    requires GoodNodes(ns, goodUrl)
    ensures forall e :: e in AllEntries(ns) ==> e.id != ""
    decreases ns
  {
    if ns.Cons? {
      NoEmptyIds(ns.head, goodUrl);
      NoEmptyIdsAll(ns.tail, goodUrl);
    }
  }

  function IdsOfEntries(es: seq<Entry>): set<string> {
    set e | e in es :: e.id
  }

  lemma {:induction false} DistinctCount(es: seq<Entry>)
    requires DistinctIds(es)
    ensures |IdsOfEntries(es)| == |es|
  {
    if es != [] {
      var n := |es| - 1;
      DistinctCount(es[..n]);
      assert es == es[..n] + [es[n]];
      assert IdsOfEntries(es) == IdsOfEntries(es[..n]) + {es[n].id};
      assert es[n].id !in IdsOfEntries(es[..n]);
    }
  }

  function EntriesOf(blocks: seq<Block>): (es: seq<Entry>)
    ensures |es| == |blocks|
    ensures forall i :: 0 <= i < |blocks| ==> es[i] == EntryOf(blocks[i])
  {
    if blocks == [] then [] else [EntryOf(blocks[0])] + EntriesOf(blocks[1..])
  }

  lemma SameEntries(es: seq<Entry>, blocks: seq<Block>, e: Entry)
    requires Corresponds(es, blocks)
    ensures e in es <==> e in EntriesOf(blocks)
  {
    var bs := EntriesOf(blocks);
    if e in bs {
      var i :| 0 <= i < |bs| && bs[i] == e;
      assert blocks[i] in blocks;
    }
    if e in es {
      var b :| b in blocks && EntryOf(b) == e;
      var i :| 0 <= i < |blocks| && blocks[i] == b;
      assert bs[i] == e;
    }
  }

  lemma SameMap(es: seq<Entry>, bs: seq<Entry>)
    requires DistinctIds(es) && DistinctIds(bs) && forall e :: e in es <==> e in bs
    ensures MapOf(es) == MapOf(bs) && |es| == |bs|
  {
    MapOfHas(es);
    MapOfHas(bs);
    assert IdsOfEntries(es) == IdsOfEntries(bs);
    DistinctCount(es);
    DistinctCount(bs);
    hide MapOf;
    assert forall id :: id in MapOf(es) <==> id in MapOf(bs);
  }

  /** A document has as many blocks as block nodes, and both say the same map. */
  lemma ValidCounts(content: Node, blocks: seq<Block>, goodUrl: string -> bool)
    requires Valid(content, blocks, goodUrl)
    ensures |blocks| == |Entries(content)|
    ensures MapOf(Entries(content)) == MapOf(EntriesOf(blocks))
  {
    forall e ensures e in Entries(content) <==> e in EntriesOf(blocks) {
      SameEntries(Entries(content), blocks, e);
    }
    SameMap(Entries(content), EntriesOf(blocks));
  }
}
