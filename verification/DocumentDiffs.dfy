/** A diff applied to a document: what its text becomes, and that the document stays one. */
module DocumentDiffs {
  import opened Wrappers
  import Strings = Text
  import opened DocumentTree
  import opened DocumentEdits
  import opened HunkEdits
  import opened DocumentAgreement

  /** In a text that holds `from` once, the place the edit takes is its first occurrence. */
  lemma OneEdit(n: Node, from: string, to: string)
    requires Applies(n, from) && Strings.Once(NodeText(n), from)
    ensures NodeText(Replaced(n, from, to)) == Strings.ReplaceFirst(NodeText(n), from, to)
  {
    hide NodeText, Applies, Replaced, TargetAt;
    TextFollows(n, from, to);
    Strings.OccursMeansIncludes(NodeText(n), TargetAt(n, from), from);
  }

  /** The text of the edited tree is the text of the tree with the edits made in it, one after the other. */
  lemma {:induction false} TextIsApplied(content: Node, blocks: seq<Block>, edits: seq<Edit>)
    requires UniqueEdits(content, edits)
    ensures OnceEach(NodeText(content), edits)
    ensures NodeText(AfterEdits(content, blocks, edits).content) == ApplyAll(NodeText(content), edits)
    decreases |edits|
  {
    if edits != [] {
      var Edit(from, to) := edits[0];
      hide NodeText, Applies, Replaced;
      OneEdit(content, from, to);
      TextIsApplied(Replaced(content, from, to), ReplacedBlocks(blocks, from, to), edits[1..]);
    }
  }

  /**
   A diff whose old side is the text of a valid document, each of its old
   texts found once and inside one text node, gives a valid document with the
   same block ids. Its text is the padded new side, and the new side itself
   exactly when every removal is followed by an added line, or all is removed
   in one run.
   */
  lemma DiffGivesTheNewSide(content: Node, blocks: seq<Block>, hunks: seq<Hunk>, goodUrl: string -> bool)
    requires Valid(content, blocks, goodUrl) && NodeText(content) == Join(OldLines(hunks))
    requires EditsOf(hunks).Some? && UniqueEdits(content, EditsOf(hunks).value)
    ensures var r := AfterEdits(content, blocks, EditsOf(hunks).value);
            && r.applied && Valid(r.content, r.blocks, goodUrl) && SameIds(Entries(content), Entries(r.content))
            && NodeText(r.content) == Join(PaddedLines(hunks))
            && (NodeText(r.content) == Join(NewLines(hunks))
                <==> BareRemovals(hunks) == 0 || (BareRemovals(hunks) == 1 && NewLines(hunks) == []))
  {
    var edits := EditsOf(hunks).value;
    hide *;
    UniqueEditsKeepValid(content, blocks, edits, goodUrl);
    TextIsApplied(content, blocks, edits);
    EditsGiveThePaddedSide(hunks);
    EditsGiveTheNewSide(hunks);
  }
}
