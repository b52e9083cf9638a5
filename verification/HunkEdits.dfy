/** `hunkEdits`: diff hunks as (from, to) text replacements, and what applying them in order gives. */
module HunkEdits {
  import opened Wrappers
  import opened Text
  import opened Sequences

  /** Any sign but "-" and "+" is context. */
  datatype Sign = Removed | Added | Context

  datatype Hunk = Hunk(sign: Sign, text: string)

  datatype Edit = Edit(from: string, to: string)

  /** `lines.join("\n")` */
  function Join(lines: seq<string>): string {
    if lines == [] then ""
    else if |lines| == 1 then lines[0]
    else lines[0] + "\n" + Join(lines[1..])
  }

  /** One `flush`: the edits it adds, or None when an added line has no context line before it. */
  function Flushed(anchor: Option<string>, removed: seq<string>, added: seq<string>): Option<seq<Edit>> {
    if removed != [] then Some([Edit(Join(removed), Join(added))])
    else if added == [] then Some([])
    else if anchor.None? then None
    else Some([Edit(anchor.value, anchor.value + "\n" + Join(added))])
  }

  function Joined(a: Option<seq<Edit>>, b: Option<seq<Edit>>): Option<seq<Edit>> {
    if a.None? || b.None? then None else Some(a.value + b.value)
  }

  /** The edits from the hunks still to come, given what the loop holds. */
  function EditsFrom(hunks: seq<Hunk>, anchor: Option<string>, removed: seq<string>, added: seq<string>)
        : Option<seq<Edit>>
    decreases |hunks|
  {
    if hunks == [] then Flushed(anchor, removed, added)
    else
      var Hunk(sign, text) := hunks[0];
      match sign
      case Removed =>
        if added != [] then
          Joined(Flushed(anchor, removed, added), EditsFrom(hunks[1..], anchor, [text], []))
        else
          EditsFrom(hunks[1..], anchor, removed + [text], [])
      case Added => EditsFrom(hunks[1..], anchor, removed, added + [text])
      case Context => Joined(Flushed(anchor, removed, added), EditsFrom(hunks[1..], Some(text), [], []))
  }

  function EditsOf(hunks: seq<Hunk>): Option<seq<Edit>> {
    EditsFrom(hunks, None, [], [])
  }

  /** The loop itself; None is the field error it throws. */
  method HunkEdits(hunks: seq<Hunk>) returns (edits: Option<seq<Edit>>)
    ensures edits == EditsOf(hunks)
  {
    var out: seq<Edit> := [];
    var anchor: Option<string> := None;
    var removed, added := [], [];
    assert hunks[0..] == hunks;
    assert EditsOf(hunks).Some? ==> [] + EditsOf(hunks).value == EditsOf(hunks).value;
    for i := 0 to |hunks|
      invariant Joined(Some(out), EditsFrom(hunks[i..], anchor, removed, added)) == EditsOf(hunks)
    {
      var Hunk(sign, text) := hunks[i];
      assert hunks[i..][1..] == hunks[i + 1..];
      if sign == Removed {
        if added != [] {
          var flushed := Flushed(anchor, removed, added);
          if flushed.None? {
            return None;
          }
          ghost var later := EditsFrom(hunks[i + 1..], anchor, [text], []);
          if later.Some? {
            Regroup(out, flushed.value, later.value);
          }
          out, removed, added := out + flushed.value, [], [];
          assert [] + [text] == [text];
        }
        removed := removed + [text];
      } else if sign == Added {
        added := added + [text];
      } else {
        var flushed := Flushed(anchor, removed, added);
        if flushed.None? {
          return None;
        }
        ghost var later := EditsFrom(hunks[i + 1..], Some(text), [], []);
        if later.Some? {
          Regroup(out, flushed.value, later.value);
        }
        out, removed, added, anchor := out + flushed.value, [], [], Some(text);
      }
    }
    assert hunks[|hunks|..] == [];
    var flushed := Flushed(anchor, removed, added);
    return Joined(Some(out), flushed);
  }

  // ----- the two sides of the diff

  function OldLines(hunks: seq<Hunk>): seq<string> {
    if hunks == [] then []
    else if hunks[0].sign == Added then OldLines(hunks[1..])
    else [hunks[0].text] + OldLines(hunks[1..])
  }

  function NewLines(hunks: seq<Hunk>): seq<string> {
    if hunks == [] then []
    else if hunks[0].sign == Removed then NewLines(hunks[1..])
    else [hunks[0].text] + NewLines(hunks[1..])
  }

  /** What stands in for a flushed group: its added lines, or one empty line where lines were only removed. */
  function Emitted(removed: seq<string>, added: seq<string>): seq<string> {
    if removed != [] && added == [] then [""] else added
  }

  /** The new side with an empty line in place of every removal that nothing replaces. */
  function PaddedFrom(hunks: seq<Hunk>, removed: seq<string>, added: seq<string>): seq<string>
    decreases |hunks|
  {
    if hunks == [] then Emitted(removed, added)
    else
      var Hunk(sign, text) := hunks[0];
      match sign
      case Removed =>
        if added != [] then Emitted(removed, added) + PaddedFrom(hunks[1..], [text], [])
        else PaddedFrom(hunks[1..], removed + [text], [])
      case Added => PaddedFrom(hunks[1..], removed, added + [text])
      case Context => Emitted(removed, added) + ([text] + PaddedFrom(hunks[1..], [], []))
  }

  function PaddedLines(hunks: seq<Hunk>): seq<string> {
    PaddedFrom(hunks, [], [])
  }

  /** How many runs of removed lines are not followed by an added one. */
  function BareFrom(hunks: seq<Hunk>, removing: bool, adding: bool): nat
    decreases |hunks|
  {
    var bare := if removing && !adding then 1 else 0;
    if hunks == [] then bare
    else
      match hunks[0].sign
      case Removed => BareFrom(hunks[1..], true, false)
      case Added => BareFrom(hunks[1..], removing, true)
      case Context => bare + BareFrom(hunks[1..], false, false)
  }

  function BareRemovals(hunks: seq<Hunk>): nat {
    BareFrom(hunks, false, false)
  }

  // ----- applying the edits

  /** Each edit's old text occurs exactly once when its turn comes. */
  ghost predicate OnceEach(text: string, edits: seq<Edit>)
    decreases |edits|
  {
    edits == [] ||
    (Once(text, edits[0].from) && OnceEach(ReplaceFirst(text, edits[0].from, edits[0].to), edits[1..]))
  }

  function ApplyAll(text: string, edits: seq<Edit>): string
    decreases |edits|
  {
    if edits == [] then text else ApplyAll(ReplaceFirst(text, edits[0].from, edits[0].to), edits[1..])
  }

  /** What stands before line |a| of a text. */
  function Lead(a: seq<string>): string {
    if a == [] then "" else Join(a) + "\n"
  }

  function Trail(c: seq<string>): string {
    if c == [] then "" else "\n" + Join(c)
  }

  lemma {:induction false} JoinConcat(a: seq<string>, b: seq<string>)
    requires b != []
    ensures Join(a + b) == Lead(a) + Join(b)
  {
    if a == [] {
      assert a + b == b;
    } else {
      JoinConcat(a[1..], b);
      Uncons(a, b);
      if |a| == 1 {
        assert a[1..] == [];
      } else {
        Regroup(a[0] + "\n", Join(a[1..]), "\n");
        Regroup(a[0] + "\n", Lead(a[1..]), Join(b));
      }
    }
  }

  lemma JoinThree(a: seq<string>, m: seq<string>, c: seq<string>)
    requires m != []
    ensures Join(a + m + c) == Lead(a) + Join(m) + Trail(c)
  {
    JoinConcat(a, m + c);
    Regroup(a, m, c);
    if c == [] {
      assert m + c == m;
    } else {
      JoinConcat(m, c);
      Regroup(Join(m), "\n", Join(c));
      Regroup(Lead(a), Join(m), "\n" + Join(c));
    }
  }

  lemma ReplaceMiddle(p: string, x: string, q: string, y: string)
    requires Once(p + x + q, x)
    ensures ReplaceFirst(p + x + q, x, y) == p + y + q
  {
    AtInside(p, x, q, 0, x);
    assert IndexOf(p + x + q, x) == |p|;
    hide At, IndexOf;
    assert (p + x + q)[..|p|] == p;
    assert (p + x + q)[|p| + |x|..] == q;
  }

  /** Replacing the only occurrence of some lines of a text replaces those lines. */
  lemma ReplaceLines(a: seq<string>, m: seq<string>, c: seq<string>, n: seq<string>)
    requires m != [] && n != [] && Once(Join(a + m + c), Join(m))
    ensures ReplaceFirst(Join(a + m + c), Join(m), Join(n)) == Join(a + n + c)
  {
    hide Join, Lead, Trail;
    JoinThree(a, m, c);
    JoinThree(a, n, c);
    ReplaceMiddle(Lead(a), Join(m), Trail(c), Join(n));
  }

  lemma JoinEmitted(removed: seq<string>, added: seq<string>)
    requires removed != []
    ensures Emitted(removed, added) != [] && Join(Emitted(removed, added)) == Join(added)
  {
  }

  lemma JoinAnchored(anchor: string, added: seq<string>)
    requires added != []
    ensures Join([anchor] + added) == anchor + "\n" + Join(added)
  {
    JoinConcat([anchor], added);
  }

  /** One flush moves the text from the old lines of its group to what is emitted for it. */
  lemma FlushReplaces(anchor: Option<string>, out: seq<string>, removed: seq<string>, added: seq<string>,
                      rest: seq<string>)
    requires removed == [] && added != [] ==> anchor.Some? && out != [] && out[|out| - 1] == anchor.value
    requires OnceEach(Join(out + removed + rest), Flushed(anchor, removed, added).value)
    ensures ApplyAll(Join(out + removed + rest), Flushed(anchor, removed, added).value)
            == Join(out + Emitted(removed, added) + rest)
  {
    var text, edits := Join(out + removed + rest), Flushed(anchor, removed, added).value;
    if removed != [] {
      assert edits[1..] == [];
      JoinEmitted(removed, added);
      ReplaceLines(out, removed, rest, Emitted(removed, added));
    } else if added != [] {
      assert edits[1..] == [];
      var a := out[..|out| - 1];
      assert out + removed + rest == a + [anchor.value] + rest;
      assert out + added + rest == a + ([anchor.value] + added) + rest;
      JoinAnchored(anchor.value, added);
      assert Join([anchor.value]) == anchor.value;
      ReplaceLines(a, [anchor.value], rest, [anchor.value] + added);
    }
  }

  lemma {:induction false} ApplySplits(text: string, a: seq<Edit>, b: seq<Edit>)
    ensures ApplyAll(text, a + b) == ApplyAll(ApplyAll(text, a), b)
    ensures OnceEach(text, a + b) ==> OnceEach(text, a) && OnceEach(ApplyAll(text, a), b)
    decreases |a|
  {
    if a == [] {
      assert a + b == b;
    } else {
      Uncons(a, b);
      ApplySplits(ReplaceFirst(text, a[0].from, a[0].to), a[1..], b);
    }
  }

  /** Where the loop stands: the anchor is the last line put out, unless nothing but removals came so far. */
  predicate Anchored(anchor: Option<string>, out: seq<string>, removed: seq<string>, added: seq<string>) {
    removed == [] ==>
      (anchor.None? && out == []) || (anchor.Some? && out != [] && out[|out| - 1] == anchor.value)
  }

  lemma {:induction false} ApplyFrom(hunks: seq<Hunk>, anchor: Option<string>, out: seq<string>,
                                     removed: seq<string>, added: seq<string>)
    requires Anchored(anchor, out, removed, added)
    requires EditsFrom(hunks, anchor, removed, added).Some?
    requires OnceEach(Join(out + removed + OldLines(hunks)), EditsFrom(hunks, anchor, removed, added).value)
    ensures ApplyAll(Join(out + removed + OldLines(hunks)), EditsFrom(hunks, anchor, removed, added).value)
            == Join(out + PaddedFrom(hunks, removed, added))
    decreases |hunks|
  {
    hide Join, OnceEach, ApplyAll;
    var text := Join(out + removed + OldLines(hunks));
    if hunks == [] {
      FlushReplaces(anchor, out, removed, added, []);
      assert out + Emitted(removed, added) + [] == out + Emitted(removed, added);
    } else {
      var Hunk(sign, line) := hunks[0];
      var rest := hunks[1..];
      var emitted := Emitted(removed, added);
      match sign
      case Removed =>
        if added != [] {
          var first, later := Flushed(anchor, removed, added).value, EditsFrom(rest, anchor, [line], []).value;
          ApplySplits(text, first, later);
          FlushReplaces(anchor, out, removed, added, OldLines(hunks));
          Regroup(out + emitted, [line], OldLines(rest));
          ApplyFrom(rest, anchor, out + emitted, [line], []);
          Regroup(out, emitted, PaddedFrom(rest, [line], []));
        } else {
          assert out + removed + OldLines(hunks) == out + (removed + [line]) + OldLines(rest);
          ApplyFrom(rest, anchor, out, removed + [line], []);
        }
      case Added =>
        ApplyFrom(rest, anchor, out, removed, added + [line]);
      case Context =>
        var first, later := Flushed(anchor, removed, added).value, EditsFrom(rest, Some(line), [], []).value;
        ApplySplits(text, first, later);
        FlushReplaces(anchor, out, removed, added, OldLines(hunks));
        var next := out + emitted + [line];
        assert out + emitted + OldLines(hunks) == next + [] + OldLines(rest);
        ApplyFrom(rest, Some(line), next, [], []);
        assert next + PaddedFrom(rest, [], []) == out + (emitted + ([line] + PaddedFrom(rest, [], [])));
    }
  }

  /**
   Whenever each old text is found exactly once at its turn, applying the
   edits in order to the old side gives the new side, with one empty line left
   where lines were removed and none added.
   */
  lemma EditsGiveThePaddedSide(hunks: seq<Hunk>)
    requires EditsOf(hunks).Some? && OnceEach(Join(OldLines(hunks)), EditsOf(hunks).value)
    ensures ApplyAll(Join(OldLines(hunks)), EditsOf(hunks).value) == Join(PaddedLines(hunks))
  {
    assert [] + [] + OldLines(hunks) == OldLines(hunks);
    ApplyFrom(hunks, None, [], [], []);
    assert [] + PaddedLines(hunks) == PaddedLines(hunks);
  }

  // ----- when that is the new side

  function Total(lines: seq<string>): nat {
    if lines == [] then 0 else |lines[0]| + Total(lines[1..])
  }

  lemma {:induction false} TotalConcat(a: seq<string>, b: seq<string>)
    ensures Total(a + b) == Total(a) + Total(b)
  {
    if a == [] {
      assert a + b == b;
    } else {
      TotalConcat(a[1..], b);
      Uncons(a, b);
    }
  }

  lemma {:induction false} JoinLength(lines: seq<string>)
    ensures |Join(lines)| == Total(lines) + if lines == [] then 0 else |lines| - 1
  {
    if |lines| > 1 {
      JoinLength(lines[1..]);
    }
  }

  lemma EmittedLength(removed: seq<string>, added: seq<string>)
    ensures |Emitted(removed, added)| == |added| + if removed != [] && added == [] then 1 else 0
    ensures Total(Emitted(removed, added)) == Total(added)
  {
    assert Total([""]) == 0 + Total([]);
  }

  /** The padded side is the new side and one empty line for each bare removal. */
  lemma {:induction false} PaddedCounts(hunks: seq<Hunk>, removed: seq<string>, added: seq<string>)
    ensures var padded := PaddedFrom(hunks, removed, added);
            var bare := BareFrom(hunks, removed != [], added != []);
            && |padded| == |added| + |NewLines(hunks)| + bare
            && Total(padded) == Total(added) + Total(NewLines(hunks))
            && (bare == 0 ==> padded == added + NewLines(hunks))
    decreases |hunks|
  {
    EmittedLength(removed, added);
    if hunks != [] {
      var Hunk(sign, line) := hunks[0];
      var rest, emitted := hunks[1..], Emitted(removed, added);
      match sign
      case Removed =>
        if added != [] {
          PaddedCounts(rest, [line], []);
          TotalConcat(emitted, PaddedFrom(rest, [line], []));
          assert [] + NewLines(rest) == NewLines(rest);
        } else {
          PaddedCounts(rest, removed + [line], []);
        }
      case Added =>
        PaddedCounts(rest, removed, added + [line]);
        TotalConcat(added, [line]);
        assert Total([line]) == |line| + Total([]);
        Regroup(added, [line], NewLines(rest));
      case Context =>
        PaddedCounts(rest, [], []);
        var tail := PaddedFrom(rest, [], []);
        TotalConcat(emitted, [line] + tail);
        assert ([line] + tail)[1..] == tail;
        assert [] + NewLines(rest) == NewLines(rest);
    }
  }

  /**
   So the result is the new side exactly when every removal is followed by an
   added line, or the diff removes everything in one run.
   */
  lemma EditsGiveTheNewSide(hunks: seq<Hunk>)
    requires EditsOf(hunks).Some? && OnceEach(Join(OldLines(hunks)), EditsOf(hunks).value)
    ensures ApplyAll(Join(OldLines(hunks)), EditsOf(hunks).value) == Join(NewLines(hunks))
            <==> BareRemovals(hunks) == 0 || (BareRemovals(hunks) == 1 && NewLines(hunks) == [])
  {
    var padded, lines := PaddedLines(hunks), NewLines(hunks);
    EditsGiveThePaddedSide(hunks);
    PaddedCounts(hunks, [], []);
    JoinLength(padded);
    JoinLength(lines);
    if BareRemovals(hunks) == 0 {
      assert [] + lines == lines;
    } else if |padded| == 1 {
      assert Total(lines) == 0;
      assert |Join(padded)| == 0 == |Join(lines)|;
    }
  }

  /** Removing the last line leaves its line break. */
  lemma BareRemovalLeavesALine()
    ensures var hunks := [Hunk(Context, "a"), Hunk(Removed, "b")];
            && EditsOf(hunks) == Some([Edit("b", "")]) && Join(OldLines(hunks)) == "a\nb"
            && OnceEach("a\nb", [Edit("b", "")])
            && ApplyAll("a\nb", [Edit("b", "")]) == "a\n" && Join(NewLines(hunks)) == "a"
  {
    var hunks, text, edit := [Hunk(Context, "a"), Hunk(Removed, "b")], "a\nb", Edit("b", "");
    var rest, none := hunks[1..], hunks[1..][1..];
    assert rest == [Hunk(Removed, "b")] && none == [];
    assert Flushed(Some("a"), ["b"], []) == Some([edit]);
    assert EditsFrom(none, Some("a"), ["b"], []) == Some([edit]);
    assert [] + ["b"] == ["b"] && [] + [edit] == [edit];
    assert EditsFrom(rest, Some("a"), [], []) == Some([edit]);
    assert OldLines(none) == [] && OldLines(rest) == ["b"] && OldLines(hunks) == ["a", "b"];
    assert NewLines(none) == [] && NewLines(rest) == [] && NewLines(hunks) == ["a"];
    assert ["a", "b"][1..] == ["b"];
    assert "b"[0] == 'b' && At(text, 2, "b") && !At(text, 1, "b") && !At(text, 0, "b");
    assert IndexFrom(text, "b", 2) == 2 && IndexFrom(text, "b", 1) == 2 && IndexOf(text, "b") == 2;
    assert [edit][1..] == [];
    assert ReplaceFirst(text, "b", "") == "a\n";
  }

  /** `hunkEdits` throws exactly when the first hunk is an added line: later ones always have an anchor. */
  lemma {:induction false} FailsFrom(hunks: seq<Hunk>, anchor: Option<string>, removed: seq<string>, added: seq<string>)
    ensures EditsFrom(hunks, anchor, removed, added).None?
            <==> anchor.None? && removed == [] && (added != [] || (hunks != [] && hunks[0].sign == Added))
    decreases |hunks|
  {
    if hunks != [] {
      var Hunk(sign, line) := hunks[0];
      match sign
      case Removed =>
        FailsFrom(hunks[1..], anchor, if added != [] then [line] else removed + [line], []);
      case Added =>
        FailsFrom(hunks[1..], anchor, removed, added + [line]);
      case Context =>
        FailsFrom(hunks[1..], Some(line), [], []);
    }
  }

  lemma ThrowsOnALeadingAdd(hunks: seq<Hunk>)
    ensures EditsOf(hunks).None? <==> hunks != [] && hunks[0].sign == Added
  {
    FailsFrom(hunks, None, [], []);
  }
}
