/** Which edits a diff becomes, said of its parts: lines that are kept, and changes between them. */
module HunkSegments {
  import opened Wrappers
  import opened Sequences
  import opened HunkEdits

  datatype Segment = Kept(line: string) | Changed(removed: seq<string>, added: seq<string>)

  function Signed(sign: Sign, lines: seq<string>): (hunks: seq<Hunk>)
    ensures |hunks| == |lines| && forall i :: 0 <= i < |lines| ==> hunks[i] == Hunk(sign, lines[i])
  {
    seq(|lines|, i requires 0 <= i < |lines| => Hunk(sign, lines[i]))
  }

  function HunksOf(segments: seq<Segment>): seq<Hunk> {
    if segments == [] then []
    else
      (match segments[0]
       case Kept(line) => [Hunk(Context, line)]
       case Changed(removed, added) => Signed(Removed, removed) + Signed(Added, added))
      + HunksOf(segments[1..])
  }

  /** No change is empty, and of two changes side by side the first adds and the second removes. */
  predicate Parted(segments: seq<Segment>) {
    && (forall i :: 0 <= i < |segments| && segments[i].Changed? ==>
          segments[i].removed != [] || segments[i].added != [])
    && (forall i {:trigger segments[i]} :: 0 < i < |segments| && segments[i - 1].Changed? && segments[i].Changed? ==>
          segments[i - 1].added != [] && segments[i].removed != [])
  }

  /**
   The edits, in order: removed lines give way to the added ones; lines that
   are only added go behind the kept line last seen, or there is none and it throws.
   */
  function Said(segments: seq<Segment>, above: Option<string>): Option<seq<Edit>> {
    if segments == [] then Some([])
    else
      match segments[0]
      case Kept(line) => Said(segments[1..], Some(line))
      case Changed(removed, added) =>
        var later := Said(segments[1..], above);
        if later.None? || (removed == [] && above.None?) then None
        else if removed != [] then Some([Edit(Join(removed), Join(added))] + later.value)
        else Some([Edit(above.value, above.value + "\n" + Join(added))] + later.value)
  }

  /** `join("\n")`: a line break between two runs of lines, and nowhere else. */
  lemma JoinLaws(a: seq<string>, b: seq<string>)
    ensures Join([]) == ""
    ensures |a| == 1 ==> Join(a) == a[0]
    ensures a != [] && b != [] ==> Join(a + b) == Join(a) + "\n" + Join(b)
  {
    if a != [] && b != [] {
      JoinConcat(a, b);
    }
  }

  // ----- every diff has such parts

  /** One more hunk in front. */
  function InFront(h: Hunk, segments: seq<Segment>): seq<Segment> {
    match h.sign
    case Context => [Kept(h.text)] + segments
    case Removed =>
      if segments != [] && segments[0].Changed? then
        [Changed([h.text] + segments[0].removed, segments[0].added)] + segments[1..]
      else [Changed([h.text], [])] + segments
    case Added =>
      if segments != [] && segments[0].Changed? && segments[0].removed == [] then
        [Changed([], [h.text] + segments[0].added)] + segments[1..]
      else [Changed([], [h.text])] + segments
  }

  lemma SignedCons(sign: Sign, line: string, lines: seq<string>)
    ensures Signed(sign, [line] + lines) == [Hunk(sign, line)] + Signed(sign, lines)
  {
  }

  lemma HunksCons(s: Segment, rest: seq<Segment>)
    ensures HunksOf([s] + rest) ==
            (match s
             case Kept(line) => [Hunk(Context, line)]
             case Changed(removed, added) => Signed(Removed, removed) + Signed(Added, added))
            + HunksOf(rest)
  {
    assert ([s] + rest)[1..] == rest;
  }

  lemma FrontIsFirst(h: Hunk, segments: seq<Segment>)
    ensures HunksOf(InFront(h, segments)) == [h] + HunksOf(segments)
  {
    hide HunksOf;
    var more := InFront(h, segments);
    if segments != [] {
      HunksCons(segments[0], segments[1..]);
      assert segments == [segments[0]] + segments[1..];
    }
    match h.sign {
      case Context => HunksCons(Kept(h.text), segments);
      case Removed =>
        if segments != [] && segments[0].Changed? {
          var Changed(removed, added) := segments[0];
          HunksCons(Changed([h.text] + removed, added), segments[1..]);
          SignedCons(Removed, h.text, removed);
          Regroup([h], Signed(Removed, removed), Signed(Added, added));
          Regroup([h], Signed(Removed, removed) + Signed(Added, added), HunksOf(segments[1..]));
        } else {
          HunksCons(Changed([h.text], []), segments);
          assert Signed(Removed, [h.text]) + Signed(Added, []) == [h];
        }
      case Added =>
        if segments != [] && segments[0].Changed? && segments[0].removed == [] {
          var added := segments[0].added;
          HunksCons(Changed([], [h.text] + added), segments[1..]);
          SignedCons(Added, h.text, added);
          assert Signed(Removed, []) + ([h] + Signed(Added, added)) == [h] + Signed(Added, added);
          assert Signed(Removed, []) + Signed(Added, added) == Signed(Added, added);
          Regroup([h], Signed(Added, added), HunksOf(segments[1..]));
        } else {
          HunksCons(Changed([], [h.text]), segments);
          assert Signed(Removed, []) + Signed(Added, [h.text]) == [h];
        }
    }
  }

  lemma FrontStaysParted(h: Hunk, segments: seq<Segment>)
    requires Parted(segments)
    ensures Parted(InFront(h, segments))
  {
    var more := InFront(h, segments);
    var shift := |more| - |segments|;
    assert forall i :: 1 <= i < |more| ==> more[i] == segments[i - shift];
    forall i {:trigger more[i]} | 0 < i < |more| && more[i - 1].Changed? && more[i].Changed?
      ensures more[i - 1].added != [] && more[i].removed != []
    {
      if i > 1 || shift == 0 {
        assert segments[i - shift].Changed?;
      }
    }
  }

  /** Every diff is made of parted segments. */
  lemma {:induction false} EveryDiffIsParted(hunks: seq<Hunk>) returns (segments: seq<Segment>)
    ensures Parted(segments) && HunksOf(segments) == hunks
  {
    if hunks == [] {
      segments := [];
    } else {
      segments := EveryDiffIsParted(hunks[1..]);
      FrontIsFirst(hunks[0], segments);
      FrontStaysParted(hunks[0], segments);
      segments := InFront(hunks[0], segments);
      assert hunks == [hunks[0]] + hunks[1..];
    }
  }

  // ----- the edits of a diff are those of its parts

  lemma {:induction false} GathersRemoved(lines: seq<string>, rest: seq<Hunk>, anchor: Option<string>,
                                          removed: seq<string>)
    ensures EditsFrom(Signed(Removed, lines) + rest, anchor, removed, []) ==
            EditsFrom(rest, anchor, removed + lines, [])
    decreases |lines|
  {
    var hunks := Signed(Removed, lines) + rest;
    if lines == [] {
      assert hunks == rest && removed + [] == removed;
    } else {
      assert hunks[0] == Hunk(Removed, lines[0]) && hunks[1..] == Signed(Removed, lines[1..]) + rest;
      GathersRemoved(lines[1..], rest, anchor, removed + [lines[0]]);
      assert removed + [lines[0]] + lines[1..] == removed + lines;
    }
  }

  lemma {:induction false} GathersAdded(lines: seq<string>, rest: seq<Hunk>, anchor: Option<string>,
                                        removed: seq<string>, added: seq<string>)
    ensures EditsFrom(Signed(Added, lines) + rest, anchor, removed, added) ==
            EditsFrom(rest, anchor, removed, added + lines)
    decreases |lines|
  {
    var hunks := Signed(Added, lines) + rest;
    if lines == [] {
      assert hunks == rest && added + [] == added;
    } else {
      assert hunks[0] == Hunk(Added, lines[0]) && hunks[1..] == Signed(Added, lines[1..]) + rest;
      GathersAdded(lines[1..], rest, anchor, removed, added + [lines[0]]);
      assert added + [lines[0]] + lines[1..] == added + lines;
    }
  }

  /** What follows a change flushes it: the end, a kept line, or a removed one behind an added one. */
  lemma FlushesBefore(hunks: seq<Hunk>, anchor: Option<string>, removed: seq<string>, added: seq<string>)
    requires hunks != [] && hunks[0].sign != Context ==> hunks[0].sign == Removed && added != []
    ensures EditsFrom(hunks, anchor, removed, added) ==
            Joined(Flushed(anchor, removed, added), EditsFrom(hunks, anchor, [], []))
  {
    var flushed := Flushed(anchor, removed, added);
    if flushed.Some? {
      assert flushed.value + [] == flushed.value;
    }
    if hunks != [] {
      var Hunk(sign, text) := hunks[0];
      assert [] + [text] == [text];
      var later := EditsFrom(hunks[1..], Some(text), [], []);
      if later.Some? {
        assert [] + later.value == later.value;
      }
    }
  }

  lemma PartedTail(segments: seq<Segment>)
    requires Parted(segments) && segments != []
    ensures Parted(segments[1..])
  {
    var rest := segments[1..];
    assert forall i :: 0 <= i < |rest| ==> rest[i] == segments[i + 1];
    forall i {:trigger rest[i]} | 0 < i < |rest| && rest[i - 1].Changed? && rest[i].Changed?
      ensures rest[i - 1].added != [] && rest[i].removed != []
    {
      assert segments[i + 1] == rest[i] && segments[i + 1 - 1] == rest[i - 1];
    }
  }

  lemma FirstHunk(segments: seq<Segment>)
    requires Parted(segments) && segments != []
    ensures var hunks := HunksOf(segments);
            && hunks != []
            && (segments[0].Kept? ==> hunks[0].sign == Context)
            && (segments[0].Changed? && segments[0].removed != [] ==> hunks[0].sign == Removed)
  {
    if segments[0].Changed? {
      var Changed(removed, added) := segments[0];
      var rest := HunksOf(segments[1..]);
      assert HunksOf(segments) == Signed(Removed, removed) + Signed(Added, added) + rest;
    }
  }

  lemma {:induction false} EditsAreSaidFrom(segments: seq<Segment>, anchor: Option<string>)
    requires Parted(segments)
    ensures EditsFrom(HunksOf(segments), anchor, [], []) == Said(segments, anchor)
    decreases |segments|
  {
    if segments != [] {
      var rest := segments[1..];
      PartedTail(segments);
      match segments[0] {
        case Kept(line) =>
          EditsAreSaidFrom(rest, Some(line));
          var hunks := HunksOf(segments);
          assert hunks == [Hunk(Context, line)] + HunksOf(rest) && hunks[1..] == HunksOf(rest);
          var later := Said(rest, Some(line));
          assert later.Some? ==> [] + later.value == later.value;
        case Changed(removed, added) =>
          EditsAreSaidFrom(rest, anchor);
          ChangeIsSaid(removed, added, HunksOf(rest), anchor);
          if rest != [] {
            assert segments[1] == rest[0] && segments[1 - 1] == segments[0];
            FirstHunk(rest);
          }
          hide HunksOf;
          FlushesBefore(HunksOf(rest), anchor, removed, added);
          assert segments[0].removed != [] || segments[0].added != [];
          hide EditsFrom;
          assert HunksOf(segments) == Signed(Removed, removed) + Signed(Added, added) + HunksOf(rest) by {
            HunksCons(segments[0], rest);
            assert segments == [segments[0]] + rest;
          }
      }
    }
  }

  lemma ChangeIsSaid(removed: seq<string>, added: seq<string>, rest: seq<Hunk>, anchor: Option<string>)
    ensures EditsFrom(Signed(Removed, removed) + Signed(Added, added) + rest, anchor, [], []) ==
            EditsFrom(rest, anchor, removed, added)
  {
    hide EditsFrom;
    Regroup(Signed(Removed, removed), Signed(Added, added), rest);
    GathersRemoved(removed, Signed(Added, added) + rest, anchor, []);
    GathersAdded(added, rest, anchor, removed, []);
    assert [] + removed == removed && [] + added == added;
  }

  /** So `hunkEdits` gives the edits said of the parts of its diff, or throws where they are none. */
  lemma EditsAreSaid(segments: seq<Segment>)
    requires Parted(segments)
    ensures EditsOf(HunksOf(segments)) == Said(segments, None)
  {
    EditsAreSaidFrom(segments, None);
  }
}
