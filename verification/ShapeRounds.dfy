/** One round of `expand` on any text, balanced or not, by the balance of its parentheses. */
module ShapeRounds {
  import opened ShapeExpander

  /** How many more parentheses are opened than closed. */
  function Balance(t: string): int {
    if t == "" then 0
    else
      var c := t[|t| - 1];
      Balance(t[..|t| - 1]) + if c == '(' then 1 else if c == ')' then -1 else 0
  }

  lemma BalanceNext(s: string, from: nat, i: nat)
    requires from <= i < |s|
    ensures Balance(s[from..i + 1]) == Balance(s[from..i]) + if s[i] == '(' then 1 else if s[i] == ')' then -1 else 0
  {
    assert s[from..i + 1][..i - from] == s[from..i];
  }

  /** The group that opens at `open` is closed at `close`, or never, which is the end of the text. */
  predicate ClosedAt(s: string, open: nat, close: nat) {
    && open < close <= |s|
    && (close < |s| ==> s[close] == ')' && Balance(s[open..close + 1]) == 0)
    && forall j :: open <= j < close ==> !(s[j] == ')' && Balance(s[open..j + 1]) == 0)
  }

  lemma {:induction false} CloseIsBalanced(s: string, open: nat, i: nat)
    requires open <= i <= |s|
    ensures var close := CloseFrom(s, i, Balance(s[open..i]));
            && i <= close <= |s|
            && (close < |s| ==> s[close] == ')' && Balance(s[open..close + 1]) == 0)
            && forall j :: i <= j < close ==> !(s[j] == ')' && Balance(s[open..j + 1]) == 0)
    decreases |s| - i
  {
    if i < |s| {
      BalanceNext(s, open, i);
      if !(s[i] == ')' && Balance(s[open..i]) == 1) {
        CloseIsBalanced(s, open, i + 1);
      }
    }
  }

  /** A bar outside all parentheses. */
  predicate OuterBar(s: string, k: nat) {
    k < |s| && s[k] == '|' && Balance(s[..k]) == 0
  }

  /** The pieces of s from `start` on are cut at its outer bars, at all of them and nowhere else. */
  predicate CutFrom(s: string, start: nat, pieces: seq<string>)
    decreases |pieces|
  {
    && pieces != []
    && var end := start + |pieces[0]|;
       && end <= |s| && pieces[0] == s[start..end]
       && (forall k :: start <= k < end ==> !OuterBar(s, k))
       && if |pieces| == 1 then end == |s| else OuterBar(s, end) && CutFrom(s, end + 1, pieces[1..])
  }

  lemma {:induction false} PiecesAreCut(s: string, i: nat, start: nat)
    requires start <= i <= |s| && forall k :: start <= k < i ==> !OuterBar(s, k)
    ensures CutFrom(s, start, SplitFrom(s, i, start, Balance(s[..i])))
    decreases |s| - i
  {
    var level := Balance(s[..i]);
    if i == |s| {
      assert s[start..] == s[start..|s|];
    } else {
      BalanceNext(s, 0, i);
      assert s[0..i + 1] == s[..i + 1] && s[0..i] == s[..i];
      if s[i] == '|' && level == 0 {
        PiecesAreCut(s, i + 1, i + 1);
        var rest := SplitFrom(s, i + 1, i + 1, 0);
        assert SplitFrom(s, i, start, level) == [s[start..i]] + rest;
        assert ([s[start..i]] + rest)[1..] == rest;
      } else {
        PiecesAreCut(s, i + 1, start);
      }
    }
  }

  function Flat(lists: seq<seq<string>>): seq<string> {
    if lists == [] then [] else Flat(lists[..|lists| - 1]) + lists[|lists| - 1]
  }

  lemma {:induction false} FlatCons(first: seq<string>, lists: seq<seq<string>>)
    ensures Flat([first] + lists) == first + Flat(lists)
    decreases |lists|
  {
    var all := [first] + lists;
    if lists == [] {
      assert all[..0] == [] && [] + first == first && first + [] == first;
    } else {
      var n := |lists| - 1;
      FlatCons(first, lists[..n]);
      assert all[..|all| - 1] == [first] + lists[..n];
      assert first + Flat(lists[..n]) + lists[n] == first + (Flat(lists[..n]) + lists[n]);
    }
  }

  function Expansions(before: string, alternatives: seq<string>, rest: string): (r: seq<seq<string>>)
    ensures |r| == |alternatives|
    ensures forall k :: 0 <= k < |alternatives| ==> r[k] == Expansion(before + alternatives[k] + rest)
  {
    seq(|alternatives|, k requires 0 <= k < |alternatives| => Expansion(before + alternatives[k] + rest))
  }

  lemma {:induction false} EachIsFlat(before: string, alternatives: seq<string>, rest: string, bound: nat)
    requires AllBelow(before, alternatives, rest, bound)
    ensures EachExpansion(before, alternatives, rest, bound) == Flat(Expansions(before, alternatives, rest))
    decreases |alternatives|
  {
    if alternatives != [] {
      EachIsFlat(before, alternatives[1..], rest, bound);
      hide Expansion, Flat;
      var lists := Expansions(before, alternatives, rest);
      assert lists == [lists[0]] + Expansions(before, alternatives[1..], rest);
      FlatCons(lists[0], Expansions(before, alternatives[1..], rest));
    }
  }

  /** A text without an opening parenthesis is its own shape. */
  lemma NoGroup(s: string)
    requires '(' !in s
    ensures Expansion(s) == [s]
  {
  }

  lemma GroupOpens(s: string)
    requires '(' in s
    ensures OpenFrom(s, 0) < |s| && s[OpenFrom(s, 0)] == '(' && '(' !in s[..OpenFrom(s, 0)]
  {
    var i :| 0 <= i < |s| && s[i] == '(';
  }

  lemma CloseFollows(s: string, open: nat)
    requires open <= |s|
    ensures var close := CloseFrom(s, open, 0);
            && open <= close <= |s|
            && (close < |s| ==> s[close] == ')' && Balance(s[open..close + 1]) == 0)
            && forall j :: open <= j < close ==> !(s[j] == ')' && Balance(s[open..j + 1]) == 0)
  {
    CloseIsBalanced(s, open, open);
    assert s[open..open] == "" && Balance("") == 0;
  }

  lemma FirstGroupCloses(s: string)
    requires OpenFrom(s, 0) < |s|
    ensures var g := FirstGroup(s);
            && g.open == OpenFrom(s, 0) && ClosedAt(s, g.open, g.close)
            && g.optional == (g.close + 1 < |s| && s[g.close + 1] == '?')
  {
    hide Balance, CloseFrom, OpenFrom, Parens;
    CloseFollows(s, OpenFrom(s, 0));
  }

  lemma InnerIsCut(inner: string)
    ensures CutFrom(inner, 0, SplitFrom(inner, 0, 0, 0))
  {
    assert inner[..0] == "" && Balance("") == 0;
    PiecesAreCut(inner, 0, 0);
  }

  lemma GroupExpands(s: string)
    requires OpenFrom(s, 0) < |s|
    ensures var g := FirstGroup(s); Expansion(s) == Flat(Expansions(s[..g.open], Alternatives(s, g), Rest(s, g)))
  {
    hide Flat, Expansions, Alternatives, Rest;
    var g := FirstGroup(s);
    AllFewerParens(s, g);
    EachIsFlat(s[..g.open], Alternatives(s, g), Rest(s, g), Parens(s));
  }

  /**
   Of any other text the first group is cut at its outer bars, with nothing as
   one more choice where `?` follows, and each choice between what is before
   and behind the group is expanded in its turn.
   */
  lemma OneRound(s: string) returns (open: nat, close: nat, pieces: seq<string>)
    requires '(' in s
    ensures open < |s| && s[open] == '(' && '(' !in s[..open] && ClosedAt(s, open, close)
    ensures CutFrom(s[open + 1..close], 0, pieces)
    ensures var optional := close + 1 < |s| && s[close + 1] == '?';
            var choices := if optional then pieces + [""] else pieces;
            var rest := if optional then s[close + 2..] else if close < |s| then s[close + 1..] else "";
            Expansion(s) == Flat(Expansions(s[..open], choices, rest))
  {
    hide Balance, CutFrom, Flat, Expansions, Expansion, SplitFrom, CloseFrom, OpenFrom, FirstGroup;
    GroupOpens(s);
    FirstGroupCloses(s);
    var g := FirstGroup(s);
    open, close := g.open, g.close;
    pieces := SplitFrom(Inner(s, g), 0, 0, 0);
    InnerIsCut(Inner(s, g));
    GroupExpands(s);
  }
}
