/** `expand` in the contract drift check: a route regex as the list of its parenthesis-free shapes. */
module ShapeExpander {
  import opened Wrappers

  function Parens(s: string): nat {
    if s == "" then 0 else (if s[0] == '(' then 1 else 0) + Parens(s[1..])
  }

  lemma {:induction false} ParensConcat(a: string, b: string)
    ensures Parens(a + b) == Parens(a) + Parens(b)
  {
    if a == "" {
      assert a + b == b;
    } else {
      ParensConcat(a[1..], b);
      assert (a + b)[1..] == a[1..] + b;
    }
  }

  lemma ParensSlice(s: string, i: nat, j: nat)
    requires i <= j <= |s|
    ensures Parens(s[i..j]) <= Parens(s)
  {
    assert s == s[..i] + (s[i..j] + s[j..]);
    ParensConcat(s[..i], s[i..j] + s[j..]);
    ParensConcat(s[i..j], s[j..]);
  }

  /** `indexOf("(")` from i on, |s| standing for -1. */
  function OpenFrom(s: string, i: nat): (open: nat)
    requires i <= |s|
    ensures i <= open <= |s|
    ensures open < |s| ==> s[open] == '('
    ensures forall k :: i <= k < open ==> s[k] != '('
    decreases |s| - i
  {
    if i == |s| || s[i] == '(' then i else OpenFrom(s, i + 1)
  }

  /** Where the scan for the matching parenthesis stops; |s| when there is none. */
  function CloseFrom(s: string, i: nat, depth: int): (close: nat)
    requires i <= |s|
    ensures i <= close <= |s|
    decreases |s| - i
  {
    if i == |s| then i
    else if s[i] == '(' then CloseFrom(s, i + 1, depth + 1)
    else if s[i] == ')' && depth == 1 then i
    else CloseFrom(s, i + 1, if s[i] == ')' then depth - 1 else depth)
  }

  /** The pieces of s[start..] cut at each `|` outside parentheses from i on. */
  function SplitFrom(s: string, i: nat, start: nat, level: int): (pieces: seq<string>)
    requires start <= i <= |s|
    decreases |s| - i
  {
    if i == |s| then [s[start..]]
    else if s[i] == '(' then SplitFrom(s, i + 1, start, level + 1)
    else if s[i] == ')' then SplitFrom(s, i + 1, start, level - 1)
    else if s[i] == '|' && level == 0 then [s[start..i]] + SplitFrom(s, i + 1, i + 1, level)
    else SplitFrom(s, i + 1, start, level)
  }

  /** The first group: its parentheses, close being |s| when it is never closed, and whether `?` follows. */
  datatype Found = Found(open: nat, close: nat, optional: bool)

  predicate Within(s: string, g: Found) {
    && g.open < g.close <= |s| && s[g.open] == '('
    && Parens(s[..g.open]) == 0
    && (g.optional ==> g.close + 1 < |s|)
  }

  lemma {:induction false} NoneBefore(s: string, open: nat)
    requires open <= |s| && forall k :: 0 <= k < open ==> s[k] != '('
    ensures Parens(s[..open]) == 0
  {
    if open > 0 {
      assert s[..open][1..] == s[1..][..open - 1];
      NoneBefore(s[1..], open - 1);
    }
  }

  function FirstGroup(s: string): (g: Found)
    requires OpenFrom(s, 0) < |s|
    ensures Within(s, g)
  {
    var open := OpenFrom(s, 0);
    NoneBefore(s, open);
    var close := CloseFrom(s, open, 0);
    assert close == CloseFrom(s, open + 1, 1);
    Found(open, close, close + 1 < |s| && s[close + 1] == '?')
  }

  function Inner(s: string, g: Found): string
    requires Within(s, g)
  {
    s[g.open + 1..g.close]
  }

  function Alternatives(s: string, g: Found): seq<string>
    requires Within(s, g)
  {
    var pieces := SplitFrom(Inner(s, g), 0, 0, 0);
    if g.optional then pieces + [""] else pieces
  }

  function Rest(s: string, g: Found): string
    requires Within(s, g)
  {
    if g.optional then s[g.close + 2..] else if g.close < |s| then s[g.close + 1..] else ""
  }

  lemma {:induction false} PiecesAreSlices(s: string, i: nat, start: nat, level: int)
    requires start <= i <= |s|
    ensures forall k :: 0 <= k < |SplitFrom(s, i, start, level)| ==>
        Parens(SplitFrom(s, i, start, level)[k]) <= Parens(s)
    decreases |s| - i
  {
    if i == |s| {
      assert s[start..] == s[start..|s|];
      ParensSlice(s, start, |s|);
    } else if s[i] == '(' {
      PiecesAreSlices(s, i + 1, start, level + 1);
    } else if s[i] == ')' {
      PiecesAreSlices(s, i + 1, start, level - 1);
    } else if s[i] == '|' && level == 0 {
      ParensSlice(s, start, i);
      PiecesAreSlices(s, i + 1, i + 1, level);
    } else {
      PiecesAreSlices(s, i + 1, start, level);
    }
  }

  /** What `expand` puts together holds fewer `(` than it started from. */
  lemma GroupSplits(s: string, g: Found)
    requires Within(s, g)
    ensures Parens(s) >= 1 + Parens(Inner(s, g)) + Parens(Rest(s, g))
  {
    var tail := s[g.close..];
    ParensSlice(tail, if g.optional then 2 else if g.close < |s| then 1 else 0, |tail|);
    assert Parens(Rest(s, g)) <= Parens(tail);
    assert s[g.open..g.close] == "(" + Inner(s, g);
    ParensConcat("(", Inner(s, g));
    assert s == s[..g.open] + (s[g.open..g.close] + tail);
    ParensConcat(s[..g.open], s[g.open..g.close] + tail);
    ParensConcat(s[g.open..g.close], tail);
  }

  lemma FewerParens(s: string, g: Found, k: nat)
    requires Within(s, g) && k < |Alternatives(s, g)|
    ensures Parens(s[..g.open] + Alternatives(s, g)[k] + Rest(s, g)) < Parens(s)
  {
    var before, alt, rest := s[..g.open], Alternatives(s, g)[k], Rest(s, g);
    assert Parens(alt) <= Parens(Inner(s, g)) by {
      PiecesAreSlices(Inner(s, g), 0, 0, 0);
    }
    GroupSplits(s, g);
    ParensConcat(before + alt, rest);
    ParensConcat(before, alt);
  }

  /** Every string the recursion meets has fewer `(`, so it ends on every input, balanced or not. */
  lemma AllFewerParens(s: string, g: Found)
    requires Within(s, g)
    ensures AllBelow(s[..g.open], Alternatives(s, g), Rest(s, g), Parens(s))
  {
    forall k | 0 <= k < |Alternatives(s, g)|
      ensures Parens(s[..g.open] + Alternatives(s, g)[k] + Rest(s, g)) < Parens(s)
    {
      FewerParens(s, g, k);
    }
  }

  predicate AllBelow(before: string, alternatives: seq<string>, rest: string, bound: nat) {
    forall k :: 0 <= k < |alternatives| ==> Parens(before + alternatives[k] + rest) < bound
  }

  /** `expand` */
  function Expansion(s: string): (shapes: seq<string>)
    decreases Parens(s), 1, 0
  {
    if OpenFrom(s, 0) == |s| then [s]
    else
      var g := FirstGroup(s);
      AllFewerParens(s, g);
      EachExpansion(s[..g.open], Alternatives(s, g), Rest(s, g), Parens(s))
  }

  /** The `flatMap` over the alternatives. */
  function EachExpansion(before: string, alternatives: seq<string>, rest: string, ghost bound: nat): seq<string>
    requires AllBelow(before, alternatives, rest, bound)
    decreases bound, 0, |alternatives|
  {
    if alternatives == [] then []
    else Expansion(before + alternatives[0] + rest) + EachExpansion(before, alternatives[1..], rest, bound)
  }

  method FindClose(s: string, open: nat) returns (close: nat)
    requires open <= |s|
    ensures close == CloseFrom(s, open, 0)
  {
    var depth := 0;
    close := open;
    while close < |s|
      invariant open <= close <= |s|
      invariant CloseFrom(s, close, depth) == CloseFrom(s, open, 0)
    {
      if s[close] == '(' {
        depth := depth + 1;
      }
      if s[close] == ')' {
        depth := depth - 1;
        if depth == 0 {
          break;
        }
      }
      close := close + 1;
    }
  }

  method SplitAlternatives(inner: string) returns (alternatives: seq<string>)
    ensures alternatives == SplitFrom(inner, 0, 0, 0)
  {
    alternatives := [];
    var level, start := 0, 0;
    for i := 0 to |inner|
      invariant start <= i
      invariant alternatives + SplitFrom(inner, i, start, level) == SplitFrom(inner, 0, 0, 0)
    {
      if inner[i] == '(' {
        level := level + 1;
      }
      if inner[i] == ')' {
        level := level - 1;
      }
      if inner[i] == '|' && level == 0 {
        alternatives := alternatives + [inner[start..i]];
        start := i + 1;
      }
    }
    alternatives := alternatives + [inner[start..]];
  }

  method Expand(pattern: string) returns (shapes: seq<string>)
    ensures shapes == Expansion(pattern)
    decreases Parens(pattern), 1, 0
  {
    var open := OpenFrom(pattern, 0);
    if open == |pattern| {
      return [pattern];
    }
    var close := FindClose(pattern, open);
    var g := Found(open, close, close + 1 < |pattern| && pattern[close + 1] == '?');
    assert g == FirstGroup(pattern);
    var alternatives := SplitAlternatives(Inner(pattern, g));
    if g.optional {
      alternatives := alternatives + [""];
    }
    assert alternatives == Alternatives(pattern, g);
    AllFewerParens(pattern, g);
    shapes := ExpandEach(pattern[..open], alternatives, Rest(pattern, g), Parens(pattern));
  }

  method ExpandEach(before: string, alternatives: seq<string>, rest: string, ghost bound: nat)
        returns (shapes: seq<string>)
    requires AllBelow(before, alternatives, rest, bound)
    ensures shapes == EachExpansion(before, alternatives, rest, bound)
    decreases bound, 0, |alternatives|
  {
    shapes := [];
    for k := 0 to |alternatives|
      invariant AllBelow(before, alternatives[k..], rest, bound)
      invariant shapes + EachExpansion(before, alternatives[k..], rest, bound)
          == EachExpansion(before, alternatives, rest, bound)
    {
      assert alternatives[k..][0] == alternatives[k] && alternatives[k..][1..] == alternatives[k + 1..];
      assert Parens(before + alternatives[k..][0] + rest) < bound;
      var more := Expand(before + alternatives[k] + rest);
      shapes := shapes + more;
    }
  }
}
