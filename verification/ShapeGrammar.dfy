/** What a well-nested route pattern means, and that `expand` returns exactly that. */
module ShapeGrammar {
  import opened ShapeExpander
  import opened Text
  import opened Sequences

  /** Literals, groups of alternatives, optional groups. */
  datatype Pattern = Empty | Then(first: Item, rest: Pattern)
  datatype Item = Lit(c: char) | Group(alts: Alts, optional: bool)
  datatype Alts = Last(p: Pattern) | Or(p: Pattern, more: Alts)

  function Render(p: Pattern): string {
    match p
    case Empty => ""
    case Then(first, rest) => RenderItem(first) + Render(rest)
  }

  function RenderItem(item: Item): string {
    match item
    case Lit(c) => [c]
    case Group(alts, optional) => "(" + RenderAlts(alts) + if optional then ")?" else ")"
  }

  function RenderAlts(alts: Alts): string {
    match alts
    case Last(p) => Render(p)
    case Or(p, more) => Render(p) + "|" + RenderAlts(more)
  }

  /** x before every string of b. */
  function Prefixed(x: string, b: seq<string>): seq<string> {
    if b == [] then [] else [x + b[0]] + Prefixed(x, b[1..])
  }

  /** Every string of a followed by every string of b. */
  function Product(a: seq<string>, b: seq<string>): seq<string> {
    if a == [] then [] else Prefixed(a[0], b) + Product(a[1..], b)
  }

  /** The strings a pattern stands for, in order. */
  function Denote(p: Pattern): seq<string> {
    match p
    case Empty => [""]
    case Then(first, rest) => Product(DenoteItem(first), Denote(rest))
  }

  function DenoteItem(item: Item): seq<string> {
    match item
    case Lit(c) => [[c]]
    case Group(alts, optional) => if optional then DenoteAlts(alts) + [""] else DenoteAlts(alts)
  }

  function DenoteAlts(alts: Alts): seq<string> {
    match alts
    case Last(p) => Denote(p)
    case Or(p, more) => Denote(p) + DenoteAlts(more)
  }

  /**
   A literal is no parenthesis, no `|` inside a group, and no `?` right after
   a group, where it would make the group optional.
   */
  predicate WellFormed(p: Pattern, inside: bool) {
    match p
    case Empty => true
    case Then(first, rest) =>
      WellFormedItem(first, inside) && WellFormed(rest, inside) && (first.Group? ==> !StartsWithMark(rest))
  }

  predicate WellFormedItem(item: Item, inside: bool) {
    match item
    case Lit(c) => c != '(' && c != ')' && (inside ==> c != '|')
    case Group(alts, _) => WellFormedAlts(alts)
  }

  predicate WellFormedAlts(alts: Alts) {
    match alts
    case Last(p) => WellFormed(p, true)
    case Or(p, more) => WellFormed(p, true) && WellFormedAlts(more)
  }

  predicate StartsWithMark(p: Pattern) {
    p.Then? && p.first == Lit('?')
  }

  // ----- lists of strings

  lemma PrefixedHead(x: string, h: string, b: seq<string>)
    ensures Prefixed(x, [h] + b) == [x + h] + Prefixed(x, b)
  {
    assert ([h] + b)[1..] == b;
  }

  lemma ProductHead(h: string, a: seq<string>, c: seq<string>)
    ensures Product([h] + a, c) == Prefixed(h, c) + Product(a, c)
  {
    assert ([h] + a)[1..] == a;
  }

  lemma {:induction false} PrefixedConcat(x: string, a: seq<string>, b: seq<string>)
    ensures Prefixed(x, a + b) == Prefixed(x, a) + Prefixed(x, b)
  {
    if a == [] {
      assert a + b == b;
    } else {
      hide Prefixed;
      PrefixedConcat(x, a[1..], b);
      PrefixedHead(x, a[0], a[1..]);
      PrefixedHead(x, a[0], a[1..] + b);
      Uncons(a, b);
      Regroup([x + a[0]], Prefixed(x, a[1..]), Prefixed(x, b));
    }
  }

  lemma {:induction false} PrefixedTwice(x: string, y: string, b: seq<string>)
    ensures Prefixed(x, Prefixed(y, b)) == Prefixed(x + y, b)
  {
    if b != [] {
      PrefixedTwice(x, y, b[1..]);
      assert Prefixed(y, b)[1..] == Prefixed(y, b[1..]);
      assert x + (y + b[0]) == (x + y) + b[0];
    }
  }

  lemma {:induction false} ProductConcat(a: seq<string>, b: seq<string>, c: seq<string>)
    ensures Product(a + b, c) == Product(a, c) + Product(b, c)
  {
    if a == [] {
      assert a + b == b;
    } else {
      hide Prefixed, Product;
      ProductConcat(a[1..], b, c);
      ProductHead(a[0], a[1..], c);
      ProductHead(a[0], a[1..] + b, c);
      Uncons(a, b);
      Regroup(Prefixed(a[0], c), Product(a[1..], c), Product(b, c));
    }
  }

  lemma {:induction false} PrefixedProduct(x: string, b: seq<string>, c: seq<string>)
    ensures Product(Prefixed(x, b), c) == Prefixed(x, Product(b, c))
  {
    if b != [] {
      PrefixedProduct(x, b[1..], c);
      PrefixedConcat(x, Prefixed(b[0], c), Product(b[1..], c));
      PrefixedTwice(x, b[0], c);
      assert Prefixed(x, b)[1..] == Prefixed(x, b[1..]);
    }
  }

  lemma {:induction false} ProductAssociates(a: seq<string>, b: seq<string>, c: seq<string>)
    ensures Product(Product(a, b), c) == Product(a, Product(b, c))
  {
    if a != [] {
      ProductAssociates(a[1..], b, c);
      ProductConcat(Prefixed(a[0], b), Product(a[1..], b), c);
      PrefixedProduct(a[0], b, c);
    }
  }

  lemma {:induction false} PrefixedByNothing(b: seq<string>)
    ensures Prefixed("", b) == b
  {
    if b != [] {
      PrefixedByNothing(b[1..]);
      assert "" + b[0] == b[0];
    }
  }

  lemma ProductOne(x: string, b: seq<string>)
    ensures Product([x], b) == Prefixed(x, b)
  {
    assert Product([x], b) == Prefixed(x, b) + Product([], b);
  }

  // ----- the scans

  lemma AtGroup(s: string, i: nat, alts: Alts, optional: bool)
    requires At(s, i, RenderItem(Group(alts, optional)))
    ensures At(s, i + 1, RenderAlts(alts))
    ensures var j := i + 1 + |RenderAlts(alts)|;
            && j < |s| && s[i] == '(' && s[j] == ')'
            && (optional ==> j + 1 < |s| && s[j + 1] == '?')
            && |RenderItem(Group(alts, optional))| == |RenderAlts(alts)| + if optional then 3 else 2
  {
    var x := RenderAlts(alts);
    var tail := if optional then ")?" else ")";
    assert RenderItem(Group(alts, optional)) == "(" + (x + tail);
    hide RenderAlts, RenderItem;
    AtSplit(s, i, "(", x + tail);
    AtSplit(s, i + 1, x, tail);
    assert "("[0] == '(' && tail[0] == ')' && (optional ==> tail[1] == '?');
  }

  lemma AtOr(s: string, i: nat, p: Pattern, more: Alts)
    requires At(s, i, RenderAlts(Or(p, more)))
    ensures At(s, i, Render(p))
    ensures var j := i + |Render(p)|; j < |s| && s[j] == '|' && At(s, j + 1, RenderAlts(more))
  {
    assert RenderAlts(Or(p, more)) == Render(p) + ("|" + RenderAlts(more));
    AtSplit(s, i, Render(p), "|" + RenderAlts(more));
    AtSplit(s, i + |Render(p)|, "|", RenderAlts(more));
    assert "|"[0] == '|';
  }

  /** Inside parentheses the search for the closing one passes over a whole pattern. */
  lemma {:induction false} CloseSkips(s: string, i: nat, p: Pattern, inside: bool, depth: int)
    requires WellFormed(p, inside) && At(s, i, Render(p)) && depth >= 1
    ensures CloseFrom(s, i, depth) == CloseFrom(s, i + |Render(p)|, depth)
    decreases p
  {
    if p.Then? {
      AtSplit(s, i, RenderItem(p.first), Render(p.rest));
      CloseSkipsItem(s, i, p.first, inside, depth);
      CloseSkips(s, i + |RenderItem(p.first)|, p.rest, inside, depth);
    }
  }

  lemma {:induction false} CloseSkipsItem(s: string, i: nat, item: Item, inside: bool, depth: int)
    requires WellFormedItem(item, inside) && At(s, i, RenderItem(item)) && depth >= 1
    ensures CloseFrom(s, i, depth) == CloseFrom(s, i + |RenderItem(item)|, depth)
    decreases item
  {
    match item
    case Lit(c) =>
      assert RenderItem(item)[0] == c;
    case Group(alts, optional) =>
      AtGroup(s, i, alts, optional);
      CloseSkipsAlts(s, i + 1, alts, depth + 1);
  }

  lemma {:induction false} CloseSkipsAlts(s: string, i: nat, alts: Alts, depth: int)
    requires WellFormedAlts(alts) && At(s, i, RenderAlts(alts)) && depth >= 1
    ensures CloseFrom(s, i, depth) == CloseFrom(s, i + |RenderAlts(alts)|, depth)
    decreases alts
  {
    if alts.Or? {
      AtOr(s, i, alts.p, alts.more);
      CloseSkips(s, i, alts.p, true, depth);
      CloseSkipsAlts(s, i + |Render(alts.p)| + 1, alts.more, depth);
    } else {
      CloseSkips(s, i, alts.p, true, depth);
    }
  }

  /** The search for `|` passes over a whole pattern that stands inside a group. */
  lemma {:induction false} SplitSkips(s: string, i: nat, start: nat, p: Pattern, level: int)
    requires WellFormed(p, true) && At(s, i, Render(p)) && level >= 0 && start <= i
    ensures SplitFrom(s, i, start, level) == SplitFrom(s, i + |Render(p)|, start, level)
    decreases p
  {
    if p.Then? {
      AtSplit(s, i, RenderItem(p.first), Render(p.rest));
      SplitSkipsItem(s, i, start, p.first, level);
      SplitSkips(s, i + |RenderItem(p.first)|, start, p.rest, level);
    }
  }

  lemma {:induction false} SplitSkipsItem(s: string, i: nat, start: nat, item: Item, level: int)
    requires WellFormedItem(item, true) && At(s, i, RenderItem(item)) && level >= 0 && start <= i
    ensures SplitFrom(s, i, start, level) == SplitFrom(s, i + |RenderItem(item)|, start, level)
    decreases item
  {
    match item
    case Lit(c) =>
      assert RenderItem(item)[0] == c;
    case Group(alts, optional) =>
      AtGroup(s, i, alts, optional);
      SplitSkipsAlts(s, i + 1, start, alts, level + 1);
  }

  lemma {:induction false} SplitSkipsAlts(s: string, i: nat, start: nat, alts: Alts, level: int)
    requires WellFormedAlts(alts) && At(s, i, RenderAlts(alts)) && level >= 1 && start <= i
    ensures SplitFrom(s, i, start, level) == SplitFrom(s, i + |RenderAlts(alts)|, start, level)
    decreases alts
  {
    if alts.Or? {
      AtOr(s, i, alts.p, alts.more);
      SplitSkips(s, i, start, alts.p, level);
      SplitSkipsAlts(s, i + |Render(alts.p)| + 1, start, alts.more, level);
    } else {
      SplitSkips(s, i, start, alts.p, level);
    }
  }

  function Rendered(alts: Alts): seq<string> {
    match alts
    case Last(p) => [Render(p)]
    case Or(p, more) => [Render(p)] + Rendered(more)
  }

  /** At level 0 the pieces are the alternatives as they were written. */
  lemma {:induction false} SplitFindsAlts(s: string, i: nat, alts: Alts)
    requires WellFormedAlts(alts) && At(s, i, RenderAlts(alts)) && i + |RenderAlts(alts)| == |s|
    ensures SplitFrom(s, i, i, 0) == Rendered(alts)
    decreases alts
  {
    if alts.Or? {
      AtOr(s, i, alts.p, alts.more);
      SplitSkips(s, i, i, alts.p, 0);
      Slice(s, i, Render(alts.p));
      SplitFindsAlts(s, i + |Render(alts.p)| + 1, alts.more);
    } else {
      SplitSkips(s, i, i, alts.p, 0);
      Slice(s, i, Render(alts.p));
    }
  }

  // ----- one round of `expand`

  function Append(p: Pattern, q: Pattern): Pattern {
    match p
    case Empty => q
    case Then(first, rest) => Then(first, Append(rest, q))
  }

  lemma {:induction false} DenoteAppend(p: Pattern, q: Pattern)
    ensures Denote(Append(p, q)) == Product(Denote(p), Denote(q))
  {
    match p
    case Empty =>
      ProductOne("", Denote(q));
      PrefixedByNothing(Denote(q));
    case Then(first, rest) =>
      DenoteAppend(rest, q);
      ProductAssociates(DenoteItem(first), Denote(rest), Denote(q));
  }

  lemma {:induction false} RenderAppend(p: Pattern, q: Pattern)
    ensures Render(Append(p, q)) == Render(p) + Render(q)
  {
    match p
    case Empty =>
    case Then(first, rest) =>
      RenderAppend(rest, q);
      Regroup(RenderItem(first), Render(rest), Render(q));
  }

  /** Two well-formed patterns make one, as long as no `?` comes to stand after a group. */
  lemma {:induction false} WellFormedAppend(p: Pattern, q: Pattern)
    requires WellFormed(p, true) && WellFormed(q, false) && !StartsWithMark(q)
    ensures WellFormed(Append(p, q), false)
  {
    if p.Then? {
      WellFormedAppend(p.rest, q);
    }
  }

  predicate Literal(p: Pattern) {
    p.Empty? || (p.first.Lit? && Literal(p.rest))
  }

  lemma {:induction false} LiteralAppend(p: Pattern, q: Pattern)
    requires Literal(p) && WellFormed(p, false) && WellFormed(q, false)
    ensures WellFormed(Append(p, q), false)
  {
    if p.Then? {
      LiteralAppend(p.rest, q);
    }
  }

  lemma {:induction false} LiteralDenotes(p: Pattern)
    requires Literal(p) && WellFormed(p, false)
    ensures Denote(p) == [Render(p)]
    ensures forall k :: 0 <= k < |Render(p)| ==> Render(p)[k] != '('
  {
    if p.Then? {
      LiteralDenotes(p.rest);
      ProductOne([p.first.c], Denote(p.rest));
      assert Prefixed([p.first.c], [Render(p.rest)]) == [[p.first.c] + Render(p.rest)];
    }
  }

  /** A pattern that is not all literals: its literal front, its first group, the rest. */
  lemma {:induction false} FirstGroupOf(p: Pattern) returns (front: Pattern, alts: Alts, optional: bool, rest: Pattern)
    requires WellFormed(p, false) && !Literal(p)
    ensures p == Append(front, Then(Group(alts, optional), rest))
    ensures Literal(front) && WellFormed(front, false) && WellFormed(Then(Group(alts, optional), rest), false)
  {
    if p.first.Group? {
      front, alts, optional, rest := Empty, p.first.alts, p.first.optional, p.rest;
    } else {
      front, alts, optional, rest := FirstGroupOf(p.rest);
      front := Then(p.first, front);
    }
  }

  /** The patterns a group chooses from, the empty one last when it is optional. */
  function Choices(alts: Alts, optional: bool): seq<Pattern> {
    match alts
    case Last(p) => if optional then [p, Empty] else [p]
    case Or(p, more) => [p] + Choices(more, optional)
  }

  function RenderAll(choices: seq<Pattern>): seq<string> {
    if choices == [] then [] else [Render(choices[0])] + RenderAll(choices[1..])
  }

  function DenoteAll(choices: seq<Pattern>): seq<string> {
    if choices == [] then [] else Denote(choices[0]) + DenoteAll(choices[1..])
  }

  lemma Choose(p: Pattern, choices: seq<Pattern>)
    ensures DenoteAll([p] + choices) == Denote(p) + DenoteAll(choices)
    ensures RenderAll([p] + choices) == [Render(p)] + RenderAll(choices)
  {
    assert ([p] + choices)[1..] == choices;
  }

  lemma NoChoices()
    ensures DenoteAll([]) == [] && RenderAll([]) == [] && Denote(Empty) == [""] && Render(Empty) == ""
  {
  }

  lemma {:induction false} ChoicesOfGroup(alts: Alts, optional: bool)
    requires WellFormedAlts(alts)
    ensures DenoteAll(Choices(alts, optional)) == DenoteItem(Group(alts, optional))
    ensures RenderAll(Choices(alts, optional)) == if optional then Rendered(alts) + [""] else Rendered(alts)
    ensures forall k :: 0 <= k < |Choices(alts, optional)| ==> WellFormed(Choices(alts, optional)[k], true)
  {
    NoChoices();
    hide DenoteAll, RenderAll, Denote, Render;
    match alts
    case Last(p) =>
      if optional {
        Choose(p, [Empty]);
        Choose(Empty, []);
        assert [p] + [Empty] == [p, Empty] && [Empty] + [] == [Empty];
        assert [""] + [] == [""];
      } else {
        Choose(p, []);
        assert [p] + [] == [p] && Denote(p) + [] == Denote(p);
      }
    case Or(p, more) =>
      ChoicesOfGroup(more, optional);
      Choose(p, Choices(more, optional));
      if optional {
        Regroup(Denote(p), DenoteAlts(more), [""]);
      }
  }

  /** s is the literal text a, then the group, then the text of the rest. */
  predicate Around(s: string, a: string, alts: Alts, optional: bool, rest: Pattern) {
    var group := RenderItem(Group(alts, optional));
    && At(s, 0, a) && At(s, |a|, group) && At(s, |a| + |group|, Render(rest))
    && |s| == |a| + |group| + |Render(rest)|
    && (forall k :: 0 <= k < |a| ==> a[k] != '(')
    && WellFormedAlts(alts) && WellFormed(rest, false) && (!optional ==> !StartsWithMark(rest))
  }

  lemma Pieces(a: string, x: string, y: string)
    ensures At(a + (x + y), 0, a) && At(a + (x + y), |a|, x) && At(a + (x + y), |a| + |x|, y)
  {
    var s := a + (x + y);
    assert At(s, 0, s);
    AtSplit(s, 0, a, x + y);
    AtSplit(s, |a|, x, y);
  }

  lemma GroupStands(front: Pattern, alts: Alts, optional: bool, rest: Pattern)
    requires Literal(front) && WellFormed(front, false) && WellFormed(Then(Group(alts, optional), rest), false)
    ensures Around(Render(Append(front, Then(Group(alts, optional), rest))), Render(front), alts, optional, rest)
  {
    RenderAppend(front, Then(Group(alts, optional), rest));
    Pieces(Render(front), RenderItem(Group(alts, optional)), Render(rest));
    LiteralDenotes(front);
  }

  lemma ClosesAt(s: string, open: nat, alts: Alts)
    requires open < |s| && s[open] == '(' && At(s, open + 1, RenderAlts(alts)) && WellFormedAlts(alts)
    requires open + 1 + |RenderAlts(alts)| < |s| && s[open + 1 + |RenderAlts(alts)|] == ')'
    ensures CloseFrom(s, open, 0) == open + 1 + |RenderAlts(alts)|
  {
    hide RenderAlts, WellFormedAlts, At;
    assert CloseFrom(s, open, 0) == CloseFrom(s, open + 1, 1);
    CloseSkipsAlts(s, open + 1, alts, 1);
  }

  /** What `expand` finds in the text of a pattern: its first group. */
  lemma FindsTheGroup(s: string, a: string, alts: Alts, optional: bool, rest: Pattern)
    requires Around(s, a, alts, optional, rest)
    ensures OpenFrom(s, 0) < |s|
    ensures FirstGroup(s) == Found(|a|, |a| + 1 + |RenderAlts(alts)|, optional)
  {
    hide Render, RenderItem, RenderAlts, WellFormedAlts, WellFormed, StartsWithMark, Parens, At, CloseFrom, OpenFrom;
    AtGroup(s, |a|, alts, optional);
    OpensAfter(s, a);
    ClosesAt(s, |a|, alts);
    if !optional {
      NoMarkFollows(s, |a| + 2 + |RenderAlts(alts)|, rest);
    }
  }

  lemma OpensAfter(s: string, a: string)
    requires At(s, 0, a) && |a| < |s| && s[|a|] == '(' && forall k :: 0 <= k < |a| ==> a[k] != '('
    ensures OpenFrom(s, 0) == |a|
  {
    forall k | 0 <= k < |a| ensures s[k] != '(' {
      assert s[0 + k] == a[k];
    }
    OpensAt(s, 0, |a|);
  }

  lemma CutsTheGroup(s: string, a: string, alts: Alts, optional: bool, rest: Pattern)
    requires Around(s, a, alts, optional, rest)
    ensures var g := Found(|a|, |a| + 1 + |RenderAlts(alts)|, optional);
            && Within(s, g) && s[..g.open] == a && Inner(s, g) == RenderAlts(alts) && Rest(s, g) == Render(rest)
  {
    AtGroup(s, |a|, alts, optional);
    FindsTheGroup(s, a, alts, optional, rest);
    hide Render, RenderItem, RenderAlts, WellFormedAlts, WellFormed, OpenFrom, CloseFrom, Parens;
    Slice(s, 0, a);
    Slice(s, |a| + 1, RenderAlts(alts));
    Slice(s, |s| - |Render(rest)|, Render(rest));
  }

  /** So one round puts together the front, one choice and the rest. */
  lemma OneRound(s: string, a: string, alts: Alts, optional: bool, rest: Pattern)
    requires Around(s, a, alts, optional, rest)
    ensures OpenFrom(s, 0) < |s|
    ensures s[..FirstGroup(s).open] == a
    ensures Alternatives(s, FirstGroup(s)) == RenderAll(Choices(alts, optional))
    ensures Rest(s, FirstGroup(s)) == Render(rest)
  {
    FindsTheGroup(s, a, alts, optional, rest);
    CutsTheGroup(s, a, alts, optional, rest);
    ChoicesOfGroup(alts, optional);
    SplitFindsAlts(RenderAlts(alts), 0, alts);
  }

  lemma {:induction false} OpensAt(s: string, i: nat, open: nat)
    requires i <= open < |s| && s[open] == '(' && forall k :: i <= k < open ==> s[k] != '('
    ensures OpenFrom(s, i) == open
    decreases open - i
  {
    if i < open {
      OpensAt(s, i + 1, open);
    }
  }

  /** After a group that is not optional no `?` is written. */
  lemma NoMarkFollows(s: string, i: nat, rest: Pattern)
    requires WellFormed(rest, false) && !StartsWithMark(rest)
    ensures At(s, i, Render(rest)) && i + |Render(rest)| == |s| && i < |s| ==> s[i] != '?'
  {
    if rest.Then? {
      var head := RenderItem(rest.first);
      assert head != "" && head[0] == if rest.first.Lit? then rest.first.c else '(';
      assert Render(rest)[0] == head[0];
    }
  }

  lemma {:induction false} EachDenotes(front: Pattern, choices: seq<Pattern>, rest: Pattern, bound: nat)
    requires Literal(front) && WellFormed(front, false) && WellFormed(rest, false) && !StartsWithMark(rest)
    requires forall k :: 0 <= k < |choices| ==> WellFormed(choices[k], true)
    requires AllBelow(Render(front), RenderAll(choices), Render(rest), bound)
    ensures EachExpansion(Render(front), RenderAll(choices), Render(rest), bound)
            == Prefixed(Render(front), Product(DenoteAll(choices), Denote(rest)))
    decreases bound, 0, |choices|
  {
    if choices != [] {
      var p := Append(front, Append(choices[0], rest));
      WellFormedAppend(choices[0], rest);
      LiteralAppend(front, Append(choices[0], rest));
      RenderAppend(front, Append(choices[0], rest));
      RenderAppend(choices[0], rest);
      Regroup(Render(front), Render(choices[0]), Render(rest));
      assert Parens(Render(front) + RenderAll(choices)[0] + Render(rest)) < bound;
      ExpandDenotes(p);
      DenoteAppend(front, Append(choices[0], rest));
      DenoteAppend(choices[0], rest);
      LiteralDenotes(front);
      ProductOne(Render(front), Product(Denote(choices[0]), Denote(rest)));
      assert RenderAll(choices)[1..] == RenderAll(choices[1..]);
      EachDenotes(front, choices[1..], rest, bound);
      ProductConcat(Denote(choices[0]), DenoteAll(choices[1..]), Denote(rest));
      PrefixedConcat(Render(front), Product(Denote(choices[0]), Denote(rest)),
          Product(DenoteAll(choices[1..]), Denote(rest)));
    }
  }

  /** `expand` on the text of a well-formed pattern returns the strings it stands for, in order. */
  lemma {:induction false} ExpandDenotes(p: Pattern)
    requires WellFormed(p, false)
    ensures Expansion(Render(p)) == Denote(p)
    decreases Parens(Render(p)), 1, 0
  {
    var s := Render(p);
    if Literal(p) {
      LiteralDenotes(p);
    } else {
      var front, alts, optional, rest := FirstGroupOf(p);
      GroupStands(front, alts, optional, rest);
      OneRound(s, Render(front), alts, optional, rest);
      ChoicesOfGroup(alts, optional);
      AllFewerParens(s, FirstGroup(s));
      EachDenotes(front, Choices(alts, optional), rest, Parens(s));
      DenoteAppend(front, Then(Group(alts, optional), rest));
      LiteralDenotes(front);
      ProductOne(Render(front), Product(DenoteItem(Group(alts, optional)), Denote(rest)));
    }
  }

  /** Whatever the pattern, well formed or not, no shape that comes out holds a `(`. */
  lemma {:induction false} ShapesHaveNoParens(s: string)
    ensures forall k :: 0 <= k < |Expansion(s)| ==> Parens(Expansion(s)[k]) == 0
    decreases Parens(s), 1, 0
  {
    if OpenFrom(s, 0) == |s| {
      NoneBefore(s, |s|);
      assert s[..|s|] == s;
    } else {
      var g := FirstGroup(s);
      AllFewerParens(s, g);
      EachHasNoParens(s[..g.open], Alternatives(s, g), Rest(s, g), Parens(s));
    }
  }

  lemma {:induction false} EachHasNoParens(before: string, alternatives: seq<string>, rest: string, bound: nat)
    requires AllBelow(before, alternatives, rest, bound)
    ensures forall k :: 0 <= k < |EachExpansion(before, alternatives, rest, bound)| ==>
              Parens(EachExpansion(before, alternatives, rest, bound)[k]) == 0
    decreases bound, 0, |alternatives|
  {
    if alternatives != [] {
      ShapesHaveNoParens(before + alternatives[0] + rest);
      EachHasNoParens(before, alternatives[1..], rest, bound);
    }
  }

  lemma ProductOneOne(x: string, y: string)
    ensures Product([x], [y]) == [x + y]
  {
    ProductOne(x, [y]);
    assert Prefixed(x, [y]) == [x + y] + Prefixed(x, []);
  }

  lemma LiteralDenotesItself(c: char)
    requires c != '(' && c != ')'
    ensures Denote(Then(Lit(c), Empty)) == [[c]]
  {
    LiteralDenotes(Then(Lit(c), Empty));
    assert Render(Then(Lit(c), Empty)) == [c] + "" == [c];
  }

  /** A literal `?` after a group is read as the mark that makes the group optional. */
  lemma MarkAfterGroupIsNoLiteral(c: char)
    requires c != '(' && c != ')' && c != '|'
    ensures var alts := Last(Then(Lit(c), Empty));
            var marked := Then(Group(alts, false), Then(Lit('?'), Empty));
            Denote(marked) == [[c] + "?"] && Expansion(Render(marked)) == [[c], ""]
  {
    var alts := Last(Then(Lit(c), Empty));
    var marked, optional := Then(Group(alts, false), Then(Lit('?'), Empty)), Then(Group(alts, true), Empty);
    LiteralDenotesItself(c);
    LiteralDenotesItself('?');
    assert WellFormed(alts.p, true) && WellFormedAlts(alts) && WellFormedItem(Group(alts, true), false);
    assert DenoteAlts(alts) == [[c]];
    assert DenoteItem(Group(alts, false)) == [[c]] && DenoteItem(Group(alts, true)) == [[c]] + [""];
    assert Render(marked) == "(" + RenderAlts(alts) + ")?" == Render(optional) by {
      assert Render(Then(Lit('?'), Empty)) == "?";
    }
    ExpandDenotes(optional);
    ProductConcat([[c]], [""], [""]);
    ProductOneOne([c], "");
    ProductOneOne("", "");
    assert [c] + "" == [c] && "" + "" == "";
    ProductOneOne([c], "?");
  }
}
