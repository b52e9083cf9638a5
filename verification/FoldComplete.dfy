/** That the folder answers exactly what is meant. */
module FoldComplete {
  import opened Arithmetic
  import opened Wrappers
  import opened FoldSyntax
  import opened FoldText
  import opened Fold
  import opened FoldMeaning
  import opened Sequences

  // ----- lists of texts

  /** One text before each of the list. */
  function Before(a: string, b: seq<string>): (r: seq<string>)
    ensures |r| == |b| && forall i :: 0 <= i < |b| ==> r[i] == a + b[i]
  {
    seq(|b|, i requires 0 <= i < |b| => a + b[i])
  }

  lemma DigitsStep(n: nat, k: nat)
    requires n > 0 && k >= n
    ensures k / n == (k - n) / n + 1 && k % n == (k - n) % n
  {
    var q, r := (k - n) / n, (k - n) % n;
    DivMod(q + 1, n, r);
    assert k == (q + 1) * n + r;
  }

  lemma PairsStep(a: seq<string>, b: seq<string>, k: nat)
    requires a != [] && k < |a| * |b|
    ensures k < |b| ==> Pairs(a, b)[k] == a[0] + b[k]
    ensures k >= |b| ==> k - |b| < |a[1..]| * |b| && Pairs(a, b)[k] == Pairs(a[1..], b)[k - |b|]
  {
    Digits(|a|, |b|, k);
    if k < |b| {
      DivMod(0, |b|, k);
    } else {
      DigitsStep(|b|, k);
      assert |a| * |b| == |b| + |a[1..]| * |b|;
    }
  }

  lemma {:induction false} ProductIsPairs(a: seq<string>, b: seq<string>)
    ensures Product(a, b) == Pairs(a, b)
  {
    if a != [] {
      ProductIsPairs(a[1..], b);
      assert Product(a, b) == Before(a[0], b) + Product(a[1..], b);
      var whole, left := Product(a, b), Pairs(a[1..], b);
      hide Product, Pairs;
      forall k | 0 <= k < |a| * |b| ensures whole[k] == Pairs(a, b)[k] {
        PairsStep(a, b, k);
      }
      assert |Pairs(a, b)| == |a| * |b| by {
        PairsLength(a, b);
      }
    }
  }

  lemma PairsLength(a: seq<string>, b: seq<string>)
    ensures |Pairs(a, b)| == |a| * |b|
  {
  }

  lemma {:induction false} ProductOfConcat(a: seq<string>, b: seq<string>, c: seq<string>)
    ensures Product(a + b, c) == Product(a, c) + Product(b, c)
  {
    if a == [] {
      assert a + b == b;
    } else {
      ProductOfConcat(a[1..], b, c);
      Uncons(a, b);
      Regroup(Before(a[0], c), Product(a[1..], c), Product(b, c));
      assert Product(a, c) == Before(a[0], c) + Product(a[1..], c);
      assert Product(a + b, c) == Before(a[0], c) + Product(a[1..] + b, c);
    }
  }

  lemma {:induction false} ProductOfBefore(a: string, b: seq<string>, c: seq<string>)
    ensures Product(Before(a, b), c) == Before(a, Product(b, c))
  {
    if b != [] {
      ProductOfBefore(a, b[1..], c);
      assert Before(a, b)[1..] == Before(a, b[1..]);
      assert Product(b, c) == Before(b[0], c) + Product(b[1..], c);
      assert Product(Before(a, b), c) == Before(a + b[0], c) + Product(Before(a, b[1..]), c);
      forall i | 0 <= i < |c| ensures Before(a + b[0], c)[i] == Before(a, Before(b[0], c))[i] {
        Regroup(a, b[0], c[i]);
      }
    }
  }

  lemma {:induction false} ProductRegroups(a: seq<string>, b: seq<string>, c: seq<string>)
    ensures Product(Product(a, b), c) == Product(a, Product(b, c))
  {
    if a != [] {
      ProductRegroups(a[1..], b, c);
      assert Product(a, b) == Before(a[0], b) + Product(a[1..], b);
      ProductOfConcat(Before(a[0], b), Product(a[1..], b), c);
      ProductOfBefore(a[0], b, c);
      assert Product(a, Product(b, c)) == Before(a[0], Product(b, c)) + Product(a[1..], Product(b, c));
    }
  }

  lemma {:induction false} ProductWithNothing(a: seq<string>)
    ensures Product(a, [""]) == a && Product([""], a) == a
  {
    assert Product([""], a) == Before("", a) + Product([], a);
    forall i | 0 <= i < |a| ensures Before("", a)[i] == a[i] {
      assert "" + a[i] == a[i];
    }
    if a != [] {
      ProductWithNothing(a[1..]);
      assert Product(a, [""]) == Before(a[0], [""]) + Product(a[1..], [""]);
      assert a[0] + "" == a[0];
    }
  }

  lemma FirstsSnoc(all: seq<string>, v: string)
    ensures Firsts(all + [v]) == if v in all then Firsts(all) else Firsts(all) + [v]
  {
    assert (all + [v])[..|all|] == all;
  }

  lemma AddNewStep(out: seq<string>, more: seq<string>)
    requires more != []
    ensures AddNew(out, more) == AddNew(if more[0] in out then out else out + [more[0]], more[1..])
  {
  }

  lemma {:induction false} AddNewIsFirsts(all: seq<string>, more: seq<string>)
    ensures AddNew(Firsts(all), more) == Firsts(all + more)
    decreases |more|
  {
    hide Firsts;
    if more == [] {
      assert all + more == all;
    } else {
      var longer := all + [more[0]];
      FirstsHasAll(all);
      FirstsSnoc(all, more[0]);
      AddNewStep(Firsts(all), more);
      hide AddNew;
      AddNewIsFirsts(longer, more[1..]);
      assert longer + more[1..] == all + more;
    }
  }

  lemma {:induction false} FirstsHasAll(all: seq<string>)
    ensures forall v :: v in Firsts(all) <==> v in all
  {
    if all != [] {
      FirstsHasAll(all[..|all| - 1]);
      assert all == all[..|all| - 1] + [all[|all| - 1]];
    }
  }

  // ----- the folder answers what is meant

  /** The answer is the list that is meant or none, and the loop variables are as before. */
  predicate Answers(r: Folded, m: Meaning, bound: Bound) {
    m.Tangled? || (r.1 == bound && r.0 == if m.These? then Some(m.values) else None)
  }

  lemma {:induction false} FoldAnswers(p: Program, s: Scope, e: Expr, seen: set<nat>, bound: Bound)
    requires Sourced(p) && KnownScope(s, p.nodes) && Known(e, p.nodes)
    ensures Answers(Fold.Fold(p, s, e, seen, bound), Meant(p, s, e, seen, bound), bound)
    decreases p.nodes - seen, 1
  {
    if e.id !in seen {
      match e {
        case Const(_, _) =>
        case Add(_, _, _) => AddAnswers(p, s, e, seen, bound);
        case Joined(_, _) => JoinedAnswers(p, s, e, seen, bound);
        case If(_, _, _) => IfAnswers(p, s, e, seen, bound);
        case Replace(_, _, _, _, _) => ReplaceAnswers(p, s, e, seen, bound);
        case Join(_, _, _) => JoinAnswers(p, s, e, seen, bound);
        case Call(_, base) => FoldAnswers(p, s, base, seen + {e.id}, bound);
        case Name(_, x) => NameAnswers(p, s, x, seen + {e.id}, bound);
        case _ =>
      }
    }
  }

  lemma {:induction false} AddAnswers(p: Program, s: Scope, e: Expr, seen: set<nat>, bound: Bound)
    requires Sourced(p) && KnownScope(s, p.nodes) && Known(e, p.nodes) && e.Add? && e.id !in seen
    ensures Answers(Fold.Fold(p, s, e, seen, bound), Meant(p, s, e, seen, bound), bound)
    decreases p.nodes - seen, 0
  {
    hide Sourced, KnownScope, Pairs, Product;
    var now := seen + {e.id};
    FoldAnswers(p, s, e.left, now, bound);
    FoldAnswers(p, s, e.right, now, bound);
    var l, r := Meant(p, s, e.left, now, bound), Meant(p, s, e.right, now, bound);
    if l.These? && r.These? {
      ProductIsPairs(l.values, r.values);
    }
  }

  lemma {:induction false} IfAnswers(p: Program, s: Scope, e: Expr, seen: set<nat>, bound: Bound)
    requires Sourced(p) && KnownScope(s, p.nodes) && Known(e, p.nodes) && e.If? && e.id !in seen
    ensures Answers(Fold.Fold(p, s, e, seen, bound), Meant(p, s, e, seen, bound), bound)
    decreases p.nodes - seen, 0
  {
    hide Sourced, KnownScope;
    var now := seen + {e.id};
    FoldAnswers(p, s, e.body, now, bound);
    FoldAnswers(p, s, e.orelse, now, bound);
  }

  lemma {:induction false} ReplaceAnswers(p: Program, s: Scope, e: Expr, seen: set<nat>, bound: Bound)
    requires Sourced(p) && KnownScope(s, p.nodes) && Known(e, p.nodes) && e.Replace? && e.id !in seen
    ensures Answers(Fold.Fold(p, s, e, seen, bound), Meant(p, s, e, seen, bound), bound)
    decreases p.nodes - seen, 0
  {
    hide Sourced, KnownScope, PyReplace;
    var now := seen + {e.id};
    FoldAnswers(p, s, e.base, now, bound);
    FoldAnswers(p, s, e.what, now, bound);
    FoldAnswers(p, s, e.put, now, bound);
  }

  lemma {:induction false} JoinAnswers(p: Program, s: Scope, e: Expr, seen: set<nat>, bound: Bound)
    requires Sourced(p) && KnownScope(s, p.nodes) && Known(e, p.nodes) && e.Join? && e.id !in seen
    ensures Answers(Fold.Fold(p, s, e, seen, bound), Meant(p, s, e, seen, bound), bound)
    decreases p.nodes - seen, 0
  {
    hide Sourced, KnownScope, PyJoin;
    var now := seen + {e.id};
    FoldAnswers(p, s, e.base, now, bound);
    ItemsAnswer(p, s, e.arg, now, bound);
  }

  lemma {:induction false} JoinedAnswers(p: Program, s: Scope, e: Expr, seen: set<nat>, bound: Bound)
    requires Sourced(p) && KnownScope(s, p.nodes) && Known(e, p.nodes) && e.Joined? && e.id !in seen
    ensures Answers(Fold.Fold(p, s, e, seen, bound), Meant(p, s, e, seen, bound), bound)
    decreases p.nodes - seen, 0
  {
    hide Sourced, KnownScope, Product;
    var now := seen + {e.id};
    PartsAnswer(p, s, e.parts, [""], now, bound);
    var m := MeantParts(p, s, e.parts, now, bound);
    if m.These? {
      ProductWithNothing(m.values);
    }
  }

  lemma More(m: nat, n: nat, k: nat)
    requires k >= 1
    ensures m * n <= m * (n * k) == (m * n) * k
  {
  }

  /** What is gathered so far, before what the rest means, if that makes no more than 32. */
  lemma {:induction false} PartsAnswer(p: Program, s: Scope, parts: Parts, out: seq<string>, seen: set<nat>,
                                       bound: Bound)
    requires Sourced(p) && KnownScope(s, p.nodes) && KnownParts(parts, p.nodes) && 1 <= |out| <= 32
    ensures var m := MeantParts(p, s, parts, seen, bound);
            && (m.These? ==> m.values != [])
            && Answers(FoldParts(p, s, parts, out, seen, bound),
                       if m.These? then UpTo32(These(Product(out, m.values))) else m, bound)
    decreases p.nodes - seen, 2, parts
  {
    hide Sourced, KnownScope, Known, Product, Pairs, Fold.Fold, Meant;
    match parts {
      case NoParts => ProductWithNothing(out);
      case Lit(c, tail) =>
        var rest := MeantParts(p, s, tail, seen, bound);
        PartsAnswer(p, s, tail, Product(out, [c]), seen, bound);
        if rest.These? {
          ProductIsPairs([c], rest.values);
          ProductRegroups(out, [c], rest.values);
        }
      case Hole(e, tail) =>
        var v, rest := Meant(p, s, e, seen, bound), MeantParts(p, s, tail, seen, bound);
        FoldAnswers(p, s, e, seen, bound);
        PartsAnswer(p, s, tail, out, seen, bound);
        if v.These? {
          assert v.values != [];
          More(|out|, 1, |v.values|);
          if |out| * |v.values| <= 32 {
            PartsAnswer(p, s, tail, Product(out, v.values), seen, bound);
          }
          if rest.These? {
            More(|out|, |v.values|, |rest.values|);
            ProductIsPairs(v.values, rest.values);
            ProductRegroups(out, v.values, rest.values);
          }
        }
      case Spec(_) =>
    }
  }

  lemma {:induction false} ItemsAnswer(p: Program, s: Scope, e: Expr, seen: set<nat>, bound: Bound)
    requires Sourced(p) && KnownScope(s, p.nodes) && Known(e, p.nodes)
    ensures Answers(Items(p, s, e, seen, bound), MeantItems(p, s, e, seen, bound), bound)
    decreases p.nodes - seen, 2, e
  {
    hide Sourced, KnownScope;
    match e {
      case List(_, elts) => AllAnswer(p, s, elts, seen, bound);
      case Comp(_, elt, x, iter) =>
        ItemsAnswer(p, s, iter, seen, bound);
        var values := MeantItems(p, s, iter, seen, bound);
        if values.These? && x !in bound {
          EachAnswers(p, s, elt, x, values.values, seen, bound);
        }
      case _ =>
    }
  }

  lemma {:induction false} AllAnswer(p: Program, s: Scope, es: Exprs, seen: set<nat>, bound: Bound)
    requires Sourced(p) && KnownScope(s, p.nodes) && KnownAll(es, p.nodes)
    ensures Answers(FoldAll(p, s, es, seen, bound), MeantAll(p, s, es, seen, bound), bound)
    decreases p.nodes - seen, 2, es
  {
    hide Sourced, KnownScope;
    if es.Exprs? {
      FoldAnswers(p, s, es.head, seen, bound);
      AllAnswer(p, s, es.tail, seen, bound);
      var v := Meant(p, s, es.head, seen, bound);
      assert v.These? && |v.values| == 1 ==> v.values == [v.values[0]];
    }
  }

  /** One turn of the loop, and the others. */
  lemma EachAnswersOnce(r: Folded, m: Meaning, more: Folded, rest: Meaning, inner: Bound, bound: Bound, x: string)
    requires Answers(r, m, inner) && Answers(more, rest, bound) && inner - {x} == bound
    ensures m.Tangled? || r.1 - {x} == bound
    ensures Answers(if !Single(r.0) then (None, r.1 - {x})
                    else (if more.0.Some? then Some(r.0.value + more.0.value) else None, more.1),
                    Listed(m, rest), bound)
  {
    assert m.These? && |m.values| == 1 ==> m.values == [m.values[0]];
  }

  lemma {:induction false} EachAnswers(p: Program, s: Scope, elt: Expr, x: string, values: seq<string>,
                                       seen: set<nat>, bound: Bound)
    requires Sourced(p) && KnownScope(s, p.nodes) && Known(elt, p.nodes) && x !in bound
    ensures Answers(FoldEach(p, s, elt, x, values, seen, bound), MeantEach(p, s, elt, x, values, seen, bound), bound)
    decreases p.nodes - seen, 2, elt, |values|
  {
    hide Sourced, KnownScope, Known, Fold.Fold, Meant;
    if values != [] {
      var inner := bound[x := values[0]];
      assert inner - {x} == bound;
      FoldAnswers(p, s, elt, seen, inner);
      EachAnswers(p, s, elt, x, values[1..], seen, bound);
      hide Answers;
      EachAnswersOnce(Fold.Fold(p, s, elt, seen, inner), Meant(p, s, elt, seen, inner),
                      FoldEach(p, s, elt, x, values[1..], seen, bound),
                      MeantEach(p, s, elt, x, values[1..], seen, bound), inner, bound, x);
    }
  }

  lemma {:induction false} NameAnswers(p: Program, s: Scope, x: string, seen: set<nat>, bound: Bound)
    requires Sourced(p) && KnownScope(s, p.nodes)
    ensures Answers(FoldName(p, s, x, seen, bound), MeantName(p, s, x, seen, bound), bound)
    decreases p.nodes - seen, 4
  {
    if x !in bound {
      if s.func.Some? && Local(s.func.value, x).Some? {
        FoldAnswers(p, s, s.func.value.binds[Local(s.func.value, x).value].e, seen, bound);
      } else {
        if s.func.Some? {
          ParamAnswers(p, s.func.value, x, seen, bound);
        }
        ConstantAnswers(p, s.mod, x, seen, bound);
      }
    }
  }

  lemma {:induction false} ConstantAnswers(p: Program, mod: string, x: string, seen: set<nat>, bound: Bound)
    requires Sourced(p)
    ensures Answers(FoldGlobal(p, mod, x, seen, bound), MeantConstant(p, mod, x, seen, bound), bound)
    decreases p.nodes - seen, 3, p.depth(mod, x)
  {
    var i := Kept(BindsOf(p, mod), x);
    if i.Some? {
      match BindsOf(p, mod)[i.value] {
        case Assign(_, e) => FoldAnswers(p, Scope(mod, None), e, seen, bound);
        case Import(_, source, attr) => ConstantAnswers(p, source, attr, seen, bound);
      }
    }
  }

  lemma {:induction false} ParamAnswers(p: Program, f: Func, x: string, seen: set<nat>, bound: Bound)
    requires Sourced(p)
    ensures Answers(ParamValues(p, f, x, seen, bound), MeantParam(p, f, x, seen, bound), bound)
    decreases p.nodes - seen, 3
  {
    if x in f.params && CallsTo(p, f.name) != [] {
      CallsAnswer(p, f, x, CallsTo(p, f.name), [], seen, bound);
      var all := MeantCalls(p, f, x, CallsTo(p, f.name), seen, bound);
      if all.These? {
        assert [] + all.values == all.values;
      }
    }
  }

  lemma {:induction false} CallsAnswer(p: Program, f: Func, x: string, calls: seq<Site>, before: seq<string>,
                                       seen: set<nat>, bound: Bound)
    requires Sourced(p) && forall i :: 0 <= i < |calls| ==> KnownSite(calls[i], p.nodes)
    ensures var m := MeantCalls(p, f, x, calls, seen, bound);
            Answers(FoldCalls(p, f, x, calls, Firsts(before), seen, bound),
                    if m.These? then UpTo32(These(Firsts(before + m.values))) else m, bound)
    decreases p.nodes - seen, 2, |calls|
  {
    hide Sourced, KnownScope, Known, AddNew, Firsts, Fold.Fold, Meant;
    if calls == [] {
      assert before + [] == before;
    } else {
      var arg := ArgOf(f, calls[0], x);
      if arg.Some? {
        assert KnownSite(calls[0], p.nodes);
        ArgIsKnown(f, calls[0], x, p.nodes);
        FoldAnswers(p, calls[0].scope, arg.value, seen, bound);
        var v, rest := Meant(p, calls[0].scope, arg.value, seen, bound), MeantCalls(p, f, x, calls[1..], seen, bound);
        if v.These? {
          AddNewIsFirsts(before, v.values);
          CallsAnswer(p, f, x, calls[1..], before + v.values, seen, bound);
          if rest.These? {
            Regroup(before, v.values, rest.values);
          }
        }
      }
    }
  }

  /** Where nothing is tangled the folder answers the list that is meant, and none exactly where it is refused. */
  lemma FoldIsItsMeaning(p: Program, s: Scope, e: Expr)
    requires Sourced(p) && KnownScope(s, p.nodes) && Known(e, p.nodes) && !Meant(p, s, e, {}, map[]).Tangled?
    ensures Fold.Fold(p, s, e, {}, map[]).0 ==
            match Meant(p, s, e, {}, map[])
            case These(values) => Some(values)
            case _ => None
  {
    FoldAnswers(p, s, e, {}, map[]);
  }
}
