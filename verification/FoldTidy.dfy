/**
 When the names an expression reads mean to the folder what they mean to the program. Every
 condition is asked only of what `fold` visits on its way from the expression, following the
 folder's own recursion.
 */
module FoldTidy {
  import opened Wrappers
  import opened FoldSyntax
  import opened FoldText
  import opened Fold
  import opened FoldSemantics

  /** The binding is the only one of its name. */
  predicate Alone(binds: seq<Bind>, i: nat)
    requires i < |binds|
  {
    forall j :: 0 <= j < |binds| && j != i ==> binds[j].name != binds[i].name
  }

  /** The folder would look somewhere for x in this scope. */
  predicate Followed(p: Program, s: Scope, x: string) {
    || (s.func.Some? && (Local(s.func.value, x).Some? || x in s.func.value.params))
    || Kept(BindsOf(p, s.mod), x).Some?
  }

  /** A replacement count that is no constant makes no difference. */
  predicate Settled(base: seq<string>, what: string, put: string) {
    forall i :: 0 <= i < |base| ==> !Occurs(base[i], what) || what == put
  }

  /**
   `known` are the loop variables around e whose values the folder has set, and
   `alien` those of comprehensions around the call that e is an argument of.
   */
  ghost predicate Tidy(p: Program, s: Scope, known: set<string>, alien: set<string>, e: Expr, seen: set<nat>,
                       bound: Bound)
    requires Sourced(p) && KnownScope(s, p.nodes) && Known(e, p.nodes)
    decreases p.nodes - seen, 1
  {
    e.id in seen ||
    var now := seen + {e.id};
    match e
    case Add(_, left, right) =>
      && Tidy(p, s, known, alien, left, now, bound)
      && (var (l, b1) := Fold.Fold(p, s, left, now, bound);
          Truthy(l) ==> Tidy(p, s, known, alien, right, now, b1))
    case Joined(_, parts) => TidyParts(p, s, known, alien, parts, [""], now, bound)
    case If(_, body, orelse) =>
      && Tidy(p, s, known, alien, body, now, bound)
      && (var (l, b1) := Fold.Fold(p, s, body, now, bound);
          Truthy(l) ==> Tidy(p, s, known, alien, orelse, now, b1))
    case Replace(_, base, what, put, count) =>
      var (v, b1) := Fold.Fold(p, s, base, now, bound);
      && Tidy(p, s, known, alien, base, now, bound)
      && (Truthy(v) ==>
            var (u, b2) := Fold.Fold(p, s, what, now, b1);
            var y := Fold.Fold(p, s, put, now, b2).0;
            && Tidy(p, s, known, alien, what, now, b1)
            && Tidy(p, s, known, alien, put, now, b2)
            && (count.Dynamic? && Single(u) && Single(y) ==> Settled(v.value, u.value[0], y.value[0])))
    case Join(_, base, arg) =>
      && Tidy(p, s, known, alien, base, now, bound)
      && (var (v, b1) := Fold.Fold(p, s, base, now, bound);
          Single(v) ==> TidyItems(p, s, known, alien, arg, now, b1))
    case Name(_, x) => TidyName(p, s, known, alien, x, now, bound)
    case _ => true
  }

  /**
   A loop variable around the expression is set, or names nothing else; no other
   name is taken for a loop variable; what is followed is bound once, and a
   parameter's function is reached by some call of its name; and a local that is
   not followed, or a parameter that does not fold, has no constant of the module
   to be mistaken for.
   */
  ghost predicate TidyName(p: Program, s: Scope, known: set<string>, alien: set<string>, x: string, seen: set<nat>,
                           bound: Bound)
    requires Sourced(p) && KnownScope(s, p.nodes)
    decreases p.nodes - seen, 4
  {
    if x in known then x in bound || !Followed(p, s, x)
    else if x in alien then x !in bound && !Followed(p, s, x)
    else if x in bound then false
    else if s.func.Some? && Local(s.func.value, x).Some? then
      var f, i := s.func.value, Local(s.func.value, x).value;
      x !in f.params && Alone(f.binds, i) && Tidy(p, s, {}, {}, f.binds[i].e, seen, bound)
    else if s.func.Some? && ParamValues(p, s.func.value, x, seen, bound).0.Some? then
      && !BoundIn(s.func.value.binds, x) && !Entry(p, s.func.value)
      && TidyCalls(p, s.func.value, x, CallsTo(p, s.func.value.name), seen, bound)
    else if LocalTo(s.func, x) then Kept(BindsOf(p, s.mod), x).None?
    else TidyGlobal(p, s.mod, x, seen, bound)
  }

  ghost predicate TidyGlobal(p: Program, mod: string, x: string, seen: set<nat>, bound: Bound)
    requires Sourced(p)
    decreases p.nodes - seen, 3, p.depth(mod, x)
  {
    var binds, k := BindsOf(p, mod), Kept(BindsOf(p, mod), x);
    k.Some? ==>
      && Alone(binds, k.value)
      && match binds[k.value]
         case Assign(_, e) => Tidy(p, Scope(mod, None), {}, {}, e, seen, bound)
         case Import(_, source, attr) => TidyGlobal(p, source, attr, seen, bound)
  }

  ghost predicate TidyParts(p: Program, s: Scope, known: set<string>, alien: set<string>, parts: Parts,
                            out: seq<string>, seen: set<nat>, bound: Bound)
    requires Sourced(p) && KnownScope(s, p.nodes) && KnownParts(parts, p.nodes)
    decreases p.nodes - seen, 2, parts
  {
    match parts
    case NoParts => true
    case Lit(c, tail) => TidyParts(p, s, known, alien, tail, Product(out, [c]), seen, bound)
    case Hole(e, tail) =>
      var (v, b1) := Fold.Fold(p, s, e, seen, bound);
      && Tidy(p, s, known, alien, e, seen, bound)
      && (Truthy(v) && |out| * |v.value| <= MAX ==>
            TidyParts(p, s, known, alien, tail, Product(out, v.value), seen, b1))
    case Spec(_) => true
  }

  ghost predicate TidyItems(p: Program, s: Scope, known: set<string>, alien: set<string>, e: Expr, seen: set<nat>,
                            bound: Bound)
    requires Sourced(p) && KnownScope(s, p.nodes) && Known(e, p.nodes)
    decreases p.nodes - seen, 2, e
  {
    match e
    case List(_, elts) => TidyAll(p, s, known, alien, elts, seen, bound)
    case Comp(_, elt, x, iter) =>
      var (values, b1) := Items(p, s, iter, seen, bound);
      && TidyItems(p, s, known, alien, iter, seen, bound)
      && (values.Some? ==> TidyEach(p, s, known, alien, elt, x, values.value, seen, b1))
    case _ => true
  }

  ghost predicate TidyAll(p: Program, s: Scope, known: set<string>, alien: set<string>, es: Exprs, seen: set<nat>,
                          bound: Bound)
    requires Sourced(p) && KnownScope(s, p.nodes) && KnownAll(es, p.nodes)
    decreases p.nodes - seen, 2, es
  {
    es.Exprs? ==>
      && Tidy(p, s, known, alien, es.head, seen, bound)
      && TidyAll(p, s, known, alien, es.tail, seen, Fold.Fold(p, s, es.head, seen, bound).1)
  }

  ghost predicate TidyEach(p: Program, s: Scope, known: set<string>, alien: set<string>, elt: Expr, x: string,
                           values: seq<string>, seen: set<nat>, bound: Bound)
    requires Sourced(p) && KnownScope(s, p.nodes) && Known(elt, p.nodes)
    decreases p.nodes - seen, 2, elt, |values|
  {
    values != [] ==>
      var (v, b1) := Fold.Fold(p, s, elt, seen, bound[x := values[0]]);
      && Tidy(p, s, known + {x}, alien - {x}, elt, seen, bound[x := values[0]])
      && (Single(v) ==> TidyEach(p, s, known, alien, elt, x, values[1..], seen, b1 - {x}))
  }

  ghost predicate TidyCalls(p: Program, f: Func, x: string, calls: seq<Site>, seen: set<nat>, bound: Bound)
    requires Sourced(p) && forall i :: 0 <= i < |calls| ==> KnownSite(calls[i], p.nodes)
    decreases p.nodes - seen, 2, |calls|
  {
    calls != [] && ArgOf(f, calls[0], x).Some? ==>
      var arg := ArgOf(f, calls[0], x).value;
      assert KnownSite(calls[0], p.nodes);
      ArgIsKnown(f, calls[0], x, p.nodes);
      var (v, b1) := Fold.Fold(p, calls[0].scope, arg, seen, bound);
      && Tidy(p, calls[0].scope, {}, calls[0].loops, arg, seen, bound)
      && (Truthy(v) ==> TidyCalls(p, f, x, calls[1..], seen, b1))
  }
}
