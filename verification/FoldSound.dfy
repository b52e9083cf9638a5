/** Whatever an expression evaluates to, in any world the program can be in, is among the strings it folds to. */
module FoldSound {
  import opened Wrappers
  import opened Sequences
  import opened FoldSyntax
  import opened FoldText
  import opened Fold
  import opened FoldSemantics
  import opened FoldTidy

  /** The folder's `BOUND` has the value of every loop variable it has set. */
  ghost predicate Agree(env: Env, bound: Bound, known: set<string>, alien: set<string>) {
    env.Keys == known + alien && forall x :: x in known && x in bound ==> env[x] == Text(bound[x])
  }

  ghost predicate Covers(folded: Option<seq<string>>, v: Option<Value>) {
    folded.Some? && v.Some? ==> v.value.Text? && v.value.s in folded.value
  }

  // ----- lists of strings

  lemma {:induction false} ProductHas(left: seq<string>, right: seq<string>, a: string, b: string)
    requires a in left && b in right
    ensures a + b in Product(left, right)
  {
    var row := seq(|right|, i requires 0 <= i < |right| => left[0] + right[i]);
    assert Product(left, right) == row + Product(left[1..], right);
    if a == left[0] {
      var i :| 0 <= i < |right| && right[i] == b;
      assert row[i] == a + b;
    } else {
      ProductHas(left[1..], right, a, b);
    }
  }

  lemma ReplaceHas(base: seq<string>, what: string, put: string, n: int, v: string)
    requires v in base
    ensures PyReplace(v, what, put, n) in ReplaceEach(base, what, put, n)
  {
    var i :| 0 <= i < |base| && base[i] == v;
    assert ReplaceEach(base, what, put, n)[i] == PyReplace(v, what, put, n);
  }

  // ----- bindings

  /** A binding that stands alone is the one the folder follows. */
  lemma KeptIsTheOnly(binds: seq<Bind>, x: string, i: nat)
    requires Kept(binds, x).Some? && Alone(binds, Kept(binds, x).value)
    requires i < |binds| && binds[i].name == x
    ensures Kept(binds, x) == Some(i)
  {
    var k := Kept(binds, x).value;
    assert Defines(binds[k], x);
  }

  lemma NotBoundNotKept(binds: seq<Bind>, x: string)
    requires !BoundIn(binds, x)
    ensures Kept(binds, x).None?
  {
    assert forall i :: 0 <= i < |binds| ==> binds[i].name != x;
  }

  /** A name the folder would look for nowhere does not fold. */
  lemma UnfollowedHasNone(p: Program, s: Scope, x: string, seen: set<nat>, bound: Bound)
    requires Sourced(p) && KnownScope(s, p.nodes) && x !in bound && !Followed(p, s, x)
    ensures FoldName(p, s, x, seen, bound).0.None?
  {
  }

  lemma UnkeptHasNone(p: Program, mod: string, x: string, seen: set<nat>, bound: Bound)
    requires Sourced(p) && Kept(BindsOf(p, mod), x).None?
    ensures FoldGlobal(p, mod, x, seen, bound).0.None?
  {
  }

  // ----- soundness

  lemma {:induction false} GlobalSound(p: Program, w: World, mod: string, x: string, seen: set<nat>, bound: Bound,
                                       v: Value)
    requires Sourced(p) && GlobalsJustified(p, w.globals) && TidyGlobal(p, mod, x, seen, bound)
    requires (mod, x, v) in w.globals || !BoundIn(BindsOf(p, mod), x)
    ensures Covers(FoldGlobal(p, mod, x, seen, bound).0, Some(v))
    decreases p.nodes - seen, 4, p.depth(mod, x)
  {
    var binds := BindsOf(p, mod);
    var base, top := World(w.globals, Base), Scope(mod, None);
    if Kept(binds, x).None? {
      return;
    }
    if !BoundIn(binds, x) {
      NotBoundNotKept(binds, x);
    }
    assert FromOneOf(p, base, top, binds, x, v);
    var i :| 0 <= i < |binds| && binds[i].name == x && FromBind(p, base, top, binds[i], v);
    KeptIsTheOnly(binds, x, i);
    match binds[i] {
      case Assign(_, e) =>
        var t :| Eval(p, base, top, map[], e, t) == Some(v);
        FoldIsSound(p, base, top, {}, {}, e, seen, bound, map[], t);
      case Import(_, source, attr) =>
        GlobalSound(p, w, source, attr, seen, bound, v);
    }
  }

  /** When a parameter folds, every call has an argument for it, and its value is covered. */
  lemma {:induction false} CallsSound(p: Program, w: World, f: Func, x: string, calls: seq<Site>, out: seq<string>,
                                      seen: set<nat>, bound: Bound, k: nat, env: Env, t: Trace)
    requires Sourced(p) && (forall i :: 0 <= i < |calls| ==> KnownSite(calls[i], p.nodes))
    requires TidyCalls(p, f, x, calls, seen, bound) && FoldCalls(p, f, x, calls, out, seen, bound).0.Some?
    requires k < |calls| ==> Justified(p, w, calls[k].scope) && env.Keys == calls[k].loops
    ensures var r := FoldCalls(p, f, x, calls, out, seen, bound).0.value;
            && (forall v :: v in out ==> v in r)
            && (k < |calls| ==> ArgOf(f, calls[k], x).Some?)
            && (k < |calls| ==> Covers(Some(r), Eval(p, w, calls[k].scope, env, ArgOf(f, calls[k], x).value, t)))
    decreases p.nodes - seen, 4, |calls|
  {
    if calls != [] {
      var c := calls[0];
      var arg := ArgOf(f, c, x).value;
      assert KnownSite(c, p.nodes);
      ArgIsKnown(f, c, x, p.nodes);
      var (v, b1) := Fold.Fold(p, c.scope, arg, seen, bound);
      if k == 0 {
        FoldIsSound(p, w, c.scope, {}, c.loops, arg, seen, bound, env, t);
        CallsSound(p, w, f, x, calls[1..], AddNew(out, v.value), seen, b1, |calls|, env, t);
      } else {
        CallsSound(p, w, f, x, calls[1..], AddNew(out, v.value), seen, b1, k - 1, env, t);
      }
    }
  }

  /** What a name that is no loop variable stands for is covered. */
  lemma {:induction false} LocalSound(p: Program, w: World, s: Scope, x: string, seen: set<nat>, bound: Bound, v: Value)
    requires Sourced(p) && KnownScope(s, p.nodes) && Justified(p, w, s) && TidyName(p, s, {}, {}, x, seen, bound)
    requires LocalTo(s.func, x) && w.stack.Frame? && (x, v) in w.stack.vals
    ensures Covers(FoldName(p, s, x, seen, bound).0, Some(v))
    decreases p.nodes - seen, 5
  {
    var f := s.func.value;
    if Local(f, x).Some? {
      var k := Local(f, x).value;
      assert FromOneOf(p, w, s, f.binds, x, v);
      var i :| 0 <= i < |f.binds| && f.binds[i].name == x && FromBind(p, w, s, f.binds[i], v);
      assert i == k;
      var t :| Eval(p, w, s, map[], f.binds[k].e, t) == Some(v);
      FoldIsSound(p, w, s, {}, {}, f.binds[k].e, seen, bound, map[], t);
    } else if ParamValues(p, f, x, seen, bound).0.Some? {
      var calls := CallsTo(p, f.name);
      assert FromCall(p, w, f, x, v);
      var k := w.stack.site.value;
      CallsSound(p, CallerOf(w), f, x, calls, [], seen, bound, k, w.stack.loops, End);
      var arg := ArgOf(f, calls[k], x).value;
      var t :| Eval(p, CallerOf(w), calls[k].scope, w.stack.loops, arg, t) == Some(v);
      CallsSound(p, CallerOf(w), f, x, calls, [], seen, bound, k, w.stack.loops, t);
    } else {
      UnkeptHasNone(p, s.mod, x, seen, ParamValues(p, f, x, seen, bound).1);
    }
  }

  lemma {:induction false} NameSound(p: Program, w: World, s: Scope, known: set<string>, alien: set<string>, e: Expr,
                                     seen: set<nat>, bound: Bound, env: Env, t: Trace)
    requires e.Name? && e.id !in seen && t.Step? && Sourced(p) && KnownScope(s, p.nodes) && Known(e, p.nodes)
    requires Justified(p, w, s) && Tidy(p, s, known, alien, e, seen, bound) && Agree(env, bound, known, alien)
    ensures Covers(Fold.Fold(p, s, e, seen, bound).0, Eval(p, w, s, env, e, t))
    decreases p.nodes - seen, 0
  {
    var x := e.x;
    var now := seen + {e.id};
    assert Fold.Fold(p, s, e, seen, bound) == FoldName(p, s, x, now, bound);
    assert TidyName(p, s, known, alien, x, now, bound);
    if x in env {
      if x !in bound {
        UnfollowedHasNone(p, s, x, now, bound);
      }
    } else if Stands(p, w, s, x, t.other) {
      assert TidyName(p, s, {}, {}, x, now, bound);
      if LocalTo(s.func, x) {
        LocalSound(p, w, s, x, now, bound, t.other);
      } else {
        if s.func.Some? {
          NotLocal(s.func.value, x);
        }
        GlobalSound(p, w, s.mod, x, now, bound, t.other);
      }
    }
  }

  lemma NotLocal(f: Func, x: string)
    requires !LocalTo(Some(f), x)
    ensures Local(f, x).None?
  {
    assert forall i :: 0 <= i < |f.binds| ==> f.binds[i].name != x;
  }

  lemma {:induction false} AddSound(p: Program, w: World, s: Scope, known: set<string>, alien: set<string>, e: Expr,
                                     seen: set<nat>, bound: Bound, env: Env, t: Trace)
    requires e.Add? && e.id !in seen && t.Step? && Sourced(p) && KnownScope(s, p.nodes) && Known(e, p.nodes)
    requires Justified(p, w, s) && Tidy(p, s, known, alien, e, seen, bound) && Agree(env, bound, known, alien)
    ensures Covers(Fold.Fold(p, s, e, seen, bound).0, Eval(p, w, s, env, e, t))
    decreases p.nodes - seen, 0
  {
    var now := seen + {e.id};
    var (l, b1) := Fold.Fold(p, s, e.left, now, bound);
    FoldIsSound(p, w, s, known, alien, e.left, now, bound, env, t.a);
    if Truthy(l) {
      var r := Fold.Fold(p, s, e.right, now, b1).0;
      FoldIsSound(p, w, s, known, alien, e.right, now, b1, env, t.b);
      AddCovers(l, r, Eval(p, w, s, env, e.left, t.a), Eval(p, w, s, env, e.right, t.b));
    }
  }

  lemma {:induction false} IfSound(p: Program, w: World, s: Scope, known: set<string>, alien: set<string>, e: Expr,
                                     seen: set<nat>, bound: Bound, env: Env, t: Trace)
    requires e.If? && e.id !in seen && t.Step? && Sourced(p) && KnownScope(s, p.nodes) && Known(e, p.nodes)
    requires Justified(p, w, s) && Tidy(p, s, known, alien, e, seen, bound) && Agree(env, bound, known, alien)
    ensures Covers(Fold.Fold(p, s, e, seen, bound).0, Eval(p, w, s, env, e, t))
    decreases p.nodes - seen, 0
  {
    var now := seen + {e.id};
    var (l, b1) := Fold.Fold(p, s, e.body, now, bound);
    if t.pick == 0 {
      FoldIsSound(p, w, s, known, alien, e.body, now, bound, env, t.a);
    } else if Truthy(l) {
      FoldIsSound(p, w, s, known, alien, e.orelse, now, b1, env, t.b);
    }
  }

  lemma {:induction false} ReplaceSound(p: Program, w: World, s: Scope, known: set<string>, alien: set<string>, e: Expr,
                                     seen: set<nat>, bound: Bound, env: Env, t: Trace)
    requires e.Replace? && e.id !in seen && t.Step? && Sourced(p) && KnownScope(s, p.nodes) && Known(e, p.nodes)
    requires Justified(p, w, s) && Tidy(p, s, known, alien, e, seen, bound) && Agree(env, bound, known, alien)
    ensures Covers(Fold.Fold(p, s, e, seen, bound).0, Eval(p, w, s, env, e, t))
    decreases p.nodes - seen, 0
  {
    hide Sourced, KnownScope, Justified, ReplaceEach, EvalReplace, Settled;
    var now := seen + {e.id};
    var (v, b1) := Fold.Fold(p, s, e.base, now, bound);
    FoldIsSound(p, w, s, known, alien, e.base, now, bound, env, t.a);
    if Truthy(v) {
      var (u, b2) := Fold.Fold(p, s, e.what, now, b1);
      var y := Fold.Fold(p, s, e.put, now, b2).0;
      FoldIsSound(p, w, s, known, alien, e.what, now, b1, env, t.b);
      FoldIsSound(p, w, s, known, alien, e.put, now, b2, env, t.c);
      if Single(u) && Single(y) && CountOf(e.count).Some? {
        var v1, u1 := Eval(p, w, s, env, e.base, t.a), Eval(p, w, s, env, e.what, t.b);
        var y1 := Eval(p, w, s, env, e.put, t.c);
        if v1.Some? && u1.Some? && y1.Some? {
          ReplaceCovers(v.value, u.value[0], y.value[0], e.count, v1.value.s, t);
        }
      }
    }
  }

  lemma {:induction false} JoinSound(p: Program, w: World, s: Scope, known: set<string>, alien: set<string>, e: Expr,
                                     seen: set<nat>, bound: Bound, env: Env, t: Trace)
    requires e.Join? && e.id !in seen && t.Step? && Sourced(p) && KnownScope(s, p.nodes) && Known(e, p.nodes)
    requires Justified(p, w, s) && Tidy(p, s, known, alien, e, seen, bound) && Agree(env, bound, known, alien)
    ensures Covers(Fold.Fold(p, s, e, seen, bound).0, Eval(p, w, s, env, e, t))
    decreases p.nodes - seen, 0
  {
    var now := seen + {e.id};
    var (v, b1) := Fold.Fold(p, s, e.base, now, bound);
    FoldIsSound(p, w, s, known, alien, e.base, now, bound, env, t.a);
    if Single(v) {
      ItemsSound(p, w, s, known, alien, e.arg, now, b1, env, t.b);
      JoinCovers(v, Items(p, s, e.arg, now, b1).0, Eval(p, w, s, env, e.base, t.a),
          EvalItems(p, w, s, env, e.arg, t.b));
    }
  }

  lemma {:induction false} JoinedSound(p: Program, w: World, s: Scope, known: set<string>, alien: set<string>, e: Expr,
                                     seen: set<nat>, bound: Bound, env: Env, t: Trace)
    requires e.Joined? && e.id !in seen && t.Step? && Sourced(p) && KnownScope(s, p.nodes) && Known(e, p.nodes)
    requires Justified(p, w, s) && Tidy(p, s, known, alien, e, seen, bound) && Agree(env, bound, known, alien)
    ensures Covers(Fold.Fold(p, s, e, seen, bound).0, Eval(p, w, s, env, e, t))
    decreases p.nodes - seen, 0
  {
    var now := seen + {e.id};
    PartsSound(p, w, s, known, alien, e.parts, [""], now, bound, env, t.a, "");
    var text := EvalParts(p, w, s, env, e.parts, t.a);
    assert text.Some? ==> "" + text.value == text.value;
  }

  lemma {:induction false} FoldIsSound(p: Program, w: World, s: Scope, known: set<string>, alien: set<string>, e: Expr,
                                       seen: set<nat>, bound: Bound, env: Env, t: Trace)
    requires Sourced(p) && KnownScope(s, p.nodes) && Known(e, p.nodes)
    requires Justified(p, w, s) && Tidy(p, s, known, alien, e, seen, bound) && Agree(env, bound, known, alien)
    ensures Covers(Fold.Fold(p, s, e, seen, bound).0, Eval(p, w, s, env, e, t))
    decreases p.nodes - seen, 1
  {
    if e.id !in seen && t.Step? {
      match e {
        case Add(_, _, _) => AddSound(p, w, s, known, alien, e, seen, bound, env, t);
        case Joined(_, _) => JoinedSound(p, w, s, known, alien, e, seen, bound, env, t);
        case If(_, _, _) => IfSound(p, w, s, known, alien, e, seen, bound, env, t);
        case Replace(_, _, _, _, _) => ReplaceSound(p, w, s, known, alien, e, seen, bound, env, t);
        case Join(_, _, _) => JoinSound(p, w, s, known, alien, e, seen, bound, env, t);
        case Name(_, _) => NameSound(p, w, s, known, alien, e, seen, bound, env, t);
        case _ =>
      }
    }
  }

  lemma AddCovers(l: Option<seq<string>>, r: Option<seq<string>>, v: Option<Value>, w: Option<Value>)
    requires Covers(l, v) && Covers(r, w)
    ensures l.Some? && r.Some? && v.Some? && w.Some? ==>
              v.value.Text? && w.value.Text? && v.value.s + w.value.s in Product(l.value, r.value)
  {
    if l.Some? && r.Some? && v.Some? && w.Some? {
      ProductHas(l.value, r.value, v.value.s, w.value.s);
    }
  }

  lemma ReplaceCovers(base: seq<string>, what: string, put: string, count: Count, v: string, t: Trace)
    requires t.Step? && v in base && CountOf(count).Some? && (count.Dynamic? ==> Settled(base, what, put))
    ensures Covers(Some(ReplaceEach(base, what, put, CountOf(count).value)), EvalReplace(v, what, put, count, t))
  {
    ReplaceHas(base, what, put, CountOf(count).value, v);
    if count.Dynamic? {
      CountIsIdle(v, what, put, -1);
      CountIsIdle(v, what, put, t.pick);
    }
  }

  lemma JoinCovers(v: Option<seq<string>>, items: Option<seq<string>>, w: Option<Value>, vs: Option<seq<Value>>)
    requires Single(v) && Covers(v, w) && SameItems(items, vs)
    ensures items.Some? && w.Some? && vs.Some? ==>
              && w.value.Text? && AllText(vs.value)
              && PyJoin(v.value[0], items.value) == PyJoin(w.value.s, Strings(vs.value))
  {
    if items.Some? && w.Some? && vs.Some? {
      assert Strings(vs.value) == items.value;
    }
  }

  ghost predicate SameItems(folded: Option<seq<string>>, vs: Option<seq<Value>>) {
    folded.Some? && vs.Some? ==> vs.value == Texts(folded.value)
  }

  lemma {:induction false} PartsSound(p: Program, w: World, s: Scope, known: set<string>, alien: set<string>,
                                      parts: Parts, out: seq<string>, seen: set<nat>, bound: Bound, env: Env,
                                      t: Trace, before: string)
    requires Sourced(p) && KnownScope(s, p.nodes) && KnownParts(parts, p.nodes)
    requires Justified(p, w, s) && TidyParts(p, s, known, alien, parts, out, seen, bound)
        && Agree(env, bound, known, alien)
    requires before in out
    ensures var r, text := FoldParts(p, s, parts, out, seen, bound).0, EvalParts(p, w, s, env, parts, t);
            r.Some? && text.Some? ==> before + text.value in r.value
    decreases p.nodes - seen, 2, parts
  {
    hide Product;
    if t.End? || parts.NoParts? {
      assert before + "" == before;
      return;
    }
    var rest := EvalParts(p, w, s, env, parts.tail, t.b);
    match parts {
      case Lit(c, tail) =>
        ProductHas(out, [c], before, c);
        PartsSound(p, w, s, known, alien, tail, Product(out, [c]), seen, bound, env, t.b, before + c);
        if rest.Some? {
          Regroup(before, c, rest.value);
        }
      case Hole(e, tail) =>
        var (v, b1) := Fold.Fold(p, s, e, seen, bound);
        FoldIsSound(p, w, s, known, alien, e, seen, bound, env, t.a);
        var u := Eval(p, w, s, env, e, t.a);
        if Truthy(v) && u.Some? && |out| * |v.value| <= MAX {
          ProductHas(out, v.value, before, u.value.s);
          PartsSound(p, w, s, known, alien, tail, Product(out, v.value), seen, b1, env, t.b, before + u.value.s);
          if rest.Some? {
            Regroup(before, u.value.s, rest.value);
          }
        }
      case Spec(_) =>
    }
  }

  lemma {:induction false} ItemsSound(p: Program, w: World, s: Scope, known: set<string>, alien: set<string>, e: Expr,
                                      seen: set<nat>, bound: Bound, env: Env, t: Trace)
    requires Sourced(p) && KnownScope(s, p.nodes) && Known(e, p.nodes)
    requires Justified(p, w, s) && TidyItems(p, s, known, alien, e, seen, bound) && Agree(env, bound, known, alien)
    ensures SameItems(Items(p, s, e, seen, bound).0, EvalItems(p, w, s, env, e, t))
    decreases p.nodes - seen, 2, e
  {
    if t.Step? {
      match e {
        case List(_, elts) => AllSound(p, w, s, known, alien, elts, seen, bound, env, t.a);
        case Comp(_, elt, x, iter) =>
          var (values, b1) := Items(p, s, iter, seen, bound);
          ItemsSound(p, w, s, known, alien, iter, seen, bound, env, t.a);
          if values.Some? {
            EachSound(p, w, s, known, alien, elt, x, values.value, seen, b1, env, t.b);
          }
        case _ =>
      }
    }
  }

  lemma {:induction false} AllSound(p: Program, w: World, s: Scope, known: set<string>, alien: set<string>, es: Exprs,
                                    seen: set<nat>, bound: Bound, env: Env, t: Trace)
    requires Sourced(p) && KnownScope(s, p.nodes) && KnownAll(es, p.nodes)
    requires Justified(p, w, s) && TidyAll(p, s, known, alien, es, seen, bound) && Agree(env, bound, known, alien)
    ensures SameItems(FoldAll(p, s, es, seen, bound).0, EvalAll(p, w, s, env, es, t))
    decreases p.nodes - seen, 2, es
  {
    if es.Exprs? && t.Step? {
      var (v, b1) := Fold.Fold(p, s, es.head, seen, bound);
      FoldIsSound(p, w, s, known, alien, es.head, seen, bound, env, t.a);
      AllSound(p, w, s, known, alien, es.tail, seen, b1, env, t.b);
    }
  }

  lemma AgreeInside(env: Env, bound: Bound, known: set<string>, alien: set<string>, x: string, v: string)
    requires Agree(env, bound, known, alien)
    ensures Agree(env[x := Text(v)], bound[x := v], known + {x}, alien - {x})
  {
  }

  lemma AgreeWithin(env: Env, bound: Bound, less: Bound, known: set<string>, alien: set<string>)
    requires Agree(env, bound, known, alien)
    requires forall y :: y in less && y in known ==> y in bound && less[y] == bound[y]
    ensures Agree(env, less, known, alien)
  {
  }

  lemma TextsTail(values: seq<string>)
    requires values != []
    ensures Texts(values) != [] && Texts(values)[0] == Text(values[0]) && Texts(values)[1..] == Texts(values[1..])
  {
  }

  lemma EachCovers(v: Option<seq<string>>, u: Option<Value>, rest: Option<seq<string>>, vs: Option<seq<Value>>)
    requires Single(v) && Covers(v, u) && SameItems(rest, vs)
    ensures rest.Some? && u.Some? && vs.Some? ==> [u.value] + vs.value == Texts(v.value + rest.value)
  {
  }

  /** A folded comprehension is, string by string, the list the program builds. */
  lemma {:induction false} EachSound(p: Program, w: World, s: Scope, known: set<string>, alien: set<string>, elt: Expr,
                                     x: string, values: seq<string>, seen: set<nat>, bound: Bound, env: Env, t: Trace)
    requires Sourced(p) && KnownScope(s, p.nodes) && Known(elt, p.nodes)
    requires Justified(p, w, s) && TidyEach(p, s, known, alien, elt, x, values, seen, bound)
        && Agree(env, bound, known, alien)
    ensures SameItems(FoldEach(p, s, elt, x, values, seen, bound).0, EvalEach(p, w, s, env, elt, x, Texts(values), t))
    decreases p.nodes - seen, 2, elt, |values|
  {
    if values != [] && t.Step? {
      hide Sourced, KnownScope, Justified, Agree, Covers, Texts, Single;
      var b0, inner := bound[x := values[0]], env[x := Text(values[0])];
      var (v, b1) := Fold.Fold(p, s, elt, seen, b0);
      AgreeInside(env, bound, known, alien, x, values[0]);
      FoldIsSound(p, w, s, known + {x}, alien - {x}, elt, seen, b0, inner, t.a);
      if Single(v) {
        TextsTail(values);
        AgreeWithin(env, bound, b1 - {x}, known, alien);
        EachSound(p, w, s, known, alien, elt, x, values[1..], seen, b1 - {x}, env, t.b);
        EachCovers(v, Eval(p, w, s, inner, elt, t.a), FoldEach(p, s, elt, x, values[1..], seen, b1 - {x}).0,
            EvalEach(p, w, s, env, elt, x, Texts(values[1..]), t.b));
      }
    }
  }

  /**
   The folder's promise: in every world the program can be in while it evaluates
   the expression, whatever the comprehensions it stands in bind, under any
   branch choices and any call sites, the value is one of the strings it folds to.
   */
  lemma FoldCoversEveryValue(p: Program, w: World, s: Scope, e: Expr, env: Env, t: Trace)
    requires Sourced(p) && KnownScope(s, p.nodes) && Known(e, p.nodes)
    requires Justified(p, w, s) && Tidy(p, s, {}, env.Keys, e, {}, map[])
    ensures Covers(Fold.Fold(p, s, e, {}, map[]).0, Eval(p, w, s, env, e, t))
  {
    FoldIsSound(p, w, s, {}, env.Keys, e, {}, map[], env, t);
  }
}
