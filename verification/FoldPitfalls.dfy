/**
 Three ways in which the folder answers with strings the program never sends, and two in which
 it answers with too many, each with its exact condition.
 */
module FoldPitfalls {
  import opened Wrappers
  import opened FoldSyntax
  import opened FoldText
  import opened Fold
  import opened FoldSemantics
  import opened FoldTidy
  import opened FoldSound
  import opened FoldReads
  import opened FoldWorlds
  import opened FoldExact

  /** In every world the program can be in, the value is one of the strings the folder answers with. */
  ghost predicate Right(p: Program, s: Scope, e: Expr)
    requires Sourced(p) && KnownScope(s, p.nodes) && Known(e, p.nodes)
  {
    forall w, t :: Justified(p, w, s) ==> Covers(Fold.Fold(p, s, e, {}, map[]).0, Eval(p, w, s, map[], e, t))
  }

  lemma FoldsToConstant(p: Program, s: Scope, e: Expr, seen: set<nat>, bound: Bound)
    requires Sourced(p) && KnownScope(s, p.nodes) && Known(e, p.nodes) && e.Const? && e.id !in seen
    ensures Fold.Fold(p, s, e, seen, bound) == (Some([e.s]), bound)
  {
  }

  // ----- a parameter taken for a constant

  /** The expression a module's name is assigned, imports followed, and the module it stands in. */
  function ConstantOf(p: Program, mod: string, x: string): (d: Option<(string, Expr)>)
    requires Sourced(p)
    ensures d.Some? ==> Known(d.value.1, p.nodes)
    decreases p.depth(mod, x)
  {
    var i := Kept(BindsOf(p, mod), x);
    if i.None? then None else
      match BindsOf(p, mod)[i.value]
      case Assign(_, e) => Some((mod, e))
      case Import(_, source, attr) => ConstantOf(p, source, attr)
  }

  lemma {:induction false} FoldsTheConstant(p: Program, mod: string, x: string, seen: set<nat>, bound: Bound)
    requires Sourced(p)
    ensures FoldGlobal(p, mod, x, seen, bound) ==
            match ConstantOf(p, mod, x)
            case None => (None, bound)
            case Some(d) => Fold.Fold(p, Scope(d.0, None), d.1, seen, bound)
    decreases p.depth(mod, x)
  {
    var i := Kept(BindsOf(p, mod), x);
    if i.Some? && BindsOf(p, mod)[i.value].Import? {
      var b := BindsOf(p, mod)[i.value];
      FoldsTheConstant(p, b.source, b.attr, seen, bound);
    }
  }

  /** A parameter of a function that no call by its name reaches, such as a request handler. */
  predicate Uncalled(p: Program, s: Scope, x: string) {
    s.func.Some? && x in s.func.value.params && !BoundIn(s.func.value.binds, x) && Entry(p, s.func.value)
  }

  /** A parameter folds to what calls by the function's name pass, else to the module's constant. */
  lemma ParameterFolds(p: Program, s: Scope, e: Expr)
    requires Sourced(p) && KnownScope(s, p.nodes) && Known(e, p.nodes) && e.Name? && s.func.Some?
    requires !BoundIn(s.func.value.binds, e.x)
    ensures var passed := ParamValues(p, s.func.value, e.x, {e.id}, map[]).0;
            Fold.Fold(p, s, e, {}, map[]).0 ==
            if passed.Some? then passed else FoldGlobal(p, s.mod, e.x, {e.id}, map[]).0
  {
    var f := s.func.value;
    assert Local(f, e.x).None? by {
      assert forall i :: 0 <= i < |f.binds| ==> f.binds[i].name != e.x;
    }
    assert {} + {e.id} == {e.id};
    assert Fold.Fold(p, s, e, {}, map[]) == FoldName(p, s, e.x, {e.id}, map[]);
    var (v, b) := ParamValues(p, f, e.x, {e.id}, map[]);
    assert b == map[];
  }

  lemma UncalledIsAnything(p: Program, s: Scope, e: Expr, v: Value) returns (w: World, t: Trace)
    requires e.Name? && Uncalled(p, s, e.x)
    ensures Justified(p, w, s) && Eval(p, w, s, map[], e, t) == Some(v)
  {
    w := World(iset{}, Frame(iset{(e.x, v)}, None, map[], Base));
    t := Step(0, v, End, End, End);
    assert FromCall(p, w, s.func.value, e.x, v);
  }

  /**
   Then the answer is right exactly when there is none: the calls of other
   functions of the name give no list, and the module, imports followed, has no
   constant of the parameter's name, or one whose expression does not fold.
   */
  lemma UncalledParameter(p: Program, s: Scope, e: Expr)
    requires Sourced(p) && KnownScope(s, p.nodes) && Known(e, p.nodes) && e.Name? && Uncalled(p, s, e.x)
    ensures Right(p, s, e) <==>
            && ParamValues(p, s.func.value, e.x, {e.id}, map[]).0.None?
            && match ConstantOf(p, s.mod, e.x)
               case None => true
               case Some(d) => Fold.Fold(p, Scope(d.0, None), d.1, {e.id}, map[]).0.None?
  {
    ParameterFolds(p, s, e);
    FoldsTheConstant(p, s.mod, e.x, {e.id}, map[]);
    var w, t := UncalledIsAnything(p, s, e, Object(0));
    hide Fold.Fold, FoldGlobal, ParamValues, ConstantOf, Eval, Justified, Sourced, Known, KnownScope, Uncalled;
    assert Fold.Fold(p, s, e, {}, map[]).0.Some? ==>
        !Covers(Fold.Fold(p, s, e, {}, map[]).0, Eval(p, w, s, map[], e, t));
  }

  /** Call k reaches the function and leaves x out, or passes what the folder never follows. */
  predicate PassedUnfollowed(p: Program, f: Func, x: string, k: nat) {
    var calls := CallsTo(p, f.name);
    && k < |calls| && Reaches(calls[k], f)
    && (ArgOf(f, calls[k], x).None? || ArgOf(f, calls[k], x).value.Other?)
  }

  lemma {:induction false} NoValues(p: Program, f: Func, x: string, calls: seq<Site>, out: seq<string>, seen: set<nat>,
                                    bound: Bound, k: nat)
    requires Sourced(p) && (forall i :: 0 <= i < |calls| ==> KnownSite(calls[i], p.nodes)) && k < |calls|
    requires ArgOf(f, calls[k], x).None? || ArgOf(f, calls[k], x).value.Other?
    ensures FoldCalls(p, f, x, calls, out, seen, bound).0.None?
    decreases |calls|
  {
    hide Sourced, AddNew;
    var c := calls[0];
    var arg := ArgOf(f, c, x);
    if arg.Some? && k > 0 {
      assert KnownSite(c, p.nodes);
      ArgIsKnown(f, c, x, p.nodes);
      var (v, b1) := Fold.Fold(p, c.scope, arg.value, seen, bound);
      if Truthy(v) {
        NoValues(p, f, x, calls[1..], AddNew(out, v.value), seen, b1, k - 1);
      }
    }
  }

  lemma UnfollowedFolds(p: Program, s: Scope, e: Expr, k: nat)
    requires Sourced(p) && KnownScope(s, p.nodes) && Known(e, p.nodes) && e.Name? && s.func.Some?
    requires !BoundIn(s.func.value.binds, e.x) && PassedUnfollowed(p, s.func.value, e.x, k)
    ensures Fold.Fold(p, s, e, {}, map[]).0 == FoldGlobal(p, s.mod, e.x, {e.id}, map[]).0
  {
    var f := s.func.value;
    ParameterFolds(p, s, e);
    NoValues(p, f, e.x, CallsTo(p, f.name), [], {e.id}, map[], k);
  }

  lemma UnfollowedIsAnything(p: Program, s: Scope, e: Expr, k: nat, v: Value) returns (w: World, t: Trace)
    requires e.Name? && s.func.Some? && e.x in s.func.value.params && PassedUnfollowed(p, s.func.value, e.x, k)
    ensures Justified(p, w, s) && Eval(p, w, s, map[], e, t) == Some(v)
  {
    var f := s.func.value;
    var call := CallsTo(p, f.name)[k];
    var loops := map x | x in call.loops :: Text("");
    var stack := Frame(iset{(e.x, v)}, Some(k), loops, Fresh(call.scope));
    w := World(iset{}, stack);
    t := Step(0, v, End, End, End);
    var arg := ArgOf(f, call, e.x);
    if arg.Some? {
      assert Eval(p, CallerOf(w), call.scope, loops, arg.value, t) == Some(v);
    }
    assert FromCall(p, w, f, e.x, v);
    assert StackJustified(p, CallerOf(w), call.scope);
  }

  /**
   A parameter that some call leaves out, or passes what the folder never
   follows, does not fold either, and the answer is right exactly when there is
   no constant to fall back on.
   */
  lemma UnfollowedArgument(p: Program, s: Scope, e: Expr, k: nat)
    requires Sourced(p) && KnownScope(s, p.nodes) && Known(e, p.nodes) && e.Name? && s.func.Some?
    requires e.x in s.func.value.params && !BoundIn(s.func.value.binds, e.x)
    requires PassedUnfollowed(p, s.func.value, e.x, k)
    ensures Right(p, s, e) <==>
            match ConstantOf(p, s.mod, e.x)
            case None => true
            case Some(d) => Fold.Fold(p, Scope(d.0, None), d.1, {e.id}, map[]).0.None?
  {
    UnfollowedFolds(p, s, e, k);
    FoldsTheConstant(p, s.mod, e.x, {e.id}, map[]);
    var w, t := UnfollowedIsAnything(p, s, e, k, Object(0));
    hide Fold.Fold, FoldGlobal, ConstantOf, Eval, Justified, Sourced, Known, KnownScope, PassedUnfollowed;
    assert Fold.Fold(p, s, e, {}, map[]).0.Some? ==>
             !Covers(Fold.Fold(p, s, e, {}, map[]).0, Eval(p, w, s, map[], e, t));
  }

  /** `SQL = text` and a handler `def f(SQL)`: the parameter folds to the constant, and can be anything. */
  lemma ShadowedConstant(text: string)
    ensures var f := Func(0, "f", ["SQL"], []);
            var p := Program(map["m" := [Assign("SQL", Const(1, text))]], map[], {1, 2}, (mod, name) => 0);
            var s, e := Scope("m", Some(f)), Name(2, "SQL");
            && Sourced(p) && KnownScope(s, p.nodes) && Known(e, p.nodes)
            && Fold.Fold(p, s, e, {}, map[]).0 == Some([text]) && !Right(p, s, e)
  {
    var f := Func(0, "f", ["SQL"], []);
    var binds := [Assign("SQL", Const(1, text))];
    var p := Program(map["m" := binds], map[], {1, 2}, (mod, name) => 0);
    var s, e := Scope("m", Some(f)), Name(2, "SQL");
    assert BindsOf(p, "m") == binds && Kept(binds, "SQL") == Some(0);
    ParameterFolds(p, s, e);
    FoldsToConstant(p, Scope("m", None), Const(1, text), {2}, map[]);
    UncalledParameter(p, s, e);
  }

  // ----- a replacement count that is computed

  /**
   A count that is no constant is folded as "all". The answer is right for every
   count exactly when there is nothing to replace, or it is replaced by itself.
   */
  lemma ComputedCountIsTakenAsAll(p: Program, s: Scope, e: Expr, seen: set<nat>, bound: Bound, b: string,
                                  what: string, put: string)
    requires Sourced(p) && KnownScope(s, p.nodes) && Known(e, p.nodes) && e.Replace? && e.count.Dynamic?
        && e.id !in seen
    requires var now := seen + {e.id};
             var (base, b1) := Fold.Fold(p, s, e.base, now, bound);
             var (w, b2) := Fold.Fold(p, s, e.what, now, b1);
             base == Some([b]) && w == Some([what]) && Fold.Fold(p, s, e.put, now, b2).0 == Some([put])
    ensures Fold.Fold(p, s, e, seen, bound).0 == Some([PyReplace(b, what, put, -1)])
    ensures (forall n: int :: PyReplace(b, what, put, n) in Fold.Fold(p, s, e, seen, bound).0.value)
            <==> !Occurs(b, what) || what == put
  {
    assert ReplaceEach([b], what, put, -1) == [PyReplace(b, what, put, -1)];
    assert Fold.Fold(p, s, e, seen, bound).0 == Some([PyReplace(b, what, put, -1)]);
    CountMattersIff(b, what, put);
  }

  /** With constant texts that is when the answer is right in every world. */
  lemma ComputedCountOfConstants(p: Program, s: Scope, e: Expr)
    requires Sourced(p) && KnownScope(s, p.nodes) && Known(e, p.nodes) && e.Replace? && e.count.Dynamic?
    requires e.base.Const? && e.what.Const? && e.put.Const?
    requires e.id != e.base.id && e.id != e.what.id && e.id != e.put.id
    ensures Right(p, s, e) <==> !Occurs(e.base.s, e.what.s) || e.what.s == e.put.s
  {
    var now := {} + {e.id};
    FoldsToConstant(p, s, e.base, now, map[]);
    FoldsToConstant(p, s, e.what, now, map[]);
    FoldsToConstant(p, s, e.put, now, map[]);
    ComputedCountIsTakenAsAll(p, s, e, {}, map[], e.base.s, e.what.s, e.put.s);
    hide Fold.Fold, PyReplace, Occurs, Sourced, Known, KnownScope;
    var vs := Fold.Fold(p, s, e, {}, map[]).0;
    forall w, t | Justified(p, w, s) && Eval(p, w, s, map[], e, t).Some?
      ensures Eval(p, w, s, map[], e, t) == Some(Text(PyReplace(e.base.s, e.what.s, e.put.s, t.pick)))
    {
    }
    var leaf, empty := Step(0, Text(""), End, End, End), World(iset{}, Fresh(s));
    assert Justified(p, empty, s);
    forall n: int | Right(p, s, e) ensures PyReplace(e.base.s, e.what.s, e.put.s, n) in vs.value {
      var t := Step(n, Text(""), leaf, leaf, leaf);
      assert Eval(p, empty, s, map[], e, t) == Some(Text(PyReplace(e.base.s, e.what.s, e.put.s, n)));
      assert Covers(vs, Eval(p, empty, s, map[], e, t));
    }
  }

  // ----- a loop variable taken for another name

  /** A program of one module, "m", without functions or calls. */
  function OneModule(binds: seq<Bind>, nodes: set<nat>): Program {
    Program(map["m" := binds], map[], nodes, (mod, name) => 0)
  }

  lemma OneModuleIsSourced(binds: seq<Bind>, nodes: set<nat>)
    requires KnownBinds(binds, nodes) && forall i :: 0 <= i < |binds| ==> binds[i].Assign?
    ensures Sourced(OneModule(binds, nodes))
  {
  }

  const TOP := Scope("m", None)

  /** `y = z; d = y` */
  function Renamed(d: string, y: string, z: string): Program {
    OneModule([Assign(y, Const(1, z)), Assign(d, Name(2, y))], {1, 2, 3, 4, 5, 6, 7, 8})
  }

  /** `sep.join(d for c in [a])` */
  function JoinOver(sep: string, d: string, c: string, a: string): Expr {
    Join(3, Const(4, sep), Comp(5, Name(6, d), c, List(7, Exprs(Const(8, a), NoExprs))))
  }

  lemma KeptOfTwo(a: Bind, b: Bind)
    requires a.Assign? && b.Assign? && a.name != b.name
    ensures Kept([a, b], a.name) == Some(0) && Kept([a, b], b.name) == Some(1)
    ensures forall x :: x != a.name && x != b.name ==> Kept([a, b], x).None?
  {
    assert [a, b][..1] == [a] && [a][..0] == [];
    assert Kept([a], a.name) == Some(0);
  }

  /** While c is bound to a, d folds to a where its definition reads c, and to its own value otherwise. */
  lemma CapturedElement(d: string, y: string, z: string, c: string, a: string)
    requires d != y && d != c
    ensures var p := Renamed(d, y, z);
            && Sourced(p) && Known(Name(6, d), p.nodes)
            && Fold.Fold(p, TOP, Name(6, d), {3}, map[c := a]) == (Some([if y == c then a else z]), map[c := a])
  {
    var p, bound := Renamed(d, y, z), map[c := a];
    var binds := [Assign(y, Const(1, z)), Assign(d, Name(2, y))];
    OneModuleIsSourced(binds, p.nodes);
    KeptOfTwo(binds[0], binds[1]);
    assert BindsOf(p, "m") == binds;
    var now := {3} + {6};
    var deeper := now + {2};
    if y != c {
      FoldsToConstant(p, TOP, Const(1, z), deeper, bound);
      assert FoldGlobal(p, "m", y, deeper, bound) == (Some([z]), bound);
    }
    assert FoldName(p, TOP, y, deeper, bound) == (Some([if y == c then a else z]), bound);
    assert Fold.Fold(p, TOP, Name(2, y), now, bound) == FoldName(p, TOP, y, deeper, bound);
    assert FoldGlobal(p, "m", d, now, bound) == Fold.Fold(p, TOP, Name(2, y), now, bound);
    assert FoldName(p, TOP, d, now, bound) == FoldGlobal(p, "m", d, now, bound);
  }

  lemma OneItem(p: Program, s: Scope, list: Expr, seen: set<nat>, bound: Bound)
    requires Sourced(p) && KnownScope(s, p.nodes) && Known(list, p.nodes)
    requires list.List? && list.elts.Exprs? && list.elts.tail.NoExprs? && list.elts.head.Const?
    requires list.elts.head.id !in seen
    ensures Items(p, s, list, seen, bound) == (Some([list.elts.head.s]), bound)
  {
    FoldsToConstant(p, s, list.elts.head, seen, bound);
    assert FoldAll(p, s, NoExprs, seen, bound) == (Some([]), bound);
    assert [list.elts.head.s] + [] == [list.elts.head.s];
  }

  lemma OneTurn(p: Program, s: Scope, elt: Expr, x: string, v: string, w: string, seen: set<nat>)
    requires Sourced(p) && KnownScope(s, p.nodes) && Known(elt, p.nodes)
    requires Fold.Fold(p, s, elt, seen, map[x := v]).0 == Some([w])
    ensures FoldEach(p, s, elt, x, [v], seen, map[]).0 == Some([w])
  {
    assert map[][x := v] == map[x := v];
    assert [v][1..] == [] && [w] + [] == [w];
  }

  lemma CapturedFolds(sep: string, d: string, y: string, z: string, c: string, a: string)
    requires d != y && d != c
    ensures var p, e := Renamed(d, y, z), JoinOver(sep, d, c, a);
            Sourced(p) && Known(e, p.nodes) && Fold.Fold(p, TOP, e, {}, map[]).0 == Some([if y == c then a else z])
  {
    var p, e := Renamed(d, y, z), JoinOver(sep, d, c, a);
    var r := if y == c then a else z;
    CapturedElement(d, y, z, c, a);
    assert {} + {3} == {3};
    FoldsToConstant(p, TOP, e.base, {3}, map[]);
    OneItem(p, TOP, e.arg.iter, {3}, map[]);
    OneTurn(p, TOP, e.arg.elt, c, a, r, {3});
    hide Known, Sourced, Renamed;
    assert Items(p, TOP, e.arg, {3}, map[]).0 == Some([r]);
    assert PyJoin(sep, [r]) == r;
  }

  /** In every world d is z, whatever c is. */
  lemma RenamedIs(w: World, d: string, y: string, z: string, v: Value)
    requires d != y && Justified(Renamed(d, y, z), w, TOP)
    ensures ("m", d, v) in w.globals ==> v == Text(z)
  {
    var p, base := Renamed(d, y, z), World(w.globals, Base);
    var binds := [Assign(y, Const(1, z)), Assign(d, Name(2, y))];
    assert BindsOf(p, "m") == binds && BoundIn(binds, y) by {
      assert binds[0].name == y;
    }
    if ("m", d, v) in w.globals {
      assert FromOneOf(p, base, TOP, binds, d, v);
      var t :| Eval(p, base, TOP, map[], Name(2, y), t) == Some(v);
      assert FromOneOf(p, base, TOP, binds, y, v);
    }
  }

  /** In every world the expression is z, and in some world it is. */
  lemma CapturedRuns(sep: string, d: string, y: string, z: string, c: string, a: string)
    requires d != y && d != c
    ensures forall w, t :: Justified(Renamed(d, y, z), w, TOP)
                           && Eval(Renamed(d, y, z), w, TOP, map[], JoinOver(sep, d, c, a), t).Some?
                           ==> Eval(Renamed(d, y, z), w, TOP, map[], JoinOver(sep, d, c, a), t) == Some(Text(z))
    ensures exists w, t :: Justified(Renamed(d, y, z), w, TOP)
                           && Eval(Renamed(d, y, z), w, TOP, map[], JoinOver(sep, d, c, a), t) == Some(Text(z))
  {
    var p, e := Renamed(d, y, z), JoinOver(sep, d, c, a);
    forall w, t | Justified(p, w, TOP) && Eval(p, w, TOP, map[], e, t).Some?
      ensures Eval(p, w, TOP, map[], e, t) == Some(Text(z))
    {
      JoinRuns(w, t, sep, d, y, z, c, a);
    }
    var w, t := SomeJoin(sep, d, y, z, c, a);
  }

  lemma BoundNames(d: string, y: string, z: string)
    ensures var binds := BindsOf(Renamed(d, y, z), "m"); BoundIn(binds, d) && BoundIn(binds, y)
  {
    var binds := BindsOf(Renamed(d, y, z), "m");
    assert binds[0].name == y && binds[1].name == d;
  }

  lemma JoinRuns(w: World, t: Trace, sep: string, d: string, y: string, z: string, c: string, a: string)
    requires d != y && d != c && Justified(Renamed(d, y, z), w, TOP)
    requires Eval(Renamed(d, y, z), w, TOP, map[], JoinOver(sep, d, c, a), t).Some?
    ensures Eval(Renamed(d, y, z), w, TOP, map[], JoinOver(sep, d, c, a), t) == Some(Text(z))
  {
    var p, e := Renamed(d, y, z), JoinOver(sep, d, c, a);
    var items := t.b;
    BoundNames(d, y, z);
    var env := map[c := Text(a)];
    assert map[][c := Text(a)] == env;
    assert EvalItems(p, w, TOP, map[], e.arg, items).Some? && items.Step?;
    assert EvalItems(p, w, TOP, map[], e.arg.iter, items.a).Some?;
    ItemRuns(p, w, e.arg.iter, items.a);
    assert EvalEach(p, w, TOP, map[], e.arg.elt, c, [Text(a)], items.b).Some? && items.b.Step?;
    var v := Eval(p, w, TOP, env, e.arg.elt, items.b.a);
    RenamedIs(w, d, y, z, v.value);
    assert v == Some(Text(z));
    hide Renamed, Justified;
    assert EvalEach(p, w, TOP, map[], e.arg.elt, c, [Text(a)][1..], items.b.b) == Some([]);
    assert [Text(z)] + [] == [Text(z)];
    assert EvalItems(p, w, TOP, map[], e.arg, items) == Some([Text(z)]);
    assert Strings([Text(z)]) == [z];
  }

  lemma ItemRuns(p: Program, w: World, list: Expr, t: Trace)
    requires list.List? && list.elts.Exprs? && list.elts.tail.NoExprs? && list.elts.head.Const?
    requires EvalItems(p, w, TOP, map[], list, t).Some?
    ensures EvalItems(p, w, TOP, map[], list, t) == Some([Text(list.elts.head.s)])
  {
    var all := EvalAll(p, w, TOP, map[], list.elts, t.a);
    assert all.Some? && t.a.Step?;
    assert EvalAll(p, w, TOP, map[], NoExprs, t.a.b) == Some([]);
    assert Eval(p, w, TOP, map[], list.elts.head, t.a.a) == Some(Text(list.elts.head.s));
    assert [Text(list.elts.head.s)] + [] == [Text(list.elts.head.s)];
  }

  lemma SomeJoin(sep: string, d: string, y: string, z: string, c: string, a: string) returns (w: World, t: Trace)
    requires d != y && d != c
    ensures Justified(Renamed(d, y, z), w, TOP)
    ensures Eval(Renamed(d, y, z), w, TOP, map[], JoinOver(sep, d, c, a), t) == Some(Text(z))
  {
    var p, e := Renamed(d, y, z), JoinOver(sep, d, c, a);
    w := World(iset{("m", y, Text(z)), ("m", d, Text(z))}, Base);
    RenamedJustified(w, d, y, z);
    var leaf := Step(0, Text(z), End, End, End);
    var list := Step(0, Text(""), Step(0, Text(""), leaf, End, End), End, End);
    var items := Step(0, Text(""), list, Step(0, Text(""), leaf, End, End), End);
    t := Step(0, Text(""), leaf, items, End);
    assert EvalAll(p, w, TOP, map[], NoExprs, End) == Some([]);
    assert [Text(a)] + [] == [Text(a)] && [Text(a)][1..] == [];
    assert EvalAll(p, w, TOP, map[], e.arg.iter.elts, list.a) == Some([Text(a)]);
    assert EvalItems(p, w, TOP, map[], e.arg.iter, list) == Some([Text(a)]);
    assert map[][c := Text(a)] == map[c := Text(a)];
    assert Eval(p, w, TOP, map[c := Text(a)], e.arg.elt, leaf) == Some(Text(z));
    assert EvalEach(p, w, TOP, map[], e.arg.elt, c, [], End) == Some([]);
    assert [Text(z)] + [] == [Text(z)];
    assert EvalItems(p, w, TOP, map[], e.arg, items) == Some([Text(z)]);
    assert Strings([Text(z)]) == [z];
  }

  lemma RenamedJustified(w: World, d: string, y: string, z: string)
    requires d != y && w == World(iset{("m", y, Text(z)), ("m", d, Text(z))}, Base)
    ensures Justified(Renamed(d, y, z), w, TOP)
  {
    var p := Renamed(d, y, z);
    var binds := BindsOf(p, "m");
    var leaf := Step(0, Text(z), End, End, End);
    assert binds[0] == Assign(y, Const(1, z)) && binds[1] == Assign(d, Name(2, y));
    assert Eval(p, w, TOP, map[], Const(1, z), leaf) == Some(Text(z));
    assert FromBind(p, w, TOP, binds[0], Text(z));
    assert Eval(p, w, TOP, map[], Name(2, y), leaf) == Some(Text(z));
    assert FromBind(p, w, TOP, binds[1], Text(z));
  }

  /**
   `y = z; d = y` and `sep.join(d for c in [a])`: the answer is right exactly
   when the loop variable is not the name d's definition reads, or has its value.
   */
  lemma LoopVariableIsCaptured(sep: string, d: string, y: string, z: string, c: string, a: string)
    requires d != y && d != c
    ensures var p, e := Renamed(d, y, z), JoinOver(sep, d, c, a);
            Sourced(p) && Known(e, p.nodes) && (Right(p, TOP, e) <==> y != c || a == z)
  {
    var p, e := Renamed(d, y, z), JoinOver(sep, d, c, a);
    CapturedFolds(sep, d, y, z, c, a);
    CapturedRuns(sep, d, y, z, c, a);
    hide Fold.Fold, Eval, Justified, Renamed, JoinOver, Known, Sourced;
    var w, t :| Justified(p, w, TOP) && Eval(p, w, TOP, map[], e, t) == Some(Text(z));
    assert Right(p, TOP, e) ==> Covers(Fold.Fold(p, TOP, e, {}, map[]).0, Eval(p, w, TOP, map[], e, t));
  }

  // ----- a name with two values, read twice

  /** `d = a if q else b` */
  function Branching(a: string, b: string): Program {
    OneModule([Assign("d", If(1, Const(2, a), Const(3, b)))], {1, 2, 3, 4, 5, 6})
  }

  /** `d + d` */
  const TWICE := Add(4, Name(5, "d"), Name(6, "d"))

  lemma BranchingFolds(a: string, b: string, e: Expr, seen: set<nat>)
    requires e.Name? && e.x == "d" && (e.id == 5 || e.id == 6) && seen == {4}
    ensures Sourced(Branching(a, b)) && Fold.Fold(Branching(a, b), TOP, e, seen, map[]) == (Some([a, b]), map[])
  {
    var p := Branching(a, b);
    var binds := [Assign("d", If(1, Const(2, a), Const(3, b)))];
    OneModuleIsSourced(binds, p.nodes);
    assert BindsOf(p, "m") == binds && Kept(binds, "d") == Some(0);
    var now := seen + {e.id};
    FoldsToConstant(p, TOP, Const(2, a), now + {1}, map[]);
    FoldsToConstant(p, TOP, Const(3, b), now + {1}, map[]);
    assert Fold.Fold(p, TOP, binds[0].e, now, map[]) == (Some([a, b]), map[]) by {
      assert [a] + [b] == [a, b];
    }
    assert FoldGlobal(p, "m", "d", now, map[]) == (Some([a, b]), map[]);
    assert FoldName(p, TOP, "d", now, map[]) == (Some([a, b]), map[]);
  }

  lemma FourSums(a: string, b: string)
    ensures Product([a, b], [a, b]) == [a + a, a + b, b + a, b + b]
  {
    assert [a, b][1..] == [b] && [b][1..] == [];
    assert Product([b], [a, b]) == [b + a, b + b] + Product([], [a, b]);
  }

  /**
   At one moment d has one value: the program takes the two plain sums and no
   other, so the four that are folded are exact only where they are the same.
   */
  lemma TwiceReadIsTooMany(a: string, b: string)
    ensures Sourced(Branching(a, b)) && Known(TWICE, Branching(a, b).nodes)
    ensures Fold.Fold(Branching(a, b), TOP, TWICE, {}, map[]).0 == Some([a + a, a + b, b + a, b + b])
    ensures forall v :: Takes(Branching(a, b), TOP, TWICE, v) <==> v == Text(a + a) || v == Text(b + b)
    ensures Takes(Branching(a, b), TOP, TWICE, Text(a + b)) <==> a == b
  {
    var p := Branching(a, b);
    BranchingFolds(a, b, Name(5, "d"), {4});
    BranchingFolds(a, b, Name(6, "d"), {4});
    FourSums(a, b);
    assert {} + {4} == {4};
    assert Fold.Fold(p, TOP, TWICE, {}, map[]).0 == Some([a + a, a + b, b + a, b + b]);
    forall v ensures Takes(p, TOP, TWICE, v) <==> v == Text(a + a) || v == Text(b + b) {
      if Takes(p, TOP, TWICE, v) {
        var w, t :| Justified(p, w, TOP) && OneMoment(w) && Eval(p, w, TOP, map[], TWICE, t) == Some(v);
        TwiceTakes(w, t, a, b, v);
      }
      TwiceIsTaken(a, b, true);
      TwiceIsTaken(a, b, false);
    }
    SumsDiffer(a, b);
  }

  lemma SumsDiffer(a: string, b: string)
    ensures a + b == a + a || a + b == b + b <==> a == b
  {
    assert (a + b)[|a|..] == b && (a + b)[..|a|] == a;
    assert (a + a)[|a|..] == a;
    if |a| == |b| {
      assert (b + b)[..|a|] == b;
    }
  }

  lemma TwiceIsTaken(a: string, b: string, first: bool)
    ensures Takes(Branching(a, b), TOP, TWICE, Text(if first then a + a else b + b))
  {
    var p, v := Branching(a, b), if first then a else b;
    var binds := BindsOf(p, "m");
    var branch := If(1, Const(2, a), Const(3, b));
    assert binds == [Assign("d", branch)] && binds[0].name == "d" && BoundIn(binds, "d");
    var w := World(iset{("m", "d", Text(v))}, Base);
    var leaf := Step(0, Text(v), End, End, End);
    var r := Step(if first then 0 else 1, Text(""), leaf, leaf, End);
    assert Eval(p, w, TOP, map[], branch, r) == Some(Text(v));
    assert FromBind(p, w, TOP, binds[0], Text(v));
    assert FromOneOf(p, w, TOP, binds, "d", Text(v));
    assert Justified(p, w, TOP) && OneMoment(w);
    assert Eval(p, w, TOP, map[], TWICE, Step(0, Text(""), leaf, leaf, End)) == Some(Text(v + v));
  }

  lemma TwiceTakes(w: World, t: Trace, a: string, b: string, v: Value)
    requires Justified(Branching(a, b), w, TOP) && OneMoment(w)
    requires Eval(Branching(a, b), w, TOP, map[], TWICE, t) == Some(v)
    ensures v == Text(a + a) || v == Text(b + b)
  {
    var p, base := Branching(a, b), World(w.globals, Base);
    var binds := BindsOf(p, "m");
    assert binds[0].name == "d" && BoundIn(binds, "d");
    var u := t.a.other;
    assert ("m", "d", u) in w.globals && ("m", "d", t.b.other) in w.globals;
    assert FromOneOf(p, base, TOP, binds, "d", u);
    var i :| 0 <= i < |binds| && binds[i].name == "d" && FromBind(p, base, TOP, binds[i], u);
    var branch := If(1, Const(2, a), Const(3, b));
    var r :| Eval(p, base, TOP, map[], branch, r) == Some(u);
    assert Eval(p, base, TOP, map[], branch, r) ==
           if r.pick == 0 then Eval(p, base, TOP, map[], Const(2, a), r.a)
           else Eval(p, base, TOP, map[], Const(3, b), r.b);
    assert u == Text(a) || u == Text(b);
  }

  // ----- two functions of one name

  const HERE := Scope("m", Some(Func(1, "f", ["x"], [])))

  /** Modules "m" and "n" each have an `f(x)`; m calls its own with a, n its own with b. */
  function TwoOfOneName(a: string, b: string): Program {
    Program(map[], map["f" := [Site(Scope("m", None), {1}, {}, [Const(1, a)], []),
                               Site(Scope("n", None), {2}, {}, [Const(2, b)], [])]], {1, 2, 3}, (mod, name) => 0)
  }

  lemma NewOfOne(out: seq<string>, v: string)
    ensures AddNew(out, [v]) == if v in out then out else out + [v]
  {
    assert [v][1..] == [];
  }

  lemma SharedNameIsKnown(a: string, b: string)
    ensures var p := TwoOfOneName(a, b); Sourced(p) && KnownScope(HERE, p.nodes) && Known(Name(3, "x"), p.nodes)
  {
    var p := TwoOfOneName(a, b);
    var f, calls := HERE.func.value, CallsTo(p, "f");
    assert ArgOf(f, calls[0], "x") == Some(Const(1, a)) && ArgOf(f, calls[1], "x") == Some(Const(2, b));
  }

  /** The two calls of the name: what each passes, and what that folds to. */
  lemma SharedNameCalls(a: string, b: string)
    requires Sourced(TwoOfOneName(a, b))
    ensures var p, f := TwoOfOneName(a, b), HERE.func.value;
            var calls := CallsTo(p, "f");
            && |calls| == 2 && calls[1..] == [calls[1]] && calls[1..][1..] == []
            && ArgOf(f, calls[0], "x") == Some(Const(1, a)) && ArgOf(f, calls[1], "x") == Some(Const(2, b))
            && Fold.Fold(p, calls[0].scope, Const(1, a), {3}, map[]) == (Some([a]), map[])
            && Fold.Fold(p, calls[1].scope, Const(2, b), {3}, map[]) == (Some([b]), map[])
  {
    var p, f := TwoOfOneName(a, b), HERE.func.value;
    var calls := CallsTo(p, "f");
    FoldsToConstant(p, calls[0].scope, Const(1, a), {3}, map[]);
    FoldsToConstant(p, calls[1].scope, Const(2, b), {3}, map[]);
  }

  lemma SharedNameFolds(a: string, b: string)
    requires Sourced(TwoOfOneName(a, b)) && KnownScope(HERE, TwoOfOneName(a, b).nodes)
    ensures var p, out := TwoOfOneName(a, b), if a == b then [a] else [a, b];
            && ParamValues(p, HERE.func.value, "x", {3}, map[]) == (Some(out), map[])
            && Fold.Fold(p, HERE, Name(3, "x"), {}, map[]).0 == Some(out)
  {
    SharedNameCalls(a, b);
    var p, out := TwoOfOneName(a, b), if a == b then [a] else [a, b];
    var f, calls := HERE.func.value, CallsTo(p, "f");
    NewOfOne([], a);
    NewOfOne([a], b);
    hide Sourced, KnownScope, AddNew;
    assert [] + [a] == [a] && [a] + [b] == [a, b] && {} + {3} == {3};
    var one, none := calls[1..], calls[1..][1..];
    assert FoldCalls(p, f, "x", none, out, {3}, map[]) == (Some(out), map[]);
    assert FoldCalls(p, f, "x", one, [a], {3}, map[]) == (Some(out), map[]);
    assert ParamValues(p, f, "x", {3}, map[]) == (Some(out), map[]);
    assert FoldName(p, HERE, "x", {3}, map[]) == (Some(out), map[]);
  }

  lemma SharedNameIsTidy(a: string, b: string)
    requires Sourced(TwoOfOneName(a, b)) && KnownScope(HERE, TwoOfOneName(a, b).nodes)
    ensures Tidy(TwoOfOneName(a, b), HERE, {}, {}, Name(3, "x"), {}, map[])
  {
    SharedNameCalls(a, b);
    SharedNameFolds(a, b);
    var p := TwoOfOneName(a, b);
    var f, calls := HERE.func.value, CallsTo(p, "f");
    hide Sourced, KnownScope, FoldCalls;
    var one, none := calls[1..], calls[1..][1..];
    assert Reaches(calls[0], f) && {} + {3} == {3};
    assert TidyCalls(p, f, "x", none, {3}, map[]) && TidyCalls(p, f, "x", one, {3}, map[]);
    assert TidyCalls(p, f, "x", calls, {3}, map[]);
    assert !Entry(p, f);
    assert Local(f, "x").None?;
    assert ParamValues(p, f, "x", {3}, map[]).0.Some?;
    assert TidyName(p, HERE, {}, {}, "x", {3}, map[]);
  }

  /** m's f is only ever given a, whatever world it runs in. */
  lemma SharedNameIs(a: string, b: string, w: World, t: Trace, v: Value)
    requires Justified(TwoOfOneName(a, b), w, HERE)
    requires Eval(TwoOfOneName(a, b), w, HERE, map[], Name(3, "x"), t) == Some(v)
    ensures v == Text(a)
  {
    var p := TwoOfOneName(a, b);
    var f, calls := HERE.func.value, CallsTo(p, "f");
    assert LocalTo(Some(f), "x") && ("x", v) in w.stack.vals;
    assert Reaches(calls[0], f);
    assert !FromOneOf(p, w, HERE, f.binds, "x", v);
    assert FromCall(p, w, f, "x", v);
    assert ArgOf(f, calls[0], "x") == Some(Const(1, a));
    var r :| Eval(p, CallerOf(w), calls[0].scope, w.stack.loops, Const(1, a), r) == Some(v);
  }

  lemma SharedNameIsTaken(a: string, b: string)
    ensures Takes(TwoOfOneName(a, b), HERE, Name(3, "x"), Text(a))
  {
    var p := TwoOfOneName(a, b);
    var f, calls := HERE.func.value, CallsTo(p, "f");
    var w := World(iset{}, Frame(iset{("x", Text(a))}, Some(0), map[], Base));
    var t := Step(0, Text(a), End, End, End);
    assert ArgOf(f, calls[0], "x") == Some(Const(1, a));
    assert Eval(p, CallerOf(w), calls[0].scope, map[], Const(1, a), t) == Some(Text(a));
    assert FromCall(p, w, f, "x", Text(a));
    assert StackJustified(p, CallerOf(w), calls[0].scope);
    assert OneValueEach(Base) && OneMoment(w);
    assert Eval(p, w, HERE, map[], Name(3, "x"), t) == Some(Text(a));
  }

  /**
   The folder gives m's parameter the arguments of n's calls as well: a tidy
   program, a right answer, and one string too many exactly when they differ.
   */
  lemma SharedNameIsTooMany(a: string, b: string)
    ensures var p, e := TwoOfOneName(a, b), Name(3, "x");
            && Sourced(p) && KnownScope(HERE, p.nodes) && Known(e, p.nodes)
            && Tidy(p, HERE, {}, {}, e, {}, map[])
            && Fold.Fold(p, HERE, e, {}, map[]).0 == Some(if a == b then [a] else [a, b])
            && (forall v :: Takes(p, HERE, e, v) <==> v == Text(a))
            && (Takes(p, HERE, e, Text(b)) <==> a == b)
  {
    var p, e := TwoOfOneName(a, b), Name(3, "x");
    SharedNameIsKnown(a, b);
    SharedNameFolds(a, b);
    SharedNameIsTidy(a, b);
    SharedNameIsTaken(a, b);
    forall v ensures Takes(p, HERE, e, v) <==> v == Text(a) {
      if Takes(p, HERE, e, v) {
        var w, t :| Justified(p, w, HERE) && OneMoment(w) && Eval(p, w, HERE, map[], e, t) == Some(v);
        SharedNameIs(a, b, w, t, v);
      }
    }
  }
}
