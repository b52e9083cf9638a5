/** Where no name with several values is read twice, every string an expression folds to is its value at some moment. */
module FoldExact {
  import opened Wrappers
  import opened Sequences
  import opened FoldSyntax
  import opened FoldText
  import opened Fold
  import opened FoldSemantics
  import opened FoldTidy
  import opened FoldSound
  import opened FoldReads
  import opened FoldWorlds

  function Pick(pick: int, v: string, a: Trace, b: Trace, c: Trace): Trace {
    Step(pick, Text(v), a, b, c)
  }

  /** What is asked of a world before it is made to say more. */
  ghost predicate Asked(p: Program, w: World, s: Scope, depth: nat, known: set<string>, alien: set<string>, e: Expr,
                        seen: set<nat>, bound: Bound, env: Env) {
    && Sourced(p) && KnownScope(s, p.nodes) && Known(e, p.nodes)
    && Good(p, w, s) && Tidy(p, s, known, alien, e, seen, bound) && Agree(env, bound, known, alien)
    && Clear(w, depth, ReadsOf(p, s, depth, e, seen, bound))
  }

  /** In the larger world the expression takes the value v. */
  ghost predicate Taken(p: Program, more: World, w: World, s: Scope, depth: nat, r: Reads, env: Env, e: Expr,
                        t: Trace, v: string) {
    Good(p, more, s) && r.Some? && GrewBy(more, w, depth, r.value.all) && Eval(p, more, s, env, e, t) == Some(Text(v))
  }

  // ----- lists of strings

  lemma {:induction false} ProductFrom(left: seq<string>, right: seq<string>, v: string) returns (a: string, b: string)
    requires v in Product(left, right)
    ensures a in left && b in right && v == a + b
  {
    var row := seq(|right|, i requires 0 <= i < |right| => left[0] + right[i]);
    assert Product(left, right) == row + Product(left[1..], right);
    if v in row {
      var i :| 0 <= i < |row| && row[i] == v;
      a, b := left[0], right[i];
    } else {
      a, b := ProductFrom(left[1..], right, v);
    }
  }

  lemma ReplacedFrom(base: seq<string>, what: string, put: string, n: int, v: string) returns (x: string)
    requires v in ReplaceEach(base, what, put, n)
    ensures x in base && v == PyReplace(x, what, put, n)
  {
    var i :| 0 <= i < |base| && ReplaceEach(base, what, put, n)[i] == v;
    x := base[i];
  }

  lemma TextsCons(v: string, rest: seq<string>)
    ensures Texts([v] + rest) == [Text(v)] + Texts(rest)
  {
  }

  lemma NotSeveral(vs: seq<string>, u: string, v: string)
    requires !SeveralValues(vs) && u in vs && v in vs
    ensures u == v
  {
    var i :| 0 <= i < |vs| && vs[i] == u;
    var j :| 0 <= j < |vs| && vs[j] == v;
  }

  // ----- names

  lemma {:induction false} GlobalReached(p: Program, w: World, s: Scope, depth: nat, mod: string, x: string,
                                         seen: set<nat>, bound: Bound, v: string) returns (more: World)
    requires Sourced(p) && Good(p, w, s) && TidyGlobal(p, mod, x, seen, bound)
    requires var r := FoldGlobal(p, mod, x, seen, bound).0; r.Some? && v in r.value
    requires Clear(w, depth, ReadsOfGlobal(p, mod, x, seen, bound))
    ensures Good(p, more, s) && (mod, x, Text(v)) in more.globals
    ensures GrewBy(more, w, depth, ReadsOfGlobal(p, mod, x, seen, bound).value.all)
    decreases p.nodes - seen, 4, p.depth(mod, x)
  {
    var binds := BindsOf(p, mod);
    var k := Kept(binds, x).value;
    var vs := FoldGlobal(p, mod, x, seen, bound).0.value;
    if u :| (mod, x, u) in w.globals {
      assert Speaks(w, depth, GlobalKey(mod, x));
      GlobalSound(p, w, mod, x, seen, bound, u);
      NotSeveral(vs, u.s, v);
      more := w;
      GrewByNothing(w, depth);
    } else {
      var behind;
      match binds[k] {
        case Assign(_, e) =>
          var top := Scope(mod, None);
          var base := World(w.globals, Base);
          behind := ReadsOf(p, top, 0, e, seen, bound);
          GlobalsAlone(p, w, s, depth, mod, behind);
          var over, t := FoldReached(p, base, top, 0, {}, {}, e, seen, bound, map[], v);
          more := WithGlobals(p, w, s, depth, mod, over, behind.value.all);
          EvalStays(p, World(more.globals, Base), over, top, map[], e, t);
          assert FromBind(p, World(more.globals, Base), top, binds[k], Text(v));
        case Import(_, source, attr) =>
          behind := ReadsOfGlobal(p, source, attr, seen, bound);
          more := GlobalReached(p, w, s, depth, source, attr, seen, bound, v);
      }
      assert binds[k].name == x;
      assert FromOneOf(p, World(more.globals, Base), Scope(mod, None), binds, x, Text(v));
      assert !Speaks(more, depth, GlobalKey(mod, x));
      var grown := more;
      more := AddGlobal(p, grown, s, depth, mod, x, Text(v));
      GrewByBoth(more, grown, w, depth, {GlobalKey(mod, x)}, behind.value.all);
    }
  }

  /** A module's own code reads constants only. */
  lemma GlobalsAlone(p: Program, w: World, s: Scope, depth: nat, mod: string, r: Reads)
    requires Good(p, w, s) && Clear(w, depth, r)
    ensures Good(p, World(w.globals, Base), Scope(mod, None)) && Clear(World(w.globals, Base), 0, r)
  {
    var base := World(w.globals, Base);
    forall key | Speaks(base, 0, key) ensures Speaks(w, depth, key) {
      assert !StackSpeaks(Base, 0, key);
    }
  }

  /** What the k-th call passes for x, as `param_values` folds it, and the `BOUND` it starts from. */
  ghost function BoundAt(p: Program, f: Func, x: string, calls: seq<Site>, seen: set<nat>, bound: Bound, k: nat): Bound
    requires Sourced(p) && forall i :: 0 <= i < |calls| ==> KnownSite(calls[i], p.nodes)
    decreases k
  {
    if k == 0 || calls == [] || ArgOf(f, calls[0], x).None? then bound else
      assert KnownSite(calls[0], p.nodes);
      ArgIsKnown(f, calls[0], x, p.nodes);
      BoundAt(p, f, x, calls[1..], seen, Fold.Fold(p, calls[0].scope, ArgOf(f, calls[0], x).value, seen, bound).1,
          k - 1)
  }

  /** Each call's argument folds to some of the values, tidily and within the reads of them all. */
  lemma {:induction false} CallAt(p: Program, f: Func, depth: nat, x: string, calls: seq<Site>, out: seq<string>,
                                  seen: set<nat>, bound: Bound, k: nat)
    requires Sourced(p) && (forall i :: 0 <= i < |calls| ==> KnownSite(calls[i], p.nodes)) && k < |calls|
    requires TidyCalls(p, f, x, calls, seen, bound) && FoldCalls(p, f, x, calls, out, seen, bound).0.Some?
    requires ReadsOfCalls(p, f, depth, x, calls, seen, bound).Some?
    ensures KnownScope(calls[k].scope, p.nodes) && Reaches(calls[k], f)
    ensures ArgOf(f, calls[k], x).Some? && Known(ArgOf(f, calls[k], x).value, p.nodes)
    ensures var b, arg := BoundAt(p, f, x, calls, seen, bound, k), ArgOf(f, calls[k], x).value;
            var value := Fold.Fold(p, calls[k].scope, arg, seen, b).0;
            var r := ReadsOf(p, calls[k].scope, depth, arg, seen, b);
            && Truthy(value)
            && (forall v :: v in out || v in value.value ==> v in FoldCalls(p, f, x, calls, out, seen, bound).0.value)
            && Tidy(p, calls[k].scope, {}, calls[k].loops, arg, seen, b)
            && r.Some?
            && r.value.many <= ReadsOfCalls(p, f, depth, x, calls, seen, bound).value.many
            && r.value.all <= ReadsOfCalls(p, f, depth, x, calls, seen, bound).value.all
            && Within(b, bound)
    decreases |calls|
  {
    var c := calls[0];
    assert KnownSite(c, p.nodes);
    var arg := ArgOf(f, c, x).value;
    ArgIsKnown(f, c, x, p.nodes);
    var (value, b1) := Fold.Fold(p, c.scope, arg, seen, bound);
    var more := AddNew(out, value.value);
    OutStays(p, f, x, calls[1..], more, seen, b1);
    if k > 0 {
      CallAt(p, f, depth, x, calls[1..], more, seen, b1, k - 1);
    }
  }

  lemma {:induction false} OutStays(p: Program, f: Func, x: string, calls: seq<Site>, out: seq<string>,
                                    seen: set<nat>, bound: Bound)
    requires Sourced(p) && (forall i :: 0 <= i < |calls| ==> KnownSite(calls[i], p.nodes))
    requires FoldCalls(p, f, x, calls, out, seen, bound).0.Some?
    ensures forall v :: v in out ==> v in FoldCalls(p, f, x, calls, out, seen, bound).0.value
    decreases |calls|
  {
    if calls != [] {
      assert KnownSite(calls[0], p.nodes);
      ArgIsKnown(f, calls[0], x, p.nodes);
      var (value, b1) := Fold.Fold(p, calls[0].scope, ArgOf(f, calls[0], x).value, seen, bound);
      OutStays(p, f, x, calls[1..], AddNew(out, value.value), seen, b1);
    }
  }

  /** A value comes from one of the calls. */
  lemma {:induction false} CallFor(p: Program, f: Func, x: string, calls: seq<Site>, out: seq<string>, seen: set<nat>,
                                   bound: Bound, v: string) returns (k: nat)
    requires Sourced(p) && forall i :: 0 <= i < |calls| ==> KnownSite(calls[i], p.nodes)
    requires var r := FoldCalls(p, f, x, calls, out, seen, bound).0; r.Some? && v in r.value && v !in out
    ensures k < |calls| && KnownSite(calls[k], p.nodes) && ArgOf(f, calls[k], x).Some?
    ensures Known(ArgOf(f, calls[k], x).value, p.nodes)
    ensures var b := BoundAt(p, f, x, calls, seen, bound, k);
            var value := Fold.Fold(p, calls[k].scope, ArgOf(f, calls[k], x).value, seen, b).0;
            value.Some? && v in value.value
    decreases |calls|
  {
    hide Fold.Fold, Known, KnownScope, AddNew, Sourced;
    var c := calls[0];
    assert KnownSite(c, p.nodes);
    var arg := ArgOf(f, c, x).value;
    ArgIsKnown(f, c, x, p.nodes);
    var (value, b1) := Fold.Fold(p, c.scope, arg, seen, bound);
    if v in value.value {
      k := 0;
    } else {
      k := CallFor(p, f, x, calls[1..], AddNew(out, value.value), seen, b1, v);
      k := k + 1;
    }
  }

  /** The call the activation came by, or came by from now on, that passes v for x. */
  lemma {:induction false} SettleCall(p: Program, w: World, s: Scope, depth: nat, x: string, seen: set<nat>,
                                      bound: Bound, v: string) returns (more: World, k: nat)
    requires Sourced(p) && Good(p, w, s) && s.func.Some?
    requires var f := s.func.value;
             var r := ParamValues(p, f, x, seen, bound).0;
             var calls := CallsTo(p, f.name);
             && r.Some? && v in r.value
             && TidyCalls(p, f, x, calls, seen, bound)
             && ReadsOfCalls(p, f, depth + 1, x, calls, seen, bound).Some?
             && (SeveralValues(r.value) && |calls| > 1 ==> !Speaks(w, depth, CallKey(depth)))
    ensures Good(p, more, s) && GrewBy(more, w, depth, {CallKey(depth)}) && more.stack.vals == w.stack.vals
    ensures var f := s.func.value;
            var calls := CallsTo(p, f.name);
            && more.stack.site == Some(k) && k < |calls| && KnownSite(calls[k], p.nodes)
            && ArgOf(f, calls[k], x).Some? && Known(ArgOf(f, calls[k], x).value, p.nodes)
            && var b := BoundAt(p, f, x, calls, seen, bound, k);
               var value := Fold.Fold(p, calls[k].scope, ArgOf(f, calls[k], x).value, seen, b).0;
               value.Some? && v in value.value
  {
    var f := s.func.value;
    var calls := CallsTo(p, f.name);
    var vs := ParamValues(p, f, x, seen, bound).0.value;
    k := CallFor(p, f, x, calls, [], seen, bound, v);
    if w.stack.site.None? {
      CallAt(p, f, depth + 1, x, calls, [], seen, bound, k);
      more := ComeBy(p, w, s, depth, k);
    } else {
      more := w;
      StackExtendsSelf(w.stack);
      assert Speaks(w, depth, CallKey(depth));
      var j := w.stack.site.value;
      CallAt(p, f, depth + 1, x, calls, [], seen, bound, j);
      if |calls| > 1 {
        var u := Fold.Fold(p, calls[j].scope, ArgOf(f, calls[j], x).value, seen,
            BoundAt(p, f, x, calls, seen, bound, j)).0.value[0];
        NotSeveral(vs, u, v);
      }
      k := j;
      assert KnownSite(calls[k], p.nodes);
    }
  }

  /** What is read with a parameter: itself, the call, and the arguments. */
  lemma ParamReads(p: Program, s: Scope, depth: nat, x: string, seen: set<nat>, bound: Bound)
    requires Sourced(p) && KnownScope(s, p.nodes) && x !in bound && LocalTo(s.func, x)
    requires TidyName(p, s, {}, {}, x, seen, bound) && Local(s.func.value, x).None?
    requires ParamValues(p, s.func.value, x, seen, bound).0.Some?
    ensures var f, calls := s.func.value, CallsTo(p, s.func.value.name);
            var vs := ParamValues(p, f, x, seen, bound).0.value;
            && x in f.params && calls != [] && TidyCalls(p, f, x, calls, seen, bound)
            && FoldCalls(p, f, x, calls, [], seen, bound).0 == Some(vs)
            && ReadsOfName(p, s, depth, x, seen, bound) ==
                 With(LocalKey(depth, x), SeveralValues(vs),
                      With(CallKey(depth), SeveralValues(vs) && |calls| > 1,
                           ReadsOfCalls(p, f, depth + 1, x, calls, seen, bound)))
  {
    OnlyTheCalls(p, s, x, seen, bound);
  }

  /** The reads behind the call at hand are free, once the call is settled. */
  lemma ArgIsClear(met: World, w: World, depth: nat, behind: Reads, r: Reads, x: string, several: bool, many: bool)
    requires Clear(w, depth, With(LocalKey(depth, x), several, With(CallKey(depth), many, behind)))
    requires GrewBy(met, w, depth, {CallKey(depth)}) && met.stack.Frame? && r.Some?
    requires r.value.many <= behind.value.many && r.value.all <= behind.value.all
    ensures Clear(CallerOf(met), depth + 1, r)
  {
    forall key | key in r.value.many ensures !Speaks(CallerOf(met), depth + 1, key) {
      assert !Speaks(w, depth, key) && key != CallKey(depth);
      assert !Speaks(met, depth, key);
    }
  }

  lemma CallerIsGood(p: Program, w: World, s: Scope, k: nat)
    requires Good(p, w, s) && s.func.Some? && w.stack.site == Some(k)
    ensures k < |CallsTo(p, s.func.value.name)|
    ensures Good(p, CallerOf(w), CallsTo(p, s.func.value.name)[k].scope)
    ensures Agree(w.stack.loops, map[], {}, CallsTo(p, s.func.value.name)[k].loops)
  {
  }

  lemma AgreeOfNone(env: Env, bound: Bound, alien: set<string>)
    requires Agree(env, map[], {}, alien)
    ensures Agree(env, bound, {}, alien)
  {
  }

  lemma {:induction false} ParamReached(p: Program, w: World, s: Scope, depth: nat, x: string, seen: set<nat>,
                                        bound: Bound, v: string) returns (more: World)
    requires Sourced(p) && KnownScope(s, p.nodes) && Good(p, w, s) && x !in bound && LocalTo(s.func, x)
    requires TidyName(p, s, {}, {}, x, seen, bound) && Local(s.func.value, x).None?
    requires var r := ParamValues(p, s.func.value, x, seen, bound).0; r.Some? && v in r.value
    requires Clear(w, depth, ReadsOfName(p, s, depth, x, seen, bound)) && w.stack.Frame?
    requires forall u :: (x, u) !in w.stack.vals
    ensures Good(p, more, s) && (x, Text(v)) in more.stack.vals
    ensures GrewBy(more, w, depth, ReadsOfName(p, s, depth, x, seen, bound).value.all)
    decreases p.nodes - seen, 4
  {
    ParamReads(p, s, depth, x, seen, bound);
    hide Good, GrewBy, SaysMore, TidyName, ReadsOfName, ReadsOfCalls, ParamValues;
    hide Agree, Known, KnownSite, SeveralValues;
    var f := s.func.value;
    var calls := CallsTo(p, f.name);
    var vs := ParamValues(p, f, x, seen, bound).0.value;
    var behind := ReadsOfCalls(p, f, depth + 1, x, calls, seen, bound);
    var met, k := SettleCall(p, w, s, depth, x, seen, bound, v);
    var c, b := calls[k], BoundAt(p, f, x, calls, seen, bound, k);
    var arg := ArgOf(f, c, x).value;
    CallAt(p, f, depth + 1, x, calls, [], seen, bound, k);
    var r := ReadsOf(p, c.scope, depth + 1, arg, seen, b);
    ArgIsClear(met, w, depth, behind, r, x, SeveralValues(vs), SeveralValues(vs) && |calls| > 1);
    CallerIsGood(p, met, s, k);
    AgreeOfNone(met.stack.loops, b, c.loops);
    var caller, t := FoldReached(p, CallerOf(met), c.scope, depth + 1, {}, c.loops, arg, seen, b, met.stack.loops, v);
    more := ParamSettled(p, caller, met, w, s, depth, x, k, t, behind, v);
  }

  /** With the argument's value the parameter has its own. */
  lemma ParamSettled(p: Program, caller: World, met: World, w: World, s: Scope, depth: nat, x: string, k: nat, t: Trace,
                     behind: Reads, v: string) returns (more: World)
    requires Good(p, met, s) && s.func.Some? && x in s.func.value.params && met.stack.site == Some(k)
    requires k < |CallsTo(p, s.func.value.name)| && behind.Some? && (forall u :: (x, u) !in met.stack.vals)
    requires var c := CallsTo(p, s.func.value.name)[k];
             && ArgOf(s.func.value, c, x).Some? && Good(p, caller, c.scope)
             && Eval(p, caller, c.scope, met.stack.loops, ArgOf(s.func.value, c, x).value, t) == Some(Text(v))
    requires GrewBy(met, w, depth, {CallKey(depth)})
    requires exists all :: all <= behind.value.all && GrewBy(caller, CallerOf(met), depth + 1, all)
    ensures Good(p, more, s) && (x, Text(v)) in more.stack.vals
    ensures GrewBy(more, w, depth, behind.value.all + {CallKey(depth)} + {LocalKey(depth, x)})
  {
    var c := CallsTo(p, s.func.value.name)[k];
    var arg := ArgOf(s.func.value, c, x).value;
    assert GrewBy(caller, CallerOf(met), depth + 1, behind.value.all);
    var known := WithCaller(p, met, s, depth, caller, behind.value.all);
    assert CanBe(p, CallerOf(known), c.scope, known.stack.loops, arg, Text(v));
    assert FromCall(p, known, s.func.value, x, Text(v));
    more := AddLocal(p, known, s, depth, x, Text(v));
    GrewByBoth(more, known, met, depth, {LocalKey(depth, x)}, behind.value.all);
    GrewByBoth(more, met, w, depth, {LocalKey(depth, x)} + behind.value.all, {CallKey(depth)});
    assert {LocalKey(depth, x)} + behind.value.all + {CallKey(depth)}
        == behind.value.all + {CallKey(depth)} + {LocalKey(depth, x)};
  }

  lemma {:induction false} LocalReached(p: Program, w: World, s: Scope, depth: nat, x: string, seen: set<nat>,
                                        bound: Bound, v: string) returns (more: World)
    requires Sourced(p) && KnownScope(s, p.nodes) && Good(p, w, s) && x !in bound && LocalTo(s.func, x)
    requires TidyName(p, s, {}, {}, x, seen, bound)
    requires var r := FoldName(p, s, x, seen, bound).0; r.Some? && v in r.value
    requires Clear(w, depth, ReadsOfName(p, s, depth, x, seen, bound))
    ensures Good(p, more, s) && (x, Text(v)) in more.stack.vals
    ensures GrewBy(more, w, depth, ReadsOfName(p, s, depth, x, seen, bound).value.all)
    decreases p.nodes - seen, 5
  {
    var f := s.func.value;
    var vs := FoldName(p, s, x, seen, bound).0.value;
    if u :| (x, u) in w.stack.vals {
      assert Speaks(w, depth, LocalKey(depth, x));
      LocalSound(p, w, s, x, seen, bound, u);
      NotSeveral(vs, u.s, v);
      more := w;
      GrewByNothing(w, depth);
    } else if Local(f, x).Some? {
      var i := Local(f, x).value;
      var e := f.binds[i].e;
      var behind := ReadsOf(p, s, depth, e, seen, bound);
      var over, t := FoldReached(p, w, s, depth, {}, {}, e, seen, bound, map[], v);
      NotOfNearer(w.stack.caller, depth + 1, LocalKey(depth, x));
      assert !Speaks(over, depth, LocalKey(depth, x));
      assert CanBe(p, over, s, map[], e, Text(v));
      assert FromBind(p, over, s, f.binds[i], Text(v));
      more := AddLocal(p, over, s, depth, x, Text(v));
      GrewByBoth(more, over, w, depth, {LocalKey(depth, x)}, behind.value.all);
    } else {
      OnlyTheCalls(p, s, x, seen, bound);
      more := ParamReached(p, w, s, depth, x, seen, bound, v);
    }
  }

  /** A local that is not followed, or a parameter that does not fold, does not fold. */
  lemma OnlyTheCalls(p: Program, s: Scope, x: string, seen: set<nat>, bound: Bound)
    requires Sourced(p) && KnownScope(s, p.nodes) && x !in bound && LocalTo(s.func, x)
    requires TidyName(p, s, {}, {}, x, seen, bound) && Local(s.func.value, x).None?
    ensures FoldName(p, s, x, seen, bound).0 == ParamValues(p, s.func.value, x, seen, bound).0
  {
    if ParamValues(p, s.func.value, x, seen, bound).0.None? {
      UnkeptHasNone(p, s.mod, x, seen, ParamValues(p, s.func.value, x, seen, bound).1);
    }
  }

  // ----- expressions

  lemma {:induction false} NameReached(p: Program, w: World, s: Scope, depth: nat, known: set<string>,
                                       alien: set<string>, e: Expr, seen: set<nat>, bound: Bound, env: Env,
                                       v: string) returns (more: World, t: Trace)
    requires e.Name? && e.id !in seen && Asked(p, w, s, depth, known, alien, e, seen, bound, env)
    requires var r := Fold.Fold(p, s, e, seen, bound).0; r.Some? && v in r.value
    ensures Taken(p, more, w, s, depth, ReadsOf(p, s, depth, e, seen, bound), env, e, t, v)
    decreases p.nodes - seen, 0
  {
    var now := seen + {e.id};
    var x := e.x;
    assert Fold.Fold(p, s, e, seen, bound) == FoldName(p, s, x, now, bound);
    assert ReadsOf(p, s, depth, e, seen, bound) == ReadsOfName(p, s, depth, x, now, bound);
    assert TidyName(p, s, known, alien, x, now, bound);
    t := Pick(0, v, End, End, End);
    if x in bound {
      more := w;
      GrewByNothing(w, depth);
    } else {
      if x in env {
        UnfollowedHasNone(p, s, x, now, bound);
      }
      assert TidyName(p, s, {}, {}, x, now, bound);
      if LocalTo(s.func, x) {
        more := LocalReached(p, w, s, depth, x, now, bound, v);
      } else {
        if s.func.Some? {
          NotLocal(s.func.value, x);
        }
        more := GlobalReached(p, w, s, depth, s.mod, x, now, bound, v);
      }
    }
  }

  /** Two parts one after the other: what the first settles leaves the second free. */
  lemma Then(p: Program, last: World, mid: World, w: World, s: Scope, depth: nat, a: Reads, b: Reads)
    requires Both(a, b).Some? && GrewBy(mid, w, depth, a.value.all) && GrewBy(last, mid, depth, b.value.all)
    ensures GrewBy(last, w, depth, Both(a, b).value.all) && SaysMore(last, mid, s)
  {
    GrewByBoth(last, mid, w, depth, b.value.all, a.value.all);
    assert a.value.all + b.value.all == b.value.all + a.value.all;
  }

  /** Two expressions one after the other take a value each. */
  lemma {:induction false} TwoReached(p: Program, w: World, s: Scope, depth: nat, known: set<string>,
                                      alien: set<string>, a: Expr, b: Expr, seen: set<nat>, bound: Bound, env: Env,
                                      x: string, y: string) returns (more: World, ta: Trace, tb: Trace)
    requires Sourced(p) && KnownScope(s, p.nodes) && Known(a, p.nodes) && Known(b, p.nodes) && Good(p, w, s)
    requires Tidy(p, s, known, alien, a, seen, bound) && Agree(env, bound, known, alien)
    requires var (l, b1) := Fold.Fold(p, s, a, seen, bound);
             var r := Fold.Fold(p, s, b, seen, b1).0;
             && l.Some? && x in l.value && r.Some? && y in r.value
             && Tidy(p, s, known, alien, b, seen, b1)
             && Clear(w, depth, Both(ReadsOf(p, s, depth, a, seen, bound), ReadsOf(p, s, depth, b, seen, b1)))
    ensures Good(p, more, s)
    ensures var b1 := Fold.Fold(p, s, a, seen, bound).1;
            var both := Both(ReadsOf(p, s, depth, a, seen, bound), ReadsOf(p, s, depth, b, seen, b1));
            both.Some? && GrewBy(more, w, depth, both.value.all)
    ensures Eval(p, more, s, env, a, ta) == Some(Text(x)) && Eval(p, more, s, env, b, tb) == Some(Text(y))
    decreases p.nodes - seen, 2
  {
    hide Good, GrewBy, SaysMore;
    var b1 := Fold.Fold(p, s, a, seen, bound).1;
    var ra, rb := ReadsOf(p, s, depth, a, seen, bound), ReadsOf(p, s, depth, b, seen, b1);
    GrewByNothing(w, depth);
    ClearOfBoth(w, w, depth, ra, rb);
    var mid;
    mid, ta := FoldReached(p, w, s, depth, known, alien, a, seen, bound, env, x);
    ClearOfBoth(mid, w, depth, ra, rb);
    more, tb := FoldReached(p, mid, s, depth, known, alien, b, seen, b1, env, y);
    Then(p, more, mid, w, s, depth, ra, rb);
    EvalStays(p, more, mid, s, env, a, ta);
  }

  lemma {:induction false} ThreeReached(p: Program, w: World, s: Scope, depth: nat, known: set<string>,
                                        alien: set<string>, a: Expr, b: Expr, c: Expr, seen: set<nat>, bound: Bound,
                                        env: Env, x: string, y: string, z: string)
        returns (more: World, ta: Trace, tb: Trace, tc: Trace)
    requires Sourced(p) && KnownScope(s, p.nodes) && Good(p, w, s)
    requires Known(a, p.nodes) && Known(b, p.nodes) && Known(c, p.nodes)
    requires Tidy(p, s, known, alien, a, seen, bound) && Agree(env, bound, known, alien)
    requires var (l, b1) := Fold.Fold(p, s, a, seen, bound);
             var (r, b2) := Fold.Fold(p, s, b, seen, b1);
             var u := Fold.Fold(p, s, c, seen, b2).0;
             && l.Some? && x in l.value && r.Some? && y in r.value && u.Some? && z in u.value
             && Tidy(p, s, known, alien, b, seen, b1) && Tidy(p, s, known, alien, c, seen, b2)
             && Clear(w, depth, Both(ReadsOf(p, s, depth, a, seen, bound),
                                     Both(ReadsOf(p, s, depth, b, seen, b1), ReadsOf(p, s, depth, c, seen, b2))))
    ensures Good(p, more, s)
    ensures var b1 := Fold.Fold(p, s, a, seen, bound).1;
            var b2 := Fold.Fold(p, s, b, seen, b1).1;
            var all := Both(ReadsOf(p, s, depth, a, seen, bound),
                            Both(ReadsOf(p, s, depth, b, seen, b1), ReadsOf(p, s, depth, c, seen, b2)));
            all.Some? && GrewBy(more, w, depth, all.value.all)
    ensures Eval(p, more, s, env, a, ta) == Some(Text(x)) && Eval(p, more, s, env, b, tb) == Some(Text(y))
    ensures Eval(p, more, s, env, c, tc) == Some(Text(z))
    decreases p.nodes - seen, 3
  {
    hide Good, GrewBy, SaysMore, Agree, Sourced, KnownScope, Speaks;
    var b1 := Fold.Fold(p, s, a, seen, bound).1;
    var b2 := Fold.Fold(p, s, b, seen, b1).1;
    var ra := ReadsOf(p, s, depth, a, seen, bound);
    var rest := Both(ReadsOf(p, s, depth, b, seen, b1), ReadsOf(p, s, depth, c, seen, b2));
    GrewByNothing(w, depth);
    ClearOfBoth(w, w, depth, ra, rest);
    var mid;
    mid, ta := FoldReached(p, w, s, depth, known, alien, a, seen, bound, env, x);
    ClearOfBoth(mid, w, depth, ra, rest);
    AgreeWithin(env, bound, b1, known, alien);
    more, tb, tc := TwoReached(p, mid, s, depth, known, alien, b, c, seen, b1, env, y, z);
    Then(p, more, mid, w, s, depth, ra, rest);
    EvalStays(p, more, mid, s, env, a, ta);
  }

  lemma {:induction false} AddReached(p: Program, w: World, s: Scope, depth: nat, known: set<string>,
                                       alien: set<string>, e: Expr, seen: set<nat>, bound: Bound, env: Env,
                                       v: string) returns (more: World, t: Trace)
    requires e.Add? && e.id !in seen && Asked(p, w, s, depth, known, alien, e, seen, bound, env)
    requires var r := Fold.Fold(p, s, e, seen, bound).0; r.Some? && v in r.value
    ensures Taken(p, more, w, s, depth, ReadsOf(p, s, depth, e, seen, bound), env, e, t, v)
    decreases p.nodes - seen, 0
  {
    hide Good, GrewBy, SaysMore, Sourced, KnownScope, Speaks, Product;
    var now := seen + {e.id};
    var (l, b1) := Fold.Fold(p, s, e.left, now, bound);
    var x, y := ProductFrom(l.value, Fold.Fold(p, s, e.right, now, b1).0.value, v);
    var a, b;
    more, a, b := TwoReached(p, w, s, depth, known, alien, e.left, e.right, now, bound, env, x, y);
    t := Pick(0, v, a, b, End);
  }

  lemma {:induction false} IfReached(p: Program, w: World, s: Scope, depth: nat, known: set<string>,
                                     alien: set<string>, e: Expr, seen: set<nat>, bound: Bound, env: Env, v: string)
        returns (more: World, t: Trace)
    requires e.If? && e.id !in seen && Asked(p, w, s, depth, known, alien, e, seen, bound, env)
    requires var r := Fold.Fold(p, s, e, seen, bound).0; r.Some? && v in r.value
    ensures Taken(p, more, w, s, depth, ReadsOf(p, s, depth, e, seen, bound), env, e, t, v)
    decreases p.nodes - seen, 0
  {
    hide Good, Sourced, KnownScope, Speaks;
    var now := seen + {e.id};
    var (l, b1) := Fold.Fold(p, s, e.body, now, bound);
    var sub;
    if v in l.value {
      more, sub := FoldReached(p, w, s, depth, known, alien, e.body, now, bound, env, v);
      t := Pick(0, v, sub, End, End);
    } else {
      more, sub := FoldReached(p, w, s, depth, known, alien, e.orelse, now, b1, env, v);
      t := Pick(1, v, End, sub, End);
    }
  }

  /** A computed count takes all. */
  lemma ReplaceTakes(p: Program, w: World, s: Scope, e: Expr, env: Env, x: string, y: string, z: string, a: Trace,
                     b: Trace, c: Trace) returns (t: Trace)
    requires e.Replace? && CountOf(e.count).Some?
    requires Eval(p, w, s, env, e.base, a) == Some(Text(x)) && Eval(p, w, s, env, e.what, b) == Some(Text(y))
    requires Eval(p, w, s, env, e.put, c) == Some(Text(z))
    ensures Eval(p, w, s, env, e, t) == Some(Text(PyReplace(x, y, z, CountOf(e.count).value)))
  {
    hide PyReplace;
    t := Pick(-1, "", a, b, c);
  }

  lemma {:induction false} ReplaceReached(p: Program, w: World, s: Scope, depth: nat, known: set<string>,
                                       alien: set<string>, e: Expr, seen: set<nat>, bound: Bound, env: Env,
                                       v: string) returns (more: World, t: Trace)
    requires e.Replace? && e.id !in seen && Asked(p, w, s, depth, known, alien, e, seen, bound, env)
    requires var r := Fold.Fold(p, s, e, seen, bound).0; r.Some? && v in r.value
    ensures Taken(p, more, w, s, depth, ReadsOf(p, s, depth, e, seen, bound), env, e, t, v)
    decreases p.nodes - seen, 0
  {
    hide Good, GrewBy, SaysMore, Sourced, KnownScope, Speaks, ReplaceEach, PyReplace, Eval;
    var now := seen + {e.id};
    var (vs, b1) := Fold.Fold(p, s, e.base, now, bound);
    var (us, b2) := Fold.Fold(p, s, e.what, now, b1);
    var ys := Fold.Fold(p, s, e.put, now, b2).0;
    var x := ReplacedFrom(vs.value, us.value[0], ys.value[0], CountOf(e.count).value, v);
    var a, b, c;
    more, a, b, c := ThreeReached(p, w, s, depth, known, alien, e.base, e.what, e.put, now, bound, env,
        x, us.value[0], ys.value[0]);
    t := ReplaceTakes(p, more, s, e, env, x, us.value[0], ys.value[0], a, b, c);
  }

  lemma {:induction false} JoinReached(p: Program, w: World, s: Scope, depth: nat, known: set<string>,
                                       alien: set<string>, e: Expr, seen: set<nat>, bound: Bound, env: Env,
                                       v: string) returns (more: World, t: Trace)
    requires e.Join? && e.id !in seen && Asked(p, w, s, depth, known, alien, e, seen, bound, env)
    requires var r := Fold.Fold(p, s, e, seen, bound).0; r.Some? && v in r.value
    ensures Taken(p, more, w, s, depth, ReadsOf(p, s, depth, e, seen, bound), env, e, t, v)
    decreases p.nodes - seen, 0
  {
    var now := seen + {e.id};
    hide Good, GrewBy, SaysMore;
    var (vs, b1) := Fold.Fold(p, s, e.base, now, bound);
    var items := Items(p, s, e.arg, now, b1).0;
    var ra, rb := ReadsOf(p, s, depth, e.base, now, bound), ReadsOfItems(p, s, depth, e.arg, now, b1);
    GrewByNothing(w, depth);
    var mid, a := FoldReached(p, w, s, depth, known, alien, e.base, now, bound, env, vs.value[0]);
    ClearOfBoth(mid, w, depth, ra, rb);
    var b;
    more, b := ItemsReached(p, mid, s, depth, known, alien, e.arg, now, b1, env);
    Then(p, more, mid, w, s, depth, ra, rb);
    EvalStays(p, more, mid, s, env, e.base, a);
    assert Strings(Texts(items.value)) == items.value;
    t := Pick(0, v, a, b, End);
  }

  lemma {:induction false} JoinedReached(p: Program, w: World, s: Scope, depth: nat, known: set<string>,
                                         alien: set<string>, e: Expr, seen: set<nat>, bound: Bound, env: Env,
                                         v: string) returns (more: World, t: Trace)
    requires e.Joined? && e.id !in seen && Asked(p, w, s, depth, known, alien, e, seen, bound, env)
    requires var r := Fold.Fold(p, s, e, seen, bound).0; r.Some? && v in r.value
    ensures Taken(p, more, w, s, depth, ReadsOf(p, s, depth, e, seen, bound), env, e, t, v)
    decreases p.nodes - seen, 0
  {
    var now := seen + {e.id};
    var before, text, a;
    more, before, text, a := PartsReached(p, w, s, depth, known, alien, e.parts, [""], now, bound, env, v);
    assert before + text == text;
    t := Pick(0, v, a, End, End);
  }

  lemma {:induction false} FoldReached(p: Program, w: World, s: Scope, depth: nat, known: set<string>,
                                       alien: set<string>, e: Expr, seen: set<nat>, bound: Bound, env: Env,
                                       v: string) returns (more: World, t: Trace)
    requires Asked(p, w, s, depth, known, alien, e, seen, bound, env)
    requires var r := Fold.Fold(p, s, e, seen, bound).0; r.Some? && v in r.value
    ensures Taken(p, more, w, s, depth, ReadsOf(p, s, depth, e, seen, bound), env, e, t, v)
    decreases p.nodes - seen, 1
  {
    match e {
      case Const(_, _) =>
        more, t := w, Pick(0, v, End, End, End);
        GrewByNothing(w, depth);
      case Add(_, _, _) => more, t := AddReached(p, w, s, depth, known, alien, e, seen, bound, env, v);
      case Joined(_, _) => more, t := JoinedReached(p, w, s, depth, known, alien, e, seen, bound, env, v);
      case If(_, _, _) => more, t := IfReached(p, w, s, depth, known, alien, e, seen, bound, env, v);
      case Replace(_, _, _, _, _) => more, t := ReplaceReached(p, w, s, depth, known, alien, e, seen, bound, env, v);
      case Join(_, _, _) => more, t := JoinReached(p, w, s, depth, known, alien, e, seen, bound, env, v);
      case Name(_, _) => more, t := NameReached(p, w, s, depth, known, alien, e, seen, bound, env, v);
    }
  }

  lemma {:induction false} PartsReached(p: Program, w: World, s: Scope, depth: nat, known: set<string>,
                                        alien: set<string>, parts: Parts, out: seq<string>, seen: set<nat>,
                                        bound: Bound, env: Env, v: string)
        returns (more: World, before: string, text: string, t: Trace)
    requires Sourced(p) && KnownScope(s, p.nodes) && KnownParts(parts, p.nodes) && Good(p, w, s)
    requires TidyParts(p, s, known, alien, parts, out, seen, bound) && Agree(env, bound, known, alien)
    requires Clear(w, depth, ReadsOfParts(p, s, depth, parts, seen, bound))
    requires var r := FoldParts(p, s, parts, out, seen, bound).0; r.Some? && v in r.value
    ensures Good(p, more, s) && GrewBy(more, w, depth, ReadsOfParts(p, s, depth, parts, seen, bound).value.all)
    ensures before in out && v == before + text && EvalParts(p, more, s, env, parts, t) == Some(text)
    decreases p.nodes - seen, 2, parts
  {
    hide Product;
    match parts {
      case NoParts =>
        more, before, text, t := w, v, "", End;
        GrewByNothing(w, depth);
      case Lit(c, tail) =>
        var rest, b;
        more, before, rest, b := PartsReached(p, w, s, depth, known, alien, tail, Product(out, [c]), seen, bound,
            env, v);
        var x, y := ProductFrom(out, [c], before);
        Regroup(x, c, rest);
        before, text, t := x, c + rest, Pick(0, v, End, b, End);
      case Hole(e, tail) =>
        var (value, b1) := Fold.Fold(p, s, e, seen, bound);
        var ra, rb := ReadsOf(p, s, depth, e, seen, bound), ReadsOfParts(p, s, depth, tail, seen, b1);
        GrewByNothing(w, depth);
        ClearOfBoth(w, w, depth, ra, rb);
        var mid, rest, a, b;
        mid, before, rest, b := PartsReached(p, w, s, depth, known, alien, tail, Product(out, value.value), seen, b1,
            env, v);
        ClearTheOtherWay(mid, w, depth, ra, rb);
        var x, y := ProductFrom(out, value.value, before);
        more, a := FoldReached(p, mid, s, depth, known, alien, e, seen, bound, env, y);
        GrewByBoth(more, mid, w, depth, ra.value.all, rb.value.all);
        PartsStay(p, more, mid, s, env, tail, b);
        Regroup(x, y, rest);
        before, text, t := x, y + rest, Pick(0, v, a, b, End);
    }
  }

  lemma {:induction false} ItemsReached(p: Program, w: World, s: Scope, depth: nat, known: set<string>,
                                        alien: set<string>, e: Expr, seen: set<nat>, bound: Bound, env: Env)
        returns (more: World, t: Trace)
    requires Sourced(p) && KnownScope(s, p.nodes) && Known(e, p.nodes) && Good(p, w, s)
    requires TidyItems(p, s, known, alien, e, seen, bound) && Agree(env, bound, known, alien)
    requires Clear(w, depth, ReadsOfItems(p, s, depth, e, seen, bound)) && Items(p, s, e, seen, bound).0.Some?
    ensures Good(p, more, s) && GrewBy(more, w, depth, ReadsOfItems(p, s, depth, e, seen, bound).value.all)
    ensures EvalItems(p, more, s, env, e, t) == Some(Texts(Items(p, s, e, seen, bound).0.value))
    decreases p.nodes - seen, 2, e
  {
    match e {
      case List(_, elts) =>
        var a;
        more, a := AllReached(p, w, s, depth, known, alien, elts, seen, bound, env);
        t := Pick(0, "", a, End, End);
      case Comp(_, elt, x, iter) =>
        var (values, b1) := Items(p, s, iter, seen, bound);
        var ra := ReadsOfItems(p, s, depth, iter, seen, bound);
        var rb := ReadsOfEach(p, s, depth, elt, x, values.value, seen, b1);
        GrewByNothing(w, depth);
        ClearOfBoth(w, w, depth, ra, rb);
        var mid, a := ItemsReached(p, w, s, depth, known, alien, iter, seen, bound, env);
        ClearOfBoth(mid, w, depth, ra, rb);
        var b;
        more, b := EachReached(p, mid, s, depth, known, alien, elt, x, values.value, seen, b1, env);
        Then(p, more, mid, w, s, depth, ra, rb);
        ItemsStay(p, more, mid, s, env, iter, a);
        t := Pick(0, "", a, b, End);
    }
  }

  lemma {:induction false} AllReached(p: Program, w: World, s: Scope, depth: nat, known: set<string>,
                                      alien: set<string>, es: Exprs, seen: set<nat>, bound: Bound, env: Env)
        returns (more: World, t: Trace)
    requires Sourced(p) && KnownScope(s, p.nodes) && KnownAll(es, p.nodes) && Good(p, w, s)
    requires TidyAll(p, s, known, alien, es, seen, bound) && Agree(env, bound, known, alien)
    requires Clear(w, depth, ReadsOfAll(p, s, depth, es, seen, bound)) && FoldAll(p, s, es, seen, bound).0.Some?
    ensures Good(p, more, s) && GrewBy(more, w, depth, ReadsOfAll(p, s, depth, es, seen, bound).value.all)
    ensures EvalAll(p, more, s, env, es, t) == Some(Texts(FoldAll(p, s, es, seen, bound).0.value))
    decreases p.nodes - seen, 2, es
  {
    GrewByNothing(w, depth);
    hide Good, GrewBy, SaysMore;
    if es.NoExprs? {
      more, t := w, End;
    } else {
      var (v, b1) := Fold.Fold(p, s, es.head, seen, bound);
      var ra, rb := ReadsOf(p, s, depth, es.head, seen, bound), ReadsOfAll(p, s, depth, es.tail, seen, b1);
      ClearOfBoth(w, w, depth, ra, rb);
      var mid, a := FoldReached(p, w, s, depth, known, alien, es.head, seen, bound, env, v.value[0]);
      ClearOfBoth(mid, w, depth, ra, rb);
      var b;
      more, b := AllReached(p, mid, s, depth, known, alien, es.tail, seen, b1, env);
      Then(p, more, mid, w, s, depth, ra, rb);
      EvalStays(p, more, mid, s, env, es.head, a);
      assert v.value == [v.value[0]];
      TextsCons(v.value[0], FoldAll(p, s, es.tail, seen, b1).0.value);
      t := Pick(0, "", a, b, End);
    }
  }

  /** A first turn and the others make the whole. */
  lemma EachTurn(p: Program, w: World, s: Scope, env: Env, elt: Expr, x: string, values: seq<string>, a: Trace,
                 b: Trace, v: string, rest: seq<string>)
    requires values != [] && Eval(p, w, s, env[x := Text(values[0])], elt, a) == Some(Text(v))
    requires EvalEach(p, w, s, env, elt, x, Texts(values[1..]), b) == Some(Texts(rest))
    ensures EvalEach(p, w, s, env, elt, x, Texts(values), Pick(0, "", a, b, End)) == Some(Texts([v] + rest))
  {
    assert Texts(values)[1..] == Texts(values[1..]);
    TextsCons(v, rest);
  }

  lemma {:induction false} EachReached(p: Program, w: World, s: Scope, depth: nat, known: set<string>,
                                       alien: set<string>, elt: Expr, x: string, values: seq<string>,
                                       seen: set<nat>, bound: Bound, env: Env) returns (more: World, t: Trace)
    requires Sourced(p) && KnownScope(s, p.nodes) && Known(elt, p.nodes) && Good(p, w, s)
    requires TidyEach(p, s, known, alien, elt, x, values, seen, bound) && Agree(env, bound, known, alien)
    requires Clear(w, depth, ReadsOfEach(p, s, depth, elt, x, values, seen, bound))
    requires FoldEach(p, s, elt, x, values, seen, bound).0.Some?
    ensures Good(p, more, s) && GrewBy(more, w, depth, ReadsOfEach(p, s, depth, elt, x, values, seen, bound).value.all)
    ensures EvalEach(p, more, s, env, elt, x, Texts(values), t) ==
            Some(Texts(FoldEach(p, s, elt, x, values, seen, bound).0.value))
    decreases p.nodes - seen, 2, elt, |values|
  {
    GrewByNothing(w, depth);
    hide Good, GrewBy, SaysMore, Agree, Sourced, KnownScope, Speaks;
    if values == [] {
      more, t := w, End;
    } else {
      var b0, inner := bound[x := values[0]], env[x := Text(values[0])];
      var (v, b1) := Fold.Fold(p, s, elt, seen, b0);
      var ra, rb := ReadsOf(p, s, depth, elt, seen, b0), ReadsOfEach(p, s, depth, elt, x, values[1..], seen, b1 - {x});
      ClearOfBoth(w, w, depth, ra, rb);
      AgreeInside(env, bound, known, alien, x, values[0]);
      AgreeWithin(env, bound, b1 - {x}, known, alien);
      var mid, a := FoldReached(p, w, s, depth, known + {x}, alien - {x}, elt, seen, b0, inner, v.value[0]);
      ClearOfBoth(mid, w, depth, ra, rb);
      var b;
      more, b := EachReached(p, mid, s, depth, known, alien, elt, x, values[1..], seen, b1 - {x}, env);
      Then(p, more, mid, w, s, depth, ra, rb);
      EvalStays(p, more, mid, s, inner, elt, a);
      t := Pick(0, "", a, b, End);
      var rest := FoldEach(p, s, elt, x, values[1..], seen, b1 - {x}).0.value;
      EachTurn(p, more, s, env, elt, x, values, a, b, v.value[0], rest);
      assert v.value == [v.value[0]];
    }
  }

  // ----- exactness

  /** At some moment of a run the expression has the value v. */
  ghost predicate Takes(p: Program, s: Scope, e: Expr, v: Value) {
    exists w, t :: Justified(p, w, s) && OneMoment(w) && Eval(p, w, s, map[], e, t) == Some(v)
  }

  /** Where no name with several values is read twice, an expression that folds takes exactly the values it folds to. */
  lemma FoldIsExact(p: Program, s: Scope, e: Expr, v: Value)
    requires Sourced(p) && KnownScope(s, p.nodes) && Known(e, p.nodes) && Tidy(p, s, {}, {}, e, {}, map[])
    requires Fold.Fold(p, s, e, {}, map[]).0.Some? && ReadsOf(p, s, 0, e, {}, map[]).Some?
    ensures Takes(p, s, e, v) <==> v.Text? && v.s in Fold.Fold(p, s, e, {}, map[]).0.value
  {
    if Takes(p, s, e, v) {
      var w, t :| Justified(p, w, s) && OneMoment(w) && Eval(p, w, s, map[], e, t) == Some(v);
      var none: Env := map[];
      assert none.Keys == {};
      FoldCoversEveryValue(p, w, s, e, none, t);
    }
    if v.Text? && v.s in Fold.Fold(p, s, e, {}, map[]).0.value {
      ValueIsTaken(p, s, e, v.s);
    }
  }

  lemma ValueIsTaken(p: Program, s: Scope, e: Expr, v: string)
    requires Sourced(p) && KnownScope(s, p.nodes) && Known(e, p.nodes) && Tidy(p, s, {}, {}, e, {}, map[])
    requires ReadsOf(p, s, 0, e, {}, map[]).Some?
    requires var r := Fold.Fold(p, s, e, {}, map[]).0; r.Some? && v in r.value
    ensures Takes(p, s, e, Text(v))
  {
    var w := World(iset{}, Fresh(s));
    FreshSaysNothing(p, s, 0);
    assert Good(p, w, s);
    forall key ensures !Speaks(w, 0, key) {
    }
    var more, t := FoldReached(p, w, s, 0, {}, {}, e, {}, map[], map[], v);
    assert Justified(p, more, s) && OneMoment(more) && Eval(p, more, s, map[], e, t) == Some(Text(v));
  }
}
