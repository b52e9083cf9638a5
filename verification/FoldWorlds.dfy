/** Letting a world say more: what was possible stays possible. */
module FoldWorlds {
  import opened Wrappers
  import opened FoldSyntax
  import opened FoldSemantics
  import opened FoldReads

  /** w says all that v does. */
  ghost predicate Extends(w: World, v: World) {
    v.globals <= w.globals && StackExtends(w.stack, v.stack)
  }

  ghost predicate StackExtends(a: Stack, b: Stack) {
    b.Frame? ==>
      && a.Frame?
      && b.vals <= a.vals
      && (b.site.Some? ==> a.site == b.site && a.loops == b.loops && StackExtends(a.caller, b.caller))
  }

  lemma {:induction false} StackExtendsSelf(a: Stack)
    ensures StackExtends(a, a)
  {
    if a.Frame? {
      StackExtendsSelf(a.caller);
    }
  }

  lemma {:induction false} StackExtendsOn(a: Stack, b: Stack, c: Stack)
    requires StackExtends(a, b) && StackExtends(b, c)
    ensures StackExtends(a, c)
  {
    if c.Frame? && c.site.Some? {
      StackExtendsOn(a.caller, b.caller, c.caller);
    }
  }

  // ----- evaluation reads no more than the world's own frame and the constants

  ghost predicate SaysMore(w: World, v: World, s: Scope) {
    v.globals <= w.globals && (s.func.Some? && v.stack.Frame? ==> w.stack.Frame? && v.stack.vals <= w.stack.vals)
  }

  lemma {:induction false} EvalStays(p: Program, w: World, v: World, s: Scope, env: Env, e: Expr, t: Trace)
    requires SaysMore(w, v, s) && Eval(p, v, s, env, e, t).Some?
    ensures Eval(p, w, s, env, e, t) == Eval(p, v, s, env, e, t)
    decreases t, 1
  {
    match e
    case Add(_, left, right) =>
      EvalStays(p, w, v, s, env, left, t.a);
      EvalStays(p, w, v, s, env, right, t.b);
    case Joined(_, parts) => PartsStay(p, w, v, s, env, parts, t.a);
    case If(_, body, orelse) =>
      if t.pick == 0 {
        EvalStays(p, w, v, s, env, body, t.a);
      } else {
        EvalStays(p, w, v, s, env, orelse, t.b);
      }
    case Replace(_, base, what, put, _) =>
      EvalStays(p, w, v, s, env, base, t.a);
      EvalStays(p, w, v, s, env, what, t.b);
      EvalStays(p, w, v, s, env, put, t.c);
    case Join(_, base, arg) =>
      EvalStays(p, w, v, s, env, base, t.a);
      ItemsStay(p, w, v, s, env, arg, t.b);
    case _ =>
  }

  lemma {:induction false} PartsStay(p: Program, w: World, v: World, s: Scope, env: Env, parts: Parts, t: Trace)
    requires SaysMore(w, v, s) && EvalParts(p, v, s, env, parts, t).Some?
    ensures EvalParts(p, w, s, env, parts, t) == EvalParts(p, v, s, env, parts, t)
    decreases t, 1
  {
    if parts != NoParts {
      PartsStay(p, w, v, s, env, parts.tail, t.b);
      if parts.Hole? {
        EvalStays(p, w, v, s, env, parts.e, t.a);
      }
    }
  }

  lemma {:induction false} ItemsStay(p: Program, w: World, v: World, s: Scope, env: Env, e: Expr, t: Trace)
    requires SaysMore(w, v, s) && EvalItems(p, v, s, env, e, t).Some?
    ensures EvalItems(p, w, s, env, e, t) == EvalItems(p, v, s, env, e, t)
    decreases t, 1
  {
    match e
    case List(_, elts) => AllStay(p, w, v, s, env, elts, t.a);
    case Comp(_, elt, x, iter) =>
      ItemsStay(p, w, v, s, env, iter, t.a);
      EachStays(p, w, v, s, env, elt, x, EvalItems(p, v, s, env, iter, t.a).value, t.b);
    case _ =>
  }

  lemma {:induction false} AllStay(p: Program, w: World, v: World, s: Scope, env: Env, es: Exprs, t: Trace)
    requires SaysMore(w, v, s) && EvalAll(p, v, s, env, es, t).Some?
    ensures EvalAll(p, w, s, env, es, t) == EvalAll(p, v, s, env, es, t)
    decreases t, 1
  {
    if es.Exprs? {
      EvalStays(p, w, v, s, env, es.head, t.a);
      AllStay(p, w, v, s, env, es.tail, t.b);
    }
  }

  lemma {:induction false} EachStays(p: Program, w: World, v: World, s: Scope, env: Env, elt: Expr, x: string,
                                     values: seq<Value>, t: Trace)
    requires SaysMore(w, v, s) && EvalEach(p, v, s, env, elt, x, values, t).Some?
    ensures EvalEach(p, w, s, env, elt, x, values, t) == EvalEach(p, v, s, env, elt, x, values, t)
    decreases t, 1
  {
    if values != [] {
      EvalStays(p, w, v, s, env[x := values[0]], elt, t.a);
      EachStays(p, w, v, s, env, elt, x, values[1..], t.b);
    }
  }

  lemma CanBeStays(p: Program, w: World, v: World, s: Scope, env: Env, e: Expr, u: Value)
    requires SaysMore(w, v, s) && CanBe(p, v, s, env, e, u)
    ensures CanBe(p, w, s, env, e, u)
  {
    var t :| Eval(p, v, s, env, e, t) == Some(u);
    EvalStays(p, w, v, s, env, e, t);
  }

  lemma FromBindStays(p: Program, w: World, v: World, s: Scope, b: Bind, u: Value)
    requires SaysMore(w, v, s) && FromBind(p, v, s, b, u)
    ensures FromBind(p, w, s, b, u)
  {
    if b.Assign? {
      CanBeStays(p, w, v, s, map[], b.e, u);
    }
  }

  lemma FromOneStays(p: Program, w: World, v: World, s: Scope, binds: seq<Bind>, x: string, u: Value)
    requires SaysMore(w, v, s) && FromOneOf(p, v, s, binds, x, u)
    ensures FromOneOf(p, w, s, binds, x, u)
  {
    var i :| 0 <= i < |binds| && binds[i].name == x && FromBind(p, v, s, binds[i], u);
    FromBindStays(p, w, v, s, binds[i], u);
  }

  lemma FromCallStays(p: Program, w: World, v: World, f: Func, x: string, u: Value)
    requires Extends(w, v) && FromCall(p, v, f, x, u)
    ensures FromCall(p, w, f, x, u)
  {
    var calls := CallsTo(p, f.name);
    if !Entry(p, f) {
      var c := calls[v.stack.site.value];
      var arg := ArgOf(f, c, x);
      if arg.Some? {
        assert StackExtends(CallerOf(w).stack, CallerOf(v).stack);
        CanBeStays(p, CallerOf(w), CallerOf(v), c.scope, v.stack.loops, arg.value, u);
      }
    }
  }

  // ----- growing a world that is justified

  lemma GlobalsGrow(p: Program, globals: iset<(string, string, Value)>, m: string, x: string, v: Value)
    requires GlobalsJustified(p, globals)
    requires FromOneOf(p, World(globals, Base), Scope(m, None), BindsOf(p, m), x, v)
    ensures GlobalsJustified(p, globals + iset{(m, x, v)})
  {
    var more := globals + iset{(m, x, v)};
    forall n, y, u | (n, y, u) in more
      ensures FromOneOf(p, World(more, Base), Scope(n, None), BindsOf(p, n), y, u)
    {
      FromOneStays(p, World(more, Base), World(globals, Base), Scope(n, None), BindsOf(p, n), y, u);
    }
  }

  /** The frame at hand may gain locals, a call if it had none, and a caller that says more. */
  lemma {:induction false} FrameGrows(p: Program, w: World, v: World, s: Scope)
    requires StackJustified(p, v, s) && Extends(w, v) && s.func.Some? && v.stack.Frame?
    requires forall x, u :: (x, u) in w.stack.vals && (x, u) !in v.stack.vals ==>
               FromCall(p, w, s.func.value, x, u) || FromOneOf(p, w, s, s.func.value.binds, x, u)
    requires w.stack.site.Some? ==>
               var calls := CallsTo(p, s.func.value.name);
               && w.stack.site.value < |calls|
               && Reaches(calls[w.stack.site.value], s.func.value)
               && w.stack.loops.Keys == calls[w.stack.site.value].loops
               && StackJustified(p, CallerOf(w), calls[w.stack.site.value].scope)
    ensures StackJustified(p, w, s)
  {
    var f := s.func.value;
    forall x, u | (x, u) in w.stack.vals ensures FromCall(p, w, f, x, u) || FromOneOf(p, w, s, f.binds, x, u) {
      if (x, u) in v.stack.vals {
        if FromCall(p, v, f, x, u) {
          FromCallStays(p, w, v, f, x, u);
        } else {
          FromOneStays(p, w, v, s, f.binds, x, u);
        }
      }
    }
  }

  /** More constants do no harm to the frames. */
  lemma {:induction false} StackKeeps(p: Program, w: World, v: World, s: Scope)
    requires StackJustified(p, v, s) && w.stack == v.stack && v.globals <= w.globals
    ensures StackJustified(p, w, s)
    decreases v.stack
  {
    if s.func.Some? && v.stack.Frame? {
      if v.stack.site.Some? {
        StackKeeps(p, CallerOf(w), CallerOf(v), CallsTo(p, s.func.value.name)[v.stack.site.value].scope);
      }
      StackExtendsSelf(v.stack);
      FrameGrows(p, w, v, s);
    }
  }

  // ----- which names a world speaks of

  ghost predicate Speaks(w: World, depth: nat, key: Key) {
    match key
    case GlobalKey(m, x) => exists v :: (m, x, v) in w.globals
    case _ => StackSpeaks(w.stack, depth, key)
  }

  ghost predicate StackSpeaks(st: Stack, depth: nat, key: Key) {
    && st.Frame?
    && (|| (key == CallKey(depth) && st.site.Some?)
        || (key.LocalKey? && key.depth == depth && exists v :: (key.x, v) in st.vals)
        || StackSpeaks(st.caller, depth + 1, key))
  }

  lemma {:induction false} NotOfNearer(st: Stack, depth: nat, key: Key)
    requires !key.GlobalKey? && key.depth < depth
    ensures !StackSpeaks(st, depth, key)
    decreases st
  {
    if st.Frame? {
      NotOfNearer(st.caller, depth + 1, key);
    }
  }

  /** All frames that are needed are there. */
  ghost predicate Opened(p: Program, st: Stack, s: Scope)
    decreases st
  {
    s.func.Some? ==>
      && st.Frame?
      && (st.site.Some? ==>
            && st.site.value < |CallsTo(p, s.func.value.name)|
            && Opened(p, st.caller, CallsTo(p, s.func.value.name)[st.site.value].scope))
      && (st.site.None? ==> st.caller == Base)
  }

  /** An activation of which nothing is said yet. */
  function Fresh(s: Scope): Stack {
    if s.func.Some? then Frame(iset{}, None, map[], Base) else Base
  }

  ghost predicate Good(p: Program, w: World, s: Scope) {
    Justified(p, w, s) && OneMoment(w) && Opened(p, w.stack, s)
  }

  /** w grew from v by some of these names at most. */
  ghost predicate GrewBy(w: World, v: World, depth: nat, keys: set<Key>) {
    Extends(w, v) && forall key :: Speaks(w, depth, key) ==> Speaks(v, depth, key) || key in keys
  }

  lemma GrewByNothing(w: World, depth: nat)
    ensures GrewBy(w, w, depth, {})
  {
    StackExtendsSelf(w.stack);
  }

  lemma GrewByBoth(w: World, v: World, u: World, depth: nat, a: set<Key>, b: set<Key>)
    requires GrewBy(w, v, depth, a) && GrewBy(v, u, depth, b)
    ensures GrewBy(w, u, depth, a + b)
  {
    StackExtendsOn(w.stack, v.stack, u.stack);
  }

  /** Nothing of what is read with several values has been settled. */
  ghost predicate Clear(w: World, depth: nat, r: Reads) {
    r.Some? && forall key :: key in r.value.many ==> !Speaks(w, depth, key)
  }

  lemma ClearOfBoth(w: World, v: World, depth: nat, a: Reads, b: Reads)
    requires Both(a, b).Some? && Clear(v, depth, Both(a, b)) && GrewBy(w, v, depth, a.value.all)
    ensures Clear(v, depth, a) && Clear(w, depth, b)
  {
  }

  lemma ClearTheOtherWay(w: World, v: World, depth: nat, a: Reads, b: Reads)
    requires Both(a, b).Some? && Clear(v, depth, Both(a, b)) && GrewBy(w, v, depth, b.value.all)
    ensures Clear(v, depth, b) && Clear(w, depth, a)
  {
  }

  // ----- what a world can be made to say

  lemma AddLocal(p: Program, w: World, s: Scope, depth: nat, x: string, v: Value) returns (more: World)
    requires Good(p, w, s) && s.func.Some? && (forall u :: (x, u) !in w.stack.vals)
    requires FromCall(p, w, s.func.value, x, v) || FromOneOf(p, w, s, s.func.value.binds, x, v)
    ensures Good(p, more, s) && (x, v) in more.stack.vals && GrewBy(more, w, depth, {LocalKey(depth, x)})
  {
    more := World(w.globals, w.stack.(vals := w.stack.vals + iset{(x, v)}));
    StackExtendsSelf(w.stack.caller);
    if FromCall(p, w, s.func.value, x, v) {
      FromCallStays(p, more, w, s.func.value, x, v);
    } else {
      FromOneStays(p, more, w, s, s.func.value.binds, x, v);
    }
    FrameGrows(p, more, w, s);
  }

  lemma AddGlobal(p: Program, w: World, s: Scope, depth: nat, m: string, x: string, v: Value) returns (more: World)
    requires Good(p, w, s) && (forall u :: (m, x, u) !in w.globals)
    requires FromOneOf(p, World(w.globals, Base), Scope(m, None), BindsOf(p, m), x, v)
    ensures Good(p, more, s) && (m, x, v) in more.globals && GrewBy(more, w, depth, {GlobalKey(m, x)})
  {
    more := World(w.globals + iset{(m, x, v)}, w.stack);
    StackExtendsSelf(w.stack);
    GlobalsGrow(p, w.globals, m, x, v);
    StackKeeps(p, more, w, s);
  }

  lemma FreshSaysNothing(p: Program, s: Scope, depth: nat)
    ensures OneValueEach(Fresh(s)) && Opened(p, Fresh(s), s) && forall key :: !StackSpeaks(Fresh(s), depth, key)
  {
    assert OneValueEach(Base);
    forall key ensures !StackSpeaks(Fresh(s), depth, key) {
      assert !StackSpeaks(Base, depth + 1, key);
    }
  }

  /** The activation is settled to have come by this call. */
  lemma ComeBy(p: Program, w: World, s: Scope, depth: nat, k: nat) returns (more: World)
    requires Good(p, w, s) && s.func.Some? && w.stack.site.None? && k < |CallsTo(p, s.func.value.name)|
    requires Reaches(CallsTo(p, s.func.value.name)[k], s.func.value)
    ensures Good(p, more, s) && more.stack.site == Some(k) && more.stack.vals == w.stack.vals
    ensures GrewBy(more, w, depth, {CallKey(depth)})
  {
    var call := CallsTo(p, s.func.value.name)[k];
    var loops := map x | x in call.loops :: Text("");
    more := World(w.globals, Frame(w.stack.vals, Some(k), loops, Fresh(call.scope)));
    FreshSaysNothing(p, call.scope, depth + 1);
    FrameGrows(p, more, w, s);
    forall key | Speaks(more, depth, key) ensures Speaks(w, depth, key) || key == CallKey(depth) {
      assert !StackSpeaks(more.stack.caller, depth + 1, key);
    }
  }

  /** The caller's part says more. */
  lemma WithCaller(p: Program, w: World, s: Scope, depth: nat, caller: World, keys: set<Key>) returns (more: World)
    requires Good(p, w, s) && s.func.Some? && w.stack.site.Some?
    requires Good(p, caller, CallsTo(p, s.func.value.name)[w.stack.site.value].scope)
    requires GrewBy(caller, CallerOf(w), depth + 1, keys)
    ensures Good(p, more, s) && GrewBy(more, w, depth, keys) && CallerOf(more) == caller
    ensures more.stack.Frame? && more.stack.vals == w.stack.vals
    ensures more.stack.site == w.stack.site && more.stack.loops == w.stack.loops
  {
    more := World(caller.globals, w.stack.(caller := caller.stack));
    FrameGrows(p, more, w, s);
    forall key | Speaks(more, depth, key) ensures Speaks(w, depth, key) || key in keys {
      if key.GlobalKey? {
        assert Speaks(caller, depth + 1, key);
        assert Speaks(CallerOf(w), depth + 1, key) || key in keys;
      } else if StackSpeaks(caller.stack, depth + 1, key) {
        assert Speaks(caller, depth + 1, key);
        assert Speaks(CallerOf(w), depth + 1, key) || key in keys;
      }
    }
  }

  /** The constants say more. */
  lemma WithGlobals(p: Program, w: World, s: Scope, depth: nat, m: string, top: World, keys: set<Key>)
        returns (more: World)
    requires Good(p, w, s) && Good(p, top, Scope(m, None)) && GrewBy(top, World(w.globals, Base), 0, keys)
    ensures Good(p, more, s) && GrewBy(more, w, depth, keys) && more.globals == top.globals
  {
    more := World(top.globals, w.stack);
    StackExtendsSelf(w.stack);
    StackKeeps(p, more, w, s);
    forall key | Speaks(more, depth, key) ensures Speaks(w, depth, key) || key in keys {
      if key.GlobalKey? {
        assert Speaks(top, 0, key);
        assert Speaks(World(w.globals, Base), 0, key) || key in keys;
      }
    }
  }
}
