/**
 What the folder answers, said without it: the list of strings an expression denotes, or that it
 is refused. Lists are put together from the right, every part is looked at, and the loop variables
 are an argument; the folder goes from the left, stops at the first refusal and sets and pops them.
 */
module FoldMeaning {
  import opened Wrappers
  import opened FoldSyntax
  import opened FoldText
  import opened Fold

  /**
   Tangled is said of an expression in which a node is met again on the way to
   itself, or a loop variable is set again inside its own loop.
   */
  datatype Meaning = These(values: seq<string>) | Refused | Tangled

  /** Every text of the one before every text of the other, in the order of a two-digit number. */
  function Pairs(a: seq<string>, b: seq<string>): seq<string> {
    seq(|a| * |b|, k requires 0 <= k < |a| * |b| => PairAt(a, b, k))
  }

  function PairAt(a: seq<string>, b: seq<string>, k: nat): string
    requires k < |a| * |b|
  {
    Digits(|a|, |b|, k);
    a[k / |b|] + b[k % |b|]
  }

  lemma Digits(m: nat, n: nat, k: nat)
    requires k < m * n
    ensures n > 0 && k / n < m
  {
  }

  function Crossed(a: Meaning, b: Meaning): Meaning {
    if a.Tangled? || b.Tangled? then Tangled
    else if a.Refused? || b.Refused? then Refused
    else These(Pairs(a.values, b.values))
  }

  function UpTo32(m: Meaning): Meaning {
    if m.These? && |m.values| > 32 then Refused else m
  }

  /** One text, put in front of the list of the others. */
  function Listed(a: Meaning, rest: Meaning): Meaning {
    if a.Tangled? || rest.Tangled? then Tangled
    else if a.Refused? || rest.Refused? || |a.values| != 1 then Refused
    else These([a.values[0]] + rest.values)
  }

  /** The texts in the order in which they first appear. */
  function Firsts(all: seq<string>): seq<string> {
    if all == [] then [] else
      var before, last := Firsts(all[..|all| - 1]), all[|all| - 1];
      if last in all[..|all| - 1] then before else before + [last]
  }

  // ----- what a name stands for

  /** Binding i is the only assignment of x, and nothing else assigns to it. */
  predicate OnlyAssignment(binds: seq<Bind>, x: string, i: nat) {
    && i < |binds| && binds[i].Assign? && binds[i].name == x
    && forall j :: 0 <= j < |binds| && j != i && binds[j].name == x ==> binds[j].Import? || binds[j].Hidden?
  }

  /** Binding i is the last assignment of x in the module, or its first import if there is no assignment. */
  predicate Constant(binds: seq<Bind>, x: string, i: nat) {
    && i < |binds| && binds[i].name == x
    && (binds[i].Assign? || binds[i].Import?)
    && (binds[i].Assign? ==> forall j :: i < j < |binds| && binds[j].name == x ==> !binds[j].Assign?)
    && (binds[i].Import? ==>
          && (forall j :: 0 <= j < |binds| && binds[j].name == x ==> !binds[j].Assign?)
          && (forall j :: 0 <= j < i && binds[j].name == x ==> !binds[j].Import?))
  }

  lemma {:induction false} CountsOnce(binds: seq<Bind>, x: string)
    ensures Assigned(binds, x) == 0 <==>
            forall j :: 0 <= j < |binds| && binds[j].name == x ==> binds[j].Import? || binds[j].Hidden?
    ensures forall i: nat ::
              OnlyAssignment(binds, x, i) <==> Assigned(binds, x) == 1 && LastAssigned(binds, x) == Some(i)
  {
    if binds != [] {
      var n := |binds| - 1;
      var less := binds[..n];
      CountsOnce(less, x);
      assert forall j :: 0 <= j < n ==> less[j] == binds[j];
      forall i: nat
        ensures OnlyAssignment(binds, x, i) <==>
                if binds[n].name != x || binds[n].Import? || binds[n].Hidden? then OnlyAssignment(less, x, i)
                else binds[n].Assign? && i == n && Assigned(less, x) == 0
      {
        assert i < n ==> less[i] == binds[i];
      }
      OneAssignmentIsLast(less, x);
    }
  }

  /** Where something is counted once, it is an assignment. */
  lemma {:induction false} OneAssignmentIsLast(binds: seq<Bind>, x: string)
    ensures Assigned(binds, x) == 1 ==> LastAssigned(binds, x).Some?
  {
    if binds != [] {
      OneAssignmentIsLast(binds[..|binds| - 1], x);
    }
  }

  lemma LocalIsOnly(f: Func, x: string, i: nat)
    ensures Local(f, x) == Some(i) <==> OnlyAssignment(f.binds, x, i)
  {
    CountsOnce(f.binds, x);
  }

  lemma {:induction false} KeptIsConstant(binds: seq<Bind>, x: string)
    ensures forall i: nat :: Kept(binds, x) == Some(i) <==> Constant(binds, x, i)
    ensures Kept(binds, x).None? <==>
            forall j :: 0 <= j < |binds| && binds[j].name == x ==> !binds[j].Assign? && !binds[j].Import?
  {
    if binds != [] {
      var n := |binds| - 1;
      var less := binds[..n];
      KeptIsConstant(less, x);
      assert forall j :: 0 <= j < n ==> less[j] == binds[j];
    }
  }

  /** The keyword k of the call is its first named x. */
  predicate FirstKeyword(c: Site, x: string, k: nat) {
    k < |c.keywords| && c.keywords[k].0 == x && forall j :: 0 <= j < k ==> c.keywords[j].0 != x
  }

  /** x is parameter i of the function, and of the arguments, a receiver not counted, the one at `at`. */
  predicate FirstPlace(f: Func, x: string, i: nat, at: int) {
    && i < |f.params| && f.params[i] == x && (forall j :: 0 <= j < i ==> f.params[j] != x)
    && at == i - if f.params[0] == "self" || f.params[0] == "cls" then 1 else 0
  }

  /** Call c gives x the argument e: by its first keyword of that name, else at x's place. */
  ghost predicate Passes(f: Func, c: Site, x: string, e: Expr) {
    || (exists k: nat :: FirstKeyword(c, x, k) && c.keywords[k].1 == e)
    || ((forall k :: 0 <= k < |c.keywords| ==> c.keywords[k].0 != x) &&
        exists i: nat, at: int :: FirstPlace(f, x, i, at) && 0 <= at < |c.args| && c.args[at] == e)
  }

  lemma {:induction false} PositionIsFirst(xs: seq<string>, x: string, i: nat)
    requires i < |xs| && xs[i] == x && forall j :: 0 <= j < i ==> xs[j] != x
    ensures Position(xs, x) == i
  {
    if i > 0 {
      PositionIsFirst(xs[1..], x, i - 1);
    }
  }

  lemma {:induction false} PositionHasNoneBefore(xs: seq<string>, x: string)
    ensures forall j :: 0 <= j < Position(xs, x) ==> xs[j] != x
  {
    if xs != [] && xs[0] != x {
      PositionHasNoneBefore(xs[1..], x);
      assert forall j :: 0 < j < |xs| ==> xs[j] == xs[1..][j - 1];
    }
  }

  lemma {:induction false} KeywordIsFirst(keywords: seq<(string, Expr)>, x: string, k: nat)
    requires k < |keywords| && keywords[k].0 == x && forall j :: 0 <= j < k ==> keywords[j].0 != x
    ensures Keyword(keywords, x) == k
  {
    if k > 0 {
      KeywordIsFirst(keywords[1..], x, k - 1);
    }
  }

  lemma {:induction false} KeywordHasNoneBefore(keywords: seq<(string, Expr)>, x: string)
    ensures forall j :: 0 <= j < Keyword(keywords, x) ==> keywords[j].0 != x
  {
    if keywords != [] && keywords[0].0 != x {
      KeywordHasNoneBefore(keywords[1..], x);
      assert forall j :: 0 < j < |keywords| ==> keywords[j] == keywords[1..][j - 1];
    }
  }

  lemma ArgIsPassed(f: Func, c: Site, x: string, e: Expr)
    requires x in f.params
    ensures ArgOf(f, c, x) == Some(e) <==> Passes(f, c, x, e)
  {
    KeywordHasNoneBefore(c.keywords, x);
    PositionHasNoneBefore(f.params, x);
    hide Position, Keyword;
    var named, place := Keyword(c.keywords, x), Position(f.params, x);
    var receiver: int := if f.params[0] == "self" || f.params[0] == "cls" then 1 else 0;
    var at: int := place as int - receiver;
    if named < |c.keywords| {
      assert FirstKeyword(c, x, named);
      forall k: nat | FirstKeyword(c, x, k) ensures k == named {
        KeywordIsFirst(c.keywords, x, k);
      }
    } else {
      assert FirstPlace(f, x, place, at);
      forall i: nat, other: int | FirstPlace(f, x, i, other) ensures other == at {
        PositionIsFirst(f.params, x, i);
      }
    }
  }

  // ----- the meaning of an expression

  ghost function Meant(p: Program, s: Scope, e: Expr, met: set<nat>, env: Bound): Meaning
    requires Sourced(p) && KnownScope(s, p.nodes) && Known(e, p.nodes)
    decreases p.nodes - met, 1
  {
    if e.id in met then Tangled else
      var now := met + {e.id};
      match e
      case Const(_, c) => These([c])
      case Add(_, left, right) => UpTo32(Crossed(Meant(p, s, left, now, env), Meant(p, s, right, now, env)))
      case Joined(_, parts) => UpTo32(MeantParts(p, s, parts, now, env))
      case If(_, body, orelse) => OneAfterTheOther(Meant(p, s, body, now, env), Meant(p, s, orelse, now, env))
      case Replace(_, base, what, put, count) =>
        Replacing(Meant(p, s, base, now, env), Meant(p, s, what, now, env), Meant(p, s, put, now, env), count)
      case Join(_, base, arg) => Joining(Meant(p, s, base, now, env), MeantItems(p, s, arg, now, env))
      case Call(_, base) => if Meant(p, s, base, now, env).Tangled? then Tangled else Refused
      case Name(_, x) => MeantName(p, s, x, now, env)
      case _ => Refused
  }

  function OneAfterTheOther(a: Meaning, b: Meaning): Meaning {
    if a.Tangled? || b.Tangled? then Tangled
    else if a.Refused? || b.Refused? then Refused
    else These(a.values + b.values)
  }

  /** One old text, one new text, and a count that is an integer, left out or computed, which both mean all. */
  function Replacing(base: Meaning, what: Meaning, put: Meaning, count: Count): Meaning {
    if base.Tangled? || what.Tangled? || put.Tangled? then Tangled
    else if base.Refused? || what.Refused? || put.Refused? || |what.values| != 1 || |put.values| != 1 || count.NotInt?
    then Refused
    else
      var n := if count.Times? then count.n else -1;
      These(seq(|base.values|, i requires 0 <= i < |base.values| =>
        PyReplace(base.values[i], what.values[0], put.values[0], n)))
  }

  function Joining(base: Meaning, items: Meaning): Meaning {
    if base.Tangled? || items.Tangled? then Tangled
    else if base.Refused? || items.Refused? || |base.values| != 1 then Refused
    else These([PyJoin(base.values[0], items.values)])
  }

  ghost function MeantParts(p: Program, s: Scope, parts: Parts, met: set<nat>, env: Bound): Meaning
    requires Sourced(p) && KnownScope(s, p.nodes) && KnownParts(parts, p.nodes)
    decreases p.nodes - met, 2, parts
  {
    match parts
    case NoParts => These([""])
    case Lit(c, tail) => Crossed(These([c]), MeantParts(p, s, tail, met, env))
    case Hole(e, tail) => Crossed(Meant(p, s, e, met, env), MeantParts(p, s, tail, met, env))
    case Spec(_) => Refused
  }

  ghost function MeantItems(p: Program, s: Scope, e: Expr, met: set<nat>, env: Bound): Meaning
    requires Sourced(p) && KnownScope(s, p.nodes) && Known(e, p.nodes)
    decreases p.nodes - met, 2, e
  {
    match e
    case List(_, elts) => MeantAll(p, s, elts, met, env)
    case Comp(_, elt, x, iter) =>
      var values := MeantItems(p, s, iter, met, env);
      if !values.These? then values
      else if x in env then Tangled
      else MeantEach(p, s, elt, x, values.values, met, env)
    case _ => Refused
  }

  ghost function MeantAll(p: Program, s: Scope, es: Exprs, met: set<nat>, env: Bound): Meaning
    requires Sourced(p) && KnownScope(s, p.nodes) && KnownAll(es, p.nodes)
    decreases p.nodes - met, 2, es
  {
    if es.NoExprs? then These([])
    else Listed(Meant(p, s, es.head, met, env), MeantAll(p, s, es.tail, met, env))
  }

  /** The element once for each value of the loop variable. */
  ghost function MeantEach(p: Program, s: Scope, elt: Expr, x: string, values: seq<string>, met: set<nat>,
                           env: Bound): Meaning
    requires Sourced(p) && KnownScope(s, p.nodes) && Known(elt, p.nodes)
    decreases p.nodes - met, 2, elt, |values|
  {
    if values == [] then These([])
    else
      Listed(Meant(p, s, elt, met, env[x := values[0]]), MeantEach(p, s, elt, x, values[1..], met, env))
  }

  /** A loop variable, else the only assignment, else what all calls pass if that is a list, else the constant. */
  ghost function MeantName(p: Program, s: Scope, x: string, met: set<nat>, env: Bound): Meaning
    requires Sourced(p) && KnownScope(s, p.nodes)
    decreases p.nodes - met, 4
  {
    if x in env then These([env[x]])
    else if s.func.Some? && Local(s.func.value, x).Some? then
      Meant(p, s, s.func.value.binds[Local(s.func.value, x).value].e, met, env)
    else
      var passed := if s.func.Some? then MeantParam(p, s.func.value, x, met, env) else Refused;
      if passed.Refused? then MeantConstant(p, s.mod, x, met, env) else passed
  }

  ghost function MeantConstant(p: Program, mod: string, x: string, met: set<nat>, env: Bound): Meaning
    requires Sourced(p)
    decreases p.nodes - met, 3, p.depth(mod, x)
  {
    var i := Kept(BindsOf(p, mod), x);
    if i.None? then Refused else
      match BindsOf(p, mod)[i.value]
      case Assign(_, e) => Meant(p, Scope(mod, None), e, met, env)
      case Import(_, source, attr) => MeantConstant(p, source, attr, met, env)
  }

  ghost function MeantParam(p: Program, f: Func, x: string, met: set<nat>, env: Bound): Meaning
    requires Sourced(p)
    decreases p.nodes - met, 3
  {
    if x !in f.params || CallsTo(p, f.name) == [] then Refused else
      var all := MeantCalls(p, f, x, CallsTo(p, f.name), met, env);
      if all.These? then UpTo32(These(Firsts(all.values))) else all
  }

  /** What the calls pass, all after the other. */
  ghost function MeantCalls(p: Program, f: Func, x: string, calls: seq<Site>, met: set<nat>, env: Bound): Meaning
    requires Sourced(p) && forall i :: 0 <= i < |calls| ==> KnownSite(calls[i], p.nodes)
    decreases p.nodes - met, 2, |calls|
  {
    if calls == [] then These([]) else
      var arg := ArgOf(f, calls[0], x);
      if arg.None? then Refused else
        assert KnownSite(calls[0], p.nodes);
        ArgIsKnown(f, calls[0], x, p.nodes);
        OneAfterTheOther(Meant(p, calls[0].scope, arg.value, met, env), MeantCalls(p, f, x, calls[1..], met, env))
  }

  // ----- what is never tangled

  /** No name but the loop variables, no node within itself, no loop variable set again inside its own loop. */
  predicate Plain(e: Expr, met: set<nat>, vars: set<string>) {
    e.id !in met &&
    var now := met + {e.id};
    match e
    case Add(_, left, right) => Plain(left, now, vars) && Plain(right, now, vars)
    case Joined(_, parts) => PlainParts(parts, now, vars)
    case If(_, body, orelse) => Plain(body, now, vars) && Plain(orelse, now, vars)
    case Replace(_, base, what, put, _) => Plain(base, now, vars) && Plain(what, now, vars) && Plain(put, now, vars)
    case Join(_, base, arg) => Plain(base, now, vars) && PlainItems(arg, now, vars)
    case Call(_, base) => Plain(base, now, vars)
    case Name(_, x) => x in vars
    case _ => true
  }

  predicate PlainParts(parts: Parts, met: set<nat>, vars: set<string>) {
    match parts
    case Lit(_, tail) => PlainParts(tail, met, vars)
    case Hole(e, tail) => Plain(e, met, vars) && PlainParts(tail, met, vars)
    case _ => true
  }

  predicate PlainItems(e: Expr, met: set<nat>, vars: set<string>) {
    match e
    case List(_, elts) => PlainAll(elts, met, vars)
    case Comp(_, elt, x, iter) => PlainItems(iter, met, vars) && x !in vars && Plain(elt, met, vars + {x})
    case _ => true
  }

  predicate PlainAll(es: Exprs, met: set<nat>, vars: set<string>) {
    es.Exprs? ==> Plain(es.head, met, vars) && PlainAll(es.tail, met, vars)
  }

  lemma {:induction false} PlainIsClear(p: Program, s: Scope, e: Expr, met: set<nat>, env: Bound)
    requires Sourced(p) && KnownScope(s, p.nodes) && Known(e, p.nodes) && Plain(e, met, env.Keys)
    ensures !Meant(p, s, e, met, env).Tangled?
    decreases e, 0
  {
    var now := met + {e.id};
    hide Sourced, KnownScope;
    match e {
      case Add(_, left, right) =>
        PlainIsClear(p, s, left, now, env);
        PlainIsClear(p, s, right, now, env);
      case Joined(_, parts) => PlainPartsAreClear(p, s, parts, now, env);
      case If(_, body, orelse) =>
        PlainIsClear(p, s, body, now, env);
        PlainIsClear(p, s, orelse, now, env);
      case Replace(_, base, what, put, _) =>
        PlainIsClear(p, s, base, now, env);
        PlainIsClear(p, s, what, now, env);
        PlainIsClear(p, s, put, now, env);
      case Join(_, base, arg) =>
        PlainIsClear(p, s, base, now, env);
        PlainItemsAreClear(p, s, arg, now, env);
      case Call(_, base) => PlainIsClear(p, s, base, now, env);
      case _ =>
    }
  }

  lemma {:induction false} PlainPartsAreClear(p: Program, s: Scope, parts: Parts, met: set<nat>, env: Bound)
    requires Sourced(p) && KnownScope(s, p.nodes) && KnownParts(parts, p.nodes) && PlainParts(parts, met, env.Keys)
    ensures !MeantParts(p, s, parts, met, env).Tangled?
    decreases parts, 0
  {
    hide Sourced, KnownScope;
    match parts {
      case Lit(_, tail) => PlainPartsAreClear(p, s, tail, met, env);
      case Hole(e, tail) =>
        PlainIsClear(p, s, e, met, env);
        PlainPartsAreClear(p, s, tail, met, env);
      case _ =>
    }
  }

  lemma {:induction false} PlainItemsAreClear(p: Program, s: Scope, e: Expr, met: set<nat>, env: Bound)
    requires Sourced(p) && KnownScope(s, p.nodes) && Known(e, p.nodes) && PlainItems(e, met, env.Keys)
    ensures !MeantItems(p, s, e, met, env).Tangled?
    decreases e, 1
  {
    hide Sourced, KnownScope;
    match e {
      case List(_, elts) => PlainAllAreClear(p, s, elts, met, env);
      case Comp(_, elt, x, iter) =>
        PlainItemsAreClear(p, s, iter, met, env);
        var values := MeantItems(p, s, iter, met, env);
        if values.These? {
          PlainEachIsClear(p, s, elt, x, values.values, met, env);
        }
      case _ =>
    }
  }

  lemma {:induction false} PlainAllAreClear(p: Program, s: Scope, es: Exprs, met: set<nat>, env: Bound)
    requires Sourced(p) && KnownScope(s, p.nodes) && KnownAll(es, p.nodes) && PlainAll(es, met, env.Keys)
    ensures !MeantAll(p, s, es, met, env).Tangled?
    decreases es, 0
  {
    if es.Exprs? {
      PlainIsClear(p, s, es.head, met, env);
      PlainAllAreClear(p, s, es.tail, met, env);
    }
  }

  lemma {:induction false} PlainEachIsClear(p: Program, s: Scope, elt: Expr, x: string, values: seq<string>,
                                            met: set<nat>, env: Bound)
    requires Sourced(p) && KnownScope(s, p.nodes) && Known(elt, p.nodes) && Plain(elt, met, env.Keys + {x})
    ensures !MeantEach(p, s, elt, x, values, met, env).Tangled?
    decreases elt, 1, |values|
  {
    hide Sourced, KnownScope;
    if values != [] {
      assert env[x := values[0]].Keys == env.Keys + {x};
      PlainIsClear(p, s, elt, met, env[x := values[0]]);
      PlainEachIsClear(p, s, elt, x, values[1..], met, env);
    }
  }
}
