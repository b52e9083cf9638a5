/**
 The values an expression can take when the program runs. A world says what each name stands for:
 the module constants, and for the function at hand and each of its callers, the locals, the
 parameters and the call they came by. A name may have several values, as when its binding runs
 again in a loop; where every name has one, the world is that of a single moment. A trace
 resolves the rest: the branch taken, and the value of anything the folder does not follow.
 */
module FoldSemantics {
  import opened Wrappers
  import opened FoldSyntax
  import opened FoldText

  datatype Value = Text(s: string) | Object(n: int)

  datatype Trace = End | Step(pick: int, other: Value, a: Trace, b: Trace, c: Trace)

  type Env = map<string, Value>

  /** `site` is the call this activation came by, `loops` the loop variables around it, `caller` what made it. */
  datatype Stack = Base | Frame(vals: iset<(string, Value)>, site: Option<nat>, loops: Env, caller: Stack)

  datatype World = World(globals: iset<(string, string, Value)>, stack: Stack)

  predicate BoundIn(binds: seq<Bind>, x: string) {
    exists i :: 0 <= i < |binds| && binds[i].name == x
  }

  /** x is local to the function: a parameter or bound somewhere in it. */
  predicate LocalTo(func: Option<Func>, x: string) {
    func.Some? && (x in func.value.params || BoundIn(func.value.binds, x))
  }

  predicate AllText(vs: seq<Value>) {
    forall i :: 0 <= i < |vs| ==> vs[i].Text?
  }

  function Texts(vs: seq<string>): (r: seq<Value>)
    ensures |r| == |vs| && forall i :: 0 <= i < |vs| ==> r[i] == Text(vs[i])
  {
    seq(|vs|, i requires 0 <= i < |vs| => Text(vs[i]))
  }

  function Strings(vs: seq<Value>): (r: seq<string>)
    requires AllText(vs)
    ensures |r| == |vs| && forall i :: 0 <= i < |vs| ==> r[i] == vs[i].s
  {
    seq(|vs|, i requires 0 <= i < |vs| => vs[i].s)
  }

  /** `str(value)`; what an object's text is comes from the trace. */
  function TextOf(v: Value, other: Value): string {
    if v.Text? then v.s else if other.Text? then other.s else ""
  }

  /** v is what the name x, not a loop variable, can stand for; a name bound nowhere may be a builtin. */
  ghost predicate Stands(p: Program, w: World, s: Scope, x: string, v: Value) {
    if LocalTo(s.func, x) then w.stack.Frame? && (x, v) in w.stack.vals
    else (s.mod, x, v) in w.globals || !BoundIn(BindsOf(p, s.mod), x)
  }

  /** None is an evaluation that raises, or a trace that does not fit. */
  ghost function Eval(p: Program, w: World, s: Scope, env: Env, e: Expr, t: Trace): (v: Option<Value>)
    decreases t, 1
  {
    if t.End? then None else
      match e
      case Const(_, c) => Some(Text(c))
      case Add(_, left, right) =>
        var l, r := Eval(p, w, s, env, left, t.a), Eval(p, w, s, env, right, t.b);
        if l.None? || r.None? then None
        else Some(if l.value.Text? && r.value.Text? then Text(l.value.s + r.value.s) else t.other)
      case Joined(_, parts) =>
        var text := EvalParts(p, w, s, env, parts, t.a);
        if text.None? then None else Some(Text(text.value))
      case If(_, body, orelse) =>
        if t.pick == 0 then Eval(p, w, s, env, body, t.a) else Eval(p, w, s, env, orelse, t.b)
      case Replace(_, base, what, put, count) =>
        var v, u, y := Eval(p, w, s, env, base, t.a), Eval(p, w, s, env, what, t.b), Eval(p, w, s, env, put, t.c);
        if v.None? || u.None? || y.None? then None
        else if v.value.Text? && u.value.Text? && y.value.Text? then
          EvalReplace(v.value.s, u.value.s, y.value.s, count, t)
        else Some(t.other)
      case Join(_, base, arg) =>
        var v, items := Eval(p, w, s, env, base, t.a), EvalItems(p, w, s, env, arg, t.b);
        if v.None? || items.None? then None
        else if v.value.Text? && AllText(items.value) then Some(Text(PyJoin(v.value.s, Strings(items.value))))
        else Some(t.other)
      case Name(_, x) =>
        if x in env then Some(env[x]) else if Stands(p, w, s, x, t.other) then Some(t.other) else None
      case _ => Some(t.other)
  }

  function EvalReplace(v: string, what: string, put: string, count: Count, t: Trace): Option<Value>
    requires t.Step?
  {
    match count
    case All => Some(Text(PyReplace(v, what, put, -1)))
    case Times(n) => Some(Text(PyReplace(v, what, put, n)))
    case NotInt => None
    case Dynamic => Some(Text(PyReplace(v, what, put, t.pick)))
  }

  ghost function EvalParts(p: Program, w: World, s: Scope, env: Env, parts: Parts, t: Trace): Option<string>
    decreases t, 1
  {
    if parts.NoParts? then Some("")
    else if t.End? then None
    else
      var rest := EvalParts(p, w, s, env, parts.tail, t.b);
      if rest.None? then None else
        match parts
        case Lit(c, _) => Some(c + rest.value)
        case Hole(e, _) =>
          var v := Eval(p, w, s, env, e, t.a);
          if v.None? then None else Some(TextOf(v.value, t.other) + rest.value)
        case Spec(_) => Some(TextOf(t.other, t.other) + rest.value)
  }

  /** The values an iterable gives; unknown ones for anything but a display or a plain comprehension. */
  ghost function EvalItems(p: Program, w: World, s: Scope, env: Env, e: Expr, t: Trace): Option<seq<Value>>
    decreases t, 1
  {
    if t.End? then None else
      match e
      case List(_, elts) => EvalAll(p, w, s, env, elts, t.a)
      case Comp(_, elt, x, iter) =>
        var values := EvalItems(p, w, s, env, iter, t.a);
        if values.None? then None else EvalEach(p, w, s, env, elt, x, values.value, t.b)
      case _ => Some(Unknown(t))
  }

  function Unknown(t: Trace): seq<Value> {
    if t.End? then [] else [t.other] + Unknown(t.b)
  }

  ghost function EvalAll(p: Program, w: World, s: Scope, env: Env, es: Exprs, t: Trace): Option<seq<Value>>
    decreases t, 1
  {
    if es.NoExprs? then Some([])
    else if t.End? then None
    else
      var v, rest := Eval(p, w, s, env, es.head, t.a), EvalAll(p, w, s, env, es.tail, t.b);
      if v.None? || rest.None? then None else Some([v.value] + rest.value)
  }

  ghost function EvalEach(p: Program, w: World, s: Scope, env: Env, elt: Expr, x: string, values: seq<Value>, t: Trace)
      : Option<seq<Value>>
    decreases t, 1
  {
    if values == [] then Some([])
    else if t.End? then None
    else
      var v := Eval(p, w, s, env[x := values[0]], elt, t.a);
      var rest := EvalEach(p, w, s, env, elt, x, values[1..], t.b);
      if v.None? || rest.None? then None else Some([v.value] + rest.value)
  }

  // ----- worlds a run can be in

  ghost predicate CanBe(p: Program, w: World, s: Scope, env: Env, e: Expr, v: Value) {
    exists t :: Eval(p, w, s, env, e, t) == Some(v)
  }

  /** The caller's part of the world. */
  function CallerOf(w: World): World {
    if w.stack.Frame? then World(w.globals, w.stack.caller) else w
  }

  /** v comes from this binding: its expression can be v, or it is one the folder does not follow. */
  ghost predicate FromBind(p: Program, w: World, s: Scope, b: Bind, v: Value) {
    match b
    case Assign(_, e) => CanBe(p, w, s, map[], e, v)
    case Import(_, source, attr) =>
      s.func.Some? || (source, attr, v) in w.globals || !BoundIn(BindsOf(p, source), attr)
    case _ => true
  }

  ghost predicate FromOneOf(p: Program, w: World, s: Scope, binds: seq<Bind>, x: string, v: Value) {
    exists i :: 0 <= i < |binds| && binds[i].name == x && FromBind(p, w, s, binds[i], v)
  }

  /** v is the argument of the call; anything for a function run from elsewhere, or for an argument left out. */
  ghost predicate FromCall(p: Program, w: World, f: Func, x: string, v: Value) {
    var calls := CallsTo(p, f.name);
    && w.stack.Frame?
    && x in f.params
    && (Entry(p, f) ||
        (&& w.stack.site.Some?
         && w.stack.site.value < |calls|
         && Reaches(calls[w.stack.site.value], f)
         && var call := calls[w.stack.site.value];
            var arg := ArgOf(f, call, x);
            arg.Some? ==> CanBe(p, CallerOf(w), call.scope, w.stack.loops, arg.value, v)))
  }

  /** Each local has a value one of its bindings or the call gives, and so on for the callers. */
  ghost predicate StackJustified(p: Program, w: World, s: Scope)
    decreases w.stack
  {
    s.func.Some? && w.stack.Frame? ==>
      var f, calls := s.func.value, CallsTo(p, s.func.value.name);
      && (forall x, v :: (x, v) in w.stack.vals ==> FromCall(p, w, f, x, v) || FromOneOf(p, w, s, f.binds, x, v))
      && (w.stack.site.Some? ==>
            && w.stack.site.value < |calls|
            && Reaches(calls[w.stack.site.value], f)
            && w.stack.loops.Keys == calls[w.stack.site.value].loops
            && StackJustified(p, CallerOf(w), calls[w.stack.site.value].scope))
  }

  ghost predicate GlobalsJustified(p: Program, globals: iset<(string, string, Value)>) {
    forall m, x, v :: (m, x, v) in globals ==>
      FromOneOf(p, World(globals, Base), Scope(m, None), BindsOf(p, m), x, v)
  }

  /** A world the program can be in while it evaluates an expression of the scope. */
  ghost predicate Justified(p: Program, w: World, s: Scope) {
    GlobalsJustified(p, w.globals) && StackJustified(p, w, s)
  }

  /** Every name stands for at most one value. */
  ghost predicate OneMoment(w: World) {
    && (forall m, x, u, v :: (m, x, u) in w.globals && (m, x, v) in w.globals ==> u == v)
    && OneValueEach(w.stack)
  }

  ghost predicate OneValueEach(st: Stack) {
    st.Frame? ==>
      && (forall x, u, v :: (x, u) in st.vals && (x, v) in st.vals ==> u == v)
      && OneValueEach(st.caller)
  }
}
