/** `fold`, `items` and `param_values` as functions: what each returns and what it leaves in `BOUND`. */
module Fold {
  import opened Wrappers
  import opened FoldSyntax
  import opened FoldText

  const MAX := 32

  type Bound = map<string, string>

  type Folded = (Option<seq<string>>, Bound)

  // ----- text

  function ReplaceEach(base: seq<string>, what: string, put: string, n: int): (r: seq<string>)
    ensures |r| == |base| && forall i :: 0 <= i < |base| ==> r[i] == PyReplace(base[i], what, put, n)
  {
    seq(|base|, i requires 0 <= i < |base| => PyReplace(base[i], what, put, n))
  }

  /** `[a + b for a in left for b in right]` */
  function Product(left: seq<string>, right: seq<string>): (r: seq<string>)
    ensures |r| == |left| * |right|
  {
    if left == [] then [] else
      var row := seq(|right|, i requires 0 <= i < |right| => left[0] + right[i]);
      row + Product(left[1..], right)
  }

  /** `out.extend(v for v in value if v not in out)` */
  function AddNew(out: seq<string>, value: seq<string>): (r: seq<string>)
    ensures forall v :: v in r <==> v in out || v in value
    decreases |value|
  {
    if value == [] then out else
      AddNew(if value[0] in out then out else out + [value[0]], value[1..])
  }

  /** Python's truth of `list[str] | None` */
  predicate Truthy(v: Option<seq<string>>) {
    v.Some? && v.value != []
  }

  predicate Single(v: Option<seq<string>>) {
    v.Some? && |v.value| == 1
  }

  /** The number passed to `replace`; an expression that is no constant counts as "all". */
  function CountOf(c: Count): Option<int> {
    match c
    case All => Some(-1)
    case Times(n) => Some(n)
    case NotInt => None
    case Dynamic => Some(-1)
  }

  /** Every binding of a is one of b. */
  predicate Within(a: Bound, b: Bound) {
    forall x :: x in a ==> x in b && a[x] == b[x]
  }

  // ----- the folder

  ghost function Fold(p: Program, s: Scope, e: Expr, seen: set<nat>, bound: Bound): (r: Folded)
    requires Sourced(p) && KnownScope(s, p.nodes) && Known(e, p.nodes)
    ensures Within(r.1, bound)
    ensures r.0.Some? ==> r.0.value != []
    decreases p.nodes - seen, 1
  {
    if e.id in seen then (None, bound) else
      var now := seen + {e.id};
      match e
      case Const(_, c) => (Some([c]), bound)
      case Add(_, left, right) =>
        var (l, b1) := Fold(p, s, left, now, bound);
        if !Truthy(l) then (None, b1) else
          var (r, b2) := Fold(p, s, right, now, b1);
          if !Truthy(r) then (None, b2)
          else (if |l.value| * |r.value| <= MAX then Some(Product(l.value, r.value)) else None, b2)
      case Joined(_, parts) => FoldParts(p, s, parts, [""], now, bound)
      case If(_, body, orelse) =>
        var (l, b1) := Fold(p, s, body, now, bound);
        if !Truthy(l) then (None, b1) else
          var (r, b2) := Fold(p, s, orelse, now, b1);
          (if Truthy(r) then Some(l.value + r.value) else None, b2)
      case Replace(_, base, what, put, count) =>
        var (v, b1) := Fold(p, s, base, now, bound);
        if !Truthy(v) then (None, b1) else
          var (w, b2) := Fold(p, s, what, now, b1);
          var (y, b3) := Fold(p, s, put, now, b2);
          (if Single(w) && Single(y) && CountOf(count).Some?
           then Some(ReplaceEach(v.value, w.value[0], y.value[0], CountOf(count).value)) else None, b3)
      case Join(_, base, arg) =>
        var (v, b1) := Fold(p, s, base, now, bound);
        if !Single(v) then (None, b1) else
          var (items, b2) := Items(p, s, arg, now, b1);
          (if items.Some? then Some([PyJoin(v.value[0], items.value)]) else None, b2)
      case Call(_, base) => (None, Fold(p, s, base, now, bound).1)
      case Name(_, x) => FoldName(p, s, x, now, bound)
      case _ => (None, bound)
  }

  /** A loop variable, else a single-assignment local, else a parameter that folds, else a constant of the module. */
  ghost function FoldName(p: Program, s: Scope, x: string, seen: set<nat>, bound: Bound): (r: Folded)
    requires Sourced(p) && KnownScope(s, p.nodes)
    ensures Within(r.1, bound)
    ensures r.0.Some? ==> r.0.value != []
    decreases p.nodes - seen, 4
  {
    if x in bound then (Some([bound[x]]), bound)
    else if s.func.Some? && Local(s.func.value, x).Some? then
      Fold(p, s, s.func.value.binds[Local(s.func.value, x).value].e, seen, bound)
    else
      var (v, b1) := if s.func.Some? then ParamValues(p, s.func.value, x, seen, bound) else (None, bound);
      if v.Some? then (v, b1) else FoldGlobal(p, s.mod, x, seen, b1)
  }

  /** The constant a module has under a name, imports followed. */
  ghost function FoldGlobal(p: Program, mod: string, x: string, seen: set<nat>, bound: Bound): (r: Folded)
    requires Sourced(p)
    ensures Within(r.1, bound)
    ensures r.0.Some? ==> r.0.value != []
    decreases p.nodes - seen, 3, p.depth(mod, x)
  {
    var i := Kept(BindsOf(p, mod), x);
    if i.None? then (None, bound) else
      match BindsOf(p, mod)[i.value]
      case Assign(_, e) => Fold(p, Scope(mod, None), e, seen, bound)
      case Import(_, source, attr) => FoldGlobal(p, source, attr, seen, bound)
  }

  ghost function FoldParts(p: Program, s: Scope, parts: Parts, out: seq<string>, seen: set<nat>, bound: Bound)
        : (r: Folded)
    requires Sourced(p) && KnownScope(s, p.nodes) && KnownParts(parts, p.nodes)
    ensures Within(r.1, bound)
    ensures out != [] && r.0.Some? ==> r.0.value != []
    decreases p.nodes - seen, 2, parts
  {
    match parts
    case NoParts => (Some(out), bound)
    case Lit(c, tail) => FoldParts(p, s, tail, Product(out, [c]), seen, bound)
    case Hole(e, tail) =>
      var (v, b1) := Fold(p, s, e, seen, bound);
      if !Truthy(v) then (None, b1)
      else if |out| * |v.value| > MAX then (None, b1)
      else FoldParts(p, s, tail, Product(out, v.value), seen, b1)
    case Spec(_) => (None, bound)
  }

  ghost function Items(p: Program, s: Scope, e: Expr, seen: set<nat>, bound: Bound): (r: Folded)
    requires Sourced(p) && KnownScope(s, p.nodes) && Known(e, p.nodes)
    ensures Within(r.1, bound)
    decreases p.nodes - seen, 2, e
  {
    match e
    case List(_, elts) => FoldAll(p, s, elts, seen, bound)
    case Comp(_, elt, x, iter) =>
      var (values, b1) := Items(p, s, iter, seen, bound);
      if values.None? then (None, b1) else FoldEach(p, s, elt, x, values.value, seen, b1)
    case _ => (None, bound)
  }

  /** Every element is folded before the answer is looked at. */
  ghost function FoldAll(p: Program, s: Scope, es: Exprs, seen: set<nat>, bound: Bound): (r: Folded)
    requires Sourced(p) && KnownScope(s, p.nodes) && KnownAll(es, p.nodes)
    ensures Within(r.1, bound)
    decreases p.nodes - seen, 2, es
  {
    match es
    case NoExprs => (Some([]), bound)
    case Exprs(e, tail) =>
      var (v, b1) := Fold(p, s, e, seen, bound);
      var (rest, b2) := FoldAll(p, s, tail, seen, b1);
      (if Single(v) && rest.Some? then Some(v.value + rest.value) else None, b2)
  }

  /** One turn of the comprehension's loop per value: bind x, fold, unbind x. */
  ghost function FoldEach(p: Program, s: Scope, elt: Expr, x: string, values: seq<string>, seen: set<nat>,
                          bound: Bound): (r: Folded)
    requires Sourced(p) && KnownScope(s, p.nodes) && Known(elt, p.nodes)
    ensures Within(r.1, bound)
    decreases p.nodes - seen, 2, elt, |values|
  {
    if values == [] then (Some([]), bound) else
      var (v, b1) := Fold(p, s, elt, seen, bound[x := values[0]]);
      if !Single(v) then (None, b1 - {x}) else
        var (rest, b2) := FoldEach(p, s, elt, x, values[1..], seen, b1 - {x});
        (if rest.Some? then Some(v.value + rest.value) else None, b2)
  }

  ghost function ParamValues(p: Program, f: Func, x: string, seen: set<nat>, bound: Bound): (r: Folded)
    requires Sourced(p)
    ensures Within(r.1, bound)
    ensures r.0.Some? ==> r.0.value != []
    decreases p.nodes - seen, 3
  {
    if x !in f.params || CallsTo(p, f.name) == [] then (None, bound)
    else FoldCalls(p, f, x, CallsTo(p, f.name), [], seen, bound)
  }

  ghost function FoldCalls(p: Program, f: Func, x: string, calls: seq<Site>, out: seq<string>, seen: set<nat>,
                           bound: Bound): (r: Folded)
    requires Sourced(p) && forall i :: 0 <= i < |calls| ==> KnownSite(calls[i], p.nodes)
    ensures Within(r.1, bound)
    ensures r.0.Some? && (out != [] || calls != []) ==> r.0.value != []
    decreases p.nodes - seen, 2, |calls|
  {
    if calls == [] then (if |out| <= MAX then Some(out) else None, bound) else
      var arg := ArgOf(f, calls[0], x);
      if arg.None? then (None, bound) else
        assert KnownSite(calls[0], p.nodes);
        ArgIsKnown(f, calls[0], x, p.nodes);
        var (v, b1) := Fold(p, calls[0].scope, arg.value, seen, bound);
        if !Truthy(v) then (None, b1) else FoldCalls(p, f, x, calls[1..], AddNew(out, v.value), seen, b1)
  }
}
