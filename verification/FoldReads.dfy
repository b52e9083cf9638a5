/** Which names `fold` follows from an expression, and whether one with several values is read more than once. */
module FoldReads {
  import opened Wrappers
  import opened FoldSyntax
  import opened Fold

  /** A local or parameter, or the call an activation came by, so many callers away; or a module constant. */
  datatype Key = LocalKey(depth: nat, x: string) | CallKey(depth: nat) | GlobalKey(mod: string, x: string)

  /** All that is read, and what of it has several values. */
  datatype Uses = Uses(many: set<Key>, all: set<Key>)

  type Reads = Option<Uses>

  const NOTHING: Reads := Some(Uses({}, {}))

  /** Both are read: None if one reads what has several values to the other. */
  function Both(a: Reads, b: Reads): Reads {
    if a.None? || b.None? || !(a.value.many !! b.value.all) || !(a.value.all !! b.value.many) then None
    else Some(Uses(a.value.many + b.value.many, a.value.all + b.value.all))
  }

  /** One or the other is read. */
  function Either(a: Reads, b: Reads): Reads {
    if a.None? || b.None? then None
    else Some(Uses(a.value.many + b.value.many, a.value.all + b.value.all))
  }

  predicate SeveralValues(vs: seq<string>) {
    exists i, j :: 0 <= i < j < |vs| && vs[i] != vs[j]
  }

  /** A name is read, and what is behind it. */
  function With(key: Key, several: bool, behind: Reads): Reads {
    if behind.None? || key in behind.value.all + behind.value.many then None
    else Some(Uses(if several then behind.value.many + {key} else behind.value.many, behind.value.all + {key}))
  }

  ghost function ReadsOf(p: Program, s: Scope, depth: nat, e: Expr, seen: set<nat>, bound: Bound): Reads
    requires Sourced(p) && KnownScope(s, p.nodes) && Known(e, p.nodes)
    decreases p.nodes - seen, 1
  {
    if e.id in seen then NOTHING else
      var now := seen + {e.id};
      match e
      case Add(_, left, right) =>
        var b1 := Fold.Fold(p, s, left, now, bound).1;
        Both(ReadsOf(p, s, depth, left, now, bound), ReadsOf(p, s, depth, right, now, b1))
      case Joined(_, parts) => ReadsOfParts(p, s, depth, parts, now, bound)
      case If(_, body, orelse) =>
        var b1 := Fold.Fold(p, s, body, now, bound).1;
        Either(ReadsOf(p, s, depth, body, now, bound), ReadsOf(p, s, depth, orelse, now, b1))
      case Replace(_, base, what, put, _) =>
        var b1 := Fold.Fold(p, s, base, now, bound).1;
        var b2 := Fold.Fold(p, s, what, now, b1).1;
        Both(ReadsOf(p, s, depth, base, now, bound),
             Both(ReadsOf(p, s, depth, what, now, b1), ReadsOf(p, s, depth, put, now, b2)))
      case Join(_, base, arg) =>
        var b1 := Fold.Fold(p, s, base, now, bound).1;
        Both(ReadsOf(p, s, depth, base, now, bound), ReadsOfItems(p, s, depth, arg, now, b1))
      case Name(_, x) => ReadsOfName(p, s, depth, x, now, bound)
      case _ => NOTHING
  }

  ghost function ReadsOfName(p: Program, s: Scope, depth: nat, x: string, seen: set<nat>, bound: Bound): Reads
    requires Sourced(p) && KnownScope(s, p.nodes)
    decreases p.nodes - seen, 4
  {
    var folded := FoldName(p, s, x, seen, bound).0;
    var several := folded.Some? && SeveralValues(folded.value);
    if x in bound then NOTHING
    else if s.func.Some? && Local(s.func.value, x).Some? then
      With(LocalKey(depth, x), several,
           ReadsOf(p, s, depth, s.func.value.binds[Local(s.func.value, x).value].e, seen, bound))
    else if s.func.Some? && ParamValues(p, s.func.value, x, seen, bound).0.Some? then
      var calls := CallsTo(p, s.func.value.name);
      With(LocalKey(depth, x), several,
           With(CallKey(depth), several && |calls| > 1,
                ReadsOfCalls(p, s.func.value, depth + 1, x, calls, seen, bound)))
    else
      ReadsOfGlobal(p, s.mod, x, seen, if s.func.Some? then ParamValues(p, s.func.value, x, seen, bound).1 else bound)
  }

  ghost function ReadsOfGlobal(p: Program, mod: string, x: string, seen: set<nat>, bound: Bound): Reads
    requires Sourced(p)
    decreases p.nodes - seen, 3, p.depth(mod, x)
  {
    var k := Kept(BindsOf(p, mod), x);
    if k.None? then NOTHING else
      var folded := FoldGlobal(p, mod, x, seen, bound).0;
      var several := folded.Some? && SeveralValues(folded.value);
      match BindsOf(p, mod)[k.value]
      case Assign(_, e) => With(GlobalKey(mod, x), several, ReadsOf(p, Scope(mod, None), 0, e, seen, bound))
      case Import(_, source, attr) => With(GlobalKey(mod, x), several, ReadsOfGlobal(p, source, attr, seen, bound))
  }

  ghost function ReadsOfParts(p: Program, s: Scope, depth: nat, parts: Parts, seen: set<nat>, bound: Bound): Reads
    requires Sourced(p) && KnownScope(s, p.nodes) && KnownParts(parts, p.nodes)
    decreases p.nodes - seen, 2, parts
  {
    match parts
    case NoParts => NOTHING
    case Hole(e, tail) =>
      var b1 := Fold.Fold(p, s, e, seen, bound).1;
      Both(ReadsOf(p, s, depth, e, seen, bound), ReadsOfParts(p, s, depth, tail, seen, b1))
    case _ => ReadsOfParts(p, s, depth, parts.tail, seen, bound)
  }

  ghost function ReadsOfItems(p: Program, s: Scope, depth: nat, e: Expr, seen: set<nat>, bound: Bound): Reads
    requires Sourced(p) && KnownScope(s, p.nodes) && Known(e, p.nodes)
    decreases p.nodes - seen, 2, e
  {
    match e
    case List(_, elts) => ReadsOfAll(p, s, depth, elts, seen, bound)
    case Comp(_, elt, x, iter) =>
      var (values, b1) := Items(p, s, iter, seen, bound);
      if values.None? then NOTHING
      else Both(ReadsOfItems(p, s, depth, iter, seen, bound), ReadsOfEach(p, s, depth, elt, x, values.value, seen, b1))
    case _ => NOTHING
  }

  ghost function ReadsOfAll(p: Program, s: Scope, depth: nat, es: Exprs, seen: set<nat>, bound: Bound): Reads
    requires Sourced(p) && KnownScope(s, p.nodes) && KnownAll(es, p.nodes)
    decreases p.nodes - seen, 2, es
  {
    if es.NoExprs? then NOTHING else
      Both(ReadsOf(p, s, depth, es.head, seen, bound),
           ReadsOfAll(p, s, depth, es.tail, seen, Fold.Fold(p, s, es.head, seen, bound).1))
  }

  ghost function ReadsOfEach(p: Program, s: Scope, depth: nat, elt: Expr, x: string, values: seq<string>,
                             seen: set<nat>, bound: Bound): Reads
    requires Sourced(p) && KnownScope(s, p.nodes) && Known(elt, p.nodes)
    decreases p.nodes - seen, 2, elt, |values|
  {
    if values == [] then NOTHING else
      var b0 := bound[x := values[0]];
      Both(ReadsOf(p, s, depth, elt, seen, b0),
           ReadsOfEach(p, s, depth, elt, x, values[1..], seen, Fold.Fold(p, s, elt, seen, b0).1 - {x}))
  }

  /** None if one of the calls reaches another function of the name only. */
  ghost function ReadsOfCalls(p: Program, f: Func, depth: nat, x: string, calls: seq<Site>, seen: set<nat>,
                              bound: Bound): Reads
    requires Sourced(p) && forall i :: 0 <= i < |calls| ==> KnownSite(calls[i], p.nodes)
    decreases p.nodes - seen, 2, |calls|
  {
    if calls == [] || ArgOf(f, calls[0], x).None? then NOTHING
    else if !Reaches(calls[0], f) then None
    else
      assert KnownSite(calls[0], p.nodes);
      ArgIsKnown(f, calls[0], x, p.nodes);
      var arg := ArgOf(f, calls[0], x).value;
      Either(ReadsOf(p, calls[0].scope, depth, arg, seen, bound),
             ReadsOfCalls(p, f, depth, x, calls[1..], seen, Fold.Fold(p, calls[0].scope, arg, seen, bound).1))
  }
}
