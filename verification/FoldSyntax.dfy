/** The expressions, modules, functions and call sites that the constant folder reads. */
module FoldSyntax {
  import opened Wrappers

  /** `str.replace`'s third argument: left out, an int constant, another constant, or any other expression. */
  datatype Count = All | Times(n: int) | NotInt | Dynamic

  /** Each node has the identity `id`; Call is a method call other than a well-formed replace or join. */
  datatype Expr =
    | Const(id: nat, s: string)
    | Add(id: nat, left: Expr, right: Expr)
    | Joined(id: nat, parts: Parts)
    | If(id: nat, body: Expr, orelse: Expr)
    | Replace(id: nat, base: Expr, what: Expr, put: Expr, count: Count)
    | Join(id: nat, base: Expr, arg: Expr)
    | Call(id: nat, base: Expr)
    | Name(id: nat, x: string)
    | List(id: nat, elts: Exprs)
    | Comp(id: nat, elt: Expr, x: string, iter: Expr)
    | Other(id: nat)

  datatype Exprs = NoExprs | Exprs(head: Expr, tail: Exprs)

  /** The pieces of an f-string; Spec is a hole with a conversion or a format. */
  datatype Parts = NoParts | Lit(s: string, tail: Parts) | Hole(e: Expr, tail: Parts) | Spec(tail: Parts)

  /**
   What binds a name: an assignment the folder reads, an import, an augmented or
   annotated assignment in a function, or anything the folder does not look at.
   */
  datatype Bind =
    | Assign(name: string, e: Expr)
    | Import(name: string, source: string, attr: string)
    | Counted(name: string)
    | Hidden(name: string)

  /** `id` tells functions of one name apart, as the folder does not. */
  datatype Func = Func(id: nat, name: string, params: seq<string>, binds: seq<Bind>)

  datatype Scope = Scope(mod: string, func: Option<Func>)

  /**
   A call: where it stands, the functions of its name it can reach, the loop
   variables of the comprehensions around it, its arguments and its keywords.
   */
  datatype Site =
    Site(scope: Scope, reaches: set<nat>, loops: set<string>, args: seq<Expr>, keywords: seq<(string, Expr)>)

  /** `nodes` holds the identities of all nodes; `depth` ranks module names so that imports go down. */
  datatype Program = Program(modules: map<string, seq<Bind>>, calls: map<string, seq<Site>>,
                             nodes: set<nat>, depth: (string, string) -> nat)

  function BindsOf(p: Program, mod: string): seq<Bind> {
    if mod in p.modules then p.modules[mod] else []
  }

  function CallsTo(p: Program, name: string): seq<Site> {
    if name in p.calls then p.calls[name] else []
  }

  predicate Reaches(call: Site, f: Func) {
    f.id in call.reaches
  }

  /** No call by its name reaches the function: it is run from elsewhere, as a request handler is. */
  predicate Entry(p: Program, f: Func) {
    forall i :: 0 <= i < |CallsTo(p, f.name)| ==> !Reaches(CallsTo(p, f.name)[i], f)
  }

  // ----- what a name is bound to

  predicate Defines(b: Bind, x: string) {
    b.name == x && (b.Assign? || b.Import?)
  }

  /** The binding `module_constants` keeps for x: the last assignment, else the first import. */
  function Kept(binds: seq<Bind>, x: string): (i: Option<nat>)
    ensures i.Some? ==> i.value < |binds| && Defines(binds[i.value], x)
  {
    if binds == [] then None else
      var n := |binds| - 1;
      var earlier := Kept(binds[..n], x);
      if binds[n].Assign? && binds[n].name == x then Some(n)
      else if binds[n].Import? && binds[n].name == x && earlier.None? then Some(n)
      else earlier
  }

  /** How often `locals_of` counts x as assigned. */
  function Assigned(binds: seq<Bind>, x: string): nat {
    if binds == [] then 0 else
      var b := binds[|binds| - 1];
      Assigned(binds[..|binds| - 1], x)
      + if b.name != x then 0 else if b.Assign? then 1 else if b.Counted? then 2 else 0
  }

  function LastAssigned(binds: seq<Bind>, x: string): (i: Option<nat>)
    ensures i.Some? ==> i.value < |binds| && binds[i.value].Assign? && binds[i.value].name == x
  {
    if binds == [] then None else
      var n := |binds| - 1;
      if binds[n].Assign? && binds[n].name == x then Some(n) else LastAssigned(binds[..n], x)
  }

  /** The one assignment `locals_of` takes x from. */
  function Local(f: Func, x: string): (i: Option<nat>)
    ensures i.Some? ==> i.value < |f.binds| && f.binds[i.value].Assign? && f.binds[i.value].name == x
  {
    if Assigned(f.binds, x) == 1 then LastAssigned(f.binds, x) else None
  }

  function Position(xs: seq<string>, x: string): (i: nat)
    ensures i <= |xs| && (i < |xs| ==> xs[i] == x) && (i < |xs| <==> x in xs)
  {
    if xs == [] || xs[0] == x then 0 else 1 + Position(xs[1..], x)
  }

  function Keyword(keywords: seq<(string, Expr)>, x: string): (i: nat)
    ensures i <= |keywords| && (i < |keywords| ==> keywords[i].0 == x)
  {
    if keywords == [] || keywords[0].0 == x then 0 else 1 + Keyword(keywords[1..], x)
  }

  /** The argument a call gives the parameter x: by keyword, else by position, a receiver not counted. */
  function ArgOf(f: Func, call: Site, x: string): Option<Expr> {
    var k := Keyword(call.keywords, x);
    var receiver := if f.params != [] && f.params[0] in ["self", "cls"] then 1 else 0;
    var i := Position(f.params, x) - receiver;
    if k < |call.keywords| then Some(call.keywords[k].1)
    else if 0 <= i < |call.args| then Some(call.args[i])
    else None
  }

  // ----- where nodes come from

  predicate Known(e: Expr, nodes: set<nat>) {
    e.id in nodes &&
    match e
    case Add(_, left, right) => Known(left, nodes) && Known(right, nodes)
    case Joined(_, parts) => KnownParts(parts, nodes)
    case If(_, body, orelse) => Known(body, nodes) && Known(orelse, nodes)
    case Replace(_, base, what, put, _) => Known(base, nodes) && Known(what, nodes) && Known(put, nodes)
    case Join(_, base, arg) => Known(base, nodes) && Known(arg, nodes)
    case Call(_, base) => Known(base, nodes)
    case List(_, elts) => KnownAll(elts, nodes)
    case Comp(_, elt, _, iter) => Known(elt, nodes) && Known(iter, nodes)
    case _ => true
  }

  predicate KnownAll(es: Exprs, nodes: set<nat>) {
    es.Exprs? ==> Known(es.head, nodes) && KnownAll(es.tail, nodes)
  }

  predicate KnownParts(parts: Parts, nodes: set<nat>) {
    match parts
    case NoParts => true
    case Hole(e, tail) => Known(e, nodes) && KnownParts(tail, nodes)
    case _ => KnownParts(parts.tail, nodes)
  }

  predicate KnownBinds(binds: seq<Bind>, nodes: set<nat>) {
    forall i :: 0 <= i < |binds| && binds[i].Assign? ==> Known(binds[i].e, nodes)
  }

  predicate KnownScope(s: Scope, nodes: set<nat>) {
    s.func.Some? ==> KnownBinds(s.func.value.binds, nodes)
  }

  predicate KnownSite(c: Site, nodes: set<nat>) {
    && KnownScope(c.scope, nodes)
    && (forall i :: 0 <= i < |c.args| ==> Known(c.args[i], nodes))
    && (forall i :: 0 <= i < |c.keywords| ==> Known(c.keywords[i].1, nodes))
  }

  lemma ArgIsKnown(f: Func, c: Site, x: string, nodes: set<nat>)
    requires KnownSite(c, nodes) && ArgOf(f, c, x).Some?
    ensures Known(ArgOf(f, c, x).value, nodes)
  {
  }

  predicate ImportsGoDown(p: Program, mod: string, binds: seq<Bind>) {
    forall i :: 0 <= i < |binds| && binds[i].Import? ==>
      p.depth(binds[i].source, binds[i].attr) < p.depth(mod, binds[i].name)
  }

  /** Every node is one of the program's, and no chain of imports comes back to its start. */
  predicate Sourced(p: Program) {
    && (forall m :: m in p.modules ==> KnownBinds(p.modules[m], p.nodes) && ImportsGoDown(p, m, p.modules[m]))
    && (forall f :: f in p.calls ==> forall i :: 0 <= i < |p.calls[f]| ==> KnownSite(p.calls[f][i], p.nodes))
  }
}
