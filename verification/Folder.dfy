/** The folder as it runs: `BOUND` is set and cleared in place, and lists and dictionaries grow in loops. */
module Folder {
  import opened Wrappers
  import opened Sequences
  import opened FoldSyntax
  import opened FoldText
  import Spec = Fold

  // ----- the lookup tables

  /** `locals_of` */
  method LocalsOf(f: Func) returns (locals: map<string, Expr>)
    ensures forall x :: x in locals <==> Local(f, x).Some?
    ensures forall x :: x in locals ==> locals[x] == f.binds[Local(f, x).value].e
  {
    var counts: map<string, nat>, values: map<string, Expr> := map[], map[];
    for i := 0 to |f.binds|
      invariant forall x :: Assigned(f.binds[..i], x) == if x in counts then counts[x] else 0
      invariant forall x :: x in values <==> LastAssigned(f.binds[..i], x).Some?
      invariant forall x :: x in values ==> values[x] == f.binds[LastAssigned(f.binds[..i], x).value].e
    {
      var b := f.binds[i];
      assert f.binds[..i + 1][..i] == f.binds[..i];
      var n := if b.name in counts then counts[b.name] else 0;
      if b.Assign? {
        counts := counts[b.name := n + 1];
        values := values[b.name := b.e];
      } else if b.Counted? {
        counts := counts[b.name := n + 2];
      }
    }
    assert f.binds[..|f.binds|] == f.binds;
    locals := map x | x in counts && counts[x] == 1 && x in values :: values[x];
  }

  ghost function KeptOf(binds: seq<Bind>, n: nat, x: string): (i: Option<nat>)
    requires n <= |binds|
    ensures i.Some? ==> i.value < |binds|
    ensures n == 0 ==> i.None?
    ensures n == |binds| ==> i == Kept(binds, x)
  {
    assert n == |binds| ==> binds[..n] == binds;
    Kept(binds[..n], x)
  }

  lemma KeptStep(binds: seq<Bind>, i: nat, x: string)
    requires i < |binds|
    ensures var earlier := KeptOf(binds, i, x);
            KeptOf(binds, i + 1, x) ==
            if binds[i].Assign? && binds[i].name == x then Some(i)
            else if binds[i].Import? && binds[i].name == x && earlier.None? then Some(i)
            else earlier
  {
    assert binds[..i + 1][..i] == binds[..i];
  }

  /** `module_constants`; an import is kept as the binding itself. */
  method ModuleConstants(p: Program, mod: string) returns (out: map<string, Bind>)
    ensures forall x :: x in out <==> Kept(BindsOf(p, mod), x).Some?
    ensures forall x :: x in out ==> out[x] == BindsOf(p, mod)[Kept(BindsOf(p, mod), x).value]
  {
    hide Kept, KeptOf;
    var binds := BindsOf(p, mod);
    out := map[];
    for i := 0 to |binds|
      invariant forall x :: x in out <==> KeptOf(binds, i, x).Some?
      invariant forall x :: x in out ==> out[x] == binds[KeptOf(binds, i, x).value]
    {
      var b := binds[i];
      forall x ensures var earlier := KeptOf(binds, i, x);
                       KeptOf(binds, i + 1, x) ==
                       if b.name == x && (b.Assign? || (b.Import? && earlier.None?)) then Some(i) else earlier
      {
        KeptStep(binds, i, x);
      }
      if b.Assign? || (b.Import? && b.name !in out) {
        out := out[b.name := b];
      }
    }
  }

  // ----- lists that grow

  ghost function After(out: seq<string>, r: Spec.Folded): Spec.Folded {
    (if r.0.Some? then Some(out + r.0.value) else None, r.1)
  }

  lemma AfterNothing(r: Spec.Folded)
    ensures After([], r) == r
  {
    assert r.0.Some? ==> [] + r.0.value == r.0.value;
  }

  lemma AfterAll(out: seq<string>, bound: Spec.Bound)
    ensures After(out, (Some([]), bound)) == (Some(out), bound)
  {
    assert out + [] == out;
  }

  lemma AfterMore(out: seq<string>, v: seq<string>, r: Spec.Folded)
    ensures After(out, After(v, r)) == After(out + v, r)
  {
    if r.0.Some? {
      Regroup(out, v, r.0.value);
    }
  }

  ghost function OnlyIf(single: bool, r: Spec.Folded): Spec.Folded {
    (if single then r.0 else None, r.1)
  }

  // ----- the folder

  class Folder {
    var bound: map<string, string>
    const p: Program

    constructor (p: Program)
      ensures this.p == p && bound == map[]
    {
      this.p := p;
      bound := map[];
    }

    /** `fold` */
    method Fold(s: Scope, e: Expr, seen: set<nat>) returns (r: Option<seq<string>>)
      requires Sourced(p) && KnownScope(s, p.nodes) && Known(e, p.nodes)
      modifies this
      ensures (r, bound) == Spec.Fold(p, s, e, seen, old(bound))
      decreases p.nodes - seen, 1
    {
      if e.id in seen {
        return None;
      }
      var now := seen + {e.id};
      match e {
        case Const(_, c) =>
          return Some([c]);
        case Add(_, left, right) =>
          var l := Fold(s, left, now);
          if !Spec.Truthy(l) {
            return None;
          }
          var w := Fold(s, right, now);
          if !Spec.Truthy(w) {
            return None;
          }
          var out := Spec.Product(l.value, w.value);
          return if |out| <= Spec.MAX then Some(out) else None;
        case Joined(_, parts) =>
          r := FoldParts(s, parts, now);
        case If(_, body, orelse) =>
          var l := Fold(s, body, now);
          if !Spec.Truthy(l) {
            return None;
          }
          var w := Fold(s, orelse, now);
          return if Spec.Truthy(w) then Some(l.value + w.value) else None;
        case Replace(_, base, what, put, count) =>
          var v := Fold(s, base, now);
          if !Spec.Truthy(v) {
            return None;
          }
          var w := Fold(s, what, now);
          var y := Fold(s, put, now);
          var n := Spec.CountOf(count);
          if Spec.Single(w) && Spec.Single(y) && n.Some? {
            return Some(Spec.ReplaceEach(v.value, w.value[0], y.value[0], n.value));
          }
          return None;
        case Join(_, base, arg) =>
          var v := Fold(s, base, now);
          if !Spec.Single(v) {
            return None;
          }
          var items := Items(s, arg, now);
          return if items.Some? then Some([PyJoin(v.value[0], items.value)]) else None;
        case Call(_, base) =>
          var v := Fold(s, base, now);
          return None;
        case Name(_, x) =>
          r := FoldName(s, x, now);
        case _ =>
          return None;
      }
    }

    method FoldName(s: Scope, x: string, seen: set<nat>) returns (r: Option<seq<string>>)
      requires Sourced(p) && KnownScope(s, p.nodes)
      modifies this
      ensures (r, bound) == Spec.FoldName(p, s, x, seen, old(bound))
      decreases p.nodes - seen, 5
    {
      if x in bound {
        return Some([bound[x]]);
      }
      if s.func.Some? {
        var locals := LocalsOf(s.func.value);
        if x in locals {
          r := Fold(s, locals[x], seen);
          return;
        }
        r := ParamValues(s.func.value, x, seen);
        if r.Some? {
          return;
        }
      }
      r := FoldGlobal(s.mod, x, seen);
    }

    method FoldGlobal(mod: string, x: string, seen: set<nat>) returns (r: Option<seq<string>>)
      requires Sourced(p)
      modifies this
      ensures (r, bound) == Spec.FoldGlobal(p, mod, x, seen, old(bound))
      decreases p.nodes - seen, 3, p.depth(mod, x)
    {
      var constants := ModuleConstants(p, mod);
      if x !in constants {
        return None;
      }
      match constants[x] {
        case Assign(_, e) => r := Fold(Scope(mod, None), e, seen);
        case Import(_, source, attr) => r := FoldGlobal(source, attr, seen);
      }
    }

    /** The f-string loop: `out` holds every text the pieces so far can make. */
    method FoldParts(s: Scope, parts: Parts, seen: set<nat>) returns (r: Option<seq<string>>)
      requires Sourced(p) && KnownScope(s, p.nodes) && KnownParts(parts, p.nodes)
      modifies this
      ensures (r, bound) == Spec.FoldParts(p, s, parts, [""], seen, old(bound))
      decreases p.nodes - seen, 2, parts
    {
      var out, rest := [""], parts;
      while rest != NoParts
        invariant KnownParts(rest, p.nodes)
        invariant Spec.FoldParts(p, s, rest, out, seen, bound) == Spec.FoldParts(p, s, parts, [""], seen, old(bound))
        decreases rest
      {
        match rest {
          case Lit(c, tail) =>
            out := Spec.Product(out, [c]);
            rest := tail;
          case Hole(e, tail) =>
            var v := Fold(s, e, seen);
            if !Spec.Truthy(v) || |Spec.Product(out, v.value)| > Spec.MAX {
              return None;
            }
            out := Spec.Product(out, v.value);
            rest := tail;
          case Spec(_) =>
            return None;
        }
      }
      return Some(out);
    }

    /** `items` */
    method Items(s: Scope, e: Expr, seen: set<nat>) returns (r: Option<seq<string>>)
      requires Sourced(p) && KnownScope(s, p.nodes) && Known(e, p.nodes)
      modifies this
      ensures (r, bound) == Spec.Items(p, s, e, seen, old(bound))
      decreases p.nodes - seen, 2, e
    {
      match e {
        case List(_, elts) =>
          r := FoldAll(s, elts, seen);
        case Comp(_, elt, x, iter) =>
          var values := Items(s, iter, seen);
          if values.None? {
            return None;
          }
          r := FoldEach(s, elt, x, values.value, seen);
        case _ =>
          return None;
      }
    }

    /** `[fold(e) for e in elts]`, then one string each or nothing */
    method FoldAll(s: Scope, es: Exprs, seen: set<nat>) returns (r: Option<seq<string>>)
      requires Sourced(p) && KnownScope(s, p.nodes) && KnownAll(es, p.nodes)
      modifies this
      ensures (r, bound) == Spec.FoldAll(p, s, es, seen, old(bound))
      decreases p.nodes - seen, 2, es
    {
      var parts: seq<string>, single, rest := [], true, es;
      AfterNothing(Spec.FoldAll(p, s, es, seen, bound));
      while rest != NoExprs
        invariant KnownAll(rest, p.nodes)
        invariant Spec.FoldAll(p, s, es, seen, old(bound)) ==
                  OnlyIf(single, After(parts, Spec.FoldAll(p, s, rest, seen, bound)))
        decreases rest
      {
        var v := Fold(s, rest.head, seen);
        if Spec.Single(v) {
          AfterMore(parts, v.value, Spec.FoldAll(p, s, rest.tail, seen, bound));
          parts := parts + v.value;
        } else {
          single := false;
        }
        rest := rest.tail;
      }
      AfterAll(parts, bound);
      return if single then Some(parts) else None;
    }

    /** The comprehension's loop: bind, fold, unbind, whatever came out. */
    method FoldEach(s: Scope, elt: Expr, x: string, values: seq<string>, seen: set<nat>)
          returns (r: Option<seq<string>>)
      requires Sourced(p) && KnownScope(s, p.nodes) && Known(elt, p.nodes)
      modifies this
      ensures (r, bound) == Spec.FoldEach(p, s, elt, x, values, seen, old(bound))
      decreases p.nodes - seen, 2, elt
    {
      hide Sourced, KnownScope;
      var out: seq<string> := [];
      AfterNothing(Spec.FoldEach(p, s, elt, x, values, seen, bound));
      for i := 0 to |values|
        invariant Spec.FoldEach(p, s, elt, x, values, seen, old(bound)) ==
                  After(out, Spec.FoldEach(p, s, elt, x, values[i..], seen, bound))
      {
        assert values[i..][0] == values[i] && values[i..][1..] == values[i + 1..];
        bound := bound[x := values[i]];
        var part := Fold(s, elt, seen);
        bound := bound - {x};
        if !Spec.Single(part) {
          return None;
        }
        AfterMore(out, part.value, Spec.FoldEach(p, s, elt, x, values[i + 1..], seen, bound));
        out := out + part.value;
      }
      AfterAll(out, bound);
      return Some(out);
    }

    /** `param_values` */
    method ParamValues(f: Func, x: string, seen: set<nat>) returns (r: Option<seq<string>>)
      requires Sourced(p)
      modifies this
      ensures (r, bound) == Spec.ParamValues(p, f, x, seen, old(bound))
      decreases p.nodes - seen, 3
    {
      var calls := CallsTo(p, f.name);
      if x !in f.params || calls == [] {
        return None;
      }
      var out: seq<string> := [];
      for i := 0 to |calls|
        invariant Spec.FoldCalls(p, f, x, calls[i..], out, seen, bound) ==
                  Spec.FoldCalls(p, f, x, calls, [], seen, old(bound))
      {
        assert calls[i..][0] == calls[i] && calls[i..][1..] == calls[i + 1..];
        var arg := ArgOf(f, calls[i], x);
        if arg.None? {
          return None;
        }
        assert KnownSite(calls[i], p.nodes);
        ArgIsKnown(f, calls[i], x, p.nodes);
        var value := Fold(calls[i].scope, arg.value, seen);
        if !Spec.Truthy(value) {
          return None;
        }
        out := Spec.AddNew(out, value.value);
      }
      return if |out| <= Spec.MAX then Some(out) else None;
    }
  }
}
