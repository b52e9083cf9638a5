/** When the window's bound holds for all admissions of a key, evictions included: exactly when the keys in use fit. */
module WindowKeys {
  import opened Wrappers
  import opened SlidingWindow

  /** All admitted hits of `key`, whether it was evicted since or not. */
  function Admitted(log: seq<Served>, key: string): seq<real> {
    if log == [] then []
    else
      var n := |log| - 1;
      if log[n].key == key && log[n].allowed then Admitted(log[..n], key) + [log[n].now] else Admitted(log[..n], key)
  }

  predicate Among(calls: seq<Call>, keys: set<string>, limit: int) {
    forall i :: 0 <= i < |calls| ==> calls[i].key in keys && calls[i].limit <= limit
  }

  /** Whatever is called with these keys, any window of time admits at most `limit` of each. */
  ghost predicate Bounded(window: real, maxKeys: int, keys: set<string>, limit: nat) {
    forall calls, key, t :: Ordered(calls) && Among(calls, keys, limit) ==>
      CountIn(Admitted(Run(window, maxKeys, calls).log, key), window, t) <= limit
  }

  predicate Distinct(s: seq<string>) {
    forall i, j :: 0 <= i < j < |s| ==> s[i] != s[j]
  }

  // ----- enough room

  lemma {:induction false} DistinctFit(s: seq<string>, keys: set<string>)
    requires Distinct(s) && forall i :: 0 <= i < |s| ==> s[i] in keys
    ensures |s| <= |keys|
  {
    if s != [] {
      var n := |s| - 1;
      DistinctFit(s[..n], keys - {s[n]});
    }
  }

  lemma RunSnoc(window: real, maxKeys: int, calls: seq<Call>, call: Call)
    ensures var s := Run(window, maxKeys, calls);
            var (d, served) := Step(s.d, window, maxKeys, call);
            Run(window, maxKeys, calls + [call]) == State(d, s.log + [served])
  {
    assert (calls + [call])[..|calls|] == calls;
  }

  predicate AllIn(order: seq<string>, keys: set<string>) {
    forall i :: 0 <= i < |order| ==> order[i] in keys
  }

  predicate NoEviction(log: seq<Served>) {
    forall i :: 0 <= i < |log| ==> log[i].evicted == None
  }

  lemma FitsStep(s: State, window: real, maxKeys: int, call: Call, keys: set<string>)
    requires Refines(s, window, maxKeys) && AllIn(s.d.order, keys) && call.key in keys && |keys| <= maxKeys
    ensures var (d, served) := Step(s.d, window, maxKeys, call); AllIn(d.order, keys) && served.evicted == None
  {
    var served := Step(s.d, window, maxKeys, call).1;
    var kept := Drop(s.d.order, call.key);
    var order := kept + [call.key];
    StepKeepsOrder(s, window, maxKeys, call);
    OrderIsDistinct(order, s.log + [served]);
    hide Refines, Drop, ByLastUse, LastUse;
    forall i | 0 <= i < |order| ensures order[i] in keys {
      if i < |kept| {
        assert kept[i] in kept;
        var j :| 0 <= j < |s.d.order| && s.d.order[j] == kept[i];
      }
    }
    DistinctFit(order, keys);
  }

  /** Keys that fit are never evicted. */
  lemma {:induction false} NoneEvicted(window: real, maxKeys: int, calls: seq<Call>, keys: set<string>, limit: int)
    requires Ordered(calls) && Among(calls, keys, limit) && window > 0.0 && |keys| <= maxKeys
    ensures var s := Run(window, maxKeys, calls); AllIn(s.d.order, keys) && NoEviction(s.log)
  {
    if calls != [] {
      var n := |calls| - 1;
      NoneEvicted(window, maxKeys, calls[..n], keys, limit);
      RunRefines(window, maxKeys, calls[..n]);
      FitsStep(Run(window, maxKeys, calls[..n]), window, maxKeys, calls[n], keys);
      hide Step, Refines;
    }
  }

  lemma OrderIsDistinct(order: seq<string>, log: seq<Served>)
    requires ByLastUse(order, log)
    ensures Distinct(order)
  {
  }

  lemma {:induction false} AdmittedSince(log: seq<Served>, key: string)
    requires NoEviction(log)
    ensures Admitted(log, key) == Since(log, key)
  {
    if log != [] {
      AdmittedSince(log[..|log| - 1], key);
    }
  }

  lemma EnoughRoom(window: real, maxKeys: int, keys: set<string>, limit: nat)
    requires window > 0.0 && |keys| <= maxKeys
    ensures Bounded(window, maxKeys, keys, limit)
  {
    forall calls, key, t | Ordered(calls) && Among(calls, keys, limit)
      ensures CountIn(Admitted(Run(window, maxKeys, calls).log, key), window, t) <= limit
    {
      NoneEvicted(window, maxKeys, calls, keys, limit);
      AdmittedSince(Run(window, maxKeys, calls).log, key);
      AtMostLimitPerWindow(window, maxKeys, calls, key, limit, t);
    }
  }

  // ----- one key too many

  function Zeros(n: nat): (r: seq<real>)
    ensures |r| == n && forall i :: 0 <= i < n ==> r[i] == 0.0
  {
    seq(n, i => 0.0)
  }

  function Again(key: string, limit: int, n: nat): (calls: seq<Call>)
    ensures |calls| == n && forall i :: 0 <= i < n ==> calls[i] == Call(key, limit, 0.0)
  {
    seq(n, i => Call(key, limit, 0.0))
  }

  function Each(keys: seq<string>, limit: int): (calls: seq<Call>)
    ensures |calls| == |keys| && forall i :: 0 <= i < |keys| ==> calls[i] == Call(keys[i], limit, 0.0)
  {
    seq(|keys|, i requires 0 <= i < |keys| => Call(keys[i], limit, 0.0))
  }

  lemma {:induction false} PickDistinct(keys: set<string>, n: nat) returns (s: seq<string>)
    requires n <= |keys|
    ensures |s| == n && Distinct(s) && forall i :: 0 <= i < n ==> s[i] in keys
    decreases n
  {
    s := [];
    if n > 0 {
      var k :| k in keys;
      var rest := PickDistinct(keys - {k}, n - 1);
      s := [k] + rest;
    }
  }

  lemma {:induction false} DropAbsent(order: seq<string>, key: string)
    requires key !in order
    ensures Drop(order, key) == order
  {
    if order != [] {
      DropAbsent(order[1..], key);
      assert [order[0]] + order[1..] == order;
    }
  }

  lemma AdmittedSnoc(log: seq<Served>, served: Served, key: string)
    ensures Admitted(log + [served], key) ==
            if served.key == key && served.allowed then Admitted(log, key) + [served.now] else Admitted(log, key)
  {
    assert (log + [served])[..|log|] == log;
  }

  /** One key alone, with n hits at time 0. */
  function Filling(a: string, n: nat): Dict {
    if n == 0 then Dict([], map[]) else Dict([a], map[a := Zeros(n)])
  }

  lemma FillingStep(window: real, maxKeys: int, a: string, limit: nat, n: nat)
    requires window > 0.0 && maxKeys >= 1 && n < limit
    ensures Step(Filling(a, n), window, maxKeys, Call(a, limit, 0.0)) ==
            (Filling(a, n + 1), Served(a, limit, 0.0, true, None))
  {
    var none: seq<string> := [];
    assert Drop(none, a) == none && Drop([a], a) == none && none + [a] == [a];
    assert Zeros(n) + [0.0] == Zeros(n + 1);
    assert Hits(Filling(a, n), a) == Zeros(n);
    assert Pruned(Zeros(n), 0.0 - window) == Zeros(n);
    assert Filling(a, n).hits[a := Zeros(n + 1)] == Filling(a, n + 1).hits;
  }

  lemma NothingFilled(window: real, maxKeys: int, a: string, limit: nat)
    ensures Run(window, maxKeys, Again(a, limit, 0)) == State(Filling(a, 0), []) && Admitted([], a) == Zeros(0)
  {
    assert Again(a, limit, 0) == [];
  }

  lemma AgainSnoc(a: string, limit: nat, n: nat)
    ensures Again(a, limit, n + 1) == Again(a, limit, n) + [Call(a, limit, 0.0)]
    ensures Zeros(n) + [0.0] == Zeros(n + 1)
  {
  }

  /** The first calls fill one key. */
  lemma {:induction false} Filled(window: real, maxKeys: int, a: string, limit: nat, n: nat)
    requires window > 0.0 && maxKeys >= 1 && n <= limit
    ensures var s := Run(window, maxKeys, Again(a, limit, n)); s.d == Filling(a, n) && Admitted(s.log, a) == Zeros(n)
  {
    hide Run, Step, Filling, Admitted, Again, Zeros;
    if n == 0 {
      NothingFilled(window, maxKeys, a, limit);
    } else {
      Filled(window, maxKeys, a, limit, n - 1);
      FillingStep(window, maxKeys, a, limit, n - 1);
      AgainSnoc(a, limit, n - 1);
      RunSnoc(window, maxKeys, Again(a, limit, n - 1), Call(a, limit, 0.0));
      AdmittedSnoc(Run(window, maxKeys, Again(a, limit, n - 1)).log, Served(a, limit, 0.0, true, None), a);
    }
  }

  /** A new key comes last, and pushes the first out when there is no room. */
  lemma NewKeyStep(d: Dict, window: real, maxKeys: int, a: string, rest: seq<string>, call: Call)
    requires d.order == [a] + rest && call.key !in d.order && call.key != a
    ensures var (more, served) := Step(d, window, maxKeys, call);
            && served.key != a
            && (|rest| + 2 <= maxKeys ==> more.order == [a] + (rest + [call.key]))
            && (|rest| + 2 > maxKeys ==> a !in more.hits)
  {
    DropAbsent(d.order, call.key);
    assert [a] + rest + [call.key] == [a] + (rest + [call.key]);
  }

  function Bringing(a: string, others: seq<string>, limit: nat, j: nat): seq<Call>
    requires j <= |others|
  {
    Again(a, limit, limit) + Each(others[..j], limit)
  }

  lemma BringingOn(a: string, others: seq<string>, limit: nat, j: nat)
    requires j < |others|
    ensures Bringing(a, others, limit, j + 1) == Bringing(a, others, limit, j) + [Call(others[j], limit, 0.0)]
    ensures others[..j + 1] == others[..j] + [others[j]]
  {
  }

  lemma BringingNone(a: string, others: seq<string>, limit: nat)
    ensures Bringing(a, others, limit, 0) == Again(a, limit, limit) && [a] + others[..0] == [a]
  {
  }

  lemma LaterIsNew(a: string, others: seq<string>, j: nat)
    requires j < |others| && Distinct(others) && a !in others
    ensures others[j] !in others[..j] && others[j] != a && others[j] !in [a] + others[..j]
  {
  }

  /** The next ones bring in other keys, until the first is pushed out. */
  lemma {:induction false} PushedOut(window: real, maxKeys: int, a: string, others: seq<string>, limit: nat, j: nat)
    requires window > 0.0 && maxKeys >= 1 && limit >= 1 && j <= |others| == maxKeys && Distinct(others) && a !in others
    ensures var s := Run(window, maxKeys, Bringing(a, others, limit, j));
            && (j < maxKeys ==> s.d.order == [a] + others[..j])
            && (j == maxKeys ==> a !in s.d.hits)
            && Admitted(s.log, a) == Zeros(limit)
    decreases j
  {
    hide Run, Step, Bringing, Admitted, Zeros, Again, Distinct;
    if j == 0 {
      Filled(window, maxKeys, a, limit, limit);
      BringingNone(a, others, limit);
    } else {
      PushedOut(window, maxKeys, a, others, limit, j - 1);
      var before := Bringing(a, others, limit, j - 1);
      var call := Call(others[j - 1], limit, 0.0);
      BringingOn(a, others, limit, j - 1);
      RunSnoc(window, maxKeys, before, call);
      var s := Run(window, maxKeys, before);
      LaterIsNew(a, others, j - 1);
      NewKeyStep(s.d, window, maxKeys, a, others[..j - 1], call);
      AdmittedSnoc(s.log, Step(s.d, window, maxKeys, call).1, a);
    }
  }

  lemma {:induction false} CountZeros(n: nat, window: real)
    requires window > 0.0
    ensures CountIn(Zeros(n), window, 0.0) == n
  {
    if n > 0 {
      CountZeros(n - 1, window);
      assert Zeros(n)[1..] == Zeros(n - 1);
    }
  }

  /** Called again, the key pushed out is let through although its window is full. */
  lemma OnceMore(window: real, maxKeys: int, a: string, others: seq<string>, limit: nat)
    requires window > 0.0 && maxKeys >= 1 && limit >= 1 && |others| == maxKeys && Distinct(others) && a !in others
    ensures var calls := Bringing(a, others, limit, maxKeys) + [Call(a, limit, 0.0)];
            CountIn(Admitted(Run(window, maxKeys, calls).log, a), window, 0.0) == limit + 1
  {
    PushedOut(window, maxKeys, a, others, limit, maxKeys);
    var before, last := Bringing(a, others, limit, maxKeys), Call(a, limit, 0.0);
    RunSnoc(window, maxKeys, before, last);
    var s := Run(window, maxKeys, before);
    var served := Step(s.d, window, maxKeys, last).1;
    assert served.allowed && served.key == a && served.now == 0.0;
    AdmittedSnoc(s.log, served, a);
    hide Run, Step, Bringing, Admitted, CountIn;
    assert Zeros(limit) + [0.0] == Zeros(limit + 1);
    CountZeros(limit + 1, window);
  }

  lemma OneTooMany(window: real, maxKeys: int, keys: set<string>, limit: nat)
    requires window > 0.0 && maxKeys >= 1 && limit >= 1 && |keys| > maxKeys
    ensures !Bounded(window, maxKeys, keys, limit)
  {
    var a :| a in keys;
    var others := PickDistinct(keys - {a}, maxKeys);
    assert a !in others;
    OnceMore(window, maxKeys, a, others, limit);
    var calls := Bringing(a, others, limit, maxKeys) + [Call(a, limit, 0.0)];
    assert Ordered(calls) && Among(calls, keys, limit);
    hide Run, CountIn, Admitted, Bringing;
    assert CountIn(Admitted(Run(window, maxKeys, calls).log, a), window, 0.0) > limit;
  }

  /**
   The bound on all admissions of a key, not only those since its last
   eviction, holds for every use of a set of keys exactly when they fit.
   */
  lemma BoundedIffKeysFit(window: real, maxKeys: int, keys: set<string>, limit: nat)
    requires window > 0.0 && maxKeys >= 1 && limit >= 1
    ensures Bounded(window, maxKeys, keys, limit) <==> |keys| <= maxKeys
  {
    if |keys| <= maxKeys {
      EnoughRoom(window, maxKeys, keys, limit);
    } else {
      OneTooMany(window, maxKeys, keys, limit);
    }
  }
}
