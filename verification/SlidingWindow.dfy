/**
 `SlidingWindow`: the in-process limiter keeps, per key, only the hits that can still matter, and
 only for the keys used last. It is compared with a limiter that forgets nothing but evicted
 keys.
 */
module SlidingWindow {
  import opened Wrappers

  /** The insertion-ordered dict `_hits`: its keys in order, and the deque of each. */
  datatype Dict = Dict(order: seq<string>, hits: map<string, seq<real>>)

  datatype Call = Call(key: string, limit: int, now: real)

  /** What one call did: it was let through or not, and which key it pushed out. */
  datatype Served = Served(key: string, limit: int, now: real, allowed: bool, evicted: Option<string>)

  /** `pop(key, None) or deque()` */
  function Hits(d: Dict, key: string): seq<real> {
    if key in d.hits then d.hits[key] else []
  }

  function Drop(order: seq<string>, key: string): seq<string> {
    if order == [] then []
    else if order[0] == key then order[1..]
    else [order[0]] + Drop(order[1..], key)
  }

  /** `popleft` while the oldest hit is not newer than the cutoff. */
  function Pruned(times: seq<real>, cutoff: real): seq<real> {
    if times != [] && times[0] <= cutoff then Pruned(times[1..], cutoff) else times
  }

  function Step(d: Dict, window: real, maxKeys: int, call: Call): (Dict, Served) {
    var kept := Pruned(Hits(d, call.key), call.now - window);
    var allowed := |kept| < call.limit;
    var order := Drop(d.order, call.key) + [call.key];
    var hits := d.hits[call.key := if allowed then kept + [call.now] else kept];
    if |order| > maxKeys then
      (Dict(order[1..], hits - {order[0]}), Served(call.key, call.limit, call.now, allowed, Some(order[0])))
    else
      (Dict(order, hits), Served(call.key, call.limit, call.now, allowed, None))
  }

  class Limiter {
    const windowS: real
    const maxKeys: int
    var d: Dict

    constructor (windowS: real, maxKeys: int)
      ensures this.windowS == windowS && this.maxKeys == maxKeys && d == Dict([], map[])
    {
      this.windowS, this.maxKeys, d := windowS, maxKeys, Dict([], map[]);
    }

    method Allow(key: string, limit: int, now: real) returns (allowed: bool)
      modifies this
      ensures d == Step(old(d), windowS, maxKeys, Call(key, limit, now)).0
      ensures allowed == Step(old(d), windowS, maxKeys, Call(key, limit, now)).1.allowed
    {
      var hits := Hits(d, key);
      var cutoff := now - windowS;
      while hits != [] && hits[0] <= cutoff
        invariant Pruned(hits, cutoff) == Pruned(Hits(old(d), key), cutoff)
      {
        hits := hits[1..];
      }
      allowed := |hits| < limit;
      if allowed {
        hits := hits + [now];
      }
      d := Dict(Drop(d.order, key) + [key], d.hits[key := hits]);
      if |d.order| > maxKeys {
        d := Dict(d.order[1..], d.hits - {d.order[0]});
      }
    }
  }

  datatype State = State(d: Dict, log: seq<Served>)

  /** The limiter and its history after a list of calls. */
  function Run(window: real, maxKeys: int, calls: seq<Call>): (s: State)
    ensures |s.log| == |calls|
  {
    if calls == [] then State(Dict([], map[]), [])
    else
      var n := |calls| - 1;
      var before := Run(window, maxKeys, calls[..n]);
      var (d, served) := Step(before.d, window, maxKeys, calls[n]);
      State(d, before.log + [served])
  }

  predicate Ordered(calls: seq<Call>) {
    forall i, j :: 0 <= i < j < |calls| ==> calls[i].now <= calls[j].now
  }

  // ----- the limiter that forgets nothing

  /** All admitted hits of `key` since it was last evicted. */
  function Since(log: seq<Served>, key: string): seq<real> {
    if log == [] then []
    else
      var n := |log| - 1;
      if log[n].evicted == Some(key) then []
      else if log[n].key == key && log[n].allowed then Since(log[..n], key) + [log[n].now]
      else Since(log[..n], key)
  }

  /** The hits after `low`. */
  function Newer(times: seq<real>, low: real): seq<real> {
    if times == [] then []
    else if times[0] > low then [times[0]] + Newer(times[1..], low)
    else Newer(times[1..], low)
  }

  /** How many hits lie in (t - window, t]. */
  function CountIn(times: seq<real>, window: real, t: real): nat {
    if times == [] then 0
    else (if t - window < times[0] <= t then 1 else 0) + CountIn(times[1..], window, t)
  }

  /** One more than the number of the last call with this key, 0 for none. */
  function LastUse(log: seq<Served>, key: string): nat {
    if log == [] then 0
    else if log[|log| - 1].key == key then |log|
    else LastUse(log[..|log| - 1], key)
  }

  predicate Ascending(times: seq<real>) {
    forall i, j :: 0 <= i < j < |times| ==> times[i] <= times[j]
  }

  // ----- lists

  /** Dropping a key keeps the order of the others and loses none of them. */
  lemma {:induction false} DropKeepsOrder(order: seq<string>, key: string, log: seq<Served>)
    requires ByLastUse(order, log)
    ensures ByLastUse(Drop(order, key), log)
    ensures forall x :: x in Drop(order, key) <==> x in order && x != key
    ensures |Drop(order, key)| == if key in order then |order| - 1 else |order|
  {
    if order != [] {
      assert order == [order[0]] + order[1..];
      DropKeepsOrder(order[1..], key, log);
      var w := Drop(order[1..], key);
      forall i | 0 <= i < |w| ensures LastUse(log, order[0]) < LastUse(log, w[i]) {
        assert w[i] in order[1..];
      }
    }
  }

  lemma {:induction false} PrunedIsNewer(times: seq<real>, cutoff: real)
    requires Ascending(times)
    ensures Pruned(times, cutoff) == Newer(times, cutoff)
  {
    if times != [] {
      assert forall i :: 0 < i < |times| ==> times[i] == times[1..][i - 1];
      PrunedIsNewer(times[1..], cutoff);
      if times[0] > cutoff {
        AllNewer(times, cutoff);
      }
    }
  }

  lemma {:induction false} AllNewer(times: seq<real>, low: real)
    requires forall i :: 0 <= i < |times| ==> times[i] > low
    ensures Newer(times, low) == times
  {
    if times != [] {
      AllNewer(times[1..], low);
    }
  }

  lemma {:induction false} NewerTwice(times: seq<real>, low: real, high: real)
    requires low <= high
    ensures Newer(Newer(times, low), high) == Newer(times, high)
  {
    if times != [] {
      NewerTwice(times[1..], low, high);
      if times[0] > low {
        assert Newer(times, low)[1..] == Newer(times[1..], low);
      } else {
        assert Newer(times, low) == Newer(times[1..], low);
      }
    }
  }

  lemma {:induction false} NewerAppend(times: seq<real>, x: real, low: real)
    ensures Newer(times + [x], low) == if x > low then Newer(times, low) + [x] else Newer(times, low)
  {
    if times == [] {
      assert (times + [x])[1..] == [];
    } else {
      NewerAppend(times[1..], x, low);
      assert (times + [x])[1..] == times[1..] + [x];
    }
  }

  lemma {:induction false} NewerIsSuffix(times: seq<real>, low: real)
    requires Ascending(times)
    ensures |Newer(times, low)| <= |times|
    ensures Newer(times, low) == times[|times| - |Newer(times, low)|..]
    ensures forall i :: 0 <= i < |times| - |Newer(times, low)| ==> times[i] <= low
  {
    if times != [] {
      var rest := times[1..];
      assert forall i :: 0 < i < |times| ==> times[i] == rest[i - 1];
      NewerIsSuffix(rest, low);
      if times[0] > low {
        AllNewer(times, low);
      }
    }
  }

  /** Pruning a log already cut at an earlier time cuts it at the later one. */
  lemma PrunedAgain(times: seq<real>, low: real, high: real)
    requires Ascending(times) && low <= high
    ensures Pruned(Newer(times, low), high) == Newer(times, high)
  {
    NewerIsSuffix(times, low);
    NewerTwice(times, low, high);
    SuffixAscends(times, |times| - |Newer(times, low)|);
    hide Newer, Pruned, Ascending;
    PrunedIsNewer(Newer(times, low), high);
  }

  lemma SuffixAscends(times: seq<real>, k: nat)
    requires Ascending(times) && k <= |times|
    ensures Ascending(times[k..])
  {
  }

  // ----- the refinement

  predicate ByLastUse(order: seq<string>, log: seq<Served>) {
    forall i, j :: 0 <= i < j < |order| ==> LastUse(log, order[i]) < LastUse(log, order[j])
  }

  /** A resident key's deque is its log since it entered, cut at its own last use. */
  predicate Faithful(times: seq<real>, key: string, log: seq<Served>, window: real) {
    && 0 < LastUse(log, key) <= |log|
    && times == Newer(Since(log, key), log[LastUse(log, key) - 1].now - window)
  }

  ghost predicate Refines(s: State, window: real, maxKeys: int) {
    && ByLastUse(s.d.order, s.log)
    && (maxKeys >= 1 ==> |s.d.order| <= maxKeys)
    && (forall key :: key in s.d.order <==> key in s.d.hits)
    && (forall key :: key in s.d.hits ==> Faithful(s.d.hits[key], key, s.log, window))
    && (forall key :: key !in s.d.hits ==> Since(s.log, key) == [])
  }

  predicate Chronological(log: seq<Served>) {
    forall i, j :: 0 <= i < j < |log| ==> log[i].now <= log[j].now
  }

  lemma {:induction false} SinceIsAscending(log: seq<Served>, key: string)
    requires Chronological(log)
    ensures Ascending(Since(log, key))
    ensures forall i :: 0 <= i < |Since(log, key)| ==> log != [] && Since(log, key)[i] <= log[|log| - 1].now
  {
    if log != [] {
      SinceIsAscending(log[..|log| - 1], key);
    }
  }

  /** What a call sees of its key after pruning: exactly the full log newer than its cutoff. */
  lemma SeesTheWindow(s: State, window: real, maxKeys: int, call: Call)
    requires Refines(s, window, maxKeys) && Chronological(s.log)
    requires s.log != [] ==> s.log[|s.log| - 1].now <= call.now
    ensures Pruned(Hits(s.d, call.key), call.now - window) == Newer(Since(s.log, call.key), call.now - window)
  {
    if call.key in s.d.hits {
      hide Newer, Since, LastUse, ByLastUse, Pruned, Ascending;
      assert Faithful(s.d.hits[call.key], call.key, s.log, window);
      var full := Since(s.log, call.key);
      var low := s.log[LastUse(s.log, call.key) - 1].now - window;
      SinceIsAscending(s.log, call.key);
      PrunedAgain(full, low, call.now - window);
    }
  }

  /** A key that is neither served nor evicted keeps its log and its place. */
  lemma OthersKeep(log: seq<Served>, served: Served, key: string)
    requires served.key != key && served.evicted != Some(key)
    ensures LastUse(log + [served], key) == LastUse(log, key)
    ensures Since(log + [served], key) == Since(log, key)
  {
    var more := log + [served];
    assert more[..|more| - 1] == log;
  }

  lemma StepKeepsOrder(s: State, window: real, maxKeys: int, call: Call)
    requires Refines(s, window, maxKeys)
    ensures var (d, served) := Step(s.d, window, maxKeys, call);
            var log := s.log + [served];
            && ByLastUse(Drop(s.d.order, call.key) + [call.key], log)
            && (forall key :: key in Drop(s.d.order, call.key) <==> key in s.d.order && key != call.key)
            && LastUse(log, call.key) == |log|
  {
    var (d, served) := Step(s.d, window, maxKeys, call);
    var log := s.log + [served];
    assert log[..|log| - 1] == s.log;
    DropKeepsOrder(s.d.order, call.key, s.log);
    var kept := Drop(s.d.order, call.key);
    forall i | 0 <= i < |kept| ensures LastUse(log, kept[i]) == LastUse(s.log, kept[i]) < |log| {
      assert kept[i] in s.d.order;
      assert Faithful(s.d.hits[kept[i]], kept[i], s.log, window);
    }
  }

  lemma ServedIsFaithful(s: State, window: real, maxKeys: int, call: Call)
    requires Refines(s, window, maxKeys) && Chronological(s.log) && window > 0.0
    requires s.log != [] ==> s.log[|s.log| - 1].now <= call.now
    ensures var (d, served) := Step(s.d, window, maxKeys, call);
            && (served.allowed <==> |Newer(Since(s.log, call.key), call.now - window)| < call.limit)
            && (served.evicted != Some(call.key) ==>
                  call.key in d.hits && Faithful(d.hits[call.key], call.key, s.log + [served], window))
  {
    hide Newer, Pruned, LastUse, Drop, ByLastUse;
    var (d, served) := Step(s.d, window, maxKeys, call);
    var log := s.log + [served];
    assert log[..|log| - 1] == s.log;
    SeesTheWindow(s, window, maxKeys, call);
    StepKeepsOrder(s, window, maxKeys, call);
    NewerAppend(Since(s.log, call.key), call.now, call.now - window);
  }

  /** The keys after a call: those before and the one served, less the one evicted. */
  lemma StepKeys(s: State, window: real, maxKeys: int, call: Call)
    requires Refines(s, window, maxKeys)
    ensures var (d, served) := Step(s.d, window, maxKeys, call);
            && ByLastUse(d.order, s.log + [served])
            && (maxKeys >= 1 ==> |d.order| <= maxKeys)
            && (forall key :: key in d.order <==> key in d.hits)
  {
    hide Faithful, Since, Newer, Pruned, Hits, LastUse;
    StepKeepsOrder(s, window, maxKeys, call);
    DropKeepsOrder(s.d.order, call.key, s.log);
    var order := Drop(s.d.order, call.key) + [call.key];
    assert forall key :: key in order <==> key in s.d.order || key == call.key;
    if |order| > maxKeys {
      assert order == [order[0]] + order[1..];
      assert order[0] !in order[1..];
    }
  }

  lemma EvictsTheOldest(s: State, window: real, maxKeys: int, call: Call)
    requires Refines(s, window, maxKeys) && maxKeys >= 1
    ensures var (d, served) := Step(s.d, window, maxKeys, call);
            served.evicted.Some? ==>
              && served.evicted.value in s.d.order && served.evicted.value != call.key
              && forall key :: key in d.order ==>
                   LastUse(s.log + [served], served.evicted.value) < LastUse(s.log + [served], key)
  {
    StepKeepsOrder(s, window, maxKeys, call);
    var order := Drop(s.d.order, call.key) + [call.key];
    if |order| > maxKeys {
      assert order[0] in Drop(s.d.order, call.key);
      forall key | key in order[1..] ensures exists j :: 0 < j < |order| && order[j] == key {
        var j :| 0 <= j < |order[1..]| && order[1..][j] == key;
        assert order[j + 1] == key;
      }
    }
  }

  lemma KeyIsFaithful(s: State, window: real, maxKeys: int, call: Call, key: string)
    requires Refines(s, window, maxKeys) && Chronological(s.log) && window > 0.0
    requires s.log != [] ==> s.log[|s.log| - 1].now <= call.now
    ensures var (d, served) := Step(s.d, window, maxKeys, call);
            key in d.hits ==> Faithful(d.hits[key], key, s.log + [served], window)
  {
    var (d, served) := Step(s.d, window, maxKeys, call);
    if key == call.key {
      ServedIsFaithful(s, window, maxKeys, call);
    } else if key in d.hits {
      assert Faithful(s.d.hits[key], key, s.log, window);
      OthersKeep(s.log, served, key);
    }
  }

  lemma AbsentIsForgotten(s: State, window: real, maxKeys: int, call: Call, key: string)
    requires Refines(s, window, maxKeys)
    ensures var (d, served) := Step(s.d, window, maxKeys, call);
            key !in d.hits ==> Since(s.log + [served], key) == []
  {
    var (d, served) := Step(s.d, window, maxKeys, call);
    if key !in d.hits && served.evicted != Some(key) {
      OthersKeep(s.log, served, key);
    }
  }

  /** One call keeps every deque that of the full log. */
  lemma StepRefines(s: State, window: real, maxKeys: int, call: Call)
    requires Refines(s, window, maxKeys) && Chronological(s.log) && window > 0.0
    requires s.log != [] ==> s.log[|s.log| - 1].now <= call.now
    ensures var (d, served) := Step(s.d, window, maxKeys, call);
            Refines(State(d, s.log + [served]), window, maxKeys)
  {
    var (d, served) := Step(s.d, window, maxKeys, call);
    StepKeys(s, window, maxKeys, call);
    forall key ensures key in d.hits ==> Faithful(d.hits[key], key, s.log + [served], window) {
      KeyIsFaithful(s, window, maxKeys, call, key);
    }
    forall key ensures key !in d.hits ==> Since(s.log + [served], key) == [] {
      AbsentIsForgotten(s, window, maxKeys, call, key);
    }
  }

  /** The log says what was called, in the order of the calls. */
  lemma {:induction false} RunLog(window: real, maxKeys: int, calls: seq<Call>)
    ensures var log := Run(window, maxKeys, calls).log;
            forall i :: 0 <= i < |calls| ==>
              log[i].now == calls[i].now && log[i].key == calls[i].key && log[i].limit == calls[i].limit
    ensures Ordered(calls) ==> Chronological(Run(window, maxKeys, calls).log)
  {
    if calls != [] {
      RunLog(window, maxKeys, calls[..|calls| - 1]);
    }
  }

  lemma {:induction false} RunRefines(window: real, maxKeys: int, calls: seq<Call>)
    requires Ordered(calls) && window > 0.0
    ensures Refines(Run(window, maxKeys, calls), window, maxKeys)
  {
    if calls != [] {
      var n := |calls| - 1;
      RunRefines(window, maxKeys, calls[..n]);
      RunLog(window, maxKeys, calls[..n]);
      StepRefines(Run(window, maxKeys, calls[..n]), window, maxKeys, calls[n]);
    }
  }

  lemma BeforeTheLast(window: real, maxKeys: int, calls: seq<Call>, call: Call)
    requires Ordered(calls + [call]) && window > 0.0
    ensures var s := Run(window, maxKeys, calls);
            && Run(window, maxKeys, calls + [call]) ==
                 (var (d, served) := Step(s.d, window, maxKeys, call); State(d, s.log + [served]))
            && Refines(s, window, maxKeys)
            && Chronological(s.log)
            && (s.log != [] ==> s.log[|s.log| - 1].now <= call.now)
  {
    assert (calls + [call])[..|calls|] == calls;
    assert Ordered(calls) by {
      assert forall i :: 0 <= i < |calls| ==> (calls + [call])[i] == calls[i];
    }
    RunRefines(window, maxKeys, calls);
    RunLog(window, maxKeys, calls);
    if calls != [] {
      assert (calls + [call])[|calls| - 1].now <= (calls + [call])[|calls|].now;
    }
  }

  /** The limiter decides as one that forgets nothing but evicted keys. */
  lemma DecidesLikeTheFullLog(window: real, maxKeys: int, calls: seq<Call>, call: Call)
    requires Ordered(calls + [call]) && window > 0.0
    ensures var log := Run(window, maxKeys, calls).log;
            var served := Run(window, maxKeys, calls + [call]).log[|calls|];
            && Run(window, maxKeys, calls + [call]).log == log + [served]
            && served.key == call.key && served.now == call.now && served.limit == call.limit
            && (served.allowed <==> |Newer(Since(log, call.key), call.now - window)| < call.limit)
  {
    BeforeTheLast(window, maxKeys, calls, call);
    ServedIsFaithful(Run(window, maxKeys, calls), window, maxKeys, call);
  }

  /**
   It holds at most `max_keys` keys, and when it evicts, evicts the key used
   least recently and never the one just served.
   */
  lemma EvictsLeastRecentlyUsed(window: real, maxKeys: int, calls: seq<Call>, call: Call)
    requires Ordered(calls + [call]) && window > 0.0 && maxKeys >= 1
    ensures var s := Run(window, maxKeys, calls);
            var t := Run(window, maxKeys, calls + [call]);
            var evicted := t.log[|calls|].evicted;
            && |t.d.order| <= maxKeys
            && (evicted.Some? ==>
                  && evicted.value in s.d.order && evicted.value != call.key
                  && forall key :: key in t.d.order ==> LastUse(t.log, evicted.value) < LastUse(t.log, key))
  {
    BeforeTheLast(window, maxKeys, calls, call);
    StepKeys(Run(window, maxKeys, calls), window, maxKeys, call);
    EvictsTheOldest(Run(window, maxKeys, calls), window, maxKeys, call);
  }

  /** A log every decision of which is the one the full log calls for. */
  predicate FullLog(log: seq<Served>, window: real) {
    log == [] ||
    var n := |log| - 1;
    && FullLog(log[..n], window)
    && (log[n].allowed <==> |Newer(Since(log[..n], log[n].key), log[n].now - window)| < log[n].limit)
  }

  lemma FullLogGrows(log: seq<Served>, served: Served, window: real)
    requires FullLog(log, window)
    requires served.allowed <==> |Newer(Since(log, served.key), served.now - window)| < served.limit
    ensures FullLog(log + [served], window)
  {
    assert (log + [served])[..|log|] == log;
  }

  lemma {:induction false} RunIsFullLog(window: real, maxKeys: int, calls: seq<Call>)
    requires Ordered(calls) && window > 0.0
    ensures FullLog(Run(window, maxKeys, calls).log, window)
  {
    if calls != [] {
      var n := |calls| - 1;
      hide Step, Newer, Since;
      RunIsFullLog(window, maxKeys, calls[..n]);
      assert calls[..n] + [calls[n]] == calls;
      DecidesLikeTheFullLog(window, maxKeys, calls[..n], calls[n]);
      FullLogGrows(Run(window, maxKeys, calls[..n]).log, Run(window, maxKeys, calls).log[n], window);
    }
  }

  // ----- the bound

  /** Any `limit` + 1 admissions in a row span at least the window. */
  predicate Spaced(times: seq<real>, window: real, limit: nat) {
    forall i, j :: 0 <= i && i + limit <= j < |times| ==> times[i] + window <= times[j]
  }

  lemma AdmissionIsSpaced(times: seq<real>, window: real, limit: nat, now: real)
    requires Ascending(times) && Spaced(times, window, limit)
    requires |Newer(times, now - window)| < limit
    ensures Spaced(times + [now], window, limit)
  {
    NewerIsSuffix(times, now - window);
  }

  lemma {:induction false} SinceIsSpaced(log: seq<Served>, window: real, key: string, limit: nat)
    requires FullLog(log, window) && Chronological(log)
    requires forall i :: 0 <= i < |log| && log[i].key == key ==> log[i].limit <= limit
    ensures Spaced(Since(log, key), window, limit)
  {
    if log != [] {
      var n := |log| - 1;
      SinceIsSpaced(log[..n], window, key, limit);
      SinceIsAscending(log[..n], key);
      if log[n].key == key && log[n].allowed {
        AdmissionIsSpaced(Since(log[..n], key), window, limit, log[n].now);
      }
    }
  }

  /** Hits of which the k-th and later are past t count at most k. */
  lemma {:induction false} CountBelow(times: seq<real>, window: real, t: real, k: nat)
    requires forall j :: k <= j < |times| ==> times[j] > t
    ensures CountIn(times, window, t) <= k
  {
    if times != [] {
      CountBelow(times[1..], window, t, if k == 0 then 0 else k - 1);
    }
  }

  lemma {:induction false} SpacedFits(times: seq<real>, window: real, limit: nat, t: real)
    requires Ascending(times) && Spaced(times, window, limit)
    ensures CountIn(times, window, t) <= limit
  {
    if times != [] {
      if t - window < times[0] <= t {
        forall j | limit <= j < |times| ensures times[j] > t {
          assert times[0] + window <= times[j];
        }
        CountBelow(times, window, t, limit);
      } else {
        var rest := times[1..];
        assert forall i :: 0 <= i < |rest| ==> rest[i] == times[i + 1];
        SpacedFits(rest, window, limit, t);
      }
    }
  }

  /** While a key stays resident, any window of time admits at most `limit` of its calls. */
  lemma AtMostLimitPerWindow(window: real, maxKeys: int, calls: seq<Call>, key: string, limit: nat, t: real)
    requires Ordered(calls) && window > 0.0
    requires forall i :: 0 <= i < |calls| && calls[i].key == key ==> calls[i].limit <= limit
    ensures CountIn(Since(Run(window, maxKeys, calls).log, key), window, t) <= limit
  {
    var log := Run(window, maxKeys, calls).log;
    RunLog(window, maxKeys, calls);
    RunIsFullLog(window, maxKeys, calls);
    SinceIsSpaced(log, window, key, limit);
    SinceIsAscending(log, key);
    SpacedFits(Since(log, key), window, limit, t);
  }

  /** With more keys than room the bound is lost: a key pushed out starts afresh within its window. */
  lemma EvictionForgets()
    ensures var calls := [Call("a", 1, 0.0), Call("b", 1, 1.0), Call("a", 1, 2.0)];
            var log := Run(60.0, 1, calls).log;
            log[0].allowed && log[2].allowed
  {
    var a, b, c := Call("a", 1, 0.0), Call("b", 1, 1.0), Call("a", 1, 2.0);
    assert [a, b, c][..2] == [a, b] && [a, b][..1] == [a] && [a][..0] == [];
    var none: seq<string> := [];
    assert Drop(none, "a") == none && none + ["a"] == ["a"];
    var zero, one, two := Run(60.0, 1, []), Run(60.0, 1, [a]), Run(60.0, 1, [a, b]);
    assert one.d == Step(zero.d, 60.0, 1, a).0;
    assert one.d.order == ["a"];
    assert Drop(["a"], "b") == ["a"] + Drop(["a"][1..], "b") == ["a"];
    assert two.d == Step(one.d, 60.0, 1, b).0;
    assert two.d.order == ["a", "b"][1..] == ["b"];
  }
}
