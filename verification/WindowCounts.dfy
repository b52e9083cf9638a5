/** The limiter's decisions and bounds as numbers of calls in the log. */
module WindowCounts {
  import opened Wrappers
  import opened SlidingWindow
  import opened WindowKeys

  /** Call k of the log was let through for this key. */
  predicate Passed(log: seq<Served>, key: string, k: nat) {
    k < |log| && log[k].key == key && log[k].allowed
  }

  /** The key has not been evicted since call k. */
  predicate Resident(log: seq<Served>, key: string, k: nat) {
    forall j :: k <= j < |log| ==> log[j].evicted != Some(key)
  }

  /** The calls let through in (t - window, t]: all of them, and those the key has not been evicted since. */
  function AllDuring(log: seq<Served>, key: string, window: real, t: real): set<nat> {
    set k: nat | k < |log| && Passed(log, key, k) && t - window < log[k].now <= t
  }

  function During(log: seq<Served>, key: string, window: real, t: real): set<nat> {
    set k: nat | k < |log| && Passed(log, key, k) && Resident(log, key, k) && t - window < log[k].now <= t
  }

  lemma {:induction false} CountSnoc(times: seq<real>, t: real, window: real, at: real)
    ensures CountIn(times + [t], window, at) == CountIn(times, window, at) + if at - window < t <= at then 1 else 0
  {
    if times == [] {
      assert [] + [t] == [t] && [t][1..] == [];
    } else {
      CountSnoc(times[1..], t, window, at);
      assert (times + [t])[1..] == times[1..] + [t];
    }
  }

  lemma OneLonger(log: seq<Served>, key: string, k: nat)
    requires log != [] && k < |log| - 1
    ensures Passed(log, key, k) <==> Passed(log[..|log| - 1], key, k)
    ensures Resident(log, key, k) <==> Resident(log[..|log| - 1], key, k) && log[|log| - 1].evicted != Some(key)
  {
    var n := |log| - 1;
    assert forall j :: 0 <= j < n ==> log[..n][j] == log[j];
  }

  /** How one more call changes the counted ones. */
  lemma DuringSnoc(log: seq<Served>, key: string, window: real, t: real)
    requires log != []
    ensures var n := |log| - 1;
            var grows := log[n].key == key && log[n].allowed && t - window < log[n].now <= t;
            && n !in During(log[..n], key, window, t)
            && During(log, key, window, t) ==
               if log[n].evicted == Some(key) then {}
               else if grows then During(log[..n], key, window, t) + {n} else During(log[..n], key, window, t)
  {
    var n := |log| - 1;
    forall k: nat | k < n
      ensures Passed(log, key, k) <==> Passed(log[..n], key, k)
      ensures Resident(log, key, k) <==> Resident(log[..n], key, k) && log[n].evicted != Some(key)
    {
      OneLonger(log, key, k);
    }
    assert Resident(log, key, n) <==> log[n].evicted != Some(key);
    hide Passed, Resident;
    assert Passed(log, key, n) <==> log[n].key == key && log[n].allowed by {
      PassedIs(log, key, n);
    }
  }

  lemma PassedIs(log: seq<Served>, key: string, k: nat)
    requires k < |log|
    ensures Passed(log, key, k) <==> log[k].key == key && log[k].allowed
  {
  }

  lemma AllDuringSnoc(log: seq<Served>, key: string, window: real, t: real)
    requires log != []
    ensures var n := |log| - 1;
            var grows := log[n].key == key && log[n].allowed && t - window < log[n].now <= t;
            && n !in AllDuring(log[..n], key, window, t)
            && AllDuring(log, key, window, t) ==
               if grows then AllDuring(log[..n], key, window, t) + {n} else AllDuring(log[..n], key, window, t)
  {
    var n := |log| - 1;
    forall k: nat | k < n ensures Passed(log, key, k) <==> Passed(log[..n], key, k) {
      OneLonger(log, key, k);
    }
    PassedIs(log, key, n);
    hide Passed;
  }

  lemma {:induction false} DuringCounts(log: seq<Served>, key: string, window: real, t: real)
    ensures CountIn(Since(log, key), window, t) == |During(log, key, window, t)|
  {
    if log == [] {
      assert During(log, key, window, t) == {};
    } else {
      var n := |log| - 1;
      DuringCounts(log[..n], key, window, t);
      DuringSnoc(log, key, window, t);
      CountSnoc(Since(log[..n], key), log[n].now, window, t);
      hide During, CountIn;
      NothingCounts(window, t);
    }
  }

  lemma NothingCounts(window: real, t: real)
    ensures CountIn([], window, t) == 0
  {
  }

  lemma {:induction false} AllDuringCounts(log: seq<Served>, key: string, window: real, t: real)
    ensures CountIn(Admitted(log, key), window, t) == |AllDuring(log, key, window, t)|
  {
    if log == [] {
      assert AllDuring(log, key, window, t) == {};
    } else {
      var n := |log| - 1;
      AllDuringCounts(log[..n], key, window, t);
      AllDuringSnoc(log, key, window, t);
      CountSnoc(Admitted(log[..n], key), log[n].now, window, t);
      hide AllDuring, CountIn;
    }
  }

  /** With no hit past t, those newer than t - window are those in (t - window, t]. */
  lemma {:induction false} NewerCounts(times: seq<real>, window: real, t: real)
    requires forall i :: 0 <= i < |times| ==> times[i] <= t
    ensures |Newer(times, t - window)| == CountIn(times, window, t)
  {
    if times != [] {
      NewerCounts(times[1..], window, t);
    }
  }

  lemma {:induction false} SinceIsPast(log: seq<Served>, key: string, t: real)
    requires forall i :: 0 <= i < |log| ==> log[i].now <= t
    ensures forall i :: 0 <= i < |Since(log, key)| ==> Since(log, key)[i] <= t
  {
    if log != [] {
      SinceIsPast(log[..|log| - 1], key, t);
    }
  }

  /**
   A call is let through exactly when fewer than its limit were let through for
   its key in the window before it, those before its last eviction not counted.
   */
  lemma DecidesByCounting(window: real, maxKeys: int, calls: seq<Call>, call: Call)
    requires Ordered(calls + [call]) && window > 0.0
    ensures var log := Run(window, maxKeys, calls).log;
            var served := Run(window, maxKeys, calls + [call]).log[|calls|];
            served.allowed <==> |During(log, call.key, window, call.now)| < call.limit
  {
    hide Newer, Since, CountIn, During, Step;
    var log := Run(window, maxKeys, calls).log;
    DecidesLikeTheFullLog(window, maxKeys, calls, call);
    RunLog(window, maxKeys, calls);
    forall i | 0 <= i < |log| ensures log[i].now <= call.now {
      assert (calls + [call])[i].now <= (calls + [call])[|calls|].now;
    }
    SinceIsPast(log, call.key, call.now);
    NewerCounts(Since(log, call.key), window, call.now);
    DuringCounts(log, call.key, window, call.now);
  }

  /** In any (t - window, t] at most `limit` calls of a key pass, those before its last eviction not counted. */
  lemma AtMostLimitWhileResident(window: real, maxKeys: int, calls: seq<Call>, key: string, limit: nat, t: real)
    requires Ordered(calls) && window > 0.0
    requires forall i :: 0 <= i < |calls| && calls[i].key == key ==> calls[i].limit <= limit
    ensures |During(Run(window, maxKeys, calls).log, key, window, t)| <= limit
  {
    AtMostLimitPerWindow(window, maxKeys, calls, key, limit, t);
    DuringCounts(Run(window, maxKeys, calls).log, key, window, t);
  }

  /** Whatever is called with these keys, any window of time lets at most `limit` calls of each through. */
  ghost predicate AtMostLimitAlways(window: real, maxKeys: int, keys: set<string>, limit: nat) {
    forall calls, key, t :: Ordered(calls) && Among(calls, keys, limit) ==>
      |AllDuring(Run(window, maxKeys, calls).log, key, window, t)| <= limit
  }

  /** With the calls before an eviction counted, that is so exactly when the keys fit. */
  lemma AtMostLimitIffKeysFit(window: real, maxKeys: int, keys: set<string>, limit: nat)
    requires window > 0.0 && maxKeys >= 1 && limit >= 1
    ensures AtMostLimitAlways(window, maxKeys, keys, limit) <==> |keys| <= maxKeys
  {
    BoundedIffKeysFit(window, maxKeys, keys, limit);
    if AtMostLimitAlways(window, maxKeys, keys, limit) {
      forall calls, key, t | Ordered(calls) && Among(calls, keys, limit)
        ensures CountIn(Admitted(Run(window, maxKeys, calls).log, key), window, t) <= limit
      {
        AllDuringCounts(Run(window, maxKeys, calls).log, key, window, t);
      }
    }
    if Bounded(window, maxKeys, keys, limit) {
      forall calls, key, t | Ordered(calls) && Among(calls, keys, limit)
        ensures |AllDuring(Run(window, maxKeys, calls).log, key, window, t)| <= limit
      {
        AllDuringCounts(Run(window, maxKeys, calls).log, key, window, t);
      }
    }
  }
}
