/**
 A core isolate's fallback on its own: which orders of minutes keep the bound on every bucket.
 Its requests come with any names and limits; only the minutes they fall in are given.
 */
module FallbackMinutes {
  import opened RateBuckets

  datatype Call = Call(bucket: Bucket, limit: int)

  const EMPTY := Memory(map[], -1)

  /** The memory after these calls, and the buckets of the calls it let through. */
  function AfterCalls(calls: seq<Call>): (Memory, seq<Bucket>)
    decreases |calls|
  {
    if calls == [] then (EMPTY, [])
    else
      var (memory, through) := AfterCalls(calls[..|calls| - 1]);
      var last := calls[|calls| - 1];
      var (next, allowed) := Remembered(memory, last.bucket, last.limit);
      (next, if allowed then through + [last.bucket] else through)
  }

  function Through(calls: seq<Call>, bucket: Bucket): nat {
    multiset(AfterCalls(calls).1)[bucket]
  }

  /** The calls fall in these minutes, and no limit exceeds `limit`. */
  predicate CallsIn(calls: seq<Call>, windows: seq<int>, limit: int) {
    |calls| == |windows| &&
    forall k :: 0 <= k < |calls| ==> calls[k].bucket.window == windows[k] && calls[k].limit <= limit
  }

  /** Whatever the names and limits, no bucket lets more than the limit through. */
  ghost predicate KeepsTheBound(windows: seq<int>) {
    forall calls, limit, bucket :: limit >= 0 && CallsIn(calls, windows, limit) ==> Through(calls, bucket) <= limit
  }

  /** No minute comes back after another one. */
  predicate Grouped(windows: seq<int>) {
    forall i, j, k :: 0 <= i < j < k < |windows| && windows[i] == windows[k] ==> windows[i] == windows[j]
  }

  /** The memory holds the last minute alone, and counts what its buckets have let through. */
  predicate Keeps(calls: seq<Call>, bucket: Bucket, limit: int) {
    var memory := AfterCalls(calls).0;
    && memory.window == (if calls == [] then -1 else calls[|calls| - 1].bucket.window)
    && (bucket in memory.counts ==> bucket.window == memory.window)
    && (bucket.window == memory.window ==> Through(calls, bucket) == Counted(memory.counts, bucket))
    && (Through(calls, bucket) > 0 ==> exists k :: 0 <= k < |calls| && calls[k].bucket.window == bucket.window)
    && Through(calls, bucket) <= limit
  }

  /** Whether one more call is let through, and what that leaves. */
  lemma OneMore(calls: seq<Call>, last: Call, bucket: Bucket)
    ensures var memory := AfterCalls(calls).0;
            var (next, allowed) := Remembered(memory, last.bucket, last.limit);
            && AfterCalls(calls + [last]).0 == next
            && Through(calls + [last], bucket)
               == Through(calls, bucket) + if allowed && last.bucket == bucket then 1 else 0
  {
    assert (calls + [last])[..|calls|] == calls;
  }

  lemma KeepsStep(calls: seq<Call>, last: Call, bucket: Bucket, limit: int)
    requires limit >= 0 && last.limit <= limit && Keeps(calls, bucket, limit)
    requires forall k, j :: 0 <= k < j < |calls| && calls[k].bucket.window == last.bucket.window ==>
               calls[j].bucket.window == last.bucket.window
    ensures Keeps(calls + [last], bucket, limit)
  {
    hide AfterCalls, Through;
    OneMore(calls, last, bucket);
    var memory := AfterCalls(calls).0;
    if memory.window != last.bucket.window && bucket.window == last.bucket.window {
      assert Through(calls, bucket) == 0;
    }
    var all := calls + [last];
    assert all[|calls|] == last;
    if Through(calls, bucket) > 0 {
      var k :| 0 <= k < |calls| && calls[k].bucket.window == bucket.window;
      assert all[k] == calls[k];
    }
  }

  lemma {:induction false} KeepsAll(calls: seq<Call>, windows: seq<int>, bucket: Bucket, limit: int)
    requires limit >= 0 && CallsIn(calls, windows, limit) && Grouped(windows)
    ensures Keeps(calls, bucket, limit)
    decreases |calls|
  {
    if calls != [] {
      var n := |calls| - 1;
      KeepsAll(calls[..n], windows[..n], bucket, limit);
      assert calls == calls[..n] + [calls[n]];
      KeepsStep(calls[..n], calls[n], bucket, limit);
    }
  }

  /** All under limit 1: the name "k" at the places i and k, another one everywhere else. */
  function Returning(windows: seq<int>, i: nat, k: nat): (calls: seq<Call>)
    ensures CallsIn(calls, windows, 1)
  {
    seq(|windows|, n requires 0 <= n < |windows| => Call(Bucket(if n == i || n == k then "k" else "", windows[n]), 1))
  }

  /** Before i the bucket has nothing, at i its one, another minute forgets it, and at k it lets one more through. */
  predicate ForgottenAt(calls: seq<Call>, bucket: Bucket, i: nat, j: nat, k: nat) {
    var n, memory := |calls|, AfterCalls(calls).0;
    && (bucket in memory.counts ==> bucket.window == memory.window)
    && (n <= i || j < n <= k ==> bucket !in memory.counts)
    && Through(calls, bucket) >= (if n <= i then 0 else if n <= k then 1 else 2)
  }

  lemma ForgottenStep(calls: seq<Call>, last: Call, bucket: Bucket, i: nat, j: nat, k: nat)
    requires i < j < k && ForgottenAt(calls, bucket, i, j, k) && last.limit == 1
    requires last.bucket == bucket <==> |calls| == i || |calls| == k
    requires |calls| == j ==> last.bucket.window != bucket.window
    ensures ForgottenAt(calls + [last], bucket, i, j, k)
  {
    hide AfterCalls, Through;
    OneMore(calls, last, bucket);
  }

  lemma {:induction false} LetThroughAgain(windows: seq<int>, i: nat, j: nat, k: nat, n: nat)
    requires i < j < k < |windows| && windows[i] == windows[k] != windows[j] && n <= |windows|
    ensures ForgottenAt(Returning(windows, i, k)[..n], Bucket("k", windows[i]), i, j, k)
    decreases n
  {
    var all, bucket := Returning(windows, i, k), Bucket("k", windows[i]);
    if n == 0 {
      assert all[..0] == [];
    } else {
      LetThroughAgain(windows, i, j, k, n - 1);
      assert all[..n] == all[..n - 1] + [all[n - 1]];
      assert "k" != "";
      ForgottenStep(all[..n - 1], all[n - 1], bucket, i, j, k);
    }
  }

  /** The fallback keeps every bucket to its limit, whatever the names and limits, exactly when no minute comes back. */
  lemma BoundIffGrouped(windows: seq<int>)
    ensures KeepsTheBound(windows) <==> Grouped(windows)
  {
    if Grouped(windows) {
      forall calls, limit, bucket | limit >= 0 && CallsIn(calls, windows, limit)
        ensures Through(calls, bucket) <= limit
      {
        KeepsAll(calls, windows, bucket, limit);
      }
    } else {
      var i, j, k :| 0 <= i < j < k < |windows| && windows[i] == windows[k] && windows[i] != windows[j];
      var calls := Returning(windows, i, k);
      LetThroughAgain(windows, i, j, k, |windows|);
      assert calls[..|windows|] == calls;
      assert CallsIn(calls, windows, 1) && Through(calls, Bucket("k", windows[i])) > 1;
    }
  }
}
