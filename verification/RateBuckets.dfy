/**
 The shared minute counters in `rate_limits`, the sweep that drops old ones, and the counters a
 core isolate falls back to when the database fails. Times are in milliseconds; a bucket's window
 is its UTC minute.
 */
module RateBuckets {
  import opened Wrappers

  const MINUTE: int := 60000

  /** `${kind}:${key}:${window}`, with the window kept apart. */
  datatype Bucket = Bucket(name: string, window: int)

  datatype Row = Row(hits: int, expiresSec: int)

  /** `Math.floor(nowMs / 1000 / 60)` */
  function WindowOf(nowMs: int): int {
    nowMs / MINUTE
  }

  /** `int(moment) // 60` on seconds: `int` cuts towards zero, `//` floors. */
  function PyWindowOf(nowMs: int): int {
    var seconds := if nowMs >= 0 then nowMs / 1000 else -(-nowMs / 1000);
    seconds / 60
  }

  /**
   A window is the minute that holds the instant, and both workers take the
   same one, but for the last second, exclusive, of a minute before 1970.
   */
  lemma WorkersShareTheBucket(nowMs: int)
    ensures 60000 * WindowOf(nowMs) <= nowMs < 60000 * (WindowOf(nowMs) + 1)
    ensures PyWindowOf(nowMs) == WindowOf(nowMs) <==> nowMs >= 0 || nowMs % 60000 <= 59000
  {
    var window, rest := WindowOf(nowMs), nowMs % 60000;
    assert nowMs == 60000 * window + rest;
    if nowMs >= 0 {
      SecondsOfMinute(window, rest);
    } else {
      var seconds := -(-nowMs / 1000);
      assert seconds == (nowMs + 999) / 1000 == 60 * window + (rest + 999) / 1000;
    }
  }

  lemma SecondsOfMinute(window: int, rest: int)
    requires 0 <= rest < 60000
    ensures (60000 * window + rest) / 1000 / 60 == window
  {
    var seconds := (60000 * window + rest) / 1000;
    assert seconds == 60 * window + rest / 1000;
  }

  /** One upsert: the new table, and the RETURNING row if there is one. */
  function Consumed(table: map<Bucket, Row>, bucket: Bucket, limit: int): (map<Bucket, Row>, Option<int>) {
    if bucket !in table then
      (table[bucket := Row(1, bucket.window * 60 + 120)], Some(1))
    else if table[bucket].hits < limit then
      (table[bucket := table[bucket].(hits := table[bucket].hits + 1)], Some(table[bucket].hits + 1))
    else
      (table, None)
  }

  /** DELETE FROM rate_limits WHERE expires_at < now() */
  function Swept(table: map<Bucket, Row>, dbMs: int): map<Bucket, Row> {
    map bucket | bucket in table && !(table[bucket].expiresSec * 1000 < dbMs) :: table[bucket]
  }

  /** A core isolate's fallback: counts of the minute it last saw. */
  datatype Memory = Memory(counts: map<Bucket, int>, window: int)

  function Remembered(memory: Memory, bucket: Bucket, limit: int): (Memory, bool) {
    var current := if bucket.window != memory.window then Memory(map[], bucket.window) else memory;
    var hits := if bucket in current.counts then current.counts[bucket] else 0;
    if hits >= limit then (current, false) else (current.(counts := current.counts[bucket := hits + 1]), true)
  }

  function Counted(counts: map<Bucket, int>, bucket: Bucket): int {
    if bucket in counts then counts[bucket] else 0
  }

  class Isolate {
    var memory: map<Bucket, int>
    var memoryWindow: int

    constructor ()
      ensures memory == map[] && memoryWindow == -1
    {
      memory, memoryWindow := map[], -1;
    }

    method MemoryAllow(bucket: Bucket, limit: int) returns (allowed: bool)
      modifies this
      ensures (Memory(memory, memoryWindow), allowed)
          == Remembered(Memory(old(memory), old(memoryWindow)), bucket, limit)
      ensures memoryWindow == bucket.window
      ensures var same := old(memoryWindow) == bucket.window;
              var before := if same then Counted(old(memory), bucket) else 0;
              && (allowed <==> before < limit)
              && Counted(memory, bucket) == (if allowed then before + 1 else before)
              && forall other: Bucket :: other != bucket ==>
                   Counted(memory, other) == if same then Counted(old(memory), other) else 0
    {
      if bucket.window != memoryWindow {
        memory, memoryWindow := map[], bucket.window;
      }
      var hits := if bucket in memory then memory[bucket] else 0;
      if hits >= limit {
        return false;
      }
      memory := memory[bucket := hits + 1];
      return true;
    }
  }

  class Counters {
    var table: map<Bucket, Row>

    method Consume(bucket: Bucket, limit: int) returns (hits: Option<int>)
      modifies this
      ensures (table, hits) == Consumed(old(table), bucket, limit)
      ensures hits.None? <==> bucket in old(table) && old(table)[bucket].hits >= limit
      ensures hits.None? ==> table == old(table)
      ensures hits.Some? ==> bucket in table && table[bucket].hits == hits.value
      ensures hits.Some? ==> hits.value == if bucket in old(table) then old(table)[bucket].hits + 1 else 1
      ensures table - {bucket} == old(table) - {bucket}
    {
      if bucket !in table {
        table, hits := table[bucket := Row(1, bucket.window * 60 + 120)], Some(1);
      } else if table[bucket].hits < limit {
        hits := Some(table[bucket].hits + 1);
        table := table[bucket := table[bucket].(hits := hits.value)];
      } else {
        hits := None;
      }
    }

    method Sweep(dbMs: int)
      modifies this
      ensures table == Swept(old(table), dbMs)
    {
      table := map bucket | bucket in table && !(table[bucket].expiresSec * 1000 < dbMs) :: table[bucket];
    }
  }

  // ----- any interleaving of requests, lost replies and sweeps

  datatype Reply = Arrives | Lost(landed: bool)

  datatype Event =
    | Ask(isolate: nat, name: string, limit: int, nowMs: int, reply: Reply)
    | Sweep

  datatype Via = Database | Fallback(isolate: nat)

  datatype Admission = Admission(bucket: Bucket, nowMs: int, via: Via)

  datatype State = State(table: map<Bucket, Row>, isolates: seq<Memory>, log: seq<Admission>, dbMs: int)

  function BucketOf(e: Event): Bucket
    requires e.Ask?
  {
    Bucket(e.name, WindowOf(e.nowMs))
  }

  /** One event while the database clock reads `dbMs`. */
  function Next(s: State, e: Event, dbMs: int): State
    requires e.Ask? ==> e.isolate < |s.isolates|
  {
    match e
    case Sweep => s.(table := Swept(s.table, dbMs), dbMs := dbMs)
    case Ask(i, name, limit, nowMs, reply) =>
      var bucket := BucketOf(e);
      var (table, hits) := Consumed(s.table, bucket, limit);
      match reply
      case Arrives =>
        var admitted := hits.Some? && hits.value <= limit;
        State(table, s.isolates, if admitted then s.log + [Admission(bucket, nowMs, Database)] else s.log, dbMs)
      case Lost(landed) =>
        var (memory, admitted) := Remembered(s.isolates[i], bucket, limit);
        State(if landed then table else s.table, s.isolates[i := memory],
              if admitted then s.log + [Admission(bucket, nowMs, Fallback(i))] else s.log, dbMs)
  }

  /** The isolate's own memory let something through in this minute. */
  predicate LetThrough(log: seq<Admission>, isolate: nat, window: int) {
    exists k :: 0 <= k < |log| && log[k].via == Fallback(isolate) && log[k].bucket.window == window
  }

  /**
   The database clock never goes back, a worker asks for a minute's bucket
   before the database could drop it, an isolate that falls back in a minute it
   has left let nothing through in it before, and no limit exceeds `limit`.
   */
  predicate Fair(s: State, e: Event, dbMs: int, limit: int) {
    && s.dbMs <= dbMs
    && (e.Ask? ==>
          && e.isolate < |s.isolates|
          && e.limit <= limit
          && dbMs <= (WindowOf(e.nowMs) + 2) * MINUTE
          && (e.reply.Lost? ==>
                || s.isolates[e.isolate].window == WindowOf(e.nowMs)
                || !LetThrough(s.log, e.isolate, WindowOf(e.nowMs))))
  }

  predicate Initial(s: State) {
    && s.table == map[] && s.log == []
    && forall i :: 0 <= i < |s.isolates| ==> s.isolates[i] == Memory(map[], -1)
  }

  predicate Runs(s: State, events: seq<(Event, int)>, limit: int, t: State)
    decreases |events|
  {
    if events == [] then s == t
    else
      var (e, dbMs) := events[0];
      Fair(s, e, dbMs, limit) && Runs(Next(s, e, dbMs), events[1..], limit, t)
  }

  /** Admissions into one bucket by one way. */
  function Count(log: seq<Admission>, bucket: Bucket, via: Via): nat {
    if log == [] then 0
    else
      var last := log[|log| - 1];
      Count(log[..|log| - 1], bucket, via) + if last.bucket == bucket && last.via == via then 1 else 0
  }

  /** A row counts at least the admissions through it; it goes only when no one can ask for its minute any more. */
  predicate RowCounts(s: State, bucket: Bucket, limit: int) {
    if bucket in s.table then
      && s.table[bucket].expiresSec == bucket.window * 60 + 120
      && Count(s.log, bucket, Database) <= s.table[bucket].hits
      && 1 <= s.table[bucket].hits <= limit
    else
      Count(s.log, bucket, Database) > 0 ==>
        && (bucket.window * 60 + 120) * 1000 < s.dbMs
        && Count(s.log, bucket, Database) <= limit
  }

  /** An isolate holds only its current minute, and counts its own admissions of that minute. */
  predicate MemoryCounts(s: State, i: nat, bucket: Bucket, limit: int)
    requires i < |s.isolates|
  {
    var memory := s.isolates[i];
    var count := Count(s.log, bucket, Fallback(i));
    && (bucket in memory.counts ==> bucket.window == memory.window)
    && count <= limit
    && (bucket.window == memory.window ==> count == if bucket in memory.counts then memory.counts[bucket] else 0)
  }

  ghost predicate Inv(s: State, limit: int) {
    && (forall bucket: Bucket :: RowCounts(s, bucket, limit))
    && (forall i, bucket: Bucket | 0 <= i < |s.isolates| :: MemoryCounts(s, i, bucket, limit))
  }

  lemma CountAppend(log: seq<Admission>, a: Admission, bucket: Bucket, via: Via)
    ensures Count(log + [a], bucket, via) == Count(log, bucket, via) + if a.bucket == bucket
        && a.via == via then 1 else 0
  {
    assert (log + [a])[..|log|] == log;
  }

  /** How one event changes the count of a bucket. */
  lemma CountNext(s: State, e: Event, dbMs: int, bucket: Bucket, via: Via)
    requires e.Ask? ==> e.isolate < |s.isolates|
    ensures var t := Next(s, e, dbMs);
            Count(t.log, bucket, via) == Count(s.log, bucket, via)
              + if |t.log| > |s.log| && t.log[|s.log|].bucket == bucket && t.log[|s.log|].via == via then 1 else 0
  {
    var t := Next(s, e, dbMs);
    if |t.log| > |s.log| {
      CountAppend(s.log, t.log[|s.log|], bucket, via);
    }
  }

  lemma RowStep(s: State, e: Event, dbMs: int, bucket: Bucket, limit: int)
    requires limit >= 1 && Fair(s, e, dbMs, limit) && RowCounts(s, bucket, limit)
    ensures RowCounts(Next(s, e, dbMs), bucket, limit)
  {
    hide Count, Remembered;
    CountNext(s, e, dbMs, bucket, Database);
  }

  lemma {:induction false} NothingCounted(log: seq<Admission>, isolate: nat, bucket: Bucket)
    requires !LetThrough(log, isolate, bucket.window)
    ensures Count(log, bucket, Fallback(isolate)) == 0
    decreases |log|
  {
    if log != [] {
      var last := log[|log| - 1];
      assert !(last.via == Fallback(isolate) && last.bucket.window == bucket.window);
      NothingCounted(log[..|log| - 1], isolate, bucket);
    }
  }

  lemma MemoryStep(s: State, e: Event, dbMs: int, i: nat, bucket: Bucket, limit: int)
    requires limit >= 1 && Fair(s, e, dbMs, limit) && i < |s.isolates| && MemoryCounts(s, i, bucket, limit)
    ensures MemoryCounts(Next(s, e, dbMs), i, bucket, limit)
  {
    hide Count, Consumed, Swept, WindowOf, LetThrough;
    CountNext(s, e, dbMs, bucket, Fallback(i));
    if !LetThrough(s.log, i, bucket.window) {
      NothingCounted(s.log, i, bucket);
    }
  }

  lemma InvStep(s: State, e: Event, dbMs: int, limit: int)
    requires limit >= 1 && Inv(s, limit) && Fair(s, e, dbMs, limit)
    ensures Inv(Next(s, e, dbMs), limit) && |Next(s, e, dbMs).isolates| == |s.isolates|
  {
    hide RowCounts, MemoryCounts;
    forall bucket: Bucket ensures RowCounts(Next(s, e, dbMs), bucket, limit) {
      RowStep(s, e, dbMs, bucket, limit);
    }
    forall i, bucket: Bucket | 0 <= i < |s.isolates| ensures MemoryCounts(Next(s, e, dbMs), i, bucket, limit) {
      MemoryStep(s, e, dbMs, i, bucket, limit);
    }
  }

  lemma {:induction false} InvRun(s: State, events: seq<(Event, int)>, limit: int, t: State)
    requires limit >= 1 && Inv(s, limit) && Runs(s, events, limit, t)
    ensures Inv(t, limit) && |t.isolates| == |s.isolates|
    decreases |events|
  {
    if events != [] {
      InvStep(s, events[0].0, events[0].1, limit);
      InvRun(Next(s, events[0].0, events[0].1), events[1..], limit, t);
    }
  }

  /**
   Over a whole run, sweeps included, one bucket admits at most `limit`
   through the database and at most `limit` more through each isolate.
   */
  lemma AtMostLimitPerBucket(s: State, events: seq<(Event, int)>, limit: int, t: State, bucket: Bucket)
    requires limit >= 1 && Initial(s) && Runs(s, events, limit, t)
    ensures Count(t.log, bucket, Database) <= limit
    ensures bucket in t.table ==> Count(t.log, bucket, Database) <= t.table[bucket].hits <= limit
    ensures forall i: nat :: i < |t.isolates| ==> Count(t.log, bucket, Fallback(i)) <= limit
  {
    InvRun(s, events, limit, t);
    assert RowCounts(t, bucket, limit);
    forall i: nat | i < |t.isolates| ensures Count(t.log, bucket, Fallback(i)) <= limit {
      assert MemoryCounts(t, i, bucket, limit);
    }
  }

  /** No request loses its reply, and every limit lets something through. */
  predicate Lossless(events: seq<(Event, int)>) {
    forall k :: 0 <= k < |events| && events[k].0.Ask? ==> events[k].0.reply.Arrives? && events[k].0.limit >= 1
  }

  predicate Exact(s: State, bucket: Bucket) {
    bucket in s.table ==> s.table[bucket].hits == Count(s.log, bucket, Database)
  }

  lemma {:induction false} ExactRun(s: State, events: seq<(Event, int)>, limit: int, t: State, bucket: Bucket)
    requires limit >= 1 && Inv(s, limit) && Exact(s, bucket) && Runs(s, events, limit, t) && Lossless(events)
    ensures Exact(t, bucket)
    decreases |events|
  {
    if events != [] {
      var (e, dbMs) := events[0];
      CountNext(s, e, dbMs, bucket, Database);
      assert RowCounts(s, bucket, limit);
      InvStep(s, e, dbMs, limit);
      ExactRun(Next(s, e, dbMs), events[1..], limit, t, bucket);
    }
  }

  /** While no reply is lost, a row's `hits` is exactly the number of requests it let through. */
  lemma HitsAreAdmissions(s: State, events: seq<(Event, int)>, limit: int, t: State, bucket: Bucket)
    requires limit >= 1 && Initial(s) && Runs(s, events, limit, t) && Lossless(events) && bucket in t.table
    ensures t.table[bucket].hits == Count(t.log, bucket, Database)
  {
    ExactRun(s, events, limit, t, bucket);
  }

  /** Admissions of one name through the database by clocks in [from, from + 60 s). */
  function CountStretch(log: seq<Admission>, name: string, from: int): nat {
    if log == [] then 0
    else
      var last := log[|log| - 1];
      CountStretch(log[..|log| - 1], name, from)
      + if last.bucket.name == name && last.via == Database && from <= last.nowMs < from + MINUTE then 1 else 0
  }

  predicate Stamped(log: seq<Admission>) {
    forall k :: 0 <= k < |log| ==> log[k].bucket.window == WindowOf(log[k].nowMs)
  }

  lemma {:induction false} StampedRun(s: State, events: seq<(Event, int)>, limit: int, t: State)
    requires Stamped(s.log) && Runs(s, events, limit, t)
    ensures Stamped(t.log)
    decreases |events|
  {
    if events != [] {
      StampedRun(Next(s, events[0].0, events[0].1), events[1..], limit, t);
    }
  }

  lemma {:induction false} StretchMeetsTwoBuckets(log: seq<Admission>, name: string, from: int)
    requires Stamped(log)
    ensures CountStretch(log, name, from) <=
              Count(log, Bucket(name, WindowOf(from)), Database) + Count(log, Bucket(name, WindowOf(from) + 1),
                  Database)
  {
    if log != [] {
      StretchMeetsTwoBuckets(log[..|log| - 1], name, from);
    }
  }

  /** Any 60 seconds let at most twice the limit through the database. */
  lemma AtMostTwicePerMinute(s: State, events: seq<(Event, int)>, limit: int, t: State, name: string, from: int)
    requires limit >= 1 && Initial(s) && Runs(s, events, limit, t)
    ensures CountStretch(t.log, name, from) <= 2 * limit
  {
    StampedRun(s, events, limit, t);
    StretchMeetsTwoBuckets(t.log, name, from);
    AtMostLimitPerBucket(s, events, limit, t, Bucket(name, WindowOf(from)));
    AtMostLimitPerBucket(s, events, limit, t, Bucket(name, WindowOf(from) + 1));
  }

  /** Sixty seconds that are one minute meet one bucket. */
  lemma {:induction false} AlignedMeetsOne(log: seq<Admission>, name: string, from: int)
    requires Stamped(log) && from % MINUTE == 0
    ensures CountStretch(log, name, from) <= Count(log, Bucket(name, WindowOf(from)), Database)
  {
    if log != [] {
      AlignedMeetsOne(log[..|log| - 1], name, from);
      var last := log[|log| - 1];
      if from <= last.nowMs < from + MINUTE {
        assert WindowOf(last.nowMs) == WindowOf(from);
      }
    }
  }

  /** n requests of one name at one time. */
  function Asks(name: string, limit: int, nowMs: int, dbMs: int, n: nat): (events: seq<(Event, int)>)
    ensures |events| == n && forall i :: 0 <= i < n ==> events[i] == (Ask(0, name, limit, nowMs, Arrives), dbMs)
  {
    seq(n, i => (Ask(0, name, limit, nowMs, Arrives), dbMs))
  }

  lemma CountStretchSnoc(log: seq<Admission>, a: Admission, name: string, from: int)
    ensures CountStretch(log + [a], name, from) == CountStretch(log, name, from)
              + if a.bucket.name == name && a.via == Database && from <= a.nowMs < from + MINUTE then 1 else 0
  {
    assert (log + [a])[..|log|] == log;
  }

  function HitsOf(table: map<Bucket, Row>, bucket: Bucket): int {
    if bucket in table then table[bucket].hits else 0
  }

  /** A bucket with room for them admits them all. */
  lemma {:induction false} AllAdmitted(s: State, name: string, limit: int, nowMs: int, dbMs: int, n: nat, from: int)
      returns (t: State)
    requires |s.isolates| >= 1 && s.dbMs <= dbMs <= (WindowOf(nowMs) + 2) * MINUTE && from <= nowMs < from + MINUTE
    requires 0 <= HitsOf(s.table, Bucket(name, WindowOf(nowMs))) <= limit - n
    ensures Runs(s, Asks(name, limit, nowMs, dbMs, n), limit, t) && t.isolates == s.isolates && t.dbMs <= dbMs
    ensures CountStretch(t.log, name, from) == CountStretch(s.log, name, from) + n
    ensures forall b :: b != Bucket(name, WindowOf(nowMs)) ==> HitsOf(t.table, b) == HitsOf(s.table, b)
    decreases n
  {
    t := s;
    if n > 0 {
      var e := Ask(0, name, limit, nowMs, Arrives);
      var m := AskOnce(s, e, dbMs, limit);
      CountStretchSnoc(s.log, Admission(BucketOf(e), nowMs, Database), name, from);
      t := AllAdmitted(m, name, limit, nowMs, dbMs, n - 1, from);
      var events := Asks(name, limit, nowMs, dbMs, n);
      assert events[0] == (e, dbMs) && events[1..] == Asks(name, limit, nowMs, dbMs, n - 1);
    }
  }

  lemma AskOnce(s: State, e: Event, dbMs: int, limit: int) returns (m: State)
    requires e.Ask? && e.isolate < |s.isolates| && e.limit == limit && e.reply.Arrives?
    requires s.dbMs <= dbMs <= (WindowOf(e.nowMs) + 2) * MINUTE && 0 <= HitsOf(s.table, BucketOf(e)) < limit
    ensures Fair(s, e, dbMs, limit) && m == Next(s, e, dbMs) && m.isolates == s.isolates && m.dbMs == dbMs
    ensures m.log == s.log + [Admission(BucketOf(e), e.nowMs, Database)]
    ensures HitsOf(m.table, BucketOf(e)) == HitsOf(s.table, BucketOf(e)) + 1
    ensures forall b :: b != BucketOf(e) ==> HitsOf(m.table, b) == HitsOf(s.table, b)
  {
    m := Next(s, e, dbMs);
  }

  lemma {:induction false} RunsOn(s: State, a: seq<(Event, int)>, m: State, b: seq<(Event, int)>, limit: int, t: State)
    requires Runs(s, a, limit, m) && Runs(m, b, limit, t)
    ensures Runs(s, a + b, limit, t)
    decreases |a|
  {
    if a == [] {
      assert a + b == b;
    } else {
      RunsOn(Next(s, a[0].0, a[0].1), a[1..], m, b, limit, t);
      assert (a + b)[1..] == a[1..] + b;
    }
  }

  /** Across a minute boundary twice the limit is reached: as much as it lets through before, and again after. */
  lemma MinuteBoundaryBurst(name: string, limit: int, from: int) returns (s: State, events: seq<(Event, int)>, t: State)
    requires limit >= 1 && from % MINUTE != 0
    ensures Initial(s) && Runs(s, events, limit, t) && CountStretch(t.log, name, from) == 2 * limit
  {
    s := State(map[], [Memory(map[], -1)], [], from);
    var next := (WindowOf(from) + 1) * MINUTE;
    assert WindowOf(from) * MINUTE < from < next < from + MINUTE && WindowOf(next) == WindowOf(from) + 1;
    var m := AllAdmitted(s, name, limit, from, from, limit, from);
    t := AllAdmitted(m, name, limit, next, from, limit, from);
    events := Asks(name, limit, from, from, limit) + Asks(name, limit, next, from, limit);
    RunsOn(s, Asks(name, limit, from, from, limit), m, Asks(name, limit, next, from, limit), limit, t);
  }

  /** Every run admits at most `limit` of a name in the 60 seconds from `from`. */
  ghost predicate StretchBounded(name: string, limit: int, from: int) {
    forall s, events, t :: Initial(s) && Runs(s, events, limit, t) ==> CountStretch(t.log, name, from) <= limit
  }

  /** Sixty seconds are bounded by the limit itself exactly when they are one minute of the clock. */
  lemma BoundedIffAligned(name: string, limit: int, from: int)
    requires limit >= 1
    ensures StretchBounded(name, limit, from) <==> from % MINUTE == 0
  {
    if from % MINUTE == 0 {
      forall s, events, t | Initial(s) && Runs(s, events, limit, t) ensures CountStretch(t.log, name, from) <= limit {
        StampedRun(s, events, limit, t);
        AlignedMeetsOne(t.log, name, from);
        AtMostLimitPerBucket(s, events, limit, t, Bucket(name, WindowOf(from)));
      }
    } else {
      var s, events, t := MinuteBoundaryBurst(name, limit, from);
      hide Runs, CountStretch, Initial;
      assert CountStretch(t.log, name, from) > limit;
    }
  }

  /** A sweep between two requests of one minute leaves its row alone. */
  lemma SweepSparesTheMinute(s: State, limit: int, sweepMs: int, e: Event, askMs: int)
    requires e.Ask? && BucketOf(e) in s.table && RowCounts(s, BucketOf(e), limit)
    requires Fair(s, Sweep, sweepMs, limit) && Fair(Next(s, Sweep, sweepMs), e, askMs, limit)
    ensures BucketOf(e) in Next(s, Sweep, sweepMs).table
    ensures Next(s, Sweep, sweepMs).table[BucketOf(e)] == s.table[BucketOf(e)]
  {
  }

  /** A sweep drops a bucket's row exactly past the bound the workers keep, and then a full bucket starts again. */
  lemma SlowClockStartsAgain(table: map<Bucket, Row>, bucket: Bucket, dbMs: int, limit: int)
    requires bucket in table && table[bucket].expiresSec == bucket.window * 60 + 120 && table[bucket].hits >= limit
    ensures bucket in Swept(table, dbMs) <==> dbMs <= (bucket.window + 2) * MINUTE
    ensures Consumed(Swept(table, dbMs), bucket, limit).1 ==
            if dbMs <= (bucket.window + 2) * MINUTE then None else Some(1)
  {
  }
}
