/** How often one request can find a stale row and start over. */
module IdempotencyRetries {
  import opened Wrappers
  import opened IdempotencyTable
  import opened IdempotencyProtocol

  /** Requests that arrived more than PENDING_MS before `r` did. */
  function Elders(s: State, r: nat): set<nat>
    requires r < |s.requests|
  {
    set q: nat | q < |s.requests| && s.requests[q].now + PENDING_MS < s.requests[r].now
  }

  /** A stale row read by `r` belonged to an elder, and can be pending again only while `r` is about to delete it. */
  predicate TakenOnce(s: State, r: nat, k: nat)
    requires r < |s.requests| && k < |s.requests[r].taken|
  {
    var id := s.requests[r].taken[k];
    && id.request in Elders(s, r)
    && HasInserted(s.requests[id.request].pc)
    && id == MyId(s, id.request)
    && (k < s.requests[r].attempt && s.row.Some? && s.row.value.id == id ==> Stored(s.row))
  }

  predicate Distinct(ids: seq<Id>) {
    forall i, j :: 0 <= i < j < |ids| ==> ids[i].request != ids[j].request
  }

  predicate Tallied(s: State, r: nat)
    requires r < |s.requests|
  {
    var q := s.requests[r];
    && Distinct(q.taken)
    && (q.pc.TakingOver? ==> |q.taken| == q.attempt + 1 && q.pc.stale == q.taken[q.attempt])
    && (!q.pc.TakingOver? && !q.pc.Dead? ==> |q.taken| == q.attempt)
    && q.attempt <= |q.taken|
    && forall k :: 0 <= k < |q.taken| ==> TakenOnce(s, r, k)
  }

  predicate AllTallied(s: State) {
    Inv(s) && forall r :: 0 <= r < |s.requests| ==> Tallied(s, r)
  }

  lemma TakenOnceStep(s: State, e: Event, r: nat, k: nat)
    requires AllTallied(s) && Enabled(s, e)
    requires r < |s.requests| && k < |s.requests[r].taken|
    ensures TakenOnce(Next(s, e), r, k)
  {
    assert Tallied(s, r) && TakenOnce(s, r, k);
    assert Elders(Next(s, e), r) == Elders(s, r);
  }

  lemma SelectTallied(s: State, r: nat)
    requires AllTallied(s) && Enabled(s, Select(r))
    requires VerdictOn(s.row, s.requests[r].now, s.requests[r].hash).TakeOver?
    ensures Tallied(Next(s, Select(r)), r)
  {
    var t := Next(s, Select(r));
    assert Tallied(s, r);
    var n := s.requests[r].attempt;
    forall k | 0 <= k < n ensures TakenOnce(t, r, k) && t.requests[r].taken[k].request != s.row.value.id.request {
      TakenOnceStep(s, Select(r), r, k);
      assert TakenOnce(s, r, k);
    }
    assert s.row.value.id.request in Elders(t, r);
    assert TakenOnce(t, r, n);
  }

  lemma TalliedStep(s: State, e: Event)
    requires AllTallied(s) && Enabled(s, e)
    ensures AllTallied(Next(s, e))
  {
    InvStep(s, e);
    var t := Next(s, e);
    forall q | 0 <= q < |t.requests| ensures Tallied(t, q) {
      assert Tallied(s, q);
      if e == Select(q) && t.requests[q].pc.TakingOver? {
        SelectTallied(s, q);
      } else {
        forall k | 0 <= k < |t.requests[q].taken| ensures TakenOnce(t, q, k) {
          TakenOnceStep(s, e, q, k);
        }
      }
    }
  }

  lemma {:induction false} TalliedRun(s: State, events: seq<Event>, t: State)
    requires AllTallied(s) && Runs(s, events, t)
    ensures AllTallied(t)
    decreases |events|
  {
    if events != [] {
      TalliedStep(s, events[0]);
      TalliedRun(Next(s, events[0]), events[1..], t);
    }
  }

  lemma {:induction false} DistinctFit(ids: seq<Id>, owners: set<nat>)
    requires Distinct(ids) && forall i :: 0 <= i < |ids| ==> ids[i].request in owners
    ensures |ids| <= |owners|
  {
    if ids != [] {
      var n := |ids| - 1;
      DistinctFit(ids[..n], owners - {ids[n].request});
    }
  }

  /**
   No request sees the rows of one owner stale twice, and it starts over at
   most once for each request that arrived more than PENDING_MS before it.
   */
  lemma RetriesAreBounded(s: State, events: seq<Event>, t: State, r: nat)
    requires Initial(s) && Runs(s, events, t) && r < |t.requests|
    ensures Distinct(t.requests[r].taken)
    ensures t.requests[r].attempt <= |t.requests[r].taken| <= |Elders(t, r)|
    ensures r !in Elders(t, r)
  {
    TalliedRun(s, events, t);
    assert Tallied(t, r);
    forall i | 0 <= i < |t.requests[r].taken| ensures t.requests[r].taken[i].request in Elders(t, r) {
      assert TakenOnce(t, r, i);
    }
    DistinctFit(t.requests[r].taken, Elders(t, r));
  }
}
