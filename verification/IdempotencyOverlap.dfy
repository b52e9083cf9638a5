/** When a second request can run while the key's owner is still running. */
module IdempotencyOverlap {
  import opened Wrappers
  import opened IdempotencyTable
  import opened IdempotencyProtocol

  /** A request that has arrived but has decided nothing, or is through. */
  predicate Arriving(pc: Pc) {
    pc.Inserting? || pc.Reading?
  }

  /** q runs under its own row, and every other request is arriving or through. */
  predicate Owned(s: State, q: nat) {
    && q < |s.requests|
    && s.requests[q].pc.Dispatching?
    && s.row == Some(MyRow(s, q))
    && forall r :: 0 <= r < |s.requests| && r != q ==>
         Arriving(s.requests[r].pc) || s.requests[r].pc.Done? || s.requests[r].pc.Dead?
  }

  /** r takes q's row for stale. */
  predicate Late(s: State, q: nat, r: nat)
    requires q < |s.requests| && r < |s.requests|
  {
    s.requests[r].now - s.requests[q].now > PENDING_MS
  }

  /** q itself does nothing: its dispatch goes on. */
  predicate Spares(events: seq<Event>, q: nat) {
    forall i :: 0 <= i < |events| ==> events[i].Tick? || events[i].r != q
  }

  ghost predicate CanOverlap(s: State, q: nat) {
    exists events, t, r :: Spares(events, q) && Runs(s, events, t) && Both(t, q, r)
  }

  predicate Both(t: State, q: nat, r: nat) {
    q != r && q < |t.requests| && r < |t.requests| && t.requests[q].pc.Dispatching? && t.requests[r].pc.Dispatching?
  }

  predicate NoneIsLate(s: State, q: nat)
    requires q < |s.requests|
  {
    forall r :: 0 <= r < |s.requests| && r != q && Arriving(s.requests[r].pc) ==> !Late(s, q, r)
  }

  lemma StaysOwned(s: State, e: Event, q: nat)
    requires Owned(s, q) && NoneIsLate(s, q) && Enabled(s, e) && (e.Tick? || e.r != q)
    ensures Owned(Next(s, e), q) && NoneIsLate(Next(s, e), q)
  {
    if !e.Tick? {
      assert Arriving(s.requests[e.r].pc);
      assert !Late(s, q, e.r);
    }
  }

  lemma {:induction false} NoOverlap(s: State, events: seq<Event>, t: State, q: nat)
    requires Owned(s, q) && NoneIsLate(s, q) && Spares(events, q) && Runs(s, events, t)
    ensures Owned(t, q)
    decreases |events|
  {
    if events != [] {
      StaysOwned(s, events[0], q);
      assert Spares(events[1..], q) by {
        assert forall i :: 0 <= i < |events| - 1 ==> events[1..][i] == events[i + 1];
      }
      NoOverlap(Next(s, events[0]), events[1..], t, q);
    }
  }

  lemma RunOn(s: State, e: Event, rest: seq<Event>, t: State)
    requires Enabled(s, e) && Runs(Next(s, e), rest, t)
    ensures Runs(s, [e] + rest, t)
  {
    assert ([e] + rest)[1..] == rest;
  }

  /** A late request that has lost its INSERT reads q's row, deletes it, inserts its own and runs. */
  lemma LateReaderRuns(s: State, q: nat, r: nat) returns (events: seq<Event>, t: State)
    requires Owned(s, q) && r < |s.requests| && r != q && s.requests[r].pc.Reading? && Late(s, q, r)
    ensures Spares(events, q) && Runs(s, events, t) && Both(t, q, r)
  {
    var s1 := Next(s, Select(r));
    assert s1.requests[r].pc == TakingOver(MyId(s, q)) && s1.row == s.row;
    var s2 := Next(s1, DeleteStale(r));
    assert s2.row == None && s2.requests[r].pc == Inserting;
    var s3 := Next(s2, Insert(r));
    t := Next(s3, StartDispatch(r));
    assert Runs(t, [], t);
    RunOn(s3, StartDispatch(r), [], t);
    RunOn(s2, Insert(r), [StartDispatch(r)] + [], t);
    RunOn(s1, DeleteStale(r), [Insert(r)] + ([StartDispatch(r)] + []), t);
    events := [Select(r)] + ([DeleteStale(r)] + ([Insert(r)] + ([StartDispatch(r)] + [])));
    RunOn(s, Select(r), [DeleteStale(r)] + ([Insert(r)] + ([StartDispatch(r)] + [])), t);
    hide Runs, Next, Enabled;
    assert events == [Select(r), DeleteStale(r), Insert(r), StartDispatch(r)];
  }

  lemma LateRequestRuns(s: State, q: nat, r: nat)
    requires Owned(s, q) && r < |s.requests| && r != q && Arriving(s.requests[r].pc) && Late(s, q, r)
    ensures CanOverlap(s, q)
  {
    if s.requests[r].pc.Reading? {
      var events, t := LateReaderRuns(s, q, r);
    } else {
      var s1 := Next(s, Insert(r));
      assert s1.row == s.row && MyRow(s1, q) == MyRow(s, q);
      var events, t := LateReaderRuns(s1, q, r);
      RunOn(s, Insert(r), events, t);
      assert Spares([Insert(r)] + events, q);
    }
  }

  /**
   While q runs under its row and the others are arriving or through, a second
   dispatch is possible exactly when one of the arriving requests came more
   than PENDING_MS after q.
   */
  lemma OverlapIffLate(s: State, q: nat)
    requires Owned(s, q)
    ensures CanOverlap(s, q) <==> !NoneIsLate(s, q)
  {
    if NoneIsLate(s, q) && CanOverlap(s, q) {
      var events, t, r :| Spares(events, q) && Runs(s, events, t) && Both(t, q, r);
      NoOverlap(s, events, t, q);
      assert false;
    }
    if !NoneIsLate(s, q) {
      var r :| 0 <= r < |s.requests| && r != q && Arriving(s.requests[r].pc) && Late(s, q, r);
      LateRequestRuns(s, q, r);
    }
  }

  // ----- from the start of a run

  predicate SomeoneIsLate(s: State) {
    exists q, r :: 0 <= q < |s.requests| && 0 <= r < |s.requests| && Late(s, q, r)
  }

  /** Nobody takes a row over, so the row of whoever is between INSERT and closing statement is in the table. */
  predicate Undisturbed(s: State) {
    && Inv(s)
    && !SomeoneIsLate(s)
    && forall r :: 0 <= r < |s.requests| ==>
         !s.requests[r].pc.TakingOver? && (Live(s.requests[r].pc) ==> s.row == Some(MyRow(s, r)))
  }

  lemma StaysLate(s: State, e: Event)
    requires Enabled(s, e)
    ensures SomeoneIsLate(Next(s, e)) ==> SomeoneIsLate(s)
  {
    var t := Next(s, e);
    if SomeoneIsLate(t) {
      var q, r :| 0 <= q < |t.requests| && 0 <= r < |t.requests| && Late(t, q, r);
      assert Late(s, q, r);
    }
  }

  lemma StaysUndisturbed(s: State, e: Event)
    requires Undisturbed(s) && Enabled(s, e)
    ensures Undisturbed(Next(s, e))
  {
    InvStep(s, e);
    StaysLate(s, e);
    if e.Select? && s.row.Some? {
      assert !Late(s, s.row.value.id.request, e.r);
    }
    hide Inv, SomeoneIsLate;
  }

  lemma {:induction false} UndisturbedRun(s: State, events: seq<Event>, t: State)
    requires Undisturbed(s) && Runs(s, events, t)
    ensures Undisturbed(t)
    decreases |events|
  {
    if events != [] {
      StaysUndisturbed(s, events[0]);
      UndisturbedRun(Next(s, events[0]), events[1..], t);
    }
  }

  /** From an empty table some run has two dispatches going on at once. */
  ghost predicate CanOverlapAtAll(s: State) {
    exists events, t, q, r :: Runs(s, events, t) && Both(t, q, r)
  }

  lemma LateOnesOverlap(s: State, q: nat, r: nat)
    requires Initial(s) && q < |s.requests| && r < |s.requests| && Late(s, q, r)
    ensures CanOverlapAtAll(s)
  {
    var s1 := Next(s, Insert(q));
    var s2 := Next(s1, StartDispatch(q));
    assert Owned(s2, q) && Late(s2, q, r);
    LateRequestRuns(s2, q, r);
    var events, t, other :| Spares(events, q) && Runs(s2, events, t) && Both(t, q, other);
    RunOn(s1, StartDispatch(q), events, t);
    RunOn(s, Insert(q), [StartDispatch(q)] + events, t);
  }

  /**
   With no assumption on how long anything takes, two dispatches can go on at
   once exactly when one request arrives more than PENDING_MS after another.
   */
  lemma OverlapsIffSomeoneIsLate(s: State)
    requires Initial(s)
    ensures CanOverlapAtAll(s) <==> SomeoneIsLate(s)
  {
    if SomeoneIsLate(s) {
      var q, r :| 0 <= q < |s.requests| && 0 <= r < |s.requests| && Late(s, q, r);
      LateOnesOverlap(s, q, r);
    } else if CanOverlapAtAll(s) {
      var events, t, q, r :| Runs(s, events, t) && Both(t, q, r);
      UndisturbedRun(s, events, t);
      assert false;
    }
  }
}
