/** What holds when every owner is through within PENDING_MS of its arrival. */
module IdempotencyTiming {
  import opened Wrappers
  import opened IdempotencyTable
  import opened IdempotencyProtocol

  /** No request is between its INSERT and its closing statement later than PENDING_MS after it arrived. */
  predicate Timely(s: State) {
    forall r :: 0 <= r < |s.requests| && Live(s.requests[r].pc) ==> s.clock <= s.requests[r].now + PENDING_MS
  }

  /** A request acts after it arrived, and the statement that stores a success is not lost. */
  predicate Punctual(s: State, e: Event)
    requires Enabled(s, e)
  {
    && (!e.Tick? ==> s.requests[e.r].now <= s.clock)
    && (e.Die? ==> !(s.requests[e.r].pc.Closing? && Succeeded(s.requests[e.r].pc.outcome)))
    && !e.UpdateFailed?
  }

  predicate TimelyRun(s: State, events: seq<Event>, t: State)
    decreases |events|
  {
    Timely(s) &&
    if events == [] then s == t
    else Enabled(s, events[0]) && Punctual(s, events[0]) && TimelyRun(Next(s, events[0]), events[1..], t)
  }

  predicate HoldsTheRow(s: State, r: nat)
    requires r < |s.requests|
  {
    Live(s.requests[r].pc) ==> s.row == Some(MyRow(s, r))
  }

  /** The owner of a row about to be taken over is no longer live. */
  predicate TakesOverTheDead(s: State, r: nat)
    requires r < |s.requests|
  {
    s.requests[r].pc.TakingOver? ==>
      var o := s.requests[r].pc.stale.request;
      o < |s.requests| && (s.requests[o].pc.Done? || s.requests[o].pc.Dead?)
  }

  /** The one success is either about to be stored or is the stored row. */
  predicate WinnerKeepsTheKey(s: State, w: nat) {
    && w < |s.requests|
    && ((s.requests[w].pc.Closing? && Succeeded(s.requests[w].pc.outcome))
        || (Stored(s.row) && s.row.value.id.request == w))
  }

  /** The dispatch has ended in a 2xx that is not stored yet. */
  predicate AboutToWin(pc: Pc) {
    pc.Closing? && Succeeded(pc.outcome)
  }

  predicate TimedInv(s: State) {
    && Inv(s)
    && (forall r :: 0 <= r < |s.requests| ==> HoldsTheRow(s, r) && TakesOverTheDead(s, r))
    && (forall r :: 0 <= r < |s.requests| && AboutToWin(s.requests[r].pc) ==> r in s.wins)
    && (forall w :: w in s.wins ==> WinnerKeepsTheKey(s, w))
    && (forall v, w :: v in s.wins && w in s.wins ==> v == w)
  }

  lemma TimedRequestStep(s: State, e: Event, q: nat)
    requires TimedInv(s) && Timely(s) && Enabled(s, e) && Punctual(s, e) && q < |s.requests|
    ensures HoldsTheRow(Next(s, e), q) && TakesOverTheDead(Next(s, e), q)
  {
    var t := Next(s, e);
    assert HoldsTheRow(s, q) && TakesOverTheDead(s, q);
    if !e.Tick? {
      assert HoldsTheRow(s, e.r) && TakesOverTheDead(s, e.r);
    }
    if e == Select(q) && t.requests[q].pc.TakingOver? {
      assert HoldsTheRow(s, s.row.value.id.request);
    }
  }

  lemma WinnerStep(s: State, e: Event, w: nat)
    requires TimedInv(s) && Timely(s) && Enabled(s, e) && Punctual(s, e) && w in s.wins
    ensures WinnerKeepsTheKey(Next(s, e), w)
    ensures Next(s, e).starts == s.starts && Next(s, e).wins == s.wins
  {
    assert WinnerKeepsTheKey(s, w) && HoldsTheRow(s, w);
    if !e.Tick? {
      assert HoldsTheRow(s, e.r) && TakesOverTheDead(s, e.r);
    }
  }

  lemma NewWinner(s: State, e: Event)
    requires TimedInv(s) && Enabled(s, e) && s.wins == {}
    ensures forall w :: w in Next(s, e).wins ==> e.EndDispatch? && w == e.r && WinnerKeepsTheKey(Next(s, e), w)
    ensures forall r :: 0 <= r < |s.requests| && AboutToWin(Next(s, e).requests[r].pc) ==> r in Next(s, e).wins
  {
  }

  lemma TimedStep(s: State, e: Event)
    requires TimedInv(s) && Timely(s) && Enabled(s, e) && Punctual(s, e)
    ensures TimedInv(Next(s, e))
    ensures s.wins != {} ==> Next(s, e).starts == s.starts
  {
    InvStep(s, e);
    var t := Next(s, e);
    forall q | 0 <= q < |s.requests| ensures HoldsTheRow(t, q) && TakesOverTheDead(t, q) {
      TimedRequestStep(s, e, q);
    }
    forall w | w in s.wins ensures WinnerKeepsTheKey(t, w) && t.starts == s.starts && t.wins == s.wins {
      WinnerStep(s, e, w);
    }
    if s.wins == {} {
      NewWinner(s, e);
    } else {
      WinnersStay(s, e);
    }
    hide HoldsTheRow, TakesOverTheDead, WinnerKeepsTheKey, Inv, Timely, Punctual;
    assert |t.requests| == |s.requests|;
  }

  lemma WinnersStay(s: State, e: Event)
    requires TimedInv(s) && Enabled(s, e) && Next(s, e).wins == s.wins
    ensures forall r :: 0 <= r < |s.requests| && AboutToWin(Next(s, e).requests[r].pc) ==> r in s.wins
  {
  }

  lemma {:induction false} TimedRun(s: State, events: seq<Event>, t: State)
    requires TimedInv(s) && TimelyRun(s, events, t)
    ensures TimedInv(t)
    ensures s.wins != {} ==> t.starts == s.starts && s.wins <= t.wins
    decreases |events|
  {
    if events != [] {
      TimedStep(s, events[0]);
      TimedRun(Next(s, events[0]), events[1..], t);
    }
  }

  /** Dispatches never overlap and at most one of them ends in a 2xx. */
  lemma OneDispatchAtATime(s: State, events: seq<Event>, t: State)
    requires Initial(s) && TimelyRun(s, events, t)
    ensures forall q, r | 0 <= q < |t.requests| && 0 <= r < |t.requests| ::
              t.requests[q].pc.Dispatching? && t.requests[r].pc.Dispatching? ==> q == r
    ensures forall v, w :: v in t.wins && w in t.wins ==> v == w
  {
    TimedRun(s, events, t);
    forall q, r | 0 <= q < |t.requests| && 0 <= r < |t.requests|
                && t.requests[q].pc.Dispatching? && t.requests[r].pc.Dispatching?
      ensures q == r
    {
      assert HoldsTheRow(t, q) && HoldsTheRow(t, r);
    }
  }

  /** Once a dispatch has ended in a 2xx none starts, for the rest of the run. */
  lemma NoDispatchAfterSuccess(s: State, before: seq<Event>, m: State, after: seq<Event>, t: State)
    requires Initial(s) && TimelyRun(s, before, m) && m.wins != {} && TimelyRun(m, after, t)
    ensures t.starts == m.starts && t.wins == m.wins
  {
    TimedRun(s, before, m);
    TimedRun(m, after, t);
  }

  lemma {:induction false} Then(s: State, events: seq<Event>, m: State, e: Event)
    requires Runs(s, events, m) && Enabled(m, e)
    ensures Runs(s, events + [e], Next(m, e))
    decreases |events|
  {
    if events != [] {
      Then(Next(s, events[0]), events[1..], m, e);
      assert (events + [e])[1..] == events[1..] + [e];
    }
  }

  /** A late owner breaks it: its row is taken over while it runs, and both dispatches succeed. */
  lemma LateOwnerRunsTwice()
    returns (s: State, before: seq<Event>, m: State, after: seq<Event>, t: State)
    ensures Initial(s) && Runs(s, before, m) && Runs(m, after, t)
    ensures |m.requests| == 2 && m.requests[0].pc.Dispatching? && m.requests[1].pc.Dispatching?
    ensures t.wins == {0, 1}
  {
    s := State(0, None, [Request(0, "h", Inserting, 0, []), Request(300001, "h", Inserting, 0, [])], {}, {});
    var steps := [Insert(0), StartDispatch(0), Tick(300001), Insert(1), Select(1), DeleteStale(1), Insert(1),
                  StartDispatch(1)];
    before, m := [], s;
    for i := 0 to 8
      invariant Runs(s, before, m) && |m.requests| == 2
      invariant m.requests[0].now == 0 && m.requests[1].now == 300001 && m.wins == {}
      invariant m.requests[1].attempt == if i < 6 then 0 else 1
      invariant m.requests[0].pc == if i == 0 then Inserting else if i == 1 then Owning else Dispatching
      invariant m.requests[1].pc == if i < 4 || i == 6 then Inserting else if i == 4 then Reading
                                    else if i == 5 then TakingOver(Id(0, 0)) else if i == 7 then Owning else Dispatching
      invariant i == 0 || i == 6 ==> m.row == None
      invariant 0 < i < 6 ==> m.row == Some(Row(Id(0, 0), m.requests[0].hash, 0, None))
      invariant m.requests[0].attempt == 0 && m.clock <= 300001
    {
      Then(s, before, m, steps[i]);
      before, m := before + [steps[i]], Next(m, steps[i]);
    }
    after, t := BothSucceed(m);
  }

  lemma BothSucceed(m: State) returns (after: seq<Event>, t: State)
    requires |m.requests| == 2 && m.requests[0].pc.Dispatching? && m.requests[1].pc.Dispatching? && m.wins == {}
    ensures Runs(m, after, t) && t.wins == {0, 1}
  {
    var ok := Responded(Response(200, []));
    var ended := Next(m, EndDispatch(0, ok));
    after, t := [EndDispatch(0, ok), EndDispatch(1, ok)], Next(ended, EndDispatch(1, ok));
    assert Runs(ended, after[1..], t);
  }
}
