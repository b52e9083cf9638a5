/** A request that nothing disturbs goes through the protocol's steps as the handler does on its own. */
module IdempotencyAlone {
  import opened Wrappers
  import opened IdempotencyTable
  import opened IdempotencyProtocol

  /** One more step at the end of a run. */
  lemma {:induction false} OneMore(s: State, events: seq<Event>, m: State, e: Event)
    requires Runs(s, events, m) && Enabled(m, e)
    ensures Runs(s, events + [e], Next(m, e))
    decreases |events|
  {
    if events == [] {
      assert ([] + [e])[1..] == [];
    } else {
      OneMore(Next(s, events[0]), events[1..], m, e);
      assert (events + [e])[1..] == events[1..] + [e];
    }
  }

  /** No statement fails, no reply is lost, and only r acts. */
  predicate Smooth(events: seq<Event>, r: nat) {
    forall i :: 0 <= i < |events| ==>
      match events[i]
      case Insert(q) => q == r
      case Select(q) => q == r
      case DeleteStale(q) => q == r
      case StartDispatch(q) => q == r
      case EndDispatch(q, _) => q == r
      case Close(q, answered) => q == r && answered
      case _ => false
  }

  /** Only r has changed, and the dispatch took place or did not. */
  predicate OnlyChanged(s: State, t: State, r: nat, dispatched: bool) {
    && |t.requests| == |s.requests|
    && (forall q :: 0 <= q < |s.requests| && q != r ==> t.requests[q] == s.requests[q])
    && t.starts == if dispatched then s.starts + {r} else s.starts
  }

  /** From its won INSERT on: the route runs, and the closing statement follows. */
  lemma DispatchAndClose(s: State, events: seq<Event>, m: State, r: nat, outcome: Outcome)
      returns (all: seq<Event>, t: State)
    requires Runs(s, events, m) && Smooth(events, r) && r < |m.requests| && m.requests[r].pc.Owning?
    requires OnlyChanged(s, m, r, false)
    ensures Runs(s, all, t) && Smooth(all, r) && OnlyChanged(s, t, r, true)
    ensures t.row == Closed(m.row, MyId(m, r), outcome) && t.requests[r].pc == Done(AnswerOf(outcome))
  {
    hide Closed, AnswerOf, Runs;
    var a := Next(m, StartDispatch(r));
    OneMore(s, events, m, StartDispatch(r));
    var b := Next(a, EndDispatch(r, outcome));
    OneMore(s, events + [StartDispatch(r)], a, EndDispatch(r, outcome));
    t := Next(b, Close(r, true));
    OneMore(s, events + [StartDispatch(r)] + [EndDispatch(r, outcome)], b, Close(r, true));
    all := events + [StartDispatch(r)] + [EndDispatch(r, outcome)] + [Close(r, true)];
  }

  /**
   Some run of a request's own steps leaves the row and gives the answer that
   the handler on its own does, and dispatches exactly when that does.
   */
  lemma RunsAlone(s: State, r: nat, outcome: Outcome) returns (events: seq<Event>, t: State)
    requires r < |s.requests| && s.requests[r].pc.Inserting? && s.requests[r].attempt == 0
    requires s.row.Some? ==> s.row.value.id.request != r
    ensures Runs(s, events, t) && Smooth(events, r)
    ensures var (row, answer, dispatched) := Alone(s.row, Id(r, 0), s.requests[r].now, s.requests[r].hash, outcome);
            OnlyChanged(s, t, r, dispatched) && t.row == row && t.requests[r].pc == Done(answer)
  {
    var a := Next(s, Insert(r));
    assert Runs(s, [], s);
    OneMore(s, [], s, Insert(r));
    if s.row.None? {
      events, t := DispatchAndClose(s, [] + [Insert(r)], a, r, outcome);
    } else {
      var b := Next(a, Select(r));
      OneMore(s, [] + [Insert(r)], a, Select(r));
      events, t := [] + [Insert(r)] + [Select(r)], b;
      if b.requests[r].pc.TakingOver? {
        events, t := TakeOver(s, events, b, r, outcome);
      }
    }
  }

  lemma TakeOver(s: State, events: seq<Event>, m: State, r: nat, outcome: Outcome)
      returns (all: seq<Event>, t: State)
    requires Runs(s, events, m) && Smooth(events, r) && r < |m.requests| && OnlyChanged(s, m, r, false)
    requires Pending(m.row) && m.requests[r].pc == TakingOver(m.row.value.id)
    ensures Runs(s, all, t) && Smooth(all, r) && OnlyChanged(s, t, r, true)
    ensures var q := m.requests[r];
            var id := Id(r, q.attempt + 1);
            && t.row == Closed(Some(Row(id, q.hash, q.now, None)), id, outcome)
            && t.requests[r].pc == Done(AnswerOf(outcome))
  {
    hide Closed, AnswerOf, Runs;
    var a := Next(m, DeleteStale(r));
    OneMore(s, events, m, DeleteStale(r));
    var b := Next(a, Insert(r));
    OneMore(s, events + [DeleteStale(r)], a, Insert(r));
    all, t := DispatchAndClose(s, events + [DeleteStale(r)] + [Insert(r)], b, r, outcome);
  }
}
