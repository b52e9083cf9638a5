/**
 Any number of requests with one (user, path, key) running `idempotent` at once. Every SQL
 statement is one atomic step on the shared row; between its steps a request may stall for ever,
 die, or lose a statement's reply.
 */
module IdempotencyProtocol {
  import opened Wrappers
  import opened IdempotencyTable

  datatype Pc =
    | Inserting                      // about to run the INSERT
    | Reading                        // lost the INSERT, about to SELECT
    | TakingOver(stale: Id)          // read a stale row, about to delete it
    | Owning                         // won the INSERT, dispatch not started
    | Dispatching
    | Closing(outcome: Outcome)      // dispatch over, closing statement not run
    | Done(answer: Answer)
    | Dead

  /** `now` is fixed on arrival and kept by every retry; `taken` is history. */
  datatype Request = Request(now: int, hash: string, pc: Pc, attempt: nat, taken: seq<Id>)

  /** `clock`, `starts` and `wins` are history: no step of a request reads them. */
  datatype State = State(clock: int, row: Option<Row>, requests: seq<Request>, starts: set<nat>, wins: set<nat>)

  datatype Event =
    | Tick(to: int)
    | Insert(r: nat)
    | InsertFailed(r: nat, landed: bool)     // the statement fails; its row may be there all the same
    | InsertNotUnique(r: nat)                // the statement reports a unique violation
    | Select(r: nat)
    | DeleteStale(r: nat)
    | StartDispatch(r: nat)
    | EndDispatch(r: nat, outcome: Outcome)
    | Close(r: nat, answered: bool)          // the closing statement lands; the reply may be lost
    | UpdateFailed(r: nat)                   // the closing UPDATE fails and the client is answered anyway
    | Die(r: nat)

  predicate Acts(s: State, r: nat) {
    r < |s.requests| && !s.requests[r].pc.Done? && !s.requests[r].pc.Dead?
  }

  predicate Enabled(s: State, e: Event) {
    match e
    case Tick(to) => s.clock <= to
    case Insert(r) => Acts(s, r) && s.requests[r].pc.Inserting?
    case InsertFailed(r, _) => Acts(s, r) && s.requests[r].pc.Inserting?
    case InsertNotUnique(r) => Acts(s, r) && s.requests[r].pc.Inserting?
    case Select(r) => Acts(s, r) && s.requests[r].pc.Reading?
    case DeleteStale(r) => Acts(s, r) && s.requests[r].pc.TakingOver?
    case StartDispatch(r) => Acts(s, r) && s.requests[r].pc.Owning?
    case EndDispatch(r, _) => Acts(s, r) && s.requests[r].pc.Dispatching?
    case Close(r, _) => Acts(s, r) && s.requests[r].pc.Closing?
    case UpdateFailed(r) => Acts(s, r) && s.requests[r].pc.Closing? && Succeeded(s.requests[r].pc.outcome)
    case Die(r) => Acts(s, r)
  }

  function At(s: State, r: nat, pc: Pc): State
    requires r < |s.requests|
  {
    s.(requests := s.requests[r := s.requests[r].(pc := pc)])
  }

  function MyId(s: State, r: nat): Id
    requires r < |s.requests|
  {
    Id(r, s.requests[r].attempt)
  }

  function MyRow(s: State, r: nat): Row
    requires r < |s.requests|
  {
    Row(MyId(s, r), s.requests[r].hash, s.requests[r].now, None)
  }

  function Next(s: State, e: Event): State
    requires Enabled(s, e)
  {
    match e
    case Tick(to) => s.(clock := to)
    case Insert(r) =>
      At(s, r, if s.row.None? then Owning else Reading).(row := Inserted(s.row, MyRow(s, r)))
    case InsertFailed(r, landed) =>
      At(s, r, Done(Internal)).(row := if landed then Inserted(s.row, MyRow(s, r)) else s.row)
    case InsertNotUnique(r) => At(s, r, Reading)
    case Select(r) =>
      (match VerdictOn(s.row, s.requests[r].now, s.requests[r].hash)
       case Finish(answer) => At(s, r, Done(answer))
       case TakeOver(id) =>
         s.(requests := s.requests[r := s.requests[r].(pc := TakingOver(id), taken := s.requests[r].taken + [id])]))
    case DeleteStale(r) =>
      s.(requests := s.requests[r := s.requests[r].(pc := Inserting, attempt := s.requests[r].attempt + 1)],
         row := Deleted(s.row, s.requests[r].pc.stale))
    case StartDispatch(r) => At(s, r, Dispatching).(starts := s.starts + {r})
    case EndDispatch(r, outcome) =>
      At(s, r, Closing(outcome)).(wins := if Succeeded(outcome) then s.wins + {r} else s.wins)
    case Close(r, answered) =>
      var outcome := s.requests[r].pc.outcome;
      At(s, r, if answered then Done(AnswerOf(outcome)) else Dead).(row := Closed(s.row, MyId(s, r), outcome))
    case UpdateFailed(r) => At(s, r, Done(AnswerOf(s.requests[r].pc.outcome)))
    case Die(r) => At(s, r, Dead)
  }

  predicate Initial(s: State) {
    && s.row.None?
    && s.starts == {} && s.wins == {}
    && forall r :: 0 <= r < |s.requests| ==>
         s.requests[r].pc.Inserting? && s.requests[r].attempt == 0 && s.requests[r].taken == []
  }

  /** `events` lead from `s` to `t`. */
  predicate Runs(s: State, events: seq<Event>, t: State)
    decreases |events|
  {
    if events == [] then s == t
    else Enabled(s, events[0]) && Runs(Next(s, events[0]), events[1..], t)
  }

  /** The request has put a row of its own in the table at some time. */
  predicate HasInserted(pc: Pc) {
    pc.Owning? || pc.Dispatching? || pc.Closing? || pc.Done? || pc.Dead?
  }

  /** Between winning the INSERT and its closing statement. */
  predicate Live(pc: Pc) {
    pc.Owning? || pc.Dispatching? || pc.Closing?
  }

  /** The row is the one its owner put there, and once it holds a response that owner is past writing. */
  predicate RowIsOwned(s: State) {
    s.row.Some? ==>
      var row := s.row.value;
      var o := row.id.request;
      && o < |s.requests|
      && row == MyRow(s, o).(response := row.response)
      && HasInserted(s.requests[o].pc)
      && (row.response.Some? ==>
            s.requests[o].pc == Dead || s.requests[o].pc == Done(Own(Responded(row.response.value))))
      && (row.response.Some? ==> Trimmed(row.response.value) == row.response.value)
  }

  predicate ReplaysTheRow(s: State, r: nat)
    requires r < |s.requests|
  {
    (s.requests[r].pc.Done? && s.requests[r].pc.answer.Replay?) ==>
      && Stored(s.row)
      && s.row.value.hash == s.requests[r].hash
      && s.row.value.response.value == s.requests[r].pc.answer.response
  }

  /** What every interleaving keeps, with no assumption on time. */
  predicate Inv(s: State) {
    && RowIsOwned(s)
    && forall r :: 0 <= r < |s.requests| ==> ReplaysTheRow(s, r)
  }

  lemma InvStep(s: State, e: Event)
    requires Inv(s) && Enabled(s, e)
    ensures Inv(Next(s, e))
    ensures Stored(s.row) ==> Next(s, e).row == s.row
  {
    var t := Next(s, e);
    forall q | 0 <= q < |t.requests| ensures ReplaysTheRow(t, q) {
      assert ReplaysTheRow(s, q);
    }
  }

  lemma {:induction false} InvRun(s: State, events: seq<Event>, t: State)
    requires Inv(s) && Runs(s, events, t)
    ensures Inv(t)
    ensures Stored(s.row) ==> t.row == s.row
    decreases |events|
  {
    if events != [] {
      InvStep(s, events[0]);
      InvRun(Next(s, events[0]), events[1..], t);
    }
  }

  /** A stored response stays, whatever any request does afterwards. */
  lemma StoredForEver(s: State, before: seq<Event>, m: State, after: seq<Event>, t: State)
    requires Initial(s) && Runs(s, before, m) && Stored(m.row) && Runs(m, after, t)
    ensures t.row == m.row
  {
    InvRun(s, before, m);
    InvRun(m, after, t);
  }

  /**
   In every run, all replays carry one status and body: those of the stored
   row, for a request with the body that wrote it, and those its owner
   answered if the owner lived to answer.
   */
  lemma ReplaysAgree(s: State, events: seq<Event>, t: State, r: nat)
    requires Initial(s) && Runs(s, events, t)
    requires r < |t.requests| && t.requests[r].pc.Done? && t.requests[r].pc.answer.Replay?
    ensures Stored(t.row) && t.row.value.id.request < |t.requests|
    ensures var o := t.requests[t.row.value.id.request];
            && o.hash == t.requests[r].hash
            && (o.pc.Done? ==> o.pc.answer == Own(Responded(t.requests[r].pc.answer.response)))
            && (o.pc.Done? || o.pc.Dead?)
    ensures forall q :: 0 <= q < |t.requests| && t.requests[q].pc.Done? && t.requests[q].pc.answer.Replay? ==>
              t.requests[q].pc.answer == t.requests[r].pc.answer
  {
    InvRun(s, events, t);
    assert ReplaysTheRow(t, r);
    forall q | 0 <= q < |t.requests| && t.requests[q].pc.Done? && t.requests[q].pc.answer.Replay?
      ensures t.requests[q].pc.answer == t.requests[r].pc.answer
    {
      assert ReplaysTheRow(t, q);
    }
  }

  /**
   Who can change the row: a request inserts its own into an empty table,
   closes its own, or removes the pending row it read as stale.
   So a request whose row was taken over cannot touch the successor's.
   */
  lemma OnlyOwnRowIsWritten(s: State, e: Event)
    requires Inv(s) && Enabled(s, e) && Next(s, e).row != s.row
    ensures !e.Tick?
    ensures s.row.None? ==> Next(s, e).row == Some(MyRow(s, e.r)) && s.requests[e.r].pc.Inserting?
    ensures s.row.Some? ==> Pending(s.row)
    ensures s.row.Some? && s.row.value.id.request != e.r ==>
              s.requests[e.r].pc == TakingOver(s.row.value.id) && Next(s, e).row.None?
    ensures Live(s.requests[e.r].pc) ==> s.row.value.id == MyId(s, e.r)
  {
  }
}
